/** Result and Option datatypes, the error codes of the crates, and the machine integers. */
module Wrappers {

  datatype Option<+T> = None | Some(value: T)

  /** One constructor per error the modelled functions return, whichever crate declares it. */
  datatype Error =
    | InvalidPoint
    | InvalidScalar
    | VssShareInvalid
    | PokInvalid
    | DomainMismatch
    | DuplicateParticipant
    | UnknownParticipant
    | InsufficientMessages
    | InvalidSigningSet
    | ResharePolyNonZero
    | SessionIdMismatch
    | InvalidState
    | ChallengeOutOfRange
    | CheatingDetected
    | CoinSignatureInvalid
    | CoinPubkeyMismatch
    | MissingShare
    | AlreadyInFlight
    | NoSession
    | ShareNotLoaded
    | NullifierNotFinalized
    | Malformed
    | UnknownKeysetId
    | KeysetRevoked
    | KeysetAlreadyRegistered
    | KeysetRegistryFull
    | DoubleSpend
    | DepositAmountMismatch
    | VaultInsufficientCollateral
    | VaultInvariantViolation
    | InvalidAccountData
    | AccountDataTooSmall
    | BootstrapSizeInvalid
    | InsufficientFunds
    | RateLimited
    | WrongScheme
    | MissingRecipient
    | InvalidRecipientHex
    | InvalidDenom
    | InvalidRelayUrl
    | MemoNotBase64
    | MemoTooLong
    | MissingDenom

  datatype Result<+T> = Ok(value: T) | Err(error: Error) {

    predicate IsFailure() {
      Err?
    }

    function PropagateFailure<U>(): Result<U>
      requires Err?
    {
      Err(error)
    }

    function Extract(): T
      requires Ok?
    {
      value
    }
  }

  type u8 = x: int | 0 <= x < 0x100
  type u16 = x: int | 0 <= x < 0x1_0000
  type u32 = x: int | 0 <= x < 0x1_0000_0000
  type u64 = x: int | 0 <= x < 0x1_0000_0000_0000_0000

  /** Thirty-two bytes, read as a little-endian number. */
  type Bytes32 = x: int |
    0 <= x < 0x1_0000000000000000_0000000000000000_0000000000000000_0000000000000000

  /** Ceremony and session identifiers. */
  type Bytes16 = x: int | 0 <= x < 0x1_0000000000000000_0000000000000000

  /** No entry repeats an earlier one; `DistinctIndices` in `Lists` gives the form with indices. */
  predicate Distinct<T(==)>(s: seq<T>) {
    s == [] || (Distinct(s[..|s| - 1]) && s[|s| - 1] !in s[..|s| - 1])
  }
}
