# TARDUS protocol model

A Dafny model of TARDUS, a bearer-coin mint on Solana: the threshold blind Schnorr signatures by which a committee
issues coins, the distributed key generation and share rotation behind the committee's key, the cut-and-choose refresh
of coins, the validators' session stores and request handlers, the on-chain program with its accounts, and the codecs
around them. Every file states what one part of the system does, as loops and objects where the system has loops and
objects, and proves what that part promises.

`dafny verify dfyconfig.toml` checks everything.

## How the system is modelled

- **Field.** Scalars are integers modulo `Field.Q`, a constant without a value: any prime above 65535 that leaves room
  for the cofactor in 32 bytes. Inverses are computed by the extended Euclidean recursion and proved to exist.
- **Group.** The points of edwards25519 form a cyclic group of order 8 times the subgroup order, so a point is its
  logarithm modulo `8 * Q`, the base point is 8 and a point is torsion-free when it is a multiple of 8. `Group.H`, the
  second Pedersen generator, is any torsion-free point but the identity.
- **Hashes and encodings** are constants without a value: the challenge hash, key derivation, the choice of the refresh
  candidate, the nullifier hash and the log's hash are arbitrary functions, and point encoding is any codec whose
  decoding undoes its encoding. Thirty-two bytes are numbers below 2^256 in little-endian order.
- **Randomness and clocks** are parameters: every statement holds for all nonces, polynomials, seeds and blinding
  factors.
- **Loops and objects.** A method in the source's loop form is proved equal to a specification function; the lemmas
  are about that function. Session stores, registries, vaults, account data, readers and writers are classes.
- **Runs.** A protocol is a state machine whose steps are the validators' handlers, run one at a time in any order. In
  `Committee` every start draws new scalars, a relay names the broadcast it carries, and messages may be repeated, lost,
  reordered or replaced by later ones; dealers are honest and a ceremony's parameters are the same for all its members.

## Where to start

| file | content |
|---|---|
| `Lagrange.dfy`, `Vss.dfy`, `Threshold.dfy` | interpolation at zero, secret sharing, threshold issuance |
| `Dkg.dfy`, `Rotation.dfy`, `DkgCeremony.dfy`, `ReshareCeremony.dfy` | key generation and share rotation for one validator |
| `Committee.dfy`, `CommitteeSafety.dfy` | the committee as a state machine: invariant, agreement, issuance after any run |
| `CommitteeRefresh.dfy`, `CommitteeRecords.dfy` | refresh through the handlers after any run, what stored records say |
| `CommitteeRestarts.dfy`, `RotationRestarts.dfy` | what reusing a ceremony identifier does, exactly |
| `Refresh.dfy`, `CutAndChoose.dfy`, `RefreshCompleteness.dfy` | the refresh protocol, what an opening proves, completeness |
| `Demo.dfy` | key generation, issuance and refresh composed in one process |
| `ValidatorNode.dfy`, `ValidatorApi.dfy`, `Requests.dfy`, `NonceProtocol.dfy` | handlers of one validator, when they accept, one-shot nonces |
| `Processor.dfy`, `OnChainVault.dfy`, `Accounts.dfy`, `Sponsor.dfy`, `Instruction.dfy` | the on-chain program |
| `Invoice.dfy`, `InvoiceGrammar.dfy`, `Montgomery.dfy`, `TransparencyLog.dfy` | payment URIs, the ladder, the hash chain |

## Model

| member | source | states |
|---|---|---|
| Lagrange.LagrangeCoefficientAtZero | crates/tardus-mint/src/sign.rs:260-283 | the loop gives the fraction of the two products over the other indices, with an error exactly for a foreign index or an index zero; its zero-denominator exit is never taken |
| Lagrange.LambdaFraction | crates/tardus-mint/src/sign.rs:260-283 | the coefficient times the product of index differences equals the product of negated indices |
| Lagrange.Reconstruction | crates/tardus-mint/src/sign.rs:260-283 | for every duplicate-free set and every polynomial with no more coefficients than members, the weighted values sum to the constant coefficient |
| Lagrange.ValuesDetermine | crates/tardus-mint/src/vss.rs:1-7 | polynomials with no more coefficients than a duplicate-free zero-free set has members agree on the set iff their coefficients are the same scalars |
| Lagrange.RepeatedIndexShiftsWeights | crates/tardus-mint/src/sign.rs:257-283 | a signing set that names another member twice is accepted and gives a different coefficient |
| Polynomials.HornerEvalScalar | crates/tardus-mint/src/vss.rs:411-417 | the loop computes Horner's rule |
| Polynomials.HornerIsPolyAt | crates/tardus-mint/src/vss.rs:411-417 | Horner's rule is the value of the polynomial modulo the prime |
| Vss.NewParameters | crates/tardus-mint/src/vss.rs:94-99 | accepts exactly 1 <= t <= n |
| Vss.Deal | crates/tardus-mint/src/vss.rs:308-363 | commitments to all coefficients and the n shares of the drawn polynomials with the given secret |
| Vss.DealtShare | crates/tardus-mint/src/vss.rs:308-363 | share j holds the values of both polynomials at j |
| Vss.VerifyShare | crates/tardus-mint/src/vss.rs:377-404 | the share's commitment is compared with Horner's rule on the commitments; index zero is refused |
| Vss.HornerInTheExponent | crates/tardus-mint/src/vss.rs:377-404 | Horner's rule on commitments commits to the polynomials' values |
| Vss.HornerPointIsSum | crates/tardus-mint/src/vss.rs:377-404 | on any commitments whatever the rule gives the sum of index powers times commitments, in the group |
| Vss.FeldmanInTheExponent | crates/tardus-mint/src/vss.rs:308-363 | the Feldman commitments of a dealing commit to the values of its polynomial |
| Vss.ShareAcceptance | crates/tardus-mint/src/vss.rs:377-404 | against honest commitments a share is accepted iff it commits to what the dealt share commits to |
| Vss.DealtShareVerifies | crates/tardus-mint/src/vss.rs:308-404 | every dealt share verifies |
| Vss.ShareBinding | crates/tardus-mint/src/vss.rs:377-404 | two accepted shares with one index and different f-parts give the logarithm of H, whatever the commitments |
| Schnorr.HonestPublicKey | crates/tardus-core/src/group.rs:66-68 | the encoding of every multiple of the base point is a valid public key |
| Schnorr.VerifyEquation | crates/tardus-core/src/signature.rs:76-87 | under a key and a commitment exactly one scalar verifies |
| Schnorr.VerifiesIff | crates/tardus-core/src/signature.rs:76-87 | for any bytes: accepted iff both points decode, the scalar is canonical and the equation holds in the group of order 8 * Q; which error otherwise |
| Schnorr.SignThenVerify | crates/tardus-core/src/signature.rs:50-87 | every signature made with a key's secret verifies |
| Schnorr.BlindIssuance | crates/tardus-core/src/blind.rs:79-137 | the request succeeds and the unblinded signature verifies iff the response is the right scalar |
| Schnorr.RefusedIff | crates/tardus-core/src/blind.rs:79-137 | the rounds refuse exactly points that do not decode and scalars that are not canonical |
| Schnorr.SingleSignerIssuance | crates/tardus-core/src/blind.rs:66-137 | the four rounds with one signer end in a valid signature |
| Sign.AggregateCommitments | crates/tardus-mint/src/sign.rs:123-155 | sum of the decoded commitments, or the first error in message order |
| Sign.PartialSign | crates/tardus-mint/src/sign.rs:177-199 | nonce plus challenge times Lagrange weight times share, with the source's errors |
| Sign.PartialSignAcceptedIff | crates/tardus-mint/src/sign.rs:177-199 | answers iff the challenge is canonical, the signer is in the set and zero is not, with the nonce plus challenge times weighted share |
| Sign.AggregateResponses | crates/tardus-mint/src/sign.rs:212-243 | sum of the scalars, or the first error in message order |
| Sign.CommitmentsAcceptedIff | crates/tardus-mint/src/sign.rs:128-144 | accepted iff the senders are a permutation of a duplicate-free signing set, all ids match and all points decode |
| Sign.ResponsesAcceptedIff | crates/tardus-mint/src/sign.rs:217-233 | the same for responses that are canonical scalars |
| Sign.AggregatesAreSums | crates/tardus-mint/src/sign.rs:123-243 | whatever was sent, accepted commitments are added in the group and accepted responses modulo Q |
| Sign.CommitmentRefused | crates/tardus-mint/src/sign.rs:128-152 | the error is that of the first bad commitment, in the order of the checks |
| Sign.ResponseRefused | crates/tardus-mint/src/sign.rs:217-240 | the same for responses |
| Threshold.ThresholdSum | crates/tardus-mint/src/sign.rs:177-243 | summed in any order, partial scalars give the nonce sum plus the challenge times the secret |
| Threshold.ThresholdIssuance | crates/tardus-mint/src/sign.rs:123-243 | for any large enough duplicate-free set with shares on one polynomial the request succeeds, no member is refused when it signs, and the signature verifies under the polynomial's key, for all nonces, blinding factors, messages and message orders |
| Threshold.SessionVerdict | crates/tardus-mint/src/sign.rs:123-243 | with any shares at all everyone signs, and the signature verifies under a key iff the challenge times what the shares interpolate is the challenge times the key's secret |
| Threshold.OneDeviatingShare | crates/tardus-mint/src/sign.rs:177-243 | with one share off the polynomial by any error the signature verifies iff the error or the blinded challenge is zero |
| Dkg.PokMsgBinds | crates/tardus-mint/src/dkg.rs:44-51 | the signed message determines ceremony and dealer |
| Dkg.PokMsgLayout | crates/tardus-mint/src/dkg.rs:44-51 | the domain separator, the ceremony at byte 27 and the index at byte 43 of 45 |
| Dkg.PokIff | crates/tardus-mint/src/dkg.rs:196-206 | accepted iff the secret commitment is torsion-free and the proof satisfies the verification equation for that commitment, ceremony and dealer |
| Dkg.DkgStart | crates/tardus-mint/src/dkg.rs:142-183 | round 1: commitments, shares and proof of knowledge of the drawn dealing |
| Dkg.DkgFinalize | crates/tardus-mint/src/dkg.rs:232-305 | the checks in order, then joint key, share sum and sorted index list |
| Dkg.DkgAcceptedIff | crates/tardus-mint/src/dkg.rs:232-305 | succeeds iff n - 1 contributions from distinct others arrive, each for this receiver and ceremony with a share that verifies and a proof that satisfies the verification equation in the group, the own proof does too, and the joint point is torsion-free |
| Dkg.PeerRefused | crates/tardus-mint/src/dkg.rs:245-268 | the error is that of the first bad contribution, in the order of the checks |
| Dkg.FinalisedIs | crates/tardus-mint/src/dkg.rs:270-305 | whoever dealt: the key is the group's sum of all secret commitments, the share the sum of all shares, the list everyone heard from, sorted |
| Dkg.DkgCorrect | crates/tardus-mint/src/dkg.rs:232-305 | with honest dealings, in any order: key f(0) times the base point, share f(i), qualified set 1..n for one f with t coefficients |
| Rotation.ReshareStart | crates/tardus-mint/src/rotation.rs:111-150 | round 1 deals a polynomial with zero constant; the debug assertion is proved |
| Rotation.ReshareFinalize | crates/tardus-mint/src/rotation.rs:190-258 | the checks in order, then old share plus the sum of received shares |
| Rotation.ReshareAcceptedIff | crates/tardus-mint/src/rotation.rs:190-258 | succeeds iff n - 1 valid zero-secret contributions from distinct others arrive |
| Rotation.PeerRefused | crates/tardus-mint/src/rotation.rs:190-258 | the error is that of the first bad contribution |
| Rotation.FinalisedIs | crates/tardus-mint/src/rotation.rs:190-258 | whoever dealt: the old share plus all shares received, and everyone heard from, sorted |
| Rotation.ReshareCorrect | crates/tardus-mint/src/rotation.rs:190-258 | with honest dealings every share moves by the value of one polynomial that vanishes at zero |
| Coin.NewCoin | crates/tardus-refresh/src/coin.rs:37-51 | succeeds iff the public commitment belongs to the secret |
| Refresh.ComputeGammaStar | crates/tardus-refresh/src/refresh.rs:193-199 | the choice lies in 1..kappa, and the choice less one leaves the hash byte's remainder modulo kappa |
| Refresh.ChoiceNearUniform | crates/tardus-refresh/src/refresh.rs:193-199 | every candidate is chosen by some hash byte, and the numbers of bytes that choose two candidates differ by at most one |
| Refresh.ValidatorRefreshRound1 | crates/tardus-refresh/src/refresh.rs:209-239 | one commitment per drawn nonce |
| Refresh.AggregateRefreshRound1 | crates/tardus-refresh/src/refresh.rs:251-300 | candidate-wise sums, or the first error |
| Refresh.UserRefreshRound2 | crates/tardus-refresh/src/refresh.rs:315-391 | one blinded candidate per seed and pair of blinding factors |
| Refresh.MintRefreshRound3 | crates/tardus-refresh/src/refresh.rs:402-424 | a choice is made iff the ids agree and the melted coin verifies, and it is the one that the session's hash byte selects |
| Refresh.UserRefreshRound4 | crates/tardus-refresh/src/refresh.rs:435-462 | opens every candidate but the chosen one |
| Refresh.MintRefreshVerifyReveal | crates/tardus-refresh/src/refresh.rs:479-544 | the mint's checks on an opening, in order |
| Refresh.ValidatorRefreshRound5 | crates/tardus-refresh/src/refresh.rs:561-596 | the partial signature on the chosen candidate |
| Refresh.AggregateRefreshRound5 | crates/tardus-refresh/src/refresh.rs:607-636 | sum of the partial signatures, or the first error |
| Refresh.UserRefreshRound6 | crates/tardus-refresh/src/refresh.rs:655-694 | a returned coin satisfies the coin invariant and verifies |
| CutAndChoose.AcceptedIff | crates/tardus-refresh/src/refresh.rs:479-544 | accepted iff ids agree, the key decodes, the opened indices are exactly 1..kappa without the choice, and each triple recomputes its challenge |
| CutAndChoose.AcceptedOpensTheOthers | crates/tardus-refresh/src/refresh.rs:479-544 | an accepted opening opens every slot but the chosen one |
| CutAndChoose.TwoChoicesOpenEverySlot | crates/tardus-refresh/src/refresh.rs:479-544 | openings accepted under two choices open all slots |
| CutAndChoose.UnopenableSlotIsTheChoice | crates/tardus-refresh/src/refresh.rs:479-544 | a message with an unopenable slot is accepted for at most one choice |
| CutAndChoose.Round1AcceptedIff | crates/tardus-refresh/src/refresh.rs:257-281 | round-1 messages accepted iff their senders permute a duplicate-free signing set and all are well-formed |
| CutAndChoose.Round5AcceptedIff | crates/tardus-refresh/src/refresh.rs:612-627 | the same for round 5 |
| CutAndChoose.AggregatesAreSums | crates/tardus-refresh/src/refresh.rs:251-636 | whatever was sent, accepted commitments are added candidate by candidate in the group and accepted partial signatures modulo Q |
| CutAndChoose.Round1Refused | crates/tardus-refresh/src/refresh.rs:257-281 | the error is that of the first bad message, in the order of the checks |
| CutAndChoose.Round5Refused | crates/tardus-refresh/src/refresh.rs:612-633 | the same for round 5 |
| CutAndChoose.Round2AcceptedIff | crates/tardus-refresh/src/refresh.rs:315-391 | the user blinds iff the ids agree, there is a candidate and all points decode |
| CutAndChoose.OpeningRefused | crates/tardus-refresh/src/refresh.rs:479-544 | which error a refused opening gives, in the order of the checks |
| CutAndChoose.PartialAcceptedIff | crates/tardus-refresh/src/refresh.rs:561-596 | a validator answers iff the ids agree, the choice is in range, the challenge canonical, it is in the set and zero is not; with the nonce of the choice and its weighted share |
| CutAndChoose.Round6AcceptedIff | crates/tardus-refresh/src/refresh.rs:655-694 | a coin comes out iff the ids agree, the choice is in range, the response is canonical and the unblinded signature verifies |
| RefreshCompleteness.SessionStarts | crates/tardus-refresh/src/refresh.rs:251-391 | honest rounds 1 and 2 succeed for all draws and message orders |
| RefreshCompleteness.HonestOpeningAccepted | crates/tardus-refresh/src/refresh.rs:435-544 | the honest opening passes for every choice |
| RefreshCompleteness.RefreshCompletes | crates/tardus-refresh/src/refresh.rs:435-694 | for every kappa and choice the opening is accepted, no member is refused in round 5, and their answers in any order end in a valid coin, from the chosen seed, that verifies under the joint key |
| Demo.RunDkg | crates/tardus-cli/src/commands/demo.rs:149-175 | fails only for bad parameters; all validators end with one key and the shares of one polynomial |
| Demo.IssueCoin | crates/tardus-cli/src/commands/demo.rs:177-207 | with honest keys and enough signers a valid coin always comes out and verifies |
| Demo.RefreshCoin | crates/tardus-cli/src/commands/demo.rs:209-252 | with honest keys a coin comes out iff the melted coin verifies; a coin that comes out verifies |
| Demo.LifecycleSim | crates/tardus-cli/src/commands/demo.rs:81-143 | four validators with threshold three: no step fails and both coins verify |
| CeremonySessions.CeremonyStore.Start | crates/tardus-validator/src/dkg_sessions.rs:44-51 | stored unless the id is in flight |
| CeremonySessions.CeremonyStore.Contribute | crates/tardus-validator/src/dkg_sessions.rs:59-69 | stored under the index, replacing an earlier one; the count is returned |
| CeremonySessions.CeremonyStore.TakeFinalisable | crates/tardus-validator/src/reshare_sessions.rs:61-77 | removed and handed out, ordered by index, iff n - 1 contributions are there; otherwise unchanged |
| CeremonySessions.CeremonyStore.Prune | crates/tardus-validator/src/dkg_sessions.rs:105-111 | keeps exactly the sessions whose age is below the limit |
| CeremonySessions.StepsAre | crates/tardus-validator/src/dkg_sessions.rs:44-96 | a start needs a free id, a contribution and a hand-out a stored one; only the named session changes, and a hand-out needs n - 1 contributions and removes it |
| CeremonySessions.SortedKeys | crates/tardus-validator/src/dkg_sessions.rs:89-93 | sorting the keys in any iteration order gives one list |
| CeremonySessions.HandedOutInOrder | crates/tardus-validator/src/dkg_sessions.rs:89-93 | contributions are handed out once each, in ascending order of the indices they are stored under |
| DkgCeremony.FinalizeTracked | crates/tardus-validator/src/api.rs:867-939 | a stored honest session with n - 1 contributions finalises to the key, share and record its dealings determine; with fewer nothing changes |
| ReshareCeremony.FinalizeTracked | crates/tardus-validator/src/api.rs:1103-1187 | the same for reshare: the share moves by what the used dealings add at the index |
| Holdings.SecretStays | crates/tardus-mint/src/rotation.rs:1-20 | no sequence of reshare ceremonies moves the secret |
| Holdings.OrderIrrelevant | crates/tardus-mint/src/rotation.rs:190-258 | members that finalise the same reshares in different orders share one polynomial |
| Committee.NextKeepsInv | crates/tardus-validator/src/api.rs:736-1187 | every step of key generation, reshare, expiry and other work, with fresh draws at every start, keeps: stored sessions hold what was broadcast, and stored records are what the used dealings determine |
| CommitteeSafety.KeyFinalizeIff | crates/tardus-validator/src/api.rs:867-939 | in every reachable state a key generation finalises iff it is in flight with all contributions |
| CommitteeSafety.ZeroFinalizeIff | crates/tardus-validator/src/api.rs:1103-1187 | the same for reshare, whatever ran in between |
| CommitteeSafety.AgreementIff | crates/tardus-validator/src/api.rs:867-939 | in every run, two members that finalised one ceremony agree on the qualified set, on the key iff the secrets they used have one sum, and on every share iff the polynomials they used have one sum |
| CommitteeSafety.Agreement | crates/tardus-validator/src/api.rs:736-792 | if no member had two starts of a ceremony accepted, all that finalise it have one key and hold values of one polynomial with t coefficients |
| CommitteeSafety.HoldingsAgreeIff | crates/tardus-validator/src/api.rs:1103-1187 | two stored records name one key iff the dealt secrets have one sum, and belong to one sharing iff the polynomials behind them have the same coefficients |
| CommitteeSafety.InStepShares | crates/tardus-validator/src/api.rs:1103-1187 | after any run, members that used the same dealings, reshares in any order, store values of one polynomial under the original key |
| CommitteeSafety.CommitteeIssues | crates/tardus-validator/src/api.rs:216-332 | in any run that mixes key generation, reshare and signing, such members sign through their handlers with their stored records, and the signature verifies under the key those records name |
| CommitteeRefresh.HandlerRefreshes | crates/tardus-validator/src/api.rs:373-703 | the two refresh handlers answer with the stored index, share and nonces and the requested signing set |
| CommitteeRefresh.CommitteeRefreshesCoins | crates/tardus-validator/src/api.rs:373-703 | in any run such members refresh through their handlers: for every kappa, every choice, all draws and message orders none is refused and the user ends with a coin of the chosen seed that verifies under the key their records name |
| CommitteeRecords.RecordsAreLabelled | crates/tardus-validator/src/api.rs:867-1187 | in every reachable state a stored record names its own key, has that key's threshold, and its epoch is one more than the number of reshares behind it |
| CommitteeSafety.NamesSuffice | crates/tardus-validator/src/dkg_sessions.rs:44-51 | if no start was accepted twice in the ceremonies involved, having finalised ceremonies of the same names is enough for that |
| CommitteeSafety.OneMemberAstray | crates/tardus-mint/src/sign.rs:177-243 | with one signer that used other dealings the signature verifies iff the two polynomials agree at its index or the blinded challenge is zero |
| CommitteeRestarts.KeyRestartRuns | crates/tardus-validator/src/dkg_sessions.rs:44-69 | from any reachable state, a member whose session is gone can start again with new scalars, its second broadcast replaces the first at a member that has not finalised, and that member finalises with it |
| CommitteeRestarts.KeyRestartSplits | crates/tardus-mint/src/dkg.rs:270-288 | users of the first and of the second dealing agree on the key iff the dealt secrets are equal, and on the sharing iff the dealt polynomials are |
| CommitteeRestarts.TwoOutputsDisagree | crates/tardus-validator/src/dkg_sessions.rs:44-51 | an honest run from the beginning whose two outputs for one ceremony disagree unless the two dealings coincide |
| RotationRestarts.ZeroRestartRuns | crates/tardus-validator/src/reshare_sessions.rs:36-58 | the same restart for reshare, from any reachable state |
| RotationRestarts.ZeroRestartSplits | crates/tardus-mint/src/rotation.rs:190-258 | the key stays common, and the sharing is common iff both dealt polynomials are equal |
| RotationRestarts.TwoHoldingsDisagree | crates/tardus-validator/src/api.rs:1103-1187 | an honest run from the beginning, key generation included, that ends with shares of different polynomials under one key unless the two dealings coincide |
| NonceSessions.NonceStore.Insert | crates/tardus-validator/src/sign_sessions.rs:45-52 | stored unless the session id is in flight |
| NonceSessions.NonceStore.Take | crates/tardus-validator/src/refresh_sessions.rs:45-48 | handed out once and removed |
| NonceSessions.NonceStore.Prune | crates/tardus-validator/src/sign_sessions.rs:69-75 | keeps exactly the sessions whose age is below the limit |
| NonceProtocol.NoncesAreOneShot | crates/tardus-validator/src/api.rs:216-332 | over every run each nonce is in at most one returned partial signature, for the session it was announced under, even when ids are reused |
| NonceProtocol.GuardedRefresh | crates/tardus-validator/src/api.rs:625-651 | with the guard on, a refresh signature is returned only for a coin whose nullifier the program stored |
| NonceProtocol.CountersCount | crates/tardus-validator/src/api.rs:216-431 | over every run the session counters are the numbers of sessions opened, capped at 2^64 - 1 |
| Requests.KeyStartIff | crates/tardus-validator/src/api.rs:736-792 | accepted iff threshold and index are in range and the id is not in flight; what is stored |
| Requests.ZeroStartIff | crates/tardus-validator/src/api.rs:969-1026 | the same for reshare, from the loaded share |
| Requests.ContributeIff | crates/tardus-validator/src/api.rs:814-1078 | stored under the index iff the ceremony is in flight |
| Requests.FinalizeConsumes | crates/tardus-validator/src/api.rs:867-1187 | the ceremony is consumed once all peers were heard, whatever comes of it; before that nothing changes |
| Requests.SignOpensIff | crates/tardus-validator/src/api.rs:216-267 | a signing session opens iff a share is loaded and the id is free |
| Requests.RefreshOpensIff | crates/tardus-validator/src/api.rs:373-431 | a refresh session opens iff moreover kappa is positive |
| Requests.SignAnsweredIff | crates/tardus-validator/src/api.rs:292-332 | a signing request is answered iff a canonical share is loaded, the session open, the challenge canonical, the signer in the set and zero not |
| Requests.RefreshAnsweredIff | crates/tardus-validator/src/api.rs:596-703 | a refresh request is answered iff moreover the choice is in range and the guard finds the nullifier |
| Requests.PruneExactly | crates/tardus-validator/src/refresh_sessions.rs:58-64 | expiry drops exactly the sessions past their own kind's limit and changes nothing else |
| ValidatorApi.Validator.DkgStartHandler | crates/tardus-validator/src/api.rs:736-792 | checks, round 1 and the stored session, as one step on the validator's state |
| ValidatorApi.Validator.DkgContributeHandler | crates/tardus-validator/src/api.rs:814-842 | a peer's contribution is stored |
| ValidatorApi.Validator.DkgFinalizeHandler | crates/tardus-validator/src/api.rs:867-939 | the session is consumed and, on success, the share record replaced |
| ValidatorApi.Validator.ReshareStartHandler | crates/tardus-validator/src/api.rs:969-1026 | the same for reshare, from the loaded share's parameters |
| ValidatorApi.Validator.ReshareContributeHandler | crates/tardus-validator/src/api.rs:1047-1078 | a peer's contribution is stored |
| ValidatorApi.Validator.ReshareFinalizeHandler | crates/tardus-validator/src/api.rs:1103-1187 | share moved, epoch raised, key and keyset kept |
| ValidatorApi.Validator.SignRound1 | crates/tardus-validator/src/api.rs:216-267 | commitment returned iff a share is loaded and the id is not in flight |
| ValidatorApi.Validator.SignRound3 | crates/tardus-validator/src/api.rs:292-332 | the nonce is consumed whether or not signing succeeds |
| ValidatorApi.Validator.RefreshRound1 | crates/tardus-validator/src/api.rs:373-431 | the same for kappa nonces |
| ValidatorApi.Validator.RefreshRound5 | crates/tardus-validator/src/api.rs:596-703 | range checks, the on-chain guard, then the nonces are consumed; what the answer is worth is `CommitteeRefresh.CommitteeRefreshesCoins` |
| ValidatorApi.Validator.PruneAll | crates/tardus-validator/src/refresh_sessions.rs:58-64 | one tick of all timers expires each store by its own limit |
| State.KeysetRegistry.Find | crates/tardus-program/src/state.rs:56-58 | first entry with the id |
| State.KeysetRegistry.FindActiveForDenom | crates/tardus-program/src/state.rs:62-67 | the entry chosen by scanning for the greatest epoch |
| State.ActiveForIsLatest | crates/tardus-program/src/state.rs:62-67 | that entry is active for the denomination, of greatest epoch, last among equals; none iff no entry is active |
| State.ActiveForIff | crates/tardus-program/src/state.rs:62-67 | an entry is found iff it is that one |
| State.NullifierSet.Insert | crates/tardus-program/src/state.rs:112-114 | inserted, and whether it was new |
| Processor.ProcessRegisterKeyset | crates/tardus-program/src/processor.rs:48-83 | appended as active with its own fields, or duplicate or full; the fields are fixed by `Processor.RegisterAcceptedIff` |
| Processor.RegisterAcceptedIff | crates/tardus-program/src/processor.rs:48-83 | accepted iff the id is new and fewer than 256 are registered; every old entry is kept and the id becomes findable with the instruction's own denomination, key and epoch, active |
| Processor.RegisteredKeyServes | crates/tardus-program/src/processor.rs:67-83 | unless a greater epoch is active, the new keyset serves its denomination at once: an unspent valid coin under its key can be refreshed |
| Processor.ProcessDeposit | crates/tardus-program/src/processor.rs:95-120 | collateral raised by the denomination, or the source's errors |
| Processor.DepositAcceptedIff | crates/tardus-program/src/processor.rs:95-120 | accepted iff amount, denomination and vault agree, a keyset serves and the sum fits 64 bits; adds exactly the denomination |
| Processor.RegistryRefusals | crates/tardus-program/src/processor.rs:48-120 | which error a refused registration or deposit gives |
| Processor.ProcessRefresh | crates/tardus-program/src/processor.rs:137-158 | nullifier of a verified coin inserted, double spend refused |
| Processor.CoinAcceptedIff | crates/tardus-program/src/processor.rs:239-265 | the coin check passes iff the commitment is a torsion-free point and the signature verifies under the key that serves the denomination |
| Processor.RefreshAcceptedIff | crates/tardus-program/src/processor.rs:137-158 | accepted iff the coin passes that check and is unspent |
| Processor.ProcessWithdraw | crates/tardus-program/src/processor.rs:176-208 | the handler's own effect, including the nullifier inserted before the collateral check |
| Processor.WithdrawAcceptedIff | crates/tardus-program/src/processor.rs:176-208 | accepted iff moreover the vault is the denomination's and can pay; pays exactly the denomination |
| Processor.SpendRefusals | crates/tardus-program/src/processor.rs:137-208 | which error a refused spend gives, and what an accepted withdrawal reports |
| Processor.ProcessRevoke | crates/tardus-program/src/processor.rs:219-233 | the entry becomes revoked |
| Processor.RevokeAcceptedIff | crates/tardus-program/src/processor.rs:219-233 | accepted iff the id is registered; then its first entry is revoked and all others are unchanged |
| Processor.RollbackIsNeeded | crates/tardus-program/src/processor.rs:195-202 | an underfunded withdrawal fails with the nullifier already spent; only the rollback restores it |
| Processor.TransactFrame | crates/tardus-program/src/processor.rs:48-233 | a refused instruction changes nothing, and an accepted one only its own vault, registry entries or nullifier |
| Processor.VaultConservation | crates/tardus-program/src/processor.rs:95-208 | for vault records that persist between instructions, as the processors take them: after any run each holds its denomination times accepted deposits less accepted withdrawals |
| Processor.NoDoubleSpend | crates/tardus-program/src/processor.rs:137-208 | accepted nullifiers are pairwise different over any mix of refresh and withdraw, and are exactly the stored set |
| Processor.RegistryInvariant | crates/tardus-program/src/processor.rs:67-80 | ids stay unique and there are never more than 256 |
| Processor.RevocationIsPermanent | crates/tardus-program/src/processor.rs:219-233 | a revoked keyset stays revoked whatever follows |
| Processor.CoinIsSpentOnce | crates/tardus-program/src/processor.rs:239-265 | a valid coin under the active key refreshes iff its nullifier is fresh, withdraws iff moreover the vault can pay, and nothing spends it again in any further run |
| OnChainVault.DepositEntry | crates/tardus-program/src/sbf_processor.rs:225-260 | the deployed deposit checks the vault's lamports on a vault value it drops, and moves nothing |
| OnChainVault.SystemTransfer | crates/tardus-program/src/sbf_processor.rs:382-398 | both balances after a transfer, also to oneself, or an error without effect |
| OnChainVault.WithdrawEntry | crates/tardus-program/src/sbf_processor.rs:323-406 | signature by precompile, nullifier stored, balance checked, lamports moved to the recipient; exact acceptance is `OnChainVault.WithdrawAcceptedIff` |
| OnChainVault.RefreshAcceptedIff | crates/tardus-program/src/sbf_processor.rs:280-314 | accepted iff the precompile verified the signature under the key that serves the denomination and the nullifier is new; only the nullifier is added |
| OnChainVault.WithdrawAcceptedIff | crates/tardus-program/src/sbf_processor.rs:323-406 | accepted iff moreover the vault can pay and the credit fits; exactly the denomination moves from the vault to the recipient |
| OnChainVault.SpentRefusals | crates/tardus-program/src/sbf_processor.rs:280-375 | which error a refused spend gives |
| OnChainVault.RegistryCalls | crates/tardus-program/src/sbf_processor.rs:203-221 | registration and revocation do to the deployed registry what the processors do |
| OnChainVault.SpendsWereVerified | crates/tardus-program/src/sbf_processor.rs:280-406 | over any run of transactions every accepted spend was verified under the key serving its denomination at that point |
| OnChainVault.DepositAcceptedIff | crates/tardus-program/src/sbf_processor.rs:234-256 | accepted iff the amount is the denomination, a keyset is active and the vault holds that much with room for as much again; nothing changes |
| OnChainVault.OneTransferManyDeposits | crates/tardus-program/src/sbf_processor.rs:239-256 | after one transfer any number of deposits is accepted |
| OnChainVault.VaultBalance | crates/tardus-program/src/sbf_processor.rs:225-406 | after any run of atomic transactions a vault holds what it held plus all lamports moved to it less its denomination per accepted withdrawal, so it never pays out more than it was given |
| OnChainVault.DepositsMatchIff | crates/tardus-program/src/sbf_processor.rs:16-25 | the balance is deposits less withdrawals iff the lamports moved to the vault are what the accepted deposits name |
| OnChainVault.SpentOnce | crates/tardus-program/src/sbf_processor.rs:305-375 | over any run of transactions accepted nullifiers are pairwise different, new, and exactly what was added to the stored set |
| Accounts.Account.StoreRegistry | crates/tardus-program/src/sbf_processor.rs:165-174 | overwrites the front of the buffer, or reports it too small |
| Accounts.Account.StoreNullifiers | crates/tardus-program/src/sbf_processor.rs:187-196 | the same for the ordered listing of the set |
| Accounts.Account.StorePool | crates/tardus-program/src/sbf_processor.rs:570-578 | the same for the sponsor pool |
| Accounts.Account.Resize | crates/tardus-program/src/sbf_processor.rs:590-677 | accepted iff larger, at most 65536, not a vault and rent is paid; the new tail is zero |
| Accounts.OverwrittenAt | crates/tardus-program/src/sbf_processor.rs:165-174 | storing replaces the front and leaves the stale bytes behind it |
| Accounts.RegistryLayout | crates/tardus-program/src/sbf_processor.rs:165-174 | version byte, four-byte count, and 82 bytes per entry with every field at its offset |
| Accounts.LeavesLayout | crates/tardus-program/src/sbf_processor.rs:187-196 | leaf j at 32 * j behind the count |
| Accounts.LeafOrder | crates/tardus-program/src/sbf_processor.rs:187-196 | leaves are ordered by the first byte that differs |
| Accounts.PoolLayout | crates/tardus-program/src/sbf_processor.rs:570-578 | last slot, payouts, deposits, eight bytes each |
| Accounts.UntouchedLoads | crates/tardus-program/src/sbf_processor.rs:151-186 | all-zero accounts load as an empty registry of version 1, no nullifiers and a pool of zeros |
| Accounts.RegistryLoadsIff | crates/tardus-program/src/sbf_processor.rs:151-163 | loads iff all zero, or as many entries as counted are there with known status bytes |
| Accounts.LoadsIff | crates/tardus-program/src/sbf_processor.rs:176-186 | the same for nullifier sets and pools |
| Accounts.RegistryLoadsBack | crates/tardus-program/src/sbf_processor.rs:151-174 | a stored registry loads back over any stale bytes iff the buffer is not all zero, which a non-zero version ensures |
| Accounts.NullifiersLoadBack | crates/tardus-program/src/sbf_processor.rs:176-196 | a stored nullifier set always loads back |
| Accounts.PoolLoadsBack | crates/tardus-program/src/sbf_processor.rs:559-578 | a stored pool always loads back |
| Accounts.ResizeKeepsValues | crates/tardus-program/src/sbf_processor.rs:637-662 | zero extension changes no value that loads |
| Accounts.ScanMeansStored | crates/tardus-validator/src/api.rs:541-574 | on every byte string the validators' scan finds a nullifier iff the program would load a set that holds it, and reports a count without its leaves |
| Sponsor.SponsorDeposit | crates/tardus-program/src/sbf_processor.rs:688-711 | the counter of the stored pool is raised |
| Sponsor.SponsorPayout | crates/tardus-program/src/sbf_processor.rs:724-794 | acceptance, lamport movement and stored accounting, also when the recipient is the pool |
| Sponsor.RateLimit | crates/tardus-program/src/sbf_processor.rs:752-762 | a payout is accepted iff the pool can fund it and the last one was in slot zero or at least five slots ago; too early is reported before too poor |
| Sponsor.SlotZeroIsNotLimited | crates/tardus-program/src/sbf_processor.rs:752-762 | two payouts in slot zero are both accepted |
| Sponsor.PayoutRate | crates/tardus-program/src/state.rs:147-152 | from any pool, k accepted payouts in positive slots span at least 5 * (k - 1) slots, and at least 5 * k from a stored earlier one |
| Sponsor.CountersAreCappedSums | crates/tardus-program/src/sbf_processor.rs:706-785 | both lifetime counters are the true sums capped at 2^64 - 1 |
| Sponsor.PayoutConservesIff | crates/tardus-program/src/sbf_processor.rs:775-781 | an accepted payout keeps the total iff the recipient is the pool or its credit fits 64 bits |
| Sponsor.LamportsConserved | crates/tardus-program/src/sbf_processor.rs:775-781 | runs conserve lamports while all balances together fit 64 bits |
| Instruction.Serialize | crates/tardus-program/src/instruction.rs:143-226 | appends the encoding; fails iff the authorization is too long for its length prefix |
| Instruction.DeserializeReader | crates/tardus-program/src/instruction.rs:228-355 | reads one instruction off the front of a stateful reader, or fails |
| Instruction.DecodeEncode | crates/tardus-program/src/instruction.rs:143-355 | decoding gives the instruction back and leaves exactly what followed it |
| Instruction.EncodeDecode | crates/tardus-program/src/instruction.rs:143-355 | whatever decodes is the encoding of its result followed by the rest |
| Instruction.CodecBijection | crates/tardus-program/src/entrypoint.rs:47-50 | encodable instructions and accepted byte strings correspond one to one |
| Instruction.PrefixFree | crates/tardus-program/src/instruction.rs:143-355 | no encoding is a proper prefix of another |
| Instruction.RegistryLayout | crates/tardus-program/src/instruction.rs:143-226 | tags 0 and 4 and the offset of every field |
| Instruction.VaultLayout | crates/tardus-program/src/instruction.rs:143-226 | tags 1, 2 and 3 and the offset of every field |
| Instruction.AccountLayout | crates/tardus-program/src/instruction.rs:143-226 | tags 5 to 8, the kind bytes and the offset of every field |
| Octets.LeOctet | crates/tardus-program/src/instruction.rs:143-226 | octet i of an integer is the digit of 256^i |
| Hex.DecodeHexLoop | crates/tardus-client/src/invoice.rs:123-134 | exactly 64 digits give 32 octets |
| Hex.EncodeHexLoop | crates/tardus-client/src/invoice.rs:145-153 | two lower-case digits per octet |
| Hex.DecodeEncodeHex | crates/tardus-client/src/invoice.rs:123-153 | decoding undoes encoding |
| Hex.NibbleIff | crates/tardus-client/src/invoice.rs:136-143 | digits of either case are read, and nothing else |
| Hex.HexAt | crates/tardus-client/src/invoice.rs:145-153 | octet j is printed as two lower-case digits, the high one first |
| Hex.DecodeHexIff | crates/tardus-client/src/invoice.rs:123-134 | exactly texts of digit pairs decode, each pair to its octet |
| Percent.UrlDecodeLoop | crates/tardus-client/src/invoice.rs:157-187 | the decoding loop, with its failures |
| Percent.UrlEncodeLoop | crates/tardus-client/src/invoice.rs:189-203 | the encoding loop |
| Percent.DecodeEncodeUrl | crates/tardus-client/src/invoice.rs:157-203 | decoding an encoded text gives it back iff it is ASCII and fails otherwise |
| Percent.EncodedIsClean | crates/tardus-client/src/invoice.rs:189-203 | no separator survives encoding |
| Percent.EncodedOctet | crates/tardus-client/src/invoice.rs:189-203 | octet by octet: unreserved as it stands, others escaped with two upper-case digits |
| InvoiceGrammar.UnreservedIff | crates/tardus-client/src/invoice.rs:193-196 | unescaped are letters, digits and six characters |
| Percent.DecodedFront | crates/tardus-client/src/invoice.rs:157-187 | plus is a space, an escape of either case its octet, other ASCII itself, anything else a failure |
| Percent.BadEscape | crates/tardus-client/src/invoice.rs:157-187 | a percent sign without two digits is a failure |
| Base64Url.EncodeLoop | crates/tardus-client/src/invoice.rs:208-235 | chunks of three octets and the remainder |
| Base64Url.DecodeLoop | crates/tardus-client/src/invoice.rs:237-269 | chunks of up to four symbols, with its failures |
| Base64Url.RoundTrip | crates/tardus-client/src/invoice.rs:208-269 | unpadded base64 decodes its own output for every length |
| Base64Url.ChunkBits | crates/tardus-client/src/invoice.rs:208-235 | the bits of one, two or three octets in two, three or four symbols |
| Base64Url.EncodeConcat | crates/tardus-client/src/invoice.rs:208-235 | encoding goes three octets at a time |
| Base64Url.SymbolBits | crates/tardus-client/src/invoice.rs:237-269 | the octets of two, three or four symbols; bits left over are dropped |
| Base64Url.DecodeIff | crates/tardus-client/src/invoice.rs:237-269 | exactly texts over the alphabet decode that leave no single symbol at the end |
| Text.SplitJoin | crates/tardus-client/src/invoice.rs:56-56 | splitting undoes joining of separator-free parts |
| Text.SplitOnceIff | crates/tardus-client/src/invoice.rs:41-44 | a text splits exactly at its first separator |
| Text.JoinSplit | crates/tardus-client/src/invoice.rs:56-56 | joining undoes splitting, and no part contains the separator |
| Text.ParsePrinted | crates/tardus-client/src/invoice.rs:63-66 | every 64-bit number parses back from its decimal form |
| Text.ParseIff | crates/tardus-client/src/invoice.rs:63-66 | read are one or more digits, with or without a plus sign, whose value fits 64 bits |
| Invoice.Parse | crates/tardus-client/src/invoice.rs:37-97 | the parser's result for every text, with every error |
| Invoice.ToUri | crates/tardus-client/src/invoice.rs:101-116 | the printed URI |
| Invoice.InvoiceRoundTrip | crates/tardus-client/src/invoice.rs:37-116 | a printed invoice parses to itself iff its relays are non-empty ASCII and its memo has at most 128 octets; any other is rejected |
| InvoiceGrammar.ParsedIs | crates/tardus-client/src/invoice.rs:37-97 | for every recipient and every list of parameters: the first of the errors in the source's order, or the recipient with the last denomination, the last memo and all relays in order |
| InvoiceGrammar.ParsedBare | crates/tardus-client/src/invoice.rs:41-51 | without a question mark there is no denomination |
| InvoiceGrammar.EveryForm | crates/tardus-client/src/invoice.rs:37-44 | every text with the scheme is of one of these two forms |
| InvoiceGrammar.UnknownIgnored | crates/tardus-client/src/invoice.rs:83-85 | a parameter with an unknown key changes nothing, wherever it stands |
| InvoiceGrammar.LaterDenomReplaces | crates/tardus-client/src/invoice.rs:61-66 | the denomination that no other follows counts |
| InvoiceGrammar.PrintedParts | crates/tardus-client/src/invoice.rs:101-116 | the printed parameters and their order |
| Montgomery.ModP | ts-sdk/src/montgomery.ts:24-27 | reduction into [0, P) from a truncating remainder |
| Montgomery.ModInvP | ts-sdk/src/montgomery.ts:29-42 | the loop terminates for every argument and computes the truncating Euclidean coefficient |
| Montgomery.ModInvPCorrectIff | ts-sdk/src/montgomery.ts:29-42 | for every integer: argument times result is one or minus one unless the argument is a multiple of the prime, and the result is an inverse iff the argument is not negative or the loop divides an odd number of times |
| Montgomery.MinusOneIsNotInverted | ts-sdk/src/montgomery.ts:30-31 | the comment's claim for any non-zero argument fails at minus one |
| Montgomery.BytesToLeBigInt | ts-sdk/src/montgomery.ts:44-50 | the little-endian value |
| Montgomery.LeBigIntToBytes32 | ts-sdk/src/montgomery.ts:52-60 | the 32 low-order octets, in a fresh array |
| Montgomery.MontgomeryLadderRaw | ts-sdk/src/montgomery.ts:79-144 | the loop with deferred swaps equals the ladder without swaps, whose steps are the curve's by `Montgomery.DoubleFormula` and `Montgomery.DiffAddFormula` |
| Montgomery.DoubleFormula | ts-sdk/src/montgomery.ts:115-129 | the doubling step is the curve's formula with coefficient 486662, for all coordinates and any modulus |
| Montgomery.DiffAddFormula | ts-sdk/src/montgomery.ts:115-127 | the other step is the curve's differential addition |
| Montgomery.DecodedCoordinate | ts-sdk/src/montgomery.ts:89-93 | the coordinate's top bit is ignored and the rest taken modulo the prime |
| Montgomery.FieldPrime | ts-sdk/src/montgomery.ts:21-21 | the modulus is 2^255 - 19 |
| Montgomery.DiffAddSymmetric | ts-sdk/src/montgomery.ts:119-127 | exchanging the operands of a differential addition changes nothing |
| Montgomery.LadderInvariant | ts-sdk/src/montgomery.ts:95-134 | if the curve's doubling and differential addition formulas respect multiples of the point, the pair is (m * P, (m + 1) * P) for the bits read so far |
| Montgomery.UnclampedScalar | ts-sdk/src/montgomery.ts:102-134 | the bits used are the scalar modulo 2^255, without clamping |
| Montgomery.LadderComputes | ts-sdk/src/montgomery.ts:79-144 | under that hypothesis and for prime 2^255 - 19, the result is the affine coordinate of that multiple, zero at infinity |
| TransparencyLog.TransparencyLogger.constructor | crates/tardus-validator/src/transparency_log.rs:101-133 | opening recovers the last parsable entry's identifier |
| TransparencyLog.TransparencyLogger.Append | crates/tardus-validator/src/transparency_log.rs:141-166 | one chained line is added and its identifier kept |
| TransparencyLog.VerifyChain | crates/tardus-validator/src/transparency_log.rs:187-228 | entry count, or the index of the first bad entry |
| TransparencyLog.VerifiedIff | crates/tardus-validator/src/transparency_log.rs:187-228 | a file passes iff every line is blank or an entry and the entries are chained from the genesis identifier |
| TransparencyLog.FirstBad | crates/tardus-validator/src/transparency_log.rs:187-228 | the reported index is that of the first bad line |
| TransparencyLog.AppendKeepsIff | crates/tardus-validator/src/transparency_log.rs:141-166 | an append keeps a verified file verified iff the logger's identifier is the file's last |
| TransparencyLog.RunVerifies | crates/tardus-validator/src/transparency_log.rs:101-228 | any sequence of open and append from an empty file verifies with as many entries as were appended |
| TransparencyLog.RunRecords | crates/tardus-validator/src/transparency_log.rs:141-166 | the file holds exactly what was appended, with its times and in its order |
| TransparencyLog.LastIsTip | crates/tardus-validator/src/transparency_log.rs:101-133 | opening finds the last entry's identifier whatever other lines the file has |
| TransparencyLog.VerifiedLogsAgree | crates/tardus-validator/src/transparency_log.rs:187-228 | two verified logs with equal count and last identifier hold the same entries, short of a hash collision among them |
| Arithmetic.ModInverseCorrect | ts-sdk/src/montgomery.ts:29-42 | every non-zero residue modulo a prime has the inverse that the Euclidean recursion finds |

## Where the code and its documentation differ

- The repository's README gives kappa = 32 and a cheating bound of 1/(kappa + 1); the code's default is 3
  (`crates/tardus-refresh/src/refresh.rs:46`), and what its checks support is "at most one choice out of kappa".
- `verify_nullifier_finalized` announces a binary search; the code scans every chunk, and so does the model.
- The comment on `modInvP` claims every non-zero argument; `Montgomery.MinusOneIsNotInverted` is a counterexample and
  `Montgomery.ModInvPCorrectIff` the exact condition. The function is private to its module and only gets residues.
- `partial_sign` and `lagrange_coefficient_at_zero` (`crates/tardus-mint/src/sign.rs:176` and `:257-259`) document
  `InvalidSigningSet` for duplicate entries. It is never raised for them, since equal entries are skipped and distinct
  ones never collide; instead a repeated foreign index changes the coefficient
  (`Lagrange.RepeatedIndexShiftsWeights`).
- Two ceremonies are said never to share an identifier (`crates/tardus-mint/src/transcript.rs:28`). The stores refuse ids
  in flight only, and every start draws new scalars. Members agree if no start is accepted twice
  (`CommitteeSafety.Agreement`); otherwise what each ends with depends on the broadcasts it was relayed:
  `CommitteeSafety.AgreementIff` gives the exact condition, and `CommitteeRestarts` and `RotationRestarts` the runs in
  which members end apart.
- The deposit wrapper is documented as checking the outcome of the transfer in its transaction
  (`crates/tardus-program/src/sbf_processor.rs:20-23`). It compares the vault's whole balance, so deposits and transfers
  need not match: `OnChainVault.OneTransferManyDeposits` and `OnChainVault.DepositsMatchIff`.

## Left out

- Dishonest dealers in key generation and reshare: the code defers complaint handling, does not range-check
  `from_index` and does not compare Feldman with Pedersen commitments, so those results are for honest dealings; what
  finalisation accepts from anyone is `Dkg.DkgAcceptedIff` and `Rotation.ReshareAcceptedIff`.
- Blindness, unlinkability, unforgeability and probabilities: computational claims. Cut-and-choose is proved in its
  counting form.
- Concrete curve arithmetic, SHA-2, HKDF, BIP-39, sealed boxes and the Ed25519 precompile: constants or hypotheses.
- Montgomery.LadderComputes: assumes the group law in the form that the curve's doubling and differential addition
  formulas respect multiples of the point, and that 2^255 - 19 is prime.
- TransparencyLog.VerifiedLogsAgree: assumes no collision among the hashed entries and an injective event text; JSON
  itself is not modelled, a line is what parsing it gives.
- Panics: an empty Feldman vector in a contribution, kappa = 0 in round 3, and refresh messages shorter than kappa make
  the source panic; the model has preconditions there.
- Overlapping finalisations on one validator: handlers are atomic steps, although the source reads and writes the share
  under separate locks.
- Failures of storage, RPC, HTTP and the transparency writes inside handlers; hexadecimal and Borsh decoding of request
  bodies, and the Borsh form of commitments and shares.
- The runtime's account checks: owners, signers, rent formulas, the derivation of program addresses (vault addresses of
  different denominations are different by assumption); `bootstrap`, whose rent counts as a transfer in `OnChainVault`.
- The layout of the precompile instruction in `ed25519_verifier.rs`: whether it verified a signature is an arbitrary
  predicate.
- Keyset authorization: the code does not verify it in this version.
- The on-chain totals of `SponsorDeposit`: its amount is only counted, since the lamports move in another instruction
  of the same transaction.
- Relay inbox, coin store, keyset store, wallet, command-line output, web and devnet scripts: short updates or plumbing.
- Zeroisation and secrecy of memory; object identity of values that the source copies.
