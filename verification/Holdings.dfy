/** What a stored share stands for: one key generation and the reshare ceremonies since. */
module Holdings {
  import opened Wrappers
  import opened Lists
  import opened Octets
  import opened Field
  import opened Group
  import opened Schnorr
  import opened Polynomials
  import opened Vss
  import opened ValidatorNode
  import Dkg
  import DkgCeremony
  import Rotation
  import ReshareCeremony

  /** The parameters of each ceremony, by its identifier. */
  datatype Setting = Setting(key: map<Bytes16, VssParameters>, rotation: map<Bytes16, VssParameters>) {
    ghost predicate Sensible() {
      && (forall id :: id in key ==> key[id].Valid())
      && (forall id :: id in rotation ==> rotation[id].Valid())
    }
  }

  /** A finalised reshare ceremony with the dealings one validator used for it. */
  datatype Addition = Addition(id: Bytes16, used: ReshareCeremony.ZeroDealings)

  datatype Holding = Holding(id: Bytes16, used: DkgCeremony.Dealings, added: seq<Addition>)

  ghost predicate FitsKey(c: Setting, id: Bytes16, used: DkgCeremony.Dealings) {
    id in c.key && DkgCeremony.Complete(used, c.key[id])
  }

  ghost predicate FitsAddition(c: Setting, a: Addition) {
    a.id in c.rotation && ReshareCeremony.Complete(a.used, c.rotation[a.id])
  }

  ghost predicate Fits(c: Setting, h: Holding) {
    FitsKey(c, h.id, h.used) && forall a :: a in h.added ==> FitsAddition(c, a)
  }

  // ---------------------------------------------------------------- the shared polynomial

  ghost function KeyPoly(c: Setting, id: Bytes16, used: DkgCeremony.Dealings): seq<int> {
    if FitsKey(c, id, used) then Dkg.JointPoly(c.key[id], used) else []
  }

  ghost function AddedPoly(c: Setting, a: Addition): seq<int> {
    if FitsAddition(c, a) then Rotation.ZeroSum(c.rotation[a.id], a.used) else []
  }

  ghost function PolyAfter(c: Setting, base: seq<int>, added: seq<Addition>): seq<int> {
    if added == [] then base
    else PolyAdd(PolyAfter(c, base, added[..|added| - 1]), AddedPoly(c, added[|added| - 1]))
  }

  /** The polynomial whose value at its index a validator with this holding stores. */
  ghost function PolyOf(c: Setting, h: Holding): seq<int> {
    PolyAfter(c, KeyPoly(c, h.id, h.used), h.added)
  }

  ghost function KeyOf(c: Setting, h: Holding): Bytes32 {
    Compress(Base(PolyAt(KeyPoly(c, h.id, h.used), 0)))
  }

  ghost function ValuesOf(c: Setting, added: seq<Addition>, x: int): map<Addition, int> {
    map a | a in added :: PolyAt(AddedPoly(c, a), x)
  }

  lemma {:induction false} PolyAfterAt(c: Setting, base: seq<int>, added: seq<Addition>, x: int, v: map<Addition, int>)
    requires forall a :: a in added ==> a in v && v[a] == PolyAt(AddedPoly(c, a), x)
    ensures PolyAt(PolyAfter(c, base, added), x) == PolyAt(base, x) + SumOver(added, v)
  {
    hide PolyAt, AddedPoly, PolyAdd;
    if added != [] {
      var rest, a := added[..|added| - 1], added[|added| - 1];
      assert added == rest + [a];
      PolyAfterAt(c, base, rest, x, v);
      PolyAddAt(PolyAfter(c, base, rest), AddedPoly(c, a), x);
    }
  }

  /** The order of the reshare ceremonies does not matter. */
  lemma OrderIrrelevant(c: Setting, base: seq<int>, p: seq<Addition>, q: seq<Addition>, x: int)
    requires Permutation(p, q)
    ensures PolyAt(PolyAfter(c, base, p), x) == PolyAt(PolyAfter(c, base, q), x)
  {
    hide PolyAt, AddedPoly, PolyAfter, SumOver;
    var v := ValuesOf(c, p, x);
    PermutationDistinct(p, q);
    PolyAfterAt(c, base, p, x, v);
    PolyAfterAt(c, base, q, x, v);
    SumPermutation(p, q, v);
  }

  lemma AdditionVanishes(c: Setting, a: Addition)
    ensures PolyAt(AddedPoly(c, a), 0) == 0
  {
    hide Rotation.ZeroSum;
    if FitsAddition(c, a) {
      Rotation.ZeroSumVanishes(c.rotation[a.id], a.used);
    }
  }

  /** No sequence of reshare ceremonies moves the secret. */
  lemma {:induction false} SecretStays(c: Setting, base: seq<int>, added: seq<Addition>)
    ensures PolyAt(PolyAfter(c, base, added), 0) == PolyAt(base, 0)
  {
    hide PolyAt, AddedPoly, PolyAdd;
    if added != [] {
      var rest, a := added[..|added| - 1], added[|added| - 1];
      SecretStays(c, base, rest);
      AdditionVanishes(c, a);
      PolyAddAt(PolyAfter(c, base, rest), AddedPoly(c, a), 0);
    }
  }

  /** At most m coefficients, if no ceremony has a threshold above m. */
  ghost predicate Within(c: Setting, h: Holding, m: nat) {
    && (h.id in c.key ==> c.key[h.id].t <= m)
    && forall a :: a in h.added ==> a.id in c.rotation ==> c.rotation[a.id].t <= m
  }

  lemma {:induction false} PolyLength(c: Setting, base: seq<int>, added: seq<Addition>, m: nat)
    requires |base| <= m && forall a :: a in added ==> a.id in c.rotation ==> c.rotation[a.id].t <= m
    ensures |PolyAfter(c, base, added)| <= m
  {
    if added != [] {
      assert added == added[..|added| - 1] + [added[|added| - 1]];
      PolyLength(c, base, added[..|added| - 1], m);
    }
  }

  // ---------------------------------------------------------------- records

  /** The epoch counts finalised ceremonies from one and saturates. */
  function Epoch(done: nat): u64 {
    if done + 1 > 0xffff_ffff_ffff_ffff then 0xffff_ffff_ffff_ffff else done + 1
  }

  /** Validator i's record for a holding: the key and keyset of its key generation, the share of the
      polynomial shared now and the number of ceremonies. */
  ghost predicate Records(c: Setting, i: u16, rec: ShareRecord, h: Holding) {
    && rec.myIndex == i && rec.jointPk == KeyOf(c, h) && rec.keysetId == [2] + Le(32, rec.jointPk)
    && rec.myShare == Red(PolyAt(PolyOf(c, h), i)) && rec.epoch == Epoch(|h.added|)
  }

  /** Finalising a key generation stores the record of a fresh holding. */
  lemma FreshRecord(c: Setting, i: u16, id: Bytes16, used: DkgCeremony.Dealings)
    requires FitsKey(c, id, used)
    ensures Records(c, i, RecordOf(DkgCeremony.Expected(c.key[id], used, i), c.key[id].n, c.key[id].t),
                    Holding(id, used, []))
  {
    hide PolyAt, Red, Base, Compress, Dkg.JointPoly, UpTo, Le;
  }

  /** Finalising a reshare ceremony turns the record of a holding into that of the extended one. */
  lemma MovedRecord(c: Setting, i: u16, rec: ShareRecord, h: Holding, a: Addition)
    requires Records(c, i, rec, h) && FitsAddition(c, a)
    ensures Records(c, i, ReshareCeremony.Moved(rec, c.rotation[a.id], a.used, i), h.(added := h.added + [a]))
  {
    hide PolyAt, Red, Base, Compress, KeyPoly, UpTo, PolyAdd, Rotation.ZeroSum, Le;
    assert (h.added + [a])[..|h.added|] == h.added;
    PolyAddAt(PolyOf(c, h), AddedPoly(c, a), i);
    RedInner(PolyAt(PolyOf(c, h), i), PolyAt(AddedPoly(c, a), i));
  }
}
