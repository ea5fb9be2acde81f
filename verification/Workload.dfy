/** The observable work of the child (src/protocol.rs, `work_digest`). */
module Workload {
  import opened Words

  function Round(accumulator: u64, index: u64): (r: u64)
  {
    (Xor64(RotateLeft7(accumulator), index * 0xd6e8_feb8_6659_fd93 % 0x1_0000_0000_0000_0000)
     + 0xa076_1d64_78bd_642f) % 0x1_0000_0000_0000_0000
  }

  function Start(id: u64, units: u64): (r: u64)
  {
    Xor64(Xor64(id, RotateLeft17(units)), 0x9e37_79b9_7f4a_7c15)
  }

  /** `count` rounds, the first of them with this index. */
  function Rounds(accumulator: u64, index: nat, count: nat): (r: u64)
    requires index + count <= 0x1_0000_0000_0000_0000
    decreases count
  {
    if count == 0 then accumulator else Rounds(Round(accumulator, index), index + 1, count - 1)
  }

  function Digest(id: u64, units: u64): (r: u64)
  {
    Rounds(Start(id, units), 0, units)
  }

  method WorkDigest(id: u64, units: u64) returns (accumulator: u64)
    ensures accumulator == Digest(id, units)
  {
    hide Xor64, RotateLeft7, RotateLeft17;
    accumulator := Xor64(Xor64(id, RotateLeft17(units)), 0x9e37_79b9_7f4a_7c15);
    for index := 0 to units
      invariant Rounds(accumulator, index, units - index) == Digest(id, units)
    {
      accumulator := Xor64(RotateLeft7(accumulator), index * 0xd6e8_feb8_6659_fd93 % 0x1_0000_0000_0000_0000);
      accumulator := (accumulator + 0xa076_1d64_78bd_642f) % 0x1_0000_0000_0000_0000;
    }
  }

  lemma RoundInjective(a: u64, b: u64, index: u64)
    requires Round(a, index) == Round(b, index)
    ensures a == b
  {
    hide RotateLeft7;
    var k := index * 0xd6e8_feb8_6659_fd93 % 0x1_0000_0000_0000_0000;
    AddInjective(Xor64(RotateLeft7(a), k), Xor64(RotateLeft7(b), k));
    XorInjective(RotateLeft7(a), RotateLeft7(b), k);
    RotateLeft7Injective(a, b);
  }

  lemma AddInjective(x: u64, y: u64)
    requires (x + 0xa076_1d64_78bd_642f) % 0x1_0000_0000_0000_0000 == (y + 0xa076_1d64_78bd_642f) % 0x1_0000_0000_0000_0000
    ensures x == y
  {
  }

  lemma {:induction false} RoundsInjective(a: u64, b: u64, index: nat, count: nat)
    requires index + count <= 0x1_0000_0000_0000_0000
    requires Rounds(a, index, count) == Rounds(b, index, count)
    ensures a == b
    decreases count
  {
    hide Round;
    if count > 0 {
      RoundsInjective(Round(a, index), Round(b, index), index + 1, count - 1);
      RoundInjective(a, b, index);
    }
  }

  /** The digest is bound to the action: for the same amount of work, different identifiers always
      give different digests. */
  lemma DigestBindsIdentifier(id: u64, id': u64, units: u64)
    requires Digest(id, units) == Digest(id', units)
    ensures id == id'
  {
    hide Rounds, RotateLeft17;
    RoundsInjective(Start(id, units), Start(id', units), 0, units);
    XorInjective(Xor64(id, RotateLeft17(units)), Xor64(id', RotateLeft17(units)), 0x9e37_79b9_7f4a_7c15);
    XorInjective(id, id', RotateLeft17(units));
  }

  // ---------------------------------------------------------------------------------------------
  // Undoing the work
  // ---------------------------------------------------------------------------------------------

  function RotateRight7(x: u64): (r: u64)
  {
    x / 0x80 + x % 0x80 * 0x200_0000_0000_0000
  }

  /** One round taken back: subtract, xor, rotate right. */
  function RoundBack(accumulator: u64, index: u64): (r: u64)
  {
    RotateRight7(Xor64((accumulator - 0xa076_1d64_78bd_642f) % 0x1_0000_0000_0000_0000,
                       index * 0xd6e8_feb8_6659_fd93 % 0x1_0000_0000_0000_0000))
  }

  /** As many rounds taken back, the last of them with this index. */
  function RoundsBack(accumulator: u64, index: nat, count: nat): (r: u64)
    requires index + count <= 0x1_0000_0000_0000_0000
    decreases count
  {
    if count == 0 then accumulator else RoundBack(RoundsBack(accumulator, index + 1, count - 1), index)
  }

  lemma RotateRightUndoes(x: u64)
    ensures RotateRight7(RotateLeft7(x)) == x
  {
    var hi, lo := x / 0x200_0000_0000_0000, x % 0x200_0000_0000_0000;
    RotateLeft7Splits(x);
    assert RotateLeft7(x) == lo * 0x80 + hi && hi < 0x80;
    assert RotateLeft7(x) / 0x80 == lo && RotateLeft7(x) % 0x80 == hi;
  }

  lemma RoundUndone(a: u64, index: u64)
    ensures RoundBack(Round(a, index), index) == a
  {
    hide RotateLeft7, RotateRight7;
    var k := index * 0xd6e8_feb8_6659_fd93 % 0x1_0000_0000_0000_0000;
    var x: int := Xor64(RotateLeft7(a), k);
    assert ((x + 0xa076_1d64_78bd_642f) % 0x1_0000_0000_0000_0000 - 0xa076_1d64_78bd_642f) % 0x1_0000_0000_0000_0000 == x;
    XorCancels(RotateLeft7(a), k);
    RotateRightUndoes(a);
  }

  lemma {:induction false} RoundsUndone(a: u64, index: nat, count: nat)
    requires index + count <= 0x1_0000_0000_0000_0000
    ensures RoundsBack(Rounds(a, index, count), index, count) == a
    decreases count
  {
    hide Round, RoundBack;
    if count > 0 {
      RoundsUndone(Round(a, index), index + 1, count - 1);
      RoundUndone(a, index);
    }
  }

  /** From a digest and the units of work, exactly that many rounds back lead to the identifier. */
  lemma DigestUndone(id: u64, units: u64)
    ensures Xor64(Xor64(RoundsBack(Digest(id, units), 0, units), 0x9e37_79b9_7f4a_7c15), RotateLeft17(units)) == id
  {
    hide Rounds, RoundsBack, RotateLeft17;
    RoundsUndone(Start(id, units), 0, units);
    XorCancels(Xor64(id, RotateLeft17(units)), 0x9e37_79b9_7f4a_7c15);
    XorCancels(id, RotateLeft17(units));
  }

  /** The identifier whose work of these units starts from zero. */
  function Origin(units: u64): (id: u64)
  {
    Xor64(0x9e37_79b9_7f4a_7c15, RotateLeft17(units))
  }

  lemma StartsFromZero(units: u64)
    ensures Start(Origin(units), units) == 0
  {
    hide Xor, RotateLeft17;
    XorCancels(0x9e37_79b9_7f4a_7c15, RotateLeft17(units));
    XorSelf(0x9e37_79b9_7f4a_7c15);
  }

  lemma FirstRound()
    ensures Rounds(0, 0, 1) == 0xa076_1d64_78bd_642f
  {
    hide Xor;
    XorZero(0);
    assert Round(0, 0) == 0xa076_1d64_78bd_642f;
    assert Rounds(0, 0, 1) == Rounds(Round(0, 0), 1, 0);
  }

  /** Two digests: for no unit of work and for one. */
  lemma FirstDigests()
    ensures Digest(Origin(0), 0) == 0
    ensures Digest(Origin(1), 1) == 0xa076_1d64_78bd_642f
  {
    hide Xor, Start, Round, Origin;
    StartsFromZero(0);
    StartsFromZero(1);
    FirstRound();
  }

  lemma {:induction false} XorZero(a: nat)
    ensures Xor(a, 0) == a
  {
    if a != 0 {
      XorZero(a / 2);
    }
  }

  lemma {:induction false} XorSelf(a: nat)
    ensures Xor(a, a) == 0
  {
    if a != 0 {
      XorSelf(a / 2);
    }
  }
}
