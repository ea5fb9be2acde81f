/** The FNV-1a style hash with the project's historical offset (src/ledger.rs, src/protocol.rs). */
module Fnv {
  import opened Words

  const FNV_OFFSET: u64 := 1_469_598_103_934_665_603

  /** One byte of the hash: xor it in, then multiply by the prime 2^40 + 435 modulo 2^64. */
  function Step(hash: u64, b: byte): (r: u64)
  {
    Xor64(hash, b) * 1_099_511_628_211 % 0x1_0000_0000_0000_0000
  }

  function Hash(data: seq<byte>, seed: u64): (r: u64)
  {
    if data == [] then seed else Hash(data[1..], Step(seed, data[0]))
  }

  method Fnv1a(data: seq<byte>, seed: u64) returns (hash: u64)
    ensures hash == Hash(data, seed)
  {
    hash := seed;
    var i := 0;
    while i < |data|
      invariant 0 <= i <= |data|
      invariant Hash(data[i..], hash) == Hash(data, seed)
    {
      assert data[i..][1..] == data[i + 1..];
      hash := Xor64(hash, data[i]);
      hash := hash * 1_099_511_628_211 % 0x1_0000_0000_0000_0000;
      i := i + 1;
    }
  }

  lemma {:induction false} HashConcat(a: seq<byte>, b: seq<byte>, seed: u64)
    ensures Hash(a + b, seed) == Hash(b, Hash(a, seed))
  {
    if a == [] {
      assert a + b == b;
    } else {
      assert (a + b)[1..] == a[1..] + b;
      HashConcat(a[1..], b, Step(seed, a[0]));
    }
  }

  /** Multiplication by the odd prime has an inverse modulo 2^64. */
  lemma MultiplyInjective(x: u64, y: u64)
    requires x * 1_099_511_628_211 % 0x1_0000_0000_0000_0000 == y * 1_099_511_628_211 % 0x1_0000_0000_0000_0000
    ensures x == y
  {
    var j := x * 1_099_511_628_211 / 0x1_0000_0000_0000_0000 - y * 1_099_511_628_211 / 0x1_0000_0000_0000_0000;
    assert (x - y) * 1_099_511_628_211 == j * 0x1_0000_0000_0000_0000;
    assert 1_099_511_628_211 * 14_886_173_955_864_302_971 == 887_285_111_055 * 0x1_0000_0000_0000_0000 + 1;
    assert x - y == (j * 14_886_173_955_864_302_971 - (x - y) * 887_285_111_055) * 0x1_0000_0000_0000_0000;
  }

  /** For a fixed byte a step is a bijection of the hash state. */
  lemma StepInjective(h: u64, h': u64, b: byte)
    requires Step(h, b) == Step(h', b)
    ensures h == h'
  {
    MultiplyInjective(Xor64(h, b), Xor64(h', b));
    XorInjective(h, h', b);
  }

  /** From different states, equal bytes never make the hashes meet again. */
  lemma {:induction false} HashInjectiveInSeed(data: seq<byte>, s: u64, s': u64)
    requires Hash(data, s) == Hash(data, s')
    ensures s == s'
  {
    if data != [] {
      HashInjectiveInSeed(data[1..], Step(s, data[0]), Step(s', data[0]));
      StepInjective(s, s', data[0]);
    }
  }

  /** One step spreads a difference: the products differ by `d` times the prime, up to wrapping. */
  lemma StepDifference(h: u64, h': u64, b: byte, b': byte) returns (d: int, j: int, grown: int)
    ensures d == Xor64(h, b) - Xor64(h', b') && h - h' - 0x1fe <= d <= h - h' + 0x1fe
    ensures grown == Step(h, b) - Step(h', b') == d * 1_099_511_628_211 + j * 0x1_0000_0000_0000_0000
    ensures -0x1_0000_0000_0000_0000 < grown < 0x1_0000_0000_0000_0000
  {
    XorNear(h, b);
    XorNear(h', b');
    d, grown := Xor64(h, b) - Xor64(h', b'), Step(h, b) - Step(h', b');
    j := Xor64(h', b') * 1_099_511_628_211 / 0x1_0000_0000_0000_0000
         - Xor64(h, b) * 1_099_511_628_211 / 0x1_0000_0000_0000_0000;
  }

  /** Two different values of the same byte at the same state, up to the reach of an xor. */
  lemma SameXor(h: u64, b: byte, b': byte)
    requires Xor64(h, b) == Xor64(h, b')
    ensures b == b'
  {
    XorCommutes(h, b);
    XorCommutes(h, b');
    XorInjective(b, b', h);
  }

  /** Two steps from one state stay further apart than an xor with a byte can bridge. */
  lemma TwoSteps(seed: u64, a: byte, b: byte, a': byte, b': byte)
    requires -0x1fe <= Step(Step(seed, a), b) - Step(Step(seed, a'), b') <= 0x1fe
    ensures a == a' && b == b'
  {
    var d1, j1, grown := StepDifference(seed, seed, a, a');
    var d2, j2, delta := StepDifference(Step(seed, a), Step(seed, a'), b, b');
    Cancels(d1, grown, d2, delta, j1, j2);
    SameXor(seed, a, a');
    SameXor(Step(seed, a), b, b');
  }

  /** The arithmetic heart of the window theorem: three steps cannot cancel a difference that each
      step may only change by an xor with a byte. */
  lemma ThreeSteps(seed: u64, a: byte, b: byte, c: byte, a': byte, b': byte, c': byte)
    requires Step(Step(Step(seed, a), b), c) == Step(Step(Step(seed, a'), b'), c')
    ensures a == a' && b == b' && c == c'
  {
    var h2, h2' := Step(Step(seed, a), b), Step(Step(seed, a'), b');
    MultiplyInjective(Xor64(h2, c), Xor64(h2', c'));
    NearXor(h2, h2', c, c');
    TwoSteps(seed, a, b, a', b');
    SameXor(h2, c, c');
  }

  lemma NearXor(h: u64, h': u64, b: byte, b': byte)
    requires Xor64(h, b) == Xor64(h', b')
    ensures -0x1fe <= h - h' <= 0x1fe
  {
    XorNear(h, b);
    XorNear(h', b');
  }

  /** With p = 2^40 + 435: a difference d grows to d*p, moves by at most 510, and grows again. If it
      then is within 510 of a multiple of 2^64, it was zero all along. */
  lemma Cancels(d: int, grown: int, moved: int, delta: int, j1: int, j2: int)
    requires -0x1fe <= d <= 0x1fe && grown - 0x1fe <= moved <= grown + 0x1fe && -0x1fe <= delta <= 0x1fe
    requires -0x1_0000_0000_0000_0000 < grown < 0x1_0000_0000_0000_0000
    requires grown == d * 1_099_511_628_211 + j1 * 0x1_0000_0000_0000_0000
    requires delta == moved * 1_099_511_628_211 + j2 * 0x1_0000_0000_0000_0000
    ensures d == 0 && moved == 0 && delta == 0
  {
    var e, k := moved - grown, j1 * 1_099_511_628_211 + j2 + d * 0x1_0000;
    assert delta == (870 * d + e) * 0x100_0000_0000 + 189_225 * d + 435 * e + k * 0x1_0000_0000_0000_0000;
    assert k == 0;
    assert 870 * d + e == 0;
    assert d == 0;
  }

  /** The same for windows of one to three bytes. */
  lemma WindowInjective(w: seq<byte>, w': seq<byte>, seed: u64)
    requires |w| == |w'| <= 3
    requires Hash(w, seed) == Hash(w', seed)
    ensures w == w'
  {
    var pad: seq<byte> := seq(3 - |w|, _ => 0);
    HashConcat(w, pad, seed);
    HashConcat(w', pad, seed);
    var v, v' := w + pad, w' + pad;
    HashOfThree(v, seed);
    HashOfThree(v', seed);
    ThreeSteps(seed, v[0], v[1], v[2], v'[0], v'[1], v'[2]);
    assert v == v';
    assert w == v[..|w|] && w' == v'[..|w|];
  }

  /** Hash arithmetic: from the same seed, two strings that differ only inside one window of at most
      three consecutive bytes never have the same hash. */
  lemma WindowChangesHash(before: seq<byte>, w: seq<byte>, w': seq<byte>, after: seq<byte>, seed: u64)
    requires |w| == |w'| <= 3 && w != w'
    ensures Hash(before + w + after, seed) != Hash(before + w' + after, seed)
  {
    var mid := Hash(before, seed);
    HashConcat(before + w, after, seed);
    HashConcat(before, w, seed);
    HashConcat(before + w', after, seed);
    HashConcat(before, w', seed);
    if Hash(before + w + after, seed) == Hash(before + w' + after, seed) {
      HashInjectiveInSeed(after, Hash(w, mid), Hash(w', mid));
      WindowInjective(w, w', mid);
    }
  }

  lemma HashOfThree(v: seq<byte>, seed: u64)
    requires |v| == 3
    ensures Hash(v, seed) == Step(Step(Step(seed, v[0]), v[1]), v[2])
  {
    assert v[1..][1..] == v[2..] && v[2..][1..] == [];
    assert Hash(v[2..], Step(Step(seed, v[0]), v[1])) == Hash([], Step(Step(Step(seed, v[0]), v[1]), v[2]));
  }
}
