/** Machine words of the runtime: bytes, 64-bit unsigned integers with their wrapping, rotating and
    saturating operations, and fixed-width byte encodings. */
module Words {

  type byte = b: int | 0 <= b < 0x100
  type u64 = w: int | 0 <= w < 0x1_0000_0000_0000_0000

  datatype Option<+T> = None | Some(value: T)

  /** A Rust `Result` whose error text is not observed; `:-` is the `?` operator. */
  datatype Result<+T> = Ok(value: T) | Err
  {
    predicate IsFailure() {
      Err?
    }

    function PropagateFailure<U>(): Result<U>
      requires Err?
    {
      Err
    }

    function Extract(): T
      requires Ok?
    {
      value
    }
  }

  /** `u64::saturating_add(1)`, which is also the saturated image of an unbounded counter. */
  function Saturate(n: nat): (r: u64)
  {
    if n < 0x1_0000_0000_0000_0000 then n else 0xffff_ffff_ffff_ffff
  }

  function Pow2(n: nat): (r: nat)
    ensures r > 0
  {
    if n == 0 then 1 else 2 * Pow2(n - 1)
  }

  // ---------------------------------------------------------------------------------------------
  // Exclusive or
  // ---------------------------------------------------------------------------------------------

  function Xor(a: nat, b: nat): (r: nat)
    decreases a + b
  {
    if a == 0 && b == 0 then 0 else 2 * Xor(a / 2, b / 2) + (a % 2 + b % 2) % 2
  }

  lemma {:induction false} XorBound(a: nat, b: nat, n: nat)
    requires a < Pow2(n) && b < Pow2(n)
    ensures Xor(a, b) < Pow2(n)
  {
    if n > 0 {
      XorBound(a / 2, b / 2, n - 1);
    }
  }

  lemma {:induction false} Pow2Sum(m: nat, n: nat)
    ensures Pow2(m + n) == Pow2(m) * Pow2(n)
  {
    if m > 0 {
      Pow2Sum(m - 1, n);
    }
  }

  lemma Pow2Of16()
    ensures Pow2(16) == 0x1_0000
  {
    assert Pow2(4) == 16 by {
      assert Pow2(2) == 4;
    }
    hide Pow2;
    Pow2Sum(4, 4);
    Pow2Sum(8, 8);
  }

  lemma Pow2Of64()
    ensures Pow2(64) == 0x1_0000_0000_0000_0000
  {
    hide Pow2;
    Pow2Of16();
    Pow2Sum(16, 16);
    Pow2Sum(32, 32);
  }

  function Xor64(a: u64, b: u64): (r: u64)
  {
    Pow2Of64();
    XorBound(a, b, 64);
    Xor(a, b)
  }

  /** Xor with a fixed operand undoes itself, so it is a bijection. */
  lemma {:induction false} XorCancels(a: nat, b: nat)
    ensures Xor(Xor(a, b), b) == a
    decreases a + b
  {
    if a != 0 || b != 0 {
      XorCancels(a / 2, b / 2);
      var x := Xor(a, b);
      var y := Xor(x, b);
      assert y / 2 == a / 2 && y % 2 == a % 2 by {
        XorUnfolds(a, b);
        XorUnfolds(x, b);
        ParityCancels(a % 2, b % 2);
      }
    }
  }

  lemma ParityCancels(p: nat, q: nat)
    requires p < 2 && q < 2
    ensures ((p + q) % 2 + q) % 2 == p
  {
  }

  lemma XorUnfolds(a: nat, b: nat)
    ensures Xor(a, b) / 2 == Xor(a / 2, b / 2) && Xor(a, b) % 2 == (a % 2 + b % 2) % 2
  {
  }

  lemma {:induction false} XorCommutes(a: nat, b: nat)
    ensures Xor(a, b) == Xor(b, a)
    decreases a + b
  {
    if a != 0 || b != 0 {
      XorCommutes(a / 2, b / 2);
    }
  }

  lemma XorInjective(a: nat, a': nat, b: nat)
    requires Xor(a, b) == Xor(a', b)
    ensures a == a'
  {
    XorCancels(a, b);
    XorCancels(a', b);
  }

  /** Xor moves a number by at most the other operand. */
  lemma {:induction false} XorNear(a: nat, b: nat)
    ensures a - b <= Xor(a, b) <= a + b
    decreases a + b
  {
    if a != 0 || b != 0 {
      XorNear(a / 2, b / 2);
    }
  }

  // ---------------------------------------------------------------------------------------------
  // Rotation
  // ---------------------------------------------------------------------------------------------

  /** `u64::rotate_left(7)`: the top seven bits reappear at the bottom. */
  function RotateLeft7(x: u64): (r: u64)
  {
    (x * 0x80) % 0x1_0000_0000_0000_0000 + x / 0x200_0000_0000_0000
  }

  function RotateLeft17(x: u64): (r: u64)
  {
    (x * 0x2_0000) % 0x1_0000_0000_0000_0000 + x / 0x8000_0000_0000
  }

  /** The low 47 bits move up by seventeen places, and the high seventeen come round below them. */
  lemma RotateLeft17Moves(high: nat, low: nat)
    requires high < 0x2_0000 && low < 0x8000_0000_0000
    ensures RotateLeft17(high * 0x8000_0000_0000 + low) == low * 0x2_0000 + high
  {
    var x := high * 0x8000_0000_0000 + low;
    assert x / 0x8000_0000_0000 == high;
    assert x * 0x2_0000 == high * 0x1_0000_0000_0000_0000 + low * 0x2_0000;
  }

  lemma RotateLeft7Splits(x: u64)
    ensures RotateLeft7(x) == (x % 0x200_0000_0000_0000) * 0x80 + x / 0x200_0000_0000_0000
  {
    var hi, lo := x / 0x200_0000_0000_0000, x % 0x200_0000_0000_0000;
    assert x * 0x80 == hi * 0x1_0000_0000_0000_0000 + lo * 0x80;
  }

  lemma RotateLeft7Injective(x: u64, y: u64)
    requires RotateLeft7(x) == RotateLeft7(y)
    ensures x == y
  {
    hide RotateLeft7;
    RotateLeft7Splits(x);
    RotateLeft7Splits(y);
  }

  // ---------------------------------------------------------------------------------------------
  // Fixed-width byte encodings
  // ---------------------------------------------------------------------------------------------

  /** The `width` low bytes of `n`, most significant first. */
  function BigEndian(n: nat, width: nat): (r: seq<byte>)
    ensures |r| == width
  {
    if width == 0 then [] else BigEndian(n / 0x100, width - 1) + [n % 0x100]
  }

  /** The `width` low bytes of `n`, least significant first. */
  function LittleEndian(n: nat, width: nat): (r: seq<byte>)
    ensures |r| == width
  {
    if width == 0 then [] else [n % 0x100] + LittleEndian(n / 0x100, width - 1)
  }

  function FromBigEndian(s: seq<byte>): (r: nat)
  {
    if s == [] then 0 else FromBigEndian(s[..|s| - 1]) * 0x100 + s[|s| - 1]
  }

  function Pow256(n: nat): (r: nat)
    ensures r > 0
  {
    if n == 0 then 1 else 0x100 * Pow256(n - 1)
  }

  lemma {:induction false} BigEndianRoundTrip(n: nat, width: nat)
    requires n < Pow256(width)
    ensures FromBigEndian(BigEndian(n, width)) == n
  {
    if width > 0 {
      var r := BigEndian(n, width);
      assert r[..|r| - 1] == BigEndian(n / 0x100, width - 1);
      BigEndianRoundTrip(n / 0x100, width - 1);
    }
  }

  lemma BigEndianInjective(m: nat, n: nat, width: nat)
    requires m < Pow256(width) && n < Pow256(width)
    requires BigEndian(m, width) == BigEndian(n, width)
    ensures m == n
  {
    BigEndianRoundTrip(m, width);
    BigEndianRoundTrip(n, width);
  }
}
