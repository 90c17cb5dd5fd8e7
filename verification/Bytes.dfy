/** Machine integers, powers of two and the output byte stream shared by every part of the model. */
module Bytes {

  type byte = x: int | 0 <= x < 256
  type u32 = x: int | 0 <= x < 0x1_0000_0000
  type i32 = x: int | -0x8000_0000 <= x < 0x8000_0000

  datatype Option<+T> = None | Some(value: T)

  /** The bit pattern of any integer, cut to 32 bits: the C conversion to uint32_t. */
  function ToU32(x: int): (r: u32) {
    x % 0x1_0000_0000
  }

  /** The C conversion of a 32-bit pattern to int32_t. */
  function ToI32(x: int): (r: i32) {
    var u := x % 0x1_0000_0000;
    if u < 0x8000_0000 then u else u - 0x1_0000_0000
  }

  /** 2 to the power n. */
  function Pow2(n: nat): (r: nat)
    ensures r >= 1
  {
    if n == 0 then 1 else 2 * Pow2(n - 1)
  }

  lemma Pow2Add(a: nat, b: nat)
    ensures Pow2(a + b) == Pow2(a) * Pow2(b)
  {
    if a == 0 {
    } else {
      Pow2Add(a - 1, b);
      assert Pow2(a + b) == 2 * Pow2(a - 1 + b);
    }
  }

  lemma Pow2Seven(n: nat)
    ensures Pow2(7 + n) == 128 * Pow2(n)
    ensures Pow2(7) == 128 && Pow2(6) == 64
  {
    assert Pow2(3) == 8 && Pow2(6) == 64 && Pow2(7) == 128;
    Pow2Add(7, n);
  }

  lemma Pow2Mono(a: nat, b: nat)
    requires a <= b
    ensures Pow2(a) <= Pow2(b)
  {
    if a < b {
      Pow2Mono(a, b - 1);
    }
  }

  /** `x >> k` on a signed or unsigned integer: k halvings, each rounding down. */
  function Shr(v: int, k: nat): (r: int)
    ensures v >= 0 ==> 0 <= r <= v
    ensures -1 <= v <= 0 ==> r == v
    decreases k
  {
    if k == 0 then v else Shr(v / 2, k - 1)
  }

  lemma {:induction false} ShiftTwice(v: int, a: nat, b: nat)
    ensures Shr(Shr(v, a), b) == Shr(v, a + b)
    decreases a
  {
    if a > 0 {
      ShiftTwice(v / 2, a - 1, b);
    }
  }

  lemma ShiftOne(v: int, k: nat)
    ensures Shr(v, k + 1) == Shr(v / 2, k)
  {
  }

  lemma ShiftSeven(v: int)
    ensures Shr(v, 7) == v / 128
  {
    hide Shr;
    ShiftOne(v, 6);
    ShiftOne(v / 2, 5);
    ShiftOne(v / 2 / 2, 4);
    ShiftOne(v / 2 / 2 / 2, 3);
    ShiftOne(v / 2 / 2 / 2 / 2, 2);
    ShiftOne(v / 2 / 2 / 2 / 2 / 2, 1);
    ShiftOne(v / 2 / 2 / 2 / 2 / 2 / 2, 0);
    ShiftNone(v / 2 / 2 / 2 / 2 / 2 / 2 / 2);
  }

  lemma ShiftNone(v: int)
    ensures Shr(v, 0) == v
  {
  }

  lemma DivUnique(v: int, d: nat, q: int, r: int)
    requires d >= 1 && v == d * q + r && 0 <= r < d
    ensures v / d == q && v % d == r
  {
    MulAwayFromZero(d, q - v / d);
  }

  lemma MulAwayFromZero(d: nat, k: int)
    ensures k >= 1 ==> d * k >= d
    ensures k <= -1 ==> d * k + d <= 0
  {
    if k >= 1 {
      assert d * k == d * (k - 1) + d;
    } else if k <= -1 {
      assert d * k == d * (k + 1) - d;
    }
  }

  /** `bytes` stands in `code` from position p on. */
  predicate At(code: seq<byte>, p: nat, bytes: seq<byte>) {
    p + |bytes| <= |code| && code[p..p + |bytes|] == bytes
  }

  lemma AtSplit(code: seq<byte>, p: nat, a: seq<byte>, b: seq<byte>)
    requires At(code, p, a + b)
    ensures At(code, p, a) && At(code, p + |a|, b)
  {
    var s := code[p..p + |a + b|];
    assert code[p..p + |a|] == s[..|a|];
    assert code[p + |a|..p + |a| + |b|] == s[|a|..];
  }

  lemma AtByte(code: seq<byte>, p: nat, b: byte)
    requires At(code, p, [b])
    ensures p < |code| && code[p] == b
  {
    assert code[p..p + 1][0] == b;
  }

  /** The generator's output stream, to which encoders append bytes. */
  class BlobWriter {
    var bytes: seq<byte>

    constructor ()
      ensures bytes == []
    {
      bytes := [];
    }

    method Append(b: byte)
      modifies this
      ensures bytes == old(bytes) + [b]
    {
      bytes := bytes + [b];
    }
  }
}
