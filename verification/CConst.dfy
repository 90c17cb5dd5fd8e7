/** C constant expressions in the code block: how many bytes are reserved for them, and what the T0_INTn macros put there. */
module CConst {
  import opened Bytes
  import opened SevenBit

  // ----- the bit length of a declared range -----

  /** Bits of a signed representation, sign bit included. */
  function BitLength(v: int): (n: nat)
    ensures n >= 1
    decreases Abs(v)
  {
    if -1 <= v <= 0 then 1 else 1 + BitLength(v / 2)
  }

  /** BitLength is the least n such that v is an n-bit signed number. */
  lemma {:induction false} BitLengthLeast(v: int, n: nat)
    ensures BitLength(v) <= n + 1 <==> 0 - Pow2(n) <= v < Pow2(n)
    decreases n
  {
    if n > 0 && !(-1 <= v <= 0) {
      BitLengthLeast(v / 2, n - 1);
    }
  }

  method ComputeBitLength(v0: int) returns (num: nat)
    ensures num == BitLength(v0)
  {
    num := 1;
    var v := v0;
    if v < 0 {
      while v != -1
        invariant v < 0 && BitLength(v0) == num - 1 + BitLength(v)
        decreases Abs(v)
      {
        num := num + 1;
        v := v / 2;
      }
    } else {
      while v != 0
        invariant v >= 0 && BitLength(v0) == num - 1 + BitLength(v)
      {
        num := num + 1;
        v := v / 2;
      }
    }
  }

  /** A C expression with the range its author declares, inclusive. */
  datatype Expr = Expr(min: i32, max: i32)

  function MaxBitLength(cx: Expr, off: i32): (n: nat)
    ensures 1 <= n <= 32
  {
    var rmin := cx.min + off;
    var rmax := cx.max + off;
    var a := if rmin < 0 then BitLength(rmin) else 1;
    var b := if rmax > 0 then BitLength(rmax) else 1;
    var m := if a >= b then a else b;
    if m <= 32 then m else 32
  }

  method GetMaxBitLength(cx: Expr, off: i32) returns (n: nat)
    ensures n == MaxBitLength(cx, off)
  {
    var rmin: int := cx.min + off;
    var rmax: int := cx.max + off;
    var numBits := 1;
    if rmin < 0 {
      var b := ComputeBitLength(rmin);
      numBits := if b > numBits then b else numBits;
    }
    if rmax > 0 {
      var b := ComputeBitLength(rmax);
      numBits := if b > numBits then b else numBits;
    }
    n := if numBits <= 32 then numBits else 32;
  }

  function ExprLength(cx: Expr, off: i32): (n: nat)
    ensures 1 <= n <= 5
  {
    (MaxBitLength(cx, off) + 6) / 7
  }

  /** GetMaxBitLength is the least number of bits that holds both ends of the shifted range, up to the cap at 32. */
  lemma MaxBitLengthLeast(cx: Expr, off: i32, n: nat)
    requires cx.min <= cx.max && n < 31
    ensures MaxBitLength(cx, off) <= n + 1 <==> 0 - Pow2(n) <= cx.min + off && cx.max + off < Pow2(n)
  {
    hide BitLength, Pow2;
    BitLengthLeast(cx.min + off, n);
    BitLengthLeast(cx.max + off, n);
    PowerAtLeastOne(n);
  }

  lemma PowerAtLeastOne(n: nat)
    ensures Pow2(n) >= 1
  {
  }

  /** So no fewer bytes could be reserved: len of them, up to four, are enough exactly if they hold the whole range. */
  lemma ExprLengthLeast(cx: Expr, off: i32, len: nat)
    requires cx.min <= cx.max && 1 <= len <= 4
    ensures ExprLength(cx, off) <= len <==> 0 - Pow2(7 * len - 1) <= cx.min + off && cx.max + off < Pow2(7 * len - 1)
  {
    hide Pow2, MaxBitLength;
    MaxBitLengthLeast(cx, off, 7 * len - 1);
  }

  /** With at most four bytes reserved, every value of the declared range fits them. */
  lemma ReservedEnough(cx: Expr, off: i32, x: i32)
    requires cx.min <= x <= cx.max && ExprLength(cx, off) <= 4
    ensures var k := 7 * (ExprLength(cx, off) - 1) + 6;
            0 - Pow2(k) <= x + off < Pow2(k)
  {
    hide BitLength, Pow2;
    var k := 7 * (ExprLength(cx, off) - 1) + 6;
    var m := MaxBitLength(cx, off);
    assert m <= k + 1;
    if x + off < 0 {
      BitLengthLeast(cx.min + off, k);
    }
    if x + off > 0 {
      BitLengthLeast(cx.max + off, k);
    }
  }

  // ----- the macros -----

  /** T0_FBYTE: seven bits of the pattern, k groups up. */
  function FByte(x: int, k: nat): (b: byte) {
    Groups(ToU32(x), k) % 128
  }

  /** T0_VBYTE: the same with the continuation bit. */
  function VByte(x: int, k: nat): (b: byte) {
    FByte(x, k) + 128
  }

  /** T0_SBYTE: the top nibble, sign-extended by adding and flipping the same five bits. */
  function SByte(x: int): (b: byte) {
    SNibble(ToU32(x) / 0x1000_0000)
  }

  function SNibble(nibble: int): (b: byte)
    requires 0 <= nibble < 16
  {
    (((nibble as bv16 + 0xF8) ^ 0xF8) & 0xFF) as int
  }

  lemma SNibbleValue(n: int)
    requires 0 <= n < 16
    ensures SNibble(n) == if n < 8 then n else n + 0xF0
  {
    assert n == 0 || n == 1 || n == 2 || n == 3 || n == 4 || n == 5 || n == 6 || n == 7
        || n == 8 || n == 9 || n == 10 || n == 11 || n == 12 || n == 13 || n == 14 || n == 15;
  }

  /** T0_INT1 to T0_INT5. */
  function IntBytes(len: nat, x: int): (s: seq<byte>)
    requires 1 <= len <= 5
    ensures |s| == len
  {
    match len
    case 1 => [FByte(x, 0)]
    case 2 => [VByte(x, 1), FByte(x, 0)]
    case 3 => [VByte(x, 2), VByte(x, 1), FByte(x, 0)]
    case 4 => [VByte(x, 3), VByte(x, 2), VByte(x, 1), FByte(x, 0)]
    case _ => [SByte(x), VByte(x, 3), VByte(x, 2), VByte(x, 1), FByte(x, 0)]
  }

  /** n groups of a signed number, not necessarily the fewest possible, all with the continuation bit. */
  function PadHigh(w: int, n: nat): (s: seq<byte>)
    ensures |s| == n
    decreases n
  {
    if n == 0 then [] else PadHigh(w / 128, n - 1) + [w % 128 + 128]
  }

  lemma {:induction false} ScanPad(code: seq<byte>, p: nat, w: i32, n: nat)
    requires n >= 1 && At(code, p, PadHigh(w, n)) && 0 - Pow2(7 * (n - 1) + 6) <= w < Pow2(7 * (n - 1) + 6)
    ensures p < |code| && SignFill(code[p]) == ToU32(if w < 0 then -1 else 0)
    ensures Scan(code, p, SignFill(code[p])) == Scan(code, p + n, ToU32(w))
    decreases n
  {
    hide Push7, Scan, ToU32, Pow2, At;
    AtSplit(code, p, PadHigh(w / 128, n - 1), [w % 128 + 128]);
    AtByte(code, p + n - 1, w % 128 + 128);
    Push7Undo(w);
    if n == 1 {
      Pow2Seven(0);
      SmallS(w);
      ScanMore(code, p, ToU32(w / 128));
    } else {
      Pow2Seven(7 * (n - 2) + 6);
      ScanPad(code, p, w / 128, n - 1);
      ScanMore(code, p + n - 1, ToU32(w / 128));
    }
  }

  lemma DecodePadded(code: seq<byte>, p: nat, v: i32, n: nat)
    requires n >= 1 && At(code, p, PadHigh(v / 128, n - 1) + [v % 128])
    requires 0 - Pow2(7 * (n - 1) + 6) <= v < Pow2(7 * (n - 1) + 6)
    ensures DecS(code, p) == Parsed(v, p + n)
  {
    hide Push7, Scan, ToU32, Pow2, At;
    AtSplit(code, p, PadHigh(v / 128, n - 1), [v % 128]);
    AtByte(code, p + n - 1, v % 128);
    Push7Undo(v);
    SignedBack(v);
    ScanLast(code, p + n - 1, ToU32(v / 128));
    if n == 1 {
      Pow2Seven(0);
      SmallS(v);
    } else {
      Pow2Seven(7 * (n - 2) + 6);
      ScanPad(code, p, v / 128, n - 1);
    }
  }

  /** The low 28 bits of a pattern are those of the signed number. */
  lemma FourGroups(v: i32)
    ensures FByte(v, 0) == v % 128 && FByte(v, 1) == v / 128 % 128
         && FByte(v, 2) == v / 128 / 128 % 128 && FByte(v, 3) == v / 128 / 128 / 128 % 128
  {
    hide Groups;
    var u := ToU32(v);
    NextGroup(u, 0); NextGroup(u, 1); NextGroup(u, 2);
    assert Groups(u, 1) == u / 128 && Groups(u, 2) == u / 128 / 128 && Groups(u, 3) == u / 128 / 128 / 128;
    assert u == v || u == v + 0x1_0000_0000;
    assert (v + 0x1_0000_0000) / 128 == v / 128 + 0x200_0000;
    assert (v / 128 + 0x200_0000) / 128 == v / 128 / 128 + 0x4_0000;
    assert (v / 128 / 128 + 0x4_0000) / 128 == v / 128 / 128 / 128 + 0x800;
  }

  lemma FifthGroup(v: i32)
    ensures v < 0 ==> SByte(v) == v / 128 / 128 / 128 / 128 % 128 + 128
    ensures v >= 0 ==> SByte(v) < 8
  {
    hide SNibble;
    SNibbleValue(ToU32(v) / 0x1000_0000);
    assert v / 128 / 128 / 128 / 128 == v / 0x1000_0000;
    if v < 0 {
      assert ToU32(v) / 0x1000_0000 == v / 0x1000_0000 + 16;
    }
  }

  lemma IntBytesPadded(len: nat, v: i32)
    requires 1 <= len <= 4 || (len == 5 && v < 0)
    ensures IntBytes(len, v) == PadHigh(v / 128, len - 1) + [v % 128]
  {
    hide FByte, SByte;
    FourGroups(v);
    FifthGroup(v);
    assert PadHigh(v / 128, 0) == [];
    var b1, b2, b3, b4 := v / 128, v / 128 / 128, v / 128 / 128 / 128, v / 128 / 128 / 128 / 128;
    assert PadHigh(b1, 1) == [b1 % 128 + 128];
    assert PadHigh(b1, 2) == [b2 % 128 + 128, b1 % 128 + 128];
    assert PadHigh(b1, 3) == [b3 % 128 + 128, b2 % 128 + 128, b1 % 128 + 128] by {
      assert PadHigh(b2, 2) == [b3 % 128 + 128, b2 % 128 + 128];
    }
    assert PadHigh(b1, 4) == [b4 % 128 + 128, b3 % 128 + 128, b2 % 128 + 128, b1 % 128 + 128] by {
      assert PadHigh(b3, 2) == [b4 % 128 + 128, b3 % 128 + 128];
      assert PadHigh(b2, 3) == [b4 % 128 + 128, b3 % 128 + 128, b2 % 128 + 128];
    }
  }

  /** When the interpreter reads the constant back correctly: never mind what follows it, exactly
      if at most four bytes are reserved or the 32-bit value is negative. */
  predicate ReadsBack(cx: Expr, off: i32, x: i32) {
    ExprLength(cx, off) <= 4 || ToI32(x + off) < 0
  }

  lemma ConstantReadBack(code: seq<byte>, p: nat, cx: Expr, off: i32, x: i32)
    requires cx.min <= x <= cx.max
    requires At(code, p, IntBytes(ExprLength(cx, off), x + off))
    ensures DecS(code, p) == Parsed(ToI32(x + off), p + ExprLength(cx, off)) <==> ReadsBack(cx, off, x)
  {
    hide FByte, SByte, DecS, Pow2, IntBytes, At;
    var len := ExprLength(cx, off);
    var v := ToI32(x + off);
    SamePattern(len, x + off);
    if len <= 4 {
      ReservedEnough(cx, off, x);
      Pow2Mono(7 * (len - 1) + 6, 27);
      Pow2Seven(0); Pow2Seven(6); Pow2Seven(13); Pow2Seven(20);
      assert v == x + off;
    } else {
      Pow2Seven(0); Pow2Seven(6); Pow2Seven(13); Pow2Seven(20); Pow2Seven(27);
    }
    if ReadsBack(cx, off, x) {
      IntBytesPadded(len, v);
      DecodePadded(code, p, v, len);
    } else {
      FifthGroup(v);
      StopsEarly(code, p, v);
    }
  }

  /** The constant 1 under a name declared to range over all non-negative numbers: five bytes are reserved, and
      the interpreter does not get 1 back. */
  lemma WideConstantMisread(code: seq<byte>, p: nat)
    requires At(code, p, IntBytes(5, 1))
    ensures ExprLength(Expr(0, 0x7FFF_FFFF), 0) == 5 && DecS(code, p) != Parsed(1, p + 5)
  {
    hide DecS, IntBytes, BitLength, Pow2;
    var cx := Expr(0, 0x7FFF_FFFF);
    BitLengthLeast(0x7FFF_FFFF, 28);
    Pow2Seven(0); Pow2Seven(7); Pow2Seven(14); Pow2Seven(21);
    ConstantReadBack(code, p, cx, 0, 1);
  }

  lemma SamePattern(len: nat, x: int)
    requires 1 <= len <= 5
    ensures IntBytes(len, x) == IntBytes(len, ToI32(x))
  {
    hide Groups, SNibble, ToU32, ToI32;
    SameBits(x);
  }

  lemma SameBits(x: int)
    ensures ToU32(ToI32(x)) == ToU32(x)
  {
  }

  /** A first byte without continuation bit ends the number: one byte is consumed instead of five. */
  lemma StopsEarly(code: seq<byte>, p: nat, v: i32)
    requires At(code, p, IntBytes(5, v)) && SByte(v) < 8
    ensures DecS(code, p).Parsed? && DecS(code, p).next == p + 1
  {
    hide FByte, SByte, Push7;
    assert code[p] == code[p..p + 5][0];
    ScanLast(code, p, SignFill(code[p]));
  }
}
