/** The "7E" number format: CodeElement's encoders and the generated interpreter's decoders. */
module SevenBit {
  import opened Bytes

  // ----- encodings as byte strings -----

  function Abs(v: int): (r: nat) {
    if v < 0 then -v else v
  }

  /** The continuation bytes of an unsigned number whose remaining high part is v. */
  function HighU(v: nat): (s: seq<byte>) {
    if v == 0 then [] else HighU(v / 128) + [v % 128 + 128]
  }

  /** Big-endian groups of seven bits, the top bit of each byte telling that more follow. */
  function EncU(v: nat): (s: seq<byte>)
    ensures |s| >= 1
  {
    HighU(v / 128) + [v % 128]
  }

  /** The continuation bytes of a signed number: the first group must carry the sign in its bit 6. */
  function HighS(w: int): (s: seq<byte>)
    decreases Abs(w)
  {
    if -64 <= w < 64 then [w % 128 + 128] else HighS(w / 128) + [w % 128 + 128]
  }

  function EncS(v: int): (s: seq<byte>)
    ensures |s| >= 1
  {
    if -64 <= v < 64 then [v % 128] else HighS(v / 128) + [v % 128]
  }

  // ----- decoders -----

  datatype Parsed = Parsed(value: int, next: nat) | RunOff

  /** `x = (x << 7) | (y & 0x7F)` on 32-bit unsigned integers. */
  function Push7(x: u32, y: byte): (r: u32) {
    ToU32(x * 128 + y % 128)
  }

  /** Accumulate groups from position p until a byte below 0x80; RunOff if there is none. */
  function Scan(code: seq<byte>, p: nat, x: u32): (r: Parsed)
    ensures r.Parsed? ==> p < r.next <= |code| && 0 <= r.value < 0x1_0000_0000
    decreases |code| - p
  {
    if p >= |code| then RunOff
    else if code[p] < 128 then Parsed(Push7(x, code[p]), p + 1)
    else Scan(code, p + 1, Push7(x, code[p]))
  }

  function DecU(code: seq<byte>, p: nat): (r: Parsed)
    ensures r.Parsed? ==> p < r.next <= |code| && 0 <= r.value < 0x1_0000_0000
  {
    Scan(code, p, 0)
  }

  /** The sign is read from bit 6 of the first byte and pre-loaded into every bit of x. */
  function SignFill(y: byte): (r: u32) {
    if y / 64 % 2 == 1 then 0xFFFF_FFFF else 0
  }

  function DecS(code: seq<byte>, p: nat): (r: Parsed)
    ensures r.Parsed? ==> p < r.next <= |code| && -0x8000_0000 <= r.value < 0x8000_0000
  {
    if p >= |code| then RunOff
    else
      var r := Scan(code, p, SignFill(code[p]));
      if r.RunOff? then RunOff else Parsed(ToI32(r.value), r.next)
  }

  // ----- round trips -----

  /** One decoding step undoes one encoding step, modulo 2^32. */
  lemma Push7Undo(v: int)
    ensures Push7(ToU32(v / 128), v % 128) == ToU32(v)
    ensures Push7(ToU32(v / 128), v % 128 + 128) == ToU32(v)
  {
    var q := v / 128;
    assert v == 128 * q + v % 128;
    assert (v % 128 + 128) % 128 == v % 128;
    ModStep(q, v % 128);
  }

  lemma ModStep(q: int, d: int)
    ensures ToU32(ToU32(q) * 128 + d) == ToU32(q * 128 + d)
  {
    var k := q / 0x1_0000_0000;
    assert q == 0x1_0000_0000 * k + ToU32(q);
    var a := ToU32(q) * 128 + d;
    assert q * 128 + d == a + 0x1_0000_0000 * (k * 128);
    ModShift(a, k * 128);
  }

  lemma ModShift(a: int, k: int)
    ensures ToU32(a + 0x1_0000_0000 * k) == ToU32(a)
  {
    var m := 0x1_0000_0000;
    DivUnique(a + m * k, m, a / m + k, a % m);
  }

  lemma ScanLast(code: seq<byte>, p: nat, x: u32)
    requires p < |code| && code[p] < 128
    ensures Scan(code, p, x) == Parsed(Push7(x, code[p]), p + 1)
  {
  }

  lemma ScanMore(code: seq<byte>, p: nat, x: u32)
    requires p < |code| && code[p] >= 128
    ensures Scan(code, p, x) == Scan(code, p + 1, Push7(x, code[p]))
  {
  }

  /** A number written as one raw byte, as the number of locals is in one-byte code, is read back as 7E exactly if it
      is below 128. */
  lemma RawByte(code: seq<byte>, p: nat)
    requires p < |code|
    ensures DecU(code, p) == Parsed(code[p], p + 1) <==> code[p] < 128
  {
    hide Push7;
    if code[p] < 128 {
      ScanLast(code, p, 0);
      PushSmall(code[p]);
    } else {
      ScanMore(code, p, 0);
    }
  }

  lemma PushSmall(y: byte)
    requires y < 128
    ensures Push7(0, y) == y
  {
  }

  lemma {:induction false} ScanHighU(code: seq<byte>, p: nat, v: u32)
    requires At(code, p, HighU(v))
    ensures Scan(code, p, 0) == Scan(code, p + |HighU(v)|, v)
  {
    hide Push7, Scan;
    if v != 0 {
      AtSplit(code, p, HighU(v / 128), [v % 128 + 128]);
      ScanHighU(code, p, v / 128);
      AtByte(code, p + |HighU(v / 128)|, v % 128 + 128);
      ScanMore(code, p + |HighU(v / 128)|, v / 128);
      Push7Undo(v);
    }
  }

  /** Decoding an unsigned encoding, whatever follows it, gives back the value and stops right behind it. */
  lemma RoundTripU(code: seq<byte>, p: nat, v: u32)
    requires At(code, p, EncU(v))
    ensures DecU(code, p) == Parsed(v, p + |EncU(v)|)
  {
    hide Push7, Scan;
    AtSplit(code, p, HighU(v / 128), [v % 128]);
    ScanHighU(code, p, v / 128);
    AtByte(code, p + |HighU(v / 128)|, v % 128);
    ScanLast(code, p + |HighU(v / 128)|, v / 128);
    Push7Undo(v);
  }

  lemma {:induction false} FirstByteS(w: int)
    ensures |HighS(w)| >= 1 && (HighS(w)[0] / 64 % 2 == 1 <==> w < 0)
    decreases Abs(w)
  {
    if !(-64 <= w < 64) {
      FirstByteS(w / 128);
    }
  }

  lemma {:induction false} ScanHighS(code: seq<byte>, p: nat, w: i32)
    requires At(code, p, HighS(w))
    ensures Scan(code, p, if w < 0 then 0xFFFF_FFFF else 0) == Scan(code, p + |HighS(w)|, ToU32(w))
    decreases Abs(w)
  {
    hide Push7, Scan;
    Push7Undo(w);
    if -64 <= w < 64 {
      AtByte(code, p, w % 128 + 128);
      ScanMore(code, p, ToU32(w / 128));
    } else {
      AtSplit(code, p, HighS(w / 128), [w % 128 + 128]);
      ScanHighS(code, p, w / 128);
      AtByte(code, p + |HighS(w / 128)|, w % 128 + 128);
      ScanMore(code, p + |HighS(w / 128)|, ToU32(w / 128));
    }
  }

  lemma SignedBack(v: i32)
    ensures ToI32(ToU32(v)) == v
  {
  }

  lemma SmallS(v: int)
    requires -64 <= v < 64
    ensures SignFill(v % 128) == ToU32(v / 128)
  {
  }

  /** The scan of a signed encoding, started from its own sign. */
  lemma ScanS(code: seq<byte>, p: nat, v: i32)
    requires At(code, p, EncS(v))
    ensures p < |code|
    ensures Scan(code, p, SignFill(code[p])) == Parsed(ToU32(v), p + |EncS(v)|)
  {
    hide Push7, Scan, ToU32, At;
    Push7Undo(v);
    if -64 <= v < 64 {
      AtByte(code, p, v % 128);
      SmallS(v);
      ScanLast(code, p, ToU32(v / 128));
    } else {
      var w := v / 128;
      AtSplit(code, p, HighS(w), [v % 128]);
      BigS(code, p, w);
      ScanHighS(code, p, w);
      AtByte(code, p + |HighS(w)|, v % 128);
      ScanLast(code, p + |HighS(w)|, ToU32(w));
    }
  }

  lemma BigS(code: seq<byte>, p: nat, w: i32)
    requires At(code, p, HighS(w))
    ensures p < |code| && SignFill(code[p]) == if w < 0 then 0xFFFF_FFFF else 0
  {
    FirstByteS(w);
    assert code[p] == code[p..p + |HighS(w)|][0];
  }

  /** The same for signed values, sign extension included. */
  lemma RoundTripS(code: seq<byte>, p: nat, v: i32)
    requires At(code, p, EncS(v))
    ensures DecS(code, p) == Parsed(v, p + |EncS(v)|)
  {
    hide Scan, EncS, SignFill;
    ScanS(code, p, v);
    SignedBack(v);
  }

  // ----- no encoding is the beginning of another one -----

  lemma PrefixFreeU(v: u32, w: u32)
    requires EncU(v) <= EncU(w)
    ensures v == w
  {
    RoundTripU(EncU(w), 0, v);
    RoundTripU(EncU(w), 0, w);
  }

  lemma PrefixFreeS(v: i32, w: i32)
    requires EncS(v) <= EncS(w)
    ensures v == w
  {
    RoundTripS(EncS(w), 0, v);
    RoundTripS(EncS(w), 0, w);
  }

  // ----- no shorter byte string decodes to the same value -----

  lemma LengthStepU(w: nat)
    ensures |EncU(w)| == if w >= 128 then 1 + |EncU(w / 128)| else 1
  {
    assert w >= 128 ==> |HighU(w / 128)| == |EncU(w / 128)|;
  }

  lemma LengthStepS(w: int)
    ensures |EncS(w)| == if -64 <= w < 64 then 1 else 1 + |EncS(w / 128)|
  {
    assert !(-64 <= w < 64) ==> |HighS(w / 128)| == |EncS(w / 128)|;
  }

  /** n bytes encode exactly the numbers of 7n bits. */
  lemma {:induction false} LengthU(v: nat, n: nat)
    ensures |EncU(v)| <= n + 1 <==> v < Pow2(7 * (n + 1))
    decreases n
  {
    hide EncU, Pow2;
    LengthStepU(v);
    Pow2Seven(7 * n);
    if n > 0 {
      LengthU(v / 128, n - 1);
    } else {
      Pow2Seven(0);
    }
  }

  /** n bytes encode exactly the signed numbers of 7n bits. */
  lemma {:induction false} LengthS(v: int, n: nat)
    ensures |EncS(v)| <= n + 1 <==> 0 - Pow2(7 * n + 6) <= v < Pow2(7 * n + 6)
    decreases n
  {
    hide EncS, Pow2;
    LengthStepS(v);
    if n > 0 {
      Pow2Seven(7 * (n - 1) + 6);
      LengthS(v / 128, n - 1);
    } else {
      Pow2Seven(0);
    }
  }

  lemma Push7Bound(x: u32, y: byte, hi: nat)
    requires x < hi
    ensures Push7(x, y) < hi * 128
  {
    assert x * 128 + y % 128 < hi * 128;
  }

  /** A scan over k bytes adds 7k bits below what was there. */
  lemma {:induction false} ScanBound(code: seq<byte>, p: nat, x: u32, hi: nat)
    requires Scan(code, p, x).Parsed? && x < hi
    ensures Scan(code, p, x).value < hi * Pow2(7 * (Scan(code, p, x).next - p))
    decreases |code| - p
  {
    hide Push7;
    var k := Scan(code, p, x).next - p;
    Pow2Seven(7 * (k - 1));
    Push7Bound(x, code[p], hi);
    if code[p] >= 128 {
      ScanBound(code, p + 1, Push7(x, code[p]), hi * 128);
      MulAssoc(hi, 128, Pow2(7 * (k - 1)));
    }
  }

  lemma MulAssoc(a: nat, b: nat, c: nat)
    ensures a * b * c == a * (b * c)
  {
  }

  /** Minimality: whatever byte string decodes to v is at least as long as the encoding of v. */
  lemma MinimalU(code: seq<byte>, p: nat, v: u32)
    requires DecU(code, p).Parsed? && DecU(code, p).value == v
    ensures |EncU(v)| <= DecU(code, p).next - p
  {
    ScanBound(code, p, 0, 1);
    LengthU(v, DecU(code, p).next - p - 1);
  }

  lemma Push7Signed(x: u32, y: byte, hi: nat)
    requires 0 - hi <= ToI32(x) < hi && hi * 128 <= 0x8000_0000
    ensures 0 - hi * 128 <= ToI32(Push7(x, y)) < hi * 128
  {
    var s := ToI32(x) * 128 + y % 128;
    assert x == ToU32(ToI32(x));
    ModStep(ToI32(x), y % 128);
    assert Push7(x, y) == ToU32(s);
    assert -0x8000_0000 <= s < 0x8000_0000;
    SignedBack(s);
  }

  lemma {:induction false} ScanBoundS(code: seq<byte>, p: nat, x: u32, hi: nat)
    requires Scan(code, p, x).Parsed? && 0 - hi <= ToI32(x) < hi
    requires hi * Pow2(7 * (Scan(code, p, x).next - p)) <= 0x8000_0000
    ensures 0 - hi * Pow2(7 * (Scan(code, p, x).next - p)) <= ToI32(Scan(code, p, x).value)
                                                           < hi * Pow2(7 * (Scan(code, p, x).next - p))
    decreases |code| - p
  {
    hide Push7, ToI32;
    var k := Scan(code, p, x).next - p;
    Pow2Seven(7 * (k - 1));
    MulAssoc(hi, 128, Pow2(7 * (k - 1)));
    MulGrows(hi * 128, Pow2(7 * (k - 1)));
    Push7Signed(x, code[p], hi);
    if code[p] >= 128 {
      ScanBoundS(code, p + 1, Push7(x, code[p]), hi * 128);
    }
  }

  lemma MulGrows(a: nat, b: nat)
    requires b >= 1
    ensures a <= a * b
  {
  }

  lemma FirstGroup(y: byte)
    ensures -64 <= ToI32(Push7(SignFill(y), y)) < 64
  {
    if y / 64 % 2 == 1 {
      assert y % 128 >= 64;
      assert 0xFFFF_FFFF * 128 + y % 128 == 0x1_0000_0000 * 127 + (0x1_0000_0000 - 128 + y % 128);
      ModShift(0x1_0000_0000 - 128 + y % 128, 127);
    } else {
      assert y % 128 < 64;
    }
  }

  lemma MinimalS(code: seq<byte>, p: nat, v: i32)
    requires DecS(code, p).Parsed? && DecS(code, p).value == v
    ensures |EncS(v)| <= DecS(code, p).next - p
  {
    hide Push7, ToI32, EncS, Pow2;
    var n := DecS(code, p).next - p;
    if n >= 5 {
      Pow2Seven(0); Pow2Seven(7); Pow2Seven(14); Pow2Seven(21); Pow2Seven(27);
      Pow2Seven(6); Pow2Seven(13); Pow2Seven(20);
      assert Pow2(34) == 0x4_0000_0000;
      Pow2Mono(34, 7 * (n - 1) + 6);
    } else {
      FirstGroup(code[p]);
      Pow2Seven(0);
      if n >= 2 {
        Pow2Seven(7); Pow2Seven(14);
        Pow2Mono(7 * (n - 1), 21);
        Pow2Add(6, 7 * (n - 1));
        ScanBoundS(code, p + 1, Push7(SignFill(code[p]), code[p]), 64);
      }
    }
    LengthS(v, n - 1);
  }

  // ----- the encoders and decoders themselves -----

  /** EncodeOneByte: refused (no byte written) when the value does not fit. */
  method EncodeOneByte(val: u32, bw: BlobWriter) returns (len: Option<nat>)
    modifies bw
    ensures len == if val > 255 then None else Some(1)
    ensures bw.bytes == if val > 255 then old(bw.bytes) else old(bw.bytes) + [val]
  {
    if val > 255 {
      return None;
    }
    bw.Append(val);
    return Some(1);
  }

  /** The number with its j low groups shifted out. */
  function Groups(v: int, j: nat): (r: int)
    ensures v >= 0 ==> r >= 0
  {
    Shr(v, 7 * j)
  }

  lemma NextGroup(v: int, j: nat)
    ensures Groups(v, 0) == v && Groups(v, j + 1) == Groups(v, j) / 128 == Groups(v / 128, j)
  {
    ShiftTwice(v, 7 * j, 7);
    ShiftTwice(v, 7, 7 * j);
    ShiftSeven(Groups(v, j));
    ShiftSeven(v);
  }

  /** The bytes of an unsigned encoding, from the last one on: seven bits each, the lowest first; all but the last
      carry the continuation bit; nothing is left over. */
  lemma {:induction false} DigitsU(v: nat, k: nat)
    requires k < |EncU(v)|
    ensures EncU(v)[|EncU(v)| - 1 - k] == Groups(v, k) % 128 + (if k == 0 then 0 else 128)
    ensures Groups(v, |EncU(v)|) == 0
  {
    hide Groups;
    NextGroup(v, if k > 0 then k - 1 else 0);
    NextGroup(v, |EncU(v)| - 1);
    HighDigitsU(v / 128, if k > 0 then k - 1 else 0);
  }

  lemma {:induction false} HighDigitsU(w: nat, k: nat)
    ensures k < |HighU(w)| ==> HighU(w)[|HighU(w)| - 1 - k] == Groups(w, k) % 128 + 128
    ensures Groups(w, |HighU(w)|) == 0
    decreases w
  {
    hide Groups;
    NextGroup(w, if k > 0 then k - 1 else 0);
    if w > 0 {
      NextGroup(w, |HighU(w)| - 1);
      HighDigitsU(w / 128, if k > 0 then k - 1 else 0);
    }
  }

  /** The same for signed numbers: what is left over is the sign, which bit 6 of the first byte repeats. */
  lemma {:induction false} DigitsS(v: int, k: nat)
    requires k < |EncS(v)|
    ensures EncS(v)[|EncS(v)| - 1 - k] == Groups(v, k) % 128 + (if k == 0 then 0 else 128)
    ensures Groups(v, |EncS(v)|) == (if EncS(v)[0] / 64 % 2 == 1 then -1 else 0) == (if v < 0 then -1 else 0)
  {
    hide Groups;
    NextGroup(v, if k > 0 then k - 1 else 0);
    NextGroup(v, |EncS(v)| - 1);
    if !(-64 <= v < 64) {
      HighDigitsS(v / 128, if k > 0 then k - 1 else 0);
    }
  }

  lemma {:induction false} HighDigitsS(w: int, k: nat)
    ensures k < |HighS(w)| ==> HighS(w)[|HighS(w)| - 1 - k] == Groups(w, k) % 128 + 128
    ensures |HighS(w)| >= 1
    ensures Groups(w, |HighS(w)|) == (if HighS(w)[0] / 64 % 2 == 1 then -1 else 0) == (if w < 0 then -1 else 0)
    decreases Abs(w)
  {
    hide Groups;
    NextGroup(w, if k > 0 then k - 1 else 0);
    if -64 <= w < 64 {
      NextGroup(w, 0);
    } else {
      HighDigitsS(w / 128, if k > 0 then k - 1 else 0);
      NextGroup(w, |HighS(w)| - 1);
    }
  }

  /** After dropping j groups the rest fits in seven bits exactly if there were at most j + 1 groups. */
  lemma {:induction false} TopGroupU(v: nat, j: nat)
    ensures Groups(v, j) < 128 <==> |EncU(v)| <= j + 1
    decreases j
  {
    hide EncU;
    LengthStepU(v);
    if j > 0 {
      NextGroup(v, j - 1);
      if v < 128 {
        assert v / 128 == 0;
      } else {
        TopGroupU(v / 128, j - 1);
      }
    }
  }

  method Encode7EUnsigned(val: u32, bw: BlobWriter?) returns (len: nat)
    modifies if bw == null then {} else {bw}
    ensures len == |EncU(val)|
    ensures bw != null ==> bw.bytes == old(bw.bytes) + EncU(val)
  {
    len := 1;
    var w: nat := val;
    while w >= 0x80
      invariant |EncU(val)| == len - 1 + |EncU(w)|
      invariant bw != null ==> bw.bytes == old(bw.bytes)
    {
      LengthStepU(w);
      len := len + 1;
      w := w / 128;
    }
    LengthStepU(w);
    if bw != null {
      EmitU(val, len, bw);
    }
  }

  method EmitU(val: u32, len: nat, bw: BlobWriter)
    requires len == |EncU(val)|
    modifies bw
    ensures bw.bytes == old(bw.bytes) + EncU(val)
  {
    hide Groups;
    var j := len - 1;
    NextGroup(val, j);
    TopGroupU(val, j);
    while j > 0
      invariant 0 <= j < len
      invariant bw.bytes == old(bw.bytes) + HighU(Groups(val, j + 1))
    {
      TopGroupU(val, j - 1);
      NextGroup(val, j);
      NextGroup(val, j - 1);
      bw.Append(Groups(val, j) % 128 + 0x80);
      j := j - 1;
    }
    NextGroup(val, 0);
    bw.Append(val % 128);
  }

  /** The same for signed numbers: the rest fits in seven bits, one of them the sign. */
  lemma {:induction false} TopGroupS(v: int, j: nat)
    ensures -64 <= Groups(v, j) < 64 <==> |EncS(v)| <= j + 1
    decreases j
  {
    hide EncS;
    LengthStepS(v);
    if j > 0 {
      NextGroup(v, j - 1);
      if -64 <= v < 64 {
        assert -1 <= v / 128 <= 0;
      } else {
        TopGroupS(v / 128, j - 1);
      }
    }
  }

  method Encode7ESigned(val: i32, bw: BlobWriter?) returns (len: nat)
    modifies if bw == null then {} else {bw}
    ensures len == |EncS(val)|
    ensures bw != null ==> bw.bytes == old(bw.bytes) + EncS(val)
  {
    len := 1;
    var w: int := val;
    if val < 0 {
      while w < -0x40
        invariant w < 0 && |EncS(val)| == len - 1 + |EncS(w)|
        invariant bw != null ==> bw.bytes == old(bw.bytes)
        decreases Abs(w)
      {
        LengthStepS(w);
        len := len + 1;
        w := w / 128;
      }
    } else {
      while w >= 0x40
        invariant w >= 0 && |EncS(val)| == len - 1 + |EncS(w)|
        invariant bw != null ==> bw.bytes == old(bw.bytes)
      {
        LengthStepS(w);
        len := len + 1;
        w := w / 128;
      }
    }
    LengthStepS(w);
    if bw != null {
      EmitS(val, len, bw);
    }
  }

  method EmitS(val: i32, len: nat, bw: BlobWriter)
    requires len == |EncS(val)|
    modifies bw
    ensures bw.bytes == old(bw.bytes) + EncS(val)
  {
    hide Groups;
    var j := len - 1;
    TopGroupS(val, j);
    while j > 0
      invariant 0 <= j < len
      invariant j == len - 1 ==> bw.bytes == old(bw.bytes) && -64 <= Groups(val, j) < 64
      invariant j < len - 1 ==> bw.bytes == old(bw.bytes) + HighS(Groups(val, j + 1)) && !(-64 <= Groups(val, j) < 64)
    {
      TopGroupS(val, j - 1);
      NextGroup(val, j);
      NextGroup(val, j - 1);
      bw.Append(Groups(val, j) % 128 + 0x80);
      j := j - 1;
    }
    NextGroup(val, 0);
    bw.Append(val % 128);
  }

  method Parse7EUnsigned(code: seq<byte>, p: nat) returns (x: u32, next: nat)
    requires DecU(code, p).Parsed?
    ensures DecU(code, p) == Parsed(x, next)
  {
    x, next := 0, p;
    while true
      invariant Scan(code, next, x) == DecU(code, p)
      decreases |code| - next
    {
      var y := code[next];
      next := next + 1;
      x := Push7(x, y);
      if y < 0x80 {
        return;
      }
    }
  }

  method Parse7ESigned(code: seq<byte>, p: nat) returns (x: i32, next: nat)
    requires DecS(code, p).Parsed?
    ensures DecS(code, p) == Parsed(x, next)
  {
    hide Push7;
    var neg := code[p] / 64 % 2 == 1;
    var acc: u32 := if neg then 0xFFFF_FFFF else 0;
    next := p;
    while true
      invariant Scan(code, next, acc).Parsed?
      invariant Scan(code, next, acc) == Scan(code, p, SignFill(code[p]))
      decreases |code| - next
    {
      var y := code[next];
      next := next + 1;
      acc := Push7(acc, y);
      if y < 0x80 {
        if neg {
          // the complement is taken as a signed value before it is negated
          return 0 - ToI32(0xFFFF_FFFF - acc) - 1, next;
        } else {
          return ToI32(acc), next;
        }
      }
    }
  }
}
