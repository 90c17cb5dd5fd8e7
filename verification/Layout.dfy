/** Code elements, and the loop that gives them addresses until the jump offsets are stable. */
module Layout {
  import opened Bytes
  import opened SevenBit
  import opened CConst

  /** One unit of the code block. Jumps name their target by its index in the whole list. */
  datatype Elem =
    | UInt(val: u32)
    | UIntInt(val: u32, arg: i32)
    | UIntUInt(val: u32, uarg: u32)
    | UIntExpr(val: u32, cx: Expr, off: i32, x: i32)
    | Jump(val: u32, target: nat)

  predicate WellTargeted(elems: seq<Elem>) {
    forall i :: 0 <= i < |elems| && elems[i].Jump? ==> elems[i].target < |elems|
  }

  // ----- lengths, addresses, offsets -----

  function OpLength(oneByte: bool, val: u32): (n: nat)
    ensures 1 <= n <= 5
  {
    LengthStepU5(val);
    if oneByte then 1 else |EncU(val)|
  }

  lemma LengthStepU5(val: u32)
    ensures |EncU(val)| <= 5
  {
    hide Pow2, EncU;
    LengthU(val, 4);
    Pow2Seven(0); Pow2Seven(7); Pow2Seven(14); Pow2Seven(21); Pow2Seven(28);
  }

  lemma LengthStepS5(val: i32)
    ensures |EncS(val)| <= 5
  {
    hide Pow2, EncS;
    LengthS(val, 4);
    Pow2Seven(0); Pow2Seven(6); Pow2Seven(13); Pow2Seven(20); Pow2Seven(27);
  }

  /** Address of element i when the elements have the given lengths. */
  function Addr(lens: seq<nat>, i: nat): (a: nat)
    requires i <= |lens|
  {
    if i == 0 then 0 else Addr(lens, i - 1) + lens[i - 1]
  }

  /** JumpOff: from the end of element i to the start of element t. */
  function Off(lens: seq<nat>, i: nat, t: nat): int
    requires i < |lens| && t <= |lens|
  {
    Addr(lens, t) - (Addr(lens, i) + lens[i])
  }

  /** GetLength before any address is known. */
  function FreshLength(e: Elem, oneByte: bool): (n: nat)
    ensures 1 <= n <= 10
  {
    match e
    case UInt(v) => OpLength(oneByte, v)
    case UIntInt(v, a) => LengthStepS5(a); OpLength(oneByte, v) + |EncS(a)|
    case UIntUInt(v, a) => LengthStepU5(a); OpLength(oneByte, v) + |EncU(a)|
    case UIntExpr(v, cx, off, _) => OpLength(oneByte, v) + ExprLength(cx, off)
    case Jump(v, _) => OpLength(oneByte, v) + 1
  }

  /** GetLength of element i when addresses and lengths come from `lens`. */
  function LengthIn(elems: seq<Elem>, oneByte: bool, lens: seq<nat>, i: nat): (n: nat)
    requires WellTargeted(elems) && |lens| == |elems| && i < |elems|
    ensures n >= FreshLength(elems[i], oneByte) >= 1
  {
    match elems[i]
    case Jump(v, t) => OpLength(oneByte, v) + |EncS(Off(lens, i, t))|
    case e => FreshLength(e, oneByte)
  }

  function Fresh(elems: seq<Elem>, oneByte: bool): (lens: seq<nat>)
    ensures |lens| == |elems|
  {
    seq(|elems|, i requires 0 <= i < |elems| => FreshLength(elems[i], oneByte))
  }

  /** One round of the relaxation loop. */
  function Round(elems: seq<Elem>, oneByte: bool, lens: seq<nat>): (lens': seq<nat>)
    requires WellTargeted(elems) && |lens| == |elems|
    ensures |lens'| == |elems|
  {
    seq(|elems|, i requires 0 <= i < |elems| => LengthIn(elems, oneByte, lens, i))
  }

  /** Every element's computed length is the length its address was computed with. */
  predicate SelfConsistent(elems: seq<Elem>, oneByte: bool, lens: seq<nat>) {
    WellTargeted(elems) && |lens| == |elems| &&
    forall i :: 0 <= i < |elems| ==> lens[i] == LengthIn(elems, oneByte, lens, i)
  }

  /** Weaker: every element has at least the room it needs. */
  predicate Roomy(elems: seq<Elem>, oneByte: bool, lens: seq<nat>) {
    WellTargeted(elems) && |lens| == |elems| &&
    forall i :: 0 <= i < |elems| ==> LengthIn(elems, oneByte, lens, i) <= lens[i]
  }

  predicate Below(a: seq<nat>, b: seq<nat>) {
    |a| == |b| && forall i :: 0 <= i < |a| ==> a[i] <= b[i]
  }

  /** Addresses grow along the list. */
  lemma {:induction false} AddrOrder(lens: seq<nat>, i: nat, n: nat)
    requires i <= n <= |lens|
    ensures 0 <= Addr(lens, i) <= Addr(lens, n)
    ensures i < n ==> Addr(lens, i) + lens[i] <= Addr(lens, n)
    decreases n
  {
    if i < n {
      AddrOrder(lens, i, n - 1);
    }
  }

  // ----- the round is monotone -----

  lemma {:induction false} AddrGap(a: seq<nat>, b: seq<nat>, i: nat, j: nat)
    requires Below(a, b) && i <= j <= |a|
    ensures 0 <= Addr(a, j) - Addr(a, i) <= Addr(b, j) - Addr(b, i)
    decreases j
  {
    if i < j {
      AddrGap(a, b, i, j - 1);
    }
  }

  lemma {:induction false} LengthSMono(v: int, w: int)
    requires 0 <= v <= w || w <= v <= 0
    ensures |EncS(v)| <= |EncS(w)|
    decreases Abs(v)
  {
    hide EncS;
    LengthStepS(v);
    LengthStepS(w);
    if !(-64 <= v < 64) {
      LengthSMono(v / 128, w / 128);
    }
  }

  lemma RoundMonotone(elems: seq<Elem>, oneByte: bool, a: seq<nat>, b: seq<nat>)
    requires WellTargeted(elems) && |a| == |elems| && Below(a, b)
    ensures Below(Round(elems, oneByte, a), Round(elems, oneByte, b))
  {
    forall i | 0 <= i < |elems|
      ensures LengthIn(elems, oneByte, a, i) <= LengthIn(elems, oneByte, b, i)
    {
      if elems[i].Jump? {
        var t := elems[i].target;
        if t <= i {
          AddrGap(a, b, t, i + 1);
        } else {
          AddrGap(a, b, i + 1, t);
        }
        LengthSMono(Off(a, i, t), Off(b, i, t));
      }
    }
  }

  /** Comparing the total is enough: pointwise growth with the same total is no growth. */
  lemma {:induction false} SameTotal(a: seq<nat>, b: seq<nat>, i: nat)
    requires Below(a, b) && i <= |a|
    ensures Addr(a, i) <= Addr(b, i)
    ensures Addr(a, i) == Addr(b, i) ==> a[..i] == b[..i]
    decreases i
  {
    if i > 0 {
      SameTotal(a, b, i - 1);
      assert a[..i] == a[..i - 1] + [a[i - 1]] && b[..i] == b[..i - 1] + [b[i - 1]];
    }
  }

  // ----- a layout the loop never exceeds -----

  lemma PowBeatsIdentity(c: nat)
    ensures c < Pow2(c)
  {
  }

  lemma {:induction false} AddrUniform(lens: seq<nat>, m: nat, i: nat)
    requires i <= |lens| && forall k :: 0 <= k < |lens| ==> lens[k] == m
    ensures Addr(lens, i) == i * m
    decreases i
  {
    if i > 0 {
      AddrUniform(lens, m, i - 1);
      assert i * m == (i - 1) * m + m;
    }
  }

  function Span(m: nat, t: nat, i: nat): (d: int) {
    t * m - i * m
  }

  /** Every element given m bytes, where five bytes less are enough for any offset between them. */
  lemma UniformRoomy(elems: seq<Elem>, oneByte: bool, lens: seq<nat>, m: nat)
    requires WellTargeted(elems) && |lens| == |elems| && m >= 10
    requires forall k :: 0 <= k < |lens| ==> lens[k] == m
    requires forall t: nat, i: nat :: t <= |elems| && i <= |elems| ==> |EncS(Span(m, t, i))| <= m - 5
    ensures Roomy(elems, oneByte, lens)
  {
    forall i | 0 <= i < |elems|
      ensures LengthIn(elems, oneByte, lens, i) <= lens[i]
    {
      if elems[i].Jump? {
        var t := elems[i].target;
        AddrUniform(lens, m, t);
        AddrUniform(lens, m, i + 1);
        assert Off(lens, i, t) == Span(m, t, i + 1);
      }
    }
  }

  /** Room enough for every jump, whatever the size of the program. */
  function Ceiling(n: nat): (lens: seq<nat>)
    ensures |lens| == n
  {
    seq(n, i => n + 16)
  }

  lemma CeilingRoomy(elems: seq<Elem>, oneByte: bool)
    requires WellTargeted(elems)
    ensures Roomy(elems, oneByte, Ceiling(|elems|))
  {
    var n := |elems|;
    var m := n + 16;
    forall t: nat, i: nat | t <= n && i <= n
      ensures |EncS(Span(m, t, i))| <= m - 5
    {
      OffsetFits(n, t, i);
    }
    UniformRoomy(elems, oneByte, Ceiling(n), m);
  }

  lemma OffsetFits(n: nat, t: nat, i: nat)
    requires t <= n && i <= n
    ensures |EncS(t * (n + 16) - i * (n + 16))| <= n + 11
  {
    var c := n + 16;
    MulLe(t, n, c);
    MulLe(i, n, c);
    MulLe(n, c, c);
    PowBeatsIdentity(c);
    MulLe2(c, Pow2(c));
    Pow2Add(c, c);
    assert 0 <= t * c < Pow2(2 * c) && 0 <= i * c < Pow2(2 * c);
    Pow2Mono(2 * c, 7 * (n + 10) + 6);
    LengthS(t * c - i * c, n + 10);
  }

  lemma MulLe(a: nat, b: nat, c: nat)
    requires a <= b
    ensures 0 <= a * c <= b * c
  {
  }

  lemma MulLe2(a: nat, b: nat)
    requires a < b
    ensures a * a < b * b
  {
    MulLe(a, b, a);
    MulLt(a, b, b);
    MulCommutes(a, b);
  }

  lemma MulCommutes(a: nat, b: nat)
    ensures a * b == b * a
  {
  }

  lemma MulLt(a: nat, b: nat, c: nat)
    requires a < b && c >= 1
    ensures a * c < b * c
  {
  }

  // ----- what every round keeps -----

  /** The lengths so far: still growing, and below every layout with enough room. */
  ghost predicate Growing(elems: seq<Elem>, oneByte: bool, lens: seq<nat>) {
    WellTargeted(elems) && |lens| == |elems| && Below(lens, Round(elems, oneByte, lens)) &&
    forall other :: Roomy(elems, oneByte, other) ==> Below(lens, other)
  }

  lemma FirstGrowing(elems: seq<Elem>, oneByte: bool)
    requires WellTargeted(elems)
    ensures Growing(elems, oneByte, Fresh(elems, oneByte))
  {
    forall other | Roomy(elems, oneByte, other)
      ensures Below(Fresh(elems, oneByte), other)
    {
      forall i | 0 <= i < |elems|
        ensures FreshLength(elems[i], oneByte) <= other[i]
      {
        assert LengthIn(elems, oneByte, other, i) <= other[i];
      }
    }
  }

  lemma NextGrowing(elems: seq<Elem>, oneByte: bool, lens: seq<nat>)
    requires Growing(elems, oneByte, lens)
    ensures Growing(elems, oneByte, Round(elems, oneByte, lens))
  {
    var next := Round(elems, oneByte, lens);
    RoundMonotone(elems, oneByte, lens, next);
    forall other | Roomy(elems, oneByte, other)
      ensures Below(next, other)
    {
      RoundMonotone(elems, oneByte, lens, other);
    }
  }

  /** The loop's exit test: a round that leaves the total unchanged has changed nothing. */
  lemma StableTotal(elems: seq<Elem>, oneByte: bool, lens: seq<nat>)
    requires Growing(elems, oneByte, lens)
    ensures var next := Round(elems, oneByte, lens);
            && Addr(lens, |lens|) <= Addr(next, |next|)
            && (Addr(lens, |lens|) == Addr(next, |next|) ==> next == lens && SelfConsistent(elems, oneByte, lens))
  {
    var next := Round(elems, oneByte, lens);
    SameTotal(lens, next, |lens|);
    assert lens[..|lens|] == lens && next[..|next|] == next;
    if next == lens {
      forall i | 0 <= i < |elems|
        ensures lens[i] == LengthIn(elems, oneByte, lens, i)
      {
        assert lens[i] == next[i];
      }
    }
  }

  lemma BelowRoomy(elems: seq<Elem>, oneByte: bool, lens: seq<nat>, other: seq<nat>)
    requires Growing(elems, oneByte, lens) && Roomy(elems, oneByte, other)
    ensures Addr(lens, |lens|) <= Addr(other, |elems|)
  {
    SameTotal(lens, other, |lens|);
  }

  /** With ten bytes an element below 2^31 in all, no address overflows a 32-bit signed integer. */
  lemma NoAddressOverflow(elems: seq<Elem>, oneByte: bool, lens: seq<nat>)
    requires 10 * |elems| < 0x8000_0000
    requires WellTargeted(elems) && |lens| == |elems|
    requires forall other :: Roomy(elems, oneByte, other) ==> Below(lens, other)
    ensures Addr(lens, |lens|) < 0x8000_0000
  {
    var n := |elems|;
    var ten: seq<nat> := seq(n, i => 10);
    forall t: nat, i: nat | t <= n && i <= n
      ensures |EncS(Span(10, t, i))| <= 10 - 5
    {
      LengthStepS5(Span(10, t, i));
    }
    UniformRoomy(elems, oneByte, ten, 10);
    SameTotal(lens, ten, n);
    AddrUniform(ten, 10, n);
  }

  // ----- the objects the generator keeps -----

  /** What a code element knows of itself: a jump is created without its target. */
  function Blank(e: Elem): Elem {
    if e.Jump? then Elem.Jump(e.val, 0) else e
  }

  /** A CodeElement: what it encodes, and the mutable address data. A jump's target is an object, set by
      SetJumpTarget. */
  class CodeElement {
    const elem: Elem
    var target: CodeElement?
    var address: int
    var lastLength: nat

    constructor (elem: Elem)
      ensures this.elem == elem && target == null && address == -1
    {
      this.elem := elem;
      target := null;
      address := -1;
      lastLength := 0;
    }

    method SetJumpTarget(target: CodeElement)
      modifies this`target
      ensures this.target == target
    {
      this.target := target;
    }

    /** None stands for the marker value used while an address is missing. */
    function JumpOff(): Option<int>
      reads this, target
    {
      if target == null || address < 0 || target.address < 0 then None
      else Some(target.address - (address + lastLength))
    }

    function GetLength(oneByte: bool): nat
      reads this, target
    {
      match elem
      case Jump(v, _) =>
        OpLength(oneByte, v) + (match JumpOff() case None => 1 case Some(d) => |EncS(d)|)
      case e => FreshLength(e, oneByte)
    }
  }

  ghost predicate Distinct(gcode: seq<CodeElement>) {
    forall i, j :: 0 <= i < j < |gcode| ==> gcode[i] != gcode[j]
  }

  /** The objects stand for the elements, jump targets included. */
  ghost predicate Linked(gcode: seq<CodeElement>, elems: seq<Elem>)
    reads gcode
  {
    |gcode| == |elems| && WellTargeted(elems) && Distinct(gcode) &&
    forall i :: 0 <= i < |gcode| ==>
      gcode[i].elem == Blank(elems[i]) && (elems[i].Jump? ==> gcode[i].target == gcode[elems[i].target])
  }

  ghost predicate Laid(gcode: seq<CodeElement>, lens: seq<nat>)
    reads gcode
  {
    |lens| == |gcode| &&
    forall i :: 0 <= i < |gcode| ==> gcode[i].address == Addr(lens, i) && gcode[i].lastLength == lens[i]
  }

  /** The relaxation loop. `lens` is the layout left in the objects: consistent with itself, and element
      by element the smallest of all layouts with enough room. */
  method Relax(gcode: seq<CodeElement>, oneByte: bool, ghost elems: seq<Elem>)
    returns (totalLen: int, ghost lens: seq<nat>)
    requires Linked(gcode, elems)
    requires forall i :: 0 <= i < |gcode| ==> gcode[i].address == -1
    modifies gcode`address, gcode`lastLength
    ensures Linked(gcode, elems) && Laid(gcode, lens)
    ensures SelfConsistent(elems, oneByte, lens)
    ensures totalLen == Addr(lens, |lens|)
    ensures forall other :: Roomy(elems, oneByte, other) ==> Below(lens, other)
    ensures forall i :: 0 <= i < |gcode| ==> gcode[i].GetLength(oneByte) == gcode[i].lastLength
  {
    hide Round, Fresh, Growing, Ceiling, SelfConsistent, Roomy;
    CeilingRoomy(elems, oneByte);
    totalLen := -1;
    lens := [];
    while true
      invariant Linked(gcode, elems)
      invariant totalLen == -1 ==> forall i :: 0 <= i < |gcode| ==> gcode[i].address == -1
      invariant totalLen != -1 ==>
        Laid(gcode, lens) && totalLen == Addr(lens, |lens|) && Growing(elems, oneByte, lens)
      invariant totalLen >= -1
      decreases Addr(Ceiling(|elems|), |elems|) - totalLen
    {
      var gcodeLen := MeasureAll(gcode, oneByte, elems, lens, totalLen == -1);
      if totalLen == -1 {
        FirstGrowing(elems, oneByte);
      } else {
        StableTotal(elems, oneByte, lens);
        NextGrowing(elems, oneByte, lens);
      }
      BelowRoomy(elems, oneByte, gcodeLen, Ceiling(|elems|));
      var off := Place(gcode, gcodeLen);
      if off == totalLen {
        LengthsAgree(gcode, oneByte, elems, lens);
        LeastOfAll(elems, oneByte, lens);
        return;
      }
      lens := gcodeLen;
      totalLen := off;
    }
  }

  lemma LeastOfAll(elems: seq<Elem>, oneByte: bool, lens: seq<nat>)
    requires Growing(elems, oneByte, lens)
    ensures forall other :: Roomy(elems, oneByte, other) ==> Below(lens, other)
  {
  }

  /** First inner loop: every length, with the addresses of the previous round. */
  method MeasureAll(gcode: seq<CodeElement>, oneByte: bool, ghost elems: seq<Elem>, ghost lens: seq<nat>, ghost first: bool)
    returns (gcodeLen: seq<nat>)
    requires Linked(gcode, elems)
    requires if first then forall i :: 0 <= i < |gcode| ==> gcode[i].address == -1 else Laid(gcode, lens)
    ensures |gcodeLen| == |elems|
    ensures gcodeLen == if first then Fresh(elems, oneByte) else Round(elems, oneByte, lens)
  {
    hide LengthIn, Addr, OpLength;
    gcodeLen := [];
    var i := 0;
    while i < |gcode|
      invariant 0 <= i <= |gcode| && |gcodeLen| == i
      invariant forall k :: 0 <= k < i ==>
        gcodeLen[k] == if first then FreshLength(elems[k], oneByte) else LengthIn(elems, oneByte, lens, k)
    {
      if !first {
        LengthAgrees(gcode, oneByte, elems, lens, i);
      }
      gcodeLen := gcodeLen + [gcode[i].GetLength(oneByte)];
      i := i + 1;
    }
  }

  /** Second inner loop: addresses are the running sum of the lengths. */
  method Place(gcode: seq<CodeElement>, gcodeLen: seq<nat>) returns (off: nat)
    requires Distinct(gcode) && |gcodeLen| == |gcode|
    modifies gcode`address, gcode`lastLength
    ensures Laid(gcode, gcodeLen)
    ensures off == Addr(gcodeLen, |gcodeLen|)
  {
    hide Addr;
    AddrStep(gcodeLen, 0);
    off := 0;
    var i := 0;
    while i < |gcode|
      invariant 0 <= i <= |gcode| && off == Addr(gcodeLen, i)
      invariant forall k :: 0 <= k < i ==> gcode[k].address == Addr(gcodeLen, k) && gcode[k].lastLength == gcodeLen[k]
    {
      AddrStep(gcodeLen, i);
      gcode[i].address := off;
      gcode[i].lastLength := gcodeLen[i];
      off := off + gcodeLen[i];
      i := i + 1;
    }
  }

  lemma AddrStep(lens: seq<nat>, i: nat)
    requires i <= |lens|
    ensures Addr(lens, 0) == 0 && (i < |lens| ==> Addr(lens, i + 1) == Addr(lens, i) + lens[i])
  {
  }

  lemma LengthAgrees(gcode: seq<CodeElement>, oneByte: bool, elems: seq<Elem>, lens: seq<nat>, i: nat)
    requires Linked(gcode, elems) && Laid(gcode, lens) && i < |elems|
    ensures gcode[i].GetLength(oneByte) == LengthIn(elems, oneByte, lens, i)
  {
    hide OpLength, FreshLength, Addr;
    AddrOrder(lens, i, i);
    if elems[i].Jump? {
      AddrOrder(lens, elems[i].target, elems[i].target);
    }
  }

  lemma LengthsAgree(gcode: seq<CodeElement>, oneByte: bool, elems: seq<Elem>, lens: seq<nat>)
    requires Linked(gcode, elems) && Laid(gcode, lens) && SelfConsistent(elems, oneByte, lens)
    ensures forall i :: 0 <= i < |gcode| ==> gcode[i].GetLength(oneByte) == gcode[i].lastLength
  {
    hide LengthIn, Addr;
    forall i | 0 <= i < |gcode|
      ensures gcode[i].GetLength(oneByte) == gcode[i].lastLength
    {
      LengthAgrees(gcode, oneByte, elems, lens, i);
    }
  }
}
