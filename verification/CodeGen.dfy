/** From resolved words to the code block: slots, code elements, emitted bytes. */
module CodeGen {
  import opened Bytes
  import opened SevenBit
  import opened CConst
  import opened Layout
  import opened Machine
  import opened ByteVM

  // ----- bytes of one element -----

  function OpBytes(oneByte: bool, val: u32): (s: seq<byte>)
    requires oneByte ==> val < 256
    ensures |s| == OpLength(oneByte, val)
  {
    if oneByte then [val] else EncU(val)
  }

  /** EncodeOneByte refuses what does not fit one byte. */
  predicate Encodable(e: Elem, oneByte: bool) {
    oneByte ==> e.val < 256
  }

  /** What follows the opcode. */
  function ArgBytes(elems: seq<Elem>, lens: seq<nat>, i: nat): (s: seq<byte>)
    requires WellTargeted(elems) && |lens| == |elems| && i < |elems|
  {
    match elems[i]
    case UInt(v) => []
    case UIntInt(v, a) => EncS(a)
    case UIntUInt(v, a) => EncU(a)
    case UIntExpr(v, cx, off, x) => IntBytes(ExprLength(cx, off), x + off)
    case Jump(v, t) => EncS(Off(lens, i, t))
  }

  function ElemBytes(elems: seq<Elem>, oneByte: bool, lens: seq<nat>, i: nat): (s: seq<byte>)
    requires WellTargeted(elems) && |lens| == |elems| && i < |elems| && Encodable(elems[i], oneByte)
    ensures |s| == LengthIn(elems, oneByte, lens, i)
  {
    OpBytes(oneByte, elems[i].val) + ArgBytes(elems, lens, i)
  }

  predicate AllEncodable(elems: seq<Elem>, oneByte: bool) {
    forall i :: 0 <= i < |elems| ==> Encodable(elems[i], oneByte)
  }

  /** The code block up to element n. */
  function CodeBlock(elems: seq<Elem>, oneByte: bool, lens: seq<nat>, n: nat): (s: seq<byte>)
    requires WellTargeted(elems) && |lens| == |elems| && n <= |elems| && AllEncodable(elems, oneByte)
  {
    if n == 0 then [] else CodeBlock(elems, oneByte, lens, n - 1) + ElemBytes(elems, oneByte, lens, n - 1)
  }

  lemma {:induction false} BlockLength(elems: seq<Elem>, oneByte: bool, lens: seq<nat>, n: nat)
    requires SelfConsistent(elems, oneByte, lens) && n <= |elems| && AllEncodable(elems, oneByte)
    ensures |CodeBlock(elems, oneByte, lens, n)| == Addr(lens, n)
    decreases n
  {
    hide ElemBytes, LengthIn;
    if n > 0 {
      BlockLength(elems, oneByte, lens, n - 1);
      assert lens[n - 1] == LengthIn(elems, oneByte, lens, n - 1);
    }
  }

  /** In a self-consistent layout, every element's bytes stand at the address it was given. */
  lemma {:induction false} ElementAt(elems: seq<Elem>, oneByte: bool, lens: seq<nat>, n: nat, i: nat)
    requires SelfConsistent(elems, oneByte, lens) && i < n <= |elems| && AllEncodable(elems, oneByte)
    ensures At(CodeBlock(elems, oneByte, lens, n), Addr(lens, i), ElemBytes(elems, oneByte, lens, i))
    ensures Addr(lens, i + 1) == Addr(lens, i) + |ElemBytes(elems, oneByte, lens, i)| <= |CodeBlock(elems, oneByte, lens, n)|
    decreases n
  {
    hide ElemBytes, LengthIn, Addr, Encodable;
    BlockLength(elems, oneByte, lens, n - 1);
    BlockLength(elems, oneByte, lens, n);
    assert lens[i] == LengthIn(elems, oneByte, lens, i);
    var head := CodeBlock(elems, oneByte, lens, n - 1);
    var last := ElemBytes(elems, oneByte, lens, n - 1);
    if i < n - 1 {
      ElementAt(elems, oneByte, lens, n - 1, i);
      AtExtend(head, last, Addr(lens, i), ElemBytes(elems, oneByte, lens, i));
    } else {
      assert (head + last)[|head|..] == last;
    }
  }

  lemma AtExtend(code: seq<byte>, tail: seq<byte>, p: nat, bytes: seq<byte>)
    requires At(code, p, bytes)
    ensures At(code + tail, p, bytes)
  {
    assert (code + tail)[p..p + |bytes|] == code[p..p + |bytes|];
  }

  // ----- elements of the words -----

  const OP_RET: u32 := 0
  const OP_CONST: u32 := 1
  const OP_GET: u32 := 2
  const OP_PUT: u32 := 3

  function JumpType(c: Cond): (v: u32) {
    match c
    case Always => 4
    case IfTrue => 5
    case IfFalse => 6
  }

  /** The element of opcode k of a word whose first opcode becomes element `base`. Resolved jumps
      become element indices; the generator refuses a target outside the word. */
  function ElemOf(op: Op, slots: seq<u32>, base: nat, k: nat): (e: Option<Elem>) {
    match op
    case Const(v) => Some(UIntInt(OP_CONST, v))
    case ConstExpr(cx, off, x) => Some(UIntExpr(OP_CONST, cx, off, x))
    case GetLocal(n) => if n < 0x1_0000_0000 then Some(UIntUInt(OP_GET, n)) else None
    case PutLocal(n) => if n < 0x1_0000_0000 then Some(UIntUInt(OP_PUT, n)) else None
    case Jump(c, d) => if base + k + 1 + d < base then None else Some(Elem.Jump(JumpType(c), base + k + 1 + d))
    case Call(w) => if w < |slots| then Some(UInt(slots[w])) else None
    case Ret => Some(UInt(OP_RET))
  }

  /** Everything the generator computes for one program. `entry` gives the index of each word's first
      element, the one that holds its number of locals. */
  datatype Gen = Gen(p: Program, slots: seq<u32>, interpreted: nat, entry: seq<nat>,
                     elems: seq<Elem>, lens: seq<nat>, oneByte: bool)
  {
    predicate Shape() {
      |slots| == |p| && |entry| == |p| && 7 <= interpreted < 0x1_0000_0000
      && WellTargeted(elems) && |lens| == |elems|
      && SelfConsistent(elems, oneByte, lens) && AllEncodable(elems, oneByte)
      && Addr(lens, |elems|) < 0x1_0000
    }

    function Code(): (s: seq<byte>)
      requires Shape()
    {
      CodeBlock(elems, oneByte, lens, |elems|)
    }

    /** Byte address of opcode k of word w. */
    function IpOf(w: nat, k: nat): (a: nat)
      requires Shape() && w < |p|
    {
      if entry[w] + 1 + k <= |elems| then Addr(lens, entry[w] + 1 + k) else 0
    }

    /** The elements of one interpreted word. */
    predicate WordElems(w: nat)
      requires Shape() && w < |p|
    {
      var b := entry[w];
      match p[w].body
      case Native => false
      case Data(addr) =>
        b + 3 <= |elems| && elems[b] == UInt(0) && elems[b + 1] == UIntInt(OP_CONST, addr) && elems[b + 2] == UInt(OP_RET)
      case Interp(nl, ops) =>
        b + 1 + |ops| <= |elems| && nl < (if oneByte then 128 else 0x1_0000) && elems[b] == UInt(nl)
        && (forall k :: 0 <= k < |ops| ==> ElemOf(ops[k], slots, b + 1, k) == Some(elems[b + 1 + k]))
        && (forall k :: 0 <= k < |ops| && ops[k].Jump? ==> 0 <= k + 1 + ops[k].disp < |ops|)
        && (forall k :: 0 <= k < |ops| && ops[k].ConstExpr? ==>
              ops[k].cx.min <= ops[k].x <= ops[k].cx.max && ReadsBack(ops[k].cx, ops[k].off, ops[k].x))
    }

    /** Where the interpreter's tables lead for one word. */
    predicate WordLaid(img: Image, w: nat)
      requires Shape() && w < |p|
    {
      if p[w].ccode.Some? then
        7 <= slots[w] < interpreted && slots[w] in img.snippets && img.snippets[slots[w]] == p[w].ccode.value
      else
        slots[w] >= interpreted && slots[w] - interpreted < |img.caddr|
        && entry[w] < |elems| && img.caddr[slots[w] - interpreted] == Addr(lens, entry[w]) && WordElems(w)
    }

    predicate SameCode(img: Image)
      requires Shape()
    {
      img.code == Code() && img.interpreted == interpreted && img.oneByte == oneByte
    }

    predicate WordsLaid(img: Image)
      requires Shape()
    {
      forall w :: 0 <= w < |p| ==> WordLaid(img, w)
    }

    /** The tables the interpreter is compiled with agree with the program. */
    predicate Describes(img: Image)
      requires Shape()
    {
      SameCode(img) && WordsLaid(img)
    }
  }
}
