/** The generator's passes: slots for all words, code elements for the interpreted ones, addresses, bytes. */
module Generate {
  import opened Bytes
  import opened SevenBit
  import opened CConst
  import opened Layout
  import opened Machine
  import opened ByteVM
  import opened CodeGen

  /** How many of the first i words have no C code. */
  function Rank(p: Program, i: nat): (n: nat)
    requires i <= |p|
    ensures n <= i
  {
    if i == 0 then 0 else Rank(p, i - 1) + (if p[i - 1].ccode.None? then 1 else 0)
  }

  lemma {:induction false} RankMono(p: Program, i: nat, j: nat)
    requires i <= j <= |p|
    ensures Rank(p, i) <= Rank(p, j)
    ensures i < j && p[i].ccode.None? ==> Rank(p, i) < Rank(p, j)
    decreases j
  {
    if i < j {
      RankMono(p, i, j - 1);
    }
  }

  /** The different pieces of C code among the first i words. */
  function CCodes(p: Program, i: nat): (s: set<string>)
    requires i <= |p|
  {
    if i == 0 then {} else CCodes(p, i - 1) + (if p[i - 1].ccode.Some? then {p[i - 1].ccode.value} else {})
  }

  /** The opcodes of the language itself, one for each piece of C code and one for each word without any. */
  function SlotCount(p: Program): nat {
    7 + |CCodes(p, |p|)| + Rank(p, |p|)
  }

  /** Few enough slots for opcodes of one byte. */
  predicate OneByteMode(p: Program) {
    SlotCount(p) < 256
  }

  /** The slots: words with the same C code share one, from 7 on; the others follow in order. */
  ghost predicate SlotsAssigned(p: Program, slots: seq<u32>, interpreted: nat, snippets: map<nat, string>) {
    |slots| == |p| && interpreted >= 7
    && (forall k :: k in snippets <==> 7 <= k < interpreted)
    && (forall w :: 0 <= w < |p| && p[w].ccode.Some? ==>
          7 <= slots[w] < interpreted && slots[w] in snippets && snippets[slots[w]] == p[w].ccode.value)
    && (forall v, w :: 0 <= v < |p| && 0 <= w < |p| && p[v].ccode.Some? && p[w].ccode.Some? ==>
          (slots[v] == slots[w] <==> p[v].ccode == p[w].ccode))
    && (forall w :: 0 <= w < |p| && p[w].ccode.None? ==> slots[w] == interpreted + Rank(p, w))
  }

  lemma NoCCodes(p: Program)
    ensures CCodes(p, 0) == {}
  {
  }

  lemma NextCCode(p: Program, i: nat)
    requires i < |p|
    ensures p[i].ccode.None? ==> CCodes(p, i + 1) == CCodes(p, i)
    ensures p[i].ccode.Some? ==>
      CCodes(p, i + 1) == CCodes(p, i) + {p[i].ccode.value}
      && |CCodes(p, i + 1)| == |CCodes(p, i)| + (if p[i].ccode.value in CCodes(p, i) then 0 else 1)
  {
    if p[i].ccode.Some? && p[i].ccode.value in CCodes(p, i) {
      assert CCodes(p, i) + {p[i].ccode.value} == CCodes(p, i);
    }
  }

  /** First pass: words with C code, merged by string equality. Stops at a native word without any. */
  method AssignSnippets(p: Program)
    returns (ok: bool, slots: seq<u32>, curSlot: nat, snippets: map<nat, string>)
    requires |p| < 0x4000_0000
    ensures ok <==> forall w :: 0 <= w < |p| && p[w].body.Native? ==> p[w].ccode.Some?
    ensures ok ==> curSlot == 7 + |CCodes(p, |p|)|
    ensures ok ==> |slots| == |p| && 7 <= curSlot <= 7 + |p| && forall k :: k in snippets <==> 7 <= k < curSlot
    ensures ok ==> forall w :: 0 <= w < |p| && p[w].ccode.Some? ==>
      slots[w] in snippets && snippets[slots[w]] == p[w].ccode.value
    ensures ok ==> forall v, w :: 0 <= v < |p| && 0 <= w < |p| && p[v].ccode.Some? && p[v].ccode == p[w].ccode ==>
      slots[v] == slots[w]
  {
    hide CCodes;
    NoCCodes(p);
    slots := seq(|p|, _ => 0);
    snippets := map[];
    curSlot := 7;
    var ccodeUni: map<string, u32> := map[];
    var i := 0;
    while i < |p|
      invariant 0 <= i <= |p| && |slots| == |p| && 7 <= curSlot <= 7 + i
      invariant forall w :: 0 <= w < i && p[w].body.Native? ==> p[w].ccode.Some?
      invariant forall k :: k in snippets <==> 7 <= k < curSlot
      invariant curSlot == 7 + |CCodes(p, i)| && forall c :: c in ccodeUni <==> c in CCodes(p, i)
      invariant forall c :: c in ccodeUni ==> ccodeUni[c] in snippets && snippets[ccodeUni[c]] == c
      invariant forall w :: 0 <= w < i && p[w].ccode.Some? ==>
        p[w].ccode.value in ccodeUni && slots[w] == ccodeUni[p[w].ccode.value]
    {
      NextCCode(p, i);
      if p[i].ccode.None? {
        if p[i].body.Native? {
          ok := false;
          return;
        }
      } else {
        var ccode := p[i].ccode.value;
        if ccode !in ccodeUni {
          ccodeUni := ccodeUni[ccode := curSlot];
          snippets := snippets[curSlot := ccode];
          curSlot := curSlot + 1;
        }
        slots := slots[i := ccodeUni[ccode]];
      }
      i := i + 1;
    }
    ok := true;
  }

  /** Second pass: the words that are left get the slots from `first` on. */
  method AssignInterpreted(p: Program, before: seq<u32>, first: nat) returns (slots: seq<u32>, curSlot: nat)
    requires |before| == |p| < 0x4000_0000 && first <= 7 + |p|
    ensures |slots| == |p| && curSlot == first + Rank(p, |p|)
    ensures forall w :: 0 <= w < |p| ==>
      slots[w] == if p[w].ccode.Some? then before[w] else first + Rank(p, w)
  {
    slots := before;
    curSlot := first;
    var i := 0;
    while i < |p|
      invariant 0 <= i <= |p| && |slots| == |p|
      invariant curSlot == first + Rank(p, i)
      invariant forall w :: 0 <= w < i ==> slots[w] == if p[w].ccode.Some? then before[w] else first + Rank(p, w)
      invariant forall w :: i <= w < |p| ==> slots[w] == before[w]
    {
      if p[i].ccode.None? {
        slots := slots[i := curSlot];
        curSlot := curSlot + 1;
      }
      i := i + 1;
    }
  }

  /** Both passes; ok is false when a native word lacks C code. */
  method AssignSlots(p: Program)
    returns (ok: bool, slots: seq<u32>, slotInterpreted: nat, numInterpreted: nat, snippets: map<nat, string>)
    requires |p| < 0x4000_0000
    ensures ok <==> forall w :: 0 <= w < |p| && p[w].body.Native? ==> p[w].ccode.Some?
    ensures ok ==> SlotsAssigned(p, slots, slotInterpreted, snippets)
    ensures ok ==> numInterpreted == Rank(p, |p|) && slotInterpreted == 7 + |CCodes(p, |p|)| <= 7 + |p|
  {
    hide Rank, CCodes;
    numInterpreted := 0;
    ok, slots, slotInterpreted, snippets := AssignSnippets(p);
    if ok {
      var curSlot;
      slots, curSlot := AssignInterpreted(p, slots, slotInterpreted);
      numInterpreted := curSlot - slotInterpreted;
    }
  }

  // ----- code elements -----

  /** Numbers that the code elements hold in 32 bits. */
  predicate Sized(p: Program) {
    forall w :: 0 <= w < |p| && p[w].body.Interp? ==> p[w].body.numLocals < 0x8000_0000 && SizedCode(p[w].body.code, |p|)
  }

  predicate SizedCode(code: seq<Op>, n: nat) {
    forall k :: 0 <= k < |code| ==>
      var op := code[k];
      (op.GetLocal? || op.PutLocal? ==> op.num < 0x8000_0000) && (op.Call? ==> op.w < n)
  }

  /** The elements of one word, the first of them at index `base`. */
  predicate WordElemsAt(body: Body, slots: seq<u32>, base: nat, es: seq<Elem>) {
    match body
    case Native => false
    case Data(addr) => es == [UInt(0), UIntInt(OP_CONST, addr), UInt(OP_RET)]
    case Interp(nl, ops) =>
      |es| == 1 + |ops| && nl < 0x8000_0000 && es[0] == UInt(nl)
      && (forall k :: 0 <= k < |ops| ==> ElemOf(ops[k], slots, base + 1, k) == Some(es[1 + k]))
      && (forall k :: 0 <= k < |ops| && ops[k].Jump? ==> 0 <= k + 1 + ops[k].disp < |ops|)
  }

  /** An object for element e of the list: created without an address, its jump target set. */
  ghost predicate Stands(obj: CodeElement, e: Elem, objs: seq<CodeElement>, base: nat)
    reads obj
  {
    obj.elem == Blank(e) && obj.address == -1
    && (e.Jump? ==> base <= e.target < base + |objs| && obj.target == objs[e.target - base])
  }

  /** New objects for the elements `es`, whose jumps lead to objects among them. */
  ghost predicate Objects(objs: seq<CodeElement>, es: seq<Elem>, base: nat)
    reads objs
  {
    |objs| == |es| && Distinct(objs)
    && forall i :: 0 <= i < |objs| ==> Stands(objs[i], es[i], objs, base)
  }

  /** ToCodeElement, opcode by opcode. */
  method ToCodeElement(op: Op, slots: seq<u32>, ghost base: nat, ghost k: nat) returns (e: CodeElement)
    requires SizedCode([op], |slots|)
    ensures fresh(e) && e.address == -1
    ensures op.Jump? ==> e.elem == Elem.Jump(JumpType(op.cond), 0)
    ensures !op.Jump? ==> Some(e.elem) == ElemOf(op, slots, base, k) && !e.elem.Jump?
  {
    assert op == [op][0];
    match op
    case Const(v) => e := new CodeElement(UIntInt(OP_CONST, v));
    case ConstExpr(cx, off, x) => e := new CodeElement(UIntExpr(OP_CONST, cx, off, x));
    case GetLocal(n) => e := new CodeElement(UIntUInt(OP_GET, n));
    case PutLocal(n) => e := new CodeElement(UIntUInt(OP_PUT, n));
    case Jump(c, _) => e := new CodeElement(Elem.Jump(JumpType(c), 0));
    case Call(w) => e := new CodeElement(UInt(slots[w]));
    case Ret => e := new CodeElement(UInt(OP_RET));
  }

  /** The element a resolved opcode will be, its jump target counted from the start of the list. */
  ghost function TargetedElem(op: Op, slots: seq<u32>, base: nat, k: nat): (e: Elem) {
    match ElemOf(op, slots, base, k)
    case Some(e) => e
    case None => UInt(0)
  }

  /** One element per opcode, jumps still without target. */
  ghost predicate Created(gcode: seq<CodeElement>, code: seq<Op>, slots: seq<u32>, base: nat)
    reads gcode
  {
    |gcode| <= |code| && Distinct(gcode)
    && forall k :: 0 <= k < |gcode| ==>
      gcode[k].address == -1
      && (if code[k].Jump? then gcode[k].elem == Elem.Jump(JumpType(code[k].cond), 0)
          else Some(gcode[k].elem) == ElemOf(code[k], slots, base, k) && !gcode[k].elem.Jump?)
  }

  method CreateElements(code: seq<Op>, slots: seq<u32>, ghost base: nat) returns (gcode: seq<CodeElement>)
    requires SizedCode(code, |slots|)
    ensures |gcode| == |code| && Created(gcode, code, slots, base)
    ensures fresh(gcode)
  {
    hide ElemOf;
    gcode := [];
    while |gcode| < |code|
      invariant Created(gcode, code, slots, base)
      invariant fresh(gcode)
    {
      var i := |gcode|;
      assert SizedCode([code[i]], |slots|);
      var e := ToCodeElement(code[i], slots, base, i);
      gcode := gcode + [e];
    }
  }

  /** The jump at k leads to an opcode of the same code. */
  predicate InWord(code: seq<Op>, k: nat)
    requires k < |code|
  {
    code[k].Jump? ==> 0 <= k + 1 + code[k].disp < |code|
  }

  ghost predicate Targeted(gcode: seq<CodeElement>, code: seq<Op>, k: nat)
    requires k < |gcode| == |code|
    reads gcode[k]
  {
    code[k].Jump? && InWord(code, k) ==> gcode[k].target == gcode[k + 1 + code[k].disp]
  }

  /** FixUp on every opcode; a jump out of the word is an index error. */
  method FixUpAll(gcode: seq<CodeElement>, code: seq<Op>) returns (ok: bool)
    requires |gcode| == |code| && Distinct(gcode)
    modifies gcode`target
    ensures ok <==> forall k :: 0 <= k < |code| ==> InWord(code, k)
    ensures ok ==> forall k :: 0 <= k < |code| ==> Targeted(gcode, code, k)
  {
    var i := 0;
    while i < |code|
      invariant 0 <= i <= |code|
      invariant forall k :: 0 <= k < i ==> InWord(code, k)
      invariant forall k :: 0 <= k < i ==> Targeted(gcode, code, k)
    {
      if code[i].Jump? {
        var j := i + 1 + code[i].disp;
        if !(0 <= j < |code|) {
          assert !InWord(code, i);
          return false;
        }
        var source := gcode[i];
        assert forall k :: 0 <= k < i ==> gcode[k] != source;
        source.SetJumpTarget(gcode[j]);
      }
      i := i + 1;
    }
    ok := true;
  }

  /** Both loops of GenerateCodeElements. */
  method ConvertAll(code: seq<Op>, slots: seq<u32>, ghost base: nat) returns (ok: bool, gcode: seq<CodeElement>)
    requires SizedCode(code, |slots|)
    ensures ok <==> forall k :: 0 <= k < |code| ==> InWord(code, k)
    ensures fresh(gcode)
    ensures ok ==> |gcode| == |code| && Created(gcode, code, slots, base) && forall k :: 0 <= k < |code| ==> Targeted(gcode, code, k)
  {
    hide ElemOf, Targeted, InWord, SizedCode;
    gcode := CreateElements(code, slots, base);
    ok := FixUpAll(gcode, code);
  }

  /** GenerateCodeElements of an interpreted word. */
  method GenerateInterp(nl: nat, code: seq<Op>, slots: seq<u32>, ghost base: nat)
    returns (ok: bool, objs: seq<CodeElement>, ghost es: seq<Elem>)
    requires nl < 0x8000_0000 && SizedCode(code, |slots|)
    ensures ok <==> forall k :: 0 <= k < |code| ==> InWord(code, k)
    ensures fresh(objs)
    ensures ok ==> WordElemsAt(Interp(nl, code), slots, base, es) && Objects(objs, es, base)
  {
    hide ElemOf, WordElemsAt, Objects, Targeted, InWord, Created;
    es := [];
    var gcode;
    ok, gcode := ConvertAll(code, slots, base + 1);
    if !ok {
      return ok, [], [];
    }
    var header := new CodeElement(UInt(nl));
    objs := [header] + gcode;
    es := WordEs(nl, code, slots, base);
    ElemsMatch(nl, code, slots, base, es);
    Assemble(header, gcode, nl, code, slots, base, es);
  }

  lemma Assemble(header: CodeElement, gcode: seq<CodeElement>, nl: u32, code: seq<Op>, slots: seq<u32>, base: nat, es: seq<Elem>)
    requires |gcode| == |code| && Created(gcode, code, slots, base + 1)
    requires header !in gcode && header.elem == UInt(nl) && header.address == -1
    requires WordElemsAt(Interp(nl, code), slots, base, es)
    requires forall k :: 0 <= k < |code| ==> Targeted(gcode, code, k)
    ensures Objects([header] + gcode, es, base)
  {
    hide ElemOf, Blank, InWord, WordElemsAt, Created, Distinct, Targeted;
    var objs := [header] + gcode;
    HeaderFirst(nl, code, slots, base, es);
    DistinctCons(header, gcode, code, slots, base + 1);
    forall i | 0 <= i < |objs|
      ensures Stands(objs[i], es[i], objs, base)
    {
      if i == 0 {
        BlankHeader(nl);
      } else {
        AssembledAt(gcode, nl, code, slots, base, es, i - 1);
        AssembledTarget(header, gcode, es[i], base);
      }
    }
  }

  lemma HeaderFirst(nl: u32, code: seq<Op>, slots: seq<u32>, base: nat, es: seq<Elem>)
    requires WordElemsAt(Interp(nl, code), slots, base, es)
    ensures |es| == 1 + |code| && es[0] == UInt(nl)
  {
  }

  lemma DistinctCons(header: CodeElement, gcode: seq<CodeElement>, code: seq<Op>, slots: seq<u32>, base: nat)
    requires Created(gcode, code, slots, base) && header !in gcode
    ensures Distinct([header] + gcode)
  {
  }

  lemma BlankHeader(nl: u32)
    ensures Blank(UInt(nl)) == UInt(nl) && !UInt(nl).Jump?
  {
  }

  lemma AssembledTarget(header: CodeElement, gcode: seq<CodeElement>, e: Elem, base: nat)
    requires e.Jump? ==> base < e.target < base + 1 + |gcode|
    ensures e.Jump? ==> ([header] + gcode)[e.target - base] == gcode[e.target - base - 1]
  {
  }

  lemma AssembledAt(gcode: seq<CodeElement>, nl: u32, code: seq<Op>, slots: seq<u32>, base: nat, es: seq<Elem>, k: nat)
    requires k < |gcode| == |code| && Created(gcode, code, slots, base + 1)
    requires WordElemsAt(Interp(nl, code), slots, base, es)
    requires Targeted(gcode, code, k)
    ensures gcode[k].elem == Blank(es[k + 1]) && gcode[k].address == -1
    ensures var e := es[k + 1]; e.Jump? ==> base < e.target < base + |es| && gcode[k].target == gcode[e.target - base - 1]
  {
    hide ElemOf, Distinct, Blank;
    assert ElemOf(code[k], slots, base + 1, k) == Some(es[1 + k]);
    BlankOf(code[k], slots, base + 1, k, gcode[k].elem, es[1 + k]);
    assert InWord(code, k);
  }

  ghost function WordEs(nl: u32, code: seq<Op>, slots: seq<u32>, base: nat): (es: seq<Elem>)
    ensures |es| == 1 + |code| && es[0] == UInt(nl)
    ensures forall k :: 0 <= k < |code| ==> es[1 + k] == TargetedElem(code[k], slots, base + 1, k)
  {
    [UInt(nl)] + seq(|code|, k requires 0 <= k < |code| => TargetedElem(code[k], slots, base + 1, k))
  }

  lemma BlankOf(op: Op, slots: seq<u32>, base: nat, k: nat, made: Elem, e: Elem)
    requires ElemOf(op, slots, base, k) == Some(e)
    requires if op.Jump? then made == Elem.Jump(JumpType(op.cond), 0) else Some(made) == ElemOf(op, slots, base, k)
    ensures made == Blank(e) && (e.Jump? <==> op.Jump?)
    ensures op.Jump? ==> e.target == base + k + 1 + op.disp
  {
  }

  lemma ElemsMatch(nl: nat, code: seq<Op>, slots: seq<u32>, base: nat, es: seq<Elem>)
    requires nl < 0x8000_0000 && SizedCode(code, |slots|) && |es| == 1 + |code| && es[0] == UInt(nl)
    requires forall k :: 0 <= k < |code| ==> es[1 + k] == TargetedElem(code[k], slots, base + 1, k)
    requires forall k :: 0 <= k < |code| ==> InWord(code, k)
    ensures WordElemsAt(Interp(nl, code), slots, base, es)
  {
    forall k | 0 <= k < |code|
      ensures ElemOf(code[k], slots, base + 1, k) == Some(es[1 + k])
      ensures code[k].Jump? ==> 0 <= k + 1 + code[k].disp < |code|
    {
      assert InWord(code, k);
    }
  }

  // ----- the whole list of elements -----

  /** Number of elements a word without C code takes. */
  function WordSize(body: Body): (n: nat)
    ensures n > 0
  {
    if body.Interp? then 1 + |body.code| else 3
  }

  /** Number of elements of the first i words. */
  function ListSize(p: Program, i: nat): (n: nat)
    requires i <= |p|
  {
    if i == 0 then 0 else ListSize(p, i - 1) + (if p[i - 1].ccode.None? then WordSize(p[i - 1].body) else 0)
  }

  /** GenerateCodeElements succeeds. */
  predicate Generates(body: Body) {
    !body.Native? && (body.Interp? ==> forall k :: 0 <= k < |body.code| ==> InWord(body.code, k))
  }

  /** GenerateCodeElements. */
  method GenerateWord(body: Body, slots: seq<u32>, ghost base: nat)
    returns (ok: bool, objs: seq<CodeElement>, ghost es: seq<Elem>)
    requires body.Interp? ==> body.numLocals < 0x8000_0000 && SizedCode(body.code, |slots|)
    ensures ok <==> Generates(body)
    ensures fresh(objs)
    ensures ok ==> |es| == WordSize(body) && WordElemsAt(body, slots, base, es) && Objects(objs, es, base)
  {
    hide ElemOf;
    match body {
      case Interp(nl, code) =>
        ok, objs, es := GenerateInterp(nl, code, slots, base);
      case Data(addr) =>
        var header := new CodeElement(UInt(0));
        var push := new CodeElement(UIntInt(OP_CONST, addr));
        var ret := new CodeElement(UInt(OP_RET));
        ok, objs, es := true, [header, push, ret], [UInt(0), UIntInt(OP_CONST, addr), UInt(OP_RET)];
      case Native =>
        ok, objs, es := false, [], [];
    }
  }

  /** Word w's elements stand in the list from entry[w] on. */
  predicate WordIn(p: Program, slots: seq<u32>, elems: seq<Elem>, entry: seq<nat>, w: nat) {
    w < |p| && w < |entry| && entry[w] + WordSize(p[w].body) <= |elems|
    && WordElemsAt(p[w].body, slots, entry[w], elems[entry[w]..entry[w] + WordSize(p[w].body)])
  }

  lemma WordStays(p: Program, slots: seq<u32>, elems: seq<Elem>, entry: seq<nat>, w: nat, more: seq<Elem>, e: nat)
    requires WordIn(p, slots, elems, entry, w)
    ensures WordIn(p, slots, elems + more, entry + [e], w)
  {
    hide WordElemsAt, WordSize;
    var n := WordSize(p[w].body);
    assert (elems + more)[entry[w]..entry[w] + n] == elems[entry[w]..entry[w] + n];
  }

  lemma WordAdded(p: Program, slots: seq<u32>, elems: seq<Elem>, entry: seq<nat>, es: seq<Elem>)
    requires |entry| < |p|
    requires |es| == WordSize(p[|entry|].body) && WordElemsAt(p[|entry|].body, slots, |elems|, es)
    ensures WordIn(p, slots, elems + es, entry + [|elems|], |entry|)
  {
    hide WordElemsAt, WordSize;
    assert (elems + es)[|elems|..|elems| + |es|] == es;
  }

  lemma ObjectsConcat(a: seq<CodeElement>, ea: seq<Elem>, b: seq<CodeElement>, eb: seq<Elem>)
    requires Objects(a, ea, 0) && Objects(b, eb, |a|)
    requires forall i, j :: 0 <= i < |a| && 0 <= j < |b| ==> a[i] != b[j]
    ensures Objects(a + b, ea + eb, 0)
  {
    hide Blank;
    forall i | 0 <= i < |a + b|
      ensures Stands((a + b)[i], (ea + eb)[i], a + b, 0)
    {
      if i < |a| {
        assert Stands(a[i], ea[i], a, 0);
      } else {
        assert Stands(b[i - |a|], eb[i - |a|], b, |a|);
      }
    }
  }

  /** What the first i words have put into the list and into the entry table. */
  ghost predicate Gathered(p: Program, slots: seq<u32>, slotInterpreted: nat, table: seq<CodeElement?>,
                           gcode: seq<CodeElement>, elems: seq<Elem>, entry: seq<nat>)
    reads gcode
  {
    |entry| <= |p| == |slots| && Objects(gcode, elems, 0)
    && forall w :: 0 <= w < |entry| && p[w].ccode.None? ==> Entered(p, slots, slotInterpreted, table, gcode, elems, entry, w)
  }

  ghost predicate Entered(p: Program, slots: seq<u32>, slotInterpreted: nat, table: seq<CodeElement?>,
                          gcode: seq<CodeElement>, elems: seq<Elem>, entry: seq<nat>, w: nat)
    requires |gcode| == |elems| && w < |p| && w < |slots| && w < |entry|
  {
    WordIn(p, slots, elems, entry, w)
    && 0 <= slots[w] - slotInterpreted < |table| && table[slots[w] - slotInterpreted] == gcode[entry[w]]
  }

  lemma GatheredSkip(p: Program, slots: seq<u32>, slotInterpreted: nat, table: seq<CodeElement?>,
                     gcode: seq<CodeElement>, elems: seq<Elem>, entry: seq<nat>)
    requires Gathered(p, slots, slotInterpreted, table, gcode, elems, entry)
    requires |entry| < |p| && p[|entry|].ccode.Some?
    ensures Gathered(p, slots, slotInterpreted, table, gcode, elems, entry + [0])
  {
    hide WordElemsAt, WordSize, Objects;
    assert Objects(gcode, elems, 0) && |gcode| == |elems| by { ObjectsSize(gcode, elems); }
    var entry' := entry + [0];
    forall w | 0 <= w < |entry'| && p[w].ccode.None?
      ensures Entered(p, slots, slotInterpreted, table, gcode, elems, entry', w)
    {
      assert Entered(p, slots, slotInterpreted, table, gcode, elems, entry, w);
      WordStays(p, slots, elems, entry, w, [], 0);
      assert elems + [] == elems;
    }
  }

  lemma ObjectsSize(gcode: seq<CodeElement>, elems: seq<Elem>)
    requires Objects(gcode, elems, 0)
    ensures |gcode| == |elems|
  {
  }

  lemma GatheredNext(p: Program, slots: seq<u32>, slotInterpreted: nat, table: seq<CodeElement?>,
                     gcode: seq<CodeElement>, elems: seq<Elem>, entry: seq<nat>, objs: seq<CodeElement>, es: seq<Elem>)
    requires Gathered(p, slots, slotInterpreted, table, gcode, elems, entry)
    requires |entry| < |p| && p[|entry|].ccode.None?
    requires forall w :: 0 <= w < |p| && p[w].ccode.None? ==> slots[w] == slotInterpreted + Rank(p, w)
    requires |table| == Rank(p, |p|)
    requires |es| == WordSize(p[|entry|].body) && WordElemsAt(p[|entry|].body, slots, |elems|, es)
    requires Objects(objs, es, |gcode|)
    requires forall i, j :: 0 <= i < |gcode| && 0 <= j < |objs| ==> gcode[i] != objs[j]
    ensures Rank(p, |entry|) < |table| && objs != [] && |objs| == |es|
    ensures Gathered(p, slots, slotInterpreted, table[Rank(p, |entry|) := objs[0]], gcode + objs, elems + es, entry + [|elems|])
  {
    hide WordElemsAt, WordSize, Rank, Stands, Distinct;
    var n := |entry|;
    RankMono(p, n, |p|);
    var table' := table[Rank(p, n) := objs[0]];
    var entry' := entry + [|elems|];
    ObjectsConcat(gcode, elems, objs, es);
    forall w | 0 <= w < |entry'| && p[w].ccode.None?
      ensures Entered(p, slots, slotInterpreted, table', gcode + objs, elems + es, entry', w)
    {
      if w < n {
        assert Entered(p, slots, slotInterpreted, table, gcode, elems, entry, w);
        RankMono(p, w, n);
        WordStays(p, slots, elems, entry, w, es, |elems|);
      } else {
        WordAdded(p, slots, elems, entry, es);
      }
    }
  }

  /** Where the first number of an element comes from: an opcode, a slot, or a word's number of locals. */
  ghost predicate Origin(p: Program, slots: seq<u32>, e: Elem) {
    e.val < 7 || e.val in slots || exists w :: 0 <= w < |p| && HasHeader(p, w, e.val)
  }

  predicate HasHeader(p: Program, w: nat, val: u32)
    requires w < |p|
  {
    p[w].ccode.None? && p[w].body.Interp? && p[w].body.numLocals == val
  }

  lemma WordOrigins(p: Program, slots: seq<u32>, w: nat, base: nat, es: seq<Elem>)
    requires w < |p| && p[w].ccode.None? && WordElemsAt(p[w].body, slots, base, es)
    ensures forall i :: 0 <= i < |es| ==> Origin(p, slots, es[i])
  {
    forall i | 0 <= i < |es|
      ensures Origin(p, slots, es[i])
    {
      if p[w].body.Interp? {
        if i == 0 {
          assert HasHeader(p, w, es[0].val);
        } else {
          var ops := p[w].body.code;
          assert ElemOf(ops[i - 1], slots, base + 1, i - 1) == Some(es[1 + (i - 1)]);
        }
      }
    }
  }

  /** The loop over the words without C code. */
  method CollectElements(p: Program, slots: seq<u32>, slotInterpreted: nat, numInterpreted: nat)
    returns (ok: bool, gcode: seq<CodeElement>, table: seq<CodeElement?>, ghost elems: seq<Elem>, ghost entry: seq<nat>)
    requires |slots| == |p| && Sized(p) && numInterpreted == Rank(p, |p|)
    requires forall w :: 0 <= w < |p| && p[w].ccode.None? ==> slots[w] == slotInterpreted + Rank(p, w)
    ensures ok <==> forall w :: 0 <= w < |p| && p[w].ccode.None? ==> Generates(p[w].body)
    ensures fresh(gcode)
    ensures ok ==> |entry| == |p| && Gathered(p, slots, slotInterpreted, table, gcode, elems, entry)
    ensures ok ==> |elems| == ListSize(p, |p|) && forall k :: 0 <= k < |elems| ==> Origin(p, slots, elems[k])
    ensures ok ==> |table| == numInterpreted && forall i :: 0 <= i < |table| ==> table[i] in gcode
  {
    hide Rank, WordElemsAt, WordSize, Generates, SizedCode, Origin, Gathered, Objects;
    GatheredStart(p, slots, slotInterpreted, numInterpreted);
    gcode, elems, entry := [], [], [];
    table := seq(numInterpreted, _ => null);
    var i := 0;
    while i < |p|
      invariant 0 <= i <= |p| && |entry| == i && |table| == numInterpreted && fresh(gcode)
      invariant Gathered(p, slots, slotInterpreted, table, gcode, elems, entry)
      invariant |gcode| == |elems| == ListSize(p, i) && forall k :: 0 <= k < |elems| ==> Origin(p, slots, elems[k])
      invariant forall w :: 0 <= w < i && p[w].ccode.None? ==> Generates(p[w].body)
      invariant forall k :: 0 <= k < Rank(p, i) && k < |table| ==> table[k] in gcode
    {
      RankMono(p, i, |p|);
      RankNext(p, i);
      if p[i].ccode.Some? {
        GatheredSkip(p, slots, slotInterpreted, table, gcode, elems, entry);
        entry := entry + [0];
      } else {
        var objs; ghost var es;
        ok, objs, es := GenerateWord(p[i].body, slots, |gcode|);
        if !ok {
          return;
        }
        GatheredNext(p, slots, slotInterpreted, table, gcode, elems, entry, objs, es);
        WordOrigins(p, slots, i, |gcode|, es);
        entry, elems := entry + [|elems|], elems + es;
        table := table[slots[i] - slotInterpreted := objs[0]];
        gcode := gcode + objs;
      }
      i := i + 1;
    }
    ok := true;
  }

  lemma GatheredStart(p: Program, slots: seq<u32>, slotInterpreted: nat, n: nat)
    requires |slots| == |p|
    ensures Gathered(p, slots, slotInterpreted, seq(n, _ => null), [], [], [])
  {
  }

  lemma RankNext(p: Program, i: nat)
    requires i < |p|
    ensures Rank(p, 0) == 0
    ensures Rank(p, i + 1) == Rank(p, i) + (if p[i].ccode.None? then 1 else 0)
  {
  }

  // ----- emission -----

  /** What one object appends: None where Encode throws. */
  function Emitted(ce: CodeElement, oneByte: bool): (s: Option<seq<byte>>)
    reads ce, ce.target
  {
    if !Encodable(ce.elem, oneByte) then None
    else
      var op := OpBytes(oneByte, ce.elem.val);
      match ce.elem
      case UInt(_) => Some(op)
      case UIntInt(_, a) => Some(op + EncS(a))
      case UIntUInt(_, a) => Some(op + EncU(a))
      case UIntExpr(_, cx, off, x) => Some(op + IntBytes(ExprLength(cx, off), x + off))
      case Jump(_, _) => match ce.JumpOff() case None => None case Some(d) => Some(op + EncS(d))
  }

  method EncodeOp(val: u32, bw: BlobWriter, oneByte: bool) returns (len: Option<nat>)
    modifies bw
    ensures len.Some? <==> (oneByte ==> val < 256)
    ensures len.Some? ==> bw.bytes == old(bw.bytes) + OpBytes(oneByte, val) && len.value == OpLength(oneByte, val)
  {
    if oneByte {
      len := EncodeOneByte(val, bw);
    } else {
      var n := Encode7EUnsigned(val, bw);
      len := Some(n);
    }
  }

  /** Encode. A constant expression is written as the macro T0_INT of its length, evaluated later. */
  method Encode(ce: CodeElement, bw: BlobWriter, oneByte: bool) returns (len: Option<nat>)
    requires ce.elem.Jump? && ce.JumpOff().Some? ==> -0x8000_0000 <= ce.JumpOff().value < 0x8000_0000
    modifies bw
    ensures len.Some? <==> Emitted(ce, oneByte).Some?
    ensures len.Some? ==> bw.bytes == old(bw.bytes) + Emitted(ce, oneByte).value && len.value == |Emitted(ce, oneByte).value|
  {
    hide EncS, EncU, IntBytes, ExprLength;
    len := EncodeOp(ce.elem.val, bw, oneByte);
    if len.None? {
      return;
    }
    var n := 0;
    match ce.elem {
      case UInt(_) =>
      case UIntInt(_, a) => n := Encode7ESigned(a, bw);
      case UIntUInt(_, a) => n := Encode7EUnsigned(a, bw);
      case UIntExpr(_, cx, off, x) =>
        n := ExprLength(cx, off);
        AppendAll(bw, IntBytes(n, x + off));
      case Jump(_, _) =>
        var joff := ce.JumpOff();
        if joff.None? {
          return None;
        }
        n := Encode7ESigned(joff.value, bw);
    }
    len := Some(len.value + n);
  }

  method AppendAll(bw: BlobWriter, s: seq<byte>)
    modifies bw
    ensures bw.bytes == old(bw.bytes) + s
  {
    var i := 0;
    while i < |s|
      invariant 0 <= i <= |s| && bw.bytes == old(bw.bytes) + s[..i]
    {
      bw.Append(s[i]);
      i := i + 1;
    }
  }

  lemma EmittedBytes(gcode: seq<CodeElement>, oneByte: bool, elems: seq<Elem>, lens: seq<nat>, i: nat)
    requires Linked(gcode, elems) && Laid(gcode, lens) && i < |elems|
    requires Addr(lens, |lens|) < 0x8000_0000
    ensures Emitted(gcode[i], oneByte) == if Encodable(elems[i], oneByte) then Some(ElemBytes(elems, oneByte, lens, i)) else None
    ensures elems[i].Jump? <==> gcode[i].elem.Jump?
    ensures gcode[i].elem.Jump? ==> gcode[i].JumpOff() == Some(Off(lens, i, elems[i].target))
    ensures gcode[i].elem.Jump? ==> -0x8000_0000 <= Off(lens, i, elems[i].target) < 0x8000_0000
  {
    hide Addr, OpBytes, IntBytes, EncS, EncU, ExprLength, Distinct;
    AddrOrder(lens, i, |lens|);
    if elems[i].Jump? {
      AddrOrder(lens, elems[i].target, |lens|);
      assert gcode[i].JumpOff() == Some(Off(lens, i, elems[i].target));
    } else {
      assert gcode[i].elem == elems[i];
      if Encodable(elems[i], oneByte) {
        assert OpBytes(oneByte, elems[i].val) + [] == OpBytes(oneByte, elems[i].val);
      }
    }
  }

  /** One element of a linked list: it appends its bytes, or cannot be encoded. */
  method EncodeAt(gcode: seq<CodeElement>, i: nat, bw: BlobWriter, oneByte: bool, ghost elems: seq<Elem>, ghost lens: seq<nat>)
    returns (ok: bool)
    requires Linked(gcode, elems) && Laid(gcode, lens) && i < |elems| == |gcode|
    requires Addr(lens, |lens|) < 0x8000_0000
    modifies bw
    ensures ok <==> Encodable(elems[i], oneByte)
    ensures ok ==> |lens| == |elems| && WellTargeted(elems) && bw.bytes == old(bw.bytes) + ElemBytes(elems, oneByte, lens, i)
  {
    hide Emitted, Encodable, ElemBytes, Addr, Distinct, Off;
    EmittedBytes(gcode, oneByte, elems, lens, i);
    var len := Encode(gcode[i], bw, oneByte);
    ok := len.Some?;
  }

  lemma LinkedSizes(gcode: seq<CodeElement>, elems: seq<Elem>, lens: seq<nat>)
    requires Linked(gcode, elems) && Laid(gcode, lens)
    ensures |gcode| == |elems| == |lens| && WellTargeted(elems)
  {
  }

  /** The code block is what all the elements append, in order. */
  method EncodeAll(gcode: seq<CodeElement>, oneByte: bool, ghost elems: seq<Elem>, ghost lens: seq<nat>)
    returns (ok: bool, code: seq<byte>)
    requires Linked(gcode, elems) && Laid(gcode, lens)
    requires Addr(lens, |lens|) < 0x8000_0000
    ensures ok <==> AllEncodable(elems, oneByte)
    ensures ok ==> code == CodeBlock(elems, oneByte, lens, |elems|)
  {
    hide Encodable, ElemBytes, Addr, Laid, Linked, WellTargeted;
    LinkedSizes(gcode, elems, lens);
    var bw := new BlobWriter();
    var i := 0;
    while i < |gcode|
      invariant 0 <= i <= |gcode| && fresh(bw)
      invariant AllEncodable(elems[..i], oneByte)
      invariant AllEncodable(elems, oneByte) ==> bw.bytes == CodeBlock(elems, oneByte, lens, i)
    {
      assert elems[..i + 1] == elems[..i] + [elems[i]];
      ok := EncodeAt(gcode, i, bw, oneByte, elems, lens);
      if !ok {
        return false, [];
      }
      i := i + 1;
    }
    assert elems[..|elems|] == elems;
    ok, code := true, bw.bytes;
  }

  // ----- the generator -----

  /** What the interpreter can read back: few enough locals, and constants that survive T0_INT. */
  predicate Readable(p: Program, oneByte: bool) {
    forall w :: 0 <= w < |p| && p[w].ccode.None? && p[w].body.Interp? ==> ReadableWord(p[w].body, oneByte)
  }

  predicate ReadableWord(body: Body, oneByte: bool)
    requires body.Interp?
  {
    body.numLocals < (if oneByte then 128 else 0x1_0000)
    && forall k :: 0 <= k < |body.code| && body.code[k].ConstExpr? ==>
         var op := body.code[k];
         op.cx.min <= op.x <= op.cx.max && ReadsBack(op.cx, op.off, op.x)
  }

  /** Every word has C code or can be turned into code elements. */
  predicate Compilable(p: Program) {
    forall w :: 0 <= w < |p| && p[w].ccode.None? ==> Generates(p[w].body)
  }

  /** EncodeOneByte throws on a header above 255. */
  predicate HeadersFit(p: Program) {
    forall w :: 0 <= w < |p| && p[w].ccode.None? && p[w].body.Interp? ==> p[w].body.numLocals < 256
  }

  lemma NativesHaveCode(p: Program)
    ensures Compilable(p) ==> forall w :: 0 <= w < |p| && p[w].body.Native? ==> p[w].ccode.Some?
  {
    forall w | 0 <= w < |p| && p[w].body.Native? && p[w].ccode.None?
      ensures !Compilable(p)
    {
      assert !Generates(p[w].body);
    }
  }

  lemma SlotsFound(p: Program, slots: seq<u32>, interpreted: nat, snippets: map<nat, string>)
    requires SlotsAssigned(p, slots, interpreted, snippets)
    ensures |slots| == |p| && interpreted >= 7
    ensures forall w :: 0 <= w < |p| && p[w].ccode.None? ==> slots[w] == interpreted + Rank(p, w)
    ensures forall w :: 0 <= w < |p| ==> 7 <= slots[w] < interpreted + Rank(p, |p|)
  {
    hide Rank;
    forall w | 0 <= w < |p|
      ensures 7 <= slots[w] < interpreted + Rank(p, |p|)
    {
      RankMono(p, w, |p|);
    }
  }

  lemma GatheredLinked(p: Program, slots: seq<u32>, slotInterpreted: nat, table: seq<CodeElement?>,
                       gcode: seq<CodeElement>, elems: seq<Elem>, entry: seq<nat>)
    requires Gathered(p, slots, slotInterpreted, table, gcode, elems, entry)
    ensures Linked(gcode, elems) && forall i :: 0 <= i < |gcode| ==> gcode[i].address == -1
  {
    hide Blank, Distinct, WordElemsAt, WordSize;
    forall i | 0 <= i < |gcode|
      ensures gcode[i].elem == Blank(elems[i]) && gcode[i].address == -1
      ensures elems[i].Jump? ==> elems[i].target < |elems| && gcode[i].target == gcode[elems[i].target]
    {
      assert Stands(gcode[i], elems[i], gcode, 0);
    }
  }

  /** Gathered, as far as it does not speak of addresses. */
  ghost predicate Listed(p: Program, slots: seq<u32>, slotInterpreted: nat, table: seq<CodeElement?>,
                         gcode: seq<CodeElement>, elems: seq<Elem>, entry: seq<nat>) {
    |gcode| == |elems| && |entry| == |p| == |slots|
    && forall w :: 0 <= w < |p| && p[w].ccode.None? ==> Entered(p, slots, slotInterpreted, table, gcode, elems, entry, w)
  }

  lemma GatheredListed(p: Program, slots: seq<u32>, slotInterpreted: nat, table: seq<CodeElement?>,
                       gcode: seq<CodeElement>, elems: seq<Elem>, entry: seq<nat>)
    requires Gathered(p, slots, slotInterpreted, table, gcode, elems, entry) && |entry| == |p|
    ensures Listed(p, slots, slotInterpreted, table, gcode, elems, entry)
  {
    hide WordElemsAt, WordSize, Stands, Entered;
  }

  /** The printed t0_caddr: the C table holds 16-bit numbers. */
  method EntryAddresses(table: seq<CodeElement?>, gcode: seq<CodeElement>, ghost lens: seq<nat>) returns (caddr: seq<nat>)
    requires forall i :: 0 <= i < |table| ==> table[i] in gcode
    requires Laid(gcode, lens)
    ensures |caddr| == |table|
    ensures forall i :: 0 <= i < |table| ==> table[i] != null && caddr[i] == table[i].address % 0x1_0000
  {
    caddr := [];
    while |caddr| < |table|
      invariant |caddr| <= |table|
      invariant forall i :: 0 <= i < |caddr| ==> table[i] != null && caddr[i] == table[i].address % 0x1_0000
    {
      assert table[|caddr|] in gcode;
      caddr := caddr + [table[|caddr|].address % 0x1_0000];
    }
  }

  lemma HeadersDecide(p: Program, slots: seq<u32>, slotInterpreted: nat, table: seq<CodeElement?>, gcode: seq<CodeElement>,
                      elems: seq<Elem>, entry: seq<nat>, oneByte: bool)
    requires Listed(p, slots, slotInterpreted, table, gcode, elems, entry)
    requires forall k :: 0 <= k < |elems| ==> Origin(p, slots, elems[k])
    requires oneByte ==> forall w :: 0 <= w < |p| ==> slots[w] < 256
    ensures AllEncodable(elems, oneByte) <==> (oneByte ==> HeadersFit(p))
  {
    hide ElemOf;
    if oneByte && HeadersFit(p) {
      forall i | 0 <= i < |elems|
        ensures Encodable(elems[i], oneByte)
      {
        assert Origin(p, slots, elems[i]);
      }
    }
    if oneByte && AllEncodable(elems, oneByte) {
      forall w | 0 <= w < |p| && p[w].ccode.None? && p[w].body.Interp?
        ensures p[w].body.numLocals < 256
      {
        assert Entered(p, slots, slotInterpreted, table, gcode, elems, entry, w);
        assert elems[entry[w]..entry[w] + WordSize(p[w].body)][0] == elems[entry[w]];
        assert Encodable(elems[entry[w]], oneByte);
      }
    }
  }

  lemma WordElemsHold(g: Gen, w: nat)
    requires g.Shape() && w < |g.p| && g.p[w].ccode.None? && Readable(g.p, g.oneByte) && Generates(g.p[w].body)
    requires WordIn(g.p, g.slots, g.elems, g.entry, w)
    ensures g.WordElems(w) && g.entry[w] < |g.elems|
  {
    hide ElemOf, CodeBlock, Addr, SelfConsistent, AllEncodable, ReadsBack;
    var b := g.entry[w];
    var es := g.elems[b..b + WordSize(g.p[w].body)];
    if g.p[w].body.Interp? {
      var ops := g.p[w].body.code;
      assert ReadableWord(g.p[w].body, g.oneByte);
      assert es[0] == g.elems[b];
      forall k | 0 <= k < |ops|
        ensures ElemOf(ops[k], g.slots, b + 1, k) == Some(g.elems[b + 1 + k])
        ensures ops[k].Jump? ==> 0 <= k + 1 + ops[k].disp < |ops|
      {
        assert es[1 + k] == g.elems[b + 1 + k];
        assert InWord(ops, k);
      }
    } else {
      assert es[0] == g.elems[b] && es[1] == g.elems[b + 1] && es[2] == g.elems[b + 2];
    }
  }

  lemma TablesDescribe(g: Gen, img: Image, table: seq<CodeElement?>, gcode: seq<CodeElement>, snippets: map<nat, string>)
    requires g.Shape() && g.SameCode(img) && img.snippets == snippets
    requires SlotsAssigned(g.p, g.slots, g.interpreted, snippets)
    requires Listed(g.p, g.slots, g.interpreted, table, gcode, g.elems, g.entry) && Laid(gcode, g.lens)
    requires |img.caddr| == |table|
    requires forall i :: 0 <= i < |table| ==> table[i] != null && img.caddr[i] == table[i].address % 0x1_0000
    requires Readable(g.p, g.oneByte) && Compilable(g.p)
    ensures g.Describes(img)
  {
    hide WordElemsAt, WordSize, CodeBlock, Addr, SelfConsistent, AllEncodable, Gen.WordElems, Generates, Gen.SameCode, Rank, Readable;
    forall w | 0 <= w < |g.p|
      ensures g.WordLaid(img, w)
    {
      if g.p[w].ccode.None? {
        assert Entered(g.p, g.slots, g.interpreted, table, gcode, g.elems, g.entry, w);
        assert WordIn(g.p, g.slots, g.elems, g.entry, w);
        WordElemsHold(g, w);
        AddrOrder(g.lens, g.entry[w], |g.elems|);
        assert gcode[g.entry[w]].address == Addr(g.lens, g.entry[w]);
      }
    }
  }

  /** From slots to tables. */
  method Build(p: Program, slots: seq<u32>, slotInterpreted: nat, numInterpreted: nat, snippets: map<nat, string>, dataSize: nat)
    returns (ok: bool, img: Image, ghost g: Gen)
    requires |p| < 0x4000_0000 && Sized(p) && 10 * ListSize(p, |p|) < 0x8000_0000
    requires SlotsAssigned(p, slots, slotInterpreted, snippets)
    requires numInterpreted == Rank(p, |p|) && slotInterpreted == 7 + |CCodes(p, |p|)| <= 7 + |p|
    ensures ok <==> Compilable(p) && (OneByteMode(p) ==> HeadersFit(p))
    ensures ok ==> (img.oneByte <==> OneByteMode(p)) && img.interpreted + |img.caddr| == SlotCount(p) && img.dataSize == dataSize
    ensures ok && |img.code| < 0x1_0000 && Readable(p, img.oneByte) ==>
      g.p == p && g.Shape() && g.Describes(img) && g.oneByte == img.oneByte
    ensures ok ==> forall other :: Roomy(g.elems, img.oneByte, other) ==> |img.code| <= Addr(other, |other|)
  {
    hide *;
    SlotsFound(p, slots, slotInterpreted, snippets);
    g := Gen(p, [], 0, [], [], [], false);
    img := Image([], [], 0, false, map[], dataSize);
    var gcode, table; ghost var elems, entry, lens;
    ok, gcode, table, elems, entry := CollectElements(p, slots, slotInterpreted, numInterpreted);
    CompilableMeans(p);
    if !ok {
      return;
    }
    GatheredLinked(p, slots, slotInterpreted, table, gcode, elems, entry);
    GatheredListed(p, slots, slotInterpreted, table, gcode, elems, entry);
    var oneByte := slotInterpreted + numInterpreted < 256;
    CountsSlots(p);
    var totalLen;
    totalLen, lens := Relax(gcode, oneByte, elems);
    LinkedSize(gcode, elems, lens);
    NoAddressOverflow(elems, oneByte, lens);
    HeadersDecide(p, slots, slotInterpreted, table, gcode, elems, entry, oneByte);
    var code;
    ok, code := EncodeAll(gcode, oneByte, elems, lens);
    if !ok {
      img := img.(oneByte := oneByte);
      return;
    }
    var caddr := EntryAddresses(table, gcode, lens);
    img := Image(code, caddr, slotInterpreted, oneByte, snippets, dataSize);
    g := Gen(p, slots, slotInterpreted, entry, elems, lens, oneByte);
    CodeIsShortest(elems, oneByte, lens);
    if |code| < 0x1_0000 && Readable(p, oneByte) {
      ShapeHolds(g);
      SameCodeHolds(g, img);
      TablesDescribe(g, img, table, gcode, snippets);
    }
  }

  lemma CountsSlots(p: Program)
    ensures SlotCount(p) == 7 + |CCodes(p, |p|)| + Rank(p, |p|) && (OneByteMode(p) <==> SlotCount(p) < 256)
  {
  }

  lemma CompilableMeans(p: Program)
    ensures Compilable(p) <==> forall w :: 0 <= w < |p| && p[w].ccode.None? ==> Generates(p[w].body)
  {
  }

  lemma LinkedSize(gcode: seq<CodeElement>, elems: seq<Elem>, lens: seq<nat>)
    requires Linked(gcode, elems) && Laid(gcode, lens)
    ensures |gcode| == |elems| == |lens| && WellTargeted(elems)
  {
  }

  lemma CodeIsShortest(elems: seq<Elem>, oneByte: bool, lens: seq<nat>)
    requires SelfConsistent(elems, oneByte, lens) && AllEncodable(elems, oneByte)
    requires forall other :: Roomy(elems, oneByte, other) ==> Below(lens, other)
    ensures |CodeBlock(elems, oneByte, lens, |elems|)| == Addr(lens, |elems|)
    ensures forall other :: Roomy(elems, oneByte, other) ==> Addr(lens, |elems|) <= Addr(other, |other|)
  {
    hide CodeBlock, Addr, Roomy, Below;
    BlockLength(elems, oneByte, lens, |elems|);
    forall other | Roomy(elems, oneByte, other)
      ensures Addr(lens, |elems|) <= Addr(other, |other|)
    {
      SameSize(lens, other);
      SameTotal(lens, other, |lens|);
    }
  }

  lemma SameSize(a: seq<nat>, b: seq<nat>)
    requires Below(a, b)
    ensures |a| == |b|
  {
  }

  lemma ShapeHolds(g: Gen)
    requires |g.slots| == |g.p| == |g.entry| && 7 <= g.interpreted <= 7 + |g.p| && |g.p| < 0x4000_0000
    requires SelfConsistent(g.elems, g.oneByte, g.lens) && AllEncodable(g.elems, g.oneByte)
    requires Addr(g.lens, |g.elems|) < 0x1_0000
    ensures g.Shape()
  {
    hide Addr, LengthIn, AllEncodable;
  }

  lemma SameCodeHolds(g: Gen, img: Image)
    requires g.Shape()
    requires img.code == CodeBlock(g.elems, g.oneByte, g.lens, |g.elems|)
    requires img.interpreted == g.interpreted && img.oneByte == g.oneByte
    ensures g.SameCode(img)
  {
    hide CodeBlock, SelfConsistent, AllEncodable;
  }

  /** Generate, from the closed set of words on: fails exactly if some word cannot be compiled, an entry
      point has C code, or a header needs more than its one byte. */
  method Generate(p: Program, entryPoints: seq<nat>, dataSize: nat)
    returns (ok: bool, img: Image, ghost g: Gen)
    requires |p| < 0x4000_0000 && Sized(p) && 10 * ListSize(p, |p|) < 0x8000_0000
    requires forall e :: e in entryPoints ==> e < |p|
    ensures ok <==>
      && Compilable(p)
      && (forall e :: e in entryPoints ==> p[e].ccode.None?)
      && (OneByteMode(p) ==> HeadersFit(p))
    ensures ok ==> (img.oneByte <==> OneByteMode(p)) && img.interpreted + |img.caddr| == SlotCount(p) && img.dataSize == dataSize
    ensures ok && |img.code| < 0x1_0000 && Readable(p, img.oneByte) ==>
      g.p == p && g.Shape() && g.Describes(img) && g.oneByte == img.oneByte
    ensures ok ==> forall other :: Roomy(g.elems, img.oneByte, other) ==> |img.code| <= Addr(other, |other|)
  {
    hide *;
    var slots, slotInterpreted, numInterpreted, snippets;
    g := Gen(p, [], 0, [], [], [], false);
    img := Image([], [], 0, false, map[], dataSize);
    ok, slots, slotInterpreted, numInterpreted, snippets := AssignSlots(p);
    NativesHaveCode(p);
    if !ok {
      return;
    }
    var i := 0;
    while i < |entryPoints|
      invariant 0 <= i <= |entryPoints|
      invariant forall j :: 0 <= j < i ==> entryPoints[j] < |p| && p[entryPoints[j]].ccode.None?
    {
      assert entryPoints[i] in entryPoints;
      if p[entryPoints[i]].ccode.Some? {
        return false, img, g;
      }
      i := i + 1;
    }
    ok, img, g := Build(p, slots, slotInterpreted, numInterpreted, snippets, dataSize);
  }
}
