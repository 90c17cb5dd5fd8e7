/** The parts put together: an analysed and generated program runs inside the arrays that the analysis asked for. */
module SafeExecution {
  import opened Bytes
  import opened SevenBit
  import opened Layout
  import opened Machine
  import opened ByteVM
  import opened CodeGen
  import opened Simulation
  import opened Flow
  import opened Traversal
  import Analysis = AnalyseFlow

  // ----- how much the reported data-stack maximum can be short of -----

  /** No C word or data word pushes more than d elements net. */
  predicate NetPushAtMost(p: Program, t: seq<Info>, done: set<nat>, d: nat) {
    |t| == |p| && forall w :: w in done && IsLeaf(p, w) && t[w].effect.IsKnown() && !t[w].effect.NoExit() ==>
      t[w].effect.dout - t[w].effect.din <= d
  }

  /** Leaves whose maximum is the one that the code computes, with Min. */
  predicate AsCoded(p: Program, t: seq<Info>, done: set<nat>) {
    |t| == |p| && forall w :: w in done && IsLeaf(p, w) ==> t[w] == DefaultInfo(t[w].effect)
  }

  /** Leaves whose maximum would be computed with Max, data words being charged their frame. */
  predicate AsRepaired(p: Program, t: seq<Info>, done: set<nat>) {
    |t| == |p| && forall w :: w in done && IsLeaf(p, w) ==>
      t[w] == RepairedInfo(t[w].effect).(maxReturnStack := if p[w].body.Data? then 1 else 0)
  }

  /** As coded, the table meets the premise of the theorems with slack d exactly if d is at least every leaf's net
      push; with Max in place of Min, it does so without any slack. */
  lemma SlackNeeded(p: Program, t: seq<Info>, done: set<nat>, d: nat)
    ensures AsCoded(p, t, done) ==> (SlackOk(p, t, done, d) <==> NetPushAtMost(p, t, done, d))
    ensures AsRepaired(p, t, done) ==> SlackOk(p, t, done, 0)
  {
    if AsCoded(p, t, done) && SlackOk(p, t, done, d) {
      forall w | w in done && IsLeaf(p, w) && t[w].effect.IsKnown() && !t[w].effect.NoExit()
        ensures t[w].effect.dout - t[w].effect.din <= d
      {
        assert t[w] == DefaultInfo(t[w].effect);
      }
    }
  }

  /** As coded, a slot of the return stack has to be spared exactly if a data word is called; with 1 in place of
      0 for data words, none is. */
  lemma SpareNeeded(p: Program, t: seq<Info>, done: set<nat>)
    ensures AsCoded(p, t, done) ==>
      (Spare(p, t, done) == 1 <==> exists w :: w in done && w < |p| && p[w].ccode.None? && p[w].body.Data?)
    ensures AsRepaired(p, t, done) ==> Spare(p, t, done) == 0
  {
    if AsCoded(p, t, done) && DataCharged(p, t, done) {
      forall w | w in done && w < |p| && p[w].ccode.None?
        ensures !p[w].body.Data?
      {
        assert IsLeaf(p, w) ==> t[w] == DefaultInfo(t[w].effect);
      }
    }
  }

  // ----- the main theorem -----

  /** How a run of the interpreter may end: never outside its arrays; and if the outermost word returns, then
      with its results in place of its arguments, over an untouched rest. */
  ghost predicate Delivered<E(!new)>(info: Info, ds: seq<Cell>, r: Result<VM<E>>)
    requires 0 <= info.effect.din <= |ds|
  {
    var keep := |ds| - info.effect.din;
    !r.Wrong?
    && (r.Exit? ==>
          !info.effect.NoExit() && |r.s.ds| == keep + info.effect.dout && r.s.ds[..keep] == ds[..keep])
  }

  /** Stack sizes that are enough for word w called with `depth` elements on the data stack. */
  ghost predicate BigEnough(p: Program, t: seq<Info>, done: set<nat>, d: nat, w: nat, depth: nat, dataSize: nat, retSize: nat) {
    w < |t| && depth + t[w].maxDataStack + d <= dataSize && t[w].maxReturnStack + Spare(p, t, done) <= retSize
  }

  /** For every analysed program, its generated code, every stack contents deep enough, any memory the
      locals find, any C code that honours its declared effect, any behaviour of the host during suspensions
      and any number of dispatches. */
  lemma SafeRun<E(!new)>(p: Program, t: seq<Info>, trs: seq<Trace>, done: set<nat>, d: nat, prim: Prim<E>,
                         g: Gen, img: Image, w: nat, ds: seq<Cell>, rs: seq<u32>, env: E, hosts: seq<E -> E>)
    requires Sound(p, t, trs, done, prim, d) && g.p == p && g.Shape() && g.Describes(img)
    requires w in done && IsCode(p, w) && w < |t| && 0 <= t[w].effect.din <= |ds|
    requires BigEnough(p, t, done, d, w, |ds|, img.dataSize, |rs|)
    ensures g.slots[w] >= img.interpreted
    ensures var b := Boot(img, g.slots[w], ds, rs, env);
            b.Next? && Delivered(t[w], ds, RunVM(img, prim, hosts, b.s))
  {
    hide AllHonour, SlackOk, Implemented, LocalsInRange, Gen.Shape, Gen.Describes, Safe, RunVM, Run, Inv, Boot, Spare;
    TracedMrs(p, t, trs, done, w);
    BootMatches(g, img, w, ds, rs, env);
    hide Traced, Analysed, Matches;
    var stale := StaleAt(rs, 0, NumLocals(p, w));
    var c := Start(p, stale, w, ds, env);
    var vm := Boot(img, g.slots[w], ds, rs, env).s;
    StartInv(p, t, trs, done, prim, d, stale, w, ds, env);
    InvSafe(p, t, trs, done, LimitsOf(t[w], |ds|), d, prim, Untouched(t[w], ds), (w, |ds|), c, [|ds|],
            img.dataSize, |rs|, |hosts|);
    VmNeverWrong(g, img, prim, hosts, c, vm);
    FlowSound(p, t, trs, done, d, prim, stale, OpcodeChoices(g, img, prim, hosts, c, vm), w, ds, env);
  }

  // ----- the reported maxima really fall short -----

  /** A snippet that leaves more than the array holds makes the interpreter write outside it. */
  lemma SnippetNeedsRoom<E>(g: Gen, img: Image, prim: Prim<E>, c: Cpu<E>, vm: VM<E>)
    requires g.Shape() && g.Describes(img) && Matches(g, c, vm)
    requires c.off < |CodeOf(g.p, c.word)| && CodeOf(g.p, c.word)[c.off].Call?
    requires CodeOf(g.p, c.word)[c.off].w < |g.p| && g.p[CodeOf(g.p, c.word)[c.off].w].ccode.Some?
    requires var r := prim(g.p[CodeOf(g.p, c.word)[c.off].w].ccode.value, c.stack, c.env);
             r.PrimOk? && |r.stack| > img.dataSize
    ensures Dispatch(img, prim, vm) == Wrong
  {
    hide FramesMatch, Addr, At, OpLength, Gen.Code, Gen.WordsLaid, SelfConsistent, Fetch, Dispatch, Gen.WordElems;
    var i := g.entry[c.word] + 1 + c.off;
    Current(g, img, c);
    FetchElement(g, img, i);
    WordAt(g, img, CodeOf(g.p, c.word)[c.off].w);
    Handler(img, prim, vm, g.elems[i].val, Addr(g.lens, i) + OpLength(g.oneByte, g.elems[i].val));
  }

  /** A data word called with the return stack full makes it write outside too. */
  lemma DataWordNeedsSlot<E>(g: Gen, img: Image, prim: Prim<E>, c: Cpu<E>, vm: VM<E>)
    requires g.Shape() && g.Describes(img) && Matches(g, c, vm) && AtDataCall(g.p, c)
    requires FrameSlots(c.frames) == |vm.rs|
    ensures Dispatch(img, prim, vm) == Wrong
  {
    hide FramesMatch, FrameSlots, Addr, At, OpLength, Gen.Code, Gen.WordsLaid, SelfConsistent, Fetch, DecU, Dispatch;
    var i := g.entry[c.word] + 1 + c.off;
    var w := CodeOf(g.p, c.word)[c.off].w;
    FramesSize(g, c.frames, vm.rs, vm.rp);
    Current(g, img, c);
    FetchElement(g, img, i);
    WordAt(g, img, w);
    Handler(img, prim, vm, g.elems[i].val, Addr(g.lens, i) + OpLength(g.oneByte, g.elems[i].val));
    ReadHeader(g, img, g.entry[w], 0);
  }

  /** A word that calls two C words. */
  function TwoCalls(first: string, e1: SType, second: string, e2: SType): Program {
    [Word(Interp(0, [Call(1), Call(2), Ret]), None, UNKNOWN), Word(Native, Some(first), e1), Word(Native, Some(second), e2)]
  }

  /** The first leaves more than it takes, the second takes all of that and leaves no more than the first took. */
  predicate PushThenDrop(e1: SType, e2: SType) {
    0 <= e1.din < e1.dout == e2.din && 0 <= e2.dout <= e1.din
  }

  function TwoCallsTrace(e1: SType, e2: SType): Trace {
    Trace([Some(0), Some(e1.dout - e1.din), Some(e2.dout - e1.din)], Some(e2.dout - e1.din), 0 - e1.din, 0, 0)
  }

  /** An analysis of it: nothing of the data stack is needed in between. */
  function TwoCallsAnalysis(e1: SType, e2: SType): seq<Analysis.Entry> {
    var e := SType(e1.din, e2.dout);
    [Analysis.Entry(Info(e, 0, 1), e, 1, true, TwoCallsTrace(e1, e2)),
     Analysis.Entry(DefaultInfo(e1), e1, 0, true, Trace([], None, 0, 0, 0)),
     Analysis.Entry(DefaultInfo(e2), e2, 0, true, Trace([], None, 0, 0, 0))]
  }

  predicate TwoCallsTable(t: seq<Info>, e1: SType, e2: SType) {
    t == [Info(SType(e1.din, e2.dout), 0, 1), DefaultInfo(e1), DefaultInfo(e2)]
  }

  const TWO_CALLS: seq<Op> := [Call(1), Call(2), Ret]

  lemma TwoCallsTraced(t: seq<Info>, e1: SType, e2: SType)
    requires PushThenDrop(e1, e2) && TwoCallsTable(t, e1, e2)
    ensures Traced(t, TWO_CALLS, TwoCallsTrace(e1, e2))
  {
    var tr := TwoCallsTrace(e1, e2);
    assert OpTraced(t, TWO_CALLS, tr, 0);
    assert OpTraced(t, TWO_CALLS, tr, 1);
    assert OpTraced(t, TWO_CALLS, tr, 2);
  }

  lemma TwoCallsReached(t: seq<Info>, e1: SType, e2: SType)
    requires PushThenDrop(e1, e2) && TwoCallsTable(t, e1, e2)
    ensures Analysis.AllReached(t, {0, 1, 2}, TWO_CALLS, TwoCallsTrace(e1, e2))
    ensures Analysis.Attained(t, {0, 1, 2}, TWO_CALLS, TwoCallsTrace(e1, e2))
  {
    hide Analysis.Reached;
    var code, tr, done := TWO_CALLS, TwoCallsTrace(e1, e2), {0, 1, 2};
    Analysis.ReachStart(t, done, code);
    Analysis.ReachEdge(t, done, code, 0, 0, 1);
    Analysis.ReachEdge(t, done, code, 1, e1.dout - e1.din, 2);
    assert Analysis.DepthAt(t, done, code, tr.sa, 0, 0 - e1.din);
    assert Analysis.Seen(done, code, tr.sa, 2);
  }

  /** Without jumps there is nothing to queue. */
  lemma TwoCallsQueue(t: seq<Info>)
    ensures Analysis.QueueFits(false, t, {0, 1, 2}, TWO_CALLS)
  {
    hide After;
    NoWork(TWO_CALLS, Opcodes(3));
    FewJumps(t, TWO_CALLS);
  }

  lemma TwoCallsAnalysed(first: string, e1: SType, second: string, e2: SType)
    requires PushThenDrop(e1, e2)
    ensures Analysis.Consistent(false, TwoCalls(first, e1, second, e2), TwoCallsAnalysis(e1, e2))
    ensures 0 in Analysis.DoneOf(TwoCallsAnalysis(e1, e2))
  {
    hide Traced, Analysis.AllReached, Analysis.Attained;
    var p, s := TwoCalls(first, e1, second, e2), TwoCallsAnalysis(e1, e2);
    var t, trs, done := Analysis.TableOf(s), Analysis.TracesOf(s), Analysis.DoneOf(s);
    assert t == [s[0].info, s[1].info, s[2].info] && trs == [s[0].trace, s[1].trace, s[2].trace];
    assert done == {0, 1, 2};
    TwoCallsTraced(t, e1, e2);
    TwoCallsReached(t, e1, e2);
    assert CodeOf(p, 0) == TWO_CALLS;
    forall w | w in done
      ensures w < 3 && WordAnalysed(p, t, w, trs[w]) && Analysis.CallsInside(p, trs, done, w)
    {
      assert TWO_CALLS[0] == Call(1) && TWO_CALLS[1] == Call(2) && TWO_CALLS[2] == Ret;
    }
    Analysis.FoldAnalysed(p, t, trs, done);
    TwoCallsQueue(t);
    hide Analysed, Analysis.QueueFits;
  }

  lemma Leaf(p: Program, s: seq<Analysis.Entry>, w: nat)
    requires Analysis.Consistent(false, p, s) && w < |p| && !p[w].body.Interp?
    ensures |s| == |p| && w in Analysis.DoneOf(s)
    ensures Analysis.TableOf(s)[w] == DefaultInfo(if p[w].body.Data? then SType(0, 1) else p[w].declared)
  {
    hide Traced;
    Analysis.AnalysedWord(p, Analysis.TableOf(s), Analysis.TracesOf(s), Analysis.DoneOf(s), w);
  }

  /** Whatever analysis is made of it, the maximum reported for the word is zero ... */
  lemma TwoCallsReported(first: string, e1: SType, second: string, e2: SType, s: seq<Analysis.Entry>)
    requires PushThenDrop(e1, e2)
    requires Analysis.Consistent(false, TwoCalls(first, e1, second, e2), s) && 0 in Analysis.DoneOf(s)
    ensures Analysis.TableOf(s)[0].maxDataStack == 0
  {
    hide Analysis.Consistent, Analysis.TableOf, Analysis.TracesOf, Analysis.DoneOf, Analysed;
    var p := TwoCalls(first, e1, second, e2);
    var t, trs, done := Analysis.TableOf(s), Analysis.TracesOf(s), Analysis.DoneOf(s);
    Leaf(p, s, 1);
    Leaf(p, s, 2);
    FinishedAttained(p, s, 0);
    Analysis.FinishedWord(p, s, 0);
    Analysis.AnalysedWord(p, t, trs, done, 0);
    var code, tr := CodeOf(p, 0), trs[0];
    assert OpTraced(t, code, tr, 0);
    assert tr.sa[1] == Some(e1.dout - e1.din);
    assert OpTraced(t, code, tr, 1);
    assert tr.sa[2] == Some(e2.dout - e1.din);
    forall k: nat | Analysis.PeakAt(t, done, code, tr.sa, k, tr.mds)
      ensures tr.mds == 0
    {
      assert k < 3;
    }
  }

  lemma FinishedAttained(p: Program, s: seq<Analysis.Entry>, w: nat)
    requires Analysis.Consistent(false, p, s) && w in Analysis.DoneOf(s) && w < |p| && p[w].body.Interp?
    ensures Analysed(p, Analysis.TableOf(s), Analysis.TracesOf(s), Analysis.DoneOf(s))
    ensures Analysis.Attained(Analysis.TableOf(s), Analysis.DoneOf(s), CodeOf(p, w), Analysis.TracesOf(s)[w])
  {
    hide Analysed, Analysis.Attained;
  }

  /** ... and an interpreter given any slack below the first word's net push overruns its data stack. So no slack
      below the largest net push of a called C word is enough in general, whatever that push. */
  lemma SlackTight<E(!new)>(first: string, e1: SType, second: string, e2: SType, d: nat, s: seq<Analysis.Entry>,
                            g: Gen, img: Image, prim: Prim<E>, ds: seq<Cell>, rs: seq<u32>, env: E)
    requires PushThenDrop(e1, e2) && d < e1.dout - e1.din
    requires Analysis.Consistent(false, TwoCalls(first, e1, second, e2), s) && 0 in Analysis.DoneOf(s)
    requires g.p == TwoCalls(first, e1, second, e2) && g.Shape() && g.Describes(img) && |ds| >= e1.din && |rs| >= 1
    requires Honours(prim, first, e1) && prim(first, ds, env).PrimOk?
    requires img.dataSize == |ds| + Analysis.TableOf(s)[0].maxDataStack + d
    ensures NetPushAtMost(g.p, Analysis.TableOf(s), Analysis.DoneOf(s), e1.dout - e1.din)
    ensures g.slots[0] >= img.interpreted
    ensures var b := Boot(img, g.slots[0], ds, rs, env); b.Next? && Dispatch(img, prim, b.s) == Wrong
  {
    hide Analysis.Consistent, Analysis.TableOf, Analysis.DoneOf, Gen.Shape, Gen.Describes, Boot, Dispatch, FramesMatch, Honours;
    TwoCallsReported(first, e1, second, e2, s);
    Leaf(g.p, s, 1);
    Leaf(g.p, s, 2);
    NetPushes(first, e1, second, e2, Analysis.TableOf(s), Analysis.DoneOf(s));
    FirstLeaves(prim, first, e1, ds, env);
    BootMatches(g, img, 0, ds, rs, env);
    var c := Start(g.p, StaleAt(rs, 0, 0), 0, ds, env);
    SnippetNeedsRoom(g, img, prim, c, Boot(img, g.slots[0], ds, rs, env).s);
  }

  lemma NetPushes(first: string, e1: SType, second: string, e2: SType, t: seq<Info>, done: set<nat>)
    requires PushThenDrop(e1, e2) && |t| == 3 && t[1] == DefaultInfo(e1) && t[2] == DefaultInfo(e2)
    ensures NetPushAtMost(TwoCalls(first, e1, second, e2), t, done, e1.dout - e1.din)
  {
  }

  lemma FirstLeaves<E(!new)>(prim: Prim<E>, ccode: string, e: SType, ds: seq<Cell>, env: E)
    requires Honours(prim, ccode, e) && prim(ccode, ds, env).PrimOk? && |ds| >= e.din
    ensures |prim(ccode, ds, env).stack| == |ds| - e.din + e.dout
  {
  }

  /** : dup-equal ( x -- flag ) dup = ; */
  const DUP_EQUAL: Program := TwoCalls("dup", SType(1, 2), "=", SType(2, 1))

  /** A data stack of just the argument and the reported maximum is too small for it. */
  lemma DupEqualOverruns<E(!new)>(s: seq<Analysis.Entry>, g: Gen, img: Image, prim: Prim<E>, ds: seq<Cell>, rs: seq<u32>, env: E)
    requires Analysis.Consistent(false, DUP_EQUAL, s) && 0 in Analysis.DoneOf(s)
    requires g.p == DUP_EQUAL && g.Shape() && g.Describes(img) && |ds| >= 1 && |rs| >= 1
    requires Honours(prim, "dup", SType(1, 2)) && prim("dup", ds, env).PrimOk?
    requires img.dataSize == |ds| + Analysis.TableOf(s)[0].maxDataStack
    ensures g.slots[0] >= img.interpreted
    ensures var b := Boot(img, g.slots[0], ds, rs, env); b.Next? && Dispatch(img, prim, b.s) == Wrong
  {
    hide Analysis.Consistent, Analysis.TableOf, Analysis.DoneOf, Gen.Shape, Gen.Describes, Boot, Dispatch, Honours;
    SlackTight("dup", SType(1, 2), "=", SType(2, 1), 0, s, g, img, prim, ds, rs, env);
  }

  /** : address ( -- a ) some-data ; */
  const DATA_ADDRESS: Program := [
    Word(Interp(0, [Call(1), Ret]), None, UNKNOWN),
    Word(Data(1), None, SType(0, 1))]

  /** Its reported return-stack use is the one slot of its own frame ... */
  lemma DataAddressReported(s: seq<Analysis.Entry>)
    requires Analysis.Consistent(false, DATA_ADDRESS, s) && 0 in Analysis.DoneOf(s)
    ensures Analysis.TableOf(s)[0].maxReturnStack == 1
  {
    hide Analysis.Consistent, Analysis.TableOf, Analysis.TracesOf, Analysis.DoneOf, Analysed;
    var t, trs, done := Analysis.TableOf(s), Analysis.TracesOf(s), Analysis.DoneOf(s);
    FinishedAttained(DATA_ADDRESS, s, 0);
    Analysis.FinishedWord(DATA_ADDRESS, s, 0);
    Analysis.AnalysedWord(DATA_ADDRESS, t, trs, done, 0);
    var code, tr := CodeOf(DATA_ADDRESS, 0), trs[0];
    forall k: nat | Analysis.FramesAt(t, done, code, tr.sa, k, tr.mrs)
      ensures tr.mrs == 0
    {
      assert k == 0;
      Leaf(DATA_ADDRESS, s, 1);
    }
  }

  /** ... but the interpreter needs a second one. */
  lemma DataAddressOverruns<E(!new)>(s: seq<Analysis.Entry>, g: Gen, img: Image, prim: Prim<E>, ds: seq<Cell>, rs: seq<u32>, env: E)
    requires Analysis.Consistent(false, DATA_ADDRESS, s) && 0 in Analysis.DoneOf(s)
    requires g.p == DATA_ADDRESS && g.Shape() && g.Describes(img)
    requires |rs| == Analysis.TableOf(s)[0].maxReturnStack
    ensures g.slots[0] >= img.interpreted
    ensures var b := Boot(img, g.slots[0], ds, rs, env); b.Next? && Dispatch(img, prim, b.s) == Wrong
  {
    hide Analysis.Consistent, Analysis.TableOf, Analysis.DoneOf, Gen.Shape, Gen.Describes, Boot, Dispatch, FramesMatch;
    DataAddressReported(s);
    BootMatches(g, img, 0, ds, rs, env);
    var c := Start(g.p, StaleAt(rs, 0, 0), 0, ds, env);
    assert FrameSlots(c.frames) == 1;
    DataWordNeedsSlot(g, img, prim, c, Boot(img, g.slots[0], ds, rs, env).s);
  }
}
