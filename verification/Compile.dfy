/** The compiler from resolved words on: analyse the entry points, check the limits, generate. */
module Compile {
  import opened Bytes
  import opened Layout
  import opened Machine
  import opened ByteVM
  import opened CodeGen
  import opened Simulation
  import opened Flow
  import Analysis = AnalyseFlow
  import opened Generate
  import opened SafeExecution
  import opened Builder

  /** The state of a word that nothing has looked at yet. */
  predicate Unseen(p: Program, e: Analysis.Entry, w: nat)
    requires w < |p|
  {
    e.flow == 0 && (e.isDone <==> !p[w].body.Interp?)
    && e.info.effect == e.effect == (if p[w].body.Data? then SType(0, 1) else p[w].declared)
    && (!p[w].body.Interp? ==> e.info == DefaultInfo(e.effect))
  }

  lemma UnseenConsistent(p: Program, s: seq<Analysis.Entry>)
    requires |s| == |p| && forall i :: 0 <= i < |s| ==> Unseen(p, s[i], i)
    ensures Analysis.Consistent(false, p, s) && Analysis.Ongoing(p, s, [])
  {
    var t, trs, done := Analysis.TableOf(s), Analysis.TracesOf(s), Analysis.DoneOf(s);
    forall w | w in done
      ensures w < |p| && WordAnalysed(p, t, w, trs[w]) && !p[w].body.Interp?
    {
      assert Unseen(p, s[w], w);
    }
  }

  method NewWords(p: Program) returns (ws: seq<Analysis.T0Word>)
    requires Analysis.Resolved(p)
    ensures Analysis.Shape(ws, p) && fresh(ws)
    ensures |ws| == |p| && forall i :: 0 <= i < |ws| ==> Unseen(p, Analysis.Snapshot(ws)[i], i)
  {
    ws := [];
    while |ws| < |p|
      invariant |ws| <= |p| && fresh(ws)
      invariant forall i, j :: 0 <= i < j < |ws| ==> ws[i] != ws[j]
      invariant forall i :: 0 <= i < |ws| ==> ws[i].body == p[i].body && Unseen(p, Analysis.EntryOf(ws[i]), i)
    {
      var w := new Analysis.T0Word(p[|ws|].body, p[|ws|].declared);
      ws := ws + [w];
    }
  }

  /** The analysis of entry point e has succeeded within the limits. */
  ghost predicate WithinLimits(s: seq<Analysis.Entry>, e: nat, dsLimit: int, rsLimit: int) {
    e < |s| && e in Analysis.DoneOf(s)
    && s[e].info.maxDataStack <= dsLimit && s[e].info.maxReturnStack <= rsLimit
  }

  /** The analysis of entry point e has succeeded, with a maximum above its limit. */
  ghost predicate OverLimits(s: seq<Analysis.Entry>, e: nat, dsLimit: int, rsLimit: int) {
    e < |s| && e in Analysis.DoneOf(s) && (s[e].info.maxDataStack > dsLimit || s[e].info.maxReturnStack > rsLimit)
  }

  /** A failed analysis has failed in a word that some entry point leads to. */
  ghost predicate Explained(p: Program, entryPoints: seq<nat>, r: Analysis.Outcome) {
    r.Done? || exists e :: e in entryPoints && Analysis.Located(false, p, [e], r)
  }

  lemma ExplainedBy(p: Program, entryPoints: seq<nat>, e: nat, r: Analysis.Outcome)
    requires e in entryPoints && Analysis.Located(false, p, [] + [e], r)
    ensures Explained(p, entryPoints, r)
  {
    hide Analysis.Located;
    assert [] + [e] == [e];
  }

  /** AnalyseFlow on every entry point, and the two limit checks. `r` tells why an analysis failed. */
  method AnalyseAll(p: Program, ws: seq<Analysis.T0Word>, entryPoints: seq<nat>, dsLimit: int, rsLimit: int)
    returns (ok: bool, r: Analysis.Outcome)
    requires Analysis.Shape(ws, p) && Analysis.Consistent(false, p, Analysis.Snapshot(ws)) && Analysis.Ongoing(p, Analysis.Snapshot(ws), [])
    requires forall e :: e in entryPoints ==> e < |p|
    modifies ws
    ensures Analysis.Justified(false, p, r) && Explained(p, entryPoints, r)
    ensures r.Done? ==> Analysis.Consistent(false, p, Analysis.Snapshot(ws))
    ensures ok <==> r.Done? && forall e :: e in entryPoints ==> WithinLimits(Analysis.Snapshot(ws), e, dsLimit, rsLimit)
    ensures !ok && r.Done? ==> exists e :: e in entryPoints && OverLimits(Analysis.Snapshot(ws), e, dsLimit, rsLimit)
  {
    hide Analysis.Consistent, Analysis.Justified, Analysis.Ongoing, Analysis.Snapshot, Analysis.Located;
    Analysis.JustifiedDone(false, p);
    r := Analysis.Done;
    var i := 0;
    while i < |entryPoints|
      invariant 0 <= i <= |entryPoints| && r.Done?
      invariant Analysis.Consistent(false, p, Analysis.Snapshot(ws)) && Analysis.Ongoing(p, Analysis.Snapshot(ws), [])
      invariant forall j :: 0 <= j < i ==> WithinLimits(Analysis.Snapshot(ws), entryPoints[j], dsLimit, rsLimit)
    {
      var e := entryPoints[i];
      assert e in entryPoints;
      OneWordChain(p, e);
      ghost var s := Analysis.Snapshot(ws);
      r := Analysis.AnalyseFlow(false, ws, e, p, []);
      ExplainedBy(p, entryPoints, e, r);
      if !r.Done? {
        return false, r;
      }
      LimitsKept(s, Analysis.Snapshot(ws), entryPoints, i, dsLimit, rsLimit);
      var info := ws[e].InfoOf();
      assert Analysis.Snapshot(ws)[e] == Analysis.EntryOf(ws[e]);
      if info.maxDataStack > dsLimit || info.maxReturnStack > rsLimit {
        assert OverLimits(Analysis.Snapshot(ws), e, dsLimit, rsLimit);
        return false, r;
      }
      i := i + 1;
    }
    ok := true;
  }

  lemma OneWordChain(p: Program, e: nat)
    requires e < |p|
    ensures Analysis.CallChain(false, p, [] + [e])
  {
  }

  lemma LimitsKept(s: seq<Analysis.Entry>, s': seq<Analysis.Entry>, entryPoints: seq<nat>, i: nat, dsLimit: int, rsLimit: int)
    requires Analysis.Kept(s, s') && i <= |entryPoints|
    requires forall j :: 0 <= j < i ==> WithinLimits(s, entryPoints[j], dsLimit, rsLimit)
    ensures forall j :: 0 <= j < i ==> WithinLimits(s', entryPoints[j], dsLimit, rsLimit)
  {
    forall j | 0 <= j < i
      ensures WithinLimits(s', entryPoints[j], dsLimit, rsLimit)
    {
      assert WithinLimits(s, entryPoints[j], dsLimit, rsLimit);
    }
  }

  /** What a successful compilation knows. */
  ghost predicate Compiled(p: Program, s: seq<Analysis.Entry>, g: Gen, img: Image, entryPoints: seq<nat>, dsLimit: int, rsLimit: int) {
    Analysis.Consistent(false, p, s) && g.p == p && g.Shape() && g.Describes(img)
    && forall e :: e in entryPoints ==> WithinLimits(s, e, dsLimit, rsLimit)
  }

  /** Generate, with the flow analysis enabled: it succeeds exactly if the analysis of every entry point does, within
      the limits, and the generator finds nothing it cannot compile. */
  method CompileAll(p: Program, entryPoints: seq<nat>, dsLimit: int, rsLimit: int, dataSize: nat)
    returns (ok: bool, r: Analysis.Outcome, img: Image, ghost g: Gen, ghost s: seq<Analysis.Entry>)
    requires |p| < 0x4000_0000 && Sized(p) && 10 * ListSize(p, |p|) < 0x8000_0000
    requires forall e :: e in entryPoints ==> e < |p|
    ensures Analysis.Justified(false, p, r) && Explained(p, entryPoints, r) && (r.Done? ==> Analysis.Consistent(false, p, s))
    ensures ok <==>
      && r.Done? && (forall e :: e in entryPoints ==> WithinLimits(s, e, dsLimit, rsLimit))
      && Compilable(p) && (forall e :: e in entryPoints ==> p[e].ccode.None?) && (OneByteMode(p) ==> HeadersFit(p))
    ensures ok && |img.code| < 0x1_0000 && Readable(p, img.oneByte) ==> Compiled(p, s, g, img, entryPoints, dsLimit, rsLimit)
    ensures ok ==> img.dataSize == dataSize && forall e :: e in entryPoints ==> p[e].ccode.None?
  {
    hide Analysis.Consistent, Analysis.Justified, Analysis.Ongoing, Analysis.Shape, Gen.Shape, Gen.Describes, Compilable, Readable, Roomy, Sized, HeadersFit, OneByteMode, Explained, WithinLimits;
    SizedResolved(p);
    img := Image([], [], 0, false, map[], dataSize);
    g := Gen(p, [], 0, [], [], [], false);
    var ws := NewWords(p);
    s := Analysis.Snapshot(ws);
    UnseenConsistent(p, s);
    ok, r := AnalyseAll(p, ws, entryPoints, dsLimit, rsLimit);
    s := Analysis.Snapshot(ws);
    if ok {
      ok, img, g := Generate.Generate(p, entryPoints, dataSize);
    }
  }

  lemma SizedResolved(p: Program)
    requires Sized(p)
    ensures Analysis.Resolved(p)
  {
    forall w, k | 0 <= w < |p| && 0 <= k < |CodeOf(p, w)| && CodeOf(p, w)[k].Call?
      ensures CodeOf(p, w)[k].w < |p|
    {
      assert p[w].body.Interp?;
    }
  }

  /** Every word with a body is as the word builder leaves it. */
  predicate Built(p: Program) {
    forall w :: 0 <= w < |p| && p[w].body.Interp? ==> Closed(p[w].body.numLocals, p[w].body.code)
  }

  /** C code is honest about the effect under which it is called. */
  ghost predicate HonestCode<E(!new)>(p: Program, s: seq<Analysis.Entry>, prim: Prim<E>) {
    AllHonour(p, Analysis.TableOf(s), Analysis.DoneOf(s), prim)
  }

  lemma FinishedAnalysed(p: Program, s: seq<Analysis.Entry>)
    requires Analysis.Consistent(false, p, s)
    ensures |s| == |p| && Analysed(p, Analysis.TableOf(s), Analysis.TracesOf(s), Analysis.DoneOf(s))
    ensures forall w: nat :: w < |p| && !p[w].body.Interp? ==> Analysis.TableOf(s)[w] == DefaultInfo(Analysis.TableOf(s)[w].effect)
  {
    hide Analysed;
  }

  /** What no leaf pushes more than, is slack enough. */
  lemma EnoughSlack(p: Program, s: seq<Analysis.Entry>, d: nat)
    requires Analysis.Consistent(false, p, s) && NetPushAtMost(p, Analysis.TableOf(s), Analysis.DoneOf(s), d)
    ensures SlackOk(p, Analysis.TableOf(s), Analysis.DoneOf(s), d)
  {
    hide Analysis.Consistent, Analysis.TableOf, Analysis.TracesOf, Analysis.DoneOf, Analysed, Traced;
    FinishedAnalysed(p, s);
    var t, done := Analysis.TableOf(s), Analysis.DoneOf(s);
    forall w | w in done && IsLeaf(p, w) && t[w].effect.IsKnown() && !t[w].effect.NoExit()
      ensures t[w].effect.dout - t[w].effect.din <= t[w].maxDataStack + d
    {
      if p[w].body.Interp? {
        Analysis.AnalysedWord(p, t, Analysis.TracesOf(s), done, w);
        PeakNotNegative(t, CodeOf(p, w), Analysis.TracesOf(s)[w]);
      }
    }
  }

  lemma PeakNotNegative(t: seq<Info>, code: seq<Op>, tr: Trace)
    requires Traced(t, code, tr)
    ensures tr.mds >= 0
  {
  }

  lemma DescribedImplemented(g: Gen, img: Image, done: set<nat>)
    requires g.Shape() && g.Describes(img)
    ensures Implemented(g.p, done)
  {
    hide Addr, SelfConsistent, AllEncodable, Gen.SameCode;
    forall w | w in done && w < |g.p| && g.p[w].body.Native?
      ensures g.p[w].ccode.Some?
    {
      assert g.WordLaid(img, w);
    }
  }

  /** So of words made by the builder, compiled with success, with honest C code of which no piece pushes more than d
      elements net: started at any entry point with enough arguments and with stacks of the limits they were compiled
      for (plus d, and a slot to spare if data words are used), they never leave their arrays. */
  lemma BuiltSafe<E(!new)>(p: Program, s: seq<Analysis.Entry>, g: Gen, img: Image, entryPoints: seq<nat>,
                           dsLimit: int, rsLimit: int, d: nat, prim: Prim<E>, w: nat,
                           ds: seq<Cell>, rs: seq<u32>, env: E, hosts: seq<E -> E>)
    requires Built(p) && Compiled(p, s, g, img, entryPoints, dsLimit, rsLimit) && w in entryPoints && IsCode(p, w)
    requires HonestCode(p, s, prim) && NetPushAtMost(p, Analysis.TableOf(s), Analysis.DoneOf(s), d)
    requires s[w].info.effect.din <= |ds|
    requires |ds| + dsLimit + d <= img.dataSize && rsLimit + Spare(p, Analysis.TableOf(s), Analysis.DoneOf(s)) <= |rs|
    ensures |g.slots| == |p| && g.slots[w] >= img.interpreted
    ensures var b := Boot(img, g.slots[w], ds, rs, env);
            b.Next? && Delivered(s[w].info, ds, RunVM(img, prim, hosts, b.s))
  {
    hide Analysis.Consistent, Gen.Shape, Gen.Describes, Boot, RunVM, Delivered, Spare, Closed, Analysed, AllHonour, Implemented, LocalsInRange, SlackOk;
    var t, trs, done := Analysis.TableOf(s), Analysis.TracesOf(s), Analysis.DoneOf(s);
    FinishedAnalysed(p, s);
    EnoughSlack(p, s, d);
    DescribedImplemented(g, img, done);
    ClosedLocals(p, done);
    assert WithinLimits(s, w, dsLimit, rsLimit);
    KnownEffect(p, s, w);
    CompiledSafe(p, s, g, img, entryPoints, dsLimit, rsLimit, d, prim, w, ds, rs, env, hosts);
  }

  lemma KnownEffect(p: Program, s: seq<Analysis.Entry>, w: nat)
    requires Analysis.Consistent(false, p, s) && w in Analysis.DoneOf(s) && w < |p| && p[w].body.Interp?
    ensures |s| == |p| && s[w].info.effect.IsKnown()
  {
    hide Traced;
    Analysis.AnalysedWord(p, Analysis.TableOf(s), Analysis.TracesOf(s), Analysis.DoneOf(s), w);
  }

  /** A compiled program, started at any entry point with enough arguments and with stacks of the limits it was
      compiled for (plus the slack that the two reported maxima leave open), never leaves its arrays. */
  lemma CompiledSafe<E(!new)>(p: Program, s: seq<Analysis.Entry>, g: Gen, img: Image, entryPoints: seq<nat>,
                              dsLimit: int, rsLimit: int, d: nat, prim: Prim<E>, w: nat,
                              ds: seq<Cell>, rs: seq<u32>, env: E, hosts: seq<E -> E>)
    requires Compiled(p, s, g, img, entryPoints, dsLimit, rsLimit) && w in entryPoints && IsCode(p, w)
    requires Sound(p, Analysis.TableOf(s), Analysis.TracesOf(s), Analysis.DoneOf(s), prim, d)
    requires 0 <= s[w].info.effect.din <= |ds|
    requires |ds| + dsLimit + d <= img.dataSize && rsLimit + Spare(p, Analysis.TableOf(s), Analysis.DoneOf(s)) <= |rs|
    ensures |g.slots| == |p| && g.slots[w] >= img.interpreted
    ensures var b := Boot(img, g.slots[w], ds, rs, env);
            b.Next? && Delivered(s[w].info, ds, RunVM(img, prim, hosts, b.s))
  {
    hide Analysis.Consistent, Gen.Describes, Sound, Boot, RunVM, Delivered, SelfConsistent, AllEncodable, Addr, Spare;
    assert WithinLimits(s, w, dsLimit, rsLimit);
    assert Analysis.TableOf(s)[w] == s[w].info;
    SafeRun(p, Analysis.TableOf(s), Analysis.TracesOf(s), Analysis.DoneOf(s), d, prim, g, img, w, ds, rs, env, hosts);
  }
}
