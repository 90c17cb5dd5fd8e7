/** The outcome of the analysis does not depend on the order of the work, nor on how targets are queued. */
module OneResult {
  import opened Bytes
  import opened Machine
  import opened Flow
  import opened AnalyseFlow

  /** Two analyses of the program agree on the words called from opcodes that both have reached. */
  ghost predicate SameCallees(t1: seq<Info>, done1: set<nat>, t2: seq<Info>, done2: set<nat>,
                              code: seq<Op>, sa1: seq<Option<int>>, sa2: seq<Option<int>>)
  {
    |sa1| == |sa2| == |code| && forall k :: 0 <= k < |code| ==> SameCalleeAt(t1, done1, t2, done2, code, sa1, sa2, k)
  }

  predicate SameCalleeAt(t1: seq<Info>, done1: set<nat>, t2: seq<Info>, done2: set<nat>,
                         code: seq<Op>, sa1: seq<Option<int>>, sa2: seq<Option<int>>, k: nat)
    requires k < |code| == |sa1| == |sa2|
  {
    sa1[k].Some? && sa2[k].Some? && code[k].Call? ==>
      var u := code[k].w; u in done1 && u in done2 && u < |t1| && u < |t2| && t1[u] == t2[u]
  }

  lemma SameCalleesSym(t1: seq<Info>, done1: set<nat>, t2: seq<Info>, done2: set<nat>,
                       code: seq<Op>, sa1: seq<Option<int>>, sa2: seq<Option<int>>)
    requires SameCallees(t1, done1, t2, done2, code, sa1, sa2)
    ensures SameCallees(t2, done2, t1, done1, code, sa2, sa1)
  {
    forall k | 0 <= k < |code|
      ensures SameCalleeAt(t2, done2, t1, done1, code, sa2, sa1, k)
    {
      assert SameCalleeAt(t1, done1, t2, done2, code, sa1, sa2, k);
    }
  }

  /** A control path under one analysis is one under the other. */
  lemma {:induction false} PathOver(t1: seq<Info>, done1: set<nat>, tr1: Trace, t2: seq<Info>, done2: set<nat>, tr2: Trace,
                                    code: seq<Op>, path: seq<nat>)
    requires Traced(t1, code, tr1) && Traced(t2, code, tr2)
    requires SameCallees(t1, done1, t2, done2, code, tr1.sa, tr2.sa) && IsPath(t1, done1, code, path)
    ensures IsPath(t2, done2, code, path) && PathAction(t1, code, path) == PathAction(t2, code, path)
    decreases |path|
  {
    hide Traced, Edge, DeltaAt, SameCallees;
    if |path| > 1 {
      var k := Top(Pop(path));
      PathOver(t1, done1, tr1, t2, done2, tr2, code, Pop(path));
      PathTraced(t1, done1, code, tr1, Pop(path));
      PathTraced(t2, done2, code, tr2, Pop(path));
      CalleeAt(t1, done1, t2, done2, code, tr1.sa, tr2.sa, k);
      EdgeOver(t1, done1, t2, done2, code, k, Top(path));
    }
  }

  lemma CalleeAt(t1: seq<Info>, done1: set<nat>, t2: seq<Info>, done2: set<nat>,
                 code: seq<Op>, sa1: seq<Option<int>>, sa2: seq<Option<int>>, k: nat)
    requires SameCallees(t1, done1, t2, done2, code, sa1, sa2) && k < |code|
    ensures |sa1| == |sa2| == |code| && SameCalleeAt(t1, done1, t2, done2, code, sa1, sa2, k)
  {
  }

  lemma EdgeOver(t1: seq<Info>, done1: set<nat>, t2: seq<Info>, done2: set<nat>, code: seq<Op>, a: nat, b: nat)
    requires a < |code| && Edge(t1, done1, code, a, b)
    requires code[a].Call? ==>
      var u := code[a].w; u in done1 && u in done2 && u < |t1| && u < |t2| && t1[u] == t2[u]
    ensures Edge(t2, done2, code, a, b) && DeltaAt(t1, code, a) == DeltaAt(t2, code, a)
  {
  }

  /** What one analysis has reached, the other has reached with the same stack action. */
  lemma SameActions(t1: seq<Info>, done1: set<nat>, tr1: Trace, t2: seq<Info>, done2: set<nat>, tr2: Trace, code: seq<Op>)
    requires Traced(t1, code, tr1) && Traced(t2, code, tr2)
    requires AllReached(t1, done1, code, tr1) && SameCallees(t1, done1, t2, done2, code, tr1.sa, tr2.sa)
    ensures forall k :: 0 <= k < |code| && tr1.sa[k].Some? ==> tr2.sa[k] == tr1.sa[k]
  {
    hide SameCallees;
    forall k | 0 <= k < |code| && tr1.sa[k].Some?
      ensures tr2.sa[k] == tr1.sa[k]
    {
      assert Reached(t1, done1, code, k, tr1.sa[k].value);
      var path :| PathTo(t1, done1, code, path, k, tr1.sa[k].value);
      PathOver(t1, done1, tr1, t2, done2, tr2, code, path);
      PathTraced(t2, done2, code, tr2, path);
    }
  }

  /** The maxima of one analysis cover what makes up those of the other. */
  lemma MaximaCover(t1: seq<Info>, done1: set<nat>, tr1: Trace, t2: seq<Info>, done2: set<nat>, tr2: Trace, code: seq<Op>)
    requires Traced(t1, code, tr1) && Traced(t2, code, tr2) && tr1.sa == tr2.sa
    requires Attained(t1, done1, code, tr1) && SameCallees(t1, done1, t2, done2, code, tr1.sa, tr2.sa)
    ensures tr2.maxDepth <= tr1.maxDepth && tr1.mds <= tr2.mds && tr1.mrs <= tr2.mrs
    ensures tr1.exitSA.Some? ==> tr2.exitSA == tr1.exitSA
  {
    hide SameCallees, OpFollowed;
    forall k: nat | Seen(done1, code, tr1.sa, k)
      ensures OpCovered(t2, code[k], tr2, tr1.sa[k].value) && SameCalleeAt(t1, done1, t2, done2, code, tr1.sa, tr2.sa, k)
    {
      CalleeAt(t1, done1, t2, done2, code, tr1.sa, tr2.sa, k);
      assert OpTraced(t2, code, tr2, k);
    }
    if tr1.maxDepth != 0 {
      var k: nat :| DepthAt(t1, done1, code, tr1.sa, k, tr1.maxDepth);
      assert Seen(done1, code, tr1.sa, k);
    }
    if tr1.mds != 0 {
      var k: nat :| PeakAt(t1, done1, code, tr1.sa, k, tr1.mds);
      assert Seen(done1, code, tr1.sa, k);
    }
    if tr1.mrs != 0 {
      var k: nat :| FramesAt(t1, done1, code, tr1.sa, k, tr1.mrs);
      assert Seen(done1, code, tr1.sa, k);
    }
    if tr1.exitSA.Some? {
      var k: nat :| Seen(done1, code, tr1.sa, k) && code[k].Ret? && tr1.sa[k] == tr1.exitSA;
    }
  }

  /** One word, when its callees are already known to agree: the two traces are the same. */
  lemma SameTrace(t1: seq<Info>, done1: set<nat>, tr1: Trace, t2: seq<Info>, done2: set<nat>, tr2: Trace, code: seq<Op>)
    requires Traced(t1, code, tr1) && AllReached(t1, done1, code, tr1) && Attained(t1, done1, code, tr1)
    requires Traced(t2, code, tr2) && AllReached(t2, done2, code, tr2) && Attained(t2, done2, code, tr2)
    requires SameCallees(t1, done1, t2, done2, code, tr1.sa, tr2.sa)
    ensures tr1 == tr2
  {
    hide AllReached, Attained, OpTraced, SameCallees;
    SameCalleesSym(t1, done1, t2, done2, code, tr1.sa, tr2.sa);
    SameActions(t1, done1, tr1, t2, done2, tr2, code);
    SameActions(t2, done2, tr2, t1, done1, tr1, code);
    assert tr1.sa == tr2.sa;
    MaximaCover(t1, done1, tr1, t2, done2, tr2, code);
    MaximaCover(t2, done2, tr2, t1, done1, tr1, code);
  }

  // ----- whole programs -----

  function Measure(n: int): nat { if n >= 0 then n else 0 }

  lemma Sizes(guarded: bool, p: Program, s: seq<Entry>)
    requires Consistent(guarded, p, s)
    ensures |s| == |p|
  {
  }

  /** Facts about one finished word. */
  lemma Finished(guarded: bool, p: Program, s: seq<Entry>, w: nat)
    requires Consistent(guarded, p, s) && w in DoneOf(s) && w < |p| && p[w].body.Interp?
    ensures var t, done, code, tr := TableOf(s), DoneOf(s), CodeOf(p, w), TracesOf(s)[w];
            && Traced(t, code, tr) && AllReached(t, done, code, tr) && Attained(t, done, code, tr)
            && t[w] == Info(FinalEffect(p[w].declared, tr), tr.mds, 1 + NumLocals(p, w) + tr.mrs)
  {
    hide AllReached, Attained, Traced;
    AnalysedWord(p, TableOf(s), TracesOf(s), DoneOf(s), w);
  }

  lemma FinishedLeaf(guarded: bool, p: Program, s: seq<Entry>, w: nat)
    requires Consistent(guarded, p, s) && w in DoneOf(s) && w < |p| && !p[w].body.Interp?
    ensures TableOf(s)[w] == DefaultInfo(if p[w].body.Data? then SType(0, 1) else p[w].declared)
  {
    hide Traced;
    AnalysedWord(p, TableOf(s), TracesOf(s), DoneOf(s), w);
  }

  /** A call that both analyses have reached is to a word that both have analysed, lower down in the call graph. */
  lemma CalleeLower(g1: bool, g2: bool, p: Program, s1: seq<Entry>, s2: seq<Entry>, w: nat, k: nat)
    requires Consistent(g1, p, s1) && Consistent(g2, p, s2) && w in DoneOf(s1) && w in DoneOf(s2) && w < |p| && p[w].body.Interp?
    requires k < |CodeOf(p, w)| && CodeOf(p, w)[k].Call?
    requires k < |TracesOf(s1)[w].sa| && TracesOf(s1)[w].sa[k].Some? && k < |TracesOf(s2)[w].sa| && TracesOf(s2)[w].sa[k].Some?
    ensures var u := CodeOf(p, w)[k].w;
            && u in DoneOf(s1) && u in DoneOf(s2) && u < |p|
            && Measure(TableOf(s1)[u].maxReturnStack) < Measure(TableOf(s1)[w].maxReturnStack)
  {
    hide AllReached, Attained, Consistent, OpFollowed;
    Sizes(g1, p, s1);
    Sizes(g2, p, s2);
    Finished(g1, p, s1, w);
    Finished(g2, p, s2, w);
    var t, tr := TableOf(s1), TracesOf(s1)[w];
    ReachedDone(t, DoneOf(s1), CodeOf(p, w), tr, k);
    ReachedDone(TableOf(s2), DoneOf(s2), CodeOf(p, w), TracesOf(s2)[w], k);
    assert OpTraced(t, CodeOf(p, w), tr, k);
  }

  lemma ReachedDone(t: seq<Info>, done: set<nat>, code: seq<Op>, tr: Trace, k: nat)
    requires AllReached(t, done, code, tr) && k < |code| && k < |tr.sa| && tr.sa[k].Some? && code[k].Call?
    ensures code[k].w in done
  {
  }

  /** Whatever words two analyses started from, in whatever order, guarded or as coded: a word that both
      have finished has the same effect, the same two maxima and the same stack actions in both. */
  lemma {:induction false} SameResult(g1: bool, g2: bool, p: Program, s1: seq<Entry>, s2: seq<Entry>, w: nat)
    requires Consistent(g1, p, s1) && Consistent(g2, p, s2) && w in DoneOf(s1) && w in DoneOf(s2) && w < |p|
    ensures TableOf(s1)[w] == TableOf(s2)[w]
    ensures p[w].body.Interp? ==> TracesOf(s1)[w] == TracesOf(s2)[w]
    decreases Measure(TableOf(s1)[w].maxReturnStack)
  {
    hide Consistent, AllReached, Attained, Traced, TableOf, TracesOf, DoneOf;
    Sizes(g1, p, s1);
    Sizes(g2, p, s2);
    if p[w].body.Interp? {
      var code, tr1, tr2 := CodeOf(p, w), TracesOf(s1)[w], TracesOf(s2)[w];
      Finished(g1, p, s1, w);
      Finished(g2, p, s2, w);
      TracedSize(TableOf(s1), code, tr1);
      TracedSize(TableOf(s2), code, tr2);
      forall k | 0 <= k < |code|
        ensures SameCalleeAt(TableOf(s1), DoneOf(s1), TableOf(s2), DoneOf(s2), code, tr1.sa, tr2.sa, k)
      {
        if tr1.sa[k].Some? && tr2.sa[k].Some? && code[k].Call? {
          CalleeLower(g1, g2, p, s1, s2, w, k);
          SameResult(g1, g2, p, s1, s2, code[k].w);
        }
      }
      SameTrace(TableOf(s1), DoneOf(s1), tr1, TableOf(s2), DoneOf(s2), tr2, code);
    } else {
      FinishedLeaf(g1, p, s1, w);
      FinishedLeaf(g2, p, s2, w);
    }
  }

  lemma TracedSize(t: seq<Info>, code: seq<Op>, tr: Trace)
    requires Traced(t, code, tr)
    ensures |tr.sa| == |code|
  {
  }

  // ----- an analysis that has succeeded once always succeeds -----

  /** A control path found during any other analysis is one of the finished analysis too. */
  lemma {:induction false} PathInto(g1: bool, g2: bool, p: Program, s1: seq<Entry>, s2: seq<Entry>, v: nat, path: seq<nat>)
    requires Consistent(g1, p, s1) && Consistent(g2, p, s2) && v in DoneOf(s1) && v < |p| && p[v].body.Interp?
    requires IsPath(TableOf(s2), DoneOf(s2), CodeOf(p, v), path)
    ensures v < |s1| && |TracesOf(s1)[v].sa| == |CodeOf(p, v)|
    ensures IsPath(TableOf(s1), DoneOf(s1), CodeOf(p, v), path) && Top(path) < |CodeOf(p, v)|
    ensures TracesOf(s1)[v].sa[Top(path)] == Some(PathAction(TableOf(s2), CodeOf(p, v), path))
    ensures PathAction(TableOf(s1), CodeOf(p, v), path) == PathAction(TableOf(s2), CodeOf(p, v), path)
    decreases |path|
  {
    hide Consistent, AllReached, Attained, Traced, TableOf, TracesOf, DoneOf, Edge, DeltaAt;
    Sizes(g1, p, s1);
    Sizes(g2, p, s2);
    Finished(g1, p, s1, v);
    TracedSize(TableOf(s1), CodeOf(p, v), TracesOf(s1)[v]);
    if |path| > 1 {
      var k := Top(Pop(path));
      PathInto(g1, g2, p, s1, s2, v, Pop(path));
      CallEdge(TableOf(s2), DoneOf(s2), CodeOf(p, v), k, Top(path));
      if CodeOf(p, v)[k].Call? {
        ReachedDone(TableOf(s1), DoneOf(s1), CodeOf(p, v), TracesOf(s1)[v], k);
        SameResult(g2, g1, p, s2, s1, CodeOf(p, v)[k].w);
      }
      EdgeOver(TableOf(s2), DoneOf(s2), TableOf(s1), DoneOf(s1), CodeOf(p, v), k, Top(path));
    }
    PathTraced(TableOf(s1), DoneOf(s1), CodeOf(p, v), TracesOf(s1)[v], path);
  }

  lemma CallEdge(t: seq<Info>, done: set<nat>, code: seq<Op>, a: nat, b: nat)
    requires Edge(t, done, code, a, b)
    ensures a < |code| && b < |code| && (code[a].Call? ==> code[a].w in done && code[a].w < |t|)
  {
  }

  /** So evidence against a word agrees with its finished analysis. */
  lemma EvidenceAgrees(g1: bool, g2: bool, p: Program, s1: seq<Entry>, v: nat, k: nat, c: int, t: seq<Info>, trs: seq<Trace>, done: set<nat>)
    returns (s2: seq<Entry>)
    requires Consistent(g1, p, s1) && v in DoneOf(s1) && v < |p|
    requires Evidence(g2, p, v, k, c, t, trs, done)
    ensures p[v].body.Interp? && v < |s1| && |TracesOf(s1)[v].sa| == |CodeOf(p, v)|
    ensures k < |CodeOf(p, v)| && TracesOf(s1)[v].sa[k] == Some(c)
    ensures IsState(g2, p, s2, t, trs, done)
  {
    hide Consistent, TableOf, TracesOf, DoneOf, PathAction;
    s2 :| IsState(g2, p, s2, t, trs, done);
    var path :| PathTo(t, done, CodeOf(p, v), path, k, c);
    PathInto(g1, g2, p, s1, s2, v, path);
  }

  /** Calls reached in any analysis are reached in the finished one, and lead further down. */
  lemma CallAgrees(g1: bool, g2: bool, p: Program, s1: seq<Entry>, v: nat, u: nat)
    requires Consistent(g1, p, s1) && v in DoneOf(s1) && v < |p| && ReachedCall(g2, p, v, u)
    ensures |s1| == |p| && u in DoneOf(s1) && u < |p|
    ensures TableOf(s1)[u].effect.IsKnown()
    ensures Measure(TableOf(s1)[u].maxReturnStack) < Measure(TableOf(s1)[v].maxReturnStack)
  {
    hide Consistent, AllReached, Attained, TableOf, TracesOf, DoneOf, OpFollowed, Evidence;
    Sizes(g1, p, s1);
    var k: nat, c, t, trs, done :| Evidence(g2, p, v, k, c, t, trs, done) && k < |CodeOf(p, v)| && CodeOf(p, v)[k] == Call(u);
    var s2 := EvidenceAgrees(g1, g2, p, s1, v, k, c, t, trs, done);
    Finished(g1, p, s1, v);
    ReachedDone(TableOf(s1), DoneOf(s1), CodeOf(p, v), TracesOf(s1)[v], k);
    assert OpTraced(TableOf(s1), CodeOf(p, v), TracesOf(s1)[v], k);
  }

  /** Along a chain of reached calls from a finished word all words are finished, each lower than the one before. */
  lemma {:induction false} ChainAgrees(g1: bool, g2: bool, p: Program, s1: seq<Entry>, full: seq<nat>)
    requires Consistent(g1, p, s1) && CallChain(g2, p, full) && full != [] && full[0] in DoneOf(s1) && full[0] < |p|
    ensures |s1| == |p| && forall i :: 0 <= i < |full| ==> full[i] in DoneOf(s1) && full[i] < |p|
    ensures forall i :: 0 <= i < |full| - 1 ==>
      Measure(TableOf(s1)[Top(full)].maxReturnStack) < Measure(TableOf(s1)[full[i]].maxReturnStack)
    ensures Top(full) !in Pop(full)
    decreases |full|
  {
    hide Consistent, ReachedCall, TableOf, TracesOf, DoneOf;
    Sizes(g1, p, s1);
    if |full| > 1 {
      ChainAgrees(g1, g2, p, s1, Pop(full));
      CallAgrees(g1, g2, p, s1, Top(Pop(full)), Top(full));
    }
  }

  /** No failure can be justified in a word whose analysis has succeeded, but that the queue is full. */
  lemma NoFailure(g1: bool, g2: bool, p: Program, s1: seq<Entry>, v: nat, r: Outcome)
    requires Consistent(g1, p, s1) && v in DoneOf(s1) && v < |p|
    requires Justified(g2, p, r) && EndsAt(r, v)
    ensures r.QueueFull? && !g2
  {
    hide Consistent, AllReached, Attained, TableOf, TracesOf, DoneOf, Evidence, ReachedCall;
    Sizes(g1, p, s1);
    match r
    case UnknownEffect(_, u) =>
      CallAgrees(g1, g2, p, s1, v, u);
      FinishedLeaf(g1, p, s1, u);
    case Mismatch(_, k) =>
      var c1, c2, t, trs, done :| c1 != c2 && Evidence(g2, p, v, k, c1, t, trs, done) && Evidence(g2, p, v, k, c2, t, trs, done);
      var s2 := EvidenceAgrees(g1, g2, p, s1, v, k, c1, t, trs, done);
      s2 := EvidenceAgrees(g1, g2, p, s1, v, k, c2, t, trs, done);
    case ExitMismatch(_) => NoTwoExits(g1, g2, p, s1, v);
    case OutOfCode(_) => NoRunOff(g1, g2, p, s1, v);
    case NotSubEffect(_) => NotWrong(g1, g2, p, s1, v);
    case _ =>
  }

  lemma NoTwoExits(g1: bool, g2: bool, p: Program, s1: seq<Entry>, v: nat)
    requires Consistent(g1, p, s1) && v in DoneOf(s1) && v < |p|
    ensures !AmbiguousExit(g2, p, v)
  {
    hide Consistent, AllReached, Attained, TableOf, TracesOf, DoneOf, Evidence;
    Sizes(g1, p, s1);
    forall k1: nat, k2: nat, c1, c2, t, trs, done
      | Evidence(g2, p, v, k1, c1, t, trs, done) && Evidence(g2, p, v, k2, c2, t, trs, done)
        && k1 < |CodeOf(p, v)| && k2 < |CodeOf(p, v)| && CodeOf(p, v)[k1].Ret? && CodeOf(p, v)[k2].Ret?
      ensures c1 == c2
    {
      var s2 := EvidenceAgrees(g1, g2, p, s1, v, k1, c1, t, trs, done);
      s2 := EvidenceAgrees(g1, g2, p, s1, v, k2, c2, t, trs, done);
      Finished(g1, p, s1, v);
      assert OpTraced(TableOf(s1), CodeOf(p, v), TracesOf(s1)[v], k1);
      assert OpTraced(TableOf(s1), CodeOf(p, v), TracesOf(s1)[v], k2);
    }
  }

  lemma NoRunOff(g1: bool, g2: bool, p: Program, s1: seq<Entry>, v: nat)
    requires Consistent(g1, p, s1) && v in DoneOf(s1) && v < |p|
    ensures !RunsOff(g2, p, v)
  {
    hide Consistent, AllReached, Attained, TableOf, TracesOf, DoneOf, Evidence;
    Sizes(g1, p, s1);
    var code := CodeOf(p, v);
    if p[v].body.Interp? {
      Finished(g1, p, s1, v);
      forall k: nat, c, t, trs, done | Evidence(g2, p, v, k, c, t, trs, done) && k < |code|
        ensures !LeavesFrom(t, done, code, k)
      {
        var s2 := EvidenceAgrees(g1, g2, p, s1, v, k, c, t, trs, done);
        assert OpTraced(TableOf(s1), code, TracesOf(s1)[v], k);
        if code[k].Call? && code[k].w in done {
          ReachedDone(TableOf(s1), DoneOf(s1), code, TracesOf(s1)[v], k);
          Sizes(g2, p, s2);
          SameResult(g2, g1, p, s2, s1, code[k].w);
        }
      }
    }
  }

  lemma NotWrong(g1: bool, g2: bool, p: Program, s1: seq<Entry>, v: nat)
    requires Consistent(g1, p, s1) && v in DoneOf(s1) && v < |p|
    ensures !WronglyDeclared(g2, p, v)
  {
    hide Consistent, AllReached, Attained, TableOf, TracesOf, DoneOf, Traced, OpTraced;
    Sizes(g1, p, s1);
    forall t, trs, done, tr
      ensures !Contradicts(g2, p, v, t, trs, done, tr)
    {
      if Contradicts(g2, p, v, t, trs, done, tr) {
        SameAsFinished(g1, g2, p, s1, v, t, trs, done, tr);
        DeclaredHolds(g1, p, s1, v);
      }
    }
  }

  lemma SameAsFinished(g1: bool, g2: bool, p: Program, s1: seq<Entry>, v: nat, t: seq<Info>, trs: seq<Trace>, done: set<nat>, tr: Trace)
    requires Consistent(g1, p, s1) && v in DoneOf(s1) && v < |p|
    requires Genuine(g2, p, t, trs, done) && Traced(t, CodeOf(p, v), tr)
    requires AllReached(t, done, CodeOf(p, v), tr) && Attained(t, done, CodeOf(p, v), tr)
    ensures |s1| == |p| && p[v].body.Interp? && tr == TracesOf(s1)[v]
  {
    hide Consistent, AllReached, Attained, TableOf, TracesOf, DoneOf, OpTraced;
    Sizes(g1, p, s1);
    var code := CodeOf(p, v);
    assert p[v].body.Interp?;
    Finished(g1, p, s1, v);
    hide Traced;
    TracedSize(t, code, tr);
    TracedSize(TableOf(s1), code, TracesOf(s1)[v]);
    var s2 :| IsState(g2, p, s2, t, trs, done);
    Sizes(g2, p, s2);
    forall k | 0 <= k < |code|
      ensures SameCalleeAt(t, done, TableOf(s1), DoneOf(s1), code, tr.sa, TracesOf(s1)[v].sa, k)
    {
      if tr.sa[k].Some? && TracesOf(s1)[v].sa[k].Some? && code[k].Call? {
        ReachedDone(t, done, code, tr, k);
        ReachedDone(TableOf(s1), DoneOf(s1), code, TracesOf(s1)[v], k);
        DoneInRange(g1, p, s1, code[k].w);
        SameResult(g2, g1, p, s2, s1, code[k].w);
      }
    }
    SameTrace(t, done, tr, TableOf(s1), DoneOf(s1), TracesOf(s1)[v], code);
  }

  lemma DoneInRange(g: bool, p: Program, s: seq<Entry>, u: nat)
    requires Consistent(g, p, s) && u in DoneOf(s)
    ensures u < |p| == |s|
  {
  }

  lemma DeclaredHolds(g: bool, p: Program, s: seq<Entry>, v: nat)
    requires Consistent(g, p, s) && v in DoneOf(s) && v < |p| && p[v].body.Interp? && p[v].declared.IsKnown()
    ensures |s| == |p| && Computed(TracesOf(s)[v]).IsSubOf(p[v].declared)
  {
    hide Traced, AllReached, Attained;
    AnalysedWord(p, TableOf(s), TracesOf(s), DoneOf(s), v);
  }

  /** Once the analysis of a word has succeeded, no analysis of it fails, whatever else was analysed before and in
      whatever order; as coded, but for a full queue; with guarded queueing, without exception. */
  lemma SucceedsAgain(g1: bool, g2: bool, p: Program, s1: seq<Entry>, w: nat, r: Outcome)
    requires Consistent(g1, p, s1) && w in DoneOf(s1) && w < |p|
    requires Justified(g2, p, r) && Located(g2, p, [w], r)
    ensures r == Done || (r.QueueFull? && !g2)
  {
    hide Consistent, Justified, CallChain, TableOf, DoneOf, Measure;
    if r != Done {
      var start: seq<nat> := [w];
      var full: seq<nat> :| LeadsTo(g2, p, start, full, r);
      assert full[0] == w;
      ChainAgrees(g1, g2, p, s1, full);
      if r != Recursive {
        NoFailure(g1, g2, p, s1, Top(full), r);
      }
    }
  }
}
