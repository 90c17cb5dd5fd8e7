/** When the analysis as coded fails for want of room in its queue: exactly when the word, or a word that it leads
    to, has too much work for the queue. */
module QueueLimit {
  import opened Bytes
  import opened Machine
  import opened Flow
  import opened Traversal
  import opened TargetQueue
  import opened AnalyseFlow
  import opened OneResult

  /** What is met in the order has been reached by the analysis. */
  lemma {:induction false} MetTraced(t: seq<Info>, code: seq<Op>, tr: Trace, n: nat)
    requires Traced(t, code, tr)
    ensures |tr.sa| == |code| && forall k :: k in After(t, code, n).seen ==> k < |code| && tr.sa[k].Some?
    decreases n
  {
    hide Traced, Advance;
    TracedStart(t, code, tr);
    if n > 0 {
      MetTraced(t, code, tr, n - 1);
      AfterInOrder(t, code, n - 1);
      AdvanceTraced(t, code, tr, After(t, code, n - 1));
    }
  }

  lemma AdvanceTraced(t: seq<Info>, code: seq<Op>, tr: Trace, x: Walk)
    requires Traced(t, code, tr) && InOrder(code, x) && forall k :: k in x.seen ==> tr.sa[k].Some?
    ensures forall k :: k in Advance(t, code, x).seen ==> k < |code| && tr.sa[k].Some?
  {
    hide OpCovered;
    if x.agenda != [] {
      assert x.agenda[0] in x.agenda;
      assert OpTraced(t, code, tr, x.agenda[0]);
    }
  }

  /** An unfinished exploration goes the way of the finished one. */
  lemma {:induction false} SameOrder(g1: bool, g2: bool, p: Program, s1: seq<Entry>, s2: seq<Entry>, v: nat, n: nat)
    requires Consistent(g1, p, s1) && Consistent(g2, p, s2) && v in DoneOf(s1) && v < |p| && p[v].body.Interp?
    requires CallsKnown(TableOf(s2), DoneOf(s2), CodeOf(p, v), n)
    ensures After(TableOf(s1), CodeOf(p, v), n) == After(TableOf(s2), CodeOf(p, v), n)
    decreases n
  {
    hide Consistent, AllReached, Attained, Traced, TableOf, TracesOf, DoneOf, NextAgrees, Advance;
    if n > 0 {
      SameOrder(g1, g2, p, s1, s2, v, n - 1);
      assert NextKnown(DoneOf(s2), CodeOf(p, v), After(TableOf(s2), CodeOf(p, v), n - 1));
      NextSame(g1, g2, p, s1, s2, v, n - 1);
      AdvanceAgrees(TableOf(s1), TableOf(s2), CodeOf(p, v), After(TableOf(s1), CodeOf(p, v), n - 1));
    }
  }

  lemma AdvanceAgrees(t: seq<Info>, t': seq<Info>, code: seq<Op>, x: Walk)
    requires NextAgrees(t, t', code, x)
    ensures Advance(t, code, x) == Advance(t', code, x)
  {
  }

  lemma FirstInCode(code: seq<Op>, x: Walk)
    requires InOrder(code, x)
    ensures x.agenda != [] ==> x.agenda[0] in x.seen && x.agenda[0] < |code|
  {
  }

  lemma NextSame(g1: bool, g2: bool, p: Program, s1: seq<Entry>, s2: seq<Entry>, v: nat, n: nat)
    requires Consistent(g1, p, s1) && Consistent(g2, p, s2) && v in DoneOf(s1) && v < |p| && p[v].body.Interp?
    requires NextKnown(DoneOf(s2), CodeOf(p, v), After(TableOf(s1), CodeOf(p, v), n))
    ensures NextAgrees(TableOf(s1), TableOf(s2), CodeOf(p, v), After(TableOf(s1), CodeOf(p, v), n))
  {
    hide Consistent, AllReached, Attained, Traced, TableOf, TracesOf, DoneOf, After;
    var code, x := CodeOf(p, v), After(TableOf(s1), CodeOf(p, v), n);
    Sizes(g1, p, s1);
    Finished(g1, p, s1, v);
    TracedStart(TableOf(s1), code, TracesOf(s1)[v]);
    MetTraced(TableOf(s1), code, TracesOf(s1)[v], n);
    AfterInOrder(TableOf(s1), code, n);
    FirstInCode(code, x);
    if x.agenda != [] && code[x.agenda[0]].Call? {
      var u := code[x.agenda[0]].w;
      ReachedDone(TableOf(s1), DoneOf(s1), code, TracesOf(s1)[v], x.agenda[0]);
      DoneInRange(g1, p, s1, u);
      Sizes(g2, p, s2);
      SameResult(g1, g2, p, s1, s2, u);
    }
  }

  // ----- the words that a word leads to -----

  /** The finished analysis of word v has reached a call to word u. */
  ghost predicate CallsIn(p: Program, s: seq<Entry>, v: nat, u: nat) {
    exists k: nat :: v < |s| && k < |CodeOf(p, v)| && k < |TracesOf(s)[v].sa| && TracesOf(s)[v].sa[k].Some? && CodeOf(p, v)[k] == Call(u)
  }

  ghost predicate CallPath(p: Program, s: seq<Entry>, path: seq<nat>)
    decreases |path|
  {
    path != [] && (|path| > 1 ==> CallPath(p, s, Pop(path)) && CallsIn(p, s, Top(Pop(path)), Top(path)))
  }

  /** Word v is w, or called from it, or from a word called from it, and so on. */
  ghost predicate LeadsToWord(p: Program, s: seq<Entry>, w: nat, v: nat) {
    exists path: seq<nat> :: CallPath(p, s, path) && path[0] == w && Top(path) == v
  }

  lemma CalleeDone(g: bool, p: Program, s: seq<Entry>, v: nat, k: nat, u: nat)
    requires Consistent(g, p, s) && v in DoneOf(s) && v < |p|
    requires |s| == |p| && k < |CodeOf(p, v)| && k < |TracesOf(s)[v].sa| && TracesOf(s)[v].sa[k].Some? && CodeOf(p, v)[k] == Call(u)
    ensures u in DoneOf(s) && u < |p|
  {
    hide Consistent, AllReached, Attained, Traced, TableOf, TracesOf, DoneOf;
    Finished(g, p, s, v);
    ReachedDone(TableOf(s), DoneOf(s), CodeOf(p, v), TracesOf(s)[v], k);
    DoneInRange(g, p, s, u);
  }

  /** Two finished analyses lead to the same words. */
  lemma {:induction false} PathDone(g1: bool, g2: bool, p: Program, s1: seq<Entry>, s2: seq<Entry>, path: seq<nat>)
    requires Consistent(g1, p, s1) && Consistent(g2, p, s2) && CallPath(p, s1, path)
    requires path[0] in DoneOf(s1) && path[0] in DoneOf(s2) && path[0] < |p|
    ensures Top(path) in DoneOf(s1) && Top(path) in DoneOf(s2) && Top(path) < |p|
    decreases |path|
  {
    hide Consistent, TableOf, TracesOf, DoneOf;
    if |path| > 1 {
      var v, u := Top(Pop(path)), Top(path);
      PathDone(g1, g2, p, s1, s2, Pop(path));
      var k: nat :| v < |s1| && k < |CodeOf(p, v)| && k < |TracesOf(s1)[v].sa| && TracesOf(s1)[v].sa[k].Some? && CodeOf(p, v)[k] == Call(u);
      Sizes(g2, p, s2);
      Sizes(g1, p, s1);
      SameResult(g1, g2, p, s1, s2, v);
      CalleeDone(g1, p, s1, v, k, u);
      CalleeDone(g2, p, s2, v, k, u);
    }
  }

  /** A call that any analysis reaches, the finished one has reached. */
  lemma CallFound(g1: bool, g2: bool, p: Program, s1: seq<Entry>, v: nat, u: nat)
    requires Consistent(g1, p, s1) && v in DoneOf(s1) && v < |p| && ReachedCall(g2, p, v, u)
    ensures CallsIn(p, s1, v, u)
  {
    hide Consistent, TableOf, TracesOf, DoneOf, Evidence;
    var k: nat, c, t, trs, done :| Evidence(g2, p, v, k, c, t, trs, done) && k < |CodeOf(p, v)| && CodeOf(p, v)[k] == Call(u);
    var s2 := EvidenceAgrees(g1, g2, p, s1, v, k, c, t, trs, done);
  }

  lemma {:induction false} ChainFound(g1: bool, g2: bool, p: Program, s1: seq<Entry>, full: seq<nat>)
    requires Consistent(g1, p, s1) && CallChain(g2, p, full) && full != [] && full[0] in DoneOf(s1) && full[0] < |p|
    ensures CallPath(p, s1, full)
    decreases |full|
  {
    hide Consistent, ReachedCall, CallsIn, DoneOf;
    if |full| > 1 {
      ChainFound(g1, g2, p, s1, Pop(full));
      ChainAgrees(g1, g2, p, s1, Pop(full));
      CallFound(g1, g2, p, s1, Top(Pop(full)), Top(full));
    }
  }

  // ----- exactly when -----

  lemma CodedWordFits(g1: bool, p: Program, s1: seq<Entry>, s2: seq<Entry>, v: nat)
    requires Consistent(g1, p, s1) && Consistent(false, p, s2) && v in DoneOf(s1) && v in DoneOf(s2) && v < |p|
    ensures !Overfull(TableOf(s1), CodeOf(p, v))
  {
    hide Consistent, TableOf, DoneOf, After, CallsKnown;
    if p[v].body.Interp? {
      FinishedQueue(p, s2, v);
      SameOrder(g1, false, p, s1, s2, v, |CodeOf(p, v)|);
    } else {
      FewJumps(TableOf(s1), []);
    }
  }

  lemma FinishedQueue(p: Program, s: seq<Entry>, v: nat)
    requires Consistent(false, p, s) && v in DoneOf(s) && v < |p| && p[v].body.Interp?
    ensures QueueFits(false, TableOf(s), DoneOf(s), CodeOf(p, v))
  {
    hide Traced, AllReached, Attained, QueueFits;
    AnalysedWord(p, TableOf(s), TracesOf(s), DoneOf(s), v);
  }

  lemma FullQueueWord(g1: bool, p: Program, s1: seq<Entry>, v: nat)
    requires Consistent(g1, p, s1) && v in DoneOf(s1) && v < |p| && Justified(false, p, QueueFull(v))
    ensures Overfull(TableOf(s1), CodeOf(p, v))
  {
    hide Consistent, TableOf, TracesOf, DoneOf, After, CallsKnown, Genuine;
    var t, trs, done, n :| ManyTargets(p, v, t, trs, done, n);
    var code := CodeOf(p, v);
    SomeTargets(t, done, code, n);
    var s2 := StateOf(p, t, trs, done);
    SameOrder(g1, false, p, s1, s2, v, n);
    AfterMore(TableOf(s1), code, n, |code|);
  }

  lemma StateOf(p: Program, t: seq<Info>, trs: seq<Trace>, done: set<nat>) returns (s: seq<Entry>)
    requires Genuine(false, p, t, trs, done)
    ensures Consistent(false, p, s) && t == TableOf(s) && trs == TracesOf(s) && done == DoneOf(s)
  {
    hide Consistent;
    s :| IsState(false, p, s, t, trs, done);
  }

  /** A word that can be analysed at all, that is with guarded queueing (or as coded, in whatever order): as
      coded, its analysis succeeds if and only if no word that it leads to is overfull, and it fails for no
      other reason. `r` and `s2` are what the analysis as coded promises of its outcome. */
  lemma CodedExactly(g1: bool, p: Program, s1: seq<Entry>, w: nat, r: Outcome, s2: seq<Entry>)
    requires Consistent(g1, p, s1) && w in DoneOf(s1) && w < |p|
    requires Justified(false, p, r) && Located(false, p, [w], r)
    requires r.Done? ==> Consistent(false, p, s2) && w in DoneOf(s2)
    ensures r.Done? <==> forall v :: LeadsToWord(p, s1, w, v) ==> !Overfull(TableOf(s1), CodeOf(p, v))
    ensures !r.Done? ==> r.QueueFull? && LeadsToWord(p, s1, w, r.word) && Overfull(TableOf(s1), CodeOf(p, r.word))
  {
    hide Consistent, Justified, TableOf, DoneOf, Overfull, CallChain, CallsIn;
    if r.Done? {
      forall v | LeadsToWord(p, s1, w, v)
        ensures !Overfull(TableOf(s1), CodeOf(p, v))
      {
        var path: seq<nat> :| CallPath(p, s1, path) && path[0] == w && Top(path) == v;
        PathDone(g1, false, p, s1, s2, path);
        CodedWordFits(g1, p, s1, s2, v);
      }
    } else {
      SucceedsAgain(g1, false, p, s1, w, r);
      var start: seq<nat> := [w];
      var full: seq<nat> :| LeadsTo(false, p, start, full, r);
      assert full[0] == w;
      ChainFound(g1, false, p, s1, full);
      ChainAgrees(g1, false, p, s1, full);
      FullQueueWord(g1, p, s1, r.word);
    }
  }

  /** So a program in whose words all chains of jumps together are no longer than the word is accepted. */
  lemma FewJumpsAccepted(g1: bool, p: Program, s1: seq<Entry>, w: nat, r: Outcome)
    requires Consistent(g1, p, s1) && w in DoneOf(s1) && w < |p|
    requires Justified(false, p, r) && Located(false, p, [w], r)
    requires forall v :: 0 <= v < |p| ==> Work(CodeOf(p, v), Opcodes(|CodeOf(p, v)|)) <= |CodeOf(p, v)|
    ensures r == Done
  {
    hide Consistent, Justified, TableOf, DoneOf, CallChain, Work;
    if !r.Done? {
      SucceedsAgain(g1, false, p, s1, w, r);
      var start: seq<nat> := [w];
      var full: seq<nat> :| LeadsTo(false, p, start, full, r);
      assert full[0] == w;
      ChainAgrees(g1, false, p, s1, full);
      FullQueueWord(g1, p, s1, r.word);
      FewJumps(TableOf(s1), CodeOf(p, r.word));
    }
  }

  // ----- circles of jumps -----

  lemma {:induction false} PathMet(t: seq<Info>, done: set<nat>, code: seq<Op>, path: seq<nat>)
    requires IsPath(t, done, code, path)
    ensures Top(path) in After(t, code, |code|).seen
    decreases |path|
  {
    hide After, Edge;
    AfterFollowed(t, code, |code|);
    if |path| > 1 {
      PathMet(t, done, code, Pop(path));
      Complete(t, code, Top(Pop(path)));
      EdgeMet(t, done, code, Top(Pop(path)), Top(path), After(t, code, |code|).seen);
    }
  }

  lemma EdgeMet(t: seq<Info>, done: set<nat>, code: seq<Op>, a: nat, b: nat, seen: set<nat>)
    requires Edge(t, done, code, a, b) && Followed(t, code, seen, a)
    ensures b in seen
  {
  }

  /** A word in which control can reach a jump that leads back to itself, over jumps alone, is overfull: such a
      word is never accepted as coded, however well typed it is. */
  lemma JumpCircle(g1: bool, p: Program, s1: seq<Entry>, v: nat, k: nat, m: nat)
    requires Consistent(g1, p, s1) && v in DoneOf(s1) && v < |p|
    requires |s1| == |p| && k < |CodeOf(p, v)| && k < |TracesOf(s1)[v].sa| && TracesOf(s1)[v].sa[k].Some?
    requires m > 0 && JumpsTo(CodeOf(p, v), m, k, k)
    ensures Overfull(TableOf(s1), CodeOf(p, v))
  {
    hide Consistent, Attained, Traced, TableOf, TracesOf, DoneOf, Overfull, JumpsTo, After;
    var t, done, code := TableOf(s1), DoneOf(s1), CodeOf(p, v);
    Finished(g1, p, s1, v);
    var path :| PathTo(t, done, code, path, k, TracesOf(s1)[v].sa[k].value);
    PathMet(t, done, code, path);
    CircleOverfull(t, code, m, k);
  }
}
