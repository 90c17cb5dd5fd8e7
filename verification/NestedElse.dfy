/** Conditionals nested in the first branch of others: loop-free and well typed, and yet, from eight levels on, too
    much for the queue of the analysis. */
module NestedElse {
  import opened Bytes
  import opened Machine
  import opened Flow
  import opened Traversal
  import opened TargetQueue
  import opened AnalyseFlow
  import opened QueueLimit
  import S = Structured

  const ONE := S.Simple(Const(1))

  /** 1 if ... 1 if 1 else 1 then ... else 1 then, with d conditionals. */
  function Nest(d: nat): S.Stmt {
    if d == 0 then ONE else S.Seq(ONE, S.IfElse(true, Nest(d - 1), ONE))
  }

  /** Literals at even places; at odd places first the jumps of `if`, then those of `else`. */
  predicate OpAt(d: nat, k: nat, op: Op) {
    if k % 2 == 0 then op == Const(1)
    else if k < 2 * d then op == Jump(IfFalse, 4 * d - 2 * k)
    else op == Jump(Always, 1)
  }

  predicate NestCode(d: nat, code: seq<Op>) {
    |code| == 4 * d + 1 && forall k :: 0 <= k < |code| ==> OpAt(d, k, code[k])
  }

  lemma OneLevel(d: nat, inner: seq<Op>)
    requires d > 0 && NestCode(d - 1, inner)
    ensures NestCode(d, [Const(1)] + ([Jump(IfFalse, |inner| + 1)] + inner + [Jump(Always, 1)] + [Const(1)]))
  {
    var code := [Const(1)] + ([Jump(IfFalse, |inner| + 1)] + inner + [Jump(Always, 1)] + [Const(1)]);
    forall k | 0 <= k < |code|
      ensures OpAt(d, k, code[k])
    {
      if 2 <= k < 2 + |inner| {
        assert code[k] == inner[k - 2];
        assert OpAt(d - 1, k - 2, inner[k - 2]);
      }
    }
  }

  lemma FlatOne()
    ensures NestCode(0, S.Flat(ONE)) && S.NoRawJumps(ONE)
  {
  }

  lemma {:induction false} FlatNest(d: nat)
    ensures NestCode(d, S.Flat(Nest(d))) && S.NoRawJumps(Nest(d))
    decreases d
  {
    hide NestCode;
    if d == 0 {
      FlatOne();
    } else {
      FlatNest(d - 1);
      var inner := S.Flat(Nest(d - 1));
      assert S.Flat(Nest(d)) == [Const(1)] + S.Flat(S.IfElse(true, Nest(d - 1), ONE));
      assert S.Flat(ONE) == [Const(1)];
      assert S.Flat(Nest(d)) == [Const(1)] + ([Jump(IfFalse, |inner| + 1)] + inner + [Jump(Always, 1)] + [Const(1)]);
      OneLevel(d, inner);
    }
  }

  function Code(d: nat): seq<Op> {
    S.Flat(Nest(d)) + [Ret]
  }

  predicate WordCode(d: nat, code: seq<Op>) {
    |code| == 4 * d + 2 && code[4 * d + 1] == Ret && forall k :: 0 <= k < 4 * d + 1 ==> OpAt(d, k, code[k])
  }

  lemma CodeIs(d: nat)
    ensures WordCode(d, Code(d))
  {
    hide S.Flat;
    FlatNest(d);
  }

  // ----- it is well typed -----

  function NestTrace(d: nat): Trace {
    Trace(seq(4 * d + 2, k requires 0 <= k < 4 * d + 2 => Some(k % 2)), Some(1), 0, 1, 0)
  }

  lemma NestTraced(t: seq<Info>, d: nat, code: seq<Op>)
    requires WordCode(d, code)
    ensures Traced(t, code, NestTrace(d))
  {
    forall k | 0 <= k < |code|
      ensures OpTraced(t, code, NestTrace(d), k)
    {
      if k < 4 * d + 1 {
        assert OpAt(d, k, code[k]);
      }
    }
  }

  lemma {:induction false} NestReached(t: seq<Info>, done: set<nat>, d: nat, code: seq<Op>, k: nat)
    requires WordCode(d, code) && k < |code|
    ensures Reached(t, done, code, k, k % 2)
    decreases if k > 2 * d && k % 2 == 0 then 4 * d + 2 else k
  {
    hide Reached;
    if k == 0 {
      ReachStart(t, done, code);
    } else {
      var before := if k <= 2 * d + 1 then k - 1 else if k % 2 == 0 then 4 * d + 1 - k else k - 2;
      assert OpAt(d, before, code[before]);
      NestReached(t, done, d, code, before);
      ReachEdge(t, done, code, before, before % 2, k);
    }
  }

  lemma NestAttained(t: seq<Info>, done: set<nat>, d: nat, code: seq<Op>)
    requires WordCode(d, code)
    ensures AllReached(t, done, code, NestTrace(d)) && Attained(t, done, code, NestTrace(d))
  {
    hide Reached;
    var tr := NestTrace(d);
    forall k: nat | k < |code|
      ensures Reached(t, done, code, k, tr.sa[k].value) && !code[k].Call?
    {
      NestReached(t, done, d, code, k);
      assert k < 4 * d + 1 ==> OpAt(d, k, code[k]);
    }
    assert OpAt(d, 0, code[0]);
    assert PeakAt(t, done, code, tr.sa, 0, 1);
    assert Seen(done, code, tr.sa, 4 * d + 1);
  }

  function NESTED(d: nat): Program {
    [Word(Interp(0, Code(d)), None, UNKNOWN)]
  }

  function NestAnalysis(d: nat): seq<Entry> {
    [Entry(Info(SType(0, 1), 1, 1), SType(0, 1), 1, true, NestTrace(d))]
  }

  /** With guarded queueing its analysis succeeds: no argument, one result. */
  lemma NestAnalysed(d: nat)
    ensures Consistent(true, NESTED(d), NestAnalysis(d)) && 0 in DoneOf(NestAnalysis(d))
  {
    hide Traced, AllReached, Attained, Code, NestTrace;
    var p, s := NESTED(d), NestAnalysis(d);
    var t, trs, done := TableOf(s), TracesOf(s), DoneOf(s);
    assert t == [s[0].info] && trs == [NestTrace(d)] && done == {0};
    CodeIs(d);
    NestTraced(t, d, Code(d));
    NestAttained(t, done, d, Code(d));
    NestComputed(d);
    ReachedCallsInside(t, done, p, trs, done, 0);
    FoldAnalysed(p, t, trs, done);
    hide Analysed;
  }

  lemma NestComputed(d: nat)
    ensures Computed(NestTrace(d)) == SType(0, 1) && NestTrace(d).mds == 1 && NestTrace(d).mrs == 0
  {
  }

  // ----- the order in which it is explored -----

  /** The second branches of the first i conditionals, outermost first. */
  function Elses(d: nat, i: nat): (ks: seq<nat>)
    requires i <= d
    ensures |ks| == i
  {
    seq(i, j requires 0 <= j < i => 4 * d - 2 * j)
  }

  /** Down the first branches. */
  ghost predicate GoneDown(d: nat, code: seq<Op>, i: nat, x: Walk) {
    i <= d && x.agenda == [2 * i] + Elses(d, i) && Work(code, x.heads) >= i
    && forall k: nat :: k in x.seen <==> OnWayDown(d, i, k)
  }

  predicate OnWayDown(d: nat, i: nat, k: nat) {
    k <= 2 * i || (k % 2 == 0 && 4 * d + 2 - 2 * i <= k <= 4 * d)
  }

  lemma OnWayNext(d: nat, i: nat)
    requires i < d
    ensures !OnWayDown(d, i, 2 * i + 1) && !OnWayDown(d, i, 2 * i + 2) && !OnWayDown(d, i, 4 * d - 2 * i)
    ensures forall k: nat :: OnWayDown(d, i + 1, k) <==> OnWayDown(d, i, k) || k == 2 * i + 1 || k == 2 * i + 2 || k == 4 * d - 2 * i
  {
  }

  /** Straight on. */
  lemma GoesOn(t: seq<Info>, code: seq<Op>, x: Walk, k: nat, rest: seq<nat>)
    requires x.agenda == [k] + rest && k + 1 < |code| && code[k].Const? && k + 1 !in x.seen
    ensures Advance(t, code, x) == Walk(x.seen + {k + 1}, x.heads + [k + 1], [k + 1] + rest)
    ensures Work(code, Advance(t, code, x).heads) == Work(code, x.heads) + Chain(code, k + 1)
  {
    MoreWork(code, x.heads, k + 1);
  }

  /** A jump that may be taken to opcode j, or not. */
  lemma GoesBothWays(t: seq<Info>, code: seq<Op>, x: Walk, k: nat, j: nat, rest: seq<nat>)
    requires x.agenda == [k] + rest && k + 1 < j < |code| && code[k] == Jump(IfFalse, j - k - 1)
    requires k + 1 !in x.seen && j !in x.seen
    ensures Advance(t, code, x) == Walk(x.seen + {j, k + 1}, x.heads + [k + 1], [k + 1] + (rest + [j]))
    ensures Work(code, Advance(t, code, x).heads) == Work(code, x.heads) + Chain(code, k + 1)
  {
    hide Work, Chain;
    MoreWork(code, x.heads, k + 1);
    var y := x.(agenda := rest);
    assert x.agenda[1..] == rest;
    assert MeetTarget(code, k, y) == Walk(x.seen + {j}, x.heads, rest + [j]);
    assert x.seen + {j} + {k + 1} == x.seen + {j, k + 1};
    assert MeetNext(t, code, k, MeetTarget(code, k, y)) == Walk(x.seen + {j, k + 1}, x.heads + [k + 1], [k + 1] + (rest + [j]));
  }

  /** The jump of an `else`. */
  lemma GoesAway(t: seq<Info>, code: seq<Op>, x: Walk, k: nat, rest: seq<nat>)
    requires x.agenda == [k] + rest && k + 2 < |code| && code[k] == Jump(Always, 1)
    ensures Advance(t, code, x)
         == if k + 2 in x.seen then Walk(x.seen, x.heads, rest) else Walk(x.seen + {k + 2}, x.heads, rest + [k + 2])
  {
  }

  /** The end of the word. */
  lemma GoesBack(t: seq<Info>, code: seq<Op>, x: Walk, k: nat, rest: seq<nat>)
    requires x.agenda == [k] + rest && k < |code| && code[k].Ret?
    ensures Advance(t, code, x) == Walk(x.seen, x.heads, rest)
  {
  }

  lemma MoreWork(code: seq<Op>, heads: seq<nat>, k: nat)
    ensures Work(code, heads + [k]) == Work(code, heads) + Chain(code, k)
  {
    WorkSum(code, heads, [k]);
    WorkOne(code, k);
  }

  lemma OneDown(t: seq<Info>, d: nat, code: seq<Op>, i: nat, x: Walk)
    requires WordCode(d, code) && GoneDown(d, code, i, x) && i < d
    ensures GoneDown(d, code, i + 1, Advance(t, code, Advance(t, code, x)))
  {
    hide Work, Chain, Advance, OnWayDown;
    OnWayNext(d, i);
    assert OpAt(d, 2 * i, code[2 * i]) && OpAt(d, 2 * i + 1, code[2 * i + 1]);
    GoesOn(t, code, x, 2 * i, Elses(d, i));
    GoesBothWays(t, code, Advance(t, code, x), 2 * i + 1, 4 * d - 2 * i, Elses(d, i));
    assert Elses(d, i + 1) == Elses(d, i) + [4 * d - 2 * i];
    NoJump(code, 2 * i + 1);
  }

  lemma {:induction false} AllDown(t: seq<Info>, d: nat, code: seq<Op>, i: nat)
    requires WordCode(d, code) && i <= d
    ensures GoneDown(d, code, i, After(t, code, 2 * i))
    decreases i
  {
    hide Advance, WordCode;
    if i == 0 {
      assert Elses(d, 0) == [];
    } else {
      hide GoneDown;
      AllDown(t, d, code, i - 1);
      OneDown(t, d, code, i - 1, After(t, code, 2 * i - 2));
      assert After(t, code, 2 * i - 1) == Advance(t, code, After(t, code, 2 * i - 2));
      assert After(t, code, 2 * i) == Advance(t, code, After(t, code, 2 * i - 1));
    }
  }

  /** 0 + 1 + ... + (m - 1) */
  function Triangle(m: nat): nat {
    if m == 0 then 0 else Triangle(m - 1) + m - 1
  }

  /** m of the second branches are done, each followed by the `else` of the conditional around it. */
  ghost predicate ComeUp(d: nat, code: seq<Op>, m: nat, x: Walk) {
    m < d && x.agenda == Elses(d, d)[m..] + [2 * d + 3] && Work(code, x.heads) >= 2 * d + Triangle(m)
    && forall k: nat :: k in x.seen <==> OnWayUp(d, m, k)
  }

  predicate OnWayUp(d: nat, m: nat, k: nat) {
    k <= 2 * d + 1 || (k % 2 == 0 && k <= 4 * d) || k == 2 * d + 3 || (k % 2 == 1 && 4 * d + 3 - 2 * m <= k <= 4 * d + 1)
  }

  lemma OnWayUpNext(d: nat, m: nat)
    requires m + 1 < d
    ensures !OnWayUp(d, m, 4 * d + 1 - 2 * m) && (m > 0 ==> OnWayUp(d, m, 4 * d + 3 - 2 * m))
    ensures forall k: nat :: OnWayUp(d, m + 1, k) <==> OnWayUp(d, m, k) || k == 4 * d + 1 - 2 * m
  {
  }

  /** From the m-th `else` from outside, m jumps lead to the end. */
  lemma {:induction false} ElseChain(d: nat, code: seq<Op>, m: nat)
    requires WordCode(d, code) && m <= d
    ensures JumpsTo(code, m, 4 * d + 1 - 2 * m, 4 * d + 1)
    decreases m
  {
    if m > 0 {
      assert OpAt(d, 4 * d + 1 - 2 * m, code[4 * d + 1 - 2 * m]);
      ElseChain(d, code, m - 1);
    }
  }

  lemma ElseWork(d: nat, code: seq<Op>, m: nat)
    requires WordCode(d, code) && m <= d
    ensures Chain(code, 4 * d + 1 - 2 * m) >= m
  {
    ElseChain(d, code, m);
    JumpsCount(code, m, 4 * d + 1 - 2 * m, 4 * d + 1, |code| + 1);
  }

  lemma Turned(t: seq<Info>, d: nat, code: seq<Op>, x: Walk)
    requires WordCode(d, code) && d >= 1 && GoneDown(d, code, d, x)
    ensures ComeUp(d, code, 0, Advance(t, code, Advance(t, code, x)))
  {
    hide Work, Chain, Advance;
    assert OpAt(d, 2 * d, code[2 * d]) && OpAt(d, 2 * d + 1, code[2 * d + 1]);
    GoesOn(t, code, x, 2 * d, Elses(d, d));
    GoesAway(t, code, Advance(t, code, x), 2 * d + 1, Elses(d, d));
    assert Elses(d, d)[0..] == Elses(d, d);
    ElseWork(d, code, d);
  }

  lemma ElseNext(d: nat, m: nat)
    requires m < d
    ensures Elses(d, d)[m..] + [2 * d + 3] == [4 * d - 2 * m] + (Elses(d, d)[m + 1..] + [2 * d + 3])
  {
    assert Elses(d, d)[m..] == [4 * d - 2 * m] + Elses(d, d)[m + 1..];
  }

  lemma OneUp(t: seq<Info>, d: nat, code: seq<Op>, m: nat, x: Walk)
    requires WordCode(d, code) && ComeUp(d, code, m, x) && m + 1 < d
    ensures ComeUp(d, code, m + 1, Advance(t, code, Advance(t, code, x)))
  {
    hide Work, Chain, Advance, OnWayUp, Elses;
    OnWayUpNext(d, m);
    ElseNext(d, m);
    var k := 4 * d - 2 * m;
    var rest := Elses(d, d)[m + 1..] + [2 * d + 3];
    assert OpAt(d, k, code[k]);
    GoesOn(t, code, x, k, rest);
    if m == 0 {
      GoesBack(t, code, Advance(t, code, x), k + 1, rest);
    } else {
      assert OpAt(d, k + 1, code[k + 1]);
      GoesAway(t, code, Advance(t, code, x), k + 1, rest);
    }
    ElseWork(d, code, m);
  }

  lemma {:induction false} AllUp(t: seq<Info>, d: nat, code: seq<Op>, m: nat)
    requires WordCode(d, code) && m < d
    ensures ComeUp(d, code, m, After(t, code, 2 * d + 2 + 2 * m))
    decreases m
  {
    hide Advance, WordCode, ComeUp, GoneDown;
    var n := 2 * d + 2 + 2 * m;
    assert After(t, code, n - 1) == Advance(t, code, After(t, code, n - 2));
    assert After(t, code, n) == Advance(t, code, After(t, code, n - 1));
    if m == 0 {
      AllDown(t, d, code, d);
      Turned(t, d, code, After(t, code, 2 * d));
    } else {
      AllUp(t, d, code, m - 1);
      OneUp(t, d, code, m - 1, After(t, code, n - 2));
    }
  }

  lemma {:induction false} TriangleLarge(d: nat)
    requires d >= 8
    ensures Triangle(d - 1) > 2 * d + 2
    decreases d
  {
    if d == 8 {
      assert Triangle(7) == 21;
    } else {
      TriangleLarge(d - 1);
    }
  }

  /** The chains of jumps grow with the square of the nesting, the code only with the nesting. */
  lemma NestOverfull(t: seq<Info>, d: nat)
    requires d >= 8
    ensures Overfull(t, Code(d))
  {
    hide After, Code;
    CodeIs(d);
    AllUp(t, d, Code(d), d - 1);
    TriangleLarge(d);
    AfterMore(t, Code(d), 4 * d, 4 * d + 2);
  }

  /** So the analysis as coded must refuse it: the queue is full. */
  lemma NestRejected(d: nat, r: Outcome, s: seq<Entry>)
    requires d >= 8
    requires Justified(false, NESTED(d), r) && Located(false, NESTED(d), [0], r)
    requires r.Done? ==> Consistent(false, NESTED(d), s) && 0 in DoneOf(s)
    ensures r == QueueFull(0)
  {
    hide Justified, Located, Consistent, NestAnalysis, Overfull, Code, DoneOf, TableOf;
    var p, s1 := NESTED(d), NestAnalysis(d);
    NestAnalysed(d);
    CodedExactly(true, p, s1, 0, r, s);
    NestOverfull(TableOf(s1), d);
    var path: seq<nat> := [0];
    assert CallPath(p, s1, path) && path[0] == 0 && Top(path) == 0;
    assert LeadsToWord(p, s1, 0, 0) && CodeOf(p, 0) == Code(d);
    EmptyFits(TableOf(s1));
    assert forall v: nat :: v != 0 ==> CodeOf(p, v) == [];
  }

  lemma EmptyFits(t: seq<Info>)
    ensures !Overfull(t, [])
  {
    FewJumps(t, []);
  }
}
