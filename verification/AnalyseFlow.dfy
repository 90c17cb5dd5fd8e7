/** The stack analysis itself: a worklist over the opcodes of a word, recursing into the words it calls. */
module AnalyseFlow {
  import opened Bytes
  import opened Machine
  import opened Flow
  import opened Traversal
  import opened TargetQueue

  // ----- control paths inside a word -----

  function DeltaAt(t: seq<Info>, code: seq<Op>, k: nat): int {
    if k < |code| then Delta(t, code[k]) else 0
  }

  /** Control may pass from opcode a to opcode b; a call on the way is to an analysed word. */
  predicate Edge(t: seq<Info>, done: set<nat>, code: seq<Op>, a: nat, b: int) {
    a < |code| && 0 <= b < |code|
    && (code[a].Call? ==> code[a].w in done && code[a].w < |t| && t[code[a].w].effect.IsKnown())
    && ((code[a].JumpDisp() != 0 && b == a + 1 + code[a].JumpDisp()) || (Continues(t, code[a]) && b == a + 1))
  }

  predicate IsPath(t: seq<Info>, done: set<nat>, code: seq<Op>, path: seq<nat>)
    decreases |path|
  {
    code != [] && path != [] &&
    if |path| == 1 then path[0] == 0
    else IsPath(t, done, code, Pop(path)) && Edge(t, done, code, Top(Pop(path)), Top(path))
  }

  /** Stack action accumulated along a path, up to but not including its last opcode. */
  function PathAction(t: seq<Info>, code: seq<Op>, path: seq<nat>): (c: int)
    decreases |path|
  {
    if |path| <= 1 then 0 else PathAction(t, code, Pop(path)) + DeltaAt(t, code, Top(Pop(path)))
  }

  /** Opcode k is reached with stack action c. */
  ghost predicate Reached(t: seq<Info>, done: set<nat>, code: seq<Op>, k: nat, c: int) {
    exists path :: PathTo(t, done, code, path, k, c)
  }

  predicate PathTo(t: seq<Info>, done: set<nat>, code: seq<Op>, path: seq<nat>, k: nat, c: int) {
    IsPath(t, done, code, path) && Top(path) == k && PathAction(t, code, path) == c
  }

  lemma ReachStart(t: seq<Info>, done: set<nat>, code: seq<Op>)
    requires code != []
    ensures Reached(t, done, code, 0, 0)
  {
    assert PathTo(t, done, code, [0], 0, 0);
  }

  lemma ReachEdge(t: seq<Info>, done: set<nat>, code: seq<Op>, k: nat, c: int, j: nat)
    requires Reached(t, done, code, k, c) && Edge(t, done, code, k, j)
    ensures Reached(t, done, code, j, c + Delta(t, code[k]))
  {
    var path :| PathTo(t, done, code, path, k, c);
    var longer := path + [j];
    assert Pop(longer) == path && Top(longer) == j;
    assert PathTo(t, done, code, longer, j, c + DeltaAt(t, code, k));
  }

  lemma EdgeTraced(t: seq<Info>, done: set<nat>, code: seq<Op>, tr: Trace, a: nat, b: nat)
    requires Traced(t, code, tr) && Edge(t, done, code, a, b) && tr.sa[a].Some?
    ensures tr.sa[b] == Some(tr.sa[a].value + DeltaAt(t, code, a))
  {
    hide OpCovered, Continues;
    assert OpTraced(t, code, tr, a);
  }

  lemma EdgeInCode(t: seq<Info>, done: set<nat>, code: seq<Op>, a: nat, b: nat)
    requires Edge(t, done, code, a, b)
    ensures a < |code| && b < |code|
  {
  }

  lemma TracedStart(t: seq<Info>, code: seq<Op>, tr: Trace)
    requires Traced(t, code, tr)
    ensures |tr.sa| == |code| > 0 && tr.sa[0] == Some(0)
  {
  }

  /** What the analysis assigns, every path confirms: a traced word has the traced action on every path. */
  lemma {:induction false} PathTraced(t: seq<Info>, done: set<nat>, code: seq<Op>, tr: Trace, path: seq<nat>)
    requires Traced(t, code, tr) && IsPath(t, done, code, path)
    ensures Top(path) < |code| && tr.sa[Top(path)] == Some(PathAction(t, code, path))
    decreases |path|
  {
    hide Traced, Edge, DeltaAt;
    TracedStart(t, code, tr);
    if |path| > 1 {
      PathTraced(t, done, code, tr, Pop(path));
      EdgeInCode(t, done, code, Top(Pop(path)), Top(path));
      EdgeTraced(t, done, code, tr, Top(Pop(path)), Top(path));
    }
  }

  // ----- more analysed words never change what is known of the old ones -----

  predicate Extends(t: seq<Info>, done: set<nat>, t': seq<Info>, done': set<nat>) {
    |t| == |t'| && done <= done' && forall w :: w in done && w < |t| ==> t'[w] == t[w]
  }

  lemma EdgeExtends(t: seq<Info>, done: set<nat>, t': seq<Info>, done': set<nat>, code: seq<Op>, a: nat, b: nat)
    requires Extends(t, done, t', done') && Edge(t, done, code, a, b)
    ensures Edge(t', done', code, a, b) && DeltaAt(t', code, a) == DeltaAt(t, code, a)
  {
  }

  lemma {:induction false} PathExtends(t: seq<Info>, done: set<nat>, t': seq<Info>, done': set<nat>, code: seq<Op>, path: seq<nat>)
    requires Extends(t, done, t', done') && IsPath(t, done, code, path)
    ensures IsPath(t', done', code, path) && PathAction(t', code, path) == PathAction(t, code, path)
    decreases |path|
  {
    if |path| > 1 {
      PathExtends(t, done, t', done', code, Pop(path));
      EdgeExtends(t, done, t', done', code, Top(Pop(path)), Top(path));
    }
  }

  lemma ReachExtends(t: seq<Info>, done: set<nat>, t': seq<Info>, done': set<nat>, code: seq<Op>, k: nat, c: int)
    requires Extends(t, done, t', done') && Reached(t, done, code, k, c)
    ensures Reached(t', done', code, k, c)
  {
    var path :| PathTo(t, done, code, path, k, c);
    PathExtends(t, done, t', done', code, path);
    assert PathTo(t', done', code, path, k, c);
  }

  // ----- what a failure proves -----

  /** The table, traces and set of a state of the words between two steps of the analysis. */
  ghost predicate Genuine(guarded: bool, p: Program, t: seq<Info>, trs: seq<Trace>, done: set<nat>) {
    exists s :: IsState(guarded, p, s, t, trs, done)
  }

  ghost predicate IsState(guarded: bool, p: Program, s: seq<Entry>, t: seq<Info>, trs: seq<Trace>, done: set<nat>) {
    Consistent(guarded, p, s) && t == TableOf(s) && trs == TracesOf(s) && done == DoneOf(s)
  }

  /** Some correct partial analysis under which opcode k of word v is reached with action c. */
  ghost predicate Evidence(guarded: bool, p: Program, v: nat, k: nat, c: int, t: seq<Info>, trs: seq<Trace>, done: set<nat>) {
    Genuine(guarded, p, t, trs, done) && Reached(t, done, CodeOf(p, v), k, c)
  }

  /** Two paths lead to opcode k of word v with different stack actions. */
  ghost predicate Ambiguous(guarded: bool, p: Program, v: nat, k: nat) {
    exists c1, c2, t, trs, done ::
      c1 != c2 && Evidence(guarded, p, v, k, c1, t, trs, done) && Evidence(guarded, p, v, k, c2, t, trs, done)
  }

  /** Two paths lead to exits of word v with different stack actions. */
  ghost predicate AmbiguousExit(guarded: bool, p: Program, v: nat) {
    exists k1: nat, k2: nat, c1, c2, t, trs, done ::
      c1 != c2 && Evidence(guarded, p, v, k1, c1, t, trs, done) && Evidence(guarded, p, v, k2, c2, t, trs, done)
      && k1 < |CodeOf(p, v)| && k2 < |CodeOf(p, v)| && CodeOf(p, v)[k1].Ret? && CodeOf(p, v)[k2].Ret?
  }

  /** A path leads to an opcode of word v from which control leaves the code. */
  ghost predicate RunsOff(guarded: bool, p: Program, v: nat) {
    (v < |p| && p[v].body.Interp? && CodeOf(p, v) == []) || exists k: nat, c, t, trs, done ::
      Evidence(guarded, p, v, k, c, t, trs, done) && k < |CodeOf(p, v)| && LeavesFrom(t, done, CodeOf(p, v), k)
  }

  predicate LeavesFrom(t: seq<Info>, done: set<nat>, code: seq<Op>, k: nat)
    requires k < |code|
  {
    (code[k].Call? ==> code[k].w in done) &&
    ((code[k].JumpDisp() != 0 && !(0 <= k + 1 + code[k].JumpDisp() < |code|)) || (Continues(t, code[k]) && k + 1 == |code|))
  }

  /** Word v has a reached call to word u. */
  ghost predicate ReachedCall(guarded: bool, p: Program, v: nat, u: nat) {
    exists k: nat, c, t, trs, done ::
      Evidence(guarded, p, v, k, c, t, trs, done) && k < |CodeOf(p, v)| && CodeOf(p, v)[k] == Call(u)
  }

  ghost predicate CallChain(guarded: bool, p: Program, chain: seq<nat>) {
    |chain| >= 2 ==> CallChain(guarded, p, Pop(chain)) && ReachedCall(guarded, p, Top(Pop(chain)), Top(chain))
  }

  ghost predicate CallCycle(guarded: bool, p: Program) {
    exists chain: seq<nat> :: CallChain(guarded, p, chain) && |chain| >= 2 && chain[0] == Top(chain)
  }

  datatype Outcome =
    | Done
    | Recursive                  // "recursive call detected"
    | UnknownEffect(caller: nat, callee: nat)
    | Mismatch(word: nat, off: nat)
    | ExitMismatch(word: nat)
    | QueueFull(word: nat)       // the array of targets to explore is full
    | OutOfCode(word: nat)       // the array of stack actions is left
    | NotSubEffect(word: nat)    // declared effect contradicted

  /** The declared effect of word v contradicts the exact analysis of its code. */
  ghost predicate WronglyDeclared(guarded: bool, p: Program, v: nat) {
    exists t, trs, done, tr :: Contradicts(guarded, p, v, t, trs, done, tr)
  }

  ghost predicate Contradicts(guarded: bool, p: Program, v: nat, t: seq<Info>, trs: seq<Trace>, done: set<nat>, tr: Trace) {
    v < |p| && p[v].declared.IsKnown() && !Computed(tr).IsSubOf(p[v].declared)
    && Genuine(guarded, p, t, trs, done) && Traced(t, CodeOf(p, v), tr)
    && AllReached(t, done, CodeOf(p, v), tr) && Attained(t, done, CodeOf(p, v), tr)
  }

  /** A native word of which no effect is declared. */
  predicate NeverKnown(p: Program, u: nat) {
    u < |p| && p[u].body.Native? && !p[u].declared.IsKnown()
  }

  /** A failure happens in word w. */
  predicate EndsAt(r: Outcome, w: nat) {
    match r
    case Done | Recursive => false
    case UnknownEffect(v, _) => v == w
    case Mismatch(v, _) => v == w
    case ExitMismatch(v) => v == w
    case QueueFull(v) => v == w
    case OutOfCode(v) => v == w
    case NotSubEffect(v) => v == w
  }

  /** A chain of reached calls, from where the analysis started to where it failed. */
  ghost predicate LeadsTo(guarded: bool, p: Program, chain: seq<nat>, full: seq<nat>, r: Outcome) {
    chain <= full && full != [] && CallChain(guarded, p, full)
    && (if r == Recursive then Top(full) in Pop(full) else EndsAt(r, Top(full)))
  }

  ghost predicate Located(guarded: bool, p: Program, chain: seq<nat>, r: Outcome) {
    r == Done || exists full :: LeadsTo(guarded, p, chain, full, r)
  }

  lemma LocatedHere(guarded: bool, p: Program, chain: seq<nat>, w: nat, r: Outcome)
    requires CallChain(guarded, p, chain) && chain != [] && Top(chain) == w && (r == Done || EndsAt(r, w))
    ensures Located(guarded, p, chain, r)
  {
    hide CallChain;
    if r != Done {
      assert LeadsTo(guarded, p, chain, chain, r);
    }
  }

  lemma LocatedDone(guarded: bool, p: Program, chain: seq<nat>)
    ensures Located(guarded, p, chain, Done)
  {
  }

  lemma LocatedDeeper(guarded: bool, p: Program, chain: seq<nat>, u: nat, r: Outcome)
    requires Located(guarded, p, chain + [u], r)
    ensures Located(guarded, p, chain, r)
  {
    hide CallChain;
    if r != Done {
      var full :| LeadsTo(guarded, p, chain + [u], full, r);
      assert chain <= chain + [u];
      assert LeadsTo(guarded, p, chain, full, r);
    }
  }

  lemma LocatedCycle(guarded: bool, p: Program, chain: seq<nat>, w: nat)
    requires CallChain(guarded, p, chain + [w]) && w in chain
    ensures Located(guarded, p, chain + [w], Recursive)
  {
    hide CallChain;
    assert Pop(chain + [w]) == chain;
    assert LeadsTo(guarded, p, chain + [w], chain + [w], Recursive);
  }

  /** In the order in which word v is explored, more targets are queued than the word has opcodes. */
  ghost predicate ManyTargets(p: Program, v: nat, t: seq<Info>, trs: seq<Trace>, done: set<nat>, n: nat) {
    Genuine(false, p, t, trs, done) && TooManyTargets(t, done, CodeOf(p, v), n)
  }

  ghost predicate Justified(guarded: bool, p: Program, r: Outcome) {
    match r
    case Done => true
    case Recursive => CallCycle(guarded, p)
    case UnknownEffect(v, u) => ReachedCall(guarded, p, v, u) && NeverKnown(p, u)
    case Mismatch(v, k) => Ambiguous(guarded, p, v, k)
    case ExitMismatch(v) => AmbiguousExit(guarded, p, v)
    case QueueFull(v) => !guarded && exists t, trs, done, n :: ManyTargets(p, v, t, trs, done, n)
    case OutOfCode(v) => RunsOff(guarded, p, v)
    case NotSubEffect(v) => WronglyDeclared(guarded, p, v)
  }

  // ----- the state of an unfinished analysis -----

  /** From tr to tr' opcodes have been reached and maxima raised; nothing was taken back. */
  predicate Grows(tr: Trace, tr': Trace) {
    |tr.sa| == |tr'.sa| && tr'.maxDepth <= tr.maxDepth && tr.mds <= tr'.mds && tr.mrs <= tr'.mrs
    && (tr.exitSA.Some? ==> tr'.exitSA == tr.exitSA)
    && forall k :: 0 <= k < |tr.sa| && tr.sa[k].Some? ==> tr'.sa[k] == tr.sa[k]
  }

  lemma OpTracedGrows(t: seq<Info>, code: seq<Op>, tr: Trace, tr': Trace, k: nat)
    requires |tr.sa| == |code| && k < |code| && tr.sa[k].Some? && OpTraced(t, code, tr, k) && Grows(tr, tr')
    ensures OpTraced(t, code, tr', k)
  {
  }

  lemma OpTracedExtends(t: seq<Info>, done: set<nat>, t': seq<Info>, done': set<nat>, code: seq<Op>, tr: Trace, k: nat)
    requires Extends(t, done, t', done')
    requires |tr.sa| == |code| && k < |code| && tr.sa[k].Some? && OpTraced(t, code, tr, k)
    requires code[k].Call? ==> code[k].w in done
    ensures OpTraced(t', code, tr, k)
  {
  }

  /** An explored opcode. */
  predicate Settled(t: seq<Info>, done: set<nat>, code: seq<Op>, tr: Trace, k: nat) {
    |tr.sa| == |code| && k < |code| && tr.sa[k].Some? && OpTraced(t, code, tr, k) && (code[k].Call? ==> code[k].w in done)
  }

  ghost predicate ExitSeen(t: seq<Info>, done: set<nat>, code: seq<Op>, e: int) {
    exists k :: 0 <= k < |code| && code[k].Ret? && Reached(t, done, code, k, e)
  }

  /** A reached opcode k, whose callee (if it is a call) is analysed. */
  predicate Seen(done: set<nat>, code: seq<Op>, sa: seq<Option<int>>, k: nat) {
    k < |code| && k < |sa| && sa[k].Some? && (code[k].Call? ==> code[k].w in done)
  }

  /** Opcode k takes the stack to depth m relative to the entry: behind it, or below a callee's arguments. */
  predicate DepthAt(t: seq<Info>, done: set<nat>, code: seq<Op>, sa: seq<Option<int>>, k: nat, m: int) {
    Seen(done, code, sa, k)
    && (m == sa[k].value + Delta(t, code[k])
        || (code[k].Call? && code[k].w < |t| && m == sa[k].value - t[code[k].w].effect.din))
  }

  /** Opcode k takes the stack to peak m: behind it, or in its callee. */
  predicate PeakAt(t: seq<Info>, done: set<nat>, code: seq<Op>, sa: seq<Option<int>>, k: nat, m: int) {
    Seen(done, code, sa, k) && !code[k].Ret?
    && (if code[k].Call? then code[k].w < |t| && m == sa[k].value + t[code[k].w].maxDataStack
        else m == sa[k].value + Delta(t, code[k]))
  }

  predicate FramesAt(t: seq<Info>, done: set<nat>, code: seq<Op>, sa: seq<Option<int>>, k: nat, m: int) {
    Seen(done, code, sa, k) && code[k].Call? && code[k].w < |t| && m == t[code[k].w].maxReturnStack
  }

  /** No maximum is larger than what some reached opcode asks for. */
  ghost predicate Attained(t: seq<Info>, done: set<nat>, code: seq<Op>, tr: Trace) {
    (tr.maxDepth == 0 || exists k: nat :: DepthAt(t, done, code, tr.sa, k, tr.maxDepth))
    && (tr.mds == 0 || exists k: nat :: PeakAt(t, done, code, tr.sa, k, tr.mds))
    && (tr.mrs == 0 || exists k: nat :: FramesAt(t, done, code, tr.sa, k, tr.mrs))
    && (tr.exitSA.Some? ==> exists k: nat :: Seen(done, code, tr.sa, k) && code[k].Ret? && tr.sa[k] == tr.exitSA)
  }

  lemma AttainedExtends(t: seq<Info>, done: set<nat>, t': seq<Info>, done': set<nat>, code: seq<Op>, tr: Trace)
    requires Extends(t, done, t', done') && Attained(t, done, code, tr)
    ensures Attained(t', done', code, tr)
  {
    if tr.maxDepth != 0 {
      var k: nat :| DepthAt(t, done, code, tr.sa, k, tr.maxDepth);
      assert DepthAt(t', done', code, tr.sa, k, tr.maxDepth);
    }
    if tr.mds != 0 {
      var k: nat :| PeakAt(t, done, code, tr.sa, k, tr.mds);
      assert PeakAt(t', done', code, tr.sa, k, tr.mds);
    }
    if tr.mrs != 0 {
      var k: nat :| FramesAt(t, done, code, tr.sa, k, tr.mrs);
      assert FramesAt(t', done', code, tr.sa, k, tr.mrs);
    }
    if tr.exitSA.Some? {
      var k: nat :| Seen(done, code, tr.sa, k) && code[k].Ret? && tr.sa[k] == tr.exitSA;
      assert Seen(done', code, tr.sa, k);
    }
  }

  lemma AttainedMerge(t: seq<Info>, done: set<nat>, code: seq<Op>, tr: Trace, tr': Trace)
    requires Attained(t, done, code, tr) && Grows(tr, tr') && tr' == tr.(sa := tr'.sa)
    ensures Attained(t, done, code, tr')
  {
    if tr.maxDepth != 0 {
      var k: nat :| DepthAt(t, done, code, tr.sa, k, tr.maxDepth);
      assert DepthAt(t, done, code, tr'.sa, k, tr.maxDepth);
    }
    if tr.mds != 0 {
      var k: nat :| PeakAt(t, done, code, tr.sa, k, tr.mds);
      assert PeakAt(t, done, code, tr'.sa, k, tr.mds);
    }
    if tr.mrs != 0 {
      var k: nat :| FramesAt(t, done, code, tr.sa, k, tr.mrs);
      assert FramesAt(t, done, code, tr'.sa, k, tr.mrs);
    }
    if tr.exitSA.Some? {
      var k: nat :| Seen(done, code, tr.sa, k) && code[k].Ret? && tr.sa[k] == tr.exitSA;
      assert Seen(done, code, tr'.sa, k);
    }
  }

  /** The maxima after a turn are the old ones or come from the opcode just processed. */
  lemma AttainedVisit(t: seq<Info>, done: set<nat>, code: seq<Op>, tr: Trace, tr': Trace, off: nat)
    requires Attained(t, done, code, tr) && tr'.sa == tr.sa && Seen(done, code, tr.sa, off)
    requires tr'.maxDepth == tr.maxDepth || DepthAt(t, done, code, tr.sa, off, tr'.maxDepth)
    requires tr'.mds == tr.mds || PeakAt(t, done, code, tr.sa, off, tr'.mds)
    requires tr'.mrs == tr.mrs || FramesAt(t, done, code, tr.sa, off, tr'.mrs)
    requires tr'.exitSA == tr.exitSA || (code[off].Ret? && tr'.exitSA == tr.sa[off])
    ensures Attained(t, done, code, tr')
  {
  }

  /** Every opcode with a stack action is explored, waiting in the queue or the one about to be processed. */
  ghost predicate Frontier(t: seq<Info>, done: set<nat>, code: seq<Op>, tr: Trace, queue: seq<nat>,
                           explored: set<nat>, current: Option<nat>)
    requires |tr.sa| == |code|
  {
    (forall k :: k in explored ==> Settled(t, done, code, tr, k))
    && (forall k :: 0 <= k < |code| && tr.sa[k].Some? ==> k in explored || k in queue || current == Some(k))
    && (forall k :: k in queue ==> k < |code| && tr.sa[k].Some?)
    && (current.Some? ==> current.value < |code| && tr.sa[current.value].Some?)
  }

  /** Every stack action belongs to a path; the maxima so far are attained. */
  ghost predicate Walked(t: seq<Info>, done: set<nat>, code: seq<Op>, tr: Trace)
    requires |tr.sa| == |code|
  {
    tr.maxDepth <= 0 && tr.mds >= 0 && tr.mrs >= 0
    && (forall k :: 0 <= k < |code| && tr.sa[k].Some? ==>
          tr.maxDepth <= tr.sa[k].value && Reached(t, done, code, k, tr.sa[k].value))
    && (tr.exitSA.Some? ==> ExitSeen(t, done, code, tr.exitSA.value))
    && Attained(t, done, code, tr)
  }

  /** Invariant of the exploration loop. */
  ghost predicate Exploring(t: seq<Info>, done: set<nat>, code: seq<Op>, tr: Trace, queue: seq<nat>,
                            explored: set<nat>, current: Option<nat>)
  {
    code != [] && |tr.sa| == |code| && tr.sa[0] == Some(0)
    && Frontier(t, done, code, tr, queue, explored, current) && Walked(t, done, code, tr)
  }

  lemma ExploringExtends(t: seq<Info>, done: set<nat>, t': seq<Info>, done': set<nat>, code: seq<Op>, tr: Trace,
                         queue: seq<nat>, explored: set<nat>, current: Option<nat>)
    requires Extends(t, done, t', done') && Exploring(t, done, code, tr, queue, explored, current)
    ensures Exploring(t', done', code, tr, queue, explored, current)
  {
    hide OpTraced, Reached, Extends, Attained;
    AttainedExtends(t, done, t', done', code, tr);
    forall k | k in explored
      ensures Settled(t', done', code, tr, k)
    {
      assert Settled(t, done, code, tr, k);
      OpTracedExtends(t, done, t', done', code, tr, k);
      DoneGrows(t, done, t', done');
    }
    forall k: nat | k < |code| && tr.sa[k].Some?
      ensures Reached(t', done', code, k, tr.sa[k].value)
    {
      ReachExtends(t, done, t', done', code, k, tr.sa[k].value);
    }
    if tr.exitSA.Some? {
      var k: nat :| k < |code| && code[k].Ret? && Reached(t, done, code, k, tr.exitSA.value);
      ReachExtends(t, done, t', done', code, k, tr.exitSA.value);
    }
  }

  lemma DoneGrows(t: seq<Info>, done: set<nat>, t': seq<Info>, done': set<nat>)
    requires Extends(t, done, t', done')
    ensures done <= done'
  {
  }

  /** Recording the maxima and the exit at the current opcode. */
  lemma ExploringGrows(t: seq<Info>, done: set<nat>, code: seq<Op>, tr: Trace, tr': Trace,
                       queue: seq<nat>, explored: set<nat>, current: Option<nat>)
    requires Exploring(t, done, code, tr, queue, explored, current) && Grows(tr, tr') && tr'.sa == tr.sa
    requires tr'.exitSA.Some? ==> ExitSeen(t, done, code, tr'.exitSA.value)
    requires Attained(t, done, code, tr')
    ensures Exploring(t, done, code, tr', queue, explored, current)
  {
    hide OpTraced, Reached, Attained;
    forall k | k in explored
      ensures Settled(t, done, code, tr', k)
    {
      assert Settled(t, done, code, tr, k);
      OpTracedGrows(t, code, tr, tr', k);
    }
  }

  /** Giving opcode j, which follows the current one, its stack action; it becomes part of the queue or the
      next current opcode. */
  lemma ExploringMerge(t: seq<Info>, done: set<nat>, code: seq<Op>, tr: Trace, tr': Trace,
                       queue: seq<nat>, explored: set<nat>, off: nat, j: nat)
    requires Exploring(t, done, code, tr, queue, explored, Some(off))
    requires Edge(t, done, code, off, j) && tr.sa[j].None?
    requires tr.maxDepth <= tr.sa[off].value + Delta(t, code[off])
    requires tr' == tr.(sa := tr.sa[j := Some(tr.sa[off].value + Delta(t, code[off]))])
    ensures Exploring(t, done, code, tr', queue + [j], explored, Some(off))
  {
    hide Settled, Walked, Edge, Delta, Grows, Frontier;
    ExploringCurrent(t, done, code, tr, queue, explored, off);
    EdgeInCode(t, done, code, off, j);
    GrowsBy(tr, j, tr.sa[off].value + Delta(t, code[off]));
    WalkedMerge(t, done, code, tr, tr', off, j);
    FrontierMerge(t, done, code, tr, tr', queue, explored, off, j);
  }

  lemma GrowsBy(tr: Trace, j: nat, c: int)
    requires j < |tr.sa| && tr.sa[j].None?
    ensures Grows(tr, tr.(sa := tr.sa[j := Some(c)]))
  {
  }

  lemma FrontierMerge(t: seq<Info>, done: set<nat>, code: seq<Op>, tr: Trace, tr': Trace,
                      queue: seq<nat>, explored: set<nat>, off: nat, j: nat)
    requires |tr.sa| == |code| == |tr'.sa| && Frontier(t, done, code, tr, queue, explored, Some(off))
    requires j < |code| && Grows(tr, tr') && tr'.sa[j].Some? && forall k :: 0 <= k < |code| && k != j ==> tr'.sa[k] == tr.sa[k]
    ensures Frontier(t, done, code, tr', queue + [j], explored, Some(off))
  {
    hide Settled, Grows;
    forall k | k in explored
      ensures Settled(t, done, code, tr', k)
    {
      SettledGrows(t, done, code, tr, tr', k);
    }
    StillSome(tr, tr', off);
    assert forall k :: k in queue + [j] <==> k in queue || k == j;
  }

  lemma StillSome(tr: Trace, tr': Trace, k: nat)
    requires Grows(tr, tr') && k < |tr.sa| && tr.sa[k].Some?
    ensures k < |tr'.sa| && tr'.sa[k].Some?
  {
  }

  lemma WalkedMerge(t: seq<Info>, done: set<nat>, code: seq<Op>, tr: Trace, tr': Trace, off: nat, j: nat)
    requires |tr.sa| == |code| && Walked(t, done, code, tr) && off < |code| && tr.sa[off].Some?
    requires Edge(t, done, code, off, j) && j < |code| && tr.sa[j].None? && Grows(tr, tr')
    requires tr.maxDepth <= tr.sa[off].value + Delta(t, code[off])
    requires tr' == tr.(sa := tr.sa[j := Some(tr.sa[off].value + Delta(t, code[off]))])
    ensures Walked(t, done, code, tr')
  {
    hide Reached, Edge, Attained, Delta, Grows;
    ReachEdge(t, done, code, off, tr.sa[off].value, j);
    AttainedMerge(t, done, code, tr, tr');
    forall k: nat | k < |code| && tr'.sa[k].Some?
      ensures tr'.maxDepth <= tr'.sa[k].value && Reached(t, done, code, k, tr'.sa[k].value)
    {
      if k != j {
        assert tr.sa[k].Some? && tr.sa[k] == tr'.sa[k];
      }
    }
  }

  lemma SettledGrows(t: seq<Info>, done: set<nat>, code: seq<Op>, tr: Trace, tr': Trace, k: nat)
    requires Settled(t, done, code, tr, k) && Grows(tr, tr')
    ensures Settled(t, done, code, tr', k)
  {
    OpTracedGrows(t, code, tr, tr', k);
  }

  /** Queueing an opcode that already has its action. */
  lemma ExploringQueue(t: seq<Info>, done: set<nat>, code: seq<Op>, tr: Trace,
                       queue: seq<nat>, explored: set<nat>, off: nat, j: nat)
    requires Exploring(t, done, code, tr, queue, explored, Some(off))
    requires j < |code| && tr.sa[j].Some?
    ensures Exploring(t, done, code, tr, queue + [j], explored, Some(off))
  {
    hide Settled, Walked;
    assert forall k :: k in queue + [j] <==> k in queue || k == j;
  }

  /** The current opcode is done with. */
  lemma ExploringSettle(t: seq<Info>, done: set<nat>, code: seq<Op>, tr: Trace,
                        queue: seq<nat>, explored: set<nat>, off: nat)
    requires Exploring(t, done, code, tr, queue, explored, Some(off)) && Settled(t, done, code, tr, off)
    ensures Exploring(t, done, code, tr, queue, explored + {off}, None)
  {
    hide Settled, Walked;
  }

  /** The next opcode comes from the queue: either its front, or one just put at its end. */
  lemma ExploringTake(t: seq<Info>, done: set<nat>, code: seq<Op>, tr: Trace,
                      queue: seq<nat>, queue': seq<nat>, explored: set<nat>, next: nat)
    requires Exploring(t, done, code, tr, queue, explored, None)
    requires queue == queue' + [next] || queue == [next] + queue'
    ensures Exploring(t, done, code, tr, queue', explored, Some(next))
  {
    hide Settled, Walked;
    if queue == queue' + [next] {
      assert forall k :: k in queue' + [next] <==> k in queue' || k == next;
    } else {
      assert forall k :: k in [next] + queue' <==> k in queue' || k == next;
    }
    assert forall k :: k in queue <==> k in queue' || k == next;
  }

  /** Every opcode with a stack action lies on a path with that action, and reached calls are to analysed words. */
  ghost predicate AllReached(t: seq<Info>, done: set<nat>, code: seq<Op>, tr: Trace) {
    forall k :: 0 <= k < |code| && k < |tr.sa| && tr.sa[k].Some? ==>
      Reached(t, done, code, k, tr.sa[k].value) && (code[k].Call? ==> code[k].w in done)
  }

  /** Nothing left to explore: the trace is complete. */
  lemma Explored(t: seq<Info>, done: set<nat>, code: seq<Op>, tr: Trace, explored: set<nat>)
    requires Exploring(t, done, code, tr, [], explored, None)
    ensures Traced(t, code, tr) && AllReached(t, done, code, tr) && Attained(t, done, code, tr)
  {
    hide OpTraced, Reached, Attained;
    forall k | 0 <= k < |code| && tr.sa[k].Some?
      ensures OpTraced(t, code, tr, k) && (code[k].Call? ==> code[k].w in done)
    {
      assert Settled(t, done, code, tr, k);
    }
  }

  // ----- the words as the compiler keeps them -----

  /** A word: flowAnalysis is 0 before, 2 during and 1 after its analysis. */
  class T0Word {
    const body: Body
    var stackEffect: SType
    var flowAnalysis: int
    var maxDataStack: int
    var maxReturnStack: int
    ghost var trace: Trace

    constructor (body: Body, declared: SType)
      ensures this.body == body && flowAnalysis == 0
      ensures stackEffect == if body.Data? then SType(0, 1) else declared
    {
      this.body := body;
      stackEffect := if body.Data? then SType(0, 1) else declared;
      flowAnalysis, maxDataStack, maxReturnStack := 0, 0, 0;
      trace := Trace([], None, 0, 0, 0);
    }

    /** StackEffect, MaxDataStack and MaxReturnStack of a word that needs no further analysis. */
    function InfoOf(): Info
      reads this
    {
      if body.Interp? then Info(stackEffect, maxDataStack, maxReturnStack) else DefaultInfo(stackEffect)
    }

    predicate IsDone()
      reads this`flowAnalysis
    {
      body.Interp? ==> flowAnalysis == 1
    }
  }

  /** What a word's mutable fields hold at one moment. */
  datatype Entry = Entry(info: Info, effect: SType, flow: int, isDone: bool, trace: Trace)

  ghost function EntryOf(x: T0Word): Entry
    reads x
  {
    Entry(x.InfoOf(), x.stackEffect, x.flowAnalysis, x.IsDone(), x.trace)
  }

  ghost function Snapshot(ws: seq<T0Word>): (s: seq<Entry>)
    reads ws
    ensures |s| == |ws| && forall i :: 0 <= i < |ws| ==> s[i] == EntryOf(ws[i])
  {
    seq(|ws|, i requires 0 <= i < |ws| reads ws => EntryOf(ws[i]))
  }

  ghost function TableOf(s: seq<Entry>): (t: seq<Info>)
    ensures |t| == |s|
  {
    seq(|s|, i requires 0 <= i < |s| => s[i].info)
  }

  ghost function TracesOf(s: seq<Entry>): (trs: seq<Trace>)
    ensures |trs| == |s|
  {
    seq(|s|, i requires 0 <= i < |s| => s[i].trace)
  }

  ghost function DoneOf(s: seq<Entry>): (d: set<nat>) {
    set i: nat | i < |s| && s[i].isDone
  }

  ghost function PendingOf(s: seq<Entry>): (d: set<nat>) {
    set i: nat | i < |s| && s[i].flow == 0
  }

  /** Every call of every word has been resolved. */
  predicate Resolved(p: Program) {
    forall w, k :: 0 <= w < |p| && 0 <= k < |CodeOf(p, w)| && CodeOf(p, w)[k].Call? ==> CodeOf(p, w)[k].w < |p|
  }

  /** The objects are the words of the program. */
  ghost predicate Shape(ws: seq<T0Word>, p: Program) {
    |ws| == |p| && Resolved(p)
    && (forall i, j :: 0 <= i < j < |ws| ==> ws[i] != ws[j])
    && (forall i :: 0 <= i < |ws| ==> ws[i].body == p[i].body)
  }

  /** The effect a word ends up with: its declared one, or else the computed one. */
  function FinalEffect(declared: SType, tr: Trace): SType {
    if declared.IsKnown() then declared else Computed(tr)
  }

  /** The words marked as analysed are analysed; the others still have their declared effect. */
  ghost predicate Consistent(guarded: bool, p: Program, s: seq<Entry>) {
    |s| == |p|
    && (forall i :: 0 <= i < |s| ==>
          0 <= s[i].flow <= 2 && (s[i].isDone <==> (p[i].body.Interp? ==> s[i].flow == 1))
          && (!s[i].isDone ==> s[i].effect == p[i].declared)
          && s[i].info.effect == s[i].effect
          && (if p[i].body.Interp? then s[i].isDone ==> s[i].effect == FinalEffect(p[i].declared, s[i].trace)
              else s[i].info == DefaultInfo(s[i].effect)))
    && Analysed(p, TableOf(s), TracesOf(s), DoneOf(s))
    && Exact(guarded, p, TableOf(s), TracesOf(s), DoneOf(s))
  }

  /** The analyses say no more than the words' control paths do: every stack action belongs to a path, every
      maximum is attained. */
  ghost predicate Exact(guarded: bool, p: Program, t: seq<Info>, trs: seq<Trace>, done: set<nat>) {
    forall w :: w in done && w < |p| && w < |trs| && p[w].body.Interp? ==>
      AllReached(t, done, CodeOf(p, w), trs[w]) && Attained(t, done, CodeOf(p, w), trs[w]) && QueueFits(guarded, t, done, CodeOf(p, w))
  }

  /** As coded, a finished word has had room for all its targets. */
  ghost predicate QueueFits(guarded: bool, t: seq<Info>, done: set<nat>, code: seq<Op>) {
    !guarded ==> !Overfull(t, code) && CallsKnown(t, done, code, |code|)
  }

  /** The words under analysis are those of the chain of calls that leads here. */
  ghost predicate Ongoing(p: Program, s: seq<Entry>, chain: seq<nat>) {
    |s| == |p| && forall i: nat :: i < |s| && p[i].body.Interp? ==> (s[i].flow == 2 <==> i in chain)
  }

  /** Analysed words and words under analysis are left alone, and no word goes back to unanalysed. */
  ghost predicate Kept(s: seq<Entry>, s': seq<Entry>) {
    |s| == |s'| && PendingOf(s') <= PendingOf(s)
    && forall i :: 0 <= i < |s| && (s[i].isDone || s[i].flow == 2) ==> s'[i] == s[i]
  }

  lemma KeptTrans(s: seq<Entry>, s1: seq<Entry>, s2: seq<Entry>)
    requires Kept(s, s1) && Kept(s1, s2)
    ensures Kept(s, s2)
  {
  }

  lemma KeptExtends(s: seq<Entry>, s': seq<Entry>)
    requires Kept(s, s')
    ensures Extends(TableOf(s), DoneOf(s), TableOf(s'), DoneOf(s'))
  {
  }

  /** Everything known between two turns. */
  ghost predicate Ready(guarded: bool, p: Program, s: seq<Entry>, chain: seq<nat>) {
    Consistent(guarded, p, s) && Ongoing(p, s, chain) && CallChain(guarded, p, chain) && chain != [] && Top(chain) < |p|
    && p[Top(chain)].body.Interp?
  }

  datatype Merge = New | Same | Conflict | Outside

  /** MergeSA: the index check of the array access comes first. */
  method MergeSA(sa: array<Option<int>>, j: int, c: int) returns (m: Merge)
    modifies sa
    ensures m.Outside? <==> !(0 <= j < sa.Length)
    ensures m.New? <==> 0 <= j < sa.Length && old(sa[j]) == None
    ensures m.Same? <==> 0 <= j < sa.Length && old(sa[j]) == Some(c)
    ensures sa[..] == if m.New? then old(sa[..])[j := Some(c)] else old(sa[..])
  {
    if !(0 <= j < sa.Length) {
      return Outside;
    }
    if sa[j] == None {
      sa[j] := Some(c);
      return New;
    } else if sa[j] != Some(c) {
      return Conflict;
    } else {
      return Same;
    }
  }

  lemma ChainSuffix(guarded: bool, p: Program, chain: seq<nat>, i: nat)
    requires CallChain(guarded, p, chain) && i <= |chain|
    ensures CallChain(guarded, p, chain[i..])
    decreases |chain|
  {
    hide ReachedCall;
    if |chain| - i >= 2 {
      ChainSuffix(guarded, p, Pop(chain), i);
      assert Pop(chain[i..]) == Pop(chain)[i..];
    }
  }

  lemma ReadyWord(guarded: bool, p: Program, ws: seq<T0Word>, s: seq<Entry>, chain: seq<nat>)
    requires Shape(ws, p) && Ready(guarded, p, s, chain)
    ensures var w := Top(chain);
            w < |ws| == |p| && p[w].body.Interp? && ws[w].body.Interp? && CodeOf(p, w) == ws[w].body.code
            && Analysed(p, TableOf(s), TracesOf(s), DoneOf(s)) && Genuine(guarded, p, TableOf(s), TracesOf(s), DoneOf(s))
            && CallChain(guarded, p, chain) && chain != []
  {
    assert IsState(guarded, p, s, TableOf(s), TracesOf(s), DoneOf(s));
  }

  lemma CallInRange(ws: seq<T0Word>, p: Program, w: nat, off: nat, u: nat)
    requires Shape(ws, p) && off < |CodeOf(p, w)| && CodeOf(p, w)[off] == Call(u)
    ensures u < |ws|
  {
  }

  lemma EntryAt(ws: seq<T0Word>, i: nat)
    requires i < |ws|
    ensures var e := Snapshot(ws)[i];
            e.info == TableOf(Snapshot(ws))[i] == ws[i].InfoOf() && e.flow == ws[i].flowAnalysis && e.isDone == ws[i].IsDone()
            && e.trace == TracesOf(Snapshot(ws))[i] == ws[i].trace && e.effect == ws[i].stackEffect
            && (e.isDone <==> i in DoneOf(Snapshot(ws)))
            && (e.flow == 0 <==> i in PendingOf(Snapshot(ws)))
  {
  }

  /** Marking word w as being analysed changes nothing that is known of the others. */
  lemma BeginAnalysis(guarded: bool, p: Program, s: seq<Entry>, s': seq<Entry>, w: nat, chain: seq<nat>)
    requires Consistent(guarded, p, s) && Ongoing(p, s, chain) && w < |p| && p[w].body.Interp? && s[w].flow == 0
    requires s' == s[w := s[w].(flow := 2)]
    requires CallChain(guarded, p, chain + [w])
    ensures Ready(guarded, p, s', chain + [w]) && PendingOf(s') < PendingOf(s)
  {
    hide Analysed, CallChain, Exact;
    assert DoneOf(s') == DoneOf(s);
    assert TableOf(s') == TableOf(s);
    assert TracesOf(s') == TracesOf(s);
    assert w in PendingOf(s) && w !in PendingOf(s');
  }

  /** What recording the finished analysis of word w changes. */
  lemma EndExtends(s: seq<Entry>, s': seq<Entry>, w: nat)
    requires w < |s| == |s'| && s' == s[w := s'[w]] && !s[w].isDone && s'[w].isDone
    ensures DoneOf(s') == DoneOf(s) + {w} && w !in DoneOf(s)
    ensures Extends(TableOf(s), DoneOf(s), TableOf(s'), DoneOf(s'))
    ensures forall u :: u in DoneOf(s) ==> u < |s| && TracesOf(s')[u] == TracesOf(s)[u]
  {
  }

  /** Recording the finished analysis of word w. */
  lemma EndAnalysis(guarded: bool, p: Program, s: seq<Entry>, s': seq<Entry>, w: nat, tr: Trace, chain: seq<nat>)
    requires Ready(guarded, p, s, chain + [w]) && w < |p| && w !in chain && s[w].flow == 2
    requires Traced(TableOf(s), CodeOf(p, w), tr) && AllReached(TableOf(s), DoneOf(s), CodeOf(p, w), tr)
    requires Attained(TableOf(s), DoneOf(s), CodeOf(p, w), tr) && QueueFits(guarded, TableOf(s), DoneOf(s), CodeOf(p, w))
    requires |s'| == |s| && s' == s[w := s'[w]] && s'[w].flow == 1 && s'[w].isDone && s'[w].trace == tr
    requires s'[w].info.effect.IsKnown() && Computed(tr).IsSubOf(s'[w].info.effect)
    requires s'[w].info.effect == s'[w].effect == FinalEffect(p[w].declared, tr)
    requires s'[w].info.maxDataStack == tr.mds && s'[w].info.maxReturnStack == 1 + NumLocals(p, w) + tr.mrs
    ensures Consistent(guarded, p, s') && Ongoing(p, s', chain) && w in DoneOf(s')
  {
    hide Traced, AllReached, OpTraced, Computed, Analysed, Exact, Attained;
    assert p[w].body.Interp?;
    EndExtends(s, s', w);
    ExactGrows(guarded, p, TableOf(s), TracesOf(s), DoneOf(s), TableOf(s'), TracesOf(s'), w, tr);
    AnalysedGrows(p, TableOf(s), TracesOf(s), DoneOf(s), TableOf(s'), TracesOf(s'), w, tr);
  }

  lemma AnalysedGrows(p: Program, t: seq<Info>, trs: seq<Trace>, done: set<nat>, t': seq<Info>, trs': seq<Trace>, w: nat, tr: Trace)
    requires Analysed(p, t, trs, done) && w < |p| == |t'| == |trs'| && p[w].body.Interp? && w !in done
    requires Extends(t, done, t', done + {w})
    requires trs'[w] == tr && forall u :: u in done ==> u < |trs| && trs'[u] == trs[u]
    requires Traced(t, CodeOf(p, w), tr) && AllReached(t, done, CodeOf(p, w), tr)
    requires t'[w].effect.IsKnown() && Computed(tr).IsSubOf(t'[w].effect)
    requires t'[w].maxDataStack == tr.mds && t'[w].maxReturnStack == 1 + NumLocals(p, w) + tr.mrs
    ensures Analysed(p, t', trs', done + {w})
  {
    hide Traced, AllReached, Computed, Extends;
    var done' := done + {w};
    forall u | u in done'
      ensures u < |p| && WordAnalysed(p, t', u, trs'[u]) && CallsInside(p, trs', done', u)
    {
      if u == w {
        ReachedCallsInside(t, done, p, trs', done', w);
        ReachedCallsInside(t, done, p, trs', done, w);
        TracedExtends(p, t, done, t', done', w, trs');
      } else {
        AnalysedWord(p, t, trs, done, u);
        SameInfo(t, done, t', done', u);
        assert CallsInside(p, trs', done, u);
        if p[u].body.Interp? {
          TracedExtends(p, t, done, t', done', u, trs');
        }
      }
    }
    FoldAnalysed(p, t', trs', done');
  }

  lemma ExactGrows(guarded: bool, p: Program, t: seq<Info>, trs: seq<Trace>, done: set<nat>, t': seq<Info>, trs': seq<Trace>, w: nat, tr: Trace)
    requires Exact(guarded, p, t, trs, done) && w < |p| == |trs| == |trs'| && w !in done
    requires Extends(t, done, t', done + {w})
    requires trs'[w] == tr && forall u :: u in done ==> u < |trs| && trs'[u] == trs[u]
    requires AllReached(t, done, CodeOf(p, w), tr) && Attained(t, done, CodeOf(p, w), tr) && QueueFits(guarded, t, done, CodeOf(p, w))
    ensures Exact(guarded, p, t', trs', done + {w})
  {
    hide AllReached, Attained, Extends, QueueFits;
    var done' := done + {w};
    forall u | u in done' && u < |p| && u < |trs'| && p[u].body.Interp?
      ensures AllReached(t', done', CodeOf(p, u), trs'[u]) && Attained(t', done', CodeOf(p, u), trs'[u]) && QueueFits(guarded, t', done', CodeOf(p, u))
    {
      AllReachedExtends(t, done, t', done', CodeOf(p, u), trs'[u]);
      AttainedExtends(t, done, t', done', CodeOf(p, u), trs'[u]);
      QueueFitsExtends(guarded, t, done, t', done', CodeOf(p, u));
    }
  }

  lemma AfterExtends(t: seq<Info>, done: set<nat>, t': seq<Info>, done': set<nat>, code: seq<Op>, n: nat)
    requires Extends(t, done, t', done') && CallsKnown(t, done, code, n)
    ensures CallsKnown(t', done', code, n) && forall i: nat :: i <= n ==> After(t', code, i) == After(t, code, i)
  {
    forall i: nat | i < n
      ensures NextAgrees(t, t', code, After(t, code, i)) && NextKnown(done', code, After(t, code, i))
    {
      assert NextKnown(done, code, After(t, code, i));
    }
    forall i: nat | i <= n
      ensures After(t', code, i) == After(t, code, i)
    {
      AfterAgrees(t, t', code, i);
    }
  }

  lemma QueueFitsExtends(guarded: bool, t: seq<Info>, done: set<nat>, t': seq<Info>, done': set<nat>, code: seq<Op>)
    requires Extends(t, done, t', done') && QueueFits(guarded, t, done, code)
    ensures QueueFits(guarded, t', done', code)
  {
    if !guarded {
      AfterExtends(t, done, t', done', code, |code|);
    }
  }

  lemma RoomExtends(guarded: bool, t: seq<Info>, done: set<nat>, t': seq<Info>, done': set<nat>, code: seq<Op>, sa: seq<Option<int>>,
                    explored: set<nat>, front: seq<nat>, queue: seq<nat>, taken: nat, made: nat, turns: nat)
    requires Extends(t, done, t', done') && QueueRoom(guarded, t, done, code, sa, explored, front, queue, taken, made, turns)
    ensures QueueRoom(guarded, t', done', code, sa, explored, front, queue, taken, made, turns)
  {
    hide Extends, CallsKnown;
    if !guarded {
      AfterExtends(t, done, t', done', code, |explored|);
    }
  }

  lemma AllReachedExtends(t: seq<Info>, done: set<nat>, t': seq<Info>, done': set<nat>, code: seq<Op>, tr: Trace)
    requires Extends(t, done, t', done') && AllReached(t, done, code, tr)
    ensures AllReached(t', done', code, tr)
  {
    forall k: nat | k < |code| && k < |tr.sa| && tr.sa[k].Some?
      ensures Reached(t', done', code, k, tr.sa[k].value)
    {
      ReachExtends(t, done, t', done', code, k, tr.sa[k].value);
    }
  }

  lemma SameInfo(t: seq<Info>, done: set<nat>, t': seq<Info>, done': set<nat>, u: nat)
    requires Extends(t, done, t', done') && u in done && u < |t|
    ensures u < |t'| && t'[u] == t[u]
  {
  }

  lemma AnalysedWord(p: Program, t: seq<Info>, trs: seq<Trace>, done: set<nat>, w: nat)
    requires Analysed(p, t, trs, done) && w in done
    ensures w < |p| == |trs| == |t| && WordAnalysed(p, t, w, trs[w]) && CallsInside(p, trs, done, w)
  {
  }

  lemma FoldAnalysed(p: Program, t: seq<Info>, trs: seq<Trace>, done: set<nat>)
    requires |t| == |p| == |trs|
    requires forall u :: u in done ==> u < |p| && WordAnalysed(p, t, u, trs[u]) && CallsInside(p, trs, done, u)
    ensures Analysed(p, t, trs, done)
  {
    hide WordAnalysed;
    forall w | w in done && p[w].body.Interp?
      ensures |trs[w].sa| == |p[w].body.code|
    {
      TraceLength(p, t, w, trs[w]);
    }
  }

  lemma TraceLength(p: Program, t: seq<Info>, w: nat, tr: Trace)
    requires |t| == |p| && w < |p| && WordAnalysed(p, t, w, tr) && p[w].body.Interp?
    ensures |tr.sa| == |p[w].body.code|
  {
  }

  predicate CallsInside(p: Program, trs: seq<Trace>, done: set<nat>, w: nat)
    requires w < |p| == |trs|
  {
    p[w].body.Interp? ==> forall k :: 0 <= k < |p[w].body.code| && k < |trs[w].sa| && trs[w].sa[k].Some? && p[w].body.code[k].Call? ==>
      p[w].body.code[k].w in done
  }

  lemma ReachedCallsInside(t: seq<Info>, done: set<nat>, p: Program, trs: seq<Trace>, done': set<nat>, w: nat)
    requires w < |p| == |trs| && AllReached(t, done, CodeOf(p, w), trs[w]) && done <= done'
    ensures CallsInside(p, trs, done', w)
  {
  }

  lemma TracedExtends(p: Program, t: seq<Info>, done: set<nat>, t': seq<Info>, done': set<nat>, w: nat, trs: seq<Trace>)
    requires Extends(t, done, t', done') && w < |p| == |trs| && p[w].body.Interp?
    requires Traced(t, CodeOf(p, w), trs[w]) && CallsInside(p, trs, done, w)
    ensures Traced(t', CodeOf(p, w), trs[w])
  {
    hide OpTraced;
    forall k | 0 <= k < |CodeOf(p, w)| && trs[w].sa[k].Some?
      ensures OpTraced(t', CodeOf(p, w), trs[w], k)
    {
      OpTracedExtends(t, done, t', done', CodeOf(p, w), trs[w], k);
    }
  }

  /** AnalyseFlow on word w, called from the words of `chain`. */
  method AnalyseFlow(guarded: bool, ws: seq<T0Word>, w: nat, ghost p: Program, ghost chain: seq<nat>) returns (r: Outcome)
    requires Shape(ws, p) && w < |ws| && Consistent(guarded, p, Snapshot(ws))
    requires CallChain(guarded, p, chain + [w]) && Ongoing(p, Snapshot(ws), chain)
    modifies ws
    ensures Justified(guarded, p, r)
    ensures Located(guarded, p, chain + [w], r)
    ensures r.Done? ==> Consistent(guarded, p, Snapshot(ws)) && Ongoing(p, Snapshot(ws), chain) && Kept(old(Snapshot(ws)), Snapshot(ws))
    ensures r.Done? ==> w in DoneOf(Snapshot(ws))
    decreases PendingOf(Snapshot(ws)), 1
  {
    hide Analysed, Justified, TableOf, TracesOf, DoneOf, PendingOf, Snapshot, Ready;
    ghost var s0 := Snapshot(ws);
    EntryAt(ws, w);
    JustifiedDone(guarded, p);
    KeptRefl(s0);
    if !ws[w].body.Interp? || ws[w].flowAnalysis == 1 {
      return Done;
    }
    if ws[w].flowAnalysis == 2 {
      CycleFound(guarded, p, chain, w);
      LocatedCycle(guarded, p, chain, w);
      return Recursive;
    }
    ws[w].flowAnalysis := 2;
    ghost var s1 := Snapshot(ws);
    OneEntry(s0, s1, w);
    EntryAt(ws, w);
    BeginAnalysis(guarded, p, s0, s1, w, chain);
    assert Top(chain + [w]) == w;
    var exitSA, mds, mrs, maxDepth;
    ghost var tr, turns, s2;
    r, exitSA, mds, mrs, maxDepth, tr, turns, s2 := Explore(guarded, ws, w, p, chain + [w]);
    if r != Done {
      return;
    }
    StillUnderWay(s1, s2, w);
    NotInChain(p, s0, chain, w);
    r := Conclude(guarded, ws, w, exitSA, mds, mrs, maxDepth, p, chain, s2, tr);
    LocatedHere(guarded, p, chain + [w], w, r);
    if r.Done? {
      KeptThrough(s0, s1, s2, Snapshot(ws), w);
    }
  }

  /** The end of an analysis: the maxima, the computed effect against the declared one, the mark. */
  method Conclude(guarded: bool, ws: seq<T0Word>, w: nat, exitSA: Option<int>, mds: int, mrs: int, maxDepth: int,
                  ghost p: Program, ghost chain: seq<nat>, ghost s: seq<Entry>, ghost tr: Trace) returns (r: Outcome)
    requires Shape(ws, p) && s == Snapshot(ws) && Ready(guarded, p, s, chain + [w]) && w < |p| && w !in chain && s[w].flow == 2
    requires tr == Trace(tr.sa, exitSA, maxDepth, mds, mrs)
    requires Traced(TableOf(s), CodeOf(p, w), tr) && AllReached(TableOf(s), DoneOf(s), CodeOf(p, w), tr)
    requires Attained(TableOf(s), DoneOf(s), CodeOf(p, w), tr) && QueueFits(guarded, TableOf(s), DoneOf(s), CodeOf(p, w))
    modifies ws[w]
    ensures Justified(guarded, p, r)
    ensures r == Done || EndsAt(r, w)
    ensures r.Done? ==> Consistent(guarded, p, Snapshot(ws)) && Ongoing(p, Snapshot(ws), chain) && w in DoneOf(Snapshot(ws))
    ensures r.Done? ==> Snapshot(ws) == s[w := Snapshot(ws)[w]] && Snapshot(ws)[w].flow == 1
  {
    hide Analysed, Justified, TableOf, TracesOf, DoneOf, PendingOf, Snapshot, Ready, Traced, AllReached, Attained, Consistent;
    JustifiedDone(guarded, p);
    ReadyTop(guarded, p, s, chain, w);
    EntryAt(ws, w);
    ReadyWord(guarded, p, ws, s, chain + [w]);
    ws[w].maxDataStack := mds;
    ws[w].maxReturnStack := 1 + ws[w].body.numLocals + mrs;
    var computed := match exitSA
      case None => MakeSType(-maxDepth, -1)
      case Some(e) => MakeSType(-maxDepth, -maxDepth + e);
    if ws[w].stackEffect.IsKnown() {
      if !computed.IsSubOf(ws[w].stackEffect) {
        JustifiedNotSub(guarded, p, w, TableOf(s), TracesOf(s), DoneOf(s), tr);
        return NotSubEffect(w);
      }
    } else {
      ws[w].stackEffect := computed;
    }
    ws[w].flowAnalysis := 1;
    ws[w].trace := tr;
    ghost var s' := Snapshot(ws);
    OneEntry(s, s', w);
    EffectKnown(TableOf(s), CodeOf(p, w), tr);
    EntryAt(ws, w);
    EndAnalysis(guarded, p, s, s', w, tr, chain);
    r := Done;
  }

  lemma ReadyTop(guarded: bool, p: Program, s: seq<Entry>, chain: seq<nat>, w: nat)
    requires Ready(guarded, p, s, chain + [w]) && w < |s| && s[w].flow == 2
    ensures Top(chain + [w]) == w && s[w].effect == p[w].declared
  {
  }

  /** Changing one word changes one entry. */
  lemma OneEntry(s: seq<Entry>, s': seq<Entry>, w: nat)
    requires w < |s| == |s'| && forall i :: 0 <= i < |s| && i != w ==> s'[i] == s[i]
    ensures s' == s[w := s'[w]]
  {
  }

  lemma StillUnderWay(s: seq<Entry>, s': seq<Entry>, w: nat)
    requires Kept(s, s') && w < |s| && s[w].flow == 2
    ensures s'[w] == s[w]
  {
  }

  lemma JustifiedNotSub(guarded: bool, p: Program, w: nat, t: seq<Info>, trs: seq<Trace>, done: set<nat>, tr: Trace)
    requires Contradicts(guarded, p, w, t, trs, done, tr)
    ensures Justified(guarded, p, NotSubEffect(w))
  {
  }

  /** The computed effect is known, and a sub-effect of itself. */
  lemma EffectKnown(t: seq<Info>, code: seq<Op>, tr: Trace)
    requires Traced(t, code, tr)
    ensures Computed(tr).IsKnown() && Computed(tr).IsSubOf(Computed(tr))
  {
  }

  lemma NotInChain(p: Program, s: seq<Entry>, chain: seq<nat>, w: nat)
    requires Ongoing(p, s, chain) && w < |p| && p[w].body.Interp? && s[w].flow != 2
    ensures w !in chain
  {
  }

  lemma KeptThrough(s0: seq<Entry>, s1: seq<Entry>, s2: seq<Entry>, s3: seq<Entry>, w: nat)
    requires w < |s0| == |s1| && !s0[w].isDone && s0[w].flow == 0
    requires s1 == s0[w := s1[w]] && s1[w].flow == 2 && Kept(s1, s2) && |s2| == |s3| && s3 == s2[w := s3[w]] && s3[w].flow == 1
    ensures Kept(s0, s3)
  {
    assert forall i :: i in PendingOf(s3) ==> i in PendingOf(s2) && i != w;
    assert forall i :: i in PendingOf(s2) ==> i in PendingOf(s1);
  }

  lemma CycleFound(guarded: bool, p: Program, chain: seq<nat>, w: nat)
    requires CallChain(guarded, p, chain + [w]) && w in chain
    ensures Justified(guarded, p, Recursive)
  {
    hide CallChain;
    var i :| 0 <= i < |chain| && chain[i] == w;
    ChainSuffix(guarded, p, chain + [w], i);
    ShowCycle(guarded, p, (chain + [w])[i..]);
  }

  lemma ShowCycle(guarded: bool, p: Program, cycle: seq<nat>)
    requires CallChain(guarded, p, cycle) && |cycle| >= 2 && cycle[0] == Top(cycle)
    ensures Justified(guarded, p, Recursive)
  {
  }

  /** The part of one turn that concerns calls: the target is analysed first. */
  method VisitCall(guarded: bool, ws: seq<T0Word>, w: nat, off: nat, c: int, u: nat, mds0: int, mrs0: int, maxDepth0: int,
                   ghost p: Program, ghost chain: seq<nat>, ghost s0: seq<Entry>, ghost code: seq<Op>,
                   ghost tr0: Trace, ghost queue: seq<nat>, ghost explored: set<nat>)
    returns (r: Outcome, a: int, mft: bool, mds: int, mrs: int, maxDepth: int, ghost s: seq<Entry>)
    requires chain != [] && Top(chain) == w && Shape(ws, p) && s0 == Snapshot(ws) && Ready(guarded, p, s0, chain) && code == CodeOf(p, w)
    requires Exploring(TableOf(s0), DoneOf(s0), code, tr0, queue, explored, Some(off))
    requires off < |code| && off < |tr0.sa| && tr0.sa[off] == Some(c)
    requires tr0.maxDepth == maxDepth0 && tr0.mds == mds0 && tr0.mrs == mrs0
    requires code[off] == Call(u)
    modifies ws
    ensures Justified(guarded, p, r)
    ensures Located(guarded, p, chain, r)
    ensures r.Done? ==> s == Snapshot(ws) && Ready(guarded, p, s, chain) && Kept(s0, s)
    ensures r.Done? ==>
      Exploring(TableOf(s), DoneOf(s), code, tr0, queue, explored, Some(off))
      && u < |TableOf(s)| && a == Delta(TableOf(s), Call(u)) && mft == Continues(TableOf(s), Call(u))
      && maxDepth == Min(maxDepth0, c - TableOf(s)[u].effect.din)
      && mds == Max(mds0, c + TableOf(s)[u].maxDataStack) && mrs == Max(mrs0, TableOf(s)[u].maxReturnStack)
      && CallTraced(TableOf(s), Trace(tr0.sa, tr0.exitSA, maxDepth, mds, mrs), c, u) && u in DoneOf(s)
    decreases PendingOf(Snapshot(ws)), 2
  {
    hide Exploring, Analysed, Justified, Shape, Consistent, Ongoing, TableOf, TracesOf, DoneOf, PendingOf, Kept, Snapshot;
    a, mft, mds, mrs, maxDepth, s := 0, true, mds0, mrs0, maxDepth0, s0;
    ReadyWord(guarded, p, ws, s0, chain);
    ExploringCurrent(TableOf(s0), DoneOf(s0), code, tr0, queue, explored, off);
    CallReached(guarded, p, w, off, c, u, TableOf(s0), TracesOf(s0), DoneOf(s0));
    assert Pop(chain + [u]) == chain && Top(chain + [u]) == u;
    CallInRange(ws, p, w, off, u);
    r := AnalyseFlow(guarded, ws, u, p, chain);
    LocatedDeeper(guarded, p, chain, u, r);
    if r != Done {
      return;
    }
    s := Snapshot(ws);
    EntryAt(ws, u);
    KeptExtends(s0, s);
    ExploringExtends(TableOf(s0), DoneOf(s0), TableOf(s), DoneOf(s), code, tr0, queue, explored, Some(off));
    var info := ws[u].InfoOf();
    if !info.effect.IsKnown() {
      UnknownMeans(guarded, p, s, u);
      JustifiedUnknown(guarded, p, w, u);
      r := UnknownEffect(w, u);
      LocatedHere(guarded, p, chain, w, r);
      return;
    }
    if info.effect.NoExit() {
      mft, a := false, 0;
    } else {
      a := info.effect.dout - info.effect.din;
    }
    mds := Max(mds, c + info.maxDataStack);
    mrs := Max(mrs, info.maxReturnStack);
    maxDepth := Min(maxDepth, c - info.effect.din);
  }

  lemma JustifiedUnknown(guarded: bool, p: Program, w: nat, u: nat)
    requires ReachedCall(guarded, p, w, u) && NeverKnown(p, u)
    ensures Justified(guarded, p, UnknownEffect(w, u))
  {
  }

  /** The effect of a word that has been through the analysis is known, unless it is native and undeclared. */
  lemma UnknownMeans(guarded: bool, p: Program, s: seq<Entry>, u: nat)
    requires Consistent(guarded, p, s) && u in DoneOf(s) && u < |s| && !s[u].info.effect.IsKnown()
    ensures NeverKnown(p, u)
  {
    hide Traced, Exact;
    AnalysedWord(p, TableOf(s), TracesOf(s), DoneOf(s), u);
  }

  lemma ExploringCurrent(t: seq<Info>, done: set<nat>, code: seq<Op>, tr: Trace, queue: seq<nat>, explored: set<nat>, off: nat)
    requires Exploring(t, done, code, tr, queue, explored, Some(off))
    ensures off < |code| == |tr.sa| && tr.sa[off].Some? && Reached(t, done, code, off, tr.sa[off].value)
  {
  }

  lemma CallReached(guarded: bool, p: Program, w: nat, off: nat, c: int, u: nat, t: seq<Info>, trs: seq<Trace>, done: set<nat>)
    requires Genuine(guarded, p, t, trs, done) && Reached(t, done, CodeOf(p, w), off, c)
    requires off < |CodeOf(p, w)| && CodeOf(p, w)[off] == Call(u)
    ensures ReachedCall(guarded, p, w, u)
  {
    assert Evidence(guarded, p, w, off, c, t, trs, done);
  }

  lemma ExitsDiffer(guarded: bool, p: Program, w: nat, off: nat, c: int, e: int, t: seq<Info>, trs: seq<Trace>, done: set<nat>)
    requires Genuine(guarded, p, t, trs, done) && Reached(t, done, CodeOf(p, w), off, c)
    requires off < |CodeOf(p, w)| && CodeOf(p, w)[off].Ret?
    requires ExitSeen(t, done, CodeOf(p, w), e) && e != c
    ensures Justified(guarded, p, ExitMismatch(w))
  {
    var k: nat :| k < |CodeOf(p, w)| && CodeOf(p, w)[k].Ret? && Reached(t, done, CodeOf(p, w), k, e);
    assert Evidence(guarded, p, w, k, e, t, trs, done) && Evidence(guarded, p, w, off, c, t, trs, done);
  }

  /** The kind-specific part of one turn of the loop: stack action `a`, whether control may go on, and the
      updated maxima. */
  method Visit(guarded: bool, ws: seq<T0Word>, w: nat, op: Op, off: nat, c: int, exitSA0: Option<int>, mds0: int, mrs0: int, maxDepth0: int,
               ghost p: Program, ghost chain: seq<nat>, ghost s0: seq<Entry>, ghost code: seq<Op>,
               ghost sa: seq<Option<int>>, ghost queue: seq<nat>, ghost explored: set<nat>)
    returns (r: Outcome, a: int, mft: bool, exitSA: Option<int>, mds: int, mrs: int, maxDepth: int, ghost s: seq<Entry>)
    requires chain != [] && Top(chain) == w && Shape(ws, p) && s0 == Snapshot(ws) && Ready(guarded, p, s0, chain) && code == CodeOf(p, w)
    requires off < |code| && off < |sa| && sa[off] == Some(c) && op == code[off]
    requires Exploring(TableOf(s0), DoneOf(s0), code, Trace(sa, exitSA0, maxDepth0, mds0, mrs0), queue, explored, Some(off))
    modifies ws
    ensures Justified(guarded, p, r)
    ensures Located(guarded, p, chain, r)
    ensures r.Done? ==> s == Snapshot(ws) && Ready(guarded, p, s, chain) && Kept(s0, s)
    ensures r.Done? ==> a == Delta(TableOf(s), op) && mft == Continues(TableOf(s), op)
    ensures r.Done? ==>
      var tr := Trace(sa, exitSA, maxDepth, mds, mrs);
      Exploring(TableOf(s), DoneOf(s), code, tr, queue, explored, Some(off))
      && OpCovered(TableOf(s), op, tr, c) && (op.Call? ==> op.w in DoneOf(s))
    decreases PendingOf(Snapshot(ws)), 3
  {
    hide Exploring, Analysed, Attained, Justified, Shape, Consistent, Ongoing, TableOf, TracesOf, DoneOf, PendingOf, Snapshot;
    ghost var tr0 := Trace(sa, exitSA0, maxDepth0, mds0, mrs0);
    ReadyWord(guarded, p, ws, s0, chain);
    ExploringCurrent(TableOf(s0), DoneOf(s0), code, tr0, queue, explored, off);
    ExploringDepth(TableOf(s0), DoneOf(s0), code, tr0, queue, explored, off);
    r, exitSA, mds, mrs, maxDepth, s := Done, exitSA0, mds0, mrs0, maxDepth0, s0;
    mft := op.MayFallThrough();
    JustifiedDone(guarded, p);
    if op.Call? {
      r, a, mft, mds, mrs, maxDepth, s := VisitCall(guarded, ws, w, off, c, op.w, mds0, mrs0, maxDepth0, p, chain, s0, code, tr0, queue, explored);
      if r != Done {
        return;
      }
    } else if op.Ret? {
      a := 0;
      if exitSA == None {
        exitSA := Some(c);
      } else if exitSA != Some(c) {
        ExitsDiffer(guarded, p, w, off, c, exitSA.value, TableOf(s), TracesOf(s), DoneOf(s));
        r := ExitMismatch(w);
        LocatedHere(guarded, p, chain, w, r);
        return;
      }
      assert ExitSeen(TableOf(s), DoneOf(s), code, c);
    } else {
      a := op.StackAction();
      mds := Max(mds, c + a);
    }
    maxDepth := Min(maxDepth, c + a);
    ghost var tr := Trace(sa, exitSA, maxDepth, mds, mrs);
    assert Grows(tr0, tr);
    ExploringDepth(TableOf(s), DoneOf(s), code, tr0, queue, explored, off);
    AttainedVisit(TableOf(s), DoneOf(s), code, tr0, tr, off);
    ExploringGrows(TableOf(s), DoneOf(s), code, tr0, tr, queue, explored, Some(off));
  }

  lemma JustifiedDone(guarded: bool, p: Program)
    ensures Justified(guarded, p, Done)
  {
  }

  lemma ExploringDepth(t: seq<Info>, done: set<nat>, code: seq<Op>, tr: Trace, queue: seq<nat>, explored: set<nat>, off: nat)
    requires Exploring(t, done, code, tr, queue, explored, Some(off))
    ensures off < |tr.sa| && tr.sa[off].Some? && tr.maxDepth <= tr.sa[off].value && Attained(t, done, code, tr)
    ensures tr.exitSA.Some? ==> ExitSeen(t, done, code, tr.exitSA.value)
  {
  }

  /** The part of the array of targets that is still to be explored. */
  ghost function Waiting(toExplore: array<nat>, tX: nat, tY: nat): (q: seq<nat>)
    reads toExplore
  {
    if tX <= tY <= toExplore.Length then toExplore[tX..tY] else []
  }

  /** Stack actions and queue of one exploration. */
  ghost predicate Buffers(sa: array<Option<int>>, toExplore: array<nat>, n: nat, tX: nat, tY: nat)
    reads sa, toExplore
  {
    sa.Length == n && toExplore.Length == n && tX <= tY <= n
  }

  /** A jump's target is put at the end of the queue, whether or not it has been seen before. */
  method FollowJump(guarded: bool, sa: array<Option<int>>, toExplore: array<nat>, tX: nat, tY0: nat, off: nat, c: int,
                    w: nat, ghost p: Program, ghost t: seq<Info>, ghost trs: seq<Trace>, ghost done: set<nat>, code: seq<Op>,
                    ghost tr: Trace, ghost explored: set<nat>, ghost turns: nat)
    returns (r: Outcome, tY: nat)
    requires !guarded && code == CodeOf(p, w) && off < |code| && code[off].JumpDisp() != 0
    requires Buffers(sa, toExplore, |code|, tX, tY0) && sa[..] == tr.sa
    requires Genuine(guarded, p, t, trs, done)
    requires Exploring(t, done, code, tr, Waiting(toExplore, tX, tY0), explored, Some(off))
    requires OpCovered(t, code[off], tr, tr.sa[off].value) && c == tr.sa[off].value + Delta(t, code[off])
    requires QueueRoom(guarded, t, done, code, tr.sa, explored, [off], Waiting(toExplore, tX, tY0), tX, tY0, turns)
    modifies sa, toExplore
    ensures Justified(guarded, p, r)
    ensures r == Done || EndsAt(r, w)
    ensures r.QueueFull? <==> tY0 == |code|
    ensures r.Done? ==> Buffers(sa, toExplore, |code|, tX, tY)
    ensures r.Done? ==> Grows(tr, tr.(sa := sa[..])) && Unset(sa[..]) <= Unset(tr.sa)
    ensures r.Done? ==> Exploring(t, done, code, tr.(sa := sa[..]), Waiting(toExplore, tX, tY), explored, Some(off))
    ensures r.Done? ==> var j := off + 1 + code[off].JumpDisp(); 0 <= j < |code| && sa[j] == Some(c)
    ensures r.Done? ==> Pushed(code, off, tr.sa, sa[..], old(Waiting(toExplore, tX, tY0)), Waiting(toExplore, tX, tY))
  {
    hide Exploring, Analysed, Justified, Evidence, Edge, Unset, OpCovered, QueueRoom, ManyTargets;
    JustifiedDone(guarded, p);
    tY, r := tY0, Done;
    var j := off + 1 + code[off].JumpDisp();
    ExploringCurrent(t, done, code, tr, Waiting(toExplore, tX, tY0), explored, off);
    if tY == toExplore.Length {
      QueueOverflow(p, w, t, trs, done, tr.sa, explored, off, Waiting(toExplore, tX, tY), tX, tY, turns);
      return QueueFull(w), tY;
    }
    if j < 0 {
      JumpsOff(guarded, p, w, off, tr.sa[off].value, t, trs, done);
      return OutOfCode(w), tY;
    }
    ghost var queue := Waiting(toExplore, tX, tY);
    toExplore[tY] := j;
    tY := tY + 1;
    assert Waiting(toExplore, tX, tY) == queue + [j];
    var m := MergeSA(sa, j, c);
    match m {
      case Outside =>
        JumpsOff(guarded, p, w, off, tr.sa[off].value, t, trs, done);
        return OutOfCode(w), tY;
      case Conflict =>
        JumpEdge(t, done, code, off, j, tr);
        JumpConflict(guarded, p, w, off, j, t, trs, done, tr, queue, explored);
        return Mismatch(w, j), tY;
      case New =>
        UnsetUpdate(tr.sa, j, c);
        JumpEdge(t, done, code, off, j, tr);
        ExploringMerge(t, done, code, tr, tr.(sa := sa[..]), queue, explored, off, j);
      case Same =>
        ExploringQueue(t, done, code, tr, queue, explored, off, j);
        assert tr.(sa := sa[..]) == tr;
    }
    assert Waiting(toExplore, tX, tY) == queue + [j];
    MetMerge(tr.sa, sa[..], j, c);
  }

  /** The repaired form: only a target reached for the first time is queued. */
  method FollowGuarded(guarded: bool, sa: array<Option<int>>, toExplore: array<nat>, tX: nat, tY0: nat, off: nat, c: int,
                       w: nat, ghost p: Program, ghost t: seq<Info>, ghost trs: seq<Trace>, ghost done: set<nat>, code: seq<Op>,
                       ghost tr: Trace, ghost explored: set<nat>)
    returns (r: Outcome, tY: nat)
    requires guarded && code == CodeOf(p, w) && off < |code| && code[off].JumpDisp() != 0
    requires Buffers(sa, toExplore, |code|, tX, tY0) && sa[..] == tr.sa
    requires Genuine(guarded, p, t, trs, done)
    requires Exploring(t, done, code, tr, Waiting(toExplore, tX, tY0), explored, Some(off))
    requires OpCovered(t, code[off], tr, tr.sa[off].value) && c == tr.sa[off].value + Delta(t, code[off])
    requires tY0 + Unset(tr.sa) < |code|
    modifies sa, toExplore
    ensures Justified(guarded, p, r)
    ensures r == Done || EndsAt(r, w)
    ensures r.Done? ==> Buffers(sa, toExplore, |code|, tX, tY)
    ensures r.Done? ==> Grows(tr, tr.(sa := sa[..]))
    ensures r.Done? ==> Exploring(t, done, code, tr.(sa := sa[..]), Waiting(toExplore, tX, tY), explored, Some(off))
    ensures r.Done? ==> var j := off + 1 + code[off].JumpDisp(); 0 <= j < |code| && sa[j] == Some(c)
    ensures r.Done? ==> Unset(sa[..]) <= Unset(tr.sa) && tY + Unset(sa[..]) < |code|
  {
    hide Exploring, Analysed, Justified, Evidence, Edge, Unset, OpCovered;
    JustifiedDone(guarded, p);
    tY, r := tY0, Done;
    var j := off + 1 + code[off].JumpDisp();
    ghost var queue := Waiting(toExplore, tX, tY);
    ExploringCurrent(t, done, code, tr, queue, explored, off);
    var m := MergeSA(sa, j, c);
    match m {
      case Outside =>
        JumpsOff(guarded, p, w, off, tr.sa[off].value, t, trs, done);
        r := OutOfCode(w);
      case Conflict =>
        JumpEdge(t, done, code, off, j, tr);
        JumpConflict(guarded, p, w, off, j, t, trs, done, tr, queue, explored);
        r := Mismatch(w, j);
      case New =>
        UnsetUpdate(tr.sa, j, c);
        JumpEdge(t, done, code, off, j, tr);
        ExploringMerge(t, done, code, tr, tr.(sa := sa[..]), queue, explored, off, j);
        toExplore[tY] := j;
        tY := tY + 1;
        assert Waiting(toExplore, tX, tY) == queue + [j];
      case Same =>
        assert tr.(sa := sa[..]) == tr;
    }
  }

  lemma QueueOverflow(p: Program, w: nat, t: seq<Info>, trs: seq<Trace>, done: set<nat>, sa: seq<Option<int>>, explored: set<nat>,
                      off: nat, queue: seq<nat>, taken: nat, made: nat, turns: nat)
    requires Genuine(false, p, t, trs, done)
    requires QueueRoom(false, t, done, CodeOf(p, w), sa, explored, [off], queue, taken, made, turns)
    requires off < |CodeOf(p, w)| && CodeOf(p, w)[off].JumpDisp() != 0 && made == |CodeOf(p, w)|
    ensures Justified(false, p, QueueFull(w))
  {
    hide Genuine, QueueRoom, TooManyTargets;
    RoomOver(t, done, CodeOf(p, w), sa, explored, off, queue, taken, made, turns);
    assert ManyTargets(p, w, t, trs, done, |explored|);
  }

  lemma MetMerge(sa: seq<Option<int>>, sa': seq<Option<int>>, j: nat, c: int)
    requires j < |sa| && (sa' == sa[j := Some(c)] || (sa' == sa && sa[j] == Some(c)))
    ensures Met(sa, sa', j)
  {
  }

  lemma JumpsOff(guarded: bool, p: Program, w: nat, off: nat, c: int, t: seq<Info>, trs: seq<Trace>, done: set<nat>)
    requires Genuine(guarded, p, t, trs, done) && Reached(t, done, CodeOf(p, w), off, c) && off < |CodeOf(p, w)|
    requires LeavesFrom(t, done, CodeOf(p, w), off)
    ensures Justified(guarded, p, OutOfCode(w))
  {
    assert Evidence(guarded, p, w, off, c, t, trs, done);
  }

  lemma JumpEdge(t: seq<Info>, done: set<nat>, code: seq<Op>, off: nat, j: nat, tr: Trace)
    requires off < |code| && j < |code| && code[off].JumpDisp() != 0 && j == off + 1 + code[off].JumpDisp()
    requires |tr.sa| == |code| && tr.sa[off].Some? && OpCovered(t, code[off], tr, tr.sa[off].value)
    ensures Edge(t, done, code, off, j) && tr.maxDepth <= tr.sa[off].value + Delta(t, code[off])
  {
  }

  lemma JumpConflict(guarded: bool, p: Program, w: nat, off: nat, j: nat, t: seq<Info>, trs: seq<Trace>, done: set<nat>,
                     tr: Trace, queue: seq<nat>, explored: set<nat>)
    requires Genuine(guarded, p, t, trs, done)
    requires Exploring(t, done, CodeOf(p, w), tr, queue, explored, Some(off))
    requires Edge(t, done, CodeOf(p, w), off, j)
    requires j < |tr.sa| && tr.sa[j].Some? && off < |tr.sa| && tr.sa[off].Some?
    requires tr.sa[j].value != tr.sa[off].value + Delta(t, CodeOf(p, w)[off])
    ensures Justified(guarded, p, Mismatch(w, j))
  {
    hide Analysed, Attained, Settled, Justified;
    ReachEdge(t, done, CodeOf(p, w), off, tr.sa[off].value, j);
    TwoActions(guarded, p, w, j, tr.sa[j].value, tr.sa[off].value + Delta(t, CodeOf(p, w)[off]), t, trs, done);
  }

  lemma TwoActions(guarded: bool, p: Program, w: nat, j: nat, c1: int, c2: int, t: seq<Info>, trs: seq<Trace>, done: set<nat>)
    requires Genuine(guarded, p, t, trs, done) && c1 != c2
    requires Reached(t, done, CodeOf(p, w), j, c1) && Reached(t, done, CodeOf(p, w), j, c2)
    ensures Justified(guarded, p, Mismatch(w, j))
  {
    hide Analysed, Reached;
    assert Evidence(guarded, p, w, j, c1, t, trs, done) && Evidence(guarded, p, w, j, c2, t, trs, done);
  }

  /** Control goes on to the next opcode: it becomes the current one unless it was seen before. */
  method FallThrough(guarded: bool, sa: array<Option<int>>, off: nat, c: int, ghost c0: int,
                     w: nat, ghost p: Program, ghost t: seq<Info>, ghost trs: seq<Trace>, ghost done: set<nat>, code: seq<Op>,
                     ghost tr: Trace, ghost queue: seq<nat>, ghost explored: set<nat>)
    returns (r: Outcome, isNew: bool)
    requires code == CodeOf(p, w) && off < |code| && sa.Length == |code| && sa[..] == tr.sa
    requires Genuine(guarded, p, t, trs, done)
    requires Exploring(t, done, code, tr, queue, explored, Some(off))
    requires tr.sa[off] == Some(c0) && OpCovered(t, code[off], tr, c0) && c == c0 + Delta(t, code[off])
    requires Continues(t, code[off])
    requires code[off].Call? ==> code[off].w in done
    modifies sa
    ensures Justified(guarded, p, r)
    ensures r == Done || EndsAt(r, w)
    ensures r.Done? ==> off + 1 < |code| && sa[off + 1] == Some(c) && Grows(tr, tr.(sa := sa[..]))
    ensures r.Done? ==> Unset(sa[..]) == Unset(tr.sa) - (if isNew then 1 else 0)
    ensures r.Done? ==>
      Exploring(t, done, code, tr.(sa := sa[..]), if isNew then queue + [off + 1] else queue, explored, Some(off))
    ensures r.Done? ==> Fell(t, code, off, tr.sa, sa[..], isNew)
    ensures r.Done? && isNew ==> tr.sa[off + 1].None?
  {
    hide Exploring, Analysed, Justified, Evidence, Edge, Unset, OpCovered, Met;
    JustifiedDone(guarded, p);
    ExploringCurrent(t, done, code, tr, queue, explored, off);
    var m := MergeSA(sa, off + 1, c);
    r, isNew := Done, m.New?;
    match m
    case Outside =>
      JumpsOff(guarded, p, w, off, c0, t, trs, done);
      r := OutOfCode(w);
    case Conflict =>
      NextEdge(t, done, code, off, tr);
      JumpConflict(guarded, p, w, off, off + 1, t, trs, done, tr, queue, explored);
      r := Mismatch(w, off + 1);
    case New =>
      MetMerge(tr.sa, sa[..], off + 1, c);
      UnsetUpdate(tr.sa, off + 1, c);
      NextEdge(t, done, code, off, tr);
      ExploringMerge(t, done, code, tr, tr.(sa := sa[..]), queue, explored, off, off + 1);
    case Same =>
      MetMerge(tr.sa, sa[..], off + 1, c);
      assert tr.(sa := sa[..]) == tr;
  }

  lemma NextEdge(t: seq<Info>, done: set<nat>, code: seq<Op>, off: nat, tr: Trace)
    requires off + 1 < |code| && Continues(t, code[off])
    requires code[off].Call? ==> code[off].w in done
    requires |tr.sa| == |code| && tr.sa[off].Some? && OpCovered(t, code[off], tr, tr.sa[off].value)
    ensures Edge(t, done, code, off, off + 1) && tr.maxDepth <= tr.sa[off].value + Delta(t, code[off])
  {
  }

  /** The jump's way out of an opcode, if it is a jump. */
  method Target(guarded: bool, w: nat, ghost p: Program, ghost t: seq<Info>, ghost trs: seq<Trace>, ghost done: set<nat>, code: seq<Op>,
                sa: array<Option<int>>, toExplore: array<nat>, tX: nat, tY0: nat, off: nat, c: int,
                ghost tr0: Trace, ghost explored: set<nat>, ghost turns: nat)
    returns (r: Outcome, tY: nat)
    requires code == CodeOf(p, w) && off < |code| && Genuine(guarded, p, t, trs, done)
    requires Buffers(sa, toExplore, |code|, tX, tY0) && sa[..] == tr0.sa && tr0.sa[off].Some?
    requires c == tr0.sa[off].value + Delta(t, code[off])
    requires Exploring(t, done, code, tr0, Waiting(toExplore, tX, tY0), explored, Some(off))
    requires OpCovered(t, code[off], tr0, tr0.sa[off].value)
    requires QueueRoom(guarded, t, done, code, tr0.sa, explored, [off], Waiting(toExplore, tX, tY0), tX, tY0, turns)
    modifies sa, toExplore
    ensures Justified(guarded, p, r)
    ensures r == Done || EndsAt(r, w)
    ensures r.Done? ==> Buffers(sa, toExplore, |code|, tX, tY)
    ensures r.Done? ==> Grows(tr0, tr0.(sa := sa[..])) && Unset(sa[..]) <= Unset(tr0.sa)
    ensures r.Done? ==> Exploring(t, done, code, tr0.(sa := sa[..]), Waiting(toExplore, tX, tY), explored, Some(off))
    ensures r.Done? && code[off].JumpDisp() != 0 ==>
      var j := off + 1 + code[off].JumpDisp(); 0 <= j < |code| && sa[j] == Some(c)
    ensures r.Done? ==>
      if guarded then tY + Unset(sa[..]) < |code|
      else Pushed(code, off, tr0.sa, sa[..], old(Waiting(toExplore, tX, tY0)), Waiting(toExplore, tX, tY))
  {
    hide Exploring, Analysed, Justified, Unset, OpCovered, QueueRoom, Delta, Met;
    tY, r := tY0, Done;
    JustifiedDone(guarded, p);
    if code[off].JumpDisp() != 0 && guarded {
      GuardedRoom(t, done, code, tr0.sa, explored, [off], Waiting(toExplore, tX, tY), tX, tY, turns);
      r, tY := FollowGuarded(guarded, sa, toExplore, tX, tY, off, c, w, p, t, trs, done, code, tr0, explored);
    } else if code[off].JumpDisp() != 0 {
      r, tY := FollowJump(guarded, sa, toExplore, tX, tY, off, c, w, p, t, trs, done, code, tr0, explored, turns);
    } else {
      if guarded {
        GuardedRoom(t, done, code, tr0.sa, explored, [off], Waiting(toExplore, tX, tY), tX, tY, turns);
      }
      assert tr0.(sa := sa[..]) == tr0;
    }
  }

  lemma GuardedRoom(t: seq<Info>, done: set<nat>, code: seq<Op>, sa: seq<Option<int>>, explored: set<nat>,
                    front: seq<nat>, queue: seq<nat>, taken: nat, made: nat, turns: nat)
    ensures QueueRoom(true, t, done, code, sa, explored, front, queue, taken, made, turns) <==> made + Unset(sa) < |code|
  {
  }

  /** Both ways out of the opcode at `off`: its jump target is queued, the opcode behind it may become new. */
  method Leave(guarded: bool, w: nat, ghost p: Program, ghost t: seq<Info>, ghost trs: seq<Trace>, ghost done: set<nat>, code: seq<Op>,
               sa: array<Option<int>>, toExplore: array<nat>, tX: nat, tY0: nat, off: nat, c: int, a: int, mft: bool,
               ghost tr0: Trace, ghost explored: set<nat>, ghost turns: nat)
    returns (r: Outcome, isNew: bool, tY: nat)
    requires code == CodeOf(p, w) && off < |code| && Genuine(guarded, p, t, trs, done)
    requires Buffers(sa, toExplore, |code|, tX, tY0) && sa[..] == tr0.sa && sa[off] == Some(c)
    requires a == Delta(t, code[off]) && mft == Continues(t, code[off])
    requires Exploring(t, done, code, tr0, Waiting(toExplore, tX, tY0), explored, Some(off))
    requires OpCovered(t, code[off], tr0, c) && (code[off].Call? ==> code[off].w in done)
    requires QueueRoom(guarded, t, done, code, tr0.sa, explored, [off], Waiting(toExplore, tX, tY0), tX, tY0, turns)
    modifies sa, toExplore
    ensures Justified(guarded, p, r)
    ensures r == Done || EndsAt(r, w)
    ensures r.Done? ==> Buffers(sa, toExplore, |code|, tX, tY)
    ensures r.Done? ==>
      Exploring(t, done, code, tr0.(sa := sa[..]), Waiting(toExplore, tX, tY) + (if isNew then [off + 1] else []), explored + {off}, None)
    ensures r.Done? ==> QueueRoom(guarded, t, done, code, sa[..], explored + {off}, Front(off, isNew), Waiting(toExplore, tX, tY), tX, tY, turns + 1)
    ensures r.Done? ==> Unset(sa[..]) <= Unset(tr0.sa) - (if isNew then 1 else 0)
  {
    hide Exploring, Analysed, Justified, Unset, OpCovered, QueueRoom, Settled, Delta, Continues, Waiting, Pushed, Met;
    WaitingSize(toExplore, tX, tY0);
    isNew := false;
    assert tr0.sa[off] == Some(c);
    ghost var queue0 := Waiting(toExplore, tX, tY0);
    r, tY := Target(guarded, w, p, t, trs, done, code, sa, toExplore, tX, tY0, off, c + a, tr0, explored, turns);
    if r != Done {
      return;
    }
    ghost var queue := Waiting(toExplore, tX, tY);
    ghost var tr1 := tr0.(sa := sa[..]);
    ghost var tr := tr1;
    if mft {
      CoveredSame(t, code[off], tr0, tr1, c);
      r, isNew := FallThrough(guarded, sa, off, c + a, c, w, p, t, trs, done, code, tr1, queue, explored);
      if r != Done {
        return;
      }
      tr := tr0.(sa := sa[..]);
    }
    NowSettled(t, done, code, tr0, tr1, tr, off);
    ghost var queue' := if isNew then queue + [off + 1] else queue;
    ExploringSettle(t, done, code, tr, queue', explored, off);
    assert queue' == queue + (if isNew then [off + 1] else []);
    if guarded {
      GuardedRoom(t, done, code, tr.sa, explored + {off}, Front(off, isNew), queue, tX, tY, turns + 1);
    } else {
      LeaveRoom(t, done, code, tr0, tr1.sa, tr.sa, explored, off, queue0, queue, isNew, tX, tY0, turns);
      WaitingSize(toExplore, tX, tY);
    }
  }

  lemma WaitingSize(toExplore: array<nat>, tX: nat, tY: nat)
    requires tX <= tY <= toExplore.Length
    ensures |Waiting(toExplore, tX, tY)| == tY - tX
  {
  }

  /** The turn as coded, seen from the queue. */
  lemma LeaveRoom(t: seq<Info>, done: set<nat>, code: seq<Op>, tr: Trace, sa1: seq<Option<int>>, sa2: seq<Option<int>>,
                  explored: set<nat>, off: nat, queue0: seq<nat>, queue1: seq<nat>, isNew: bool, taken: nat, made: nat, turns: nat)
    requires Exploring(t, done, code, tr, queue0, explored, Some(off))
    requires QueueRoom(false, t, done, code, tr.sa, explored, [off], queue0, taken, made, turns)
    requires Pushed(code, off, tr.sa, sa1, queue0, queue1) && Fell(t, code, off, sa1, sa2, isNew)
    requires off < |code| && (code[off].Call? ==> code[off].w in done)
    ensures QueueRoom(false, t, done, code, sa2, explored + {off}, Front(off, isNew), queue1, taken, made + |queue1| - |queue0|, turns + 1)
  {
    hide Exploring, QueueRoom, Pushed, Fell, Followed, Covers;
    ExploringCovers(t, done, code, tr, queue0, explored, off);
    RoomTurn(t, done, code, tr.sa, sa1, sa2, explored, off, queue0, queue1, isNew, taken, made, turns);
  }

  lemma ExploringCovers(t: seq<Info>, done: set<nat>, code: seq<Op>, tr: Trace, queue: seq<nat>, explored: set<nat>, off: nat)
    requires Exploring(t, done, code, tr, queue, explored, Some(off))
    ensures Covers(tr.sa, explored, [off] + queue) && (off in explored ==> Followed(t, code, SeenOf(tr.sa), off))
  {
    hide OpCovered, Reached, Attained;
    assert forall k :: k in [off] + queue <==> k == off || k in queue;
    forall k | k in explored
      ensures k in SeenOf(tr.sa)
    {
      assert Settled(t, done, code, tr, k);
    }
  }

  /** Process the opcode at `off`. */
  method Process(guarded: bool, ws: seq<T0Word>, w: nat, ghost p: Program, ghost chain: seq<nat>, ghost s0: seq<Entry>, code: seq<Op>,
                 sa: array<Option<int>>, toExplore: array<nat>, tX: nat, tY0: nat, off: nat,
                 exitSA0: Option<int>, mds0: int, mrs0: int, maxDepth0: int, ghost explored: set<nat>, ghost turns: nat)
    returns (r: Outcome, isNew: bool, tY: nat, exitSA: Option<int>, mds: int, mrs: int, maxDepth: int, ghost s: seq<Entry>)
    requires chain != [] && Top(chain) == w && Shape(ws, p) && s0 == Snapshot(ws) && Ready(guarded, p, s0, chain) && code == CodeOf(p, w)
    requires Buffers(sa, toExplore, |code|, tX, tY0)
    requires Exploring(TableOf(s0), DoneOf(s0), code, Trace(sa[..], exitSA0, maxDepth0, mds0, mrs0), Waiting(toExplore, tX, tY0), explored, Some(off))
    requires QueueRoom(guarded, TableOf(s0), DoneOf(s0), code, sa[..], explored, [off], Waiting(toExplore, tX, tY0), tX, tY0, turns)
    modifies ws, sa, toExplore
    ensures Justified(guarded, p, r)
    ensures Located(guarded, p, chain, r)
    ensures r.Done? ==> s == Snapshot(ws) && Ready(guarded, p, s, chain) && Kept(s0, s)
    ensures r.Done? ==> Buffers(sa, toExplore, |code|, tX, tY)
    ensures r.Done? ==>
      Exploring(TableOf(s), DoneOf(s), code, Trace(sa[..], exitSA, maxDepth, mds, mrs),
                Waiting(toExplore, tX, tY) + (if isNew then [off + 1] else []), explored + {off}, None)
    ensures r.Done? ==>
      QueueRoom(guarded, TableOf(s), DoneOf(s), code, sa[..], explored + {off}, Front(off, isNew), Waiting(toExplore, tX, tY), tX, tY, turns + 1)
    ensures r.Done? ==> Unset(sa[..]) <= old(Unset(sa[..])) - (if isNew then 1 else 0)
    decreases PendingOf(Snapshot(ws)), 4
  {
    hide Exploring, Analysed, Justified, Unset, OpCovered, QueueRoom, Shape, Ready, Kept, TableOf, TracesOf, DoneOf, PendingOf, Snapshot;
    isNew, tY := false, tY0;
    ghost var sa0, queue0 := sa[..], Waiting(toExplore, tX, tY);
    ExploringCurrent(TableOf(s0), DoneOf(s0), code, Trace(sa0, exitSA0, maxDepth0, mds0, mrs0), queue0, explored, off);
    var c := sa[off].value;
    var a, mft;
    r, a, mft, exitSA, mds, mrs, maxDepth, s :=
      Visit(guarded, ws, w, code[off], off, c, exitSA0, mds0, mrs0, maxDepth0, p, chain, s0, code, sa0, queue0, explored);
    if r.Done? {
      ReadyWord(guarded, p, ws, s, chain);
      KeptExtends(s0, s);
      RoomExtends(guarded, TableOf(s0), DoneOf(s0), TableOf(s), DoneOf(s), code, sa0, explored, [off], queue0, tX, tY, turns);
      r, isNew, tY := Leave(guarded, w, p, TableOf(s), TracesOf(s), DoneOf(s), code, sa, toExplore, tX, tY, off, c, a, mft,
                            Trace(sa0, exitSA, maxDepth, mds, mrs), explored, turns);
      LocatedHere(guarded, p, chain, w, r);
    }
  }

  /** The next opcode to process: the one behind, if it is new, else the front of the queue. */
  method Pick(guarded: bool, toExplore: array<nat>, tX0: nat, tY: nat, off0: nat, isNew: bool, ghost t: seq<Info>, ghost done: set<nat>,
              ghost code: seq<Op>, ghost tr: Trace, ghost explored: set<nat>, ghost turns: nat)
    returns (more: bool, tX: nat, off: nat)
    requires tX0 <= tY <= toExplore.Length
    requires Exploring(t, done, code, tr, Waiting(toExplore, tX0, tY) + (if isNew then [off0 + 1] else []), explored, None)
    requires QueueRoom(guarded, t, done, code, tr.sa, explored, Front(off0, isNew), Waiting(toExplore, tX0, tY), tX0, tY, turns)
    ensures tX0 <= tX <= tY
    ensures Exploring(t, done, code, tr, Waiting(toExplore, tX, tY), explored, if more then Some(off) else None)
    ensures QueueRoom(guarded, t, done, code, tr.sa, explored, if more then [off] else [], Waiting(toExplore, tX, tY), tX, tY, turns)
    ensures more && !isNew ==> tX > tX0
    ensures !more ==> Waiting(toExplore, tX, tY) == [] && !isNew
  {
    hide Exploring, QueueRoom;
    ghost var queue := Waiting(toExplore, tX0, tY);
    more, tX, off := true, tX0, off0 + 1;
    if isNew {
      ExploringTake(t, done, code, tr, queue + [off], queue, explored, off);
    } else if tX < tY {
      assert queue + [] == queue;
      off := toExplore[tX];
      tX := tX + 1;
      assert queue == [off] + Waiting(toExplore, tX, tY);
      ExploringTake(t, done, code, tr, queue, Waiting(toExplore, tX, tY), explored, off);
      RoomTaken(guarded, t, done, code, tr.sa, explored, off, Waiting(toExplore, tX, tY), tX0, tY, turns);
    } else {
      assert queue + [] == queue;
      more := false;
    }
  }

  /** The whole exploration: at most two turns for every opcode of the word. */
  method Explore(guarded: bool, ws: seq<T0Word>, w: nat, ghost p: Program, ghost chain: seq<nat>)
    returns (r: Outcome, exitSA: Option<int>, mds: int, mrs: int, maxDepth: int, ghost tr: Trace, ghost turns: nat, ghost s: seq<Entry>)
    requires chain != [] && Top(chain) == w && Shape(ws, p) && Ready(guarded, p, Snapshot(ws), chain)
    modifies ws
    ensures Justified(guarded, p, r)
    ensures Located(guarded, p, chain, r)
    ensures r.Done? ==> s == Snapshot(ws) && Ready(guarded, p, s, chain) && Kept(old(Snapshot(ws)), s)
    ensures r.Done? ==> tr == Trace(tr.sa, exitSA, maxDepth, mds, mrs) && Traced(TableOf(s), CodeOf(p, w), tr)
    ensures r.Done? ==> AllReached(TableOf(s), DoneOf(s), CodeOf(p, w), tr) && Attained(TableOf(s), DoneOf(s), CodeOf(p, w), tr) && QueueFits(guarded, TableOf(s), DoneOf(s), CodeOf(p, w))
    ensures turns <= 2 * |CodeOf(p, w)|
    ensures r.Done? && !guarded ==> turns == TurnsFor(TableOf(s), CodeOf(p, w))
    decreases PendingOf(Snapshot(ws)), 6
  {
    hide Exploring, Analysed, Justified, Unset, QueueRoom, Traced, AllReached, Attained, Shape, Ready, Kept, TableOf, TracesOf, DoneOf, PendingOf, Snapshot, QueueFits, TurnsFor, Located;
    s := Snapshot(ws);
    ReadyWord(guarded, p, ws, s, chain);
    var code := ws[w].body.code;
    var n := |code|;
    if n == 0 {
      EmptyRunsOff(guarded, p, w);
      LocatedHere(guarded, p, chain, w, OutOfCode(w));
      return OutOfCode(w), None, 0, 0, 0, Trace([], None, 0, 0, 0), 0, s;
    }
    var sa := new Option<int>[n](_ => None);
    sa[0] := Some(0);
    var toExplore := new nat[n];
    ExploringStart(TableOf(s), DoneOf(s), code, Trace(sa[..], None, 0, 0, 0), Waiting(toExplore, 0, 0));
    UnsetStart(sa[..]);
    RoomStart(guarded, TableOf(s), DoneOf(s), code, sa[..]);
    r, exitSA, mds, mrs, maxDepth, tr, turns, s := ExploreAll(guarded, ws, w, p, chain, s, code, sa, toExplore);
  }

  /** The loop, once the arrays are set up. */
  method ExploreAll(guarded: bool, ws: seq<T0Word>, w: nat, ghost p: Program, ghost chain: seq<nat>, ghost s0: seq<Entry>, code: seq<Op>,
                    sa: array<Option<int>>, toExplore: array<nat>)
    returns (r: Outcome, exitSA: Option<int>, mds: int, mrs: int, maxDepth: int, ghost tr: Trace, ghost turns: nat, ghost s: seq<Entry>)
    requires chain != [] && Top(chain) == w && Shape(ws, p) && s0 == Snapshot(ws) && Ready(guarded, p, s0, chain) && code == CodeOf(p, w)
    requires Buffers(sa, toExplore, |code|, 0, 0) && Unset(sa[..]) < |code|
    requires Exploring(TableOf(s0), DoneOf(s0), code, Trace(sa[..], None, 0, 0, 0), Waiting(toExplore, 0, 0), {}, Some(0))
    requires QueueRoom(guarded, TableOf(s0), DoneOf(s0), code, sa[..], {}, [0], Waiting(toExplore, 0, 0), 0, 0, 0)
    modifies ws, sa, toExplore
    ensures Justified(guarded, p, r)
    ensures Located(guarded, p, chain, r)
    ensures r.Done? ==> s == Snapshot(ws) && Ready(guarded, p, s, chain) && Kept(s0, s)
    ensures r.Done? ==> tr == Trace(tr.sa, exitSA, maxDepth, mds, mrs) && Traced(TableOf(s), CodeOf(p, w), tr)
    ensures r.Done? ==> AllReached(TableOf(s), DoneOf(s), CodeOf(p, w), tr) && Attained(TableOf(s), DoneOf(s), CodeOf(p, w), tr) && QueueFits(guarded, TableOf(s), DoneOf(s), CodeOf(p, w))
    ensures turns <= 2 * |code|
    ensures r.Done? && !guarded ==> turns == TurnsFor(TableOf(s), code)
    decreases PendingOf(Snapshot(ws)), 5
  {
    hide Exploring, Analysed, Justified, Unset, QueueRoom, Traced, AllReached, Attained, Shape, Ready, Kept, TableOf, TracesOf, DoneOf, PendingOf, Snapshot, QueueFits, TurnsFor, Located;
    var n := |code|;
    exitSA, mds, mrs, maxDepth, turns := None, 0, 0, 0, 0;
    s := s0;
    tr := Trace(sa[..], None, 0, 0, 0);
    var tX: nat, tY: nat, off: nat, more := 0, 0, 0, true;
    ghost var explored: set<nat> := {};
    KeptRefl(s);
    while more
      invariant s == Snapshot(ws) && Ready(guarded, p, s, chain) && Kept(s0, s) && PendingOf(s) <= PendingOf(s0)
      invariant Buffers(sa, toExplore, n, tX, tY)
      invariant Exploring(TableOf(s), DoneOf(s), code, Trace(sa[..], exitSA, maxDepth, mds, mrs), Waiting(toExplore, tX, tY), explored,
                          if more then Some(off) else None)
      invariant QueueRoom(guarded, TableOf(s), DoneOf(s), code, sa[..], explored, if more then [off] else [], Waiting(toExplore, tX, tY), tX, tY, turns)
      invariant if more then turns + (n - tX) + Unset(sa[..]) < 2 * n else turns <= 2 * n && Waiting(toExplore, tX, tY) == []
      decreases more, (n - tX) + Unset(sa[..])
    {
      var isNew;
      ghost var s1 := s;
      r, isNew, tY, exitSA, mds, mrs, maxDepth, s :=
        Process(guarded, ws, w, p, chain, s, code, sa, toExplore, tX, tY, off, exitSA, mds, mrs, maxDepth, explored, turns);
      turns := turns + 1;
      if r != Done {
        return;
      }
      KeptTrans(s0, s1, s);
      KeptPending(s0, s);
      explored := explored + {off};
      more, tX, off := Pick(guarded, toExplore, tX, tY, off, isNew, TableOf(s), DoneOf(s), code,
                            Trace(sa[..], exitSA, maxDepth, mds, mrs), explored, turns);
    }
    r := Done;
    JustifiedDone(guarded, p);
    LocatedDone(guarded, p, chain);
    tr := Trace(sa[..], exitSA, maxDepth, mds, mrs);
    Explored(TableOf(s), DoneOf(s), code, tr, explored);
    RoomDone(guarded, TableOf(s), DoneOf(s), code, sa[..], explored, Waiting(toExplore, tX, tY), tX, tY, turns);
  }

  lemma KeptRefl(s: seq<Entry>)
    ensures Kept(s, s)
  {
  }

  lemma KeptPending(s: seq<Entry>, s': seq<Entry>)
    requires Kept(s, s')
    ensures PendingOf(s') <= PendingOf(s)
  {
  }

  lemma EmptyRunsOff(guarded: bool, p: Program, w: nat)
    requires w < |p| && p[w].body.Interp? && CodeOf(p, w) == []
    ensures Justified(guarded, p, OutOfCode(w))
  {
  }

  lemma ExploringStart(t: seq<Info>, done: set<nat>, code: seq<Op>, tr: Trace, queue: seq<nat>)
    requires code != [] && queue == [] && |tr.sa| == |code| && tr == Trace(tr.sa, None, 0, 0, 0)
    requires tr.sa[0] == Some(0) && forall k :: 1 <= k < |code| ==> tr.sa[k].None?
    ensures Exploring(t, done, code, tr, queue, {}, Some(0))
  {
    ReachStart(t, done, code);
  }

  /** Turns of the loop: one for each opcode that no jump led to, one for each entry of the queue. */
  ghost function TurnsFor(t: seq<Info>, code: seq<Op>): nat {
    var heads := After(t, code, |code|).heads;
    |heads| + Work(code, heads)
  }

  /** The front of the queue becomes the current opcode. */
  lemma RoomTaken(guarded: bool, t: seq<Info>, done: set<nat>, code: seq<Op>, sa: seq<Option<int>>, explored: set<nat>,
                  off: nat, queue: seq<nat>, taken: nat, made: nat, turns: nat)
    requires QueueRoom(guarded, t, done, code, sa, explored, [], [off] + queue, taken, made, turns)
    ensures QueueRoom(guarded, t, done, code, sa, explored, [off], queue, taken + 1, made, turns)
  {
    assert [] + ([off] + queue) == [off] + queue;
  }

  lemma RoomDone(guarded: bool, t: seq<Info>, done: set<nat>, code: seq<Op>, sa: seq<Option<int>>, explored: set<nat>,
                 queue: seq<nat>, taken: nat, made: nat, turns: nat)
    requires code != [] && QueueRoom(guarded, t, done, code, sa, explored, [], queue, taken, made, turns)
    requires queue == [] && taken == made <= |code|
    ensures QueueFits(guarded, t, done, code) && (!guarded ==> turns == TurnsFor(t, code))
  {
    hide QueueRoom, After, CallsKnown;
    if !guarded {
      RoomEnd(t, done, code, sa, explored, taken, turns);
    }
  }

  lemma CoveredSame(t: seq<Info>, op: Op, tr: Trace, tr': Trace, c: int)
    requires OpCovered(t, op, tr, c) && tr' == tr.(sa := tr'.sa)
    ensures OpCovered(t, op, tr', c)
  {
  }

  /** Both edges followed, the opcode is explored. */
  lemma NowSettled(t: seq<Info>, done: set<nat>, code: seq<Op>, tr0: Trace, tr1: Trace, tr: Trace, off: nat)
    requires |tr.sa| == |code| && off < |code| && |tr0.sa| == |tr1.sa| == |tr.sa| && tr0.sa[off].Some?
    requires Grows(tr0, tr1) && Grows(tr1, tr)
    requires tr1 == tr0.(sa := tr1.sa) && tr == tr0.(sa := tr.sa)
    requires OpCovered(t, code[off], tr0, tr0.sa[off].value)
    requires code[off].Call? ==> code[off].w in done
    requires var c' := tr0.sa[off].value + Delta(t, code[off]);
             var j := off + 1 + code[off].JumpDisp();
             && (code[off].JumpDisp() != 0 ==> 0 <= j < |code| && tr1.sa[j] == Some(c'))
             && (Continues(t, code[off]) ==> off + 1 < |code| && tr.sa[off + 1] == Some(c'))
    ensures Settled(t, done, code, tr, off)
  {
  }

  function Max(a: int, b: int): int { if a >= b then a else b }
  function Min(a: int, b: int): int { if a <= b then a else b }

  // ----- the word `begin again` -----

  /** A word of one jump to itself. */
  const BEGIN_AGAIN: Program := [Word(Interp(0, [Jump(Always, -1)]), None, UNKNOWN)]

  /** It is as well-typed as can be ... */
  lemma BeginAgainTraced(t: seq<Info>)
    ensures Traced(t, CodeOf(BEGIN_AGAIN, 0), Trace([Some(0)], None, 0, 0, 0))
  {
  }

  lemma {:induction false} BeginAgainPaths(t: seq<Info>, done: set<nat>, path: seq<nat>)
    requires IsPath(t, done, CodeOf(BEGIN_AGAIN, 0), path)
    ensures PathAction(t, CodeOf(BEGIN_AGAIN, 0), path) == 0
    decreases |path|
  {
    if |path| > 1 {
      BeginAgainPaths(t, done, Pop(path));
      assert Top(Pop(path)) == 0;
    }
  }

  lemma BeginAgainEvidence(v: nat, k: nat, c: int, t: seq<Info>, trs: seq<Trace>, done: set<nat>)
    requires Evidence(false, BEGIN_AGAIN, v, k, c, t, trs, done)
    ensures v == 0 && c == 0
  {
    hide Analysed;
    var path :| PathTo(t, done, CodeOf(BEGIN_AGAIN, v), path, k, c);
    BeginAgainPaths(t, done, path);
  }

  /** What a finished analysis holds for its word. */
  lemma FinishedWord(p: Program, s: seq<Entry>, w: nat)
    requires Consistent(false, p, s) && w in DoneOf(s) && w < |p| && p[w].body.Interp?
    ensures Traced(TableOf(s), CodeOf(p, w), TracesOf(s)[w]) && !Overfull(TableOf(s), CodeOf(p, w))
  {
    AnalysedWord(p, TableOf(s), TracesOf(s), DoneOf(s), w);
  }

  lemma BeginAgainNotDone(s: seq<Entry>)
    requires Consistent(false, BEGIN_AGAIN, s)
    ensures 0 !in DoneOf(s)
  {
    hide Consistent;
    if 0 in DoneOf(s) {
      FinishedWord(BEGIN_AGAIN, s, 0);
      var code := CodeOf(BEGIN_AGAIN, 0);
      assert JumpsTo(code, 0, 0, 0);
      AfterFollowed(TableOf(s), code, 1);
      CircleOverfull(TableOf(s), code, 1, 0);
    }
  }

  /** ... and yet the analysis cannot succeed on it: it runs out of room for targets. */
  lemma BeginAgainRejected(r: Outcome, s: seq<Entry>)
    requires Justified(false, BEGIN_AGAIN, r)
    requires r.Done? ==> Consistent(false, BEGIN_AGAIN, s) && 0 in DoneOf(s)
    ensures r == QueueFull(0)
  {
    hide Consistent, Evidence;
    forall v: nat, k: nat, c: int, t: seq<Info>, trs: seq<Trace>, done: set<nat> | Evidence(false, BEGIN_AGAIN, v, k, c, t, trs, done)
      ensures v == 0 && c == 0
    {
      BeginAgainEvidence(v, k, c, t, trs, done);
    }
    if r.Done? {
      BeginAgainNotDone(s);
    }
    assert CodeOf(BEGIN_AGAIN, 0) == [Jump(Always, -1)];
    NoReachedCalls();
    forall v: nat, t: seq<Info>, trs: seq<Trace>, done: set<nat>, n: nat | ManyTargets(BEGIN_AGAIN, v, t, trs, done, n)
      ensures v == 0
    {
      SomeTargets(t, done, CodeOf(BEGIN_AGAIN, v), n);
    }
  }

  lemma NoReachedCalls()
    ensures !CallCycle(false, BEGIN_AGAIN)
  {
    forall v: nat, u: nat
      ensures !ReachedCall(false, BEGIN_AGAIN, v, u)
    {
    }
  }
}
