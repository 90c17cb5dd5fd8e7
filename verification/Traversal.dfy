/** The order in which the analysis meets the opcodes of a word, and how many jump targets that puts in its queue. */
module Traversal {
  import opened Machine
  import opened Flow

  // ----- the order -----

  /** The opcodes met so far, those among them that no jump led to, and those not processed yet, the next one first. */
  datatype Walk = Walk(seen: set<nat>, heads: seq<nat>, agenda: seq<nat>)

  function TargetOf(code: seq<Op>, k: nat): int
    requires k < |code|
  {
    k + 1 + code[k].JumpDisp()
  }

  /** Opcode k is a jump to an opcode of the word. */
  predicate JumpsInto(code: seq<Op>, k: nat) {
    k < |code| && code[k].JumpDisp() != 0 && 0 <= TargetOf(code, k) < |code|
  }

  /** Opcode k may pass control to the opcode behind it. */
  predicate FallsInto(t: seq<Info>, code: seq<Op>, k: nat) {
    k + 1 < |code| && Continues(t, code[k])
  }

  /** A target met for the first time waits behind the others. */
  function MeetTarget(code: seq<Op>, k: nat, x: Walk): Walk {
    if JumpsInto(code, k) && TargetOf(code, k) !in x.seen then
      Walk(x.seen + {TargetOf(code, k)}, x.heads, x.agenda + [TargetOf(code, k)])
    else x
  }

  /** The opcode behind, met for the first time, goes before the others. */
  function MeetNext(t: seq<Info>, code: seq<Op>, k: nat, x: Walk): Walk {
    if FallsInto(t, code, k) && k + 1 !in x.seen then Walk(x.seen + {k + 1}, x.heads + [k + 1], [k + 1] + x.agenda)
    else x
  }

  function Advance(t: seq<Info>, code: seq<Op>, x: Walk): Walk {
    if x.agenda == [] then x
    else MeetNext(t, code, x.agenda[0], MeetTarget(code, x.agenda[0], x.(agenda := x.agenda[1..])))
  }

  /** After n opcodes, each processed once: straight on as long as that is new, else the oldest target. */
  function After(t: seq<Info>, code: seq<Op>, n: nat): Walk {
    if n == 0 then Walk({0}, [0], [0]) else Advance(t, code, After(t, code, n - 1))
  }

  // ----- the work -----

  /** How many jumps are passed from opcode k on before one is met that is none; at most `fuel` are counted. */
  function ChainLength(code: seq<Op>, fuel: nat, k: int): (n: nat)
    ensures n <= fuel
  {
    if fuel == 0 || !(0 <= k < |code|) || code[k].JumpDisp() == 0 then 0
    else 1 + ChainLength(code, fuel - 1, TargetOf(code, k))
  }

  /** The chain of jumps from opcode k; longer than the code if it has no end. */
  function Chain(code: seq<Op>, k: nat): nat {
    ChainLength(code, |code| + 1, k)
  }

  /** All chains from these opcodes together. */
  function Work(code: seq<Op>, ks: seq<nat>): nat {
    if ks == [] then 0 else Chain(code, ks[0]) + Work(code, ks[1..])
  }

  /** The chains of jumps that begin at opcodes which no jump led to have more jumps than the code has opcodes. */
  predicate Overfull(t: seq<Info>, code: seq<Op>) {
    Work(code, After(t, code, |code|).heads) > |code|
  }

  lemma {:induction false} WorkSum(code: seq<Op>, a: seq<nat>, b: seq<nat>)
    ensures Work(code, a + b) == Work(code, a) + Work(code, b)
    decreases |a|
  {
    if a == [] {
      assert a + b == b;
    } else {
      assert (a + b)[1..] == a[1..] + b;
      WorkSum(code, a[1..], b);
    }
  }

  lemma WorkOne(code: seq<Op>, k: nat)
    ensures Work(code, [k]) == Chain(code, k)
  {
    assert [k][1..] == [];
    assert Work(code, []) == 0;
  }

  lemma {:induction false} NoWork(code: seq<Op>, ks: seq<nat>)
    requires forall k :: 0 <= k < |code| ==> code[k].JumpDisp() == 0
    ensures Work(code, ks) == 0
    decreases |ks|
  {
    if ks != [] {
      NoWork(code, ks[1..]);
    }
  }

  /** More fuel counts no less, and no more once the end has been met. */
  lemma {:induction false} MoreFuel(code: seq<Op>, fuel: nat, k: int)
    ensures ChainLength(code, fuel, k) <= ChainLength(code, fuel + 1, k)
    ensures ChainLength(code, fuel, k) < fuel ==> ChainLength(code, fuel + 1, k) == ChainLength(code, fuel, k)
    decreases fuel
  {
    if fuel > 0 && 0 <= k < |code| && code[k].JumpDisp() != 0 {
      MoreFuel(code, fuel - 1, TargetOf(code, k));
    }
  }

  /** A jump's chain is one longer than its target's, unless it has no end. */
  lemma ChainStep(code: seq<Op>, k: nat)
    requires JumpsInto(code, k)
    ensures var j: nat := TargetOf(code, k);
            Chain(code, j) <= Chain(code, k) <= 1 + Chain(code, j)
            && (Chain(code, k) <= |code| ==> Chain(code, k) == 1 + Chain(code, j))
  {
    MoreFuel(code, |code|, TargetOf(code, k));
  }

  // ----- what holds along the order -----

  /** Everything met is in the code; what waits and what is a head has been met; no head is one twice. */
  predicate InOrder(code: seq<Op>, x: Walk) {
    (forall k :: k in x.seen ==> k < |code|)
    && (forall k :: k in x.agenda ==> k in x.seen) && (forall k :: k in x.heads ==> k in x.seen)
    && (forall i, j :: 0 <= i < j < |x.heads| ==> x.heads[i] != x.heads[j])
  }

  lemma TargetInOrder(code: seq<Op>, k: nat, x: Walk)
    requires InOrder(code, x)
    ensures var y := MeetTarget(code, k, x);
            InOrder(code, y) && x.seen <= y.seen && y.heads == x.heads && |y.seen| - |y.agenda| == |x.seen| - |x.agenda|
  {
  }

  lemma NextInOrder(t: seq<Info>, code: seq<Op>, k: nat, x: Walk)
    requires InOrder(code, x)
    ensures var y := MeetNext(t, code, k, x);
            InOrder(code, y) && x.seen <= y.seen && |y.seen| - |y.agenda| == |x.seen| - |x.agenda|
            && Work(code, x.heads) <= Work(code, y.heads)
  {
    WorkSum(code, x.heads, [k + 1]);
  }

  lemma AdvanceInOrder(t: seq<Info>, code: seq<Op>, x: Walk)
    requires InOrder(code, x)
    ensures InOrder(code, Advance(t, code, x)) && x.seen <= Advance(t, code, x).seen
    ensures x.agenda != [] ==> |Advance(t, code, x).seen| - |Advance(t, code, x).agenda| == |x.seen| - |x.agenda| + 1
    ensures Work(code, x.heads) <= Work(code, Advance(t, code, x).heads)
  {
    hide MeetTarget, MeetNext, Work;
    if x.agenda != [] {
      var y := x.(agenda := x.agenda[1..]);
      TargetInOrder(code, x.agenda[0], y);
      NextInOrder(t, code, x.agenda[0], MeetTarget(code, x.agenda[0], y));
    }
  }

  lemma {:induction false} AfterInOrder(t: seq<Info>, code: seq<Op>, n: nat)
    requires code != []
    ensures InOrder(code, After(t, code, n))
    ensures After(t, code, n).agenda != [] ==> |After(t, code, n).seen| == |After(t, code, n).agenda| + n
    decreases n
  {
    hide InOrder, Advance;
    if n == 0 {
      StartInOrder(code);
    } else {
      AfterInOrder(t, code, n - 1);
      AdvanceInOrder(t, code, After(t, code, n - 1));
      if After(t, code, n - 1).agenda == [] {
        NothingLeft(t, code, After(t, code, n - 1));
      }
    }
  }

  lemma StartInOrder(code: seq<Op>)
    requires code != []
    ensures InOrder(code, Walk({0}, [0], [0]))
  {
  }

  lemma NothingLeft(t: seq<Info>, code: seq<Op>, x: Walk)
    requires x.agenda == []
    ensures Advance(t, code, x) == x
  {
  }

  lemma {:induction false} AfterMore(t: seq<Info>, code: seq<Op>, n: nat, m: nat)
    requires code != [] && n <= m
    ensures After(t, code, n).seen <= After(t, code, m).seen
    ensures Work(code, After(t, code, n).heads) <= Work(code, After(t, code, m).heads)
    ensures After(t, code, n).agenda == [] ==> After(t, code, m) == After(t, code, n)
    decreases m
  {
    hide Advance, InOrder, Work;
    if n < m {
      AfterMore(t, code, n, m - 1);
      AfterInOrder(t, code, m - 1);
      AdvanceInOrder(t, code, After(t, code, m - 1));
      if After(t, code, n).agenda == [] {
        NothingLeft(t, code, After(t, code, m - 1));
      }
    }
  }

  lemma {:induction false} SetBound(s: set<nat>, n: nat)
    requires forall k :: k in s ==> k < n
    ensures |s| <= n
    decreases n
  {
    if n > 0 {
      SetBound(s - {n - 1}, n - 1);
    }
  }

  /** Every opcode is processed within as many turns as there are opcodes. */
  lemma AllProcessed(t: seq<Info>, code: seq<Op>)
    requires code != []
    ensures After(t, code, |code|).agenda == []
  {
    hide Advance, After;
    AfterInOrder(t, code, |code|);
    SetBound(After(t, code, |code|).seen, |code|);
  }

  /** Where control may go from opcode k has been met. */
  predicate Followed(t: seq<Info>, code: seq<Op>, seen: set<nat>, k: nat) {
    (JumpsInto(code, k) ==> TargetOf(code, k) in seen) && (FallsInto(t, code, k) ==> k + 1 in seen)
  }

  ghost predicate FollowedUp(t: seq<Info>, code: seq<Op>, x: Walk) {
    forall k :: k in x.seen && k !in x.agenda ==> Followed(t, code, x.seen, k)
  }

  lemma AdvanceFollowed(t: seq<Info>, code: seq<Op>, x: Walk)
    requires FollowedUp(t, code, x)
    ensures FollowedUp(t, code, Advance(t, code, x))
  {
    if x.agenda != [] {
      var k := x.agenda[0];
      var y := Advance(t, code, x);
      assert forall m :: m in x.agenda <==> m == k || m in x.agenda[1..];
      assert Followed(t, code, y.seen, k);
      forall m | m in y.seen && m !in y.agenda
        ensures Followed(t, code, y.seen, m)
      {
        if m != k {
          assert m in x.seen && m !in x.agenda;
        }
      }
    }
  }

  lemma {:induction false} AfterFollowed(t: seq<Info>, code: seq<Op>, n: nat)
    ensures FollowedUp(t, code, After(t, code, n)) && 0 in After(t, code, n).seen
    decreases n
  {
    hide FollowedUp;
    if n == 0 {
      StartFollowed(t, code);
    } else {
      AfterFollowed(t, code, n - 1);
      AdvanceFollowed(t, code, After(t, code, n - 1));
    }
  }

  lemma StartFollowed(t: seq<Info>, code: seq<Op>)
    ensures FollowedUp(t, code, Walk({0}, [0], [0]))
  {
  }

  /** So what has been met in the end is closed under the ways of control. */
  lemma Complete(t: seq<Info>, code: seq<Op>, k: nat)
    requires code != [] && k in After(t, code, |code|).seen
    ensures Followed(t, code, After(t, code, |code|).seen, k)
  {
    hide Followed, After;
    AllProcessed(t, code);
    AfterFollowed(t, code, |code|);
  }

  // ----- conditions on the code alone -----

  /** All opcodes of the word. */
  function Opcodes(n: nat): (ks: seq<nat>) {
    seq(n, i requires 0 <= i < n => i)
  }

  /** Leaving out one. */
  lemma WorkWithout(code: seq<Op>, ks: seq<nat>, i: nat)
    requires i < |ks|
    ensures Work(code, ks) == Work(code, ks[..i] + ks[i + 1..]) + Chain(code, ks[i])
  {
    assert ks == ks[..i] + ([ks[i]] + ks[i + 1..]);
    WorkSum(code, ks[..i], [ks[i]] + ks[i + 1..]);
    WorkSum(code, [ks[i]], ks[i + 1..]);
    WorkSum(code, ks[..i], ks[i + 1..]);
    WorkOne(code, ks[i]);
  }

  lemma {:induction false} WorkDistinct(code: seq<Op>, ks: seq<nat>, n: nat)
    requires forall i, j :: 0 <= i < j < |ks| ==> ks[i] != ks[j]
    requires forall k :: k in ks ==> k < n
    ensures Work(code, ks) <= Work(code, Opcodes(n))
    decreases n
  {
    hide Chain;
    if ks != [] {
      assert ks[0] in ks;
      OneMore(code, n - 1);
      if n - 1 in ks {
        var i: nat :| i < |ks| && ks[i] == n - 1;
        var rest := ks[..i] + ks[i + 1..];
        WorkWithout(code, ks, i);
        forall j | 0 <= j < |rest|
          ensures rest[j] in ks && rest[j] != n - 1
        {
          assert rest[j] == ks[if j < i then j else j + 1];
        }
        WorkDistinct(code, rest, n - 1);
      } else {
        WorkDistinct(code, ks, n - 1);
      }
    }
  }

  lemma OneMore(code: seq<Op>, n: nat)
    ensures Work(code, Opcodes(n + 1)) == Work(code, Opcodes(n)) + Chain(code, n)
  {
    assert Opcodes(n + 1) == Opcodes(n) + [n];
    WorkSum(code, Opcodes(n), [n]);
    WorkOne(code, n);
  }

  /** If all chains of jumps in the code together have no more jumps than the code has opcodes, there is room in
      the queue, whatever words are called. */
  lemma FewJumps(t: seq<Info>, code: seq<Op>)
    requires Work(code, Opcodes(|code|)) <= |code|
    ensures !Overfull(t, code)
  {
    if code != [] {
      AfterInOrder(t, code, |code|);
      WorkDistinct(code, After(t, code, |code|).heads, |code|);
    } else {
      WorkOne(code, 0);
    }
  }

  /** The chain from any opcode met is part of the chain from some opcode that no jump led to. */
  lemma {:induction false} ChainFromHead(t: seq<Info>, code: seq<Op>, n: nat, k: nat)
    requires code != [] && k in After(t, code, n).seen
    ensures Chain(code, k) <= Work(code, After(t, code, n).heads)
    decreases n
  {
    hide Chain, Work, Advance, InOrder;
    if n == 0 {
      WorkOne(code, 0);
    } else {
      var x := After(t, code, n - 1);
      forall m | m in x.seen
        ensures Chain(code, m) <= Work(code, x.heads)
      {
        ChainFromHead(t, code, n - 1, m);
      }
      AfterInOrder(t, code, n - 1);
      AdvanceChain(t, code, x, k);
    }
  }

  lemma AdvanceChain(t: seq<Info>, code: seq<Op>, x: Walk, k: nat)
    requires InOrder(code, x) && forall m :: m in x.seen ==> Chain(code, m) <= Work(code, x.heads)
    requires k in Advance(t, code, x).seen
    ensures Chain(code, k) <= Work(code, Advance(t, code, x).heads)
  {
    hide Chain, Work;
    AdvanceInOrder(t, code, x);
    if k !in x.seen {
      var m := x.agenda[0];
      assert m in x.agenda;
      if JumpsInto(code, m) && k == TargetOf(code, m) {
        ChainStep(code, m);
      } else {
        WorkSum(code, x.heads, [k]);
        WorkOne(code, k);
      }
    }
  }

  /** m jumps, one after the other, lead from opcode k to opcode j. */
  predicate JumpsTo(code: seq<Op>, m: nat, k: nat, j: nat) {
    if m == 0 then k == j else JumpsInto(code, k) && JumpsTo(code, m - 1, TargetOf(code, k), j)
  }

  lemma {:induction false} JumpsCount(code: seq<Op>, m: nat, k: nat, j: nat, fuel: nat)
    requires JumpsTo(code, m, k, j) && m <= fuel
    ensures ChainLength(code, fuel, k) == m + ChainLength(code, fuel - m, j)
    decreases m
  {
    if m > 0 {
      JumpsCount(code, m - 1, TargetOf(code, k), j, fuel - 1);
    }
  }

  lemma {:induction false} JumpsMany(code: seq<Op>, m: nat, k: nat, j: nat, fuel: nat)
    requires JumpsTo(code, m, k, j) && fuel <= m
    ensures ChainLength(code, fuel, k) == fuel
    decreases fuel
  {
    if fuel > 0 {
      JumpsMany(code, m - 1, TargetOf(code, k), j, fuel - 1);
    }
  }

  /** Jumps in a circle count for ever. */
  lemma {:induction false} CircleCounts(code: seq<Op>, m: nat, k: nat, fuel: nat)
    requires m > 0 && JumpsTo(code, m, k, k)
    ensures ChainLength(code, fuel, k) == fuel
    decreases fuel
  {
    if fuel <= m {
      JumpsMany(code, m, k, k, fuel);
    } else {
      JumpsCount(code, m, k, k, fuel);
      CircleCounts(code, m, k, fuel - m);
    }
  }

  /** A circle of jumps, of any length, that control can get into leaves no room. */
  lemma CircleOverfull(t: seq<Info>, code: seq<Op>, m: nat, k: nat)
    requires code != [] && m > 0 && JumpsTo(code, m, k, k) && k in After(t, code, |code|).seen
    ensures Overfull(t, code)
  {
    CircleCounts(code, m, k, |code| + 1);
    ChainFromHead(t, code, |code|, k);
  }
}
