/** The queue of jump targets as it is coded, every jump adding an entry each time it is processed, against the order
    of first meetings and the work that follows from it. */
module TargetQueue {
  import opened Bytes
  import opened Machine
  import opened Flow
  import opened Traversal

  function SeenOf(sa: seq<Option<int>>): (s: set<nat>)
    ensures forall k: nat :: k in s <==> k < |sa| && sa[k].Some?
  {
    set k: nat | k < |sa| && sa[k].Some?
  }

  /** What is left of the entries without those that are explored, and without repetitions. */
  function Firsts(todo: seq<nat>, explored: set<nat>): (ks: seq<nat>) {
    if todo == [] then []
    else if todo[0] in explored then Firsts(todo[1..], explored)
    else [todo[0]] + Firsts(todo[1..], explored + {todo[0]})
  }

  lemma {:induction false} FirstsStale(todo: seq<nat>, explored: set<nat>, k: nat)
    requires k in explored || k in todo
    ensures Firsts(todo + [k], explored) == Firsts(todo, explored)
    decreases |todo|
  {
    if todo == [] {
      assert [k][1..] == [];
    } else {
      assert (todo + [k])[1..] == todo[1..] + [k];
      FirstsStale(todo[1..], if todo[0] in explored then explored else explored + {todo[0]}, k);
    }
  }

  lemma {:induction false} FirstsNew(todo: seq<nat>, explored: set<nat>, k: nat)
    requires k !in explored && k !in todo
    ensures Firsts(todo + [k], explored) == Firsts(todo, explored) + [k]
    decreases |todo|
  {
    if todo == [] {
      assert [k][1..] == [];
    } else {
      assert (todo + [k])[1..] == todo[1..] + [k];
      FirstsNew(todo[1..], if todo[0] in explored then explored else explored + {todo[0]}, k);
    }
  }

  lemma {:induction false} FirstsAbsent(todo: seq<nat>, explored: set<nat>, k: nat)
    requires k !in todo
    ensures Firsts(todo, explored + {k}) == Firsts(todo, explored)
    decreases |todo|
  {
    if todo != [] {
      FirstsAbsent(todo[1..], if todo[0] in explored then explored else explored + {todo[0]}, k);
      assert explored + {k} + {todo[0]} == explored + {todo[0]} + {k};
    }
  }

  lemma FirstsFront(k: nat, todo: seq<nat>, explored: set<nat>)
    ensures Firsts([k] + todo, explored)
         == if k in explored then Firsts(todo, explored) else [k] + Firsts(todo, explored + {k})
  {
    assert ([k] + todo)[1..] == todo;
  }

  // ----- one turn of the loop, as far as the queue is concerned -----

  /** The jump at `off`, as coded: its target has an action now and is queued, even if it had one before. */
  predicate Pushed(code: seq<Op>, off: nat, sa0: seq<Option<int>>, sa1: seq<Option<int>>, queue0: seq<nat>, queue1: seq<nat>) {
    |sa0| == |sa1| == |code| && off < |code| &&
    if code[off].JumpDisp() == 0 then sa1 == sa0 && queue1 == queue0
    else JumpsInto(code, off) && Met(sa0, sa1, TargetOf(code, off))
         && queue1 == queue0 + [TargetOf(code, off)]
  }

  /** Opcode j has an action in sa1, whether or not it had one in sa0. */
  predicate Met(sa0: seq<Option<int>>, sa1: seq<Option<int>>, j: nat) {
    |sa0| == |sa1| && j < |sa0| && sa1[j].Some? && SeenOf(sa1) == SeenOf(sa0) + {j}
  }

  /** Control goes on to the opcode behind `off`, which may be new. */
  predicate Fell(t: seq<Info>, code: seq<Op>, off: nat, sa1: seq<Option<int>>, sa2: seq<Option<int>>, isNew: bool) {
    |sa1| == |sa2| == |code| && off < |code| &&
    if Continues(t, code[off]) then off + 1 < |code| && Met(sa1, sa2, off + 1) && (isNew <==> sa1[off + 1].None?)
    else sa2 == sa1 && !isNew
  }

  function Front(off: nat, isNew: bool): seq<nat> {
    if isNew then [off + 1] else []
  }

  /** The explored opcodes are the first ones in the order; what is to be done is the rest of the agenda. */
  ghost predicate OnOrder(t: seq<Info>, code: seq<Op>, sa: seq<Option<int>>, explored: set<nat>, todo: seq<nat>) {
    var x := After(t, code, |explored|);
    x.seen == SeenOf(sa) && x.agenda == Firsts(todo, explored)
  }

  /** An opcode that has an action is explored or to be done, and only such are. */
  predicate Covers(sa: seq<Option<int>>, explored: set<nat>, todo: seq<nat>) {
    (forall k :: k in explored ==> k in SeenOf(sa)) && (forall k :: k in todo ==> k in SeenOf(sa))
    && (forall k :: k in SeenOf(sa) ==> k in explored || k in todo)
  }

  lemma OrderPushed(code: seq<Op>, sa0: seq<Option<int>>, sa1: seq<Option<int>>, explored: set<nat>, off: nat, queue0: seq<nat>, queue1: seq<nat>, x: Walk)
    requires Pushed(code, off, sa0, sa1, queue0, queue1) && Covers(sa0, explored, [off] + queue0)
    requires x.seen == SeenOf(sa0) && x.agenda == Firsts(queue0, explored + {off})
    ensures var y := MeetTarget(code, off, x);
            y.seen == SeenOf(sa1) && y.agenda == Firsts(queue1, explored + {off}) && y.heads == x.heads
    ensures forall k :: k in queue1 ==> k in SeenOf(sa1)
  {
    hide Firsts;
    assert off in [off] + queue0;
    assert forall k :: k in [off] + queue0 <==> k == off || k in queue0;
    if code[off].JumpDisp() != 0 {
      var j: nat := TargetOf(code, off);
      if sa0[j].Some? {
        assert j in SeenOf(sa0);
        FirstsStale(queue0, explored + {off}, j);
      } else {
        FirstsNew(queue0, explored + {off}, j);
      }
    }
  }

  lemma OrderFell(t: seq<Info>, code: seq<Op>, sa1: seq<Option<int>>, sa2: seq<Option<int>>, explored: set<nat>, off: nat, queue: seq<nat>, isNew: bool, x: Walk)
    requires Fell(t, code, off, sa1, sa2, isNew)
    requires x.seen == SeenOf(sa1) && x.agenda == Firsts(queue, explored)
    requires (forall k :: k in explored ==> k in SeenOf(sa1)) && (forall k :: k in queue ==> k in SeenOf(sa1))
    ensures var y := MeetNext(t, code, off, x);
            y.seen == SeenOf(sa2) && y.agenda == Firsts(Front(off, isNew) + queue, explored) && y.heads == x.heads + Front(off, isNew)
  {
    hide Firsts;
    if isNew {
      assert off + 1 !in SeenOf(sa1);
      FirstsFront(off + 1, queue, explored);
      FirstsAbsent(queue, explored, off + 1);
    } else {
      assert [] + queue == queue;
    }
  }

  /** A turn on an opcode not explored before is one step of the order. */
  lemma OrderFirst(t: seq<Info>, code: seq<Op>, sa0: seq<Option<int>>, sa1: seq<Option<int>>, sa2: seq<Option<int>>,
                   explored: set<nat>, off: nat, queue0: seq<nat>, queue1: seq<nat>, isNew: bool)
    requires OnOrder(t, code, sa0, explored, [off] + queue0) && Covers(sa0, explored, [off] + queue0) && off !in explored
    requires Pushed(code, off, sa0, sa1, queue0, queue1) && Fell(t, code, off, sa1, sa2, isNew)
    ensures OnOrder(t, code, sa2, explored + {off}, Front(off, isNew) + queue1)
    ensures After(t, code, |explored + {off}|).heads == After(t, code, |explored|).heads + Front(off, isNew)
  {
    hide Firsts, MeetTarget, MeetNext, Fell, Pushed, Covers;
    var x := After(t, code, |explored|);
    FirstsFront(off, queue0, explored);
    var rest := x.(agenda := x.agenda[1..]);
    OrderPushed(code, sa0, sa1, explored, off, queue0, queue1, rest);
    CoversPushed(code, sa0, sa1, explored, off, queue0, queue1);
    OrderFell(t, code, sa1, sa2, explored + {off}, off, queue1, isNew, MeetTarget(code, off, rest));
    assert |explored + {off}| == |explored| + 1;
    assert After(t, code, |explored| + 1) == Advance(t, code, x);
  }

  lemma CoversPushed(code: seq<Op>, sa0: seq<Option<int>>, sa1: seq<Option<int>>, explored: set<nat>, off: nat, queue0: seq<nat>, queue1: seq<nat>)
    requires Pushed(code, off, sa0, sa1, queue0, queue1) && Covers(sa0, explored, [off] + queue0)
    ensures forall k :: k in explored + {off} ==> k in SeenOf(sa1)
  {
    assert off in [off] + queue0;
  }

  /** A turn on an explored opcode changes nothing but the queue. */
  lemma OrderAgain(t: seq<Info>, code: seq<Op>, sa0: seq<Option<int>>, sa1: seq<Option<int>>, sa2: seq<Option<int>>,
                   explored: set<nat>, off: nat, queue0: seq<nat>, queue1: seq<nat>, isNew: bool)
    requires OnOrder(t, code, sa0, explored, [off] + queue0) && Covers(sa0, explored, [off] + queue0) && off in explored
    requires Followed(t, code, SeenOf(sa0), off)
    requires Pushed(code, off, sa0, sa1, queue0, queue1) && Fell(t, code, off, sa1, sa2, isNew)
    ensures OnOrder(t, code, sa2, explored + {off}, Front(off, isNew) + queue1) && !isNew && explored + {off} == explored
  {
    hide Firsts, After;
    assert explored + {off} == explored;
    FirstsFront(off, queue0, explored);
    assert SeenOf(sa1) == SeenOf(sa0) && SeenOf(sa2) == SeenOf(sa1);
    assert [] + queue1 == queue1;
    assert forall k :: k in [off] + queue0 <==> k == off || k in queue0;
    if code[off].JumpDisp() != 0 {
      FirstsStale(queue0, explored, TargetOf(code, off));
    }
  }

  // ----- how many entries -----

  /** Entries made so far, and those still to come from what is to be done: the work of the heads, unless that
      is too much already. */
  predicate Accounted(code: seq<Op>, heads: seq<nat>, made: nat, todo: seq<nat>) {
    Work(code, heads) <= made + Work(code, todo)
    && (Work(code, heads) > |code| || made + Work(code, todo) <= Work(code, heads))
  }

  lemma AccountedTurn(code: seq<Op>, sa0: seq<Option<int>>, sa1: seq<Option<int>>, off: nat, queue0: seq<nat>, queue1: seq<nat>,
                      heads: seq<nat>, made: nat, front: seq<nat>)
    requires Pushed(code, off, sa0, sa1, queue0, queue1) && Accounted(code, heads, made, [off] + queue0)
    ensures Accounted(code, heads + front, made + |queue1| - |queue0|, front + queue1)
  {
    hide Work, Chain;
    WorkSum(code, [off], queue0);
    WorkOne(code, off);
    WorkSum(code, heads, front);
    WorkSum(code, front, queue1);
    if code[off].JumpDisp() != 0 {
      var j: nat := TargetOf(code, off);
      WorkSum(code, queue0, [j]);
      WorkOne(code, j);
      ChainStep(code, off);
    } else {
      NoJump(code, off);
    }
  }

  lemma NoJump(code: seq<Op>, off: nat)
    requires off < |code|
    ensures Chain(code, off) == 0 <==> code[off].JumpDisp() == 0
  {
  }

  /** The calls among the first n opcodes are to words of `done`. */
  ghost predicate CallsKnown(t: seq<Info>, done: set<nat>, code: seq<Op>, n: nat) {
    forall i: nat :: i < n ==> NextKnown(done, code, After(t, code, i))
  }

  predicate NextKnown(done: set<nat>, code: seq<Op>, x: Walk) {
    x.agenda != [] && x.agenda[0] < |code| && code[x.agenda[0]].Call? ==> code[x.agenda[0]].w in done
  }

  /** Between two turns. As coded, the queue and the turns made are what the order tells; with guarded queueing,
      each entry was the first to reach its opcode, so that there is always room for one more. */
  ghost predicate QueueRoom(guarded: bool, t: seq<Info>, done: set<nat>, code: seq<Op>, sa: seq<Option<int>>, explored: set<nat>,
                            front: seq<nat>, queue: seq<nat>, taken: nat, made: nat, turns: nat)
  {
    if guarded then made + Unset(sa) < |code|
    else
      (forall k :: k in explored ==> k < |code|)
      && OnOrder(t, code, sa, explored, front + queue) && CallsKnown(t, done, code, |explored|)
      && Accounted(code, After(t, code, |explored|).heads, made, front + queue)
      && turns + |front| == |After(t, code, |explored|).heads| + taken
  }

  /** How many opcodes have no stack action yet. */
  function Unset(sa: seq<Option<int>>): (n: nat)
    ensures n <= |sa|
  {
    if sa == [] then 0 else Unset(Pop(sa)) + (if Top(sa).None? then 1 else 0)
  }

  lemma {:induction false} UnsetUpdate(sa: seq<Option<int>>, j: nat, c: int)
    requires j < |sa| && sa[j].None?
    ensures Unset(sa[j := Some(c)]) == Unset(sa) - 1
    decreases |sa|
  {
    var sa' := sa[j := Some(c)];
    if j < |sa| - 1 {
      UnsetUpdate(Pop(sa), j, c);
      assert Pop(sa') == Pop(sa)[j := Some(c)];
    } else {
      assert Pop(sa') == Pop(sa);
    }
  }

  lemma UnsetStart(sa: seq<Option<int>>)
    requires sa != [] && sa[0].Some? && forall k :: 1 <= k < |sa| ==> sa[k].None?
    ensures Unset(sa) == |sa| - 1
  {
    if |sa| > 1 {
      UnsetStart(Pop(sa));
    }
  }

  lemma RoomStart(guarded: bool, t: seq<Info>, done: set<nat>, code: seq<Op>, sa: seq<Option<int>>)
    requires sa != [] && |sa| == |code| && sa[0].Some? && forall k :: 1 <= k < |sa| ==> sa[k].None?
    ensures QueueRoom(guarded, t, done, code, sa, {}, [0], [], 0, 0, 0)
  {
    UnsetStart(sa);
    var none: set<nat> := {};
    assert After(t, code, |none|) == Walk({0}, [0], [0]);
    assert SeenOf(sa) == {0};
    FirstsFront(0, [], none);
    assert [0] + [] == [0];
  }

  /** One turn as coded. */
  lemma RoomTurn(t: seq<Info>, done: set<nat>, code: seq<Op>, sa0: seq<Option<int>>, sa1: seq<Option<int>>, sa2: seq<Option<int>>,
                 explored: set<nat>, off: nat, queue0: seq<nat>, queue1: seq<nat>, isNew: bool, taken: nat, made: nat, turns: nat)
    requires QueueRoom(false, t, done, code, sa0, explored, [off], queue0, taken, made, turns) && Covers(sa0, explored, [off] + queue0)
    requires Pushed(code, off, sa0, sa1, queue0, queue1) && Fell(t, code, off, sa1, sa2, isNew)
    requires off in explored ==> Followed(t, code, SeenOf(sa0), off)
    requires code[off].Call? ==> code[off].w in done
    ensures QueueRoom(false, t, done, code, sa2, explored + {off}, Front(off, isNew), queue1, taken, made + |queue1| - |queue0|, turns + 1)
  {
    hide Fell, Pushed, Covers, Followed, OnOrder, Accounted, After, Firsts;
    var heads := After(t, code, |explored|).heads;
    InRange(code, sa0, sa1, explored, off, queue0, queue1);
    AccountedTurn(code, sa0, sa1, off, queue0, queue1, heads, made, Front(off, isNew));
    if off in explored {
      OrderAgain(t, code, sa0, sa1, sa2, explored, off, queue0, queue1, isNew);
      assert heads + [] == heads;
    } else {
      OrderFirst(t, code, sa0, sa1, sa2, explored, off, queue0, queue1, isNew);
      CallsKnownNext(t, done, code, sa0, explored, off, queue0);
    }
  }

  lemma InRange(code: seq<Op>, sa0: seq<Option<int>>, sa1: seq<Option<int>>, explored: set<nat>, off: nat, queue0: seq<nat>, queue1: seq<nat>)
    requires Pushed(code, off, sa0, sa1, queue0, queue1)
    ensures off < |code| && |queue1| >= |queue0|
  {
  }

  lemma CallsKnownNext(t: seq<Info>, done: set<nat>, code: seq<Op>, sa: seq<Option<int>>, explored: set<nat>, off: nat, queue: seq<nat>)
    requires OnOrder(t, code, sa, explored, [off] + queue) && off !in explored && off < |code|
    requires CallsKnown(t, done, code, |explored|) && (code[off].Call? ==> code[off].w in done)
    ensures CallsKnown(t, done, code, |explored + {off}|)
  {
    hide After;
    FirstsFront(off, queue, explored);
    assert |explored + {off}| == |explored| + 1;
    assert NextKnown(done, code, After(t, code, |explored|));
  }

  /** So many opcodes into the order the heads make more entries than there is room for. */
  ghost predicate TooManyTargets(t: seq<Info>, done: set<nat>, code: seq<Op>, n: nat) {
    n <= |code| && CallsKnown(t, done, code, n) && Work(code, After(t, code, n).heads) > |code|
  }

  lemma SomeTargets(t: seq<Info>, done: set<nat>, code: seq<Op>, n: nat)
    requires TooManyTargets(t, done, code, n)
    ensures code != []
  {
    WorkOne(code, 0);
  }

  /** A jump that finds the queue full. */
  lemma RoomOver(t: seq<Info>, done: set<nat>, code: seq<Op>, sa: seq<Option<int>>, explored: set<nat>, off: nat, queue: seq<nat>,
                 taken: nat, made: nat, turns: nat)
    requires QueueRoom(false, t, done, code, sa, explored, [off], queue, taken, made, turns)
    requires off < |code| && code[off].JumpDisp() != 0 && made == |code|
    ensures TooManyTargets(t, done, code, |explored|)
  {
    hide CallsKnown, OnOrder, Work, Chain;
    SetBound(explored, |code|);
    WorkSum(code, [off], queue);
    WorkOne(code, off);
    NoJump(code, off);
  }

  /** An empty queue at the end: all the entries have been made and taken. */
  lemma RoomEnd(t: seq<Info>, done: set<nat>, code: seq<Op>, sa: seq<Option<int>>, explored: set<nat>, taken: nat, turns: nat)
    requires code != [] && QueueRoom(false, t, done, code, sa, explored, [], [], taken, taken, turns) && taken <= |code|
    ensures !Overfull(t, code) && CallsKnown(t, done, code, |code|)
    ensures turns == |After(t, code, |code|).heads| + Work(code, After(t, code, |code|).heads)
  {
    hide After, Chain;
    var none: seq<nat> := [];
    assert none + [] == none;
    SetBound(explored, |code|);
    AfterMore(t, code, |explored|, |code|);
    forall i: nat | i < |code|
      ensures NextKnown(done, code, After(t, code, i))
    {
      if i >= |explored| {
        AfterMore(t, code, |explored|, i);
      }
    }
  }

  // ----- more analysed words -----

  /** Tables that agree on the words called among the first n opcodes give the same order. */
  lemma {:induction false} AfterAgrees(t: seq<Info>, t': seq<Info>, code: seq<Op>, n: nat)
    requires forall i: nat :: i < n ==> NextAgrees(t, t', code, After(t, code, i))
    ensures After(t', code, n) == After(t, code, n)
    decreases n
  {
    if n > 0 {
      AfterAgrees(t, t', code, n - 1);
      assert NextAgrees(t, t', code, After(t, code, n - 1));
    }
  }

  predicate NextAgrees(t: seq<Info>, t': seq<Info>, code: seq<Op>, x: Walk) {
    x.agenda != [] && x.agenda[0] < |code| ==> (Continues(t, code[x.agenda[0]]) <==> Continues(t', code[x.agenda[0]]))
  }
}
