/** Building a word: opcodes, local names, and the control-flow stack through which jumps get their targets. */
module Builder {
  import opened Arrays
  import opened Bytes
  import opened CConst
  import opened Machine
  import opened Flow
  import opened AnalyseFlow
  import opened Generate

  /** Int32.MinValue, the displacement of a jump that still waits for its target. */
  const UNRESOLVED := -0x8000_0000

  /** More elements than this a .NET list cannot hold. */
  const MAX_OPCODES: nat := 0x7FFF_FFC7

  predicate IsUnresolved(op: Op) {
    op.Jump? && op.disp == UNRESOLVED
  }

  // ----- finished code -----

  predicate LocalKnown(op: Op, numLocals: nat) {
    op.GetLocal? || op.PutLocal? ==> op.num < numLocals
  }

  /** Code that control cannot leave but through `ret`. */
  predicate Closed(numLocals: nat, code: seq<Op>) {
    code != [] && !Top(code).MayFallThrough()
    && forall k :: 0 <= k < |code| ==> InWord(code, k) && LocalKnown(code[k], numLocals)
  }

  lemma ClosedGenerates(numLocals: nat, code: seq<Op>)
    requires Closed(numLocals, code)
    ensures Generates(Interp(numLocals, code))
  {
  }

  lemma ClosedStays(numLocals: nat, code: seq<Op>, t: seq<Info>, done: set<nat>, k: nat)
    requires Closed(numLocals, code) && k < |code|
    ensures !LeavesFrom(t, done, code, k)
  {
    assert InWord(code, k);
  }

  /** Of closed code the generator makes elements, and the analysis never runs off its end. */
  lemma ClosedSuffices(p: Program, v: nat, guarded: bool, r: Outcome)
    requires v < |p| && p[v].body.Interp? && Closed(p[v].body.numLocals, p[v].body.code)
    requires Justified(guarded, p, r)
    ensures Generates(p[v].body)
    ensures r != OutOfCode(v)
  {
    hide Evidence, Closed, LeavesFrom, Generates, Ambiguous, AmbiguousExit, ReachedCall, CallCycle, WronglyDeclared, ManyTargets;
    var numLocals, code := p[v].body.numLocals, p[v].body.code;
    ClosedGenerates(numLocals, code);
    ClosedNonEmpty(numLocals, code);
    if r == OutOfCode(v) {
      assert RunsOff(guarded, p, v);
      var k: nat, c, t, trs, done :| Evidence(guarded, p, v, k, c, t, trs, done) && k < |CodeOf(p, v)| && LeavesFrom(t, done, CodeOf(p, v), k);
      ClosedStays(numLocals, code, t, done, k);
    }
  }

  lemma ClosedNonEmpty(numLocals: nat, code: seq<Op>)
    requires Closed(numLocals, code)
    ensures code != []
  {
  }

  lemma ClosedLocals(p: Program, done: set<nat>)
    requires forall w :: w in done && w < |p| && p[w].body.Interp? ==> Closed(p[w].body.numLocals, p[w].body.code)
    ensures LocalsInRange(p, done)
  {
    forall w, k | w in done && 0 <= k < |CodeOf(p, w)|
      ensures LocalKnown(CodeOf(p, w)[k], NumLocals(p, w))
    {
    }
  }

  // ----- the control-flow stack as a sequence -----

  /** Nothing enters or leaves the stack by rolling it. */
  lemma RollKeeps(was: seq<int>, d: nat, slots: seq<int>, slots': seq<int>)
    requires d < |was| <= |slots| && was == slots[..|was|]
    requires slots' == ShiftedDown(slots, |was| - 1 - d, |was| - 1)[|was| - 1 := was[|was| - 1 - d]]
    ensures forall x :: x in was <==> x in Rolled(was, d)
    ensures forall i :: 0 <= i < |slots'| ==> slots'[i] in slots
  {
    forall x
      ensures x in was <==> x in Rolled(was, d)
    {
      RolledSame(was, d, x);
    }
  }

  /** An origin is the number of an opcode, a destination the complement of one; an unused slot is 0. */
  predicate SlotOk(x: int, n: nat) {
    if x >= 0 then x < n || x == 0 else 0 - x - 1 <= n
  }

  /** A jump among n opcodes: unresolved, or with a target up to the place of the next opcode. */
  predicate JumpOk(op: Op, k: nat, n: nat, jumpToLast: bool) {
    op.Jump? && op.disp != UNRESOLVED ==>
      0 <= k + 1 + op.disp <= n && (k + 1 + op.disp == n ==> jumpToLast)
  }

  /** The elements in use, the top one last. */
  function LiveOf(slots: seq<int>, ptr: int): seq<int> {
    if -1 <= ptr < |slots| then slots[..ptr + 1] else []
  }

  /** The array behind the control-flow stack: also what lies above its top is an old element, or 0. */
  ghost predicate SlotsOk(slots: seq<int>, ptr: int, n: nat) {
    -1 <= ptr < |slots| && |slots| >= 16
    && forall i :: 0 <= i < |slots| ==> SlotOk(slots[i], n)
  }

  ghost predicate CodeOk(code: seq<Op>, toResolve: seq<Option<string>>, numLocals: nat, jumpToLast: bool) {
    |toResolve| == |code| <= MAX_OPCODES && (code == [] ==> jumpToLast)
    && (forall k :: 0 <= k < |code| ==> JumpOk(code[k], k, |code|, jumpToLast) && LocalKnown(code[k], numLocals))
    && (forall k :: 0 <= k < |code| ==> (toResolve[k].Some? ==> code[k].Call?))
  }

  /** Locals are numbered from 0 in the order of their definition. */
  ghost predicate LocalsOk(locals: map<string, nat>) {
    (forall n :: n in locals ==> locals[n] < |locals|)
    && (forall m, n :: m in locals && n in locals && locals[m] == locals[n] ==> m == n)
  }

  /** A jump without a target is still on the control-flow stack. */
  ghost predicate Pending(code: seq<Op>, live: seq<int>) {
    forall k :: 0 <= k < |code| && IsUnresolved(code[k]) ==> k in live
  }

  lemma RollOk(slots: seq<int>, ptr: int, code: seq<Op>, d: nat)
    requires SlotsOk(slots, ptr, |code|) && Pending(code, LiveOf(slots, ptr)) && d <= ptr
    ensures var slots' := ShiftedDown(slots, ptr - d, ptr)[ptr := slots[ptr - d]];
            SlotsOk(slots', ptr, |code|) && Pending(code, LiveOf(slots', ptr))
            && LiveOf(slots', ptr) == Rolled(LiveOf(slots, ptr), d)
  {
    hide SlotOk, ShiftedDown, Rolled;
    var slots' := ShiftedDown(slots, ptr - d, ptr)[ptr := slots[ptr - d]];
    var was := LiveOf(slots, ptr);
    DownIsRolled(slots, d, ptr + 1);
    RollKeeps(was, d, slots, slots');
    forall i | 0 <= i < |slots'|
      ensures SlotOk(slots'[i], |code|)
    {
      assert slots'[i] in slots;
    }
  }

  class WordBuilder {
    var cfStack: array<int>
    var cfPtr: int
    var code: seq<Op>
    var toResolve: seq<Option<string>>
    var locals: map<string, nat>
    var jumpToLast: bool
    var stackEffect: SType

    /** The control-flow stack. */
    function Live(): seq<int>
      reads this, cfStack
    {
      LiveOf(cfStack[..], cfPtr)
    }

    ghost predicate Valid()
      reads this, cfStack
    {
      SlotsOk(cfStack[..], cfPtr, |code|) && CodeOk(code, toResolve, |locals|, jumpToLast)
      && LocalsOk(locals) && Pending(code, Live())
    }

    constructor ()
      ensures Valid() && fresh(cfStack)
      ensures code == [] && Live() == [] && locals == map[] && toResolve == [] && jumpToLast
    {
      cfStack := new int[16](_ => 0);
      cfPtr := -1;
      code, toResolve, locals := [], [], map[];
      jumpToLast := true;
      stackEffect := UNKNOWN;
    }

    // ----- control-flow stack -----

    /** Fails (an array access or copy out of range) exactly if there is no element at that depth. */
    method CSRoll(depth: int) returns (ok: bool)
      requires Valid()
      modifies cfStack
      ensures ok <==> 0 <= depth < |old(Live())|
      ensures ok ==> Valid() && Live() == Rolled(old(Live()), depth)
    {
      hide CodeOk, LocalsOk, Pending, ShiftedDown, Rolled, SlotOk;
      var at := cfPtr - depth;
      if !(0 <= at < cfStack.Length) || depth < 0 {
        return false;
      }
      RollOk(cfStack[..], cfPtr, code, depth);
      var x := cfStack[at];
      ShiftDown(cfStack, at, cfPtr);
      ghost var shifted := cfStack[..];
      cfStack[cfPtr] := x;
      assert cfStack[..] == shifted[cfPtr := x];
      ok := true;
    }

    /** Doubles the array when it is full. */
    method CSPush(x: int, ghost n: nat)
      requires SlotsOk(cfStack[..], cfPtr, n) && SlotOk(x, n)
      modifies this`cfStack, this`cfPtr, cfStack
      ensures SlotsOk(cfStack[..], cfPtr, n) && Live() == old(Live()) + [x]
      ensures cfStack == old(cfStack) || fresh(cfStack)
    {
      ghost var was, slots := Live(), cfStack[..];
      var len := cfStack.Length;
      cfPtr := cfPtr + 1;
      if cfPtr == len {
        var ncf := new int[2 * len](_ => 0);
        forall i | 0 <= i < len {
          ncf[i] := cfStack[i];
        }
        cfStack := ncf;
      }
      cfStack[cfPtr] := x;
      PushOk(slots, cfStack[..], cfPtr - 1, n, x);
    }

    /** A negative depth reads a slot above the top: whatever was last there, or 0. */
    method CSPick(depth: int) returns (ok: bool)
      requires Valid()
      modifies this`cfStack, this`cfPtr, cfStack
      ensures ok <==> 0 <= old(cfPtr) - depth < old(cfStack.Length)
      ensures ok ==> Valid() && Live() == old(Live()) + [old(if 0 <= cfPtr - depth < cfStack.Length then cfStack[cfPtr - depth] else 0)]
      ensures ok && depth >= 0 ==> depth < |old(Live())| && Live() == old(Live()) + [old(Live()[|Live()| - 1 - depth])]
      ensures cfStack == old(cfStack) || fresh(cfStack)
    {
      hide CodeOk, LocalsOk;
      var at := cfPtr - depth;
      if !(0 <= at < cfStack.Length) {
        return false;
      }
      var x := cfStack[at];
      ghost var was := Live();
      CSPush(x, |code|);
      assert forall k :: k in was ==> k in was + [x];
      ok := true;
    }

    // ----- opcodes -----

    /** Add, with everything that must be true of the opcode. */
    method Add(op: Op, refName: Option<string>) returns (ok: bool)
      requires SlotsOk(cfStack[..], cfPtr, |code| + 1) && CodeOk(code, toResolve, |locals|, jumpToLast) && LocalsOk(locals)
      requires Pending(code, Live())
      requires JumpOk(op, |code|, |code| + 1, false) && LocalKnown(op, |locals|)
      requires IsUnresolved(op) ==> |code| in Live()
      requires refName.Some? ==> op.Call?
      modifies this`code, this`toResolve, this`jumpToLast
      ensures ok <==> |old(code)| < MAX_OPCODES
      ensures ok ==> Valid() && !jumpToLast
      ensures ok ==> code == old(code) + [op] && toResolve == old(toResolve) + [refName]
    {
      if |code| >= MAX_OPCODES {
        return false;
      }
      AddOk(code, toResolve, |locals|, jumpToLast, op, refName, Live());
      code := code + [op];
      toResolve := toResolve + [refName];
      jumpToLast := false;
      ok := true;
    }

    /** A simple opcode: no jump. */
    method Simple(op: Op, refName: Option<string>) returns (ok: bool)
      requires Valid() && !op.Jump? && LocalKnown(op, |locals|) && (refName.Some? ==> op.Call?)
      modifies this`code, this`toResolve, this`jumpToLast
      ensures ok <==> |old(code)| < MAX_OPCODES
      ensures ok ==> Valid() && !jumpToLast
      ensures ok ==> code == old(code) + [op] && toResolve == old(toResolve) + [refName]
    {
      SlotsMore(cfStack[..], cfPtr, |code|);
      ok := Add(op, refName);
    }

    method Literal(v: Op) returns (ok: bool)
      requires Valid() && (v.Const? || v.ConstExpr?)
      modifies this`code, this`toResolve, this`jumpToLast
      ensures ok <==> |old(code)| < MAX_OPCODES
      ensures ok ==> Valid() && !jumpToLast && code == old(code) + [v] && toResolve == old(toResolve) + [None]
    {
      ok := Simple(v, None);
    }

    /** Call by name: `>name` stores into a local, `name` reads it; other names are looked up later. */
    method CallName(target: string) returns (ok: bool)
      requires Valid()
      modifies this`code, this`toResolve, this`jumpToLast
      ensures ok <==> |old(code)| < MAX_OPCODES
      ensures ok ==> Valid() && !jumpToLast
      ensures ok ==>
        var write := target != "" && target[0] == '>';
        var lname := if write then target[1..] else target;
        code == old(code) + [if lname !in locals then Call(0) else if write then PutLocal(locals[lname]) else GetLocal(locals[lname])]
        && toResolve == old(toResolve) + [if lname in locals then None else Some(target)]
    {
      var write := target != "" && target[0] == '>';
      var lname := if write then target[1..] else target;
      if lname in locals {
        ok := Simple(if write then PutLocal(locals[lname]) else GetLocal(locals[lname]), None);
      } else {
        ok := Simple(Call(0), Some(target));
      }
    }

    method CallExt(w: nat) returns (ok: bool)
      requires Valid()
      modifies this`code, this`toResolve, this`jumpToLast
      ensures ok <==> |old(code)| < MAX_OPCODES
      ensures ok ==> Valid() && !jumpToLast && code == old(code) + [Call(w)] && toResolve == old(toResolve) + [None]
    {
      ok := Simple(Call(w), None);
    }

    method DefLocal(lname: string) returns (ok: bool)
      requires Valid()
      modifies this`locals
      ensures ok <==> lname !in old(locals)
      ensures ok ==> Valid() && locals == old(locals)[lname := |old(locals)|] && |locals| == |old(locals)| + 1
    {
      if lname in locals {
        return false;
      }
      locals := locals[lname := |locals|];
      ok := true;
    }

    method Ret() returns (ok: bool)
      requires Valid()
      modifies this`code, this`toResolve, this`jumpToLast
      ensures ok <==> |old(code)| < MAX_OPCODES
      ensures ok ==> Valid() && !jumpToLast
      ensures ok ==> code == old(code) + [Op.Ret] && toResolve == old(toResolve) + [None]
    {
      ok := Simple(Op.Ret, None);
    }

    // ----- jumps -----

    /** Ahead, AheadIf, AheadIfNot. */
    method Ahead(cond: Cond) returns (ok: bool)
      requires Valid()
      modifies this, cfStack
      ensures ok <==> |old(code)| < MAX_OPCODES
      ensures ok ==> Valid() && !jumpToLast && locals == old(locals) && stackEffect == old(stackEffect)
      ensures ok ==> code == old(code) + [Jump(cond, UNRESOLVED)] && toResolve == old(toResolve) + [None]
      ensures ok ==> Live() == old(Live()) + [|old(code)|]
      ensures cfStack == old(cfStack) || fresh(cfStack)
    {
      ghost var was := Live();
      SlotsMore(cfStack[..], cfPtr, |code|);
      CSPush(|code|, |code| + 1);
      PendingMore(code, was, |code|);
      ok := Add(Jump(cond, UNRESOLVED), None);
    }

    /** The top of the control-flow stack must be an origin: the number of a jump without target. */
    method Then() returns (ok: bool)
      requires Valid()
      modifies this`cfPtr, this`code, this`jumpToLast
      ensures ok <==> old(Live() != [] && 0 <= Top(Live()) < |code| && IsUnresolved(code[Top(Live())]))
      ensures ok ==> Valid() && jumpToLast && Live() == Pop(old(Live()))
      ensures ok ==> var x := Top(old(Live()));
        code == old(code)[x := Jump(old(code)[x].cond, |old(code)| - x - 1)]
    {
      if cfPtr < 0 {
        return false;
      }
      var x := cfStack[cfPtr];
      if x < 0 || x >= |code| || !IsUnresolved(code[x]) {
        return false;
      }
      ThenOk(cfStack[..], cfPtr, code, toResolve, |locals|, jumpToLast);
      cfPtr := cfPtr - 1;
      code := code[x := Jump(code[x].cond, |code| - x - 1)];
      jumpToLast := true;
      ok := true;
    }

    method Begin()
      requires Valid()
      modifies this`cfStack, this`cfPtr, cfStack
      ensures Valid() && Live() == old(Live()) + [0 - |code| - 1]
      ensures cfStack == old(cfStack) || fresh(cfStack)
    {
      ghost var was := Live();
      CSPush(0 - |code| - 1, |code|);
      PendingMore(code, was, 0 - |code| - 1);
    }

    /** Again, AgainIf, AgainIfNot: the top of the control-flow stack must be a destination. */
    method Again(cond: Cond) returns (ok: bool)
      requires Valid()
      modifies this`cfPtr, this`code, this`toResolve, this`jumpToLast
      ensures ok <==> old(Live()) != [] && Top(old(Live())) < 0 && |old(code)| < MAX_OPCODES
      ensures ok ==> Valid() && !jumpToLast && Live() == Pop(old(Live()))
      ensures ok ==> var x := 0 - Top(old(Live())) - 1;
        code == old(code) + [Jump(cond, x - |old(code)| - 1)] && 0 <= x <= |old(code)|
      ensures ok ==> toResolve == old(toResolve) + [None]
    {
      if cfPtr < 0 {
        return false;
      }
      var top := cfStack[cfPtr];
      if top >= 0 {
        return false;
      }
      var x := 0 - top - 1;
      PopOk(cfStack[..], cfPtr, code);
      SlotsMore(cfStack[..], cfPtr, |code|);
      cfPtr := cfPtr - 1;
      ok := Add(Jump(cond, x - |code| - 1), None);
    }

    // ----- the finished word -----

    /** Build: the control-flow stack must be empty; a `ret` is appended if control could run off the end.
        Whatever was called before, the code is closed. */
    method Build() returns (ok: bool, body: Body)
      requires Valid()
      modifies this`code, this`toResolve, this`jumpToLast
      ensures ok ==> old(Live()) == []
      ensures ok <==> old(Live()) == [] && (old(jumpToLast || Top(code).MayFallThrough()) ==> |old(code)| < MAX_OPCODES)
      ensures ok ==> body == Interp(|locals|, code) && Closed(|locals|, code) && |toResolve| == |code|
      ensures ok ==> code == old(code) + (if old(jumpToLast || Top(code).MayFallThrough()) then [Op.Ret] else [])
      ensures ok ==> forall k :: 0 <= k < |code| && toResolve[k].Some? ==> code[k].Call?
    {
      body := Native;
      if cfPtr != -1 {
        return false, body;
      }
      ok := true;
      if jumpToLast || code[|code| - 1].MayFallThrough() {
        ok := Ret();
        if !ok {
          return;
        }
      }
      body := Interp(|locals|, code);
    }
  }

  lemma PushOk(slots: seq<int>, slots': seq<int>, ptr: int, n: nat, x: int)
    requires SlotsOk(slots, ptr, n) && SlotOk(x, n)
    requires |slots| <= |slots'| && ptr + 1 < |slots'|
    requires forall i :: 0 <= i < |slots'| ==>
      slots'[i] == if i == ptr + 1 then x else if i < |slots| then slots[i] else 0
    ensures SlotsOk(slots', ptr + 1, n) && LiveOf(slots', ptr + 1) == LiveOf(slots, ptr) + [x]
  {
  }

  lemma SlotsMore(slots: seq<int>, ptr: int, n: nat)
    requires SlotsOk(slots, ptr, n)
    ensures SlotsOk(slots, ptr, n + 1)
  {
  }

  lemma PendingMore(code: seq<Op>, live: seq<int>, x: int)
    requires Pending(code, live)
    ensures Pending(code, live + [x])
  {
  }

  /** Popping a destination leaves every pending origin. */
  lemma PopOk(slots: seq<int>, ptr: int, code: seq<Op>)
    requires SlotsOk(slots, ptr, |code|) && 0 <= ptr && slots[ptr] < 0 && Pending(code, LiveOf(slots, ptr))
    ensures SlotsOk(slots, ptr - 1, |code|) && LiveOf(slots, ptr - 1) == Pop(LiveOf(slots, ptr))
    ensures Top(LiveOf(slots, ptr)) == slots[ptr] && Pending(code, LiveOf(slots, ptr - 1))
  {
    var live := LiveOf(slots, ptr);
    assert live == Pop(live) + [slots[ptr]];
  }

  lemma AddOk(code: seq<Op>, toResolve: seq<Option<string>>, numLocals: nat, jumpToLast: bool, op: Op,
              refName: Option<string>, live: seq<int>)
    requires CodeOk(code, toResolve, numLocals, jumpToLast) && Pending(code, live) && |code| < MAX_OPCODES
    requires JumpOk(op, |code|, |code| + 1, false) && LocalKnown(op, numLocals)
    requires IsUnresolved(op) ==> |code| in live
    requires refName.Some? ==> op.Call?
    ensures CodeOk(code + [op], toResolve + [refName], numLocals, false) && Pending(code + [op], live)
  {
    var code' := code + [op];
    forall k | 0 <= k < |code'|
      ensures JumpOk(code'[k], k, |code'|, false) && LocalKnown(code'[k], numLocals)
    {
      if k < |code| {
        assert JumpOk(code[k], k, |code|, jumpToLast);
      }
    }
  }

  /** Giving the jump at the top of the control-flow stack its target. */
  lemma ThenOk(slots: seq<int>, ptr: int, code: seq<Op>, toResolve: seq<Option<string>>, numLocals: nat, jumpToLast: bool)
    requires SlotsOk(slots, ptr, |code|) && Pending(code, LiveOf(slots, ptr)) && CodeOk(code, toResolve, numLocals, jumpToLast)
    requires 0 <= ptr && 0 <= slots[ptr] < |code| && IsUnresolved(code[slots[ptr]])
    ensures var x := slots[ptr];
            var code' := code[x := Jump(code[x].cond, |code| - x - 1)];
            && SlotsOk(slots, ptr - 1, |code'|) && CodeOk(code', toResolve, numLocals, true)
            && LiveOf(slots, ptr - 1) == Pop(LiveOf(slots, ptr)) && Pending(code', LiveOf(slots, ptr - 1))
            && Top(LiveOf(slots, ptr)) == x
  {
    var x := slots[ptr];
    var code' := code[x := Jump(code[x].cond, |code| - x - 1)];
    var live := LiveOf(slots, ptr);
    assert live == Pop(live) + [x];
    forall k | 0 <= k < |code'|
      ensures JumpOk(code'[k], k, |code'|, true) && LocalKnown(code'[k], numLocals)
    {
      assert JumpOk(code[k], k, |code|, jumpToLast);
    }
  }

  // ----- names -----

  /** Resolve: the names left by CallName become words of the dictionary; an unknown name is an error. */
  method Resolve(code: seq<Op>, toResolve: seq<Option<string>>, dictionary: map<string, nat>) returns (ok: bool, r: seq<Op>)
    requires |toResolve| == |code|
    requires forall k :: 0 <= k < |code| && toResolve[k].Some? ==> code[k].Call?
    ensures ok <==> forall k :: 0 <= k < |code| && toResolve[k].Some? ==> toResolve[k].value in dictionary
    ensures ok ==> |r| == |code| && forall k :: 0 <= k < |code| ==>
      r[k] == if toResolve[k].Some? then Call(dictionary[toResolve[k].value]) else code[k]
    ensures ok ==> forall n :: Closed(n, code) ==> Closed(n, r)
  {
    r := code;
    var i := 0;
    while i < |code|
      invariant 0 <= i <= |code| && |r| == |code|
      invariant forall k :: 0 <= k < i && toResolve[k].Some? ==> toResolve[k].value in dictionary
      invariant forall k :: 0 <= k < |code| ==>
        r[k] == if k < i && toResolve[k].Some? then Call(dictionary[toResolve[k].value]) else code[k]
    {
      if toResolve[i].Some? {
        if toResolve[i].value !in dictionary {
          return false, r;
        }
        r := r[i := Call(dictionary[toResolve[i].value])];
      }
      i := i + 1;
    }
    ok := true;
    forall n | Closed(n, code)
      ensures Closed(n, r)
    {
      forall k | 0 <= k < |r|
        ensures InWord(r, k) && LocalKnown(r[k], n)
      {
        assert InWord(code, k) && LocalKnown(code[k], n);
      }
    }
  }
}
