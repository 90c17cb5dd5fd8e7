/** The immediate words if, else, then, begin, while, repeat, until, again: structured statements compiled by
    calls of the word builder, and run by the opcode machine. */
module Immediate {
  import opened Arrays
  import opened Bytes
  import opened CConst
  import opened Machine
  import opened Builder
  import opened Structured

  predicate LocalsDefined(s: Stmt, numLocals: nat) {
    match s
    case Simple(op) => LocalKnown(op, numLocals)
    case Seq(a, b) => LocalsDefined(a, numLocals) && LocalsDefined(b, numLocals)
    case If(_, b) => LocalsDefined(b, numLocals)
    case IfElse(_, a, b) => LocalsDefined(a, numLocals) && LocalsDefined(b, numLocals)
    case Until(_, b) => LocalsDefined(b, numLocals)
    case While(c, b) => LocalsDefined(c, numLocals) && LocalsDefined(b, numLocals)
    case Again(b) => LocalsDefined(b, numLocals)
    case Return => true
  }

  /** The calls that the source text of a statement makes. Only a full code list can stop them. */
  method CompileStmt(b: WordBuilder, s: Stmt) returns (ok: bool)
    requires b.Valid() && NoRawJumps(s) && LocalsDefined(s, |b.locals|)
    modifies b, b.cfStack
    ensures |old(b.code)| + |Flat(s)| <= MAX_OPCODES ==> ok
    ensures ok ==> b.Valid() && b.code == old(b.code) + Flat(s)
    ensures ok ==> b.Live() == old(b.Live()) && b.locals == old(b.locals)
    ensures b.cfStack == old(b.cfStack) || fresh(b.cfStack)
    decreases s, 1
  {
    hide SlotsOk, CodeOk, LocalsOk, Pending, WordBuilder.Valid;
    ghost var code0 := b.code;
    match s {
      case Simple(op) => ok := b.Simple(op, None);
      case Return => ok := b.Ret();
      case Seq(first, second) =>
        ok := CompileStmt(b, first);
        if ok {
          ok := CompileStmt(b, second);
          assert code0 + Flat(first) + Flat(second) == code0 + Flat(s);
        }
      case If(_, _) => ok := CompileIf(b, s);
      case IfElse(_, _, _) => ok := CompileIfElse(b, s);
      case Until(_, _) => ok := CompileUntil(b, s);
      case While(_, _) => ok := CompileWhile(b, s);
      case Again(_) => ok := CompileAgain(b, s);
    }
  }

  /** if ... then */
  method CompileIf(b: WordBuilder, s: Stmt) returns (ok: bool)
    requires s.If?
    requires b.Valid() && NoRawJumps(s) && LocalsDefined(s, |b.locals|)
    modifies b, b.cfStack
    ensures |old(b.code)| + |Flat(s)| <= MAX_OPCODES ==> ok
    ensures ok ==> b.Valid() && b.code == old(b.code) + Flat(s)
    ensures ok ==> b.Live() == old(b.Live()) && b.locals == old(b.locals)
    ensures b.cfStack == old(b.cfStack) || fresh(b.cfStack)
    decreases s, 0
  {
    hide WordBuilder.Valid, WordBuilder.Live, Flat, Rolled, Top, Pop, LocalKnown;
    ghost var code0, live0 := b.code, b.Live();
    FlatSize(s);
    ok := b.Ahead(Unless(s.when));
    if ok {
      ok := CompileStmt(b, s.body);
      if ok {
        TopPop(live0, |code0|);
        IfCode(code0, s);
        ok := b.Then();
      }
    }
  }

  /** if ... else ... then, where else is: ahead 1 cs-roll then */
  method CompileIfElse(b: WordBuilder, s: Stmt) returns (ok: bool)
    requires s.IfElse?
    requires b.Valid() && NoRawJumps(s) && LocalsDefined(s, |b.locals|)
    modifies b, b.cfStack
    ensures |old(b.code)| + |Flat(s)| <= MAX_OPCODES ==> ok
    ensures ok ==> b.Valid() && b.code == old(b.code) + Flat(s)
    ensures ok ==> b.Live() == old(b.Live()) && b.locals == old(b.locals)
    ensures b.cfStack == old(b.cfStack) || fresh(b.cfStack)
    decreases s, 0
  {
    hide WordBuilder.Valid, WordBuilder.Live, Flat, Rolled, Top, Pop, LocalKnown;
    ghost var code0, live0 := b.code, b.Live();
    FlatSize(s);
    ok := b.Ahead(Unless(s.when));
    if ok {
      ok := CompileStmt(b, s.yes);
      if ok {
        IfElseCode(code0, s);
        TopPop(live0, |b.code|);
        ok := Else(b, live0, |code0|);
        if ok {
          ok := CompileStmt(b, s.no);
          if ok {
            ok := b.Then();
          }
        }
      }
    }
  }

  /** begin ... until */
  method CompileUntil(b: WordBuilder, s: Stmt) returns (ok: bool)
    requires s.Until?
    requires b.Valid() && NoRawJumps(s) && LocalsDefined(s, |b.locals|)
    modifies b, b.cfStack
    ensures |old(b.code)| + |Flat(s)| <= MAX_OPCODES ==> ok
    ensures ok ==> b.Valid() && b.code == old(b.code) + Flat(s)
    ensures ok ==> b.Live() == old(b.Live()) && b.locals == old(b.locals)
    ensures b.cfStack == old(b.cfStack) || fresh(b.cfStack)
    decreases s, 0
  {
    hide WordBuilder.Valid, WordBuilder.Live, Flat, Rolled, Top, Pop, LocalKnown;
    ghost var code0, live0 := b.code, b.Live();
    FlatSize(s);
    b.Begin();
    ok := CompileStmt(b, s.body);
    if ok {
      TopPop(live0, 0 - |code0| - 1);
      ok := b.Again(Unless(s.when));
      LoopCode(code0, s);
    }
  }

  /** begin ... while ... repeat, where while is: if 1 cs-roll, and repeat is: again then */
  method CompileWhile(b: WordBuilder, s: Stmt) returns (ok: bool)
    requires s.While?
    requires b.Valid() && NoRawJumps(s) && LocalsDefined(s, |b.locals|)
    modifies b, b.cfStack
    ensures |old(b.code)| + |Flat(s)| <= MAX_OPCODES ==> ok
    ensures ok ==> b.Valid() && b.code == old(b.code) + Flat(s)
    ensures ok ==> b.Live() == old(b.Live()) && b.locals == old(b.locals)
    ensures b.cfStack == old(b.cfStack) || fresh(b.cfStack)
    decreases s, 0
  {
    hide WordBuilder.Valid, WordBuilder.Live, Flat, Rolled, Top, Pop, LocalKnown;
    ghost var code0, live0 := b.code, b.Live();
    FlatSize(s);
    b.Begin();
    ok := CompileStmt(b, s.cond);
    if ok {
      ghost var k := |b.code|;
      ok := BeginWhile(b, live0, 0 - |code0| - 1);
      if ok {
        ok := CompileStmt(b, s.body);
        if ok {
          WhileCode(code0, s);
          ok := Repeat(b, live0, k, 0 - |code0| - 1);
        }
      }
    }
  }

  /** begin ... again */
  method CompileAgain(b: WordBuilder, s: Stmt) returns (ok: bool)
    requires s.Again?
    requires b.Valid() && NoRawJumps(s) && LocalsDefined(s, |b.locals|)
    modifies b, b.cfStack
    ensures |old(b.code)| + |Flat(s)| <= MAX_OPCODES ==> ok
    ensures ok ==> b.Valid() && b.code == old(b.code) + Flat(s)
    ensures ok ==> b.Live() == old(b.Live()) && b.locals == old(b.locals)
    ensures b.cfStack == old(b.cfStack) || fresh(b.cfStack)
    decreases s, 0
  {
    hide WordBuilder.Valid, WordBuilder.Live, Flat, Rolled, Top, Pop, LocalKnown;
    ghost var code0, live0 := b.code, b.Live();
    FlatSize(s);
    b.Begin();
    ok := CompileStmt(b, s.body);
    if ok {
      TopPop(live0, 0 - |code0| - 1);
      ok := b.Again(Always);
      LoopCode(code0, s);
    }
  }

  /** else: the jump over the second branch, and the target of the jump at x, the first branch's. */
  method Else(b: WordBuilder, ghost live: seq<int>, ghost x: nat) returns (ok: bool)
    requires b.Valid() && b.Live() == live + [x] && x < |b.code| && IsUnresolved(b.code[x])
    modifies b, b.cfStack
    ensures ok <==> |old(b.code)| < MAX_OPCODES
    ensures ok ==> b.Valid() && b.Live() == live + [|old(b.code)|] && b.locals == old(b.locals)
    ensures ok ==> b.code == Patched(old(b.code) + [Jump(Always, UNRESOLVED)], x)
    ensures b.cfStack == old(b.cfStack) || fresh(b.cfStack)
  {
    hide WordBuilder.Valid, WordBuilder.Live, Rolled, Top, Pop;
    ok := b.Ahead(Always);
    if ok {
      RolledTwo(live, x, |b.code| - 1);
      TopPop(live + [|b.code| - 1], x);
      ok := b.CSRoll(1);
      ok := b.Then();
    }
  }

  /** while: leaves the loop if the flag is false; its jump goes below the loop's start on the stack. */
  method BeginWhile(b: WordBuilder, ghost live: seq<int>, ghost start: int) returns (ok: bool)
    requires b.Valid() && b.Live() == live + [start]
    modifies b, b.cfStack
    ensures ok <==> |old(b.code)| < MAX_OPCODES
    ensures ok ==> b.Valid() && b.Live() == live + [|old(b.code)|] + [start] && b.locals == old(b.locals)
    ensures ok ==> b.code == old(b.code) + [Jump(IfFalse, UNRESOLVED)]
    ensures b.cfStack == old(b.cfStack) || fresh(b.cfStack)
  {
    hide WordBuilder.Valid, WordBuilder.Live, Rolled, Top, Pop;
    ok := b.Ahead(IfFalse);
    if ok {
      RolledTwo(live, start, |b.code| - 1);
      ok := b.CSRoll(1);
    }
  }

  /** repeat: back to the start, and the target of the jump at k that leaves the loop. */
  method Repeat(b: WordBuilder, ghost live: seq<int>, ghost k: nat, ghost start: int) returns (ok: bool)
    requires b.Valid() && b.Live() == live + [k] + [start] && start < 0 && k < |b.code| && IsUnresolved(b.code[k])
    modifies b, b.cfStack
    ensures ok <==> |old(b.code)| < MAX_OPCODES
    ensures ok ==> b.Valid() && b.Live() == live && b.locals == old(b.locals)
    ensures ok ==> b.code == Patched(old(b.code) + [Jump(Always, 0 - start - 1 - |old(b.code)| - 1)], k)
    ensures b.cfStack == old(b.cfStack) || fresh(b.cfStack)
  {
    hide WordBuilder.Valid, WordBuilder.Live, Rolled, Top, Pop;
    TopPop(live + [k], start);
    TopPop(live, k);
    ok := b.Again(Always);
    if ok {
      ok := b.Then();
    }
  }

  lemma TopPop(live: seq<int>, x: int)
    ensures Top(live + [x]) == x && Pop(live + [x]) == live
  {
  }

  lemma RolledTwo(live: seq<int>, x: int, y: int)
    ensures Rolled(live + [x] + [y], 1) == live + [y] + [x]
  {
  }

  /** Then, applied to a jump at position k of the code. */
  function Patched(code: seq<Op>, k: nat): (r: seq<Op>)
    requires k < |code| && code[k].Jump?
  {
    code[k := Jump(code[k].cond, |code| - k - 1)]
  }

  lemma FlatSize(s: Stmt)
    ensures s.If? ==> |Flat(s)| == 1 + |Flat(s.body)|
    ensures s.IfElse? ==> |Flat(s)| == 1 + |Flat(s.yes)| + 1 + |Flat(s.no)|
    ensures s.Until? || s.Again? ==> |Flat(s)| == |Flat(s.body)| + 1
    ensures s.While? ==> |Flat(s)| == |Flat(s.cond)| + 1 + |Flat(s.body)| + 1
  {
  }

  lemma IfCode(code: seq<Op>, s: Stmt)
    requires s.If?
    ensures var a := code + [Jump(Unless(s.when), UNRESOLVED)] + Flat(s.body);
            IsUnresolved(a[|code|]) && Patched(a, |code|) == code + Flat(s)
  {
  }

  lemma IfElseCode(code: seq<Op>, s: Stmt)
    requires s.IfElse?
    ensures var a := code + [Jump(Unless(s.when), UNRESOLVED)] + Flat(s.yes) + [Jump(Always, UNRESOLVED)];
            IsUnresolved(a[|code|]) && IsUnresolved((Patched(a, |code|) + Flat(s.no))[|a| - 1])
            && Patched(Patched(a, |code|) + Flat(s.no), |a| - 1) == code + Flat(s)
  {
    var yes, no := Flat(s.yes), Flat(s.no);
    BothPatched(code, Unless(s.when), yes, no);
    assert code + Flat(s) == code + [Jump(Unless(s.when), |yes| + 1)] + yes + [Jump(Always, |no|)] + no;
  }

  lemma BothPatched(code: seq<Op>, cond: Cond, yes: seq<Op>, no: seq<Op>)
    ensures var a := code + [Jump(cond, UNRESOLVED)] + yes + [Jump(Always, UNRESOLVED)];
            IsUnresolved(a[|code|]) && IsUnresolved((Patched(a, |code|) + no)[|a| - 1])
            && Patched(Patched(a, |code|) + no, |a| - 1) == code + [Jump(cond, |yes| + 1)] + yes + [Jump(Always, |no|)] + no
  {
    var a := code + [Jump(cond, UNRESOLVED)] + yes + [Jump(Always, UNRESOLVED)];
    assert Patched(a, |code|) == code + [Jump(cond, |yes| + 1)] + yes + [Jump(Always, UNRESOLVED)];
  }

  lemma LoopCode(code: seq<Op>, s: Stmt)
    requires s.Until? || s.Again?
    ensures code + Flat(s.body) + [Jump(if s.Until? then Unless(s.when) else Always, |code| - |code + Flat(s.body)| - 1)] == code + Flat(s)
  {
  }

  lemma WhileCode(code: seq<Op>, s: Stmt)
    requires s.While?
    ensures var a := code + Flat(s.cond) + [Jump(IfFalse, UNRESOLVED)] + Flat(s.body);
            var k := |code| + |Flat(s.cond)|;
            IsUnresolved(a[k]) && k < |a|
            && Patched(a + [Jump(Always, |code| - |a| - 1)], |code| + |Flat(s.cond)|) == code + Flat(s)
  {
  }

  // ----- a whole word -----

  /** The first n names are pairwise different. */
  predicate DifferentNames(names: seq<string>, n: nat) {
    n <= |names| && forall i, j :: 0 <= i < j < n ==> names[i] != names[j]
  }

  lemma NoNames(names: seq<string>)
    ensures DifferentNames(names, 0)
  {
  }

  lemma OneMoreName(names: seq<string>, n: nat)
    requires DifferentNames(names, n) && n < |names|
    ensures DifferentNames(names, n + 1) <==> names[n] !in names[..n]
    ensures DifferentNames(names, |names|) ==> DifferentNames(names, n + 1)
  {
  }

  /** `:` to `;` around one statement, with the given local names. */
  method CompileWord(s: Stmt, names: seq<string>) returns (ok: bool, body: Body)
    requires NoRawJumps(s) && LocalsDefined(s, |names|)
    ensures ok ==> body.Interp? && body.numLocals == |names| && WordOf(s, body.code, |names|)
    ensures DifferentNames(names, |names|) && |Flat(s)| < MAX_OPCODES ==> ok
    ensures ok ==> DifferentNames(names, |names|)
  {
    hide WordBuilder.Valid, Flat, LocalsDefined, DifferentNames;
    NoNames(names);
    body := Native;
    var b := new WordBuilder();
    var i := 0;
    while i < |names|
      invariant 0 <= i <= |names| && b.Valid() && |b.locals| == i && fresh(b) && fresh(b.cfStack)
      invariant b.code == [] && b.Live() == []
      invariant forall n :: n in b.locals <==> n in names[..i]
      invariant DifferentNames(names, i)
    {
      OneMoreName(names, i);
      ok := b.DefLocal(names[i]);
      if !ok {
        return;
      }
      i := i + 1;
    }
    ok := CompileStmt(b, s);
    if ok {
      ok, body := b.Build();
      assert [] + Flat(s) == Flat(s);
    }
  }

  // ----- on the opcode machine -----

  /** The machine in word w at opcode pc; the locals and the context structure are the rest of the state. */
  function CpuAt<E>(w: nat, pc: nat, st: State<(seq<Cell>, E)>, below: seq<Frame>, caller: Option<(nat, nat)>): (c: Cpu<E>) {
    Cpu(w, pc, st.stack, below + [Frame(caller, st.rest.0)], st.rest.1)
  }

  /** The machine may run opcode k of word w, calls included, to the result that `exec` tells. */
  ghost predicate RunsAs<E(!new)>(p: Program, prim: Prim<E>, w: nat, exec: Exec<(seq<Cell>, E)>, k: nat)
    requires k < |CodeOf(p, w)|
  {
    forall st: State<(seq<Cell>, E)>, below, caller ::
      match exec(CodeOf(p, w)[k], st)
      case Some(st') => CanReach(p, prim, CpuAt(w, k, st, below, caller), Next(CpuAt(w, k + 1, st', below, caller)))
      case None => CanReach(p, prim, CpuAt(w, k, st, below, caller), Wrong)
  }

  ghost predicate CanReach<E(!new)>(p: Program, prim: Prim<E>, c: Cpu<E>, r: Result<Cpu<E>>) {
    exists choices: seq<Choice<E>> :: Run(p, prim, choices, c) == r
  }

  ghost predicate AllRunAs<E(!new)>(p: Program, prim: Prim<E>, w: nat, exec: Exec<(seq<Cell>, E)>) {
    forall k :: 0 <= k < |CodeOf(p, w)| && IsSimple(CodeOf(p, w)[k]) ==> RunsAs(p, prim, w, exec, k)
  }

  lemma {:induction false} RunAppend<E(!new)>(p: Program, prim: Prim<E>, a: seq<Choice<E>>, b: seq<Choice<E>>, c: Cpu<E>, c1: Cpu<E>)
    requires Run(p, prim, a, c) == Next(c1)
    ensures Run(p, prim, a + b, c) == Run(p, prim, b, c1)
    decreases |a|
  {
    hide Step;
    if a == [] {
      assert a + b == b;
    } else {
      assert (a + b)[1..] == a[1..] + b;
      match Step(p, prim, a[0].stale, c)
      case Next(c') => RunAppend(p, prim, a[1..], b, c', c1);
      case Yield(c') => RunAppend(p, prim, a[1..], b, c'.(env := a[0].host(c'.env)), c1);
      case _ =>
    }
  }

  lemma ReachOnward<E(!new)>(p: Program, prim: Prim<E>, c: Cpu<E>, c1: Cpu<E>, r: Result<Cpu<E>>)
    requires CanReach(p, prim, c, Next(c1)) && CanReach(p, prim, c1, r)
    ensures CanReach(p, prim, c, r)
  {
    hide Run;
    var a: seq<Choice<E>> :| Run(p, prim, a, c) == Next(c1);
    var b: seq<Choice<E>> :| Run(p, prim, b, c1) == r;
    RunAppend(p, prim, a, b, c, c1);
    assert Run(p, prim, a + b, c) == r;
  }

  lemma ReachStep<E(!new)>(p: Program, prim: Prim<E>, c: Cpu<E>)
    requires !Step(p, prim, (n: nat) => 0, c).Yield?
    ensures CanReach(p, prim, c, Step(p, prim, (n: nat) => 0, c))
  {
    hide Step;
    var stale: nat -> Cell := (n: nat) => 0;
    var one := [Choice(stale, (e: E) => e)];
    var r := Step(p, prim, stale, c);
    assert Run(p, prim, one[1..], if r.Next? then r.s else c) == Next(if r.Next? then r.s else c);
    assert Run(p, prim, one, c) == r;
  }

  // ----- every run -----

  /** After these choices the machine is still running, with more than h frames. */
  predicate Inside<E>(p: Program, prim: Prim<E>, choices: seq<Choice<E>>, c: Cpu<E>, h: nat) {
    var r := Run(p, prim, choices, c);
    r.Next? && |r.s.frames| > h
  }

  /** A run that has never been anywhere else. */
  ghost predicate Stays<E(!new)>(p: Program, prim: Prim<E>, choices: seq<Choice<E>>, c: Cpu<E>, h: nat) {
    forall m: nat :: m <= |choices| ==> Inside(p, prim, choices[..m], c, h)
  }

  /** After n opcodes it has come to r, and was inside until then. */
  ghost predicate ComesTo<E(!new)>(p: Program, prim: Prim<E>, choices: seq<Choice<E>>, c: Cpu<E>, r: Result<Cpu<E>>, h: nat, n: nat) {
    n <= |choices| && Run(p, prim, choices[..n], c) == r && forall m: nat :: m < n ==> Inside(p, prim, choices[..m], c, h)
  }

  /** Whatever new locals hold and whatever the host does: a run from c is still inside, or it has come to r. */
  ghost predicate OnlyReaches<E(!new)>(p: Program, prim: Prim<E>, c: Cpu<E>, r: Result<Cpu<E>>, h: nat) {
    forall choices: seq<Choice<E>> :: Stays(p, prim, choices, c, h) || exists n: nat :: ComesTo(p, prim, choices, c, r, h, n)
  }

  /** Opcode k of word w, calls included, can come to nothing but the result that `exec` tells. */
  ghost predicate RunsOnlyAs<E(!new)>(p: Program, prim: Prim<E>, w: nat, exec: Exec<(seq<Cell>, E)>, k: nat)
    requires k < |CodeOf(p, w)|
  {
    forall st: State<(seq<Cell>, E)>, below: seq<Frame>, caller ::
      match exec(CodeOf(p, w)[k], st)
      case Some(st') => OnlyReaches(p, prim, CpuAt(w, k, st, below, caller), Next(CpuAt(w, k + 1, st', below, caller)), |below|)
      case None => OnlyReaches(p, prim, CpuAt(w, k, st, below, caller), Wrong, |below|)
  }

  ghost predicate AllRunOnlyAs<E(!new)>(p: Program, prim: Prim<E>, w: nat, exec: Exec<(seq<Cell>, E)>) {
    forall k :: 0 <= k < |CodeOf(p, w)| && IsSimple(CodeOf(p, w)[k]) ==> RunsOnlyAs(p, prim, w, exec, k)
  }

  /** What a longer run does is what the rest of it does from where its first part has come to. */
  lemma RunSplit<E(!new)>(p: Program, prim: Prim<E>, choices: seq<Choice<E>>, n: nat, m: nat, c: Cpu<E>, c1: Cpu<E>)
    requires n <= m <= |choices| && Run(p, prim, choices[..n], c) == Next(c1)
    ensures Run(p, prim, choices[..m], c) == Run(p, prim, choices[n..][..m - n], c1)
  {
    hide Run;
    RunAppend(p, prim, choices[..n], choices[n..][..m - n], c, c1);
    assert choices[..n] + choices[n..][..m - n] == choices[..m];
  }

  lemma OnlyOnward<E(!new)>(p: Program, prim: Prim<E>, c: Cpu<E>, c1: Cpu<E>, r: Result<Cpu<E>>, h: nat)
    requires OnlyReaches(p, prim, c, Next(c1), h) && OnlyReaches(p, prim, c1, r, h)
    ensures OnlyReaches(p, prim, c, r, h)
  {
    hide Run;
    forall choices: seq<Choice<E>> | !Stays(p, prim, choices, c, h)
      ensures exists n: nat :: ComesTo(p, prim, choices, c, r, h, n)
    {
      var n: nat :| ComesTo(p, prim, choices, c, Next(c1), h, n);
      ThenOnward(p, prim, choices, c, c1, r, h, n);
    }
  }

  lemma ThenOnward<E(!new)>(p: Program, prim: Prim<E>, choices: seq<Choice<E>>, c: Cpu<E>, c1: Cpu<E>, r: Result<Cpu<E>>, h: nat, n: nat)
    requires ComesTo(p, prim, choices, c, Next(c1), h, n) && OnlyReaches(p, prim, c1, r, h)
    ensures Stays(p, prim, choices, c, h) || exists n: nat :: ComesTo(p, prim, choices, c, r, h, n)
  {
    hide Run;
    var rest := choices[n..];
    forall m: nat | n <= m <= |choices|
      ensures Run(p, prim, choices[..m], c) == Run(p, prim, rest[..m - n], c1)
    {
      RunSplit(p, prim, choices, n, m, c, c1);
    }
    if Stays(p, prim, rest, c1, h) {
      forall m: nat | m <= |choices|
        ensures Inside(p, prim, choices[..m], c, h)
      {
        if m >= n {
          assert Inside(p, prim, rest[..m - n], c1, h);
        }
      }
    } else {
      var n1: nat :| ComesTo(p, prim, rest, c1, r, h, n1);
      forall m: nat | m < n + n1
        ensures Inside(p, prim, choices[..m], c, h)
      {
        if m >= n {
          assert Inside(p, prim, rest[..m - n], c1, h);
        }
      }
      assert ComesTo(p, prim, choices, c, r, h, n + n1);
    }
  }

  lemma OnlySelf<E(!new)>(p: Program, prim: Prim<E>, c: Cpu<E>, h: nat)
    ensures OnlyReaches(p, prim, c, Next(c), h)
  {
    forall choices: seq<Choice<E>>
      ensures Stays(p, prim, choices, c, h) || exists n: nat :: ComesTo(p, prim, choices, c, Next(c), h, n)
    {
      assert choices[..0] == [];
      assert ComesTo(p, prim, choices, c, Next(c), h, 0);
    }
  }

  lemma RunOne<E(!new)>(p: Program, prim: Prim<E>, choice: Choice<E>, c: Cpu<E>)
    requires !Step(p, prim, choice.stale, c).Yield?
    ensures Run(p, prim, [choice], c) == Step(p, prim, choice.stale, c)
  {
    hide Step;
    assert [choice][1..] == [];
  }

  /** One step that depends on nothing but the state. */
  lemma OnlyStep<E(!new)>(p: Program, prim: Prim<E>, c: Cpu<E>, r: Result<Cpu<E>>, h: nat)
    requires |c.frames| > h && !r.Yield? && forall stale: nat -> Cell :: Step(p, prim, stale, c) == r
    ensures OnlyReaches(p, prim, c, r, h)
  {
    hide Step;
    forall choices: seq<Choice<E>>
      ensures Stays(p, prim, choices, c, h) || exists n: nat :: ComesTo(p, prim, choices, c, r, h, n)
    {
      assert choices[..0] == [];
      assert Inside(p, prim, choices[..0], c, h);
      if choices == [] {
        assert forall m: nat :: m <= |choices| ==> choices[..m] == choices[..0];
      } else {
        RunOne(p, prim, choices[0], c);
        assert choices[..1] == [choices[0]];
        assert ComesTo(p, prim, choices, c, r, h, 1);
      }
    }
  }

  /** What the machine comes to, opcode by opcode. */
  function Outcome<E>(w: nat, c: Conf<(seq<Cell>, E)>, pc: nat, below: seq<Frame>, caller: Option<(nat, nat)>): (r: Result<Cpu<E>>) {
    match c
    case At(k, st) => Next(CpuAt(w, k, st, below, caller))
    case Exited(st) => Machine.Return(CpuAt(w, pc + 1, st, below, caller))
    case Bad => Wrong
  }

  /** One opcode of the word on its own is one opcode, or one complete call, of the machine. */
  lemma OneOpcode<E(!new)>(p: Program, prim: Prim<E>, w: nat, exec: Exec<(seq<Cell>, E)>, pc: nat, st: State<(seq<Cell>, E)>,
                           below: seq<Frame>, caller: Option<(nat, nat)>)
    requires AllRunAs(p, prim, w, exec)
    ensures CanReach(p, prim, CpuAt(w, pc, st, below, caller), Outcome(w, StepOne(exec, CodeOf(p, w), pc, st), pc, below, caller))
    ensures AllRunOnlyAs(p, prim, w, exec) ==>
      OnlyReaches(p, prim, CpuAt(w, pc, st, below, caller), Outcome(w, StepOne(exec, CodeOf(p, w), pc, st), pc, below, caller), |below|)
  {
    hide CanReach, OnlyReaches;
    var c := CpuAt(w, pc, st, below, caller);
    var code := CodeOf(p, w);
    assert Top(c.frames) == Frame(caller, st.rest.0) && Pop(c.frames) == below;
    if pc < |code| && IsSimple(code[pc]) {
      assert RunsAs(p, prim, w, exec, pc);
      assert AllRunOnlyAs(p, prim, w, exec) ==> RunsOnlyAs(p, prim, w, exec, pc);
    } else {
      ReachStep(p, prim, c);
      OnlyStep(p, prim, c, Outcome(w, StepOne(exec, code, pc, st), pc, below, caller), |below|);
    }
  }

  /** The machine ends the word as its own steps end it. */
  lemma {:induction false} WordRuns<E(!new)>(p: Program, prim: Prim<E>, w: nat, exec: Exec<(seq<Cell>, E)>, n: nat, pc: nat,
                                             st: State<(seq<Cell>, E)>, below: seq<Frame>, caller: Option<(nat, nat)>) returns (last: nat)
    requires AllRunAs(p, prim, w, exec)
    ensures CanReach(p, prim, CpuAt(w, pc, st, below, caller), Outcome(w, Steps(exec, CodeOf(p, w), n, At(pc, st)), last, below, caller))
    ensures AllRunOnlyAs(p, prim, w, exec) ==>
      OnlyReaches(p, prim, CpuAt(w, pc, st, below, caller), Outcome(w, Steps(exec, CodeOf(p, w), n, At(pc, st)), last, below, caller), |below|)
    decreases n
  {
    hide CanReach, OnlyReaches, StepOne, AllRunAs, AllRunOnlyAs;
    last := pc;
    if n == 0 {
      ReachSelf(p, prim, CpuAt(w, pc, st, below, caller));
      OnlySelf(p, prim, CpuAt(w, pc, st, below, caller), |below|);
    } else {
      OneOpcode(p, prim, w, exec, pc, st, below, caller);
      var c := StepOne(exec, CodeOf(p, w), pc, st);
      match c
      case At(k, st1) =>
        last := WordRuns(p, prim, w, exec, n - 1, k, st1, below, caller);
        ReachOnward(p, prim, CpuAt(w, pc, st, below, caller), CpuAt(w, k, st1, below, caller),
                    Outcome(w, Steps(exec, CodeOf(p, w), n - 1, c), last, below, caller));
        if AllRunOnlyAs(p, prim, w, exec) {
          OnlyOnward(p, prim, CpuAt(w, pc, st, below, caller), CpuAt(w, k, st1, below, caller),
                     Outcome(w, Steps(exec, CodeOf(p, w), n - 1, c), last, below, caller), |below|);
        }
      case _ =>
        Final(exec, CodeOf(p, w), n - 1, c);
    }
  }

  lemma ReachSelf<E(!new)>(p: Program, prim: Prim<E>, c: Cpu<E>)
    ensures CanReach(p, prim, c, Next(c))
  {
    var none: seq<Choice<E>> := [];
    assert Run(p, prim, none, c) == Next(c);
  }

  /** A word compiled from a statement: wherever the statement's own meaning ends, the opcode machine can bring
      the word to the same end: back in the caller with the same stack and context, or wrong. And if what the word
      calls can come to one result only, so can the word: any run that has left it has done so in this way. */
  lemma StructuredOnMachine<E(!new)>(p: Program, prim: Prim<E>, w: nat, s: Stmt, exec: Exec<(seq<Cell>, E)>, fuel: nat,
                                     st: State<(seq<Cell>, E)>, below: seq<Frame>, caller: Option<(nat, nat)>, c: Conf<(seq<Cell>, E)>)
    returns (last: nat)
    requires WordOf(s, CodeOf(p, w), NumLocals(p, w)) && NoRawJumps(s) && AllRunAs(p, prim, w, exec)
    requires Ends(exec, s, fuel, st, c)
    ensures CanReach(p, prim, CpuAt(w, 0, st, below, caller), Outcome(w, c, last, below, caller))
    ensures AllRunOnlyAs(p, prim, w, exec) ==>
      OnlyReaches(p, prim, CpuAt(w, 0, st, below, caller), Outcome(w, c, last, below, caller), |below|)
  {
    hide CanReach, OnlyReaches, AllRunAs, AllRunOnlyAs, WordOf, NoRawJumps, Eval;
    var n := WordSimulates(exec, s, CodeOf(p, w), NumLocals(p, w), fuel, st);
    last := WordRuns(p, prim, w, exec, n, 0, st, below, caller);
  }
}
