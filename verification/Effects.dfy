/** What stack effects mean for the C code behind them: when one effect may stand for another, and where control goes. */
module Effects {
  import opened Bytes
  import opened Machine
  import opened Simulation
  import opened Flow
  import opened AnalyseFlow

  function Zeros(n: nat): (s: seq<Cell>)
    ensures |s| == n
  {
    seq(n, i => 0)
  }

  /** C code that does what the effect says and nothing else: it fails without enough arguments, stops the machine if
      the effect is not to exit, and else leaves zeros. */
  function Typical<E>(e: SType): Prim<E> {
    (ccode, stack, env) =>
      if |stack| < e.din then PrimWrong
      else if e.dout < 0 then PrimHalt(env)
      else if e.din < 0 then PrimWrong
      else PrimOk(stack[..|stack| - e.din] + Zeros(e.dout), env, false)
  }

  lemma TypicalHonours<E(!new)>(ccode: string, e: SType)
    requires e.IsKnown()
    ensures Honours<E>(Typical(e), ccode, e)
  {
  }

  /** IsSubOf: the effect e is a sub-effect of s exactly if all C code that honours e honours s as well. */
  lemma SubEffect<E(!new)>(e: SType, s: SType, env: E)
    requires e.IsKnown() && s.IsKnown()
    ensures e.IsSubOf(s) <==> forall prim: Prim<E>, ccode :: Honours(prim, ccode, e) ==> Honours(prim, ccode, s)
  {
    if e.IsSubOf(s) {
      forall prim: Prim<E>, ccode | Honours(prim, ccode, e)
        ensures Honours(prim, ccode, s)
      {
        SubHonours(prim, ccode, e, s);
      }
    } else {
      TypicalHonours<E>("", e);
      NotSub(e, s, env);
    }
  }

  lemma SubHonours<E(!new)>(prim: Prim<E>, ccode: string, e: SType, s: SType)
    requires Honours(prim, ccode, e) && e.IsSubOf(s)
    ensures Honours(prim, ccode, s)
  {
    forall stack: seq<Cell>, env: E | |stack| >= s.din
      ensures match prim(ccode, stack, env)
              case PrimWrong => false
              case PrimHalt(_) => true
              case PrimOk(stack', _, _) =>
                !s.NoExit() && |stack'| == |stack| - s.din + s.dout && stack'[..|stack| - s.din] == stack[..|stack| - s.din]
    {
      match prim(ccode, stack, env)
      case PrimOk(stack', _, _) =>
        assert stack'[..|stack| - s.din] == stack'[..|stack| - e.din][..|stack| - s.din];
        assert stack[..|stack| - s.din] == stack[..|stack| - e.din][..|stack| - s.din];
      case _ =>
    }
  }

  /** A piece of code that honours e but not s. */
  lemma NotSub<E(!new)>(e: SType, s: SType, env: E)
    requires e.IsKnown() && s.IsKnown() && !e.IsSubOf(s)
    ensures !Honours<E>(Typical(e), "", s)
  {
    var stack := Zeros(s.din);
    var prim: Prim<E> := Typical(e);
    assert |stack| >= s.din;
    if e.din <= s.din {
      assert prim("", stack, env).PrimOk?;
    } else {
      assert prim("", stack, env) == PrimWrong;
    }
  }

  // ----- where control goes -----

  /** Honest C code can take the machine from opcode a of word w to opcode b, in the same frame. */
  ghost predicate CanPass<E(!new)>(p: Program, t: seq<Info>, w: nat, a: nat, b: nat) {
    exists prim: Prim<E>, stale: nat -> Cell, c: Cpu<E> :: Passes(p, t, prim, stale, c, w, a, b)
  }

  ghost predicate Passes<E(!new)>(p: Program, t: seq<Info>, prim: Prim<E>, stale: nat -> Cell, c: Cpu<E>, w: nat, a: nat, b: nat) {
    c.word == w && c.off == a && a < |CodeOf(p, w)| && Honest(p, t, prim, CodeOf(p, w)[a]) && DeepEnough(t, CodeOf(p, w)[a], c.stack)
    && var r := Step(p, prim, stale, c); (r.Next? || r.Yield?) && r.s.off == b && r.s.word == w && |r.s.frames| == |c.frames|
  }

  ghost predicate Honest<E(!new)>(p: Program, t: seq<Info>, prim: Prim<E>, op: Op) {
    op.Call? && op.w < |p| && op.w < |t| && p[op.w].ccode.Some? ==> Honours(prim, p[op.w].ccode.value, t[op.w].effect)
  }

  predicate DeepEnough(t: seq<Info>, op: Op, stack: seq<Cell>) {
    op.Call? && op.w < |t| ==> |stack| >= t[op.w].effect.din
  }

  /** An opcode that the machine can run in one step without leaving the frame: no ret, no call of an interpreted word. */
  predicate OneStep(p: Program, t: seq<Info>, w: nat, op: Op) {
    match op
    case GetLocal(n) => n < NumLocals(p, w)
    case PutLocal(n) => n < NumLocals(p, w)
    case Call(u) => IsLeaf(p, u) && u < |t| && t[u].effect.IsKnown() && (p[u].ccode.None? ==> !t[u].effect.NoExit())
    case Ret => false
    case _ => true
  }

  /** The control graph of the analysis has no edge too many and none too few: from such an opcode, control can pass to
      opcode b in some run with honest C code exactly if b is the target of its jump, or the next one and the
      opcode may fall through; never behind a call of a word that does not exit. */
  lemma ControlExact<E(!new)>(p: Program, t: seq<Info>, w: nat, a: nat, b: nat, env: E)
    requires a < |CodeOf(p, w)| && OneStep(p, t, w, CodeOf(p, w)[a])
    ensures var op := CodeOf(p, w)[a];
            CanPass<E>(p, t, w, a, b) <==> (op.JumpDisp() != 0 && b == a + 1 + op.JumpDisp()) || (Continues(t, op) && b == a + 1)
  {
    hide Honours;
    var op := CodeOf(p, w)[a];
    if op.Call? {
      CallPasses(p, t, w, a, b, env);
    } else if op.Jump? {
      JumpPasses(p, t, w, a, b, env);
    } else {
      PlainPasses(p, t, w, a, b, env);
    }
  }

  const NO_STALE: nat -> Cell := (n: nat) => 0

  function Sample<E>(p: Program, w: nat, a: nat, stack: seq<Cell>, env: E): Cpu<E> {
    Cpu(w, a, stack, [Frame(None, Zeros(NumLocals(p, w)))], env)
  }

  lemma CallPasses<E(!new)>(p: Program, t: seq<Info>, w: nat, a: nat, b: nat, env: E)
    requires a < |CodeOf(p, w)| && OneStep(p, t, w, CodeOf(p, w)[a]) && CodeOf(p, w)[a].Call?
    ensures CanPass<E>(p, t, w, a, b) <==> Continues(t, CodeOf(p, w)[a]) && b == a + 1
  {
    var u := CodeOf(p, w)[a].w;
    var e := t[u].effect;
    if Continues(t, CodeOf(p, w)[a]) && b == a + 1 {
      if p[u].ccode.Some? {
        TypicalHonours<E>(p[u].ccode.value, e);
      }
      var prim: Prim<E>, c := Typical(e), Sample(p, w, a, Zeros(e.din), env);
      assert Passes(p, t, prim, NO_STALE, c, w, a, b);
    }
    forall prim: Prim<E>, stale: nat -> Cell, c: Cpu<E> | Passes(p, t, prim, stale, c, w, a, b)
      ensures Continues(t, CodeOf(p, w)[a]) && b == a + 1
    {
      LeafPasses(p, t, prim, stale, c, w, a, b);
    }
  }

  lemma LeafPasses<E(!new)>(p: Program, t: seq<Info>, prim: Prim<E>, stale: nat -> Cell, c: Cpu<E>, w: nat, a: nat, b: nat)
    requires a < |CodeOf(p, w)| && OneStep(p, t, w, CodeOf(p, w)[a]) && CodeOf(p, w)[a].Call?
    requires Passes(p, t, prim, stale, c, w, a, b)
    ensures Continues(t, CodeOf(p, w)[a]) && b == a + 1
  {
    var u := CodeOf(p, w)[a].w;
    if p[u].ccode.Some? {
      var stack, env := c.stack, c.env;
      assert Honours(prim, p[u].ccode.value, t[u].effect) && |stack| >= t[u].effect.din;
      var r := prim(p[u].ccode.value, stack, env);
    }
  }

  lemma JumpPasses<E(!new)>(p: Program, t: seq<Info>, w: nat, a: nat, b: nat, env: E)
    requires a < |CodeOf(p, w)| && CodeOf(p, w)[a].Jump?
    ensures var op := CodeOf(p, w)[a];
            CanPass<E>(p, t, w, a, b) <==> (op.JumpDisp() != 0 && b == a + 1 + op.JumpDisp()) || (Continues(t, op) && b == a + 1)
  {
    var op := CodeOf(p, w)[a];
    var taken: seq<Cell>, not: seq<Cell> := [if op.cond == IfFalse then 0 else 1], [if op.cond == IfFalse then 1 else 0];
    var prim: Prim<E> := Typical(UNKNOWN);
    if op.JumpDisp() != 0 && b == a + 1 + op.JumpDisp() {
      assert Passes(p, t, prim, NO_STALE, Sample(p, w, a, taken, env), w, a, b);
    } else if Continues(t, op) && b == a + 1 {
      assert Passes(p, t, prim, NO_STALE, Sample(p, w, a, not, env), w, a, b);
    }
  }

  lemma PlainPasses<E(!new)>(p: Program, t: seq<Info>, w: nat, a: nat, b: nat, env: E)
    requires a < |CodeOf(p, w)| && OneStep(p, t, w, CodeOf(p, w)[a]) && !CodeOf(p, w)[a].Call? && !CodeOf(p, w)[a].Jump?
    ensures CanPass<E>(p, t, w, a, b) <==> b == a + 1
  {
    if b == a + 1 {
      var prim: Prim<E> := Typical(UNKNOWN);
      assert Passes(p, t, prim, NO_STALE, Sample(p, w, a, [0], env), w, a, b);
    }
  }

  // ----- which effect a word ends up with -----

  /** A declared effect stays; only a word without one gets the computed effect. */
  lemma DeclaredStays(guarded: bool, p: Program, s: seq<Entry>, w: nat)
    requires Consistent(guarded, p, s) && w in DoneOf(s) && w < |p| && p[w].body.Interp?
    ensures |s| == |p|
    ensures s[w].info.effect == if p[w].declared.IsKnown() then p[w].declared else Computed(s[w].trace)
  {
    hide Analysed, Exact;
  }

  /** What a word without T0 code reports: the smaller of 0 and its net effect if it exits, 0 if it does not, and no
      slot of the return stack. */
  lemma DefaultIsMin(e: SType)
    ensures DefaultInfo(e).effect == e && DefaultInfo(e).maxReturnStack == 0
    ensures !e.IsKnown() ==> DefaultInfo(e).maxDataStack == -1
    ensures e.NoExit() ==> DefaultInfo(e).maxDataStack == 0
    ensures e.IsKnown() && !e.NoExit() ==>
      var m := DefaultInfo(e).maxDataStack;
      m <= 0 && m <= e.dout - e.din && (m == 0 || m == e.dout - e.din)
  {
  }
}
