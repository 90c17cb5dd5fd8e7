/** Resolved T0 words and the compile-time machine that runs them opcode by opcode. */
module Machine {
  import opened Bytes
  import opened CConst

  /** The declared or computed stack effect of a word; a negative field means "unknown" or "never exits". */
  datatype SType = SType(din: int, dout: int) {
    predicate IsKnown() { din >= 0 }
    predicate NoExit() { din >= 0 && dout < 0 }

    predicate IsSubOf(s: SType) {
      if !IsKnown() || !s.IsKnown() then false
      else if din > s.din then false
      else if NoExit() then true
      else if s.NoExit() then false
      else din - dout == s.din - s.dout
    }
  }

  /** The constructor collapses negative fields to -1. */
  function MakeSType(din: int, dout: int): SType {
    SType(if din < 0 then -1 else din, if dout < 0 then -1 else dout)
  }

  const UNKNOWN := SType(-1, -1)

  datatype Cond = Always | IfTrue | IfFalse

  /** Jump displacements count opcodes from the one after the jump. */
  datatype Op =
    | Const(v: i32)
    | ConstExpr(cx: Expr, off: i32, x: i32)
    | GetLocal(num: nat)
    | PutLocal(num: nat)
    | Jump(cond: Cond, disp: int)
    | Call(w: nat)
    | Ret
  {
    function JumpDisp(): int { if Jump? then disp else 0 }

    predicate MayFallThrough() {
      match this
      case Ret => false
      case Jump(Always, d) => d == 0
      case _ => true
    }

    function StackAction(): int {
      match this
      case Const(_) | ConstExpr(_, _, _) | GetLocal(_) => 1
      case PutLocal(_) => -1
      case Jump(c, _) => if c == Always then 0 else -1
      case _ => 0
    }
  }

  datatype Body = Interp(numLocals: nat, code: seq<Op>) | Data(addr: i32) | Native

  /** A word; with C code attached, that C code is what runs. */
  datatype Word = Word(body: Body, ccode: Option<string>, declared: SType)

  type Program = seq<Word>

  type Cell = u32

  /** What a piece of C code does to the data stack and to the context structure. It may suspend the
      machine after it, or stop it for good. */
  datatype PrimResult<E> = PrimOk(stack: seq<Cell>, env: E, suspends: bool) | PrimHalt(env: E) | PrimWrong

  type Prim<!E> = (string, seq<Cell>, E) -> PrimResult<E>

  datatype Result<S> = Next(s: S) | Yield(s: S) | Exit(s: S) | Halt(s: S) | Wrong

  /** A frame of the system stack: where to return to (None for the outermost frame) and the locals. */
  datatype Frame = Frame(caller: Option<(nat, nat)>, locals: seq<Cell>)

  /** ipBuf is the code of `word`, ipOff is `off`, rsp is the last frame. */
  datatype Cpu<E> = Cpu(word: nat, off: nat, stack: seq<Cell>, frames: seq<Frame>, env: E)

  function CodeOf(p: Program, w: nat): (ops: seq<Op>) {
    if w < |p| && p[w].body.Interp? then p[w].body.code else []
  }

  function NumLocals(p: Program, w: nat): (n: nat) {
    if w < |p| && p[w].body.Interp? then p[w].body.numLocals else 0
  }

  function Top<T>(s: seq<T>): T
    requires s != []
  {
    s[|s| - 1]
  }

  function Pop<T>(s: seq<T>): seq<T>
    requires s != []
  {
    s[..|s| - 1]
  }

  /** Contents of n new locals; the caller of the machine decides what the memory holds. */
  function NewLocals(stale: nat -> Cell, n: nat): (s: seq<Cell>)
    ensures |s| == n
  {
    seq(n, i requires 0 <= i < n => stale(i))
  }

  function Enter<E>(p: Program, stale: nat -> Cell, c: Cpu<E>, w: nat): Cpu<E> {
    c.(word := w, off := 0,
       frames := c.frames + [Frame(Some((c.word, c.off)), NewLocals(stale, NumLocals(p, w)))])
  }

  function Branch<E>(c: Cpu<E>, disp: int): Result<Cpu<E>> {
    if c.off + disp < 0 then Wrong else Next(c.(off := c.off + disp))
  }

  function CallWord<E>(p: Program, prim: Prim<E>, stale: nat -> Cell, c: Cpu<E>, w: nat): Result<Cpu<E>> {
    if w >= |p| then Wrong
    else if p[w].ccode.Some? then
      match prim(p[w].ccode.value, c.stack, c.env)
      case PrimWrong => Wrong
      case PrimHalt(env) => Halt(c.(env := env))
      case PrimOk(stack, env, suspends) =>
        var c' := c.(stack := stack, env := env);
        if suspends then Yield(c') else Next(c')
    else
      match p[w].body
      case Interp(_, _) => Next(Enter(p, stale, c, w))
      case Data(addr) => Next(c.(stack := c.stack + [ToU32(addr)]))
      case Native => Wrong
  }

  function Return<E>(c: Cpu<E>): Result<Cpu<E>>
    requires c.frames != []
  {
    match Top(c.frames).caller
    case None => Exit(c.(frames := Pop(c.frames)))
    case Some((w, off)) => Next(c.(word := w, off := off, frames := Pop(c.frames)))
  }

  /** Fetch the opcode at ipOff, advance, run it. */
  function Step<E>(p: Program, prim: Prim<E>, stale: nat -> Cell, c0: Cpu<E>): Result<Cpu<E>> {
    if c0.frames == [] || c0.off >= |CodeOf(p, c0.word)| then Wrong
    else
      var c := c0.(off := c0.off + 1);
      var locals := Top(c.frames).locals;
      match CodeOf(p, c0.word)[c0.off]
      case Const(v) => Next(c.(stack := c.stack + [ToU32(v)]))
      case ConstExpr(cx, off, x) => Next(c.(stack := c.stack + [ToU32(x + off)]))
      case GetLocal(n) =>
        if n >= |locals| then Wrong else Next(c.(stack := c.stack + [locals[n]]))
      case PutLocal(n) =>
        if n >= |locals| || c.stack == [] then Wrong
        else
          var f := Top(c.frames).(locals := locals[n := Top(c.stack)]);
          Next(c.(stack := Pop(c.stack), frames := Pop(c.frames) + [f]))
      case Jump(Always, disp) => Branch(c, disp)
      case Jump(cond, disp) =>
        if c.stack == [] then Wrong
        else
          var taken := (Top(c.stack) != 0) == cond.IfTrue?;
          Branch(c.(stack := Pop(c.stack)), if taken then disp else 0)
      case Call(w) => CallWord(p, prim, stale, c, w)
      case Ret => Return(c)
  }

  /** The outermost call: an empty system stack, then the entry point's frame. */
  function Start<E>(p: Program, stale: nat -> Cell, w: nat, stack: seq<Cell>, env: E): Cpu<E> {
    Cpu(w, 0, stack, [Frame(None, NewLocals(stale, NumLocals(p, w)))], env)
  }

  /** What happens around one step: the memory new locals find, and what the host does to the
      context structure before it resumes a suspended machine. */
  datatype Choice<!E> = Choice(stale: nat -> Cell, host: E -> E)

  /** A run under the given choices, resumed after every suspension. */
  function Run<E>(p: Program, prim: Prim<E>, choices: seq<Choice<E>>, c: Cpu<E>): Result<Cpu<E>>
    decreases |choices|
  {
    if choices == [] then Next(c)
    else
      match Step(p, prim, choices[0].stale, c)
      case Next(c') => Run(p, prim, choices[1..], c')
      case Yield(c') => Run(p, prim, choices[1..], c'.(env := choices[0].host(c'.env)))
      case r => r
  }

  /** Slots of the return stack the frames take in the generated interpreter. */
  function FrameSlots(frames: seq<Frame>): (n: nat) {
    if frames == [] then 0 else FrameSlots(Pop(frames)) + 1 + |Top(frames).locals|
  }

  // ----- laws of the machine -----

  /** What put-local stores, get-local of the same number finds; the other locals are as they were. */
  lemma StoreThenLoad<E>(p: Program, prim: Prim<E>, stale: nat -> Cell, c: Cpu<E>, n: nat, m: nat)
    requires c.frames != [] && c.stack != [] && n < |Top(c.frames).locals| && m < |Top(c.frames).locals|
    requires c.off + 1 < |CodeOf(p, c.word)| && CodeOf(p, c.word)[c.off] == PutLocal(n) && CodeOf(p, c.word)[c.off + 1] == GetLocal(m)
    ensures Step(p, prim, stale, c).Next?
    ensures var r := Step(p, prim, stale, Step(p, prim, stale, c).s);
            r.Next? && r.s.off == c.off + 2 && Pop(r.s.frames) == Pop(c.frames)
            && r.s.stack == Pop(c.stack) + [if m == n then Top(c.stack) else Top(c.frames).locals[m]]
  {
    var f := Top(c.frames).(locals := Top(c.frames).locals[n := Top(c.stack)]);
    assert Top(Pop(c.frames) + [f]) == f && Pop(Pop(c.frames) + [f]) == Pop(c.frames);
  }

  /** A return from a call, wherever in the callee it is reached, leads behind the call, to the caller's frames and locals. */
  lemma CallThenReturn<E>(p: Program, prim: Prim<E>, stale: nat -> Cell, c: Cpu<E>, c1: Cpu<E>, c2: Cpu<E>)
    requires c.off < |CodeOf(p, c.word)| && CodeOf(p, c.word)[c.off].Call?
    requires var w := CodeOf(p, c.word)[c.off].w; w < |p| && p[w].ccode.None? && p[w].body.Interp?
    requires Step(p, prim, stale, c) == Next(c1)
    requires |c2.frames| == |c1.frames| && Pop(c2.frames) == Pop(c1.frames) && Top(c2.frames).caller == Top(c1.frames).caller
    requires c2.off < |CodeOf(p, c2.word)| && CodeOf(p, c2.word)[c2.off].Ret?
    ensures Step(p, prim, stale, c2) == Next(c.(off := c.off + 1, stack := c2.stack, env := c2.env))
  {
    assert Pop(c1.frames) == c.frames;
  }

  predicate Taken(cond: Cond, stack: seq<Cell>)
    requires cond != Always ==> stack != []
  {
    match cond
    case Always => true
    case IfTrue => Top(stack) != 0
    case IfFalse => Top(stack) == 0
  }

  /** A conditional jump takes the flag and goes by it, and any nonzero flag is true. */
  lemma JumpByFlag<E>(p: Program, prim: Prim<E>, stale: nat -> Cell, c: Cpu<E>, cond: Cond, disp: int)
    requires c.frames != [] && c.off < |CodeOf(p, c.word)| && CodeOf(p, c.word)[c.off] == Jump(cond, disp)
    requires c.off + 1 + disp >= 0 && (cond != Always ==> c.stack != [])
    ensures Step(p, prim, stale, c)
         == Next(c.(off := c.off + 1 + (if Taken(cond, c.stack) then disp else 0), stack := if cond == Always then c.stack else Pop(c.stack)))
  {
  }
}
