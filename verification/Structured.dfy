/** The structured words of T0 (if, else, while, until ...) against the jump code they are compiled to. */
module Structured {
  import opened Bytes
  import opened Machine
  import opened Builder
  import opened Generate

  /** `when` is the flag for which a conditional body runs, or for which a loop ends. */
  datatype Stmt =
    | Simple(op: Op)                        // literal, local or call
    | Seq(first: Stmt, second: Stmt)
    | If(when: bool, body: Stmt)            // if ... then, ifnot ... then
    | IfElse(when: bool, yes: Stmt, no: Stmt)
    | Until(when: bool, body: Stmt)         // begin ... until, begin ... untilnot
    | While(cond: Stmt, body: Stmt)         // begin ... while ... repeat
    | Again(body: Stmt)                     // begin ... again
    | Return                                // ret

  predicate IsSimple(op: Op) {
    !op.Jump? && !op.Ret?
  }

  /** Jumps come from the structure alone. */
  predicate NoRawJumps(s: Stmt) {
    match s
    case Simple(op) => IsSimple(op)
    case Seq(a, b) => NoRawJumps(a) && NoRawJumps(b)
    case If(_, b) => NoRawJumps(b)
    case IfElse(_, a, b) => NoRawJumps(a) && NoRawJumps(b)
    case Until(_, b) => NoRawJumps(b)
    case While(c, b) => NoRawJumps(c) && NoRawJumps(b)
    case Again(b) => NoRawJumps(b)
    case Return => true
  }

  // ----- structured meaning -----

  /** What one word's opcodes see: the data stack, and everything else (locals, context). */
  datatype State<E> = State(stack: seq<Cell>, rest: E)

  /** Meaning of the opcodes that are not control flow; None if it goes wrong. */
  type Exec<!E> = (Op, State<E>) -> Option<State<E>>

  datatype Out<E> = Fin(st: State<E>) | Returned(st: State<E>) | Stuck | NoFuel

  /** The flag on top of the stack decides. */
  function Flag<E>(st: State<E>): (r: Option<(bool, State<E>)>) {
    if st.stack == [] then None else Some((Top(st.stack) != 0, st.(stack := Pop(st.stack))))
  }

  /** Big-step meaning; `fuel` bounds the number of times each loop goes round. */
  function Eval<E>(exec: Exec<E>, s: Stmt, fuel: nat, st: State<E>): Out<E>
    decreases fuel, s
  {
    match s
    case Simple(op) => (match exec(op, st) case None => Stuck case Some(st') => Fin(st'))
    case Seq(a, b) =>
      (match Eval(exec, a, fuel, st)
       case Fin(st1) => Eval(exec, b, fuel, st1)
       case r => r)
    case If(when, b) =>
      (match Flag(st)
       case None => Stuck
       case Some((flag, st1)) => if flag == when then Eval(exec, b, fuel, st1) else Fin(st1))
    case IfElse(when, a, b) =>
      (match Flag(st)
       case None => Stuck
       case Some((flag, st1)) => if flag == when then Eval(exec, a, fuel, st1) else Eval(exec, b, fuel, st1))
    case Until(when, b) =>
      (match Eval(exec, b, fuel, st)
       case Fin(st1) =>
         (match Flag(st1)
          case None => Stuck
          case Some((flag, st2)) =>
            if flag == when then Fin(st2) else if fuel == 0 then NoFuel else Eval(exec, s, fuel - 1, st2))
       case r => r)
    case While(c, b) =>
      (match Eval(exec, c, fuel, st)
       case Fin(st1) =>
         (match Flag(st1)
          case None => Stuck
          case Some((flag, st2)) =>
            if !flag then Fin(st2)
            else
              match Eval(exec, b, fuel, st2)
              case Fin(st3) => if fuel == 0 then NoFuel else Eval(exec, s, fuel - 1, st3)
              case r => r)
       case r => r)
    case Again(b) =>
      (match Eval(exec, b, fuel, st)
       case Fin(st1) => if fuel == 0 then NoFuel else Eval(exec, s, fuel - 1, st1)
       case r => r)
    case Return => Returned(st)
  }

  /** A state with this flag on top. */
  function Flagged<E>(st: State<E>, flag: Cell): State<E> {
    st.(stack := st.stack + [flag])
  }

  /** Which way the flags go: any nonzero flag is true; `if` runs its body on true, `ifnot` on false; `until` ends on true,
      `untilnot` on false, and the other flag takes it round again; `while` goes on on true. */
  lemma FlagSense<E>(exec: Exec<E>, when: bool, a: Stmt, b: Stmt, fuel: nat, st: State<E>, st1: State<E>, flag: Cell)
    ensures Eval(exec, If(when, a), fuel, Flagged(st, flag)) == if (flag != 0) == when then Eval(exec, a, fuel, st) else Fin(st)
    ensures Eval(exec, IfElse(when, a, b), fuel, Flagged(st, flag)) == Eval(exec, if (flag != 0) == when then a else b, fuel, st)
    ensures Eval(exec, b, fuel, st) == Fin(Flagged(st1, flag)) ==>
      Eval(exec, Until(when, b), fuel, st)
      == if (flag != 0) == when then Fin(st1) else if fuel == 0 then NoFuel else Eval(exec, Until(when, b), fuel - 1, st1)
    ensures Eval(exec, a, fuel, st) == Fin(Flagged(st1, flag)) ==>
      Eval(exec, While(a, b), fuel, st)
      == if flag == 0 then Fin(st1)
         else if !Eval(exec, b, fuel, st1).Fin? then Eval(exec, b, fuel, st1)
         else if fuel == 0 then NoFuel
         else Eval(exec, While(a, b), fuel - 1, Eval(exec, b, fuel, st1).st)
  {
    assert Pop(Flagged(st, flag).stack) == st.stack && Pop(Flagged(st1, flag).stack) == st1.stack;
  }

  // ----- jump code -----

  /** The jump taken when the flag is not `when`, and the one taken when it is. */
  function Unless(when: bool): Cond { if when then IfFalse else IfTrue }

  function Flat(s: Stmt): (code: seq<Op>) {
    match s
    case Simple(op) => [op]
    case Seq(a, b) => Flat(a) + Flat(b)
    case If(when, b) => [Jump(Unless(when), |Flat(b)|)] + Flat(b)
    case IfElse(when, a, b) =>
      [Jump(Unless(when), |Flat(a)| + 1)] + Flat(a) + [Jump(Always, |Flat(b)|)] + Flat(b)
    case Until(when, b) => Flat(b) + [Jump(Unless(when), 0 - |Flat(b)| - 1)]
    case While(c, b) =>
      Flat(c) + [Jump(IfFalse, |Flat(b)| + 1)] + Flat(b) + [Jump(Always, 0 - |Flat(c)| - |Flat(b)| - 2)]
    case Again(b) => Flat(b) + [Jump(Always, 0 - |Flat(b)| - 1)]
    case Return => [Ret]
  }

  /** One word running on its own: at an opcode, returned, or gone wrong. */
  datatype Conf<E> = At(pc: nat, st: State<E>) | Exited(st: State<E>) | Bad

  function Jumped<E>(pc: nat, disp: int, st: State<E>): Conf<E> {
    if pc + 1 + disp < 0 then Bad else At(pc + 1 + disp, st)
  }

  function StepOne<E>(exec: Exec<E>, code: seq<Op>, pc: nat, st: State<E>): Conf<E> {
    if pc >= |code| then Bad
    else
      match code[pc]
      case Ret => Exited(st)
      case Jump(Always, disp) => Jumped(pc, disp, st)
      case Jump(cond, disp) =>
        (match Flag(st)
         case None => Bad
         case Some((flag, st1)) => Jumped(pc, if flag == cond.IfTrue? then disp else 0, st1))
      case op => (match exec(op, st) case None => Bad case Some(st1) => At(pc + 1, st1))
  }

  function Steps<E>(exec: Exec<E>, code: seq<Op>, n: nat, c: Conf<E>): Conf<E>
    decreases n
  {
    if n == 0 then c
    else
      match c
      case At(pc, st) => Steps(exec, code, n - 1, StepOne(exec, code, pc, st))
      case _ => c
  }

  lemma {:induction false} StepsAdd<E>(exec: Exec<E>, code: seq<Op>, n: nat, m: nat, c: Conf<E>)
    ensures Steps(exec, code, n + m, c) == Steps(exec, code, m, Steps(exec, code, n, c))
    decreases n
  {
    hide StepOne;
    if n > 0 {
      match c
      case At(pc, st) => StepsAdd(exec, code, n - 1, m, StepOne(exec, code, pc, st));
      case _ => Final(exec, code, m, c);
    }
  }

  lemma Final<E>(exec: Exec<E>, code: seq<Op>, m: nat, c: Conf<E>)
    requires !c.At?
    ensures Steps(exec, code, m, c) == c
  {
  }

  // ----- the two agree -----

  /** `part` stands in `code` from position `base` on. */
  predicate Within(code: seq<Op>, base: nat, part: seq<Op>) {
    base + |part| <= |code| && code[base..base + |part|] == part
  }

  lemma WithinSplit(code: seq<Op>, base: nat, a: seq<Op>, b: seq<Op>)
    requires Within(code, base, a + b)
    ensures Within(code, base, a) && Within(code, base + |a|, b)
  {
    var s := code[base..base + |a + b|];
    assert code[base..base + |a|] == s[..|a|];
    assert code[base + |a|..base + |a| + |b|] == s[|a|..];
  }

  lemma WithinOne(code: seq<Op>, base: nat, op: Op)
    requires Within(code, base, [op])
    ensures base < |code| && code[base] == op
  {
    assert code[base..base + 1][0] == op;
  }

  /** n steps of the jump code lead where the structured meaning says; if the meaning ran out of fuel, the
      code is still running after more than that many steps. */
  predicate Leads<E(==)>(exec: Exec<E>, code: seq<Op>, n: nat, start: Conf<E>, out: Out<E>, end: nat, fuel: nat) {
    var c := Steps(exec, code, n, start);
    match out
    case Fin(st) => c == At(end, st)
    case Returned(st) => c == Exited(st)
    case Stuck => c == Bad
    case NoFuel => c.At? && n > fuel
  }

  /** Reaching `mid` first and going on from there. */
  lemma Onward<E>(exec: Exec<E>, code: seq<Op>, n: nat, start: Conf<E>, m: nat, mid: Conf<E>, out: Out<E>, end: nat, less: nat, fuel: nat)
    requires Steps(exec, code, n, start) == mid && Leads(exec, code, m, mid, out, end, less) && fuel <= less + n
    ensures Leads(exec, code, n + m, start, out, end, fuel)
  {
    hide Steps;
    StepsAdd(exec, code, n, m, start);
  }

  lemma OneStep<E>(exec: Exec<E>, code: seq<Op>, pc: nat, st: State<E>)
    ensures Steps(exec, code, 1, At(pc, st)) == StepOne(exec, code, pc, st)
  {
    assert Steps(exec, code, 0, StepOne(exec, code, pc, st)) == StepOne(exec, code, pc, st);
  }

  lemma FlagStep<E>(exec: Exec<E>, code: seq<Op>, pc: nat, when: bool, disp: int, st: State<E>)
    requires Within(code, pc, [Jump(Unless(when), disp)]) && pc + 1 + disp >= 0
    ensures Steps(exec, code, 1, At(pc, st))
         == match Flag(st)
            case None => Bad
            case Some((flag, st1)) => At(if flag == when then pc + 1 else pc + 1 + disp, st1)
  {
    WithinOne(code, pc, Jump(Unless(when), disp));
    OneStep(exec, code, pc, st);
  }

  lemma AlwaysStep<E>(exec: Exec<E>, code: seq<Op>, pc: nat, disp: int, st: State<E>)
    requires Within(code, pc, [Jump(Always, disp)]) && pc + 1 + disp >= 0
    ensures Steps(exec, code, 1, At(pc, st)) == At(pc + 1 + disp, st)
  {
    WithinOne(code, pc, Jump(Always, disp));
    OneStep(exec, code, pc, st);
  }

  /** Every structured statement, wherever its code stands, for every state and any amount of fuel. */
  lemma {:induction false} Simulates<E>(exec: Exec<E>, code: seq<Op>, base: nat, s: Stmt, fuel: nat, st: State<E>) returns (n: nat)
    requires Within(code, base, Flat(s)) && NoRawJumps(s)
    ensures Leads(exec, code, n, At(base, st), Eval(exec, s, fuel, st), base + |Flat(s)|, fuel)
    decreases fuel, s, 2
  {
    hide Steps, Within, StepOne, Flag, Leads;
    match s {
      case Simple(op) =>
        n := 1;
        SimulatesSimple(exec, code, base, op, fuel, st);
      case Return =>
        n := 1;
        SimulatesReturn(exec, code, base, fuel, st);
      case Seq(a, b) =>
        WithinSplit(code, base, Flat(a), Flat(b));
        n := Simulates(exec, code, base, a, fuel, st);
        n := SimulatesThen(exec, code, Eval(exec, a, fuel, st), n, At(base, st), base + |Flat(a)|, b, fuel);
      case If(_, _) =>
        n := SimulatesIf(exec, code, base, s, fuel, st);
      case IfElse(_, _, _) =>
        n := SimulatesIfElse(exec, code, base, s, fuel, st);
      case Until(_, _) =>
        n := SimulatesUntil(exec, code, base, s, fuel, st);
      case While(_, _) =>
        n := SimulatesWhile(exec, code, base, s, fuel, st);
      case Again(_) =>
        n := SimulatesAgain(exec, code, base, s, fuel, st);
    }
  }

  lemma SimulatesSimple<E>(exec: Exec<E>, code: seq<Op>, base: nat, op: Op, fuel: nat, st: State<E>)
    requires Within(code, base, [op]) && IsSimple(op)
    ensures Leads(exec, code, 1, At(base, st), Eval(exec, Simple(op), fuel, st), base + 1, fuel)
  {
    WithinOne(code, base, op);
    OneStep(exec, code, base, st);
  }

  lemma SimulatesReturn<E>(exec: Exec<E>, code: seq<Op>, base: nat, fuel: nat, st: State<E>)
    requires Within(code, base, [Ret])
    ensures Leads(exec, code, 1, At(base, st), Eval(exec, Return, fuel, st), base + 1, fuel)
  {
    WithinOne(code, base, Ret);
    OneStep(exec, code, base, st);
  }

  /** Statement b behind something that has led to `mid`, or not. */
  lemma {:induction false} SimulatesThen<E>(exec: Exec<E>, code: seq<Op>, out: Out<E>, n0: nat, start: Conf<E>, mid: nat,
                                            b: Stmt, fuel: nat) returns (n: nat)
    requires Within(code, mid, Flat(b)) && NoRawJumps(b) && Leads(exec, code, n0, start, out, mid, fuel)
    ensures Leads(exec, code, n, start, if out.Fin? then Eval(exec, b, fuel, out.st) else out, mid + |Flat(b)|, fuel)
    decreases fuel, b, 3
  {
    hide Steps, Within, StepOne, Flag, Eval;
    n := n0;
    if out.Fin? {
      var m := Simulates(exec, code, mid, b, fuel, out.st);
      Onward(exec, code, n0, start, m, At(mid, out.st), Eval(exec, b, fuel, out.st), mid + |Flat(b)|, fuel, fuel);
      n := n0 + m;
    }
  }

  /** A jump on a flag that `out` leaves, at pc: to pc + 1 if the flag is `when`, else to the target. */
  lemma FlagThen<E>(exec: Exec<E>, code: seq<Op>, out: Out<E>, n: nat, start: Conf<E>, pc: nat, when: bool, disp: int, fuel: nat)
    requires Within(code, pc, [Jump(Unless(when), disp)]) && pc + 1 + disp >= 0
    requires Leads(exec, code, n, start, out, pc, fuel)
    ensures !out.Fin? ==> Leads(exec, code, n, start, out, pc + 1, fuel)
    ensures out.Fin? ==>
      match Flag(out.st)
      case None => Leads(exec, code, n + 1, start, Stuck, pc + 1, fuel)
      case Some((flag, st1)) => Steps(exec, code, n + 1, start) == At(if flag == when then pc + 1 else pc + 1 + disp, st1)
  {
    hide Steps, Within, StepOne, Flag;
    if out.Fin? {
      FlagStep(exec, code, pc, when, disp, out.st);
      StepsAdd(exec, code, n, 1, start);
    }
  }

  lemma AlwaysThen<E>(exec: Exec<E>, code: seq<Op>, out: Out<E>, n: nat, start: Conf<E>, pc: nat, disp: int, fuel: nat)
    requires Within(code, pc, [Jump(Always, disp)]) && pc + 1 + disp >= 0
    requires Leads(exec, code, n, start, out, pc, fuel)
    ensures out.Fin? ==> Steps(exec, code, n + 1, start) == At(pc + 1 + disp, out.st)
  {
    hide Steps, Within, StepOne;
    if out.Fin? {
      AlwaysStep(exec, code, pc, disp, out.st);
      StepsAdd(exec, code, n, 1, start);
    }
  }

  lemma {:induction false} SimulatesIf<E>(exec: Exec<E>, code: seq<Op>, base: nat, s: Stmt, fuel: nat, st: State<E>) returns (n: nat)
    requires s.If? && Within(code, base, Flat(s)) && NoRawJumps(s)
    ensures Leads(exec, code, n, At(base, st), Eval(exec, s, fuel, st), base + |Flat(s)|, fuel)
    decreases fuel, s, 1
  {
    hide Steps, Within, StepOne, Flag;
    WithinSplit(code, base, [Jump(Unless(s.when), |Flat(s.body)|)], Flat(s.body));
    FlagStep(exec, code, base, s.when, |Flat(s.body)|, st);
    n := 1;
    match Flag(st)
    case None =>
    case Some((flag, st1)) =>
      if flag == s.when {
        n := SimulatesThen(exec, code, Fin(st1), 1, At(base, st), base + 1, s.body, fuel);
      }
  }

  lemma {:induction false} SimulatesIfElse<E>(exec: Exec<E>, code: seq<Op>, base: nat, s: Stmt, fuel: nat, st: State<E>) returns (n: nat)
    requires s.IfElse? && Within(code, base, Flat(s)) && NoRawJumps(s)
    ensures Leads(exec, code, n, At(base, st), Eval(exec, s, fuel, st), base + |Flat(s)|, fuel)
    decreases fuel, s, 1
  {
    hide Steps, Within, StepOne, Flag;
    var a, b := Flat(s.yes), Flat(s.no);
    WithinSplit(code, base, [Jump(Unless(s.when), |a| + 1)] + a + [Jump(Always, |b|)], b);
    WithinSplit(code, base, [Jump(Unless(s.when), |a| + 1)] + a, [Jump(Always, |b|)]);
    WithinSplit(code, base, [Jump(Unless(s.when), |a| + 1)], a);
    FlagStep(exec, code, base, s.when, |a| + 1, st);
    n := 1;
    match Flag(st)
    case None =>
    case Some((flag, st1)) =>
      if flag == s.when {
        n := SimulatesThen(exec, code, Fin(st1), 1, At(base, st), base + 1, s.yes, fuel);
        var out := Eval(exec, s.yes, fuel, st1);
        AlwaysThen(exec, code, out, n, At(base, st), base + 1 + |a|, |b|, fuel);
        n := if out.Fin? then n + 1 else n;
      } else {
        n := SimulatesThen(exec, code, Fin(st1), 1, At(base, st), base + 1 + |a| + 1, s.no, fuel);
      }
  }

  /** Back at the start of a loop after n steps, with the remaining fuel. */
  lemma {:induction false} SimulatesRound<E>(exec: Exec<E>, code: seq<Op>, base: nat, s: Stmt, fuel: nat, n0: nat, st: State<E>, st1: State<E>) returns (n: nat)
    requires Within(code, base, Flat(s)) && NoRawJumps(s) && n0 >= 1
    requires Steps(exec, code, n0, At(base, st)) == At(base, st1)
    ensures Leads(exec, code, n, At(base, st), if fuel == 0 then NoFuel else Eval(exec, s, fuel - 1, st1), base + |Flat(s)|, fuel)
    decreases fuel, s, 0
  {
    hide Steps, Within, StepOne, Flag, Eval;
    n := n0;
    if fuel > 0 {
      var m := Simulates(exec, code, base, s, fuel - 1, st1);
      Onward(exec, code, n0, At(base, st), m, At(base, st1), Eval(exec, s, fuel - 1, st1), base + |Flat(s)|, fuel - 1, fuel);
      n := n0 + m;
    }
  }

  lemma {:induction false} SimulatesUntil<E>(exec: Exec<E>, code: seq<Op>, base: nat, s: Stmt, fuel: nat, st: State<E>) returns (n: nat)
    requires s.Until? && Within(code, base, Flat(s)) && NoRawJumps(s)
    ensures Leads(exec, code, n, At(base, st), Eval(exec, s, fuel, st), base + |Flat(s)|, fuel)
    decreases fuel, s, 1
  {
    hide Steps, Within, StepOne, Flag;
    var b := Flat(s.body);
    WithinSplit(code, base, b, [Jump(Unless(s.when), 0 - |b| - 1)]);
    var out := Eval(exec, s.body, fuel, st);
    n := Simulates(exec, code, base, s.body, fuel, st);
    FlagThen(exec, code, out, n, At(base, st), base + |b|, s.when, 0 - |b| - 1, fuel);
    if out.Fin? {
      n := n + 1;
      match Flag(out.st)
      case None =>
      case Some((flag, st1)) =>
        if flag != s.when {
          n := SimulatesRound(exec, code, base, s, fuel, n, st, st1);
        }
    }
  }

  lemma {:induction false} SimulatesWhile<E>(exec: Exec<E>, code: seq<Op>, base: nat, s: Stmt, fuel: nat, st: State<E>) returns (n: nat)
    requires s.While? && Within(code, base, Flat(s)) && NoRawJumps(s)
    ensures Leads(exec, code, n, At(base, st), Eval(exec, s, fuel, st), base + |Flat(s)|, fuel)
    decreases fuel, s, 1
  {
    hide Steps, Within, StepOne, Flag;
    var c, b := Flat(s.cond), Flat(s.body);
    var back := 0 - |c| - |b| - 2;
    WithinSplit(code, base, c + [Jump(IfFalse, |b| + 1)] + b, [Jump(Always, back)]);
    WithinSplit(code, base, c + [Jump(IfFalse, |b| + 1)], b);
    WithinSplit(code, base, c, [Jump(IfFalse, |b| + 1)]);
    var out := Eval(exec, s.cond, fuel, st);
    n := Simulates(exec, code, base, s.cond, fuel, st);
    FlagThen(exec, code, out, n, At(base, st), base + |c|, true, |b| + 1, fuel);
    if out.Fin? {
      n := n + 1;
      match Flag(out.st)
      case None =>
      case Some((flag, st1)) =>
        if flag {
          n := SimulatesThen(exec, code, Fin(st1), n, At(base, st), base + |c| + 1, s.body, fuel);
          var out1 := Eval(exec, s.body, fuel, st1);
          AlwaysThen(exec, code, out1, n, At(base, st), base + |c| + 1 + |b|, back, fuel);
          if out1.Fin? {
            n := SimulatesRound(exec, code, base, s, fuel, n + 1, st, out1.st);
          }
        }
    }
  }

  lemma {:induction false} SimulatesAgain<E>(exec: Exec<E>, code: seq<Op>, base: nat, s: Stmt, fuel: nat, st: State<E>) returns (n: nat)
    requires s.Again? && Within(code, base, Flat(s)) && NoRawJumps(s)
    ensures Leads(exec, code, n, At(base, st), Eval(exec, s, fuel, st), base + |Flat(s)|, fuel)
    decreases fuel, s, 1
  {
    hide Steps, Within, StepOne, Flag;
    var b := Flat(s.body);
    WithinSplit(code, base, b, [Jump(Always, 0 - |b| - 1)]);
    var out := Eval(exec, s.body, fuel, st);
    n := Simulates(exec, code, base, s.body, fuel, st);
    AlwaysThen(exec, code, out, n, At(base, st), base + |b|, 0 - |b| - 1, fuel);
    if out.Fin? {
      n := SimulatesRound(exec, code, base, s, fuel, n + 1, st, out.st);
    }
  }

  // ----- a whole word -----

  /** The code of a word made of one statement: a `ret` may have been put behind it. */
  predicate WordOf(s: Stmt, code: seq<Op>, numLocals: nat) {
    Closed(numLocals, code) && (code == Flat(s) || code == Flat(s) + [Ret])
  }

  lemma {:induction false} StaysInside<E>(exec: Exec<E>, code: seq<Op>, numLocals: nat, n: nat, pc: nat, st: State<E>)
    requires Closed(numLocals, code) && pc < |code|
    ensures var c := Steps(exec, code, n, At(pc, st)); c.At? ==> c.pc < |code|
    decreases n
  {
    if n > 0 {
      assert InWord(code, pc);
      var c := StepOne(exec, code, pc, st);
      if c.At? {
        assert c.pc < |code|;
        StaysInside(exec, code, numLocals, n - 1, c.pc, c.st);
      } else {
        Final(exec, code, n - 1, c);
      }
    }
  }

  /** How the word ends, as its structure tells. */
  predicate Ends<E(==)>(exec: Exec<E>, s: Stmt, fuel: nat, st: State<E>, c: Conf<E>) {
    match Eval(exec, s, fuel, st)
    case Fin(st') => c == Exited(st')
    case Returned(st') => c == Exited(st')
    case Stuck => c == Bad
    case NoFuel => false
  }

  /** With a given amount of fuel: the word ends as its structure tells, or both are still running. */
  lemma WordSimulates<E>(exec: Exec<E>, s: Stmt, code: seq<Op>, numLocals: nat, fuel: nat, st: State<E>) returns (n: nat)
    requires WordOf(s, code, numLocals) && NoRawJumps(s)
    ensures var c := Steps(exec, code, n, At(0, st));
            if c.At? then n > fuel && Eval(exec, s, fuel, st) == NoFuel else Ends(exec, s, fuel, st, c)
  {
    hide Steps, StepOne, Eval, Closed, NoRawJumps, Flat;
    WordBegins(s, code, numLocals);
    n := Simulates(exec, code, 0, s, fuel, st);
    var out := Eval(exec, s, fuel, st);
    if out.Fin? {
      StaysInside(exec, code, numLocals, n, 0, st);
      WordReturns(s, code, numLocals);
      WithinOne(code, |Flat(s)|, Ret);
      OneRet(exec, code, |Flat(s)|, out.st);
      StepsAdd(exec, code, n, 1, At(0, st));
      n := n + 1;
    }
  }

  lemma OneRet<E>(exec: Exec<E>, code: seq<Op>, pc: nat, st: State<E>)
    requires pc < |code| && code[pc] == Ret
    ensures Steps(exec, code, 1, At(pc, st)) == Exited(st)
  {
    OneStep(exec, code, pc, st);
  }

  lemma WordBegins(s: Stmt, code: seq<Op>, numLocals: nat)
    requires WordOf(s, code, numLocals)
    ensures Within(code, 0, Flat(s)) && |code| > 0
  {
  }

  lemma WordReturns(s: Stmt, code: seq<Op>, numLocals: nat)
    requires WordOf(s, code, numLocals) && |Flat(s)| < |code|
    ensures Within(code, |Flat(s)|, [Ret])
  {
  }

  lemma {:induction false} SameFinal<E>(exec: Exec<E>, code: seq<Op>, n: nat, m: nat, c: Conf<E>)
    requires !Steps(exec, code, n, c).At? && n <= m
    ensures Steps(exec, code, m, c) == Steps(exec, code, n, c)
  {
    hide Steps;
    StepsAdd(exec, code, n, m - n, c);
    Final(exec, code, m - n, Steps(exec, code, n, c));
  }

  /** Structured control flow preserves meaning: the jump code of a word comes to an end (returns, or goes
      wrong) after some number of steps exactly if its structured meaning does with some amount of fuel, and
      then in the same state. */
  lemma WordMeaning<E>(exec: Exec<E>, s: Stmt, code: seq<Op>, numLocals: nat, st: State<E>, c: Conf<E>)
    requires WordOf(s, code, numLocals) && NoRawJumps(s) && !c.At?
    ensures (exists n: nat :: Steps(exec, code, n, At(0, st)) == c) <==> (exists fuel: nat :: Ends(exec, s, fuel, st, c))
  {
    hide Steps, Eval, Closed, NoRawJumps, Flat;
    if n: nat :| Steps(exec, code, n, At(0, st)) == c {
      var m := WordSimulates(exec, s, code, numLocals, n, st);
      SameFinal(exec, code, n, if n <= m then m else n, At(0, st));
      if m < n && !Steps(exec, code, m, At(0, st)).At? {
        SameFinal(exec, code, m, n, At(0, st));
      }
      assert Ends(exec, s, n, st, c);
    }
    if fuel: nat :| Ends(exec, s, fuel, st, c) {
      var m := WordSimulates(exec, s, code, numLocals, fuel, st);
      assert Steps(exec, code, m, At(0, st)) == c;
    }
  }
}
