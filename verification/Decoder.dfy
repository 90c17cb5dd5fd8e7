/** br_pem_decoder_push and br_pem_decoder_event, around the interpreter. */
module Decoder {
  import opened Bytes
  import opened Machine
  import opened ByteVM
  import opened Coroutine
  import opened InterpreterObject

  /** What is left of the input is its end. */
  predicate Tail(rest: seq<byte>, all: seq<byte>) {
    |rest| <= |all| && rest == all[|all| - |rest|..]
  }

  lemma TailTrans(a: seq<byte>, b: seq<byte>, c: seq<byte>)
    requires Tail(a, b) && Tail(b, c)
    ensures Tail(a, c)
  {
  }

  lemma DispatchConsumes<X>(img: Image, other: Other<X>, vm: VM<Env<X>>)
    ensures match Dispatch(img, PemPrim(other), vm)
            case Wrong => true
            case r => Tail(r.s.env.input, vm.env.input)
  {
    hide Snippet, EnterSlot, DoRet, DoConst, DoGet, DoPut, DoJump;
    forall ccode, stack
      ensures var r := Snippet(other, ccode, stack, vm.env);
              !r.PrimWrong? ==> Tail(r.env.input, vm.env.input)
    {
      SnippetConsumes(other, ccode, stack, vm.env);
    }
    EnvKept(img, vm);
  }

  lemma SnippetConsumes<X>(other: Other<X>, ccode: string, stack: seq<Cell>, env: Env<X>)
    ensures var r := Snippet(other, ccode, stack, env);
            !r.PrimWrong? ==> Tail(r.env.input, env.input)
  {
    hide Write8, FlushBuf, ToI32;
    if |env.buf| == BUF_SIZE && env.ptr < BUF_SIZE {
      OutputKeepsInput(env);
    }
  }

  lemma OutputKeepsInput<X>(env: Env<X>)
    requires |env.buf| == BUF_SIZE && env.ptr < BUF_SIZE
    ensures FlushBuf(env).input == env.input && forall x: byte :: Write8(env, x).input == env.input
  {
  }

  /** Input is only ever taken from the front. */
  lemma {:induction false} RunConsumes<X>(img: Image, other: Other<X>, n: nat, vm: VM<Env<X>>)
    ensures match RunUntilExit(img, PemPrim(other), n, vm)
            case Wrong => true
            case r => Tail(r.s.env.input, vm.env.input)
    decreases n
  {
    hide Dispatch;
    if n > 0 {
      DispatchConsumes(img, other, vm);
      match Dispatch(img, PemPrim(other), vm)
      case Next(vm') =>
        RunConsumes(img, other, n - 1, vm');
        var r := RunUntilExit(img, PemPrim(other), n - 1, vm');
        if !r.Wrong? {
          TailTrans(r.s.env.input, vm'.env.input, vm.env.input);
        }
      case _ =>
    }
  }

  class PemDecoder<X> {
    const cpu: Interpreter
    const other: Other<X>
    var env: Env<X>

    constructor (cpu: Interpreter, other: Other<X>, env: Env<X>)
      ensures this.cpu == cpu && this.other == other && this.env == env
    {
      this.cpu, this.other, this.env := cpu, other, env;
    }

    /** The interpreter runs on these bytes until it leaves its loop: the result is the number of bytes it has
        taken, the rest being left in the input. With an event unread, nothing. The run is cut off after n turns;
        `r` tells how it ended. */
    method Push(data: seq<byte>, n: nat) returns (taken: nat, r: Result<Env<X>>)
      requires cpu.Valid() && cpu.img.interpreted >= 7
      modifies this`env, cpu`ip, cpu`dp, cpu`rp, cpu.dpStack, cpu.rpStack
      ensures old(env.event) != 0 ==> taken == 0 && r == Yield(old(env)) && cpu.Valid() && cpu.State(env) == old(cpu.State(env))
      ensures old(env.event) == 0 ==>
        var v := RunUntilExit(cpu.img, PemPrim(other), n, old(cpu.State(env.(input := data))));
        match r
        case Wrong => v == Result.Wrong
        case Halt(e) => v.Halt? && v.s.env == e == env
        case Next(e) => e == env && cpu.Valid() && v == Next(cpu.State(env))
        case Yield(e) => e == env && cpu.Valid() && v == Yield(cpu.State(env))
        case Exit(e) => e == env && cpu.Valid() && v == Result.Exit(cpu.State(env))
      ensures old(env.event) == 0 && !r.Wrong? ==> taken <= |data| && env.input == data[taken..]
    {
      taken := 0;
      if env.event != 0 {
        return taken, Yield(env);
      }
      env := env.(input := data);
      RunConsumes(cpu.img, other, n, cpu.State(env));
      r := cpu.Run(PemPrim(other), env, n);
      if !r.Wrong? {
        env := r.s;
        taken := |data| - |env.input|;
      }
    }

    /** The event, which is thereby read. */
    method Event() returns (event: byte)
      modifies this`env
      ensures event == old(env.event) && env == old(env).(event := 0)
    {
      event := env.event;
      env := env.(event := 0);
    }
  }
}
