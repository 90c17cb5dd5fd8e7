/** The PEM decoder as a coroutine: pushes, events, and the `read8` word through which all input comes. */
module Coroutine {
  import opened Bytes
  import opened SevenBit
  import opened Machine
  import opened ByteVM

  // ----- the context structure and the C snippets -----

  const BUF_SIZE: nat := 255

  /** What the snippets see: input still to be read (hbuf, hlen), event, output buffer, and everything else.
      `out` is what the destination has been given, `written` what write8 was asked to write. */
  datatype Env<X> = Env(input: seq<byte>, event: byte, x: X, buf: seq<byte>, ptr: nat, dest: bool,
                        out: seq<byte>, written: seq<byte>)

  /** All other snippets: they work on the stack, the event and the rest of the context, not on the input or
      the output buffer. */
  type Other<!X> = (string, seq<Cell>, byte, X) -> Option<(seq<Cell>, byte, X)>

  function Deliver<X>(env: Env<X>, n: nat): Env<X>
    requires n <= |env.buf|
  {
    env.(out := if env.dest then env.out + env.buf[..n] else env.out, ptr := 0)
  }

  function Write8<X>(env: Env<X>, x: byte): (r: Env<X>)
    requires |env.buf| == BUF_SIZE && env.ptr < BUF_SIZE
  {
    var env1 := env.(buf := env.buf[env.ptr := x], ptr := env.ptr + 1, written := env.written + [x]);
    if env1.ptr == BUF_SIZE then Deliver(env1, BUF_SIZE) else env1
  }

  function FlushBuf<X>(env: Env<X>): Env<X>
    requires |env.buf| == BUF_SIZE && env.ptr < BUF_SIZE
  {
    if env.ptr > 0 then Deliver(env, env.ptr) else env
  }

  const MINUS_ONE: u32 := 0xFFFF_FFFF

  function Flag(b: bool): Cell { if b then MINUS_ONE else 0 }

  function Snippet<X>(other: Other<X>, ccode: string, stack: seq<Cell>, env: Env<X>): PrimResult<Env<X>> {
    var n := |stack|;
    if ccode == "read8-native" then
      if env.input == [] then PrimOk(stack + [MINUS_ONE], env, false)
      else PrimOk(stack + [env.input[0]], env.(input := env.input[1..]), false)
    else if ccode == "co" then PrimOk(stack, env, true)
    else if ccode == "dup" then
      if n < 1 then PrimWrong else PrimOk(stack + [stack[n - 1]], env, false)
    else if ccode == "drop" then
      if n < 1 then PrimWrong else PrimOk(Pop(stack), env, false)
    else if ccode == "<" then
      if n < 2 then PrimWrong else PrimOk(stack[..n - 2] + [Flag(ToI32(stack[n - 2]) < ToI32(stack[n - 1]))], env, false)
    else if ccode == "write8" then
      if n < 1 || |env.buf| != BUF_SIZE || env.ptr >= BUF_SIZE then PrimWrong
      else PrimOk(Pop(stack), Write8(env, Top(stack) % 256), false)
    else if ccode == "flush-buf" then
      if |env.buf| != BUF_SIZE || env.ptr >= BUF_SIZE then PrimWrong else PrimOk(stack, FlushBuf(env), false)
    else
      match other(ccode, stack, env.event, env.x)
      case None => PrimWrong
      case Some((stack', event', x')) => PrimOk(stack', env.(event := event', x := x'), false)
  }

  function PemPrim<X>(other: Other<X>): Prim<Env<X>> {
    (ccode, stack, env) => Snippet(other, ccode, stack, env)
  }

  // ----- output: nothing is lost between write8 and the destination -----

  /** With a destination set, what it got and what is waiting in the buffer are all bytes ever written. */
  predicate Conserved<X>(env: Env<X>) {
    |env.buf| == BUF_SIZE && env.ptr < BUF_SIZE && env.dest && env.out + env.buf[..env.ptr] == env.written
  }

  lemma SnippetConserves<X>(other: Other<X>, ccode: string, stack: seq<Cell>, env: Env<X>)
    requires Conserved(env)
    ensures var r := Snippet(other, ccode, stack, env);
            r.PrimOk? ==>
              Conserved(r.env) && env.written <= r.env.written && env.out <= r.env.out
              && (r.env.written == if ccode == "write8" then env.written + [Top(stack) % 256] else env.written)
  {
    if ccode == "write8" && stack != [] {
      var x := Top(stack) % 256;
      assert env.buf[env.ptr := x][..env.ptr + 1] == env.buf[..env.ptr] + [x];
      assert env.out + (env.buf[..env.ptr] + [x]) == env.written + [x];
    }
  }

  /** flush-buf gives the destination everything that was written; without a destination the bytes are dropped. */
  lemma FlushDelivers<X>(other: Other<X>, stack: seq<Cell>, env: Env<X>)
    requires |env.buf| == BUF_SIZE && env.ptr < BUF_SIZE
    ensures var r := Snippet(other, "flush-buf", stack, env);
            r.PrimOk? && r.stack == stack && !r.suspends && r.env == env.(out := r.env.out, ptr := 0)
            && (Conserved(env) ==> r.env.out == r.env.written)
            && (!env.dest ==> r.env.out == env.out)
  {
    assert env.buf[..0] == [];
    assert env.out + [] == env.out;
  }

  /** write8 stores the byte; the destination gets all bytes of the buffer when that makes it full, and nothing
      before. */
  lemma WriteDelivers<X>(other: Other<X>, stack: seq<Cell>, env: Env<X>)
    requires |env.buf| == BUF_SIZE && env.ptr < BUF_SIZE && stack != []
    ensures var r, x := Snippet(other, "write8", stack, env), Top(stack) % 256;
            r.PrimOk? && r.stack == Pop(stack) && !r.suspends
            && r.env == env.(buf := r.env.buf, ptr := r.env.ptr, out := r.env.out, written := env.written + [x])
            && |r.env.buf| == BUF_SIZE && r.env.buf[..env.ptr] == env.buf[..env.ptr] && r.env.buf[env.ptr] == x
            && (env.ptr + 1 < BUF_SIZE ==> r.env.ptr == env.ptr + 1 && r.env.out == env.out)
            && (env.ptr + 1 == BUF_SIZE ==> r.env.ptr == 0 && r.env.out == if env.dest then env.out + r.env.buf else env.out)
            && (env.ptr + 1 == BUF_SIZE && Conserved(env) ==> r.env.out == r.env.written)
  {
    var r, x := Snippet(other, "write8", stack, env), Top(stack) % 256;
    var buf := env.buf[env.ptr := x];
    assert buf[..BUF_SIZE] == buf && buf[..env.ptr] == env.buf[..env.ptr];
    assert buf[..env.ptr + 1] == env.buf[..env.ptr] + [x];
    if env.ptr + 1 == BUF_SIZE && Conserved(env) {
      assert env.out + (env.buf[..env.ptr] + [x]) == env.written + [x];
    }
  }

  /** read8-native takes the bytes in order, one at a time, and says so when there is none; co suspends. */
  lemma ReadTakes<X>(other: Other<X>, stack: seq<Cell>, env: Env<X>)
    ensures var r := Snippet(other, "read8-native", stack, env);
            r.PrimOk? && !r.suspends && r.stack != [] && Pop(r.stack) == stack
            && (if env.input == [] then Top(r.stack) == MINUS_ONE && r.env == env
                else env.input == [Top(r.stack)] + r.env.input && r.env == env.(input := r.env.input))
    ensures Snippet(other, "co", stack, env) == PrimOk(stack, env, true)
  {
  }

  lemma DispatchConserves<X>(img: Image, other: Other<X>, vm: VM<Env<X>>)
    requires Conserved(vm.env)
    ensures match Dispatch(img, PemPrim(other), vm)
            case Wrong => true
            case r => Conserved(r.s.env) && vm.env.written <= r.s.env.written && vm.env.out <= r.s.env.out
  {
    hide Snippet, Conserved, EnterSlot, DoRet, DoConst, DoGet, DoPut, DoJump;
    forall ccode, stack
      ensures var r := Snippet(other, ccode, stack, vm.env);
              r.PrimOk? ==> Conserved(r.env) && vm.env.written <= r.env.written && vm.env.out <= r.env.out
    {
      SnippetConserves(other, ccode, stack, vm.env);
    }
    SnippetNeverHalts(other, vm);
    EnvKept(img, vm);
  }

  lemma SnippetNeverHalts<X>(other: Other<X>, vm: VM<Env<X>>)
    ensures forall ccode, stack :: !Snippet(other, ccode, stack, vm.env).PrimHalt?
  {
  }

  /** Only snippets touch the context. */
  lemma EnvKept<X>(img: Image, vm: VM<Env<X>>)
    ensures forall ip, slot: nat | slot >= img.interpreted :: KeepsEnv(EnterSlot(img, vm.(ip := ip), slot), vm.env)
    ensures forall ip :: KeepsEnv(DoRet(vm.(ip := ip)), vm.env) && KeepsEnv(DoConst(img, vm.(ip := ip)), vm.env)
    ensures forall ip :: KeepsEnv(DoGet(img, vm.(ip := ip)), vm.env) && KeepsEnv(DoPut(img, vm.(ip := ip)), vm.env)
    ensures forall ip, cond :: KeepsEnv(DoJump(img, vm.(ip := ip), cond), vm.env)
  {
    hide DecU, DecS;
  }

  predicate KeepsEnv<E(==)>(r: Result<VM<E>>, env: E) {
    r.Wrong? || r.s.env == env
  }
}
