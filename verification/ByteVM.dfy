/** The generated byte-code interpreter, one dispatch at a time. An access outside its arrays is Wrong. */
module ByteVM {
  import opened Bytes
  import opened SevenBit
  import opened Machine

  /** The generated tables: code block, t0_caddr, T0_INTERPRETED, how T0_NEXT reads, the C snippets by
      slot, and the capacity of the data stack. */
  datatype Image = Image(code: seq<byte>, caddr: seq<nat>, interpreted: nat, oneByte: bool,
                         snippets: map<nat, string>, dataSize: nat)

  /** dp_stack up to dp, the whole of rp_stack, and the three registers as indices. */
  datatype VM<E> = VM(ip: nat, ds: seq<Cell>, rp: nat, rs: seq<u32>, env: E)

  /** T0_NEXT */
  function Fetch(img: Image, ip: nat): (r: Parsed)
    ensures r.Parsed? ==> ip < r.next <= |img.code| && r.value >= 0
  {
    if !img.oneByte then DecU(img.code, ip)
    else if ip < |img.code| then Parsed(img.code[ip], ip + 1)
    else RunOff
  }

  function PushCell<E>(img: Image, vm: VM<E>, v: Cell): Result<VM<E>> {
    if |vm.ds| >= img.dataSize then Wrong else Next(vm.(ds := vm.ds + [v]))
  }

  /** T0_ENTER: skip over the locals, store the packed return address, go to the word. */
  function EnterSlot<E>(img: Image, vm: VM<E>, slot: nat): Result<VM<E>>
    requires slot >= img.interpreted
  {
    if slot - img.interpreted >= |img.caddr| then Wrong
    else
      match DecU(img.code, img.caddr[slot - img.interpreted])
      case RunOff => Wrong
      case Parsed(lnum, newip) =>
        var top := vm.rp + lnum;
        if top >= |vm.rs| then Wrong
        else Next(vm.(ip := newip, rp := top + 1, rs := vm.rs[top := ToU32(vm.ip + ToU32(lnum * 0x1_0000))]))
  }

  /** Opcode 0: unpack the return address; 0 means the outermost word has returned. */
  function DoRet<E>(vm: VM<E>): Result<VM<E>> {
    if vm.rp == 0 || vm.rp > |vm.rs| then Wrong
    else
      var x := vm.rs[vm.rp - 1];
      var rp := vm.rp - 1 - x / 0x1_0000;
      if rp < 0 then Wrong
      else if x % 0x1_0000 == 0 then Exit(vm.(rp := rp))
      else Next(vm.(ip := x % 0x1_0000, rp := rp))
  }

  function DoConst<E>(img: Image, vm: VM<E>): Result<VM<E>> {
    match DecS(img.code, vm.ip)
    case RunOff => Wrong
    case Parsed(v, ip) => PushCell(img, vm.(ip := ip), ToU32(v))
  }

  /** T0_LOCAL(x) is at rp - 2 - x. */
  function DoGet<E>(img: Image, vm: VM<E>): Result<VM<E>> {
    match DecU(img.code, vm.ip)
    case RunOff => Wrong
    case Parsed(x, ip) =>
      if vm.rp < x + 2 || vm.rp > |vm.rs| then Wrong
      else PushCell(img, vm.(ip := ip), vm.rs[vm.rp - 2 - x])
  }

  function DoPut<E>(img: Image, vm: VM<E>): Result<VM<E>> {
    match DecU(img.code, vm.ip)
    case RunOff => Wrong
    case Parsed(x, ip) =>
      if vm.rp < x + 2 || vm.rp > |vm.rs| || vm.ds == [] then Wrong
      else Next(vm.(ip := ip, ds := Pop(vm.ds), rs := vm.rs[vm.rp - 2 - x := Top(vm.ds)]))
  }

  function Jumped<E>(vm: VM<E>, off: int): Result<VM<E>> {
    if vm.ip + off < 0 then Wrong else Next(vm.(ip := vm.ip + off))
  }

  /** Opcodes 4, 5 and 6. */
  function DoJump<E>(img: Image, vm: VM<E>, cond: Cond): Result<VM<E>> {
    match DecS(img.code, vm.ip)
    case RunOff => Wrong
    case Parsed(off, ip) =>
      if cond == Always then Jumped(vm.(ip := ip), off)
      else if vm.ds == [] then Wrong
      else Jumped(vm.(ip := ip, ds := Pop(vm.ds)), if (Top(vm.ds) != 0) == cond.IfTrue? then off else 0)
  }

  function DoSnippet<E>(img: Image, prim: Prim<E>, vm: VM<E>, slot: nat): Result<VM<E>> {
    if slot !in img.snippets then Wrong
    else
      match prim(img.snippets[slot], vm.ds, vm.env)
      case PrimWrong => Wrong
      case PrimHalt(env) => Halt(vm.(env := env))
      case PrimOk(stack, env, suspends) =>
        if |stack| > img.dataSize then Wrong
        else if suspends then Yield(vm.(ds := stack, env := env))
        else Next(vm.(ds := stack, env := env))
  }

  /** One turn of the interpreter loop. */
  function Dispatch<E>(img: Image, prim: Prim<E>, vm: VM<E>): Result<VM<E>> {
    match Fetch(img, vm.ip)
    case RunOff => Wrong
    case Parsed(x, ip) =>
      var vm' := vm.(ip := ip);
      if x >= img.interpreted then EnterSlot(img, vm', x)
      else if x == 0 then DoRet(vm')
      else if x == 1 then DoConst(img, vm')
      else if x == 2 then DoGet(img, vm')
      else if x == 3 then DoPut(img, vm')
      else if x == 4 then DoJump(img, vm', Always)
      else if x == 5 then DoJump(img, vm', IfTrue)
      else if x == 6 then DoJump(img, vm', IfFalse)
      else DoSnippet(img, prim, vm', x)
  }

  /** n turns of the loop, resumed after every suspension with whatever the host makes of the context. */
  function RunVM<E>(img: Image, prim: Prim<E>, hosts: seq<E -> E>, vm: VM<E>): Result<VM<E>>
    decreases |hosts|
  {
    if hosts == [] then Next(vm)
    else
      match Dispatch(img, prim, vm)
      case Next(vm') => RunVM(img, prim, hosts[1..], vm')
      case Yield(vm') => RunVM(img, prim, hosts[1..], vm'.(env := hosts[0](vm'.env)))
      case r => r
  }

  /** T0_DEFENTRY: ip at the start of the code block, then T0_ENTER. */
  function Boot<E>(img: Image, slot: nat, ds: seq<Cell>, rs: seq<u32>, env: E): Result<VM<E>>
    requires slot >= img.interpreted
  {
    EnterSlot(img, VM(0, ds, 0, rs, env), slot)
  }
}
