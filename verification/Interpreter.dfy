/** The generated interpreter as it is: two stacks in fixed arrays, three registers, one loop. */
module InterpreterObject {
  import opened Bytes
  import opened SevenBit
  import opened Machine
  import opened ByteVM

  /** The loop, until it leaves through t0_exit, for at most n turns. */
  function RunUntilExit<E>(img: Image, prim: Prim<E>, n: nat, vm: VM<E>): Result<VM<E>>
    decreases n
  {
    if n == 0 then Next(vm)
    else
      match Dispatch(img, prim, vm)
      case Next(vm') => RunUntilExit(img, prim, n - 1, vm')
      case r => r
  }

  class Interpreter {
    const img: Image
    const dpStack: array<u32>
    const rpStack: array<u32>
    var dp: nat
    var rp: nat
    var ip: nat

    ghost predicate Valid()
      reads this
    {
      dpStack.Length == img.dataSize && dpStack != rpStack && dp <= dpStack.Length
    }

    ghost function State<E>(env: E): VM<E>
      requires Valid()
      reads this, dpStack, rpStack
    {
      VM(ip, dpStack[..dp], rp, rpStack[..], env)
    }

    constructor (img: Image, retSize: nat)
      ensures Valid() && this.img == img && rpStack.Length == retSize && dp == rp == ip == 0
      ensures fresh(dpStack) && fresh(rpStack)
    {
      this.img := img;
      dpStack := new u32[img.dataSize](_ => 0);
      rpStack := new u32[retSize](_ => 0);
      dp, rp, ip := 0, 0, 0;
    }

    /** T0_PUSH; writing behind the array is what must not happen. */
    method Push(v: u32) returns (ok: bool)
      requires Valid()
      modifies this`dp, dpStack
      ensures Valid() && ip == old(ip) && rp == old(rp) && rpStack[..] == old(rpStack[..])
      ensures ok <==> old(dp) < img.dataSize
      ensures ok ==> dpStack[..dp] == old(dpStack[..dp]) + [v]
      ensures !ok ==> dp == old(dp) && dpStack[..] == old(dpStack[..])
    {
      ok := dp < dpStack.Length;
      if ok {
        dpStack[dp] := v;
        dp := dp + 1;
      }
    }

    /** T0_POP */
    method Pop() returns (v: Option<u32>)
      requires Valid()
      modifies this`dp
      ensures Valid()
      ensures v.None? <==> old(dp) == 0
      ensures v.None? ==> dp == old(dp)
      ensures v.Some? ==> dpStack[..old(dp)] == dpStack[..dp] + [v.value]
    {
      if dp == 0 {
        return None;
      }
      dp := dp - 1;
      v := Some(dpStack[dp]);
    }

    /** T0_ENTER */
    method Enter<E>(slot: nat, ghost env: E) returns (ok: bool)
      requires Valid() && slot >= img.interpreted
      modifies this`ip, this`rp, rpStack
      ensures Valid()
      ensures EnterSlot(img, old(State(env)), slot) == if ok then Next(State(env)) else Result.Wrong
    {
      hide Scan, DecU;
      if slot - img.interpreted >= |img.caddr| {
        return false;
      }
      var at := img.caddr[slot - img.interpreted];
      if DecU(img.code, at).RunOff? {
        return false;
      }
      var lnum, newIp := Parse7EUnsigned(img.code, at);
      var top: nat := rp + lnum;
      if top >= rpStack.Length {
        return false;
      }
      var packed := ToU32(ip + ToU32(lnum as int * 0x1_0000));
      rpStack[top] := packed;
      rp := top + 1;
      ip := newIp;
      ok := true;
    }

    /** T0_DEFENTRY */
    method Init<E>(slot: nat, ghost env: E) returns (ok: bool)
      requires Valid() && slot >= img.interpreted && rp == 0
      modifies this`ip, this`rp, rpStack
      ensures Valid()
      ensures Boot(img, slot, old(dpStack[..dp]), old(rpStack[..]), env) == if ok then Next(State(env)) else Result.Wrong
    {
      ip := 0;
      ok := Enter(slot, env);
    }

    /** ret: the packed return address; true if it was the outermost word's. */
    method Return<E>(ghost env: E) returns (ok: bool, outermost: bool)
      requires Valid()
      modifies this`ip, this`rp
      ensures Valid()
      ensures DoRet(old(State(env))) ==
        if !ok then Result.Wrong else if outermost then Result.Exit(State(env)) else Next(State(env))
    {
      ok, outermost := false, false;
      if rp == 0 || rp > rpStack.Length {
        return;
      }
      var x: int := rpStack[rp - 1];
      var below: int := rp - 1 - x / 0x1_0000;
      if below < 0 {
        return;
      }
      rp := below;
      ok := true;
      if x % 0x1_0000 == 0 {
        outermost := true;
      } else {
        ip := x % 0x1_0000;
      }
    }

    method Literal<E>(ghost env: E) returns (ok: bool)
      requires Valid()
      modifies this`ip, this`dp, dpStack
      ensures Valid()
      ensures DoConst(img, old(State(env))) == if ok then Next(State(env)) else Result.Wrong
    {
      if DecS(img.code, ip).RunOff? {
        return false;
      }
      var v, next := Parse7ESigned(img.code, ip);
      ip := next;
      ok := Push(ToU32(v));
    }

    /** T0_LOCAL(x) is at rp - 2 - x. */
    method ReadLocal<E>(ghost env: E) returns (ok: bool)
      requires Valid()
      modifies this`ip, this`dp, dpStack
      ensures Valid()
      ensures DoGet(img, old(State(env))) == if ok then Next(State(env)) else Result.Wrong
    {
      hide Scan, DecU;
      if DecU(img.code, ip).RunOff? {
        return false;
      }
      var x, next := Parse7EUnsigned(img.code, ip);
      ip := next;
      var at: int := rp - 2 - x as int;
      if at < 0 || rp > rpStack.Length {
        return false;
      }
      ok := Push(rpStack[at]);
    }

    method WriteLocal<E>(ghost env: E) returns (ok: bool)
      requires Valid()
      modifies this`ip, this`dp, rpStack
      ensures Valid()
      ensures DoPut(img, old(State(env))) == if ok then Next(State(env)) else Result.Wrong
    {
      hide Scan, DecU;
      if DecU(img.code, ip).RunOff? {
        return false;
      }
      var x, next := Parse7EUnsigned(img.code, ip);
      ip := next;
      var at: int := rp - 2 - x as int;
      if at < 0 || rp > rpStack.Length {
        return false;
      }
      var v := Pop();
      if v.None? {
        return false;
      }
      rpStack[at] := v.value;
      ok := true;
    }

    /** Opcodes 4, 5 and 6. */
    method Jump<E>(cond: Cond, ghost env: E) returns (ok: bool)
      requires Valid()
      modifies this`ip, this`dp
      ensures Valid()
      ensures DoJump(img, old(State(env)), cond) == if ok then Next(State(env)) else Result.Wrong
    {
      if DecS(img.code, ip).RunOff? {
        return false;
      }
      var off, next := Parse7ESigned(img.code, ip);
      ip := next;
      var taken := true;
      if cond != Always {
        var v := Pop();
        if v.None? {
          return false;
        }
        taken := (v.value != 0) == cond.IfTrue?;
      }
      if taken {
        if ip + off < 0 {
          return false;
        }
        ip := ip + off;
      }
      ok := true;
    }

    /** The data stack as a piece of C code leaves it. */
    method Store(stack: seq<Cell>)
      requires Valid() && |stack| <= dpStack.Length
      modifies this`dp, dpStack
      ensures Valid() && dpStack[..dp] == stack
    {
      var i := 0;
      while i < |stack|
        invariant i <= |stack| && dpStack[..i] == stack[..i]
      {
        dpStack[i] := stack[i];
        i := i + 1;
      }
      dp := |stack|;
    }

    /** A piece of C code. */
    method Snippet<E>(prim: Prim<E>, slot: nat, env: E) returns (r: Result<E>)
      requires Valid()
      modifies this`dp, dpStack
      ensures Reports(r, DoSnippet(img, prim, old(State(env)), slot), if Valid() then Some(State(env)) else None, old(State(env)))
    {
      if slot !in img.snippets {
        return Result.Wrong;
      }
      match prim(img.snippets[slot], dpStack[..dp], env)
      case PrimWrong => r := Result.Wrong;
      case PrimHalt(e) => r := Halt(e);
      case PrimOk(stack, e, suspends) =>
        if |stack| > dpStack.Length {
          return Result.Wrong;
        }
        Store(stack);
        r := if suspends then Yield(e) else Next(e);
    }

    /** One turn of the loop. */
    method Turn<E>(prim: Prim<E>, env: E) returns (r: Result<E>)
      requires Valid() && img.interpreted >= 7
      modifies this`ip, this`dp, this`rp, dpStack, rpStack
      ensures Reports(r, Dispatch(img, prim, old(State(env))), if Valid() then Some(State(env)) else None, old(State(env)))
    {
      hide DecU, DecS, EnterSlot, DoRet, DoConst, DoGet, DoPut, DoJump, DoSnippet;
      var f := Fetch(img, ip);
      if f.RunOff? {
        return Result.Wrong;
      }
      ip := f.next;
      var x := f.value;
      var ok := true;
      r := Next(env);
      if x >= img.interpreted {
        ok := Enter(x, env);
      } else if x == 0 {
        var outermost;
        ok, outermost := Return(env);
        if ok && outermost {
          return Result.Exit(env);
        }
      } else if x == 1 {
        ok := Literal(env);
      } else if x == 2 {
        ok := ReadLocal(env);
      } else if x == 3 {
        ok := WriteLocal(env);
      } else if x == 4 {
        ok := Jump(Always, env);
      } else if x == 5 {
        ok := Jump(IfTrue, env);
      } else if x == 6 {
        ok := Jump(IfFalse, env);
      } else {
        r := Snippet(prim, x, env);
      }
      if !ok {
        r := Result.Wrong;
      }
    }

    /** The interpreter's loop, for at most n turns: it stops where the specification stops, in the same state. */
    method Run<E>(prim: Prim<E>, env: E, n: nat) returns (r: Result<E>)
      requires Valid() && img.interpreted >= 7
      modifies this`ip, this`dp, this`rp, dpStack, rpStack
      ensures var v := RunUntilExit(img, prim, n, old(State(env)));
              match r
              case Wrong => v == Result.Wrong
              case Halt(e) => v.Halt? && v.s.env == e
              case Next(e) => Valid() && v == Next(State(e))
              case Yield(e) => Valid() && v == Yield(State(e))
              case Exit(e) => Valid() && v == Result.Exit(State(e))
    {
      hide Dispatch;
      var i := 0;
      var cur := env;
      while i < n
        invariant i <= n && Valid()
        invariant RunUntilExit(img, prim, n, old(State(env))) == RunUntilExit(img, prim, n - i, State(cur))
      {
        r := Turn(prim, cur);
        if !r.Next? {
          return;
        }
        cur := r.s;
        i := i + 1;
      }
      r := Next(cur);
    }
  }

  /** What a method reports, against the value that the specification gives: `now` is the state it has left. */
  ghost predicate Reports<E>(r: Result<E>, v: Result<VM<E>>, now: Option<VM<E>>, before: VM<E>) {
    match r
    case Wrong => v == Result.Wrong
    case Next(e) => now.Some? && v == Next(now.value.(env := e))
    case Yield(e) => now.Some? && v == Yield(now.value.(env := e))
    case Exit(e) => now.Some? && v == Result.Exit(now.value.(env := e))
    case Halt(e) => v.Halt? && v.s.env == e && v.s.ds == before.ds
  }
}
