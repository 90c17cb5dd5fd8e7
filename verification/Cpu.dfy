/** The compile-time machine as an object: a data stack in a growing array, and linked frames. */
module CpuObject {
  import opened Arrays
  import opened Bytes
  import opened Machine

  /** A frame: what to go back to (None for the code that runs outermost), and the locals. */
  class FrameObject {
    const upper: FrameObject?
    const saved: Option<(nat, nat)>
    const locals: array<Cell>
    /** The frames above which this one stands, the outermost first. */
    ghost const below: seq<FrameObject>

    /** New locals hold zero. */
    constructor (upper: FrameObject?, saved: Option<(nat, nat)>, numLocals: nat)
      ensures this.upper == upper && this.saved == saved && fresh(locals)
      ensures locals[..] == NewLocals(ZERO, numLocals)
      ensures below == if upper == null then [] else upper.below + [upper]
    {
      this.upper, this.saved := upper, saved;
      locals := new Cell[numLocals](_ => 0);
      below := if upper == null then [] else upper.below + [upper];
    }

    function View(): Frame
      reads locals
    {
      Frame(saved, locals[..])
    }
  }

  const ZERO: nat -> Cell := (n: nat) => 0

  ghost predicate LinkAt(chain: seq<FrameObject>, i: nat)
    requires i < |chain|
  {
    chain[i].below == chain[..i] && chain[i].upper == (if i == 0 then null else chain[i - 1])
  }

  /** The frames from the outermost to the current one, with memory of their own. */
  ghost predicate ChainOk(chain: seq<FrameObject>, stackBuf: array<Cell>) {
    (forall i :: 0 <= i < |chain| ==> LinkAt(chain, i) && chain[i].locals != stackBuf)
    && (forall i, j :: 0 <= i < j < |chain| ==> chain[i].locals != chain[j].locals)
  }

  class CPU {
    /** ipBuf is the code of `word`. */
    var word: nat
    var ipOff: nat
    var stackBuf: array<Cell>
    var stackPtr: int
    var rsp: FrameObject?

    ghost function Chain(): seq<FrameObject>
      reads this
    {
      if rsp == null then [] else rsp.below + [rsp]
    }

    /** The data stack, its top last. */
    function Stack(): seq<Cell>
      reads this, stackBuf
    {
      if -1 <= stackPtr < stackBuf.Length then stackBuf[..stackPtr + 1] else []
    }

    ghost predicate Valid()
      reads this
    {
      -1 <= stackPtr < stackBuf.Length && stackBuf.Length >= 16 && ChainOk(Chain(), stackBuf)
    }

    ghost function Arrays(): set<object>
      reads this
    {
      (set f | f in Chain() :: f.locals as object) + {stackBuf}
    }

    ghost function Frames(): (fs: seq<Frame>)
      reads this, Arrays()
      ensures |fs| == |Chain()|
    {
      seq(|Chain()|, i requires 0 <= i < |Chain()| reads this, Arrays() => FrameAt(i))
    }

    ghost function FrameAt(i: nat): Frame
      requires i < |Chain()|
      reads this, Arrays()
    {
      assert Chain()[i] in Chain();
      Chain()[i].View()
    }

    /** The machine state of Machine.dfy. */
    ghost function State<E>(env: E): Cpu<E>
      reads this, Arrays()
    {
      Cpu(word, ipOff, Stack(), Frames(), env)
    }

    constructor ()
      ensures Valid() && Stack() == [] && rsp == null && fresh(stackBuf)
    {
      word, ipOff := 0, 0;
      stackBuf := new Cell[16](_ => 0);
      stackPtr := -1;
      rsp := null;
    }

    // ----- the data stack -----

    /** Doubles the array when it is full. */
    method Push(v: Cell)
      requires Valid()
      modifies this`stackBuf, this`stackPtr, stackBuf
      ensures Valid() && Stack() == old(Stack()) + [v] && Chain() == old(Chain()) && Frames() == old(Frames())
      ensures stackBuf == old(stackBuf) || fresh(stackBuf)
    {
      hide LinkAt;
      ghost var was := Stack();
      var len := stackBuf.Length;
      stackPtr := stackPtr + 1;
      if stackPtr == len {
        var nbuf := new Cell[2 * len](_ => 0);
        forall i | 0 <= i < len {
          nbuf[i] := stackBuf[i];
        }
        stackBuf := nbuf;
        assert stackBuf[..stackPtr] == was;
      }
      stackBuf[stackPtr] := v;
      assert Stack() == was + [v];
    }

    /** An empty stack is an index error. */
    method Pop() returns (v: Option<Cell>)
      requires Valid()
      modifies this`stackPtr
      ensures v.None? <==> old(Stack()) == []
      ensures v.Some? ==> Valid() && v.value == Top(old(Stack())) && Stack() == Machine.Pop(old(Stack()))
      ensures Chain() == old(Chain()) && Frames() == old(Frames())
    {
      hide ChainOk;
      if stackPtr < 0 {
        return None;
      }
      v := Some(stackBuf[stackPtr]);
      stackPtr := stackPtr - 1;
    }

    /** A negative depth, or one beyond the bottom, is an index error unless the array happens to reach that far:
        above the top there may be old elements. */
    method Peek(depth: int) returns (v: Option<Cell>)
      requires Valid()
      ensures v.Some? <==> 0 <= stackPtr - depth < stackBuf.Length
      ensures v.Some? && depth >= 0 ==> depth < |Stack()| && v.value == Stack()[|Stack()| - 1 - depth]
    {
      var at := stackPtr - depth;
      v := if 0 <= at < stackBuf.Length then Some(stackBuf[at]) else None;
    }

    /** The element at that depth moves to the top. */
    method Rot(depth: int) returns (ok: bool)
      requires Valid()
      modifies stackBuf
      ensures ok <==> 0 <= depth < |Stack()|
      ensures ok ==> Stack() == Rolled(old(Stack()), depth)
      ensures Frames() == old(Frames())
    {
      hide LinkAt, Rolled, ShiftedDown;
      if depth < 0 || depth > stackPtr {
        return false;
      }
      ghost var frames, slots := Frames(), stackBuf[..];
      DownIsRolled(slots, depth, stackPtr + 1);
      var v := stackBuf[stackPtr - depth];
      ShiftDown(stackBuf, stackPtr - depth, stackPtr);
      ghost var shifted := stackBuf[..];
      stackBuf[stackPtr] := v;
      assert stackBuf[..] == shifted[stackPtr := v];
      SameFrames(frames);
      ok := true;
    }

    /** The top moves down to that depth. */
    method NRot(depth: int) returns (ok: bool)
      requires Valid()
      modifies stackBuf
      ensures ok <==> 0 <= depth < |Stack()|
      ensures ok ==> Rolled(Stack(), depth) == old(Stack())
      ensures Frames() == old(Frames())
    {
      hide LinkAt, Rolled, ShiftedUp;
      if depth < 0 || depth > stackPtr {
        return false;
      }
      ghost var frames, slots := Frames(), stackBuf[..];
      UpUnrolls(slots, depth, stackPtr + 1);
      var v := stackBuf[stackPtr];
      ShiftUp(stackBuf, stackPtr - depth, stackPtr);
      ghost var shifted := stackBuf[..];
      stackBuf[stackPtr - depth] := v;
      assert stackBuf[..] == shifted[stackPtr - depth := v];
      SameFrames(frames);
      ok := true;
    }

    lemma SameFrames(frames: seq<Frame>)
      requires Valid() && |frames| == |Chain()|
      requires forall i :: 0 <= i < |Chain()| ==> Chain()[i].View() == frames[i]
      ensures Frames() == frames
    {
    }

    lemma FramesAre()
      ensures forall i :: 0 <= i < |Chain()| ==> Frames()[i] == Chain()[i].View()
    {
    }

    // ----- frames -----

    /** Calls the code of word w. `from` is what to go back to: None at the very start. */
    method Enter(w: nat, numLocals: nat, from: Option<(nat, nat)>)
      requires Valid()
      modifies this`word, this`ipOff, this`rsp
      ensures Valid() && word == w && ipOff == 0 && Stack() == old(Stack())
      ensures Frames() == old(Frames()) + [Frame(from, NewLocals(ZERO, numLocals))]
    {
      hide LinkAt, ChainOk, Frames;
      ghost var chain, frames := Chain(), Frames();
      FramesAre();
      var f := new FrameObject(rsp, from, numLocals);
      assert f.below == chain && f.View() == Frame(from, NewLocals(ZERO, numLocals));
      assert forall i :: 0 <= i < |chain| ==> chain[i].View() == frames[i];
      rsp := f;
      word, ipOff := w, 0;
      assert Chain() == chain + [f];
      ChainGrows(chain, f, stackBuf);
      SameFrames(frames + [f.View()]);
    }

    /** Back to where the frame says; false if it says nowhere. */
    method Exit() returns (more: bool)
      requires Valid() && rsp != null
      modifies this`word, this`ipOff, this`rsp
      ensures Valid() && Frames() == Machine.Pop(old(Frames())) && Stack() == old(Stack())
      ensures more <==> Top(old(Frames())).caller.Some?
      ensures more ==> Some((word, ipOff)) == Top(old(Frames())).caller
      ensures !more ==> word == old(word) && ipOff == old(ipOff)
    {
      hide LinkAt, ChainOk;
      ghost var chain, frames := Chain(), Frames();
      ChainShrinks(chain, stackBuf);
      assert frames[|frames| - 1] == rsp.View();
      more := rsp.saved.Some?;
      if more {
        word, ipOff := rsp.saved.value.0, rsp.saved.value.1;
      }
      rsp := rsp.upper;
      assert Chain() == Machine.Pop(chain);
      SameFrames(Machine.Pop(frames));
    }

    method GetLocal(num: nat) returns (v: Option<Cell>)
      requires Valid() && rsp != null
      ensures v.Some? <==> num < |Top(Frames()).locals|
      ensures v.Some? ==> v.value == Top(Frames()).locals[num]
      ensures Valid() && Frames() == old(Frames()) && Stack() == old(Stack())
    {
      v := if num < rsp.locals.Length then Some(rsp.locals[num]) else None;
    }

    method PutLocal(num: nat, v: Cell) returns (ok: bool)
      requires Valid() && rsp != null
      modifies rsp.locals
      ensures ok <==> num < |Top(old(Frames())).locals|
      ensures Valid() && Stack() == old(Stack())
      ensures ok ==> var f := Top(old(Frames())); Frames() == Machine.Pop(old(Frames())) + [f.(locals := f.locals[num := v])]
    {
      hide LinkAt;
      ghost var was, chain := Frames(), Chain();
      ghost var last := |chain| - 1;
      assert chain[last] == rsp;
      assert forall i :: 0 <= i < last ==> chain[i].locals != chain[last].locals;
      ok := num < rsp.locals.Length;
      if ok {
        rsp.locals[num] := v;
        ghost var f := was[|chain| - 1];
        SameFrames(was[|chain| - 1 := f.(locals := f.locals[num := v])]);
      }
    }

    // ----- running -----

    /** What a native word does, as pops and pushes: the stack becomes `s`. */
    method Replace(s: seq<Cell>)
      requires Valid()
      modifies this`stackBuf, this`stackPtr, stackBuf
      ensures Valid() && Stack() == s && Chain() == old(Chain()) && Frames() == old(Frames())
      ensures stackBuf == old(stackBuf) || fresh(stackBuf)
    {
      hide ChainOk, Valid, Stack, Frames, Chain;
      Clear();
      var i := 0;
      while i < |s|
        invariant 0 <= i <= |s| && Valid() && Stack() == s[..i]
        invariant Chain() == old(Chain()) && Frames() == old(Frames())
        invariant stackBuf == old(stackBuf) || fresh(stackBuf)
      {
        Push(s[i]);
        i := i + 1;
      }
      assert s[..|s|] == s;
    }

    method Clear()
      requires Valid()
      modifies this`stackPtr
      ensures Valid() && Stack() == [] && Chain() == old(Chain()) && Frames() == old(Frames())
    {
      stackPtr := -1;
    }

    /** One turn of the loop that fetches and runs opcodes: exactly a step of the machine, for locals that start at
        zero. The environment is the compiler's own state, which only native words touch. */
    method RunOne<E>(p: Program, prim: Prim<E>, env: E) returns (r: Result<E>)
      requires Valid() && rsp != null
      modifies this, stackBuf, rsp.locals
      ensures match r
              case Wrong => Step(p, prim, ZERO, old(State(env))) == Result.Wrong
              case Next(e) => Valid() && Step(p, prim, ZERO, old(State(env))) == Next(State(e))
              case Yield(e) => Valid() && Step(p, prim, ZERO, old(State(env))) == Yield(State(e))
              case Exit(e) => Valid() && Step(p, prim, ZERO, old(State(env))) == Result.Exit(State(e))
              case Halt(e) => Step(p, prim, ZERO, old(State(env))) == Halt(old(State(env)).(off := old(ipOff) + 1, env := e))
    {
      hide ChainOk, Valid, Stack, Frames, Chain;
      FrameView();
      ghost var c0 := State(env);
      var code := CodeOf(p, word);
      if ipOff >= |code| {
        return Result.Wrong;
      }
      var op := code[ipOff];
      SetOff(ipOff + 1);
      FrameView();
      r := Next(env);
      match op {
        case Const(v) =>
          Push(ToU32(v));
        case ConstExpr(cx, off, x) =>
          Push(ToU32(x + off));
        case GetLocal(n) =>
          var v := GetLocal(n);
          if v.None? {
            return Result.Wrong;
          }
          Push(v.value);
        case PutLocal(n) =>
          var ok := StoreLocal(n);
          if !ok {
            return Result.Wrong;
          }
        case Jump(cond, disp) =>
          if cond == Always {
            if ipOff + disp < 0 {
              return Result.Wrong;
            }
            SetOff(ipOff + disp);
          } else {
            var flag := Pop();
            if flag.None? || (((flag.value != 0) == cond.IfTrue?) && ipOff + disp < 0) {
              return Result.Wrong;
            }
            if (flag.value != 0) == cond.IfTrue? {
              SetOff(ipOff + disp);
            }
          }
        case Call(w) =>
          r := RunCall(p, prim, w, env);
        case Ret =>
          var more := Exit();
          r := if more then Next(env) else Result.Exit(env);
      }
    }

    method SetOff(off: nat)
      requires Valid()
      modifies this`ipOff
      ensures Valid() && ipOff == off && Stack() == old(Stack()) && Frames() == old(Frames()) && Chain() == old(Chain())
    {
      ipOff := off;
    }

    method StoreLocal(n: nat) returns (ok: bool)
      requires Valid() && rsp != null && Frames() != []
      modifies this`stackPtr, rsp.locals
      ensures ok <==> n < |Top(old(Frames())).locals| && old(Stack()) != []
      ensures ok ==> Valid() && Stack() == Machine.Pop(old(Stack())) && word == old(word) && ipOff == old(ipOff)
      ensures ok ==>
        var f := Top(old(Frames()));
        Frames() == Machine.Pop(old(Frames())) + [f.(locals := f.locals[n := Top(old(Stack()))])]
    {
      hide ChainOk, Valid, Stack, Frames, Chain;
      FrameView();
      if n >= rsp.locals.Length {
        return false;
      }
      var v := Pop();
      if v.None? {
        return false;
      }
      ok := PutLocal(n, v.value);
    }

    /** The run method of a word: native code, the address of a data word, or a new frame. */
    method RunCall<E>(p: Program, prim: Prim<E>, w: nat, env: E) returns (r: Result<E>)
      requires Valid()
      modifies this, stackBuf
      ensures match r
              case Wrong => CallWord(p, prim, ZERO, old(State(env)), w) == Result.Wrong
              case Next(e) => Valid() && CallWord(p, prim, ZERO, old(State(env)), w) == Next(State(e))
              case Yield(e) => Valid() && CallWord(p, prim, ZERO, old(State(env)), w) == Yield(State(e))
              case Exit(_) => false
              case Halt(e) => CallWord(p, prim, ZERO, old(State(env)), w) == Halt(old(State(env)).(env := e))
    {
      hide ChainOk, Valid, Stack, Frames, Chain;
      if w >= |p| {
        return Result.Wrong;
      }
      if p[w].ccode.Some? {
        match prim(p[w].ccode.value, Stack(), env)
        case PrimWrong => r := Result.Wrong;
        case PrimHalt(e) => r := Halt(e);
        case PrimOk(stack, e, suspends) =>
          Replace(stack);
          r := if suspends then Yield(e) else Next(e);
      } else {
        match p[w].body
        case Interp(n, _) =>
          Enter(w, n, Some((word, ipOff)));
          r := Next(env);
        case Data(addr) =>
          Push(ToU32(addr));
          r := Next(env);
        case Native => r := Result.Wrong;
      }
    }

    /** The current frame is the last one. */
    lemma FrameView()
      requires Valid() && rsp != null
      ensures Frames() != [] && Top(Frames()) == rsp.View() && |Chain()| == |Frames()|
    {
    }
  }

  lemma ChainGrows(chain: seq<FrameObject>, f: FrameObject, stackBuf: array<Cell>)
    requires ChainOk(chain, stackBuf) && f.below == chain && f.upper == (if chain == [] then null else chain[|chain| - 1])
    requires f.locals != stackBuf && forall i :: 0 <= i < |chain| ==> chain[i].locals != f.locals
    ensures ChainOk(chain + [f], stackBuf)
  {
    forall i | 0 <= i < |chain + [f]|
      ensures LinkAt(chain + [f], i)
    {
      if i < |chain| {
        assert LinkAt(chain, i);
        assert (chain + [f])[..i] == chain[..i];
      } else {
        assert (chain + [f])[..i] == chain;
      }
    }
  }

  lemma ChainShrinks(chain: seq<FrameObject>, stackBuf: array<Cell>)
    requires ChainOk(chain, stackBuf) && chain != []
    ensures ChainOk(Pop(chain), stackBuf)
    ensures var f := Top(chain);
            if |chain| == 1 then f.upper == null else f.upper == Top(Pop(chain)) && Top(Pop(chain)).below == Pop(Pop(chain))
  {
    LastLinks(chain, stackBuf);
    forall i | 0 <= i < |Pop(chain)|
      ensures LinkAt(Pop(chain), i)
    {
      assert LinkAt(chain, i);
      assert Pop(chain)[..i] == chain[..i];
    }
  }

  lemma LastLinks(chain: seq<FrameObject>, stackBuf: array<Cell>)
    requires ChainOk(chain, stackBuf) && chain != []
    ensures var f := Top(chain);
            if |chain| == 1 then f.upper == null else f.upper == Top(Pop(chain)) && Top(Pop(chain)).below == Pop(Pop(chain))
  {
    assert LinkAt(chain, |chain| - 1);
    if |chain| > 1 {
      assert LinkAt(chain, |chain| - 2);
      assert chain[..|chain| - 2] == Pop(Pop(chain));
    }
  }
}
