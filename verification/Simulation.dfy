/** The generated interpreter does, dispatch by dispatch, what the opcode machine does. */
module Simulation {
  import opened Bytes
  import opened SevenBit
  import opened CConst
  import opened Layout
  import opened Machine
  import opened ByteVM
  import opened CodeGen

  // ----- the relation between the two machines -----

  predicate IsCode(p: Program, w: nat) {
    w < |p| && p[w].body.Interp? && p[w].ccode.None?
  }

  predicate CallerOk(g: Gen, f: Frame) {
    f.caller.Some? ==>
      IsCode(g.p, f.caller.value.0) && 1 <= f.caller.value.1 <= |CodeOf(g.p, f.caller.value.0)|
  }

  /** The low half of a packed return address: 0 stands for "no caller". */
  function RetOffset(g: Gen, f: Frame): (a: nat)
    requires g.Shape() && CallerOk(g, f)
  {
    match f.caller
    case None => 0
    case Some((w, k)) => g.IpOf(w, k)
  }

  /** The return stack up to rp holds the frames: locals in reverse, then offset + (number of locals << 16).
      Offset 0 is found for the outermost frame and for no other. */
  predicate FramesMatch(g: Gen, frames: seq<Frame>, rs: seq<u32>, rp: nat)
    requires g.Shape()
    decreases |frames|
  {
    if frames == [] then rp == 0
    else
      var f := Top(frames);
      var n := |f.locals|;
      n < 0x1_0000 && n + 1 <= rp <= |rs| && CallerOk(g, f)
      && (f.caller.None? <==> |frames| == 1)
      && rs[rp - 1] == RetOffset(g, f) + n * 0x1_0000
      && (RetOffset(g, f) == 0 <==> |frames| == 1)
      && (forall i :: 0 <= i < n ==> f.locals[i] == rs[rp - 2 - i])
      && FramesMatch(g, Pop(frames), rs, rp - 1 - n)
  }

  predicate Matches<E(==)>(g: Gen, c: Cpu<E>, vm: VM<E>)
    requires g.Shape()
  {
    IsCode(g.p, c.word) && c.off <= |CodeOf(g.p, c.word)| && c.frames != []
    && vm.ip == g.IpOf(c.word, c.off)
    && vm.ds == c.stack && vm.env == c.env
    && FramesMatch(g, c.frames, vm.rs, vm.rp)
  }

  /** Same kind of outcome, matching states. */
  predicate Corresponds<E(==)>(g: Gen, r: Result<Cpu<E>>, v: Result<VM<E>>)
    requires g.Shape()
  {
    match (r, v)
    case (Next(c), Next(vm)) => Matches(g, c, vm)
    case (Yield(c), Yield(vm)) => Matches(g, c, vm)
    case (Exit(c), Exit(vm)) => c.frames == [] && vm.rp == 0 && vm.ds == c.stack && vm.env == c.env
    case (Halt(c), Halt(vm)) => vm.env == c.env
    case _ => false
  }

  lemma {:induction false} FramesUntouched(g: Gen, frames: seq<Frame>, rs: seq<u32>, rs': seq<u32>, rp: nat)
    requires g.Shape() && FramesMatch(g, frames, rs, rp)
    requires rp <= |rs'| && rp <= |rs| && rs[..rp] == rs'[..rp]
    ensures FramesMatch(g, frames, rs', rp)
    decreases |frames|
  {
    hide Gen.Shape, RetOffset, CallerOk;
    if frames != [] {
      var f := Top(frames);
      var n := |f.locals|;
      forall i | 0 <= i < n
        ensures f.locals[i] == rs'[rp - 2 - i]
      {
        assert rs[rp - 2 - i] == rs[..rp][rp - 2 - i] == rs'[..rp][rp - 2 - i];
      }
      assert rs[rp - 1] == rs[..rp][rp - 1] == rs'[..rp][rp - 1];
      var lo := rp - 1 - n;
      assert rs[..lo] == rs[..rp][..lo] && rs'[..lo] == rs'[..rp][..lo];
      FramesUntouched(g, Pop(frames), rs, rs', lo);
    }
  }

  lemma {:induction false} FramesSize(g: Gen, frames: seq<Frame>, rs: seq<u32>, rp: nat)
    requires g.Shape() && FramesMatch(g, frames, rs, rp)
    ensures rp == FrameSlots(frames)
    decreases |frames|
  {
    if frames != [] {
      FramesSize(g, Pop(frames), rs, rp - 1 - |Top(frames).locals|);
    }
  }

  // ----- reading one element back -----

  /** T0_NEXT at an element reads its opcode; its argument stands behind, and the next element behind that. */
  lemma FetchElement(g: Gen, img: Image, i: nat)
    requires g.Shape() && g.Describes(img) && i < |g.elems|
    ensures var a := Addr(g.lens, i);
            var q := a + OpLength(g.oneByte, g.elems[i].val);
            && Fetch(img, a) == Parsed(g.elems[i].val, q)
            && At(img.code, q, ArgBytes(g.elems, g.lens, i))
            && Addr(g.lens, i + 1) == q + |ArgBytes(g.elems, g.lens, i)|
            && 0 < Addr(g.lens, i + 1) < 0x1_0000
  {
    hide LengthIn, ArgBytes, CodeBlock, Gen.WordsLaid, Fetch, At, SelfConsistent, OpLength, OpBytes;
    assert Encodable(g.elems[i], g.oneByte);
    var op := OpBytes(g.oneByte, g.elems[i].val);
    ElementAt(g.elems, g.oneByte, g.lens, |g.elems|, i);
    AtSplit(img.code, Addr(g.lens, i), op, ArgBytes(g.elems, g.lens, i));
    ReadOp(img, Addr(g.lens, i), g.elems[i].val);
    AddrOrder(g.lens, i + 1, |g.elems|);
  }

  lemma ReadOp(img: Image, a: nat, val: u32)
    requires img.oneByte ==> val < 256
    requires At(img.code, a, OpBytes(img.oneByte, val))
    ensures Fetch(img, a) == Parsed(val, a + OpLength(img.oneByte, val))
  {
    hide EncU, DecU;
    if img.oneByte {
      AtByte(img.code, a, val);
    } else {
      RoundTripU(img.code, a, val);
    }
  }

  /** The locals header reads back in both modes: a raw byte below 128 is its own 7E encoding. */
  lemma ReadHeader(g: Gen, img: Image, i: nat, n: u32)
    requires g.Shape() && g.Describes(img) && i < |g.elems| && g.elems[i] == UInt(n)
    requires n < if g.oneByte then 128 else 0x1_0000
    ensures DecU(img.code, Addr(g.lens, i)) == Parsed(n, Addr(g.lens, i + 1))
  {
    hide Gen.WordsLaid, At, SelfConsistent, Addr, Scan;
    FetchElement(g, img, i);
    if g.oneByte {
      ScanLast(img.code, Addr(g.lens, i), 0);
    }
  }

  /** A displacement read at run time leads to the address of the target element. */
  lemma JumpLands(g: Gen, img: Image, i: nat)
    requires g.Shape() && g.Describes(img) && i < |g.elems| && g.elems[i].Jump?
    ensures var q := Addr(g.lens, i) + OpLength(g.oneByte, g.elems[i].val);
            var t := g.elems[i].target;
            && DecS(img.code, q) == Parsed(Off(g.lens, i, t), Addr(g.lens, i + 1))
            && Addr(g.lens, i + 1) + Off(g.lens, i, t) == Addr(g.lens, t)
  {
    hide DecS, Gen.WordsLaid, Fetch, At, EncS, OpLength, CodeBlock;
    FetchElement(g, img, i);
    var t := g.elems[i].target;
    AddrOrder(g.lens, t, |g.elems|);
    AddrOrder(g.lens, i, |g.elems|);
    RoundTripS(img.code, Addr(g.lens, i) + OpLength(g.oneByte, g.elems[i].val), Off(g.lens, i, t));
  }

  // ----- one opcode, one dispatch -----

  /** Which handler a dispatch runs. */
  lemma Handler<E>(img: Image, prim: Prim<E>, vm: VM<E>, x: nat, ip: nat)
    requires Fetch(img, vm.ip) == Parsed(x, ip) && 7 <= img.interpreted
    ensures var v := vm.(ip := ip);
            Dispatch(img, prim, vm) ==
              if x >= img.interpreted then EnterSlot(img, v, x)
              else if x == 0 then DoRet(v)
              else if x == 1 then DoConst(img, v)
              else if x == 2 then DoGet(img, v)
              else if x == 3 then DoPut(img, v)
              else if x == 4 then DoJump(img, v, Always)
              else if x == 5 then DoJump(img, v, IfTrue)
              else if x == 6 then DoJump(img, v, IfFalse)
              else DoSnippet(img, prim, v, x)
  {
  }

  lemma WordAt(g: Gen, img: Image, w: nat)
    requires g.Shape() && g.Describes(img) && w < |g.p|
    ensures g.WordLaid(img, w)
  {
  }

  /** The opcode about to run, and its element. */
  lemma Current<E>(g: Gen, img: Image, c: Cpu<E>)
    requires g.Shape() && g.Describes(img) && IsCode(g.p, c.word) && c.off < |CodeOf(g.p, c.word)|
    ensures var i := g.entry[c.word] + 1 + c.off;
            && i + 1 <= |g.elems|
            && g.IpOf(c.word, c.off) == Addr(g.lens, i)
            && g.IpOf(c.word, c.off + 1) == Addr(g.lens, i + 1)
            && ElemOf(CodeOf(g.p, c.word)[c.off], g.slots, g.entry[c.word] + 1, c.off) == Some(g.elems[i])
  {
    hide Gen.Describes, SelfConsistent, AllEncodable, Addr, ElemOf;
    WordAt(g, img, c.word);
  }

  lemma SimConst<E>(g: Gen, img: Image, prim: Prim<E>, stale: nat -> Cell, c: Cpu<E>, vm: VM<E>)
    requires g.Shape() && g.Describes(img) && Matches(g, c, vm)
    requires c.off < |CodeOf(g.p, c.word)| && (CodeOf(g.p, c.word)[c.off].Const? || CodeOf(g.p, c.word)[c.off].ConstExpr?)
    requires |c.stack| < img.dataSize
    ensures Corresponds(g, Step(g.p, prim, stale, c), Dispatch(img, prim, vm))
  {
    hide FramesMatch, Addr, DecS, At, Fetch, OpLength, EncS, IntBytes, ToU32, ToI32, Gen.Code, Gen.WordsLaid, SelfConsistent, Dispatch,
      EnterSlot, DoRet, DoGet, DoPut, DoJump, DoSnippet;
    var i := g.entry[c.word] + 1 + c.off;
    Current(g, img, c);
    FetchElement(g, img, i);
    Handler(img, prim, vm, g.elems[i].val, Addr(g.lens, i) + OpLength(g.oneByte, g.elems[i].val));
    WordAt(g, img, c.word);
    var q := Addr(g.lens, i) + OpLength(g.oneByte, g.elems[i].val);
    match CodeOf(g.p, c.word)[c.off]
    case Const(v) =>
      RoundTripS(img.code, q, v);
    case ConstExpr(cx, off, x) =>
      ConstantReadBack(img.code, q, cx, off, x);
      SameBits(x + off);
  }

  /** T0_LOCAL reads the local of the top frame. */
  lemma SimGet<E>(g: Gen, img: Image, prim: Prim<E>, stale: nat -> Cell, c: Cpu<E>, vm: VM<E>)
    requires g.Shape() && g.Describes(img) && Matches(g, c, vm)
    requires c.off < |CodeOf(g.p, c.word)| && CodeOf(g.p, c.word)[c.off].GetLocal?
    requires Step(g.p, prim, stale, c) != Result<Cpu<E>>.Wrong && |c.stack| < img.dataSize
    ensures Corresponds(g, Step(g.p, prim, stale, c), Dispatch(img, prim, vm))
  {
    hide FramesMatch, Addr, DecU, At, Fetch, OpLength, EncU, Gen.Code, Gen.WordsLaid, SelfConsistent, Dispatch,
      EnterSlot, DoRet, DoConst, DoPut, DoJump, DoSnippet;
    var i := g.entry[c.word] + 1 + c.off;
    Current(g, img, c);
    FetchElement(g, img, i);
    Handler(img, prim, vm, g.elems[i].val, Addr(g.lens, i) + OpLength(g.oneByte, g.elems[i].val));
    var n := CodeOf(g.p, c.word)[c.off].num;
    RoundTripU(img.code, Addr(g.lens, i) + OpLength(g.oneByte, g.elems[i].val), n);
    LocalRead(g, c.frames, vm.rs, vm.rp, n);
  }

  lemma LocalRead(g: Gen, frames: seq<Frame>, rs: seq<u32>, rp: nat, n: nat)
    requires g.Shape() && FramesMatch(g, frames, rs, rp) && frames != [] && n < |Top(frames).locals|
    ensures n + 2 <= rp <= |rs| && Top(frames).locals[n] == rs[rp - 2 - n]
  {
  }

  lemma SimPut<E>(g: Gen, img: Image, prim: Prim<E>, stale: nat -> Cell, c: Cpu<E>, vm: VM<E>)
    requires g.Shape() && g.Describes(img) && Matches(g, c, vm)
    requires c.off < |CodeOf(g.p, c.word)| && CodeOf(g.p, c.word)[c.off].PutLocal?
    requires Step(g.p, prim, stale, c) != Result<Cpu<E>>.Wrong
    ensures Corresponds(g, Step(g.p, prim, stale, c), Dispatch(img, prim, vm))
  {
    hide FramesMatch, Addr, DecU, At, Fetch, OpLength, EncU, Gen.Code, Gen.WordsLaid, SelfConsistent, Dispatch,
      EnterSlot, DoRet, DoConst, DoGet, DoJump, DoSnippet;
    var i := g.entry[c.word] + 1 + c.off;
    Current(g, img, c);
    FetchElement(g, img, i);
    Handler(img, prim, vm, g.elems[i].val, Addr(g.lens, i) + OpLength(g.oneByte, g.elems[i].val));
    var n := CodeOf(g.p, c.word)[c.off].num;
    RoundTripU(img.code, Addr(g.lens, i) + OpLength(g.oneByte, g.elems[i].val), n);
    LocalStored(g, c.frames, vm.rs, vm.rp, n, Top(c.stack));
  }

  /** Writing a local changes one cell of the return stack, inside the top frame. */
  lemma LocalStored(g: Gen, frames: seq<Frame>, rs: seq<u32>, rp: nat, n: nat, v: Cell)
    requires g.Shape() && FramesMatch(g, frames, rs, rp) && frames != [] && n < |Top(frames).locals|
    ensures n + 2 <= rp <= |rs|
    ensures var f := Top(frames).(locals := Top(frames).locals[n := v]);
            FramesMatch(g, Pop(frames) + [f], rs[rp - 2 - n := v], rp)
  {
    hide Gen.Shape, FramesMatch;
    TopFrame(g, frames, rs, rp);
    var f := Top(frames).(locals := Top(frames).locals[n := v]);
    var rs' := rs[rp - 2 - n := v];
    var lo := rp - 1 - |f.locals|;
    assert RetOffset(g, f) == RetOffset(g, Top(frames));
    assert rs[..lo] == rs'[..lo];
    FramesUntouched(g, Pop(frames), rs, rs', lo);
    TopMatches(g, Pop(frames), f, rs', lo);
  }

  /** What the return stack holds of the innermost frame. */
  lemma TopFrame(g: Gen, frames: seq<Frame>, rs: seq<u32>, rp: nat)
    requires g.Shape() && FramesMatch(g, frames, rs, rp) && frames != []
    ensures var f := Top(frames);
            var n := |f.locals|;
            n < 0x1_0000 && n + 1 <= rp <= |rs| && CallerOk(g, f)
            && (f.caller.None? <==> Pop(frames) == []) && (RetOffset(g, f) == 0 <==> Pop(frames) == [])
            && rs[rp - 1] == RetOffset(g, f) + n * 0x1_0000
            && (forall i :: 0 <= i < n ==> f.locals[i] == rs[rp - 2 - i])
            && FramesMatch(g, Pop(frames), rs, rp - 1 - n)
  {
    hide Gen.Shape, RetOffset, CallerOk;
  }

  /** The element of a jump, and where its target stands. */
  lemma JumpElement<E>(g: Gen, img: Image, c: Cpu<E>)
    requires g.Shape() && g.Describes(img) && IsCode(g.p, c.word) && c.off < |CodeOf(g.p, c.word)|
    requires CodeOf(g.p, c.word)[c.off].Jump?
    ensures var i := g.entry[c.word] + 1 + c.off;
            var op := CodeOf(g.p, c.word)[c.off];
            && i + 1 <= |g.elems| && g.elems[i].Jump? && g.elems[i].val == JumpType(op.cond)
            && 0 <= c.off + 1 + op.disp < |CodeOf(g.p, c.word)|
            && g.IpOf(c.word, c.off + 1 + op.disp) == Addr(g.lens, g.elems[i].target)
            && g.IpOf(c.word, c.off) == Addr(g.lens, i) && g.IpOf(c.word, c.off + 1) == Addr(g.lens, i + 1)
  {
    hide Addr, SelfConsistent, AllEncodable, Gen.Code, Gen.WordsLaid;
    Current(g, img, c);
    WordAt(g, img, c.word);
  }

  lemma SimJump<E>(g: Gen, img: Image, prim: Prim<E>, stale: nat -> Cell, c: Cpu<E>, vm: VM<E>)
    requires g.Shape() && g.Describes(img) && Matches(g, c, vm)
    requires c.off < |CodeOf(g.p, c.word)| && CodeOf(g.p, c.word)[c.off].Jump?
    requires Step(g.p, prim, stale, c) != Result<Cpu<E>>.Wrong
    ensures Corresponds(g, Step(g.p, prim, stale, c), Dispatch(img, prim, vm))
  {
    hide FramesMatch, Addr, DecS, At, Fetch, OpLength, Gen.Describes, Gen.IpOf, Off, Dispatch, ArgBytes,
      EnterSlot, DoRet, DoConst, DoGet, DoPut, DoSnippet;
    var i := g.entry[c.word] + 1 + c.off;
    JumpElement(g, img, c);
    FetchElement(g, img, i);
    ImageSize(g, img);
    Handler(img, prim, vm, g.elems[i].val, Addr(g.lens, i) + OpLength(g.oneByte, g.elems[i].val));
    JumpLands(g, img, i);
    hide Gen.Shape;
  }

  /** Unpacking a return address leads back to the caller, or out of the machine for the outermost frame. */
  lemma SimRet<E>(g: Gen, img: Image, prim: Prim<E>, stale: nat -> Cell, c: Cpu<E>, vm: VM<E>)
    requires g.Shape() && g.Describes(img) && Matches(g, c, vm)
    requires c.off < |CodeOf(g.p, c.word)| && CodeOf(g.p, c.word)[c.off].Ret?
    ensures Corresponds(g, Step(g.p, prim, stale, c), Dispatch(img, prim, vm))
  {
    hide Addr, At, OpLength, Gen.Code, Gen.WordsLaid, SelfConsistent, Fetch, FramesMatch, DoRet, Dispatch;
    var i := g.entry[c.word] + 1 + c.off;
    Current(g, img, c);
    FetchElement(g, img, i);
    var ip := Addr(g.lens, i) + OpLength(g.oneByte, g.elems[i].val);
    Handler(img, prim, vm, 0, ip);
    Unpacked(g, c.frames, vm.(ip := ip));
  }

  /** What opcode 0 finds in the return stack. */
  lemma Unpacked<E>(g: Gen, frames: seq<Frame>, vm: VM<E>)
    requires g.Shape() && FramesMatch(g, frames, vm.rs, vm.rp) && frames != []
    ensures var f := Top(frames); var r := DoRet(vm);
            && CallerOk(g, f)
            && match f.caller
               case None => Pop(frames) == [] && r == Exit(vm.(rp := 0))
               case Some(_) =>
                 Pop(frames) != [] && r.Next? && r.s == vm.(ip := RetOffset(g, f), rp := r.s.rp)
                 && FramesMatch(g, Pop(frames), vm.rs, r.s.rp)
  {
    hide Gen.Shape, Gen.IpOf;
    var f := Top(frames);
    RetOffsetSmall(g, f);
    Unpack(RetOffset(g, f), |f.locals|);
    var rest := Pop(frames);
    assert FramesMatch(g, rest, vm.rs, vm.rp - 1 - |f.locals|);
    assert f.caller.None? <==> rest == [];
  }

  lemma RetOffsetSmall(g: Gen, f: Frame)
    requires g.Shape() && CallerOk(g, f)
    ensures RetOffset(g, f) < 0x1_0000
  {
    if f.caller.Some? {
      var (w, k) := f.caller.value;
      if g.entry[w] + 1 + k <= |g.elems| {
        AddrOrder(g.lens, g.entry[w] + 1 + k, |g.elems|);
      }
    }
  }

  lemma Unpack(a: nat, n: nat)
    requires a < 0x1_0000
    ensures (a + n * 0x1_0000) / 0x1_0000 == n && (a + n * 0x1_0000) % 0x1_0000 == a
  {
  }

  /** A snippet of C code does the same to both machines: they share the stack and the context. */
  lemma SimSnippet<E>(g: Gen, img: Image, prim: Prim<E>, stale: nat -> Cell, c: Cpu<E>, vm: VM<E>)
    requires g.Shape() && g.Describes(img) && Matches(g, c, vm)
    requires c.off < |CodeOf(g.p, c.word)| && CodeOf(g.p, c.word)[c.off].Call?
    requires var w := CodeOf(g.p, c.word)[c.off].w; w < |g.p| && g.p[w].ccode.Some?
    requires var r := Step(g.p, prim, stale, c); !r.Wrong? && (r.Next? || r.Yield? ==> |r.s.stack| <= img.dataSize)
    ensures Corresponds(g, Step(g.p, prim, stale, c), Dispatch(img, prim, vm))
  {
    hide FramesMatch, Addr, At, OpLength, Gen.Code, Gen.WordsLaid, SelfConsistent, Fetch, Dispatch, Gen.WordElems,
      EnterSlot, DoRet, DoConst, DoGet, DoPut, DoJump;
    var i := g.entry[c.word] + 1 + c.off;
    Current(g, img, c);
    FetchElement(g, img, i);
    WordAt(g, img, CodeOf(g.p, c.word)[c.off].w);
    Handler(img, prim, vm, g.elems[i].val, Addr(g.lens, i) + OpLength(g.oneByte, g.elems[i].val));
  }

  /** What the memory above rp holds where the next word's locals will be. */
  function StaleAt(rs: seq<u32>, rp: nat, n: nat): nat -> Cell {
    i => var k := rp + n - 1 - i; if 0 <= k < |rs| then rs[k] else 0
  }

  function Callee(p: Program, ops: seq<Op>, off: nat): (w: nat) {
    if off < |ops| && ops[off].Call? then ops[off].w else 0
  }

  /** The contents of locals the opcode machine must be given to follow the interpreter. */
  function StaleFor<E>(p: Program, c: Cpu<E>, rs: seq<u32>, rp: nat): nat -> Cell {
    StaleAt(rs, rp, NumLocals(p, Callee(p, CodeOf(p, c.word), c.off)))
  }

  /** The return offset depends on the caller only. */
  function CallerOffset(g: Gen, caller: Option<(nat, nat)>): (a: nat)
    requires g.Shape() && CallerOk(g, Frame(caller, []))
  {
    RetOffset(g, Frame(caller, []))
  }

  /** T0_ENTER pushes a frame that matches the one Enter pushes. */
  lemma FramePushed(g: Gen, frames: seq<Frame>, rs: seq<u32>, rp: nat, caller: Option<(nat, nat)>, n: nat)
    requires g.Shape() && FramesMatch(g, frames, rs, rp) && n < 0x1_0000 && rp + n < |rs|
    requires caller.None? <==> frames == []
    requires CallerOk(g, Frame(caller, []))
    requires caller.Some? ==> 0 < CallerOffset(g, caller)
    ensures CallerOffset(g, caller) < 0x1_0000
    ensures FramesMatch(g, frames + [Frame(caller, NewLocals(StaleAt(rs, rp, n), n))],
                        rs[rp + n := CallerOffset(g, caller) + n * 0x1_0000], rp + n + 1)
  {
    hide Gen.SameCode, Gen.IpOf, Gen.Shape, FramesMatch, StaleAt;
    var f := Frame(caller, NewLocals(StaleAt(rs, rp, n), n));
    RetOffsetSmall(g, Frame(caller, []));
    FramesFit(g, frames, rs, rp);
    var rs' := rs[rp + n := CallerOffset(g, caller) + n * 0x1_0000];
    assert rs[..rp] == rs'[..rp];
    FramesUntouched(g, frames, rs, rs', rp);
    assert RetOffset(g, f) == CallerOffset(g, caller);
    LocalsFound(f.locals, rs, rs', rp, n);
    TopMatches(g, frames, f, rs', rp);
  }

  lemma FramesFit(g: Gen, frames: seq<Frame>, rs: seq<u32>, rp: nat)
    requires g.Shape() && FramesMatch(g, frames, rs, rp)
    ensures rp <= |rs|
  {
  }

  lemma LocalsFound(locals: seq<Cell>, rs: seq<u32>, rs': seq<u32>, rp: nat, n: nat)
    requires rp + n < |rs| == |rs'| && locals == NewLocals(StaleAt(rs, rp, n), n)
    requires rs'[..rp + n] == rs[..rp + n]
    ensures forall i :: 0 <= i < n ==> locals[i] == rs'[rp + n - 1 - i]
  {
    forall i | 0 <= i < n
      ensures locals[i] == rs'[rp + n - 1 - i]
    {
      assert locals[i] == StaleAt(rs, rp, n)(i) == rs[rp + n - 1 - i];
      assert rs'[rp + n - 1 - i] == rs'[..rp + n][rp + n - 1 - i];
    }
  }

  lemma TopMatches(g: Gen, frames: seq<Frame>, f: Frame, rs: seq<u32>, rp: nat)
    requires g.Shape() && FramesMatch(g, frames, rs, rp) && CallerOk(g, f)
    requires |f.locals| < 0x1_0000 && rp + |f.locals| < |rs|
    requires f.caller.None? <==> frames == []
    requires RetOffset(g, f) == 0 <==> frames == []
    requires rs[rp + |f.locals|] == RetOffset(g, f) + |f.locals| * 0x1_0000
    requires forall i :: 0 <= i < |f.locals| ==> f.locals[i] == rs[rp + |f.locals| - 1 - i]
    ensures FramesMatch(g, frames + [f], rs, rp + |f.locals| + 1)
  {
    hide Gen.Shape, RetOffset, CallerOk;
    var frames' := frames + [f];
    assert Pop(frames') == frames && Top(frames') == f;
    var n := |f.locals|;
    var rp' := rp + n + 1;
    forall i | 0 <= i < n
      ensures f.locals[i] == rs[rp' - 2 - i]
    {
      assert rp' - 2 - i == rp + n - 1 - i;
    }
  }

  /** T0_ENTER at the slot of an interpreted word with n locals. */
  lemma Entered<E>(g: Gen, img: Image, vm: VM<E>, w: nat, n: nat)
    requires g.Shape() && g.Describes(img) && IsCode(g.p, w) && n == NumLocals(g.p, w)
    requires vm.ip < 0x1_0000 && vm.rp + n < |vm.rs| && n < 0x1_0000
    ensures g.slots[w] >= img.interpreted && g.entry[w] + 1 <= |g.elems|
    ensures EnterSlot(img, vm, g.slots[w])
         == Next(vm.(ip := Addr(g.lens, g.entry[w] + 1), rp := vm.rp + n + 1,
                     rs := vm.rs[vm.rp + n := vm.ip + n * 0x1_0000]))
  {
    hide Addr, Gen.Code, Gen.WordsLaid, SelfConsistent, DecU;
    WordAt(g, img, w);
    ReadHeader(g, img, g.entry[w], n);
    AlreadyU32(n * 0x1_0000);
    AlreadyU32(vm.ip + n * 0x1_0000);
  }

  lemma SimEnter<E>(g: Gen, img: Image, prim: Prim<E>, c: Cpu<E>, vm: VM<E>)
    requires g.Shape() && g.Describes(img) && Matches(g, c, vm)
    requires c.off < |CodeOf(g.p, c.word)| && CodeOf(g.p, c.word)[c.off].Call?
    requires IsCode(g.p, CodeOf(g.p, c.word)[c.off].w)
    requires FrameSlots(c.frames) + 1 + NumLocals(g.p, CodeOf(g.p, c.word)[c.off].w) <= |vm.rs|
    ensures Corresponds(g, Step(g.p, prim, StaleFor(g.p, c, vm.rs, vm.rp), c), Dispatch(img, prim, vm))
  {
    hide FramesMatch, Addr, At, OpLength, Gen.Code, Gen.WordsLaid, SelfConsistent, Fetch, FrameSlots, Dispatch, EnterSlot,
      DoRet, DoConst, DoGet, DoPut, DoJump, DoSnippet;
    var i := g.entry[c.word] + 1 + c.off;
    var w := CodeOf(g.p, c.word)[c.off].w;
    var n := NumLocals(g.p, w);
    Current(g, img, c);
    FetchElement(g, img, i);
    var ip := Addr(g.lens, i) + OpLength(g.oneByte, g.elems[i].val);
    Handler(img, prim, vm, g.elems[i].val, ip);
    FramesSize(g, c.frames, vm.rs, vm.rp);
    FewLocals(g, img, w);
    Entered(g, img, vm.(ip := ip), w, n);
    assert CallerOffset(g, Some((c.word, c.off + 1))) == Addr(g.lens, i + 1);
    FramePushed(g, c.frames, vm.rs, vm.rp, Some((c.word, c.off + 1)), n);
  }

  lemma FewLocals(g: Gen, img: Image, w: nat)
    requires g.Shape() && g.Describes(img) && IsCode(g.p, w)
    ensures NumLocals(g.p, w) < 0x1_0000
  {
    hide Gen.Code, Gen.WordsLaid, SelfConsistent;
    WordAt(g, img, w);
  }

  // ----- data words -----

  predicate AtDataCall<E>(p: Program, c: Cpu<E>) {
    c.off < |CodeOf(p, c.word)| && CodeOf(p, c.word)[c.off].Call?
    && var w := CodeOf(p, c.word)[c.off].w;
       w < |p| && p[w].ccode.None? && p[w].body.Data?
  }

  /** The interpreter inside the code of a data word: a frame without locals has been pushed. */
  function InData<E>(g: Gen, c: Cpu<E>, vm: VM<E>, k: nat): (v: VM<E>)
    requires g.Shape() && IsCode(g.p, c.word) && AtDataCall(g.p, c) && vm.rp < |vm.rs|
  {
    var w := CodeOf(g.p, c.word)[c.off].w;
    VM(if w < |g.p| && g.entry[w] + 1 + k <= |g.elems| then Addr(g.lens, g.entry[w] + 1 + k) else 0,
       if k == 0 then vm.ds else vm.ds + [ToU32(g.p[w].body.addr)],
       vm.rp + 1, vm.rs[vm.rp := ToU32(g.IpOf(c.word, c.off + 1))], vm.env)
  }

  lemma DataEntered<E>(g: Gen, img: Image, prim: Prim<E>, c: Cpu<E>, vm: VM<E>)
    requires g.Shape() && g.Describes(img) && Matches(g, c, vm) && AtDataCall(g.p, c) && vm.rp < |vm.rs|
    ensures Dispatch(img, prim, vm) == Next(InData(g, c, vm, 0))
  {
    hide FramesMatch, Addr, At, OpLength, Gen.Code, Gen.WordsLaid, SelfConsistent, Fetch, DecU, Dispatch,
      DoRet, DoConst, DoGet, DoPut, DoJump, DoSnippet, AllEncodable;
    var i := g.entry[c.word] + 1 + c.off;
    var w := CodeOf(g.p, c.word)[c.off].w;
    Current(g, img, c);
    FetchElement(g, img, i);
    WordAt(g, img, w);
    Handler(img, prim, vm, g.elems[i].val, Addr(g.lens, i) + OpLength(g.oneByte, g.elems[i].val));
    ReadHeader(g, img, g.entry[w], 0);
  }

  /** The code of a data word. */
  lemma DataElements(g: Gen, img: Image, w: nat)
    requires g.Shape() && g.Describes(img) && w < |g.p| && g.p[w].ccode.None? && g.p[w].body.Data?
    ensures var b := g.entry[w];
            b + 3 <= |g.elems| && g.elems[b] == UInt(0) && g.elems[b + 1] == UIntInt(OP_CONST, g.p[w].body.addr)
            && g.elems[b + 2] == UInt(OP_RET)
            && ArgBytes(g.elems, g.lens, b + 1) == EncS(g.p[w].body.addr) && ArgBytes(g.elems, g.lens, b + 2) == []
            && 7 <= img.interpreted
  {
    hide Addr, SelfConsistent, AllEncodable, Gen.SameCode, EncS;
    WordAt(g, img, w);
    ImageSize(g, img);
  }

  lemma ImageSize(g: Gen, img: Image)
    requires g.Shape() && g.Describes(img)
    ensures 7 <= img.interpreted && img.interpreted == g.interpreted && img.oneByte == g.oneByte
  {
    hide Addr, SelfConsistent, AllEncodable, Gen.WordsLaid, Gen.Code;
  }

  lemma DataPushed<E>(g: Gen, img: Image, prim: Prim<E>, c: Cpu<E>, vm: VM<E>)
    requires g.Shape() && g.Describes(img) && IsCode(g.p, c.word) && AtDataCall(g.p, c) && vm.rp < |vm.rs|
    requires |vm.ds| < img.dataSize
    ensures Dispatch(img, prim, InData(g, c, vm, 0)) == Next(InData(g, c, vm, 1))
  {
    hide Addr, At, OpLength, Gen.Code, Gen.WordsLaid, Gen.WordElems, Gen.SameCode, SelfConsistent, Fetch, DecS, EncS, Gen.IpOf, ToU32, Dispatch,
      EnterSlot, DoRet, DoGet, DoPut, DoJump, DoSnippet, ArgBytes, AllEncodable, WellTargeted;
    var w := CodeOf(g.p, c.word)[c.off].w;
    var b := g.entry[w];
    DataElements(g, img, w);
    FetchElement(g, img, b + 1);
    hide Gen.Shape, Gen.Describes;
    Handler(img, prim, InData(g, c, vm, 0), OP_CONST, Addr(g.lens, b + 1) + OpLength(g.oneByte, OP_CONST));
    RoundTripS(img.code, Addr(g.lens, b + 1) + OpLength(g.oneByte, OP_CONST), g.p[w].body.addr);
  }

  lemma DataReturned<E>(g: Gen, img: Image, prim: Prim<E>, c: Cpu<E>, vm: VM<E>)
    requires g.Shape() && g.Describes(img) && IsCode(g.p, c.word) && AtDataCall(g.p, c) && vm.rp < |vm.rs|
    ensures Dispatch(img, prim, InData(g, c, vm, 1))
         == Next(InData(g, c, vm, 1).(ip := g.IpOf(c.word, c.off + 1), rp := vm.rp))
  {
    hide Addr, At, OpLength, Gen.Code, Gen.WordsLaid, Gen.WordElems, Gen.SameCode, SelfConsistent, Fetch, ToU32, Dispatch,
      EnterSlot, DoConst, DoGet, DoPut, DoJump, DoSnippet, ArgBytes, AllEncodable, WellTargeted;
    var i := g.entry[c.word] + 1 + c.off;
    var w := CodeOf(g.p, c.word)[c.off].w;
    Current(g, img, c);
    FetchElement(g, img, i);
    DataElements(g, img, w);
    FetchElement(g, img, g.entry[w] + 2);
    hide Gen.Describes;
    Handler(img, prim, InData(g, c, vm, 1), OP_RET, Addr(g.lens, g.entry[w] + 2) + OpLength(g.oneByte, OP_RET));
    Unpack(Addr(g.lens, i + 1), 0);
    AlreadyU32(Addr(g.lens, i + 1));
  }

  lemma AlreadyU32(x: u32)
    ensures ToU32(x) == x
  {
  }

  lemma DataMatches<E>(g: Gen, prim: Prim<E>, stale: nat -> Cell, c: Cpu<E>, vm: VM<E>)
    requires g.Shape() && Matches(g, c, vm) && AtDataCall(g.p, c) && vm.rp < |vm.rs|
    ensures Corresponds(g, Step(g.p, prim, stale, c),
                        Next(InData(g, c, vm, 1).(ip := g.IpOf(c.word, c.off + 1), rp := vm.rp)))
  {
    hide FramesMatch, Addr, Gen.Shape;
    FramesUntouched(g, c.frames, vm.rs, vm.rs[vm.rp := ToU32(g.IpOf(c.word, c.off + 1))], vm.rp);
  }

  // ----- one step, and whole runs -----

  /** The data stack fits, and so does the return stack, with one slot to spare before a data word. */
  predicate InBounds<E>(p: Program, c: Cpu<E>, dataSize: nat, retSize: nat) {
    |c.stack| <= dataSize && FrameSlots(c.frames) + (if AtDataCall(p, c) then 1 else 0) <= retSize
  }

  /** No run of n opcodes goes wrong or leaves the bounds, whatever new locals hold and whatever the
      host does to the context while the machine is suspended. */
  ghost predicate Safe<E(!new)>(p: Program, prim: Prim<E>, c: Cpu<E>, dataSize: nat, retSize: nat, n: nat)
    decreases n, 0
  {
    InBounds(p, c, dataSize, retSize) &&
    (n > 0 ==> forall stale: nat -> Cell :: SafeAfter(p, prim, Step(p, prim, stale, c), dataSize, retSize, n - 1))
  }

  ghost predicate SafeAfter<E(!new)>(p: Program, prim: Prim<E>, r: Result<Cpu<E>>, dataSize: nat, retSize: nat, n: nat)
    decreases n, 1
  {
    match r
    case Wrong => false
    case Next(c) => Safe(p, prim, c, dataSize, retSize, n)
    case Yield(c) => forall env: E :: Safe(p, prim, c.(env := env), dataSize, retSize, n)
    case _ => true
  }

  /** Dispatches that make up one opcode. */
  function Turns<E>(p: Program, c: Cpu<E>): nat {
    if AtDataCall(p, c) then 3 else 1
  }

  function VmStep<E>(img: Image, prim: Prim<E>, vm: VM<E>, turns: nat): Result<VM<E>>
    decreases turns
  {
    if turns <= 1 then Dispatch(img, prim, vm)
    else
      match Dispatch(img, prim, vm)
      case Next(vm') => VmStep(img, prim, vm', turns - 1)
      case r => Wrong
  }

  /** One opcode of the opcode machine is one dispatch of the interpreter (three for a data word), with
      corresponding outcomes. */
  lemma SimStep<E(!new)>(g: Gen, img: Image, prim: Prim<E>, c: Cpu<E>, vm: VM<E>)
    requires g.Shape() && g.Describes(img) && Matches(g, c, vm)
    requires Safe(g.p, prim, c, img.dataSize, |vm.rs|, 1)
    ensures Corresponds(g, Step(g.p, prim, StaleFor(g.p, c, vm.rs, vm.rp), c),
                        VmStep(img, prim, vm, Turns(g.p, c)))
  {
    hide FramesMatch, Gen.Describes, Gen.Shape, Dispatch, Corresponds;
    var stale := StaleFor(g.p, c, vm.rs, vm.rp);
    var r := Step(g.p, prim, stale, c);
    assert SafeAfter(g.p, prim, r, img.dataSize, |vm.rs|, 0);
    BoundsAfter(g.p, prim, r, img.dataSize, |vm.rs|);
    match CodeOf(g.p, c.word)[c.off]
    case Const(_) => SimConst(g, img, prim, stale, c, vm);
    case ConstExpr(_, _, _) => SimConst(g, img, prim, stale, c, vm);
    case GetLocal(_) => SimGet(g, img, prim, stale, c, vm);
    case PutLocal(_) => SimPut(g, img, prim, stale, c, vm);
    case Jump(_, _) => SimJump(g, img, prim, stale, c, vm);
    case Ret => SimRet(g, img, prim, stale, c, vm);
    case Call(w) =>
      if g.p[w].ccode.Some? {
        SimSnippet(g, img, prim, stale, c, vm);
      } else if g.p[w].body.Interp? {
        EnterSlots(c.frames, Frame(Some((c.word, c.off + 1)), NewLocals(stale, NumLocals(g.p, w))));
        SimEnter(g, img, prim, c, vm);
      } else {
        FramesSize(g, c.frames, vm.rs, vm.rp);
        DataEntered(g, img, prim, c, vm);
        DataPushed(g, img, prim, c, vm);
        DataReturned(g, img, prim, c, vm);
        ThreeTurns(img, prim, vm, InData(g, c, vm, 0), InData(g, c, vm, 1));
        DataMatches(g, prim, stale, c, vm);
      }
  }

  lemma ThreeTurns<E>(img: Image, prim: Prim<E>, v0: VM<E>, v1: VM<E>, v2: VM<E>)
    requires Dispatch(img, prim, v0) == Next(v1) && Dispatch(img, prim, v1) == Next(v2)
    ensures VmStep(img, prim, v0, 3) == Dispatch(img, prim, v2)
  {
    hide Dispatch;
    assert VmStep(img, prim, v1, 2) == VmStep(img, prim, v2, 1);
  }

  lemma EnterSlots(frames: seq<Frame>, f: Frame)
    ensures FrameSlots(frames + [f]) == FrameSlots(frames) + 1 + |f.locals|
  {
    assert Pop(frames + [f]) == frames;
  }

  lemma BoundsAfter<E(!new)>(p: Program, prim: Prim<E>, r: Result<Cpu<E>>, dataSize: nat, retSize: nat)
    requires SafeAfter(p, prim, r, dataSize, retSize, 0)
    ensures !r.Wrong?
    ensures r.Next? || r.Yield? ==> |r.s.stack| <= dataSize && FrameSlots(r.s.frames) <= retSize
  {
    if r.Yield? {
      assert Safe(p, prim, r.s.(env := r.s.env), dataSize, retSize, 0);
    }
  }

  /** The return stack is an array: no dispatch changes its size. */
  lemma RetSizeKept<E>(img: Image, prim: Prim<E>, vm: VM<E>, turns: nat)
    ensures var r := VmStep(img, prim, vm, turns); r.Next? || r.Yield? ==> |r.s.rs| == |vm.rs|
    decreases turns
  {
    OneDispatchKeeps(img, prim, vm);
    hide Dispatch;
    if turns > 1 && Dispatch(img, prim, vm).Next? {
      RetSizeKept(img, prim, Dispatch(img, prim, vm).s, turns - 1);
    }
  }

  lemma OneDispatchKeeps<E>(img: Image, prim: Prim<E>, vm: VM<E>)
    ensures var r := Dispatch(img, prim, vm); r.Next? || r.Yield? ==> |r.s.rs| == |vm.rs|
  {
    hide DecU, DecS, Fetch;
  }

  function Repeat<T>(x: T, n: nat): (s: seq<T>)
    ensures |s| == n
  {
    if n == 0 then [] else [x] + Repeat(x, n - 1)
  }

  /** The turns of one opcode at the head of a longer run. */
  lemma {:induction false} RunTurns<E>(img: Image, prim: Prim<E>, h: E -> E, turns: nat, rest: seq<E -> E>, vm: VM<E>)
    requires turns >= 1 && !VmStep(img, prim, vm, turns).Wrong?
    ensures RunVM(img, prim, Repeat(h, turns) + rest, vm)
         == match VmStep(img, prim, vm, turns)
            case Next(v) => RunVM(img, prim, rest, v)
            case Yield(v) => RunVM(img, prim, rest, v.(env := h(v.env)))
            case r => r
    decreases turns
  {
    hide Dispatch;
    var hosts := Repeat(h, turns) + rest;
    assert hosts[0] == h && hosts[1..] == Repeat(h, turns - 1) + rest;
    if turns > 1 {
      RunTurns(img, prim, h, turns - 1, rest, Dispatch(img, prim, vm).s);
    } else {
      assert hosts[1..] == rest;
    }
  }

  function AnyChoices<E>(stale: nat -> Cell, hosts: seq<E -> E>): (cs: seq<Choice<E>>)
    ensures |cs| == |hosts| && forall i :: 0 <= i < |hosts| ==> cs[i].host == hosts[i]
  {
    seq(|hosts|, i requires 0 <= i < |hosts| => Choice(stale, hosts[i]))
  }

  function HostedCpu<E>(c: Cpu<E>, host: E -> E): Cpu<E> { c.(env := host(c.env)) }

  function HostedVm<E>(v: VM<E>, host: E -> E): VM<E> { v.(env := host(v.env)) }

  /** The rest of a run, after one opcode and what the host does then. */
  function RunOn<E>(p: Program, prim: Prim<E>, host: E -> E, more: seq<Choice<E>>, r: Result<Cpu<E>>): Result<Cpu<E>> {
    match r
    case Next(c) => Run(p, prim, more, c)
    case Yield(c) => Run(p, prim, more, HostedCpu(c, host))
    case _ => r
  }

  function RunVmOn<E>(img: Image, prim: Prim<E>, host: E -> E, more: seq<E -> E>, r: Result<VM<E>>): Result<VM<E>> {
    match r
    case Next(v) => RunVM(img, prim, more, v)
    case Yield(v) => RunVM(img, prim, more, HostedVm(v, host))
    case _ => r
  }

  /** Both machines one opcode further, after the host has done its part; None if they have ended. */
  function Onward<E>(g: Gen, img: Image, prim: Prim<E>, host: E -> E, c: Cpu<E>, vm: VM<E>): Option<(Cpu<E>, VM<E>)> {
    var v := VmStep(img, prim, vm, Turns(g.p, c));
    match Step(g.p, prim, StaleFor(g.p, c, vm.rs, vm.rp), c)
    case Next(c') => if v.Next? then Some((c', v.s)) else None
    case Yield(c') => if v.Yield? then Some((HostedCpu(c', host), HostedVm(v.s, host))) else None
    case _ => None
  }

  /** For given host functions, one for each opcode: these, with the new locals that the interpreter's memory
      supplies at each opcode. */
  function Choices<E>(g: Gen, img: Image, prim: Prim<E>, hosts: seq<E -> E>, c: Cpu<E>, vm: VM<E>): (cs: seq<Choice<E>>)
    ensures |cs| == |hosts| && forall i :: 0 <= i < |hosts| ==> cs[i].host == hosts[i]
    decreases |hosts|
  {
    if hosts == [] then []
    else
      var stale := StaleFor(g.p, c, vm.rs, vm.rp);
      [Choice(stale, hosts[0])]
      + match Onward(g, img, prim, hosts[0], c, vm)
        case Some(next) => Choices(g, img, prim, hosts[1..], next.0, next.1)
        case None => AnyChoices(stale, hosts[1..])
  }

  /** The same host functions, each repeated for all dispatches of its opcode. */
  function Dispatches<E>(g: Gen, img: Image, prim: Prim<E>, hosts: seq<E -> E>, c: Cpu<E>, vm: VM<E>): (ds: seq<E -> E>)
    ensures |hosts| <= |ds|
    decreases |hosts|
  {
    if hosts == [] then []
    else
      Repeat(hosts[0], Turns(g.p, c))
      + match Onward(g, img, prim, hosts[0], c, vm)
        case Some(next) => Dispatches(g, img, prim, hosts[1..], next.0, next.1)
        case None => hosts[1..]
  }

  lemma RunFirst<E>(p: Program, prim: Prim<E>, choice: Choice<E>, more: seq<Choice<E>>, c: Cpu<E>)
    ensures Run(p, prim, [choice] + more, c) == RunOn(p, prim, choice.host, more, Step(p, prim, choice.stale, c))
  {
    hide Step;
    assert ([choice] + more)[1..] == more;
  }

  /** Code generation preserves meaning over whole runs: the interpreter follows the opcode machine for as
      many opcodes as wanted, for the same host behaviour and the new locals its own memory supplies. */
  lemma {:induction false} SimRun<E(!new)>(g: Gen, img: Image, prim: Prim<E>, hosts: seq<E -> E>, c: Cpu<E>, vm: VM<E>)
    requires g.Shape() && g.Describes(img) && Matches(g, c, vm)
    requires Safe(g.p, prim, c, img.dataSize, |vm.rs|, |hosts|)
    ensures Corresponds(g, Run(g.p, prim, Choices(g, img, prim, hosts, c, vm), c),
                        RunVM(img, prim, Dispatches(g, img, prim, hosts, c, vm), vm))
    decreases |hosts|
  {
    hide Dispatch, Step, Gen.Shape, Gen.Describes, FramesMatch, Turns, StaleFor, VmStep, Repeat, AnyChoices;
    if hosts != [] {
      SafeLess(g.p, prim, c, img.dataSize, |vm.rs|, |hosts|, 1);
      SimStep(g, img, prim, c, vm);
      var stale := StaleFor(g.p, c, vm.rs, vm.rp);
      var r := Step(g.p, prim, stale, c);
      var turns := Turns(g.p, c);
      assert SafeAfter(g.p, prim, r, img.dataSize, |vm.rs|, |hosts| - 1);
      RetSizeKept(img, prim, vm, turns);
      OneTurn(g.p, c);
      hide Safe, Choices, Dispatches;
      var next := Onward(g, img, prim, hosts[0], c, vm);
      if next.Some? {
        SimRun(g, img, prim, hosts[1..], next.value.0, next.value.1);
        Unfolded(g, img, prim, hosts, c, vm, Choices(g, img, prim, hosts[1..], next.value.0, next.value.1),
                 Dispatches(g, img, prim, hosts[1..], next.value.0, next.value.1));
      } else {
        Unfolded(g, img, prim, hosts, c, vm, AnyChoices(stale, hosts[1..]), hosts[1..]);
      }
    } else {
      NoOpcode(g, img, prim, c, vm);
    }
  }

  lemma OneTurn<E>(p: Program, c: Cpu<E>)
    ensures Turns(p, c) >= 1
  {
  }

  lemma NoOpcode<E>(g: Gen, img: Image, prim: Prim<E>, c: Cpu<E>, vm: VM<E>)
    ensures Choices(g, img, prim, [], c, vm) == [] && Dispatches(g, img, prim, [], c, vm) == []
  {
  }

  /** Both runs, over their first opcode. */
  lemma Unfolded<E>(g: Gen, img: Image, prim: Prim<E>, hosts: seq<E -> E>, c: Cpu<E>, vm: VM<E>, choices: seq<Choice<E>>, dispatches: seq<E -> E>)
    requires hosts != [] && !VmStep(img, prim, vm, Turns(g.p, c)).Wrong?
    requires match Onward(g, img, prim, hosts[0], c, vm)
             case Some(next) => choices == Choices(g, img, prim, hosts[1..], next.0, next.1)
                                && dispatches == Dispatches(g, img, prim, hosts[1..], next.0, next.1)
             case None => choices == AnyChoices(StaleFor(g.p, c, vm.rs, vm.rp), hosts[1..]) && dispatches == hosts[1..]
    ensures Run(g.p, prim, Choices(g, img, prim, hosts, c, vm), c)
         == RunOn(g.p, prim, hosts[0], choices, Step(g.p, prim, StaleFor(g.p, c, vm.rs, vm.rp), c))
    ensures RunVM(img, prim, Dispatches(g, img, prim, hosts, c, vm), vm)
         == RunVmOn(img, prim, hosts[0], dispatches, VmStep(img, prim, vm, Turns(g.p, c)))
  {
    hide Step, VmStep, StaleFor, Repeat, AnyChoices, Onward, Run, RunVM;
    RunTurns(img, prim, hosts[0], Turns(g.p, c), dispatches, vm);
    RunFirst(g.p, prim, Choice(StaleFor(g.p, c, vm.rs, vm.rp), hosts[0]), choices, c);
  }

  lemma {:induction false} SafeLess<E(!new)>(p: Program, prim: Prim<E>, c: Cpu<E>, dataSize: nat, retSize: nat, n: nat, m: nat)
    requires Safe(p, prim, c, dataSize, retSize, n) && m <= n
    ensures Safe(p, prim, c, dataSize, retSize, m)
    decreases m
  {
    hide Step, InBounds;
    if m > 0 {
      forall stale: nat -> Cell
        ensures SafeAfter(p, prim, Step(p, prim, stale, c), dataSize, retSize, m - 1)
      {
        var r := Step(p, prim, stale, c);
        assert SafeAfter(p, prim, r, dataSize, retSize, n - 1);
        match r
        case Next(c') => SafeLess(p, prim, c', dataSize, retSize, n - 1, m - 1);
        case Yield(c') =>
          forall env: E
            ensures Safe(p, prim, c'.(env := env), dataSize, retSize, m - 1)
          {
            SafeLess(p, prim, c'.(env := env), dataSize, retSize, n - 1, m - 1);
          }
        case _ =>
      }
    }
  }

  /** Two ways a run can end for good. */
  predicate SameEnd<E(==)>(r: Result<Cpu<E>>, v: Result<VM<E>>) {
    match v
    case Exit(vm) => r.Exit? && r.s.stack == vm.ds && r.s.env == vm.env
    case Halt(vm) => r.Halt? && r.s.env == vm.env
    case _ => true
  }

  /** The opcode machine's part of a given run of the interpreter: for each opcode the host function of its last
      dispatch, the only one that can suspend the machine, and the new locals found in memory. */
  function OpcodeChoices<E>(g: Gen, img: Image, prim: Prim<E>, hosts: seq<E -> E>, c: Cpu<E>, vm: VM<E>): (cs: seq<Choice<E>>)
    ensures forall i :: 0 <= i < |cs| ==> cs[i].host in hosts
    decreases |hosts|
  {
    var turns := Turns(g.p, c);
    if turns > |hosts| then []
    else
      var host := hosts[turns - 1];
      [Choice(StaleFor(g.p, c, vm.rs, vm.rp), host)]
      + match Onward(g, img, prim, host, c, vm)
        case Some(next) => OpcodeChoices(g, img, prim, hosts[turns..], next.0, next.1)
        case None => []
  }

  /** An interpreter started on a safe program never touches anything outside its arrays, however long it
      runs and whatever its host does between suspensions; and if it ends, then the run of the opcode machine
      with the same host behaviour and the same memory ends in the same way. */
  lemma {:induction false} VmNeverWrong<E(!new)>(g: Gen, img: Image, prim: Prim<E>, hosts: seq<E -> E>, c: Cpu<E>, vm: VM<E>)
    requires g.Shape() && g.Describes(img) && Matches(g, c, vm)
    requires Safe(g.p, prim, c, img.dataSize, |vm.rs|, |hosts|)
    ensures !RunVM(img, prim, hosts, vm).Wrong?
    ensures SameEnd(Run(g.p, prim, OpcodeChoices(g, img, prim, hosts, c, vm), c), RunVM(img, prim, hosts, vm))
    decreases |hosts|
  {
    hide Dispatch, Step, Gen.Shape, Gen.Describes, FramesMatch, StaleFor, VmStep;
    if hosts != [] {
      SafeLess(g.p, prim, c, img.dataSize, |vm.rs|, |hosts|, 1);
      SimStep(g, img, prim, c, vm);
      var stale := StaleFor(g.p, c, vm.rs, vm.rp);
      var r := Step(g.p, prim, stale, c);
      assert SafeAfter(g.p, prim, r, img.dataSize, |vm.rs|, |hosts| - 1);
      var turns := Turns(g.p, c);
      var v := VmStep(img, prim, vm, turns);
      RetSizeKept(img, prim, vm, turns);
      if turns > |hosts| {
        FewTurns(img, prim, hosts, vm, turns);
      } else {
        var host, rest := hosts[turns - 1], hosts[turns..];
        TurnsThenRest(img, prim, hosts, vm, turns);
        match r {
          case Next(c') =>
            SafeLess(g.p, prim, c', img.dataSize, |vm.rs|, |hosts| - 1, |rest|);
            VmNeverWrong(g, img, prim, rest, c', v.s);
          case Yield(c') =>
            SafeLess(g.p, prim, c'.(env := host(c'.env)), img.dataSize, |vm.rs|, |hosts| - 1, |rest|);
            VmNeverWrong(g, img, prim, rest, c'.(env := host(c'.env)), v.s.(env := host(v.s.env)));
          case _ =>
        }
        var choices := OpcodeChoices(g, img, prim, hosts, c, vm);
        assert choices[0] == Choice(stale, host);
      }
    }
  }

  lemma {:induction false} FewTurns<E>(img: Image, prim: Prim<E>, hosts: seq<E -> E>, vm: VM<E>, turns: nat)
    requires |hosts| < turns && !VmStep(img, prim, vm, turns).Wrong?
    ensures RunVM(img, prim, hosts, vm).Next?
    decreases turns
  {
    hide Dispatch;
    if hosts != [] {
      FewTurns(img, prim, hosts[1..], Dispatch(img, prim, vm).s, turns - 1);
    }
  }

  lemma {:induction false} TurnsThenRest<E>(img: Image, prim: Prim<E>, hosts: seq<E -> E>, vm: VM<E>, turns: nat)
    requires 1 <= turns <= |hosts| && !VmStep(img, prim, vm, turns).Wrong?
    ensures RunVM(img, prim, hosts, vm)
         == match VmStep(img, prim, vm, turns)
            case Next(v) => RunVM(img, prim, hosts[turns..], v)
            case Yield(v) => RunVM(img, prim, hosts[turns..], v.(env := hosts[turns - 1](v.env)))
            case r => r
    decreases turns
  {
    hide Dispatch;
    if turns > 1 {
      TurnsThenRest(img, prim, hosts[1..], Dispatch(img, prim, vm).s, turns - 1);
      assert hosts[1..][turns - 1..] == hosts[turns..];
    }
  }

  /** The entry stub (T0_DEFENTRY) starts the interpreter in the state that matches the outermost call. */
  lemma BootMatches<E>(g: Gen, img: Image, w: nat, ds: seq<Cell>, rs: seq<u32>, env: E)
    requires g.Shape() && g.Describes(img) && IsCode(g.p, w) && NumLocals(g.p, w) < |rs|
    ensures |g.slots| == |g.p| && g.slots[w] >= img.interpreted
    ensures var b := Boot(img, g.slots[w], ds, rs, env);
            b.Next? && |b.s.rs| == |rs|
            && Matches(g, Start(g.p, StaleAt(rs, 0, NumLocals(g.p, w)), w, ds, env), b.s)
  {
    hide FramesMatch, Addr, Gen.Code, Gen.WordsLaid, SelfConsistent, EnterSlot;
    var n := NumLocals(g.p, w);
    FewLocals(g, img, w);
    Entered(g, img, VM(0, ds, 0, rs, env), w, n);
    NoFrames(g, rs);
    FramePushed(g, [], rs, 0, None, n);
    assert [] + [Frame(None, NewLocals(StaleAt(rs, 0, n), n))] == [Frame(None, NewLocals(StaleAt(rs, 0, n), n))];
  }

  lemma NoFrames(g: Gen, rs: seq<u32>)
    requires g.Shape()
    ensures FramesMatch(g, [], rs, 0)
  {
  }
}
