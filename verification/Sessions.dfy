/** Driving the PEM decoder: any way of cutting the input into pushes gives the same events, stacks and output. */
module Sessions {
  import opened Bytes
  import opened SevenBit
  import opened Machine
  import opened ByteVM
  import opened Coroutine
  import Simulation

  // ----- the driver -----

  /** A decoder, the events read from it so far, and the input still to be pushed, in chunks. */
  datatype Session<X> = Session(vm: VM<Env<X>>, events: seq<byte>, later: seq<seq<byte>>)

  /** How a session stops: waiting with no input left; returned; failed; or undisciplined, that is, reading
      input elsewhere than in the word read8, or while an event has not been read. */
  datatype End<X> = Idle(s: Session<X>) | Returned(s: Session<X>) | Failed | Stray

  datatype Progress<X> = Go(s: Session<X>) | Stop(end: End<X>)

  function Flatten(chunks: seq<seq<byte>>): (s: seq<byte>) {
    if chunks == [] then [] else chunks[0] + Flatten(chunks[1..])
  }

  /** The same session with all its input in one piece. */
  function Whole<X>(s: Session<X>): Session<X> {
    s.(vm := s.vm.(env := s.vm.env.(input := s.vm.env.input + Flatten(s.later))), later := [])
  }

  /** The decoder has suspended itself, so push returns: the event, if there is one, is read; then the unconsumed
      tail is pushed again, or else the next chunk. */
  function Resume<X>(s: Session<X>): Progress<X> {
    var env := s.vm.env;
    var s1 := if env.event == 0 then s
              else s.(events := s.events + [env.event], vm := s.vm.(env := env.(event := 0)));
    if env.input != [] then Go(s1)
    else if s.later == [] then Stop(Idle(s1))
    else Go(s1.(vm := s1.vm.(env := s1.vm.env.(input := s.later[0])), later := s.later[1..]))
  }

  /** One turn of the interpreter, and of the driver if it has returned. `r` is the address of read8's loop. */
  function Turn<X>(img: Image, other: Other<X>, r: nat, s: Session<X>): Progress<X> {
    var f := Fetch(img, s.vm.ip);
    if f.Parsed? && f.value == READ8_NATIVE && (s.vm.ip != r || s.vm.env.event != 0) then Stop(Stray)
    else
      match Dispatch(img, PemPrim(other), s.vm)
      case Next(vm) => Go(s.(vm := vm))
      case Yield(vm) => Resume(s.(vm := vm))
      case Exit(vm) => Stop(Returned(Whole(s.(vm := vm))))
      case _ => Stop(Failed)
  }

  function Drive<X>(img: Image, other: Other<X>, r: nat, n: nat, s: Session<X>): Progress<X>
    decreases n
  {
    if n == 0 then Go(s)
    else
      match Turn(img, other, r, s)
      case Go(s') => Drive(img, other, r, n - 1, s')
      case stop => stop
  }

  // ----- the generated code of read8 -----

  const READ8_NATIVE := 25

  /** The byte code of read8 from its second byte on, as in pemdec.c: read8-native dup 0< ifnot ret, drop co, again;
      and of 0<, behind its header: 0 < ret. */
  const READ8_LOOP: seq<byte> := [0x19, 0x14, 0x1D, 0x05, 0x01, 0x00, 0x13, 0x11, 0x04, 0x76]
  const ZERO_LESS: seq<byte> := [0x00, 0x01, 0x00, 0x09, 0x00]

  predicate HasRead8(img: Image, r: nat) {
    img.oneByte && img.interpreted == 29 && 0 < r && r + 10 < 0x1_0000
    && |img.caddr| > 0 && At(img.code, r, READ8_LOOP) && At(img.code, img.caddr[0], ZERO_LESS)
    && 9 in img.snippets && img.snippets[9] == "<"
    && 17 in img.snippets && img.snippets[17] == "co"
    && 19 in img.snippets && img.snippets[19] == "drop"
    && 20 in img.snippets && img.snippets[20] == "dup"
    && 25 in img.snippets && img.snippets[25] == "read8-native"
    && (forall k :: k in img.snippets && img.snippets[k] == "read8-native" ==> k == 25)
  }

  /** Room for the three elements and the one return address that read8 needs. */
  predicate Room<X>(img: Image, vm: VM<Env<X>>) {
    |vm.ds| + 3 <= img.dataSize && vm.rp < |vm.rs|
  }

  lemma CodeByte(code: seq<byte>, p: nat, bytes: seq<byte>, k: nat)
    requires At(code, p, bytes) && k < |bytes|
    ensures p + k < |code| && code[p + k] == bytes[k]
  {
    assert code[p..p + |bytes|][k] == code[p + k];
  }

  /** The loop, byte by byte. */
  lemma Read8Bytes(img: Image, r: nat)
    requires HasRead8(img, r)
    ensures img.oneByte && 0 < r && r + 10 < 0x1_0000 && |img.caddr| > 0
    ensures r + 10 <= |img.code| && img.caddr[0] + 5 <= |img.code|
    ensures img.code[r] == 0x19 && img.code[r + 1] == 0x14 && img.code[r + 2] == 0x1D && img.code[r + 3] == 0x05
    ensures img.code[r + 4] == 0x01 && img.code[r + 6] == 0x13 && img.code[r + 7] == 0x11
    ensures img.code[r + 8] == 0x04 && img.code[r + 9] == 0x76
    ensures var z := img.caddr[0];
            img.code[z] == 0 && img.code[z + 1] == 0x01 && img.code[z + 2] == 0 && img.code[z + 3] == 0x09 && img.code[z + 4] == 0
  {
    forall k | 0 <= k < 10
      ensures r + k < |img.code| && img.code[r + k] == READ8_LOOP[k]
    {
      CodeByte(img.code, r, READ8_LOOP, k);
    }
    assert r + 9 < |img.code| && img.code[r + 9] == READ8_LOOP[9];
    var z := img.caddr[0];
    forall k | 0 <= k < 5
      ensures z + k < |img.code| && img.code[z + k] == ZERO_LESS[k]
    {
      CodeByte(img.code, z, ZERO_LESS, k);
    }
    assert z + 4 < |img.code| && img.code[z + 4] == ZERO_LESS[4];
  }

  lemma FetchByte(img: Image, ip: nat)
    ensures img.oneByte && ip < |img.code| ==> Fetch(img, ip) == Parsed(img.code[ip], ip + 1)
  {
  }

  /** Which snippet a dispatch runs. */
  lemma RunsSnippet<X>(img: Image, other: Other<X>, vm: VM<Env<X>>, slot: nat, ccode: string)
    requires img.oneByte && vm.ip < |img.code| && img.code[vm.ip] == slot && 7 <= slot < img.interpreted
    requires slot in img.snippets && img.snippets[slot] == ccode
    ensures Dispatch(img, PemPrim(other), vm)
         == match Snippet(other, ccode, vm.ds, vm.env)
            case PrimWrong => Result.Wrong
            case PrimHalt(env) => Halt(vm.(ip := vm.ip + 1, env := env))
            case PrimOk(stack, env, suspends) =>
              if |stack| > img.dataSize then Result.Wrong
              else if suspends then Yield(vm.(ip := vm.ip + 1, ds := stack, env := env))
              else Next(vm.(ip := vm.ip + 1, ds := stack, env := env))
  {
    hide Snippet, Dispatch;
    FetchByte(img, vm.ip);
    Simulation.Handler(img, PemPrim(other), vm, slot, vm.ip + 1);
  }

  function SignedByte(y: byte): int {
    var n: int := y;
    if n < 0x40 then n else n - 0x80
  }

  lemma OneByteNumbers(code: seq<byte>, p: nat)
    requires p < |code| && code[p] < 0x80
    ensures DecU(code, p) == Parsed(code[p], p + 1)
    ensures DecS(code, p) == Parsed(SignedByte(code[p]), p + 1)
  {
    hide Push7, Scan, SignFill, ToI32;
    ScanLast(code, p, 0);
    ScanLast(code, p, SignFill(code[p]));
    SmallPush(code[p]);
  }

  lemma SmallPush(y: byte)
    requires y < 0x80
    ensures Push7(0, y) == y && ToI32(Push7(SignFill(y), y)) == SignedByte(y)
  {
    if y >= 0x40 {
      assert SignFill(y) == 0xFFFF_FFFF;
      var n: int := y;
      assert 0xFFFF_FFFF * 128 + n % 128 == 0x1_0000_0000 * 127 + (0xFFFF_FF80 + n);
      assert Push7(0xFFFF_FFFF, y) == 0xFFFF_FF80 + n;
    } else {
      assert SignFill(y) == 0;
    }
  }

  function AfterRead<X>(img: Image, vm: VM<Env<X>>): Result<VM<Env<X>>> {
    if |vm.ds| >= img.dataSize then Wrong
    else if vm.env.input == [] then Next(vm.(ip := vm.ip + 1, ds := vm.ds + [MINUS_ONE]))
    else Next(vm.(ip := vm.ip + 1, ds := vm.ds + [vm.env.input[0]], env := vm.env.(input := vm.env.input[1..])))
  }

  function AfterDup<X>(img: Image, vm: VM<Env<X>>): Result<VM<Env<X>>> {
    if vm.ds == [] || |vm.ds| >= img.dataSize then Wrong
    else Next(vm.(ip := vm.ip + 1, ds := vm.ds + [Top(vm.ds)]))
  }

  function AfterEnter<X>(img: Image, vm: VM<Env<X>>): Result<VM<Env<X>>>
    requires |img.caddr| > 0 && vm.ip + 1 < 0x1_0000
  {
    if vm.rp >= |vm.rs| then Wrong
    else Next(vm.(ip := img.caddr[0] + 1, rp := vm.rp + 1, rs := vm.rs[vm.rp := vm.ip + 1]))
  }

  /** Reads a byte, or finds none; duplicates it; enters 0<. */
  lemma ReadAndTest<X>(img: Image, other: Other<X>, r: nat, vm: VM<Env<X>>)
    requires HasRead8(img, r)
    ensures vm.ip == r ==> Dispatch(img, PemPrim(other), vm) == AfterRead(img, vm)
    ensures vm.ip == r + 1 ==> Dispatch(img, PemPrim(other), vm) == AfterDup(img, vm)
    ensures vm.ip == r + 2 ==> Dispatch(img, PemPrim(other), vm) == AfterEnter(img, vm)
  {
    hide Scan, Push7, Dispatch, DecU, DecS, Fetch, At;
    Read8Bytes(img, r);
    FetchByte(img, vm.ip);
    if vm.ip == r {
      RunsSnippet(img, other, vm, 25, "read8-native");
    } else if vm.ip == r + 1 {
      RunsSnippet(img, other, vm, 20, "dup");
    } else if vm.ip == r + 2 {
      Simulation.Handler(img, PemPrim(other), vm, 29, r + 3);
      OneByteNumbers(img.code, img.caddr[0]);
    }
  }

  /** Inside 0<: push 0, compare, return to the byte after the call. */
  lemma TestZero<X>(img: Image, other: Other<X>, r: nat, vm: VM<Env<X>>)
    requires HasRead8(img, r)
    ensures var z := img.caddr[0];
      && (vm.ip == z + 1 && |vm.ds| < img.dataSize ==> Dispatch(img, PemPrim(other), vm) == Next(vm.(ip := z + 3, ds := vm.ds + [0])))
      && (vm.ip == z + 1 && |vm.ds| >= img.dataSize ==> Dispatch(img, PemPrim(other), vm) == Result.Wrong)
      && (vm.ip == z + 3 && 2 <= |vm.ds| <= img.dataSize + 1 ==>
            Dispatch(img, PemPrim(other), vm)
            == Next(vm.(ip := z + 4, ds := vm.ds[..|vm.ds| - 2] + [Flag(ToI32(vm.ds[|vm.ds| - 2]) < ToI32(Top(vm.ds)))])))
      && (vm.ip == z + 4 && 0 < vm.rp <= |vm.rs| && vm.rs[vm.rp - 1] == r + 3 ==>
            Dispatch(img, PemPrim(other), vm) == Next(vm.(ip := r + 3, rp := vm.rp - 1)))
  {
    hide Scan, Push7, ToI32, Dispatch, DecU, DecS, Fetch, At;
    Read8Bytes(img, r);
    FetchByte(img, vm.ip);
    var z := img.caddr[0];
    if vm.ip == z + 1 {
      Simulation.Handler(img, PemPrim(other), vm, 1, z + 2);
      OneByteNumbers(img.code, z + 2);
    } else if vm.ip == z + 3 && |vm.ds| >= 2 {
      RunsSnippet(img, other, vm, 9, "<");
    } else if vm.ip == z + 4 {
      Simulation.Handler(img, PemPrim(other), vm, 0, z + 5);
    }
  }

  /** Nothing was there: over the ret, drop, suspend, and back to the start of the loop. */
  lemma TryAgain<X>(img: Image, other: Other<X>, r: nat, vm: VM<Env<X>>)
    requires HasRead8(img, r)
    ensures vm.ip == r + 3 && vm.ds != [] && Top(vm.ds) != 0 ==>
      Dispatch(img, PemPrim(other), vm) == Next(vm.(ip := r + 6, ds := Pop(vm.ds)))
    ensures vm.ip == r + 6 && 0 < |vm.ds| <= img.dataSize ==>
      Dispatch(img, PemPrim(other), vm) == Next(vm.(ip := r + 7, ds := Pop(vm.ds)))
    ensures vm.ip == r + 7 && |vm.ds| <= img.dataSize ==>
      Dispatch(img, PemPrim(other), vm) == Yield(vm.(ip := r + 8))
    ensures vm.ip == r + 8 ==> Dispatch(img, PemPrim(other), vm) == Next(vm.(ip := r))
  {
    hide Scan, Push7, Dispatch, DecU, DecS, Fetch, At;
    Read8Bytes(img, r);
    FetchByte(img, vm.ip);
    if vm.ip == r + 3 {
      Simulation.Handler(img, PemPrim(other), vm, 5, r + 4);
      OneByteNumbers(img.code, r + 4);
    } else if vm.ip == r + 6 && vm.ds != [] {
      RunsSnippet(img, other, vm, 19, "drop");
    } else if vm.ip == r + 7 {
      RunsSnippet(img, other, vm, 17, "co");
    } else if vm.ip == r + 8 {
      Simulation.Handler(img, PemPrim(other), vm, 4, r + 9);
      OneByteNumbers(img.code, r + 9);
    }
  }

  // ----- waiting for input inside read8 -----

  lemma TurnIs<X>(img: Image, other: Other<X>, r: nat, s: Session<X>, vm: VM<Env<X>>)
    requires img.oneByte && s.vm.ip < |img.code| && (img.code[s.vm.ip] != READ8_NATIVE || (s.vm.ip == r && s.vm.env.event == 0))
    ensures Dispatch(img, PemPrim(other), s.vm) == Next(vm) ==> Turn(img, other, r, s) == Go(s.(vm := vm))
    ensures Dispatch(img, PemPrim(other), s.vm) == Yield(vm) ==> Turn(img, other, r, s) == Resume(s.(vm := vm))
    ensures Dispatch(img, PemPrim(other), s.vm) == Result.Wrong ==> Turn(img, other, r, s) == Stop(Failed)
  {
    hide Dispatch;
  }

  lemma {:induction false} DriveAdd<X>(img: Image, other: Other<X>, r: nat, n: nat, m: nat, s: Session<X>, s': Session<X>)
    requires Drive(img, other, r, n, s) == Go(s')
    ensures Drive(img, other, r, n + m, s) == Drive(img, other, r, m, s')
    decreases n
  {
    hide Turn;
    if n > 0 {
      DriveAdd(img, other, r, n - 1, m, Turn(img, other, r, s).s, s');
    }
  }

  lemma DriveOne<X>(img: Image, other: Other<X>, r: nat, s: Session<X>)
    ensures Drive(img, other, r, 1, s) == Turn(img, other, r, s)
  {
    hide Turn;
    match Turn(img, other, r, s)
    case Go(s') => assert Drive(img, other, r, 0, s') == Go(s');
    case _ =>
  }

  lemma DriveMore<X>(img: Image, other: Other<X>, r: nat, n: nat, s: Session<X>, s1: Session<X>, s2: Session<X>)
    requires Drive(img, other, r, n, s) == Go(s1) && Turn(img, other, r, s1) == Go(s2)
    ensures Drive(img, other, r, n + 1, s) == Go(s2)
  {
    hide Turn, Drive;
    DriveAdd(img, other, r, n, 1, s, s1);
    DriveOne(img, other, r, s1);
  }

  function At3<X>(s: Session<X>, ip: nat, ds: seq<Cell>): Session<X> {
    s.(vm := s.vm.(ip := ip, ds := ds))
  }

  /** The return stack after 0< was called from read8: one stale slot above the top. */
  function Touched<X>(vm: VM<Env<X>>, r: nat): (rs: seq<u32>)
    requires vm.rp < |vm.rs| && r + 3 < 0x1_0000
  {
    vm.rs[vm.rp := r + 3]
  }

  /** Finding nothing to read: from the start of the loop to the suspension in seven turns. */
  lemma FindsNothing<X>(img: Image, other: Other<X>, r: nat, s: Session<X>)
    requires HasRead8(img, r) && s.vm.ip == r && Room(img, s.vm) && s.vm.env.input == [] && s.vm.env.event == 0
    ensures Drive(img, other, r, 6, s) == Go(At3(s, r + 3, s.vm.ds + [MINUS_ONE, MINUS_ONE]).(vm := At3(s, r + 3, s.vm.ds + [MINUS_ONE, MINUS_ONE]).vm.(rs := Touched(s.vm, r))))
  {
    hide Dispatch, Turn, Drive, HasRead8, Fetch;
    Read8Bytes(img, r);
    var z := img.caddr[0];
    var ds := s.vm.ds;
    var s0 := s;
    var s1 := At3(s, r + 1, ds + [MINUS_ONE]);
    var s2 := At3(s, r + 2, ds + [MINUS_ONE, MINUS_ONE]);
    assert s1.vm.ds + [Top(s1.vm.ds)] == s2.vm.ds;
    var inside := s.(vm := s.vm.(rp := s.vm.rp + 1, rs := Touched(s.vm, r)));
    var s3 := At3(inside, z + 1, ds + [MINUS_ONE, MINUS_ONE]);
    var s4 := At3(inside, z + 3, ds + [MINUS_ONE, MINUS_ONE] + [0]);
    var s5 := At3(inside, z + 4, ds + [MINUS_ONE, MINUS_ONE]);
    assert s4.vm.ds[..|s4.vm.ds| - 2] + [MINUS_ONE] == s5.vm.ds;
    var s6 := At3(s, r + 3, ds + [MINUS_ONE, MINUS_ONE]).(vm := At3(s, r + 3, ds + [MINUS_ONE, MINUS_ONE]).vm.(rs := Touched(s.vm, r)));
    ReadAndTest(img, other, r, s0.vm);
    ReadAndTest(img, other, r, s1.vm);
    ReadAndTest(img, other, r, s2.vm);
    TestZero(img, other, r, s3.vm);
    TestZero(img, other, r, s4.vm);
    TestZero(img, other, r, s5.vm);
    TurnIs(img, other, r, s0, s1.vm);
    TurnIs(img, other, r, s1, s2.vm);
    TurnIs(img, other, r, s2, s3.vm);
    TurnIs(img, other, r, s3, s4.vm);
    TurnIs(img, other, r, s4, s5.vm);
    TurnIs(img, other, r, s5, s6.vm);
    DriveOne(img, other, r, s0);
    DriveMore(img, other, r, 1, s, s1, s2);
    DriveMore(img, other, r, 2, s, s2, s3);
    DriveMore(img, other, r, 3, s, s3, s4);
    DriveMore(img, other, r, 4, s, s4, s5);
    DriveMore(img, other, r, 5, s, s5, s6);
  }

  /** From there: over the ret, drop, suspend; the driver has another chunk; back to the start of the loop. */
  lemma GetsMore<X>(img: Image, other: Other<X>, r: nat, s: Session<X>, ds: seq<Cell>)
    requires HasRead8(img, r) && s.vm.ip == r + 3 && s.vm.ds == ds + [MINUS_ONE, MINUS_ONE] && |ds| + 3 <= img.dataSize
    requires s.vm.env.input == [] && s.vm.env.event == 0 && s.later != []
    ensures Drive(img, other, r, 4, s)
         == Go(s.(vm := s.vm.(ip := r, ds := ds, env := s.vm.env.(input := s.later[0])), later := s.later[1..]))
  {
    hide Dispatch, Turn, Drive, HasRead8, Fetch;
    Read8Bytes(img, r);
    var s1 := At3(s, r + 6, ds + [MINUS_ONE]);
    var s2 := At3(s, r + 7, ds);
    var s3 := s.(vm := s.vm.(ip := r + 8, ds := ds, env := s.vm.env.(input := s.later[0])), later := s.later[1..]);
    var s4 := s3.(vm := s3.vm.(ip := r));
    assert Pop(s.vm.ds) == s1.vm.ds && Pop(s1.vm.ds) == ds;
    TryAgain(img, other, r, s.vm);
    TryAgain(img, other, r, s1.vm);
    TryAgain(img, other, r, s2.vm);
    TryAgain(img, other, r, s3.vm);
    TurnIs(img, other, r, s, s1.vm);
    TurnIs(img, other, r, s1, s2.vm);
    TurnIs(img, other, r, s2, s2.vm.(ip := r + 8));
    TurnIs(img, other, r, s3, s4.vm);
    DriveOne(img, other, r, s);
    DriveMore(img, other, r, 1, s, s1, s2);
    DriveMore(img, other, r, 2, s, s2, s3);
    DriveMore(img, other, r, 3, s, s3, s4);
  }

  /** The session after read8 has waited for the next chunk. */
  function Waited<X>(s: Session<X>, r: nat): Session<X>
    requires s.vm.rp < |s.vm.rs| && r + 3 < 0x1_0000 && s.later != []
  {
    s.(vm := s.vm.(rs := Touched(s.vm, r), env := s.vm.env.(input := s.later[0])), later := s.later[1..])
  }

  lemma Waits<X>(img: Image, other: Other<X>, r: nat, s: Session<X>)
    requires HasRead8(img, r) && s.vm.ip == r && Room(img, s.vm) && s.vm.env.input == [] && s.vm.env.event == 0 && s.later != []
    ensures r + 3 < 0x1_0000 && Drive(img, other, r, 10, s) == Go(Waited(s, r))
  {
    hide Drive;
    FindsNothing(img, other, r, s);
    var mid := At3(s, r + 3, s.vm.ds + [MINUS_ONE, MINUS_ONE]).(vm := At3(s, r + 3, s.vm.ds + [MINUS_ONE, MINUS_ONE]).vm.(rs := Touched(s.vm, r)));
    GetsMore(img, other, r, mid, s.vm.ds);
    DriveAdd(img, other, r, 6, 4, s, mid);
  }

  // ----- two sessions over the same input, cut differently -----

  function WithInput<X>(vm: VM<Env<X>>, i: seq<byte>): VM<Env<X>> {
    vm.(env := vm.env.(input := i))
  }

  function ResultWithInput<X>(r: Result<VM<Env<X>>>, i: seq<byte>): Result<VM<Env<X>>> {
    match r
    case Next(vm) => Next(WithInput(vm, i))
    case Yield(vm) => Yield(WithInput(vm, i))
    case Exit(vm) => Exit(WithInput(vm, i))
    case Halt(vm) => Halt(WithInput(vm, i))
    case Wrong => Wrong
  }

  /** Apart from read8-native nothing depends on the input. */
  lemma OtherInput<X>(img: Image, other: Other<X>, r: nat, vm: VM<Env<X>>, i: seq<byte>)
    requires HasRead8(img, r) && (Fetch(img, vm.ip).Parsed? ==> Fetch(img, vm.ip).value != READ8_NATIVE)
    ensures Dispatch(img, PemPrim(other), WithInput(vm, i)) == ResultWithInput(Dispatch(img, PemPrim(other), vm), i)
  {
    hide DecU, DecS, Write8, FlushBuf, ToI32, At;
    var f := Fetch(img, vm.ip);
    if f.Parsed? {
      Simulation.Handler(img, PemPrim(other), vm, f.value, f.next);
      Simulation.Handler(img, PemPrim(other), WithInput(vm, i), f.value, f.next);
      if 7 <= f.value < img.interpreted && f.value in img.snippets {
        hide Dispatch;
        SnippetInput(other, img.snippets[f.value], vm.ds, vm.env, i);
      }
    }
  }

  lemma SnippetInput<X>(other: Other<X>, ccode: string, stack: seq<Cell>, env: Env<X>, i: seq<byte>)
    requires ccode != "read8-native"
    ensures Snippet(other, ccode, stack, env.(input := i))
         == match Snippet(other, ccode, stack, env)
            case PrimWrong => PrimWrong
            case PrimHalt(e) => PrimHalt(e.(input := i))
            case PrimOk(stack', e, suspends) => PrimOk(stack', e.(input := i), suspends)
  {
    hide ToI32;
  }

  predicate NonEmptyChunks(chunks: seq<seq<byte>>) {
    forall i :: 0 <= i < |chunks| ==> chunks[i] != []
  }

  /** Equal, but for the one stale slot above the return stack that a wait in read8 leaves; the next successful
      read writes the same there before anybody can look. */
  predicate Alike<X(==)>(a: VM<Env<X>>, b: VM<Env<X>>, r: nat) {
    a == b || (r <= a.ip <= r + 2 && |a.rs| == |b.rs| && a.rp < |a.rs| && b == a.(rs := a.rs[a.rp := b.rs[a.rp]]))
  }

  /** s1 has its input in chunks, s2 has the same input in one piece. */
  predicate SameInput<X(==)>(s1: Session<X>, s2: Session<X>, r: nat) {
    NonEmptyChunks(s1.later) && s2.later == [] && s1.events == s2.events && Alike(Whole(s1).vm, s2.vm, r)
  }

  /** About to read, with nothing there but more to come. */
  predicate Waiting<X>(s: Session<X>, r: nat) {
    s.vm.ip == r && s.vm.env.input == [] && s.later != []
  }

  /** What follows from one turn of each. */
  predicate TurnsAgree<X(==)>(p1: Progress<X>, p2: Progress<X>, r: nat) {
    match p1
    case Go(s1) => p2.Go? && SameInput(s1, p2.s, r)
    case Stop(end) => p2 == Stop(end)
  }

  /** The driver supplies the same bytes. */
  lemma ResumesAgree<X>(s1: Session<X>, s2: Session<X>, r: nat)
    requires NonEmptyChunks(s1.later) && s2 == Whole(s1)
    ensures TurnsAgree(Resume(s1), Resume(s2), r)
  {
    var env := s1.vm.env;
    if env.input == [] && s1.later != [] {
      assert Flatten(s1.later) == s1.later[0] + Flatten(s1.later[1..]);
      assert [] + Flatten(s1.later) == Flatten(s1.later);
    } else if s1.later == [] {
      assert env.input + [] == env.input;
    }
  }

  /** Anywhere but in read8-native: the same step. */
  lemma PlainAgree<X>(img: Image, other: Other<X>, r: nat, s1: Session<X>, s2: Session<X>)
    requires HasRead8(img, r) && NonEmptyChunks(s1.later) && s2 == Whole(s1)
    requires Fetch(img, s1.vm.ip).Parsed? ==> Fetch(img, s1.vm.ip).value != READ8_NATIVE
    ensures TurnsAgree(Turn(img, other, r, s1), Turn(img, other, r, s2), r)
  {
    hide Dispatch, Fetch, HasRead8, Resume, Flatten;
    var i := s2.vm.env.input;
    OtherInput(img, other, r, s1.vm, i);
    assert s2.vm == WithInput(s1.vm, i);
    match Dispatch(img, PemPrim(other), s1.vm)
    case Yield(vm) =>
      InputKept(img, other, r, s1.vm);
      ResumesAgree(s1.(vm := vm), s2.(vm := WithInput(vm, i)), r);
    case Next(vm) => InputKept(img, other, r, s1.vm);
    case Exit(vm) =>
      InputKept(img, other, r, s1.vm);
      assert i + [] == i && Flatten([]) == [] by { NothingLeft(); }
    case _ =>
  }

  lemma NothingLeft()
    ensures Flatten([]) == []
  {
  }

  lemma InputKept<X>(img: Image, other: Other<X>, r: nat, vm: VM<Env<X>>)
    requires HasRead8(img, r) && (Fetch(img, vm.ip).Parsed? ==> Fetch(img, vm.ip).value != READ8_NATIVE)
    ensures match Dispatch(img, PemPrim(other), vm)
            case Wrong => true
            case res => res.s.env.input == vm.env.input
  {
    hide Dispatch, Fetch, HasRead8;
    OtherInput(img, other, r, vm, vm.env.input);
    OtherInput(img, other, r, vm, []);
    OtherInput(img, other, r, WithInput(vm, []), vm.env.input);
    assert WithInput(WithInput(vm, []), vm.env.input) == vm;
  }

  /** In the first three bytes of the loop: the stale slot is not looked at, and the third overwrites it. */
  lemma ReadAgrees<X>(img: Image, other: Other<X>, r: nat, s1: Session<X>, s2: Session<X>)
    requires HasRead8(img, r) && SameInput(s1, s2, r) && !Waiting(s1, r) && r <= s1.vm.ip <= r + 2
    ensures TurnsAgree(Turn(img, other, r, s1), Turn(img, other, r, s2), r)
  {
    hide Dispatch, HasRead8, Resume, Fetch;
    Read8Bytes(img, r);
    FetchByte(img, s1.vm.ip);
    ReadAndTest(img, other, r, s1.vm);
    ReadAndTest(img, other, r, s2.vm);
    if s1.vm.ip == r && s1.vm.env.input != [] {
      var rest := s1.vm.env.input[1..] + Flatten(s1.later);
      assert Whole(s1).vm.env.input[1..] == rest && Whole(s1).vm.env.input[0] == s1.vm.env.input[0];
    } else if s1.vm.ip == r {
      NothingLeft();
      assert Whole(s1).vm.env.input == [];
    }
  }

  /** One turn of each, wherever they are, unless the one in chunks has to wait. */
  lemma TurnsTogether<X>(img: Image, other: Other<X>, r: nat, s1: Session<X>, s2: Session<X>)
    requires HasRead8(img, r) && SameInput(s1, s2, r) && !Waiting(s1, r)
    ensures TurnsAgree(Turn(img, other, r, s1), Turn(img, other, r, s2), r)
  {
    hide Dispatch, HasRead8, Resume, Fetch, Flatten;
    if r <= s1.vm.ip <= r + 2 {
      ReadAgrees(img, other, r, s1, s2);
    } else {
      assert s2 == Whole(s1);
      var f := Fetch(img, s1.vm.ip);
      if !(f.Parsed? && f.value == READ8_NATIVE) {
        PlainAgree(img, other, r, s1, s2);
      }
    }
  }

  /** Without the room that read8 needs, a session fails as soon as it gets there, input or not. */
  lemma NoRoomFails<X>(img: Image, other: Other<X>, r: nat, s: Session<X>) returns (k: nat)
    requires HasRead8(img, r) && s.vm.ip == r && s.vm.env.event == 0 && !Room(img, s.vm)
    ensures Drive(img, other, r, k, s) == Stop(Failed)
  {
    hide Dispatch, Turn, HasRead8, Resume, Fetch;
    Read8Bytes(img, r);
    k := 1;
    ReadAndTest(img, other, r, s.vm);
    TurnIs(img, other, r, s, s.vm);
    DriveOne(img, other, r, s);
    if |s.vm.ds| < img.dataSize {
      var s1 := s.(vm := AfterRead(img, s.vm).s);
      TurnIs(img, other, r, s, s1.vm);
      ReadAndTest(img, other, r, s1.vm);
      TurnIs(img, other, r, s1, s1.vm);
      k := 2;
      if |s1.vm.ds| < img.dataSize {
        var s2 := s1.(vm := AfterDup(img, s1.vm).s);
        TurnIs(img, other, r, s1, s2.vm);
        ReadAndTest(img, other, r, s2.vm);
        TurnIs(img, other, r, s2, s2.vm);
        k := 3;
        if s2.vm.rp < |s2.vm.rs| {
          var s3 := s2.(vm := AfterEnter(img, s2.vm).s);
          TurnIs(img, other, r, s2, s3.vm);
          TestZero(img, other, r, s3.vm);
          TurnIs(img, other, r, s3, s3.vm);
          k := 4;
          FailsAfter(img, other, r, [s, s1, s2, s3]);
        } else {
          FailsAfter(img, other, r, [s, s1, s2]);
        }
      } else {
        FailsAfter(img, other, r, [s, s1]);
      }
    }
  }

  lemma {:induction false} FailsAfter<X>(img: Image, other: Other<X>, r: nat, path: seq<Session<X>>)
    requires path != [] && Turn(img, other, r, path[|path| - 1]) == Stop(Failed)
    requires forall i :: 0 <= i < |path| - 1 ==> Turn(img, other, r, path[i]) == Go(path[i + 1])
    ensures Drive(img, other, r, |path|, path[0]) == Stop(Failed)
    decreases |path|
  {
    hide Turn;
    if |path| > 1 {
      FailsAfter(img, other, r, path[1..]);
    } else {
      DriveOne(img, other, r, path[0]);
    }
  }

  lemma {:induction false} SameStop<X>(img: Image, other: Other<X>, r: nat, n: nat, m: nat, s: Session<X>)
    requires Drive(img, other, r, n, s).Stop? && Drive(img, other, r, m, s).Stop?
    ensures Drive(img, other, r, n, s) == Drive(img, other, r, m, s)
    decreases n
  {
    hide Turn;
    if n > 0 && m > 0 && Turn(img, other, r, s).Go? {
      SameStop(img, other, r, n - 1, m - 1, Turn(img, other, r, s).s);
    }
  }

  lemma {:induction false} StopLater<X>(img: Image, other: Other<X>, r: nat, n: nat, k: nat, s: Session<X>, s': Session<X>)
    requires Drive(img, other, r, n, s).Stop? && Drive(img, other, r, k, s) == Go(s')
    ensures n > k && Drive(img, other, r, n - k, s') == Drive(img, other, r, n, s)
    decreases n
  {
    hide Turn;
    if n > 0 && k > 0 {
      StopLater(img, other, r, n - 1, k - 1, Turn(img, other, r, s).s, s');
    }
  }

  lemma StillSame<X>(s1: Session<X>, s2: Session<X>, r: nat)
    requires SameInput(s1, s2, r) && Waiting(s1, r) && s1.vm.rp < |s1.vm.rs| && r + 3 < 0x1_0000
    ensures SameInput(Waited(s1, r), s2, r)
  {
    assert Flatten(s1.later) == s1.later[0] + Flatten(s1.later[1..]);
    assert [] + Flatten(s1.later) == Flatten(s1.later);
  }

  /** What happens at a wait that is not disciplined, or has no room. */
  lemma WaitStops<X>(img: Image, other: Other<X>, r: nat, s1: Session<X>, s2: Session<X>) returns (n: nat, m: nat, end: End<X>)
    requires HasRead8(img, r) && SameInput(s1, s2, r) && Waiting(s1, r)
    requires s1.vm.env.event != 0 || !Room(img, s1.vm)
    ensures Drive(img, other, r, n, s1) == Stop(end) && Drive(img, other, r, m, s2) == Stop(end)
  {
    hide Dispatch, HasRead8, Resume, Fetch, Flatten;
    Read8Bytes(img, r);
    FetchByte(img, r);
    if s1.vm.env.event != 0 {
      n, m, end := 1, 1, Stray;
      DriveOne(img, other, r, s1);
      DriveOne(img, other, r, s2);
    } else {
      end := Failed;
      n := NoRoomFails(img, other, r, s1);
      m := NoRoomFails(img, other, r, s2);
    }
  }

  /** If the session in chunks stops, the one in one piece stops in the same way. */
  lemma {:induction false} WholeFollows<X>(img: Image, other: Other<X>, r: nat, n: nat, s1: Session<X>, s2: Session<X>) returns (m: nat)
    requires HasRead8(img, r) && SameInput(s1, s2, r) && Drive(img, other, r, n, s1).Stop?
    ensures Drive(img, other, r, m, s2) == Drive(img, other, r, n, s1)
    decreases n
  {
    hide HasRead8, Turn, SameInput, Waiting, Room;
    if Waiting(s1, r) {
      if s1.vm.env.event != 0 || !Room(img, s1.vm) {
        var k, end;
        k, m, end := WaitStops(img, other, r, s1, s2);
        SameStop(img, other, r, n, k, s1);
      } else {
        WaitsOn(img, other, r, s1, s2);
        StopLater(img, other, r, n, 10, s1, Waited(s1, r));
        m := WholeFollows(img, other, r, n - 10, Waited(s1, r), s2);
      }
    } else {
      TurnsTogether(img, other, r, s1, s2);
      match Turn(img, other, r, s1)
      case Go(s1') =>
        var s2' := Turn(img, other, r, s2).s;
        m := WholeFollows(img, other, r, n - 1, s1', s2');
        m := m + 1;
      case Stop(_) =>
        m := 1;
        DriveOne(img, other, r, s2);
    }
  }

  lemma WaitsOn<X>(img: Image, other: Other<X>, r: nat, s1: Session<X>, s2: Session<X>)
    requires HasRead8(img, r) && SameInput(s1, s2, r) && Waiting(s1, r) && s1.vm.env.event == 0 && Room(img, s1.vm)
    ensures r + 3 < 0x1_0000 && s1.vm.rp < |s1.vm.rs| && s1.later != []
    ensures Drive(img, other, r, 10, s1) == Go(Waited(s1, r)) && SameInput(Waited(s1, r), s2, r)
    ensures |Waited(s1, r).later| < |s1.later|
  {
    hide Drive, HasRead8;
    Waits(img, other, r, s1);
    StillSame(s1, s2, r);
  }

  /** And the other way round. */
  lemma {:induction false} ChunksFollow<X>(img: Image, other: Other<X>, r: nat, m: nat, s1: Session<X>, s2: Session<X>) returns (n: nat)
    requires HasRead8(img, r) && SameInput(s1, s2, r) && Drive(img, other, r, m, s2).Stop?
    ensures Drive(img, other, r, n, s1) == Drive(img, other, r, m, s2)
    decreases m, |s1.later|
  {
    hide HasRead8, Turn, SameInput, Waiting, Room;
    if Waiting(s1, r) {
      if s1.vm.env.event != 0 || !Room(img, s1.vm) {
        var k, end;
        n, k, end := WaitStops(img, other, r, s1, s2);
        SameStop(img, other, r, m, k, s2);
      } else {
        WaitsOn(img, other, r, s1, s2);
        n := ChunksFollow(img, other, r, m, Waited(s1, r), s2);
        DriveAdd(img, other, r, 10, n, s1, Waited(s1, r));
        n := 10 + n;
      }
    } else {
      TurnsTogether(img, other, r, s1, s2);
      match Turn(img, other, r, s1)
      case Go(s1') =>
        var s2' := Turn(img, other, r, s2).s;
        n := ChunksFollow(img, other, r, m - 1, s1', s2');
        n := n + 1;
      case Stop(_) =>
        n := 1;
        DriveOne(img, other, r, s1);
    }
  }

  /** Chunk invariance: however the same input is cut, a session stops in one way only: with the same events,
      the same stacks and registers, the same output, and the same input consumed. */
  lemma ChunkInvariance<X>(img: Image, other: Other<X>, r: nat, vm: VM<Env<X>>, cut1: seq<seq<byte>>, cut2: seq<seq<byte>>, end: End<X>)
    requires HasRead8(img, r) && vm.env.input == []
    requires NonEmptyChunks(cut1) && NonEmptyChunks(cut2) && Flatten(cut1) == Flatten(cut2)
    ensures (exists n: nat :: Drive(img, other, r, n, Session(vm, [], cut1)) == Stop(end))
       <==> (exists n: nat :: Drive(img, other, r, n, Session(vm, [], cut2)) == Stop(end))
  {
    hide Drive, HasRead8;
    var s := Whole(Session(vm, [], cut1));
    if n: nat :| Drive(img, other, r, n, Session(vm, [], cut1)) == Stop(end) {
      var m := WholeFollows(img, other, r, n, Session(vm, [], cut1), s);
      m := ChunksFollow(img, other, r, m, Session(vm, [], cut2), s);
    }
    if n: nat :| Drive(img, other, r, n, Session(vm, [], cut2)) == Stop(end) {
      var m := WholeFollows(img, other, r, n, Session(vm, [], cut2), s);
      m := ChunksFollow(img, other, r, m, Session(vm, [], cut1), s);
    }
  }

  // ----- output over a whole session -----

  function SessionOf<X>(p: Progress<X>): (s: Option<Session<X>>) {
    match p
    case Go(s) => Some(s)
    case Stop(Idle(s)) => Some(s)
    case Stop(Returned(s)) => Some(s)
    case _ => None
  }

  /** With a destination set from the start, at every moment what it has been given, followed by what is in the
      buffer, is all that was ever written; output is only ever added. */
  lemma {:induction false} NothingLost<X>(img: Image, other: Other<X>, r: nat, n: nat, s: Session<X>)
    requires Conserved(s.vm.env)
    ensures match SessionOf(Drive(img, other, r, n, s))
            case None => true
            case Some(s') => Conserved(s'.vm.env) && s.vm.env.out <= s'.vm.env.out && s.vm.env.written <= s'.vm.env.written
    decreases n
  {
    hide Dispatch, Fetch;
    DispatchConserves(img, other, s.vm);
    if n > 0 && Turn(img, other, r, s).Go? {
      NothingLost(img, other, r, n - 1, Turn(img, other, r, s).s);
    }
  }
}
