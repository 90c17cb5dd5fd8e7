/** What the driver of the sessions does between two runs of the decoder: the pushes and events of a careful caller. */
module SessionLaws {
  import opened Bytes
  import opened Machine
  import opened ByteVM
  import opened Coroutine
  import opened Sessions
  import opened InterpreterObject
  import opened Decoder

  /** The events that reading the event byte once gives. */
  function EventsIn(event: byte): seq<byte> {
    if event == 0 then [] else [event]
  }

  /** All input that is still to be consumed. */
  function Remaining<X>(s: Session<X>): seq<byte> {
    s.vm.env.input + Flatten(s.later)
  }

  /** After a push: an event is read once and cleared; not a byte of the input is lost, and nothing else changes; the
      driver gives up only when there is no more input, and else pushes some. */
  lemma ResumeKeeps<X>(s: Session<X>)
    ensures match Resume(s)
            case Go(s') =>
              s'.events == s.events + EventsIn(s.vm.env.event) && Remaining(s') == Remaining(s)
              && s'.vm == s.vm.(env := s.vm.env.(event := 0, input := s'.vm.env.input))
              && (NonEmptyChunks(s.later) ==> s'.vm.env.input != [])
            case Stop(Idle(s')) =>
              s'.events == s.events + EventsIn(s.vm.env.event) && Remaining(s') == Remaining(s) == []
              && s'.vm == s.vm.(env := s.vm.env.(event := 0))
            case _ => false
  {
    assert s.events + [] == s.events;
    if s.vm.env.input == [] && s.later != [] {
      assert [] + Flatten(s.later) == Flatten(s.later);
    }
  }

  /** About to read input elsewhere than in the word read8, or while an event has not been read. */
  predicate Strays<X>(img: Image, r: nat, s: Session<X>) {
    var f := Fetch(img, s.vm.ip);
    f.Parsed? && f.value == READ8_NATIVE && (s.vm.ip != r || s.vm.env.event != 0)
  }

  /** What the driver makes of the way in which the interpreter has left its loop. */
  function AfterRun<X>(s: Session<X>, v: Result<VM<Env<X>>>): Progress<X> {
    match v
    case Next(vm) => Go(s.(vm := vm))
    case Yield(vm) => Resume(s.(vm := vm))
    case Exit(vm) => Stop(Returned(s.(vm := vm.(env := vm.env.(input := vm.env.input + Flatten(s.later))), later := [])))
    case _ => Stop(Failed)
  }

  lemma TurnIsDispatch<X>(img: Image, other: Other<X>, r: nat, s: Session<X>)
    ensures Turn(img, other, r, s) == if Strays(img, r, s) then Stop(Stray) else AfterRun(s, Dispatch(img, PemPrim(other), s.vm))
  {
    hide Dispatch, Fetch, Resume;
  }

  /** A stretch of a session between two pushes is one run of the interpreter, as br_pem_decoder_push makes it: from
      where the session stands to where the loop is left, and on with the driver; but for a session that strays. */
  lemma {:induction false} StretchIsRun<X>(img: Image, other: Other<X>, r: nat, n: nat, s: Session<X>) returns (k: nat)
    requires !RunUntilExit(img, PemPrim(other), n, s.vm).Next?
    ensures 1 <= k <= n
    ensures Drive(img, other, r, k, s) == AfterRun(s, RunUntilExit(img, PemPrim(other), n, s.vm))
         || (Drive(img, other, r, k, s) == Stop(Stray)
             && exists s1: Session<X> :: Drive(img, other, r, k - 1, s) == Go(s1) && Strays(img, r, s1))
    decreases n
  {
    hide Dispatch, Strays, AfterRun, Turn;
    k := 1;
    DriveOne(img, other, r, s);
    TurnIsDispatch(img, other, r, s);
    assert Drive(img, other, r, 0, s) == Go(s);
    if !Strays(img, r, s) {
      match Dispatch(img, PemPrim(other), s.vm)
      case Next(vm) =>
        var s1 := s.(vm := vm);
        NextGoes(s, vm, RunUntilExit(img, PemPrim(other), n, s.vm));
        k := StretchIsRun(img, other, r, n - 1, s1);
        k := k + 1;
      case _ =>
    }
  }

  lemma NextGoes<X>(s: Session<X>, vm: VM<Env<X>>, v: Result<VM<Env<X>>>)
    ensures AfterRun(s, Result.Next(vm)) == Go(s.(vm := vm)) && AfterRun(s.(vm := vm), v) == AfterRun(s, v)
  {
    hide Resume, Flatten;
  }

  lemma TailMore(a: seq<byte>, b: seq<byte>, c: seq<byte>)
    requires Tail(a, b)
    ensures Tail(a + c, b + c)
  {
  }

  lemma TurnConsumes<X>(img: Image, other: Other<X>, r: nat, s: Session<X>)
    ensures match SessionOf(Turn(img, other, r, s))
            case None => true
            case Some(s') => Tail(Remaining(s'), Remaining(s)) && s.events <= s'.events
    ensures Turn(img, other, r, s).Stop? && Turn(img, other, r, s).end.Idle? ==> Remaining(Turn(img, other, r, s).end.s) == []
  {
    hide Dispatch, Fetch, Resume;
    DispatchConsumes(img, other, s.vm);
    match Dispatch(img, PemPrim(other), s.vm)
    case Yield(vm) =>
      TailMore(vm.env.input, s.vm.env.input, Flatten(s.later));
      ResumeKeeps(s.(vm := vm));
    case Next(vm) => TailMore(vm.env.input, s.vm.env.input, Flatten(s.later));
    case Exit(vm) =>
      TailMore(vm.env.input, s.vm.env.input, Flatten(s.later));
      NothingLeft();
      assert Remaining(s.(vm := vm)) + [] == Remaining(s.(vm := vm));
    case _ =>
  }

  /** Over a whole session: input is consumed in order, events are only added, and a session that stops to wait has
      consumed all of it. */
  lemma {:induction false} AllConsumed<X>(img: Image, other: Other<X>, r: nat, n: nat, s: Session<X>)
    ensures match SessionOf(Drive(img, other, r, n, s))
            case None => true
            case Some(s') => Tail(Remaining(s'), Remaining(s)) && s.events <= s'.events
    ensures var p := Drive(img, other, r, n, s); p.Stop? && p.end.Idle? ==> Remaining(p.end.s) == []
    decreases n
  {
    hide Turn, Remaining;
    if n > 0 {
      TurnConsumes(img, other, r, s);
      match Turn(img, other, r, s)
      case Go(s') =>
        AllConsumed(img, other, r, n - 1, s');
        var end := SessionOf(Drive(img, other, r, n - 1, s'));
        if end.Some? {
          TailTrans(Remaining(end.value), Remaining(s'), Remaining(s));
        }
      case _ =>
    }
  }
}
