/** The server of the TLS library as an abstract machine: which connections there are, what has been heard from each,
    and what the application has been told. */
module ServerLog {
  import opened Bytes
  import opened Framing
  import opened Connection

  const MAX_CLIENTS: nat := 256

  /** What the server tells its application. */
  datatype Callback = Connected(fd: int) | Disconnected(fd: int) | Received(fd: int, json: Message)

  // ----- what a log of callbacks must look like -----

  /** The last word on this descriptor is that it has connected. */
  predicate IsOpen(log: seq<Callback>, fd: int)
    decreases |log|
  {
    log != [] &&
    match log[|log| - 1]
    case Connected(f) => f == fd || IsOpen(log[..|log| - 1], fd)
    case Disconnected(f) => f != fd && IsOpen(log[..|log| - 1], fd)
    case Received(_, _) => IsOpen(log[..|log| - 1], fd)
  }

  /** Connections and disconnections alternate for every descriptor, and messages come in between. */
  predicate LogOk(log: seq<Callback>)
    decreases |log|
  {
    log == [] ||
    var before := log[..|log| - 1];
    LogOk(before) &&
    match log[|log| - 1]
    case Connected(f) => !IsOpen(before, f)
    case Disconnected(f) => IsOpen(before, f)
    case Received(f, _) => IsOpen(before, f)
  }

  /** The messages since the descriptor was last connected. */
  function Inbox(log: seq<Callback>, fd: int): (ms: seq<Message>)
    decreases |log|
  {
    if log == [] then []
    else
      var before := log[..|log| - 1];
      match log[|log| - 1]
      case Connected(f) => if f == fd then [] else Inbox(before, fd)
      case Disconnected(_) => Inbox(before, fd)
      case Received(f, m) => Inbox(before, fd) + (if f == fd then [m] else [])
  }

  function InboxAfter(before: seq<Message>, e: Callback, fd: int): seq<Message> {
    if e.fd != fd || e.Disconnected? then before else if e.Connected? then [] else before + [e.json]
  }

  /** One more entry. */
  lemma Logged(log: seq<Callback>, e: Callback)
    ensures LogOk(log + [e]) <==> LogOk(log) && (if e.Connected? then !IsOpen(log, e.fd) else IsOpen(log, e.fd))
    ensures forall fd :: IsOpen(log + [e], fd) <==> if e.fd == fd && !e.Received? then e.Connected? else IsOpen(log, fd)
    ensures forall fd :: Inbox(log + [e], fd) == InboxAfter(Inbox(log, fd), e, fd)
  {
    assert (log + [e])[..|log|] == log;
    assert forall fd :: Inbox(log, fd) + [] == Inbox(log, fd);
  }

  // ----- the log against the connections -----

  /** What the log has to agree with. */
  datatype Slot = Slot(live: bool, fd: int, delivered: seq<Message>)

  /** The slot that holds this descriptor. */
  predicate Holds(s: Slot, fd: int) {
    s.live && s.fd == fd
  }

  predicate HeldBySome(slots: seq<Slot>, fd: int) {
    exists i :: 0 <= i < |slots| && Holds(slots[i], fd)
  }

  ghost predicate Agrees(log: seq<Callback>, slots: seq<Slot>) {
    LogOk(log)
    && (forall i, j :: 0 <= i < j < |slots| && slots[i].live && slots[j].live ==> slots[i].fd != slots[j].fd)
    && (forall i :: 0 <= i < |slots| && slots[i].live ==> IsOpen(log, slots[i].fd) && Inbox(log, slots[i].fd) == slots[i].delivered)
    && (forall fd :: IsOpen(log, fd) ==> HeldBySome(slots, fd))
  }

  lemma OneSlot(log: seq<Callback>, slots: seq<Slot>, i: nat, j: nat)
    requires Agrees(log, slots) && i < |slots| && j < |slots| && slots[i].live && slots[j].live && slots[i].fd == slots[j].fd
    ensures i == j
  {
    hide LogOk, IsOpen, Inbox, HeldBySome;
  }

  /** Holders of other descriptors are not concerned by a change of slot i. */
  lemma StillHeld(slots: seq<Slot>, i: nat, s: Slot, fd: int)
    requires i < |slots| && HeldBySome(slots, fd) && (Holds(slots[i], fd) ==> Holds(s, fd))
    ensures HeldBySome(slots[i := s], fd)
  {
    var j :| 0 <= j < |slots| && Holds(slots[j], fd);
    assert Holds(slots[i := s][j], fd);
  }

  /** A free slot takes a descriptor that no slot holds. */
  lemma AgreesOpened(log: seq<Callback>, slots: seq<Slot>, i: nat, fd: int)
    requires Agrees(log, slots) && i < |slots| && !slots[i].live && !HeldBySome(slots, fd)
    ensures Agrees(log + [Connected(fd)], slots[i := Slot(true, fd, [])])
  {
    hide LogOk, IsOpen, Inbox, HeldBySome;
    var log', slots' := log + [Connected(fd)], slots[i := Slot(true, fd, [])];
    Logged(log, Connected(fd));
    NobodyHolds(slots, fd);
    forall f | IsOpen(log', f)
      ensures HeldBySome(slots', f)
    {
      if f == fd {
        SomebodyHolds(slots', i, fd);
      } else {
        StillHeld(slots, i, slots'[i], f);
      }
    }
  }

  lemma NobodyHolds(slots: seq<Slot>, fd: int)
    requires !HeldBySome(slots, fd)
    ensures forall j :: 0 <= j < |slots| && slots[j].live ==> slots[j].fd != fd
  {
    forall j | 0 <= j < |slots| && slots[j].live
      ensures slots[j].fd != fd
    {
      assert !Holds(slots[j], fd);
    }
  }

  lemma SomebodyHolds(slots: seq<Slot>, i: nat, fd: int)
    requires i < |slots| && Holds(slots[i], fd)
    ensures HeldBySome(slots, fd)
  {
  }

  /** A slot in use is given up. */
  lemma AgreesClosed(log: seq<Callback>, slots: seq<Slot>, i: nat, s: Slot)
    requires Agrees(log, slots) && i < |slots| && slots[i].live && !s.live
    ensures Agrees(log + [Disconnected(slots[i].fd)], slots[i := s])
  {
    hide LogOk, IsOpen, Inbox, HeldBySome;
    Logged(log, Disconnected(slots[i].fd));
    forall f | IsOpen(log + [Disconnected(slots[i].fd)], f)
      ensures HeldBySome(slots[i := s], f)
    {
      StillHeld(slots, i, s, f);
    }
  }

  lemma AgreesReceived(log: seq<Callback>, slots: seq<Slot>, i: nat, m: Message)
    requires Agrees(log, slots) && i < |slots| && slots[i].live
    ensures var s := slots[i];
            Agrees(log + [Received(s.fd, m)], slots[i := s.(delivered := s.delivered + [m])])
  {
    hide LogOk, IsOpen, Inbox, HeldBySome;
    var s' := slots[i].(delivered := slots[i].delivered + [m]);
    Logged(log, Received(slots[i].fd, m));
    forall f | IsOpen(log + [Received(slots[i].fd, m)], f)
      ensures HeldBySome(slots[i := s'], f)
    {
      StillHeld(slots, i, s', f);
    }
  }

  function Announcements(fd: int, ms: seq<Message>): (log: seq<Callback>) {
    seq(|ms|, k requires 0 <= k < |ms| => Received(fd, ms[k]))
  }

  lemma {:induction false} AgreesReceivedAll(log: seq<Callback>, slots: seq<Slot>, i: nat, ms: seq<Message>)
    requires Agrees(log, slots) && i < |slots| && slots[i].live
    ensures var s := slots[i];
            Agrees(log + Announcements(s.fd, ms), slots[i := s.(delivered := s.delivered + ms)])
    decreases |ms|
  {
    hide Agrees;
    var s := slots[i];
    if ms == [] {
      assert log + Announcements(s.fd, ms) == log && s.(delivered := s.delivered + ms) == s;
      assert slots[i := s] == slots;
    } else {
      var init, m := ms[..|ms| - 1], ms[|ms| - 1];
      AgreesReceivedAll(log, slots, i, init);
      var slots1 := slots[i := s.(delivered := s.delivered + init)];
      AgreesReceived(log + Announcements(s.fd, init), slots1, i, m);
      assert log + Announcements(s.fd, init) + [Received(s.fd, m)] == log + Announcements(s.fd, ms);
      assert s.delivered + init + [m] == s.delivered + ms;
      assert slots1[i := s.(delivered := s.delivered + ms)] == slots[i := s.(delivered := s.delivered + ms)];
    }
  }

  // ----- the steps of the server -----

  /** One slot: all bytes that its connection has offered, and how many bytes wait to be written. */
  datatype Conn = Conn(state: State, fd: int, heard: seq<byte>, pending: nat)

  const FREE := Conn(Unused, -1, [], 0)

  datatype World = World(conns: seq<Conn>, log: seq<Callback>)

  function SlotOf(k: Conn): Slot {
    Slot(k.state != Unused, k.fd, ParseStream(k.heard).frames)
  }

  function SlotsOf(conns: seq<Conn>): (v: seq<Slot>)
    ensures |v| == |conns|
  {
    seq(|conns|, i requires 0 <= i < |conns| => SlotOf(conns[i]))
  }

  /** The log fits the connections, whose descriptors are distinct; a slot that is not open has heard nothing and has
      nothing to write. */
  ghost predicate WorldOk(w: World) {
    Agrees(w.log, SlotsOf(w.conns))
    && forall i :: 0 <= i < |w.conns| && w.conns[i].state != Open ==> w.conns[i].heard == [] && w.conns[i].pending == 0
  }

  function CloseStep(w: World, i: nat): World
    requires i < |w.conns|
  {
    if w.conns[i].state == Unused then w
    else World(w.conns[i := FREE], w.log + [Disconnected(w.conns[i].fd)])
  }

  datatype HandshakeResult = Finished | InProgress | Failed

  function ShakeStep(w: World, i: nat, result: HandshakeResult): World
    requires i < |w.conns|
  {
    match result
    case Finished => w.(conns := w.conns[i := w.conns[i].(state := Open)])
    case InProgress => w
    case Failed => CloseStep(w, i)
  }

  /** The messages that these bytes complete are announced; a refused header, or an error, ends the connection. */
  function ReceiveStep(w: World, i: nat, incoming: seq<byte>, broken: bool): World
    requires i < |w.conns|
  {
    var k := w.conns[i];
    var before, after := ParseStream(k.heard).frames, ParseStream(k.heard + incoming);
    var w1 := World(w.conns[i := k.(heard := k.heard + incoming)],
                    w.log + (if |before| <= |after.frames| then Announcements(k.fd, after.frames[|before|..]) else []));
    if broken || after.stop.Oversize? then CloseStep(w1, i) else w1
  }

  /** With nothing to write, nothing happens. */
  function WriteStep(w: World, i: nat, result: WriteResult): World
    requires i < |w.conns|
  {
    var k := w.conns[i];
    if k.pending == 0 then w
    else
      match result
      case Wrote(n) => if n <= k.pending then w.(conns := w.conns[i := k.(pending := k.pending - n)]) else w
      case Retry => w
      case Failed => CloseStep(w, i)
  }

  /** What select and the library functions report about one slot in one turn, and what the application sends
      after it was called. */
  datatype SlotEvents = SlotEvents(readable: bool, firstShake: HandshakeResult, incoming: seq<byte>, cut: nat -> nat, broken: bool,
                                   writable: bool, secondShake: HandshakeResult, written: Option<nat>, sends: seq<(int, Message)>)

  function ReadStep(w: World, i: nat, e: SlotEvents): (w': World)
    requires i < |w.conns|
    ensures |w'.conns| == |w.conns|
  {
    if !e.readable then w
    else if w.conns[i].state == Handshake then ShakeStep(w, i, e.firstShake)
    else if w.conns[i].state == Open then ReceiveStep(w, i, e.incoming, e.broken)
    else w
  }

  /** A write takes at least one byte and no more than there are. */
  function ResultOf(e: SlotEvents, pending: nat): (r: WriteResult)
    ensures r.Wrote? && pending > 0 ==> 1 <= r.n <= pending
  {
    match e.written
    case Some(n) => Wrote(if pending == 0 then n else ReadSize(n, pending, pending))
    case None => if e.broken then WriteResult.Failed else Retry
  }

  /** One slot in one turn: first what can be read, then what can be written. */
  function ServeStep(w0: World, i: nat, e: SlotEvents): (w': World)
    requires i < |w0.conns|
    ensures |w'.conns| == |w0.conns|
  {
    var w := ReadStep(w0, i, e);
    if !e.writable then w
    else if w.conns[i].state == Handshake then ShakeStep(w, i, e.secondShake)
    else if w.conns[i].state == Open then WriteStep(w, i, ResultOf(e, w.conns[i].pending))
    else w
  }

  /** The first slot from i on that is free. */
  function FirstFree(conns: seq<Conn>, i: nat): (j: nat)
    requires i <= |conns|
    ensures i <= j <= |conns| && (j < |conns| ==> conns[j].state == Unused)
    ensures forall m :: i <= m < j ==> conns[m].state != Unused
    decreases |conns| - i
  {
    if i == |conns| || conns[i].state == Unused then i else FirstFree(conns, i + 1)
  }

  /** The first slot from i on that holds this descriptor. */
  function FirstHolder(conns: seq<Conn>, fd: int, i: nat): (j: nat)
    requires i <= |conns|
    ensures i <= j <= |conns| && (j < |conns| ==> Holds(SlotOf(conns[j]), fd))
    ensures forall m :: i <= m < j ==> !Holds(SlotOf(conns[m]), fd)
    decreases |conns| - i
  {
    if i == |conns| || Holds(SlotOf(conns[i]), fd) then i else FirstHolder(conns, fd, i + 1)
  }

  /** The system hands out descriptors that are not open. With no slot free the connection is dropped and nobody
      hears of it. */
  function AcceptStep(w: World, fd: int): (w': World)
    ensures |w'.conns| == |w.conns|
  {
    var i := FirstFree(w.conns, 0);
    if fd < 0 || FirstHolder(w.conns, fd, 0) < |w.conns| || i == |w.conns| then w
    else World(w.conns[i := Conn(Handshake, fd, [], 0)], w.log + [Connected(fd)])
  }

  /** A message for the connection with this descriptor; one at a time. */
  function SendStep(w: World, fd: int, json: Message): (w': World)
    ensures |w'.conns| == |w.conns| && w'.log == w.log
  {
    var i := FirstHolder(w.conns, fd, 0);
    if |json| > MAX_JSON_SIZE || i == |w.conns| || w.conns[i].state != Open || w.conns[i].pending != 0 then w
    else w.(conns := w.conns[i := w.conns[i].(pending := 4 + |json|)])
  }

  function AcceptSteps(w: World, fds: seq<int>): (w': World)
    ensures |w'.conns| == |w.conns|
  {
    if fds == [] then w else AcceptStep(AcceptSteps(w, fds[..|fds| - 1]), fds[|fds| - 1])
  }

  function SendSteps(w: World, sends: seq<(int, Message)>): (w': World)
    ensures |w'.conns| == |w.conns| && w'.log == w.log
  {
    if sends == [] then w
    else
      var last := sends[|sends| - 1];
      SendStep(SendSteps(w, sends[..|sends| - 1]), last.0, last.1)
  }

  /** One turn of the select loop: new connections, then the slots in order. */
  datatype Turn = Turn(accepted: seq<int>, slots: seq<SlotEvents>)

  function SlotSteps(w: World, turn: Turn, n: nat): (w': World)
    requires n <= |turn.slots| && n <= |w.conns|
    ensures |w'.conns| == |w.conns|
  {
    if n == 0 then AcceptSteps(w, turn.accepted)
    else SendSteps(ServeStep(SlotSteps(w, turn, n - 1), n - 1, turn.slots[n - 1]), turn.slots[n - 1].sends)
  }

  predicate TurnsFit(turns: seq<Turn>, n: nat) {
    forall t :: 0 <= t < |turns| ==> |turns[t].slots| == n
  }

  function TurnSteps(w: World, turns: seq<Turn>): (w': World)
    requires TurnsFit(turns, |w.conns|)
    ensures |w'.conns| == |w.conns|
    decreases |turns|
  {
    if turns == [] then w
    else SlotSteps(TurnSteps(w, turns[..|turns| - 1]), turns[|turns| - 1], |w.conns|)
  }

  function CloseSteps(w: World, n: nat): (w': World)
    requires n <= |w.conns|
    ensures |w'.conns| == |w.conns|
  {
    if n == 0 then w else CloseStep(CloseSteps(w, n - 1), n - 1)
  }

  // ----- every step keeps log and connections in agreement -----

  lemma SameSlots(conns: seq<Conn>, i: nat, k: Conn)
    requires i < |conns|
    ensures SlotsOf(conns[i := k]) == SlotsOf(conns)[i := SlotOf(k)]
  {
    hide ParseStream;
  }

  lemma CloseOk(w: World, i: nat)
    requires WorldOk(w) && i < |w.conns|
    ensures WorldOk(CloseStep(w, i)) && w.log <= CloseStep(w, i).log
  {
    hide Agrees;
    if w.conns[i].state != Unused {
      SameSlots(w.conns, i, FREE);
      AgreesClosed(w.log, SlotsOf(w.conns), i, SlotOf(FREE));
    }
  }

  lemma ShakeOk(w: World, i: nat, result: HandshakeResult)
    requires WorldOk(w) && i < |w.conns| && w.conns[i].state == Handshake
    ensures WorldOk(ShakeStep(w, i, result)) && w.log <= ShakeStep(w, i, result).log
  {
    hide Agrees, SlotOf;
    CloseOk(w, i);
    var k := w.conns[i].(state := Open);
    SameSlots(w.conns, i, k);
    ShakenSlot(w.conns[i]);
    assert SlotsOf(w.conns)[i := SlotOf(k)] == SlotsOf(w.conns);
  }

  lemma ShakenSlot(k: Conn)
    requires k.state == Handshake
    ensures SlotOf(k.(state := Open)) == SlotOf(k)
  {
  }

  lemma ReceiveOk(w: World, i: nat, incoming: seq<byte>, broken: bool)
    requires WorldOk(w) && i < |w.conns| && w.conns[i].state == Open
    ensures WorldOk(ReceiveStep(w, i, incoming, broken)) && w.log <= ReceiveStep(w, i, incoming, broken).log
    ensures ParseStream(w.conns[i].heard).frames <= ParseStream(w.conns[i].heard + incoming).frames
  {
    hide Agrees, ParseStream;
    var k := w.conns[i];
    PrefixFrames(k.heard, incoming);
    var before, after := ParseStream(k.heard).frames, ParseStream(k.heard + incoming).frames;
    var more := after[|before|..];
    assert before + more == after;
    var w1 := World(w.conns[i := k.(heard := k.heard + incoming)], w.log + Announcements(k.fd, more));
    SameSlots(w.conns, i, k.(heard := k.heard + incoming));
    AgreesReceivedAll(w.log, SlotsOf(w.conns), i, more);
    assert WorldOk(w1);
    CloseOk(w1, i);
  }

  lemma WriteOk(w: World, i: nat, result: WriteResult)
    requires WorldOk(w) && i < |w.conns| && w.conns[i].state == Open
    ensures WorldOk(WriteStep(w, i, result)) && w.log <= WriteStep(w, i, result).log
  {
    hide Agrees, ParseStream;
    CloseOk(w, i);
    forall n: nat
      ensures SlotsOf(w.conns[i := w.conns[i].(pending := n)]) == SlotsOf(w.conns)
    {
      SameSlots(w.conns, i, w.conns[i].(pending := n));
    }
  }

  lemma ServeOk(w: World, i: nat, e: SlotEvents)
    requires WorldOk(w) && i < |w.conns|
    ensures WorldOk(ReadStep(w, i, e)) && WorldOk(ServeStep(w, i, e)) && w.log <= ServeStep(w, i, e).log
  {
    hide WorldOk, ShakeStep, ReceiveStep, WriteStep, ResultOf;
    if w.conns[i].state == Handshake {
      ShakeOk(w, i, e.firstShake);
    } else if w.conns[i].state == Open {
      ReceiveOk(w, i, e.incoming, e.broken);
    }
    var w1 := ReadStep(w, i, e);
    if w1.conns[i].state == Handshake {
      ShakeOk(w1, i, e.secondShake);
    } else if w1.conns[i].state == Open {
      WriteOk(w1, i, ResultOf(e, w1.conns[i].pending));
    }
  }

  lemma NoHolder(conns: seq<Conn>, fd: int)
    ensures FirstHolder(conns, fd, 0) == |conns| <==> !HeldBySome(SlotsOf(conns), fd)
  {
    hide SlotOf;
    var i := FirstHolder(conns, fd, 0);
    if i < |conns| {
      assert Holds(SlotsOf(conns)[i], fd);
    }
  }

  lemma AcceptOk(w: World, fd: int)
    requires WorldOk(w)
    ensures WorldOk(AcceptStep(w, fd)) && w.log <= AcceptStep(w, fd).log
  {
    hide Agrees, HeldBySome;
    var i := FirstFree(w.conns, 0);
    NoHolder(w.conns, fd);
    if AcceptStep(w, fd) != w {
      SameSlots(w.conns, i, Conn(Handshake, fd, [], 0));
      AgreesOpened(w.log, SlotsOf(w.conns), i, fd);
    }
  }

  /** Only the first holder is concerned. */
  lemma SentTo(w: World, fd: int, json: Message)
    requires |json| <= MAX_JSON_SIZE && FirstHolder(w.conns, fd, 0) < |w.conns|
    ensures var i := FirstHolder(w.conns, fd, 0);
            var k := w.conns[i];
            SendStep(w, fd, json)
            == w.(conns := w.conns[i := if k.state == Open && k.pending == 0 then k.(pending := 4 + |json|) else k])
  {
  }

  lemma SendOk(w: World, fd: int, json: Message)
    requires WorldOk(w)
    ensures WorldOk(SendStep(w, fd, json))
  {
    hide Agrees, ParseStream;
    var i := FirstHolder(w.conns, fd, 0);
    if i < |w.conns| {
      var k := w.conns[i].(pending := 4 + |json|);
      SameSlots(w.conns, i, k);
      assert SlotsOf(w.conns)[i := SlotOf(k)] == SlotsOf(w.conns);
    }
  }

  lemma {:induction false} AcceptsOk(w: World, fds: seq<int>)
    requires WorldOk(w)
    ensures WorldOk(AcceptSteps(w, fds)) && w.log <= AcceptSteps(w, fds).log
    decreases |fds|
  {
    hide WorldOk, AcceptStep;
    if fds != [] {
      AcceptsOk(w, fds[..|fds| - 1]);
      AcceptOk(AcceptSteps(w, fds[..|fds| - 1]), fds[|fds| - 1]);
    }
  }

  lemma {:induction false} SendsOk(w: World, sends: seq<(int, Message)>)
    requires WorldOk(w)
    ensures WorldOk(SendSteps(w, sends))
    decreases |sends|
  {
    hide WorldOk, SendStep;
    if sends != [] {
      SendsOk(w, sends[..|sends| - 1]);
      SendOk(SendSteps(w, sends[..|sends| - 1]), sends[|sends| - 1].0, sends[|sends| - 1].1);
    }
  }

  lemma {:induction false} SlotsOk(w: World, turn: Turn, n: nat)
    requires WorldOk(w) && n <= |turn.slots| && n <= |w.conns|
    ensures WorldOk(SlotSteps(w, turn, n)) && w.log <= SlotSteps(w, turn, n).log
    decreases n
  {
    hide WorldOk, ServeStep, SendSteps, AcceptSteps;
    if n == 0 {
      AcceptsOk(w, turn.accepted);
    } else {
      SlotsOk(w, turn, n - 1);
      ServeOk(SlotSteps(w, turn, n - 1), n - 1, turn.slots[n - 1]);
      SendsOk(ServeStep(SlotSteps(w, turn, n - 1), n - 1, turn.slots[n - 1]), turn.slots[n - 1].sends);
    }
  }

  /** After any number of turns, whatever happened in them: descriptors in use are distinct; in the log connections
      and disconnections alternate for each; and what was announced since its last connection is the parse of
      what it has offered since. */
  lemma {:induction false} TurnsOk(w: World, turns: seq<Turn>)
    requires WorldOk(w) && TurnsFit(turns, |w.conns|)
    ensures WorldOk(TurnSteps(w, turns)) && w.log <= TurnSteps(w, turns).log
    decreases |turns|
  {
    hide WorldOk, SlotSteps;
    if turns != [] {
      TurnsOk(w, turns[..|turns| - 1]);
      SlotsOk(TurnSteps(w, turns[..|turns| - 1]), turns[|turns| - 1], |w.conns|);
    }
  }

  /** The log of the first t turns is the beginning of the log of all of them: nothing announced is taken back. */
  lemma {:induction false} TurnsGrow(w: World, turns: seq<Turn>, t: nat)
    requires WorldOk(w) && TurnsFit(turns, |w.conns|) && t <= |turns|
    ensures TurnSteps(w, turns[..t]).log <= TurnSteps(w, turns).log
    decreases |turns| - t
  {
    hide WorldOk, SlotSteps;
    if t == |turns| {
      assert turns[..t] == turns;
    } else {
      TurnsGrow(w, turns, t + 1);
      assert turns[..t + 1][..t] == turns[..t];
      TurnsOk(w, turns[..t]);
      SlotsOk(TurnSteps(w, turns[..t]), turns[t], |w.conns|);
    }
  }

  lemma {:induction false} ClosesOk(w: World, n: nat)
    requires WorldOk(w) && n <= |w.conns|
    ensures WorldOk(CloseSteps(w, n)) && w.log <= CloseSteps(w, n).log
    ensures forall i :: 0 <= i < n ==> CloseSteps(w, n).conns[i].state == Unused
    decreases n
  {
    hide WorldOk;
    if n > 0 {
      ClosesOk(w, n - 1);
      CloseOk(CloseSteps(w, n - 1), n - 1);
    }
  }

  /** When every slot is free, nobody is connected any more. */
  lemma NobodyOpen(w: World)
    requires WorldOk(w) && forall i :: 0 <= i < |w.conns| ==> w.conns[i].state == Unused
    ensures LogOk(w.log) && forall fd :: !IsOpen(w.log, fd)
  {
    hide LogOk, IsOpen, Inbox, ParseStream;
    assert forall i :: 0 <= i < |w.conns| ==> !SlotsOf(w.conns)[i].live;
  }
}
