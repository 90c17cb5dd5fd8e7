/** What the steps of the abstract server do, told from the events alone. */
module ServerLaws {
  import opened Bytes
  import opened Framing
  import opened Connection
  import opened ServerLog

  // ----- one slot in one turn -----

  lemma ServeOthers(w: World, i: nat, e: SlotEvents, j: nat)
    requires i < |w.conns| && j < |w.conns| && j != i
    ensures ServeStep(w, i, e).conns[j] == w.conns[j]
  {
    hide ParseStream, ResultOf;
  }

  /** The connection ends with this turn: its bytes are refused, or reading or writing fails. */
  predicate Ends(k: Conn, e: SlotEvents) {
    (e.readable && (e.broken || ParseStream(k.heard + e.incoming).stop.Oversize?))
    || (e.writable && k.pending > 0 && e.written.None? && e.broken)
  }

  /** How many of the bytes that wait leave: at least one, if the write succeeds. */
  function Leaving(pending: nat, e: SlotEvents): (n: nat)
    ensures n <= pending
  {
    if !e.writable || e.written.None? || pending == 0 then 0
    else if e.written.value == 0 then 1
    else Least(e.written.value, pending)
  }

  /** An open connection: what it offers is heard, and announced as far as it completes frames; of what waits to be
      written at least one byte leaves if a write succeeds. */
  lemma ServeOpen(w: World, i: nat, e: SlotEvents)
    requires i < |w.conns| && w.conns[i].state == Open
    ensures var k, k' := w.conns[i], ServeStep(w, i, e).conns[i];
            if Ends(k, e) then k' == FREE
            else
              k'.state == Open && k'.fd == k.fd
              && k'.heard == k.heard + (if e.readable then e.incoming else [])
              && k'.pending == k.pending - Leaving(k.pending, e)
  {
    hide ParseStream, Announcements;
    assert w.conns[i].heard + [] == w.conns[i].heard;
  }

  /** A handshake: it is tried when something can be read, and again when something can be written. */
  lemma ServeHandshake(w: World, i: nat, e: SlotEvents)
    requires i < |w.conns| && w.conns[i].state == Handshake && w.conns[i].pending == 0
    ensures var k, w' := w.conns[i], ServeStep(w, i, e);
            var first := if e.readable then e.firstShake else InProgress;
            var result := if first == InProgress && e.writable then e.secondShake else first;
            match result
            case Finished => w'.conns[i] == k.(state := Open) && w'.log == w.log
            case InProgress => w'.conns[i] == k && w'.log == w.log
            case Failed => w'.conns[i] == FREE && w'.log == w.log + [Disconnected(k.fd)]
  {
    hide ParseStream, ReceiveStep;
  }

  lemma ServeFree(w: World, i: nat, e: SlotEvents)
    requires i < |w.conns| && w.conns[i].state == Unused
    ensures ServeStep(w, i, e) == w
  {
  }

  // ----- new connections -----

  predicate Held(w: World, fd: int) {
    exists i :: 0 <= i < |w.conns| && Holds(SlotOf(w.conns[i]), fd)
  }

  predicate Full(w: World) {
    forall i :: 0 <= i < |w.conns| ==> w.conns[i].state != Unused
  }

  lemma HeldIsHeld(w: World, fd: int)
    ensures Held(w, fd) <==> FirstHolder(w.conns, fd, 0) < |w.conns|
    ensures Full(w) <==> FirstFree(w.conns, 0) == |w.conns|
  {
    hide SlotOf;
  }

  /** A new descriptor gets a slot, and only that slot changes, while there is a free one. */
  lemma AcceptGets(w: World, fd: int)
    ensures fd < 0 || Held(w, fd) || Full(w) ==> AcceptStep(w, fd) == w
    ensures fd >= 0 && !Held(w, fd) && !Full(w) ==>
      AcceptStep(w, fd).log == w.log + [Connected(fd)]
      && exists i :: 0 <= i < |w.conns| && w.conns[i].state == Unused && AcceptStep(w, fd).conns == w.conns[i := Conn(Handshake, fd, [], 0)]
  {
    hide Held, Full, SlotOf;
    HeldIsHeld(w, fd);
  }

  lemma AcceptKeeps(w: World, fd: int)
    ensures forall j :: 0 <= j < |w.conns| && w.conns[j].state != Unused ==> AcceptStep(w, fd).conns[j] == w.conns[j]
    ensures fd >= 0 ==> Held(AcceptStep(w, fd), fd) || Full(AcceptStep(w, fd))
    ensures forall f :: Held(w, f) ==> Held(AcceptStep(w, fd), f)
    ensures Full(w) ==> Full(AcceptStep(w, fd))
  {
    hide ParseStream, Held, Full, FirstFree, FirstHolder;
    HeldIsHeld(w, fd);
    var i, w' := FirstFree(w.conns, 0), AcceptStep(w, fd);
    if w' != w {
      HoldsAt(w', i, fd);
    }
    forall f | Held(w, f)
      ensures Held(w', f)
    {
      StillHolds(w, w', f);
    }
  }

  lemma HoldsAt(w: World, i: nat, fd: int)
    requires i < |w.conns| && Holds(SlotOf(w.conns[i]), fd)
    ensures Held(w, fd)
  {
  }

  lemma StillHolds(w: World, w': World, f: int)
    requires Held(w, f) && |w'.conns| == |w.conns|
    requires forall j :: 0 <= j < |w.conns| && w.conns[j].state != Unused ==> w'.conns[j] == w.conns[j]
    ensures Held(w', f)
  {
    hide ParseStream;
    var i :| 0 <= i < |w.conns| && Holds(SlotOf(w.conns[i]), f);
    HoldsAt(w', i, f);
  }

  /** Every descriptor that accept has returned is held by a slot, unless there are no free slots any more. */
  lemma {:induction false} AcceptedAll(w: World, fds: seq<int>)
    ensures var w' := AcceptSteps(w, fds);
            && (forall fd :: fd in fds && fd >= 0 ==> Held(w', fd) || Full(w'))
            && (forall j :: 0 <= j < |w.conns| && w.conns[j].state != Unused ==> w'.conns[j] == w.conns[j])
            && (Full(w) ==> Full(w')) && (forall f :: Held(w, f) ==> Held(w', f))
    decreases |fds|
  {
    hide Held, Full, AcceptStep;
    if fds != [] {
      var init, last := fds[..|fds| - 1], fds[|fds| - 1];
      AcceptedAll(w, init);
      AcceptKeeps(AcceptSteps(w, init), last);
      assert forall fd :: fd in fds ==> fd in init || fd == last;
    }
  }

  // ----- sending -----

  /** A message reaches the holder of its descriptor if that is open and has nothing left to write; nothing else
      changes, and nothing at all in the other cases. */
  lemma SendReaches(w: World, i: nat, fd: int, json: Message)
    requires i < |w.conns| && Holds(SlotOf(w.conns[i]), fd)
    requires forall j :: 0 <= j < |w.conns| && Holds(SlotOf(w.conns[j]), fd) ==> j == i
    ensures SendStep(w, fd, json)
         == if |json| <= MAX_JSON_SIZE && w.conns[i].state == Open && w.conns[i].pending == 0
            then w.(conns := w.conns[i := w.conns[i].(pending := 4 + |json|)]) else w
  {
    hide SlotOf;
    assert FirstHolder(w.conns, fd, 0) == i;
  }

  /** Sending concerns nothing but what waits to be written. */
  lemma {:induction false} SendsKeep(w: World, sends: seq<(int, Message)>, i: nat)
    requires i < |w.conns|
    ensures var k' := SendSteps(w, sends).conns[i];
            k' == w.conns[i].(pending := k'.pending) && k'.pending >= w.conns[i].pending
            && (w.conns[i].pending > 0 || w.conns[i].state != Open ==> k' == w.conns[i])
    decreases |sends|
  {
    hide FirstHolder;
    if sends != [] {
      SendsKeep(w, sends[..|sends| - 1], i);
    }
  }

  /** The first message of a batch for an idle open connection is queued, whatever else is sent. */
  lemma {:induction false} FirstSent(w: World, sends: seq<(int, Message)>, m: nat, i: nat)
    requires m < |sends| && i < |w.conns| && w.conns[i].state == Open && w.conns[i].pending == 0
    requires Holds(SlotOf(w.conns[i]), sends[m].0) && |sends[m].1| <= MAX_JSON_SIZE
    requires forall j :: 0 <= j < |w.conns| && Holds(SlotOf(w.conns[j]), w.conns[i].fd) ==> j == i
    requires forall l :: 0 <= l < m ==> sends[l].0 != w.conns[i].fd
    ensures SendSteps(w, sends).conns[i] == w.conns[i].(pending := 4 + |sends[m].1|)
    decreases |sends|
  {
    hide FirstHolder, ParseStream;
    var init, last := sends[..|sends| - 1], sends[|sends| - 1];
    var w1 := SendSteps(w, init);
    forall j | 0 <= j < |w.conns|
      ensures SlotOf(w1.conns[j]) == SlotOf(w.conns[j])
    {
      SendsKeep(w, init, j);
    }
    if m == |sends| - 1 {
      NotForThis(w, init, i);
      SendReaches(w1, i, last.0, last.1);
    } else {
      FirstSent(w, init, m, i);
      assert w1.conns[i].pending > 0;
      if last.0 == w.conns[i].fd {
        SendReaches(w1, i, last.0, last.1);
      } else {
        SentElsewhere(w1, i, last.0, last.1);
      }
    }
  }

  lemma SentElsewhere(w: World, i: nat, fd: int, json: Message)
    requires i < |w.conns| && w.conns[i].fd != fd
    ensures SendStep(w, fd, json).conns[i] == w.conns[i]
  {
    hide ParseStream;
  }

  lemma {:induction false} NotForThis(w: World, sends: seq<(int, Message)>, i: nat)
    requires i < |w.conns| && forall l :: 0 <= l < |sends| ==> sends[l].0 != w.conns[i].fd
    ensures SendSteps(w, sends).conns[i] == w.conns[i]
    decreases |sends|
  {
    if sends != [] {
      var init := sends[..|sends| - 1];
      NotForThis(w, init, i);
      SentElsewhere(SendSteps(w, init), i, sends[|sends| - 1].0, sends[|sends| - 1].1);
    }
  }

  // ----- whole turns -----

  /** What the connection in slot i offers in these turns. */
  function Offered(turns: seq<Turn>, i: nat): (s: seq<byte>)
    requires forall t :: 0 <= t < |turns| ==> i < |turns[t].slots|
  {
    if turns == [] then []
    else Offered(turns[..|turns| - 1], i) + OfferedIn(turns[|turns| - 1].slots[i])
  }

  function OfferedIn(e: SlotEvents): seq<byte> {
    if e.readable then e.incoming else []
  }

  /** Up to the turn of slot i nothing happens to a connection, but that a message may be queued. */
  lemma {:induction false} BeforeSlot(w: World, turn: Turn, n: nat, i: nat)
    requires n <= i < |w.conns| && n <= |turn.slots| && w.conns[i].state != Unused
    ensures var k, k' := w.conns[i], SlotSteps(w, turn, n).conns[i];
            k' == k.(pending := k'.pending) && (k.pending > 0 || k.state != Open ==> k' == k)
    decreases n
  {
    hide ServeStep, SendSteps, AcceptSteps, Held, Full, SlotOf;
    if n == 0 {
      AcceptedAll(w, turn.accepted);
    } else {
      BeforeSlot(w, turn, n - 1, i);
      var w1 := SlotSteps(w, turn, n - 1);
      ServeOthers(w1, n - 1, turn.slots[n - 1], i);
      SendsKeep(ServeStep(w1, n - 1, turn.slots[n - 1]), turn.slots[n - 1].sends, i);
    }
  }

  /** And the same after it. */
  lemma {:induction false} AfterSlot(w: World, turn: Turn, n: nat, i: nat)
    requires i < n <= |w.conns| && n <= |turn.slots|
    ensures var k', served := SlotSteps(w, turn, n).conns[i], ServeStep(SlotSteps(w, turn, i), i, turn.slots[i]).conns[i];
            k' == served.(pending := k'.pending) && (served.pending > 0 || served.state != Open ==> k' == served)
    decreases n
  {
    hide ServeStep, AcceptSteps, SendSteps;
    var w1 := SlotSteps(w, turn, n - 1);
    SendsKeep(ServeStep(w1, n - 1, turn.slots[n - 1]), turn.slots[n - 1].sends, i);
    if i < n - 1 {
      AfterSlot(w, turn, n - 1, i);
      ServeOthers(w1, n - 1, turn.slots[n - 1], i);
    }
  }

  /** A turn of an open connection. `pending` is what waits when the slot's turn comes; a message may be queued
      before that, or after it, if nothing waits. */
  lemma OpenInTurn(w: World, turn: Turn, i: nat) returns (pending: nat)
    requires |turn.slots| == |w.conns| && i < |w.conns| && w.conns[i].state == Open
    ensures w.conns[i].pending > 0 ==> pending == w.conns[i].pending
    ensures var k, k', e := w.conns[i].(pending := pending), SlotSteps(w, turn, |w.conns|).conns[i], turn.slots[i];
            if Ends(k, e) then k' == FREE
            else
              k'.state == Open && k'.fd == k.fd && k'.heard == k.heard + OfferedIn(e)
              && (Leaving(pending, e) < pending ==> k'.pending == pending - Leaving(pending, e))
  {
    hide ServeStep, SlotSteps, Ends, Leaving;
    BeforeSlot(w, turn, i, i);
    pending := SlotSteps(w, turn, i).conns[i].pending;
    ServeOpen(SlotSteps(w, turn, i), i, turn.slots[i]);
    AfterSlot(w, turn, |w.conns|, i);
  }

  /** A turn of a connection that is still shaking hands. */
  lemma HandshakeInTurn(w: World, turn: Turn, i: nat)
    requires |turn.slots| == |w.conns| && i < |w.conns| && w.conns[i].state == Handshake && w.conns[i].pending == 0
    ensures var k, k', e := w.conns[i], SlotSteps(w, turn, |w.conns|).conns[i], turn.slots[i];
            var first := if e.readable then e.firstShake else InProgress;
            match if first == InProgress && e.writable then e.secondShake else first
            case Finished => k' == k.(state := Open, pending := k'.pending)
            case InProgress => k' == k
            case Failed => k' == FREE
  {
    hide ServeStep, SlotSteps;
    BeforeSlot(w, turn, i, i);
    ServeHandshake(SlotSteps(w, turn, i), i, turn.slots[i]);
    AfterSlot(w, turn, |w.conns|, i);
  }

  lemma {:induction false} AcceptedLogged(w: World, fds: seq<int>, fd: int)
    requires fd in fds && fd >= 0 && !Held(w, fd) && !Full(AcceptSteps(w, fds))
    ensures Connected(fd) in AcceptSteps(w, fds).log
    decreases |fds|
  {
    hide Held, Full, AcceptStep;
    var init, last := fds[..|fds| - 1], fds[|fds| - 1];
    var w1 := AcceptSteps(w, init);
    AcceptedAll(w, init);
    AcceptKeeps(w1, last);
    AcceptGets(w1, last);
    assert forall f :: f in fds ==> f in init || f == last;
    if fd in init {
      AcceptedLogged(w, init, fd);
    } else {
      AcceptedNew(w, init, fd);
    }
  }

  lemma {:induction false} AcceptedNew(w: World, fds: seq<int>, fd: int)
    requires fd !in fds && !Held(w, fd)
    ensures !Held(AcceptSteps(w, fds), fd)
    decreases |fds|
  {
    hide Held, Full, AcceptStep;
    if fds != [] {
      var init, last := fds[..|fds| - 1], fds[|fds| - 1];
      assert last in fds && forall f :: f in init ==> f in fds;
      AcceptedNew(w, init, fd);
      AcceptOther(AcceptSteps(w, init), last, fd);
    }
  }

  lemma AcceptOther(w: World, fd: int, f: int)
    requires f != fd && !Held(w, f)
    ensures !Held(AcceptStep(w, fd), f)
  {
    hide Full, FirstFree, FirstHolder, ParseStream;
    AcceptGets(w, fd);
    var w' := AcceptStep(w, fd);
    forall j | 0 <= j < |w'.conns|
      ensures !Holds(SlotOf(w'.conns[j]), f)
    {
      assert !Holds(SlotOf(w.conns[j]), f);
    }
  }

  lemma {:induction false} LogKept(w: World, turn: Turn, n: nat)
    requires WorldOk(w) && n <= |turn.slots| && n <= |w.conns|
    ensures AcceptSteps(w, turn.accepted).log <= SlotSteps(w, turn, n).log
    decreases n
  {
    hide WorldOk, ServeStep, SendSteps, AcceptSteps;
    if n > 0 {
      LogKept(w, turn, n - 1);
      SlotsOk(w, turn, n - 1);
      ServeOk(SlotSteps(w, turn, n - 1), n - 1, turn.slots[n - 1]);
    }
  }

  /** A descriptor that accept returns in a turn is announced in it, if there is a slot for it. */
  lemma AcceptedInTurn(w: World, turn: Turn, fd: int)
    requires WorldOk(w) && |turn.slots| == |w.conns|
    requires fd in turn.accepted && fd >= 0 && !Held(w, fd) && !Full(AcceptSteps(w, turn.accepted))
    ensures Connected(fd) in SlotSteps(w, turn, |w.conns|).log
  {
    hide WorldOk, SlotSteps, AcceptSteps, Held, Full;
    AcceptedLogged(w, turn.accepted, fd);
    LogKept(w, turn, |w.conns|);
  }

  /** A message sent after slot j has been served to the idle open connection in a slot that has had its turn waits
      there at the end of the turn. */
  lemma SentInTurn(w: World, turn: Turn, i: nat, j: nat, m: nat)
    requires |turn.slots| == |w.conns| && i <= j < |w.conns| && m < |turn.slots[j].sends|
    requires var w1, sends := ServeStep(SlotSteps(w, turn, j), j, turn.slots[j]), turn.slots[j].sends;
             w1.conns[i].state == Open && w1.conns[i].pending == 0
             && w1.conns[i].fd == sends[m].0 && |sends[m].1| <= MAX_JSON_SIZE
             && (forall l :: 0 <= l < |w1.conns| && Holds(SlotOf(w1.conns[l]), w1.conns[i].fd) ==> l == i)
             && (forall l :: 0 <= l < m ==> sends[l].0 != w1.conns[i].fd)
    ensures SlotSteps(w, turn, |w.conns|).conns[i]
         == ServeStep(SlotSteps(w, turn, j), j, turn.slots[j]).conns[i].(pending := 4 + |turn.slots[j].sends[m].1|)
  {
    hide ServeStep, SendSteps, ParseStream;
    FirstSent(ServeStep(SlotSteps(w, turn, j), j, turn.slots[j]), turn.slots[j].sends, m, i);
    RestOfTurn(w, turn, j + 1, |w.conns|, i);
  }

  lemma {:induction false} RestOfTurn(w: World, turn: Turn, n: nat, m: nat, i: nat)
    requires i < n <= m <= |w.conns| && m <= |turn.slots| && SlotSteps(w, turn, n).conns[i].pending > 0
    ensures SlotSteps(w, turn, m).conns[i] == SlotSteps(w, turn, n).conns[i]
    decreases m
  {
    hide ServeStep, SendSteps, AcceptSteps;
    if n < m {
      RestOfTurn(w, turn, n, m - 1, i);
      ServeOthers(SlotSteps(w, turn, m - 1), m - 1, turn.slots[m - 1], i);
      SendsKeep(ServeStep(SlotSteps(w, turn, m - 1), m - 1, turn.slots[m - 1]), turn.slots[m - 1].sends, i);
    }
  }

  /** The connection in slot i is open after each of these turns. */
  predicate StaysOpen(w: World, turns: seq<Turn>, i: nat)
    requires TurnsFit(turns, |w.conns|) && i < |w.conns|
  {
    forall t {:trigger turns[..t]} :: 0 <= t <= |turns| ==> TurnSteps(w, turns[..t]).conns[i].state == Open
  }

  /** All that a connection offers while it stays open is heard, in order, and nothing else. */
  lemma {:induction false} HeardAll(w: World, turns: seq<Turn>, i: nat)
    requires TurnsFit(turns, |w.conns|) && i < |w.conns| && StaysOpen(w, turns, i)
    ensures var k' := TurnSteps(w, turns).conns[i];
            k'.fd == w.conns[i].fd && k'.heard == w.conns[i].heard + Offered(turns, i)
    decreases |turns|
  {
    hide SlotSteps;
    assert turns[..|turns|] == turns && turns[..0] == [];
    if turns == [] {
      assert w.conns[i].heard + [] == w.conns[i].heard;
    } else {
      var init := turns[..|turns| - 1];
      assert forall t :: 0 <= t <= |init| ==> init[..t] == turns[..t];
      HeardAll(w, init, i);
      var pending := OpenInTurn(TurnSteps(w, init), turns[|turns| - 1], i);
      assert w.conns[i].heard + Offered(init, i) + OfferedIn(turns[|turns| - 1].slots[i])
          == w.conns[i].heard + (Offered(init, i) + OfferedIn(turns[|turns| - 1].slots[i]));
    }
  }

  /** So the application has been told exactly the frames of what the connection has offered since it was opened. */
  lemma ToldAll(w: World, turns: seq<Turn>, i: nat)
    requires WorldOk(w) && TurnsFit(turns, |w.conns|) && i < |w.conns| && StaysOpen(w, turns, i)
    requires w.conns[i].heard == []
    ensures Inbox(TurnSteps(w, turns).log, w.conns[i].fd) == ParseStream(Offered(turns, i)).frames
  {
    hide ParseStream, TurnSteps, LogOk, IsOpen, Inbox, HeldBySome, StaysOpen, Offered;
    OpenNow(w, turns, i);
    TurnsOk(w, turns);
    HeardAll(w, turns, i);
    var w' := TurnSteps(w, turns);
    assert [] + Offered(turns, i) == Offered(turns, i);
    assert SlotsOf(w'.conns)[i].live;
  }

  lemma OpenNow(w: World, turns: seq<Turn>, i: nat)
    requires TurnsFit(turns, |w.conns|) && i < |w.conns| && StaysOpen(w, turns, i)
    ensures TurnSteps(w, turns).conns[i].state == Open
  {
    assert turns[..|turns|] == turns;
  }
}
