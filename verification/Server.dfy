/** The table of clients of the TLS server: the objects follow the abstract server, over any sequence of events. */
module Server {
  import opened Bytes
  import opened Framing
  import opened Connection
  import opened ServerLog

  /** A slot in use holds a descriptor and a settled client; one that is not in use holds nothing. */
  ghost predicate SlotOk(c: Client)
    reads c, c.inBuf, c.outBuf
  {
    c.Valid() && (if c.state == Unused then c.fd == -1 && c.Blank() else c.fd >= 0)
    && (c.state == Handshake ==> c.Blank())
  }

  /** What has been received tells the same as what has been offered: after a zero-length header the client may
      leave bytes unread, but nothing comes of them. */
  predicate Heard(received: seq<byte>, offered: seq<byte>) {
    var r, o := ParseStream(received), ParseStream(offered);
    r.frames == o.frames && (if r.stop.Incomplete? then received == offered else r.stop == o.stop)
  }

  lemma HeardMore(received: seq<byte>, offered: seq<byte>, more: seq<byte>)
    requires Heard(received, offered)
    ensures var r, o := ParseStream(received + more), ParseStream(offered + more);
            r.frames == o.frames && r.stop == o.stop && (r.stop.Incomplete? ==> received == offered)
  {
    hide ParseStream;
    LaterBytes(received, more);
    LaterBytes(offered, more);
  }

  /** After a successful call of TryReceive. */
  lemma StillHeard(received: seq<byte>, offered: seq<byte>, more: seq<byte>, now: seq<byte>)
    requires Heard(received, offered) && !ParseStream(now).stop.Oversize? && !ParseStream(received + more).stop.Oversize?
    requires ParseStream(now).frames == ParseStream(received + more).frames
    requires ParseStream(now).stop.Incomplete? || ParseStream(received + more).stop.Incomplete? ==> now == received + more
    ensures Heard(now, offered + more)
  {
    hide ParseStream;
    HeardMore(received, offered, more);
  }

  /** The object and its abstract connection. */
  ghost predicate Follows(c: Client, k: Conn)
    reads c
  {
    c.state == k.state && c.fd == k.fd && c.outUsed - c.outSent == k.pending && Heard(c.received, k.heard)
  }

  ghost predicate Sound(c: Client, k: Conn)
    reads c, c.inBuf, c.outBuf
  {
    SlotOk(c) && Follows(c, k)
  }

  class Table {
    const clients: seq<Client>
    var log: seq<Callback>
    ghost var world: World

    ghost function Repr(): (r: set<object>)
      ensures forall c :: c in clients ==> c in r && c.inBuf in r && c.outBuf in r
    {
      (set c | c in clients :: c as object) + (set c | c in clients :: c.inBuf as object) + (set c | c in clients :: c.outBuf as object)
    }

    ghost predicate Separate() {
      |clients| == MAX_CLIENTS && forall i, j :: 0 <= i < j < |clients| ==> Apart(clients[i], clients[j])
    }

    /** Everything that holds between two events. */
    ghost predicate Valid()
      reads this, Repr()
    {
      Separate() && (forall c :: c in clients ==> SlotOk(c)) && log == world.log && WorldOk(world)
      && |world.conns| == MAX_CLIENTS && forall i :: 0 <= i < MAX_CLIENTS ==> FollowsAt(i)
    }

    ghost predicate FollowsAt(i: nat)
      reads this, Repr()
    {
      i < |clients| && i < |world.conns| && clients[i] in clients && Follows(clients[i], world.conns[i])
    }

    /** tlsv2_clients_init: every slot is free. */
    constructor ()
      ensures Valid() && log == [] && fresh(Repr())
      ensures world == World(seq(MAX_CLIENTS, i => FREE), [])
    {
      var cs := NewClients();
      clients, log := cs, [];
      world := World(seq(MAX_CLIENTS, i => FREE), []);
      new;
      hide *;
      ReprMembers();
      StartsValid();
    }

    lemma ReprMembers()
      ensures forall o :: o in Repr() ==> exists c :: c in clients && (o == c || o == c.inBuf || o == c.outBuf)
    {
    }

    lemma StartsValid()
      requires |clients| == MAX_CLIENTS && forall i, j :: 0 <= i < j < |clients| ==> Apart(clients[i], clients[j])
      requires forall i :: 0 <= i < |clients| ==> SlotOk(clients[i]) && clients[i].state == Unused
      requires log == [] && world == World(seq(MAX_CLIENTS, i => FREE), [])
      ensures Valid()
    {
      hide SlotOk, Agrees, Follows, Apart;
      NobodyAgrees(SlotsOf(world.conns));
      forall i: nat | i < MAX_CLIENTS
        ensures FollowsAt(i)
      {
        FreeIsBlank(clients[i]);
        FollowsFree(clients[i]);
      }
    }

    /** Facts about one slot. */
    lemma At(i: nat)
      requires Valid() && i < MAX_CLIENTS
      ensures |clients| == |world.conns| == MAX_CLIENTS && Separate() && WorldOk(world) && log == world.log
      ensures clients[i] in clients && SlotOk(clients[i]) && clients[i].Sized() && Follows(clients[i], world.conns[i])
      ensures forall j :: 0 <= j < |clients| && j != i ==>
        Apart(clients[j], clients[i]) && Sound(clients[j], world.conns[j])
    {
      hide WorldOk, Frames, ParseStream, Follows;
      forall j | 0 <= j < |clients|
        ensures clients[j] in clients && SlotOk(clients[j]) && Follows(clients[j], world.conns[j])
      {
        assert FollowsAt(j);
      }
    }

    lemma Sizes()
      requires Valid()
      ensures |clients| == |world.conns| == MAX_CLIENTS
    {
    }

    /** The cheap facts about all slots. */
    lemma States()
      requires Valid()
      ensures |clients| == |world.conns| == MAX_CLIENTS && log == world.log && WorldOk(world)
      ensures forall j :: 0 <= j < MAX_CLIENTS ==> clients[j].state == world.conns[j].state && clients[j].fd == world.conns[j].fd
    {
      hide WorldOk, SlotOk, Heard;
      forall j | 0 <= j < MAX_CLIENTS
        ensures clients[j].state == world.conns[j].state && clients[j].fd == world.conns[j].fd
      {
        assert FollowsAt(j);
      }
    }

    /** After a change of slot i only, with the abstract server changed in the same way. */
    lemma ValidAgain(i: nat, w: World)
      requires Separate() && i < |clients| == |w.conns| == |world.conns| && world.conns == w.conns[i := world.conns[i]]
      requires forall j :: 0 <= j < |clients| && j != i ==> Sound(clients[j], w.conns[j])
      requires SlotOk(clients[i]) && Follows(clients[i], world.conns[i]) && log == world.log && WorldOk(world)
      ensures Valid()
    {
      hide SlotOk, WorldOk, Follows;
      forall j: nat | j < MAX_CLIENTS
        ensures FollowsAt(j) && SlotOk(clients[j])
      {
        assert clients[j] in clients;
      }
    }

    /** tlsv2_client_close, on any slot: a free one is left alone. */
    method Close(i: nat)
      requires Valid() && i < MAX_CLIENTS
      modifies this`log, this`world, clients[i]
      ensures Valid() && world == CloseStep(old(world), i)
      ensures clients[i].state == Unused && clients[i].Blank()
      ensures log == old(log) + (if old(clients[i].state) == Unused then [] else [Disconnected(old(clients[i].fd))])
    {
      hide Client.Valid, Client.Blank, WorldOk, SlotOk, Sound, Valid, Separate, Follows;
      At(i);
      StateOf(clients[i], world.conns[i]);
      var c := clients[i];
      if c.state == Unused {
        FreeIsBlank(c);
        return;
      }
      ghost var w := world;
      CloseOk(w, i);
      var fd := c.fd;
      c.Release();
      log := log + [Disconnected(fd)];
      world := CloseStep(w, i);
      ReleasedOk(c);
      FollowsFree(c);
      assert forall j :: 0 <= j < |clients| && j != i ==> Sound(clients[j], w.conns[j]);
      ValidAgain(i, w);
    }

    /** One accepted connection: the first free slot takes it. */
    method Accept(fd: int) returns (ok: bool, i: nat)
      requires Valid() && fd >= 0 && FirstHolder(world.conns, fd, 0) == |world.conns|
      modifies this`log, this`world, clients
      ensures Valid() && world == AcceptStep(old(world), fd)
      ensures ok <==> exists j :: 0 <= j < |clients| && old(clients[j].state) == Unused
      ensures !ok ==> log == old(log)
      ensures ok ==> i < |clients| && old(clients[i].state) == Unused && clients[i].state == Handshake && clients[i].fd == fd && clients[i].Blank()
      ensures ok ==> log == old(log) + [Connected(fd)]
    {
      hide Client.Valid, Client.Blank, WorldOk, SlotOk, Sound, Valid, Separate, Follows, FirstFree, FirstHolder;
      i := FindFree();
      States();
      ok := i < MAX_CLIENTS;
      if ok {
        At(i);
        ghost var w := world;
        AcceptOk(w, fd);
        var c := clients[i];
        c.Take(fd);
        log := log + [Connected(fd)];
        world := AcceptStep(w, fd);
        TakenOk(c);
        FollowsBlank(c, world.conns[i]);
        assert forall j :: 0 <= j < |clients| && j != i ==> Sound(clients[j], w.conns[j]);
        ValidAgain(i, w);
      }
    }

    /** tlsv2_client_alloc's search. */
    method FindFree() returns (i: nat)
      requires Valid()
      ensures Valid() && i <= |clients| == |world.conns| == MAX_CLIENTS && i == FirstFree(world.conns, 0)
      ensures forall j :: 0 <= j < i ==> clients[j].state != Unused
      ensures i < MAX_CLIENTS ==> clients[i].state == Unused
    {
      hide WorldOk, Valid;
      States();
      i := 0;
      while i < MAX_CLIENTS && clients[i].state != Unused
        invariant i <= MAX_CLIENTS && FirstFree(world.conns, 0) == FirstFree(world.conns, i)
        invariant forall j :: 0 <= j < i ==> clients[j].state != Unused
      {
        i := i + 1;
      }
    }

    method FinishShake(i: nat)
      requires Valid() && i < MAX_CLIENTS && clients[i].state == Handshake
      modifies this`world, clients[i]
      ensures Valid() && world == ShakeStep(old(world), i, Finished)
      ensures clients[i].state == Open && clients[i].fd == old(clients[i].fd) && clients[i].Blank()
    {
      hide Client.Valid, Client.Blank, WorldOk, SlotOk, Sound, Valid, Separate, Follows;
      At(i);
      StateOf(clients[i], world.conns[i]);
      ghost var w := world;
      ShakeOk(w, i, Finished);
      var c := clients[i];
      WasBlank(c);
      BlankIs(w, i);
      FollowsPending(c, w.conns[i]);
      c.FinishHandshake();
      world := ShakeStep(w, i, Finished);
      OpenedOk(c);
      FollowsBlank(c, world.conns[i]);
      assert forall j :: 0 <= j < |clients| && j != i ==> Sound(clients[j], w.conns[j]);
      ValidAgain(i, w);
    }

    /** SSL_accept, in a slot that is still shaking hands. */
    method Shake(i: nat, result: HandshakeResult)
      requires Valid() && i < MAX_CLIENTS && clients[i].state == Handshake
      modifies this`log, this`world, clients[i]
      ensures Valid() && world == ShakeStep(old(world), i, result)
      ensures match result
              case Finished => clients[i].state == Open && clients[i].fd == old(clients[i].fd) && clients[i].Blank() && log == old(log)
              case InProgress => clients[i].state == Handshake && clients[i].fd == old(clients[i].fd) && log == old(log)
              case Failed => clients[i].state == Unused && log == old(log) + [Disconnected(old(clients[i].fd))]
    {
      hide Client.Valid, Client.Blank, WorldOk, SlotOk, Sound, Valid, Separate, Follows;
      At(i);
      StateOf(clients[i], world.conns[i]);
      match result {
        case Finished => FinishShake(i);
        case InProgress =>
        case Failed =>
          Close(i);
      }
    }

    /** Reading from an open client: the new messages go to the application, in order; a broken connection or a
        refused header closes the client. How the bytes are cut into reads makes no difference. */
    method Receive(i: nat, incoming: seq<byte>, cut: nat -> nat, broken: bool)
      requires Valid() && i < MAX_CLIENTS && clients[i].state == Open
      modifies this`log, this`world, clients[i], clients[i].inBuf
      ensures Valid() && world == ReceiveStep(old(world), i, incoming, broken)
      ensures var r := ParseStream(old(clients[i].received) + incoming);
              var closed := broken || r.stop.Oversize?;
              && old(clients[i].delivered) <= r.frames
              && log == old(log) + Announcements(old(clients[i].fd), r.frames[|old(clients[i].delivered)|..])
                                 + (if closed then [Disconnected(old(clients[i].fd))] else [])
              && clients[i].state == (if closed then Unused else Open)
              && (!closed ==> clients[i].fd == old(clients[i].fd) && clients[i].delivered == r.frames)
    {
      hide WorldOk, SlotOk, Sound, Valid, Separate, ParseStream, Client.Settled, Client.OutOk, Follows, Agrees;
      At(i);
      StateOf(clients[i], world.conns[i]);
      var c := clients[i];
      OpenOk(c);
      ghost var w, heard := world, world.conns[i].heard;
      ReceiveOk(w, i, incoming, broken);
      PrefixFrames(c.received, incoming);
      HeardMore(c.received, heard, incoming);
      ghost var k, received := w.conns[i], c.received;
      FollowsPending(c, k);
      assert c.delivered == ParseStream(heard).frames;
      var count := |c.delivered|;
      var ret := c.TryReceive(incoming, cut, broken);
      log := log + Announcements(c.fd, c.delivered[count..]);
      world := ReceiveStep(w, i, incoming, broken);
      if ret < 0 {
        log := log + [Disconnected(c.fd)];
        c.Release();
        ReleasedOk(c);
        FollowsFree(c);
        assert w.conns[i := k.(heard := heard + incoming)][i := FREE] == w.conns[i := FREE];
      } else {
        OpenSlot(c);
        c.RoomLeft();
        StillHeard(received, heard, incoming, c.received);
        FollowsIf(c, world.conns[i]);
      }
      assert forall j :: 0 <= j < |clients| && j != i ==> Sound(clients[j], w.conns[j]);
      ValidAgain(i, w);
    }

    /** Writing to an open client; an error closes it. */
    method Write(i: nat, result: WriteResult)
      requires Valid() && i < MAX_CLIENTS && clients[i].state == Open
      requires result.Wrote? && clients[i].outSent < clients[i].outUsed ==> 1 <= result.n <= clients[i].outUsed - clients[i].outSent
      modifies this`log, this`world, clients[i]
      ensures Valid() && world == WriteStep(old(world), i, result)
      ensures var failed := result.Failed? && old(clients[i].outSent < clients[i].outUsed);
              && clients[i].state == (if failed then Unused else Open)
              && log == old(log) + (if failed then [Disconnected(old(clients[i].fd))] else [])
    {
      hide WorldOk, SlotOk, Sound, Valid, Separate, Client.Settled, Client.OutOk, Follows;
      At(i);
      StateOf(clients[i], world.conns[i]);
      var c := clients[i];
      OpenOk(c);
      FollowsPending(c, world.conns[i]);
      ghost var w := world;
      WriteOk(w, i, result);
      var ret := c.Flush(result);
      OpenSlot(c);
      if ret >= 0 {
        world := WriteStep(w, i, result);
      }
      FollowsIf(c, world.conns[i]);
      assert forall j :: 0 <= j < |clients| && j != i ==> Sound(clients[j], w.conns[j]);
      ValidAgain(i, w);
      if ret < 0 {
        Close(i);
      }
    }

    /** tlsv2_send_json: the message goes to the one slot that holds the descriptor, or nowhere. */
    method SendJson(fd: int, json: Message) returns (ret: int, at: nat)
      requires Valid()
      modifies this`world, clients, set c | c in clients :: c.outBuf
      ensures Valid() && world == SendStep(old(world), fd, json)
      ensures |json| > MAX_JSON_SIZE || FirstHolder(old(world).conns, fd, 0) == MAX_CLIENTS ==> ret == -1
      ensures |json| <= MAX_JSON_SIZE && FirstHolder(old(world).conns, fd, 0) < MAX_CLIENTS ==>
        at == FirstHolder(old(world).conns, fd, 0) && at < |clients|
        && ret == (if clients[at].state != Open then -1 else if old(clients[at].outUsed != clients[at].outSent) then -2 else 0)
      ensures forall j :: 0 <= j < |clients| ==>
        clients[j].accepted == old(clients[j].accepted) + (if ret == 0 && j == at then [json] else [])
    {
      hide WorldOk, SlotOk, Sound, Valid, Separate, Client.Settled, Client.OutOk, Follows, SlotOf, FirstHolder, Framing.Frame, Heard;
      at := MAX_CLIENTS;
      Sizes();
      if |json| > MAX_JSON_SIZE {
        return -1, at;
      }
      at := FindHolder(fd);
      if at == MAX_CLIENTS {
        return -1, at;
      }
      At(at);
      var c := clients[at];
      LiveOk(c);
      FollowsPending(c, world.conns[at]);
      StateOf(c, world.conns[at]);
      ghost var w := world;
      SendOk(w, fd, json);
      SentTo(w, fd, json);
      hide SendStep;
      ret := c.QueueSend(json);
      world := SendStep(w, fd, json);
      QueuedSlot(c);
      FollowsIf(c, world.conns[at]);
      assert forall j :: 0 <= j < |clients| && j != at ==> Sound(clients[j], w.conns[j]);
      ValidAgain(at, w);
    }

    /** The first slot in use with this descriptor. */
    method FindHolder(fd: int) returns (i: nat)
      requires Valid()
      ensures Valid() && i <= |clients| == |world.conns| == MAX_CLIENTS && i == FirstHolder(world.conns, fd, 0)
      ensures i < MAX_CLIENTS ==> clients[i].state != Unused && clients[i].fd == fd
    {
      hide WorldOk, Valid, SlotOf;
      States();
      i := 0;
      while i < MAX_CLIENTS
        invariant i <= MAX_CLIENTS && Valid() && FirstHolder(world.conns, fd, 0) == FirstHolder(world.conns, fd, i)
      {
        HolderIs(world.conns[i], fd);
        if clients[i].state != Unused && clients[i].fd == fd {
          return;
        }
        i := i + 1;
      }
    }

    /** At most one slot holds a descriptor. */
    lemma OneHolder(i: nat, j: nat, fd: int)
      requires Valid() && i < |clients| && j < |clients|
      requires clients[i].state != Unused && clients[i].fd == fd && clients[j].state != Unused && clients[j].fd == fd
      ensures i == j
    {
      hide SlotOk, LogOk, IsOpen, Inbox, HeldBySome, ParseStream;
      States();
      var slots := SlotsOf(world.conns);
      assert slots[i].live && slots[j].live && slots[i].fd == slots[j].fd;
      OneSlot(world.log, slots, i, j);
    }

    /** What select and the library functions report about one slot in one turn. */
    method Serve(i: nat, e: SlotEvents)
      requires Valid() && i < MAX_CLIENTS
      modifies this`log, this`world, clients[i], clients[i].inBuf
      ensures Valid() && world == ServeStep(old(world), i, e)
    {
      hide WorldOk, SlotOk, Sound, Separate, Valid, Follows, ShakeStep, ReceiveStep, WriteStep, ResultOf;
      States();
      At(i);
      var c := clients[i];
      if e.readable {
        if c.state == Handshake {
          Shake(i, e.firstShake);
        } else if c.state == Open {
          Receive(i, e.incoming, e.cut, e.broken);
        }
      }
      States();
      At(i);
      if e.writable {
        if c.state == Handshake {
          Shake(i, e.secondShake);
        } else if c.state == Open {
          SlotBounds(c);
          FollowsPending(c, world.conns[i]);
          Write(i, ResultOf(e, c.outUsed - c.outSent));
        }
      }
    }

    /** The server: any number of turns of the select loop, then every client is closed. The log is the one of the
        abstract server after these turns. */
    method Run(turns: seq<Turn>)
      requires Valid() && TurnsFit(turns, MAX_CLIENTS)
      modifies this`log, this`world, Repr()
      ensures Valid() && |old(world).conns| == MAX_CLIENTS
      ensures world == CloseSteps(TurnSteps(old(world), turns), MAX_CLIENTS) && log == world.log
      ensures LogOk(log) && old(log) <= log && forall fd :: !IsOpen(log, fd)
    {
      hide WorldOk, SlotOk, Sound, Separate, Valid, TurnsFit;
      ghost var w := world;
      States();
      TurnsFitPrefix(turns, 0);
      assert turns[..0] == [];
      var t := 0;
      while t < |turns|
        invariant t <= |turns| && Valid() && TurnsFit(turns[..t], MAX_CLIENTS)
        invariant world == TurnSteps(w, turns[..t])
      {
        TurnsFitPrefix(turns, t + 1);
        assert turns[..t + 1][..t] == turns[..t];
        OneTurn(turns[t]);
        t := t + 1;
      }
      assert turns[..|turns|] == turns;
      TurnsOk(w, turns);
      ClosesOk(TurnSteps(w, turns), MAX_CLIENTS);
      CloseAll();
      States();
      NobodyOpen(world);
    }

    /** New connections, then every slot in order, each followed by what the application sends. */
    method OneTurn(turn: Turn)
      requires Valid() && |turn.slots| == MAX_CLIENTS
      modifies this`log, this`world, Repr()
      ensures Valid() && |old(world).conns| == MAX_CLIENTS && world == SlotSteps(old(world), turn, MAX_CLIENTS)
    {
      hide WorldOk, SlotOk, Sound, Separate, Valid, ServeStep, SendSteps, AcceptSteps;
      ghost var w := world;
      Sizes();
      AcceptAll(turn.accepted);
      var i := 0;
      while i < MAX_CLIENTS
        invariant i <= MAX_CLIENTS && Valid() && world == SlotSteps(w, turn, i)
      {
        Sizes();
        InRepr(i);
        Serve(i, turn.slots[i]);
        SendAll(turn.slots[i].sends);
        i := i + 1;
      }
    }

    lemma InRepr(i: nat)
      requires i < |clients|
      ensures clients[i] in Repr() && clients[i].inBuf in Repr() && clients[i].outBuf in Repr()
    {
      assert clients[i] in clients;
    }

    /** What the application sends after it was called. */
    method SendAll(sends: seq<(int, Message)>)
      requires Valid()
      modifies this`world, Repr()
      ensures Valid() && world == SendSteps(old(world), sends)
    {
      hide WorldOk, SlotOk, Sound, Separate, Valid, SendStep;
      ghost var w := world;
      var i := 0;
      assert sends[..0] == [];
      while i < |sends|
        invariant i <= |sends| && Valid() && world == SendSteps(w, sends[..i])
      {
        var ret, at := SendJson(sends[i].0, sends[i].1);
        assert sends[..i + 1][..i] == sends[..i];
        i := i + 1;
      }
      assert sends[..|sends|] == sends;
    }

    /** accept, until there is no more. */
    method AcceptAll(fds: seq<int>)
      requires Valid()
      modifies this`log, this`world, clients
      ensures Valid() && world == AcceptSteps(old(world), fds)
    {
      hide WorldOk, SlotOk, Sound, Separate, Valid;
      ghost var w := world;
      var i := 0;
      assert fds[..0] == [];
      while i < |fds|
        invariant i <= |fds| && Valid() && world == AcceptSteps(w, fds[..i])
      {
        var holder := FindHolder(fds[i]);
        if fds[i] >= 0 && holder == MAX_CLIENTS {
          var ok, slot := Accept(fds[i]);
        }
        assert fds[..i + 1][..i] == fds[..i];
        i := i + 1;
      }
      assert fds[..|fds|] == fds;
    }

    method CloseAll()
      requires Valid()
      modifies this`log, this`world, clients
      ensures Valid() && |old(world).conns| == MAX_CLIENTS && world == CloseSteps(old(world), MAX_CLIENTS)
    {
      hide WorldOk, SlotOk, Sound, Separate, Valid, CloseStep;
      ghost var w := world;
      Sizes();
      var i := 0;
      while i < MAX_CLIENTS
        invariant i <= MAX_CLIENTS && Valid() && world == CloseSteps(w, i)
      {
        At(i);
        assert clients[i] in clients;
        Close(i);
        i := i + 1;
      }
    }
  }

  lemma TurnsFitPrefix(turns: seq<Turn>, t: nat)
    requires TurnsFit(turns, MAX_CLIENTS) && t <= |turns|
    ensures TurnsFit(turns[..t], MAX_CLIENTS) && (t > 0 ==> |turns[t - 1].slots| == MAX_CLIENTS)
  {
  }

  lemma HolderIs(k: Conn, fd: int)
    ensures Holds(SlotOf(k), fd) <==> k.state != Unused && k.fd == fd
  {
  }

  lemma StateOf(c: Client, k: Conn)
    requires Follows(c, k)
    ensures c.state == k.state && c.fd == k.fd && Heard(c.received, k.heard)
  {
  }

  lemma FollowsPending(c: Client, k: Conn)
    requires Follows(c, k)
    ensures c.state == k.state && c.fd == k.fd && c.outUsed - c.outSent == k.pending
  {
  }

  lemma FollowsFree(c: Client)
    requires c.state == Unused && c.fd == -1 && c.Blank()
    ensures Follows(c, FREE)
  {
  }

  lemma FollowsBlank(c: Client, k: Conn)
    requires c.Blank() && k == Conn(c.state, c.fd, [], 0)
    ensures Follows(c, k)
  {
  }

  lemma BlankIs(w: World, i: nat)
    requires WorldOk(w) && i < |w.conns| && w.conns[i].state == Handshake
    ensures w.conns[i].heard == []
  {
  }

  lemma FollowsIf(c: Client, k: Conn)
    requires c.state == k.state && c.fd == k.fd && c.outUsed - c.outSent == k.pending && Heard(c.received, k.heard)
    ensures Follows(c, k)
  {
  }

  lemma SlotBounds(c: Client)
    requires SlotOk(c)
    ensures c.outSent <= c.outUsed
  {
  }

  lemma OpenOk(c: Client)
    requires SlotOk(c) && c.state == Open
    ensures c.Settled() && c.OutOk() && c.fd >= 0 && c.Sized() && c.delivered == ParseStream(c.received).frames
  {
  }

  lemma OpenSlot(c: Client)
    requires c.Settled() && c.OutOk() && c.state == Open && c.fd >= 0
    ensures SlotOk(c)
  {
  }

  lemma QueuedSlot(c: Client)
    requires c.Settled() && c.OutOk() && c.state != Unused && c.fd >= 0 && (c.state == Handshake ==> c.Blank())
    ensures SlotOk(c)
  {
  }

  lemma LiveOk(c: Client)
    requires SlotOk(c)
    ensures c.Settled() && c.OutOk() && (c.state != Unused ==> c.fd >= 0) && (c.state == Handshake ==> c.Blank())
  {
  }

  lemma WasBlank(c: Client)
    requires SlotOk(c) && c.state == Handshake
    ensures c.Valid() && c.Blank() && c.fd >= 0
  {
  }

  lemma OpenedOk(c: Client)
    requires c.Valid() && c.state == Open && c.fd >= 0
    ensures SlotOk(c)
  {
  }

  lemma TakenOk(c: Client)
    requires c.Valid() && c.Blank() && c.state == Handshake && c.fd >= 0
    ensures SlotOk(c)
  {
  }

  /** A new client, whose memory is its own. */
  method NewClient(ghost others: seq<Client>) returns (c: Client)
    ensures fresh(c) && fresh(c.inBuf) && fresh(c.outBuf) && SlotOk(c) && c.state == Unused && c.delivered == []
    ensures forall i :: 0 <= i < |others| ==> Apart(others[i], c)
  {
    c := new Client();
    ReleasedOk(c);
  }

  method NewClients() returns (cs: seq<Client>)
    ensures |cs| == MAX_CLIENTS && forall i, j :: 0 <= i < j < |cs| ==> Apart(cs[i], cs[j])
    ensures forall i :: 0 <= i < |cs| ==> SlotOk(cs[i]) && cs[i].state == Unused
    ensures forall c :: c in cs ==> fresh(c) && fresh(c.inBuf) && fresh(c.outBuf)
  {
    hide SlotOk, Apart;
    cs := [];
    while |cs| < MAX_CLIENTS
      invariant |cs| <= MAX_CLIENTS
      invariant forall i, j :: 0 <= i < j < |cs| ==> Apart(cs[i], cs[j])
      invariant forall i :: 0 <= i < |cs| ==> fresh(cs[i]) && fresh(cs[i].inBuf) && fresh(cs[i].outBuf)
      invariant forall i :: 0 <= i < |cs| ==> SlotOk(cs[i]) && cs[i].state == Unused && cs[i].delivered == []
    {
      var c := NewClient(cs);
      cs := cs + [c];
    }
  }

  lemma ReleasedOk(c: Client)
    requires c.Valid() && c.Blank() && c.state == Unused && c.fd == -1
    ensures SlotOk(c)
  {
  }

  lemma FreeIsBlank(c: Client)
    requires SlotOk(c) && c.state == Unused
    ensures c.Blank() && c.fd == -1
  {
  }

  lemma NobodyAgrees(slots: seq<Slot>)
    requires forall i :: 0 <= i < |slots| ==> !slots[i].live
    ensures Agrees([], slots)
  {
  }

  ghost predicate Apart(a: Client, b: Client) {
    a != b && a.inBuf != b.inBuf && a.inBuf != b.outBuf && a.outBuf != b.inBuf && a.outBuf != b.outBuf
  }
}
