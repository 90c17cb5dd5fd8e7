/** One client of the TLS servers: its two buffers, filled and emptied in place. */
module Connection {
  import opened Bytes
  import opened Framing

  const BUF_SIZE: nat := MAX_JSON_SIZE + 4

  /** Parsing what a parse has left over, with more bytes behind it, continues that parse. */
  lemma ParseOnward(a: seq<byte>, b: seq<byte>)
    ensures var r, r' := ParseStream(a), ParseStream(ParseStream(a).rest + b);
            ParseStream(a + b) == r'.(frames := r.frames + r'.frames)
  {
    hide ParseStream;
    ParseMore(a, b);
    ParseRest(a);
    var r := ParseStream(a);
    ParseMore(r.rest, b);
    assert r.frames + [] == r.frames;
  }

  lemma {:induction false} ParseRest(a: seq<byte>)
    ensures ParseStream(ParseStream(a).rest) == Parse([], ParseStream(a).rest, ParseStream(a).stop)
    decreases |a|
  {
    hide Length, ParseStream;
    if HasFrame(a) {
      ParseStep(a);
      ParseRest(a[4 + Length(a)..]);
    } else {
      ParseAtHeader(a, []);
    }
  }

  // ----- copying -----

  /** memcpy into a buffer. */
  method CopyIn(buf: array<byte>, at: nat, data: seq<byte>)
    requires at + |data| <= buf.Length
    modifies buf
    ensures buf[..] == old(buf[..at]) + data + old(buf[at + |data|..])
  {
    var i := 0;
    while i < |data|
      invariant 0 <= i <= |data|
      invariant buf[..at] == old(buf[..at]) && buf[at..at + i] == data[..i] && buf[at + i..] == old(buf[at + i..])
    {
      buf[at + i] := data[i];
      assert buf[at..at + i + 1] == data[..i + 1];
      i := i + 1;
    }
    assert buf[..] == buf[..at] + buf[at..at + |data|] + buf[at + |data|..];
  }

  /** memmove to the front of a buffer. */
  method MoveDown(buf: array<byte>, from: nat, n: nat)
    requires from + n <= buf.Length
    modifies buf
    ensures buf[..n] == old(buf[from..from + n])
  {
    var i := 0;
    while i < n
      invariant 0 <= i <= n
      invariant buf[..i] == old(buf[from..from + i])
      invariant forall k :: i <= k < buf.Length ==> buf[k] == old(buf[k])
    {
      buf[i] := buf[from + i];
      i := i + 1;
    }
  }

  // ----- one client -----

  datatype State = Unused | Handshake | Open | Closing

  class Client {
    var fd: int
    var state: State

    const inBuf: array<byte>
    var inUsed: nat
    var expectedLen: u32

    const outBuf: array<byte>
    var outUsed: nat
    var outSent: nat

    /** The on_json_received calls since the slot was taken. */
    var delivered: seq<Message>

    /** All bytes read; all messages accepted for sending; all bytes written. */
    ghost var received: seq<byte>
    ghost var accepted: seq<Message>
    ghost var written: seq<byte>

    constructor ()
      ensures fd == -1 && state == Unused && Valid() && Blank()
      ensures fresh(inBuf) && fresh(outBuf)
    {
      fd, state := -1, Unused;
      inBuf := new byte[BUF_SIZE](_ => 0);
      outBuf := new byte[BUF_SIZE](_ => 0);
      inUsed, expectedLen, outUsed, outSent, delivered := 0, 0, 0, 0, [];
      received, accepted, written := [], [], [];
    }

    ghost predicate Sized()
    {
      inBuf.Length == outBuf.Length == BUF_SIZE && inBuf != outBuf
    }

    /** The slot is given to a new connection: nothing of an earlier one is left. */
    method Take(newFd: int)
      requires Sized()
      modifies this
      ensures fd == newFd && state == Handshake && Valid() && Blank()
    {
      fd, state := newFd, Handshake;
      Clear();
    }

    /** The slot becomes free. */
    method Release()
      requires Sized()
      modifies this
      ensures fd == -1 && state == Unused && Valid() && Blank()
    {
      fd, state := -1, Unused;
      Clear();
    }

    /** The handshake is over. */
    method FinishHandshake()
      requires Valid()
      modifies this`state
      ensures state == Open && Valid() && (old(Blank()) ==> Blank())
    {
      state := Open;
    }

    method Clear()
      requires Sized()
      modifies this
      ensures fd == old(fd) && state == old(state) && Valid() && Blank()
    {
      inUsed, expectedLen, outUsed, outSent, delivered := 0, 0, 0, 0, [];
      received, accepted, written := [], [], [];
    }

    ghost predicate Blank()
      reads this
    {
      inUsed == 0 && expectedLen == 0 && outUsed == 0 && outSent == 0
      && delivered == [] && received == [] && accepted == [] && written == []
    }

    /** The bytes of the input buffer that are in use. */
    function Pending(): seq<byte>
      reads this, inBuf
    {
      if inUsed <= inBuf.Length then inBuf[..inUsed] else []
    }

    ghost predicate Buffers()
      reads this
    {
      inBuf.Length == outBuf.Length == BUF_SIZE && inBuf != outBuf && inUsed <= BUF_SIZE
    }

    /** Between two reads: everything complete has been delivered, the rest is in the buffer, and expectedLen
        is the length in its header, if there is one. */
    ghost predicate Settled()
      reads this, inBuf
    {
      var r := ParseStream(received);
      Buffers() && delivered == r.frames && Pending() == r.rest && !r.stop.Oversize?
      && expectedLen == (if |r.rest| >= 4 then Length(r.rest) else 0)
    }

    ghost predicate OutOk()
      reads this, outBuf
    {
      outBuf.Length == BUF_SIZE && outSent <= outUsed <= BUF_SIZE
      && (forall i :: 0 <= i < |accepted| ==> |accepted[i]| <= MAX_JSON_SIZE)
      && written + outBuf[outSent..outUsed] == Frames(accepted)
    }

    ghost predicate Valid()
      reads this, inBuf, outBuf
    {
      Settled() && OutOk()
    }

    // ----- receiving -----

    ghost predicate Draining()
      reads this, inBuf
    {
      Buffers() && PartParsed(received, delivered, Pending(), expectedLen)
    }

    /** Takes the first frame out of the buffer, for delivery. */
    method TakeFrame()
      requires Draining() && expectedLen > 0 && inUsed >= 4 + expectedLen
      modifies this`inUsed, this`expectedLen, this`delivered, inBuf
      ensures Draining() && inUsed < old(inUsed)
      ensures old(OutOk()) ==> OutOk()
    {
      hide PartParsed;
      ghost var was := Pending();
      FrameTaken(received, delivered, was, expectedLen);
      var json := inBuf[4..4 + expectedLen];
      assert json == was[4..4 + expectedLen];
      var remaining := inUsed - (4 + expectedLen);
      assert inBuf[4 + expectedLen..4 + expectedLen + remaining] == was[4 + expectedLen..];
      MoveDown(inBuf, 4 + expectedLen, remaining);
      inUsed := remaining;
      expectedLen := 0;
      delivered := delivered + [json];
    }

    /** Takes all complete frames out of the buffer; fails on a header that announces too much. */
    method Drain() returns (ok: bool)
      requires Draining()
      modifies this`inUsed, this`expectedLen, this`delivered, inBuf
      ensures ok <==> !ParseStream(received).stop.Oversize?
      ensures delivered == ParseStream(received).frames
      ensures ok ==> Settled()
      ensures old(OutOk()) ==> OutOk()
    {
      hide PartParsed, ParseStream, Length;
      while true
        invariant Draining() && (old(OutOk()) ==> OutOk())
        decreases inUsed
      {
        if expectedLen == 0 {
          if inUsed >= 4 {
            var len := Length(inBuf[..4]);
            assert inBuf[..4] + inBuf[4..inUsed] == Pending();
            HeaderSeen(received, delivered, inBuf[..4], inBuf[4..inUsed], expectedLen);
            SameLength(inBuf[..4], inBuf[4..inUsed]);
            expectedLen := len;
            if expectedLen > MAX_JSON_SIZE {
              return false;
            }
          } else {
            break;
          }
        }
        if expectedLen > 0 && inUsed >= 4 + expectedLen {
          TakeFrame();
        } else {
          break;
        }
      }
      NoMoreFrames(received, delivered, Pending(), expectedLen);
      ok := true;
    }

    /** The bytes of one read, put behind those in the buffer. */
    method Store(data: seq<byte>)
      requires Settled() && inUsed + |data| <= BUF_SIZE
      modifies this`inUsed, this`received, inBuf
      ensures Draining() && received == old(received) + data && inUsed == old(inUsed) + |data|
      ensures old(OutOk()) ==> OutOk()
    {
      hide PartParsed;
      ghost var was := Pending();
      CopyIn(inBuf, inUsed, data);
      inUsed := inUsed + |data|;
      assert Pending() == was + data;
      StillParsed(received, delivered, was, data, expectedLen);
      received := received + data;
    }

    /** tlsv2_json_try_receive. The connection has `incoming` to offer; the i-th read gets at most cut(i) bytes of it
        (at least one), and no more than there is room for. A read that gets nothing ends the loop, as an
        error if `broken`. */
    method TryReceive(incoming: seq<byte>, cut: nat -> nat, broken: bool) returns (ret: int)
      requires Settled()
      modifies this`inUsed, this`expectedLen, this`delivered, this`received, inBuf
      ensures state != Open ==> ret == -1 && received == old(received) && delivered == old(delivered) && Settled()
      ensures state == Open ==> delivered == ParseStream(old(received) + incoming).frames
      ensures state == Open ==> (ret == 0 <==> !broken && !ParseStream(old(received) + incoming).stop.Oversize?)
      ensures ret == 0 || ret == -1
      ensures ret == 0 ==> Settled()
      ensures ret == 0 && ParseStream(old(received) + incoming).stop.Incomplete? ==> received == old(received) + incoming
      ensures ret == 0 && ParseStream(received).stop.Incomplete? ==> received == old(received) + incoming
      ensures delivered == ParseStream(received).frames && old(received) <= received <= old(received) + incoming
      ensures old(OutOk()) ==> OutOk()
    {
      hide ParseStream, Length, Settled;
      RoomLeft();
      if state != Open {
        LaterBytes(received, incoming);
        return -1;
      }
      ghost var before, all := received, received + incoming;
      var left := incoming;
      var i := 0;
      assert received + left == all && received == before + incoming[..0];
      while true
        invariant Settled() && received + left == all && before <= received && (old(OutOk()) ==> OutOk())
        decreases |left|
      {
        RoomLeft();
        LaterBytes(received, left);
        var space := inBuf.Length - inUsed;
        if left == [] || space == 0 {
          return if broken then -1 else 0;
        }
        var n := ReadSize(cut(i), space, |left|);
        assert received + left == received + left[..n] + left[n..];
        var ok := ReadOnce(left[..n]);
        left := left[n..];
        LaterBytes(received, left);
        if !ok {
          return -1;
        }
        i := i + 1;
      }
    }

    /** One successful read, and the frames it completes. */
    method ReadOnce(data: seq<byte>) returns (ok: bool)
      requires Settled() && inUsed + |data| <= BUF_SIZE
      modifies this`inUsed, this`expectedLen, this`delivered, this`received, inBuf
      ensures received == old(received) + data
      ensures ok <==> !ParseStream(received).stop.Oversize?
      ensures delivered == ParseStream(received).frames
      ensures ok ==> Settled()
      ensures old(OutOk()) ==> OutOk()
    {
      hide PartParsed, ParseStream, Settled;
      Store(data);
      ok := Drain();
    }

    lemma RoomLeft()
      requires Settled()
      ensures inBuf.Length == BUF_SIZE && inUsed <= BUF_SIZE && delivered == ParseStream(received).frames
      ensures ParseStream(received).stop.Incomplete? ==> inUsed < BUF_SIZE
      ensures !ParseStream(received).stop.Oversize?
    {
      FreeSpace(received, Pending());
    }

    /** tlsv2_engine_read_plain of the BearSSL server: every chunk is taken whole, if it fits the buffer. */
    method ReadPlain(chunks: seq<seq<byte>>) returns (ret: int, taken: nat)
      requires Settled()
      modifies this`inUsed, this`expectedLen, this`delivered, this`received, inBuf
      ensures ret == (if Accepts(old(Pending()), chunks) then 0 else -1)
      ensures taken <= |chunks| && received == old(received) + Concat(chunks[..taken])
      ensures delivered == ParseStream(received).frames
      ensures ret == 0 ==> taken == |chunks| && Settled()
      ensures TakenInTurn(old(received), chunks, taken)
      ensures ret == -1 ==>
        (taken < |chunks| && !ParseStream(received).stop.Oversize? && !Fits(received, chunks[taken]))
        || (taken > 0 && ParseStream(received).stop.Oversize?)
      ensures old(OutOk()) ==> OutOk()
    {
      hide ParseStream, Settled, Accepts, TakenInTurn, Fits;
      taken := 0;
      RoomLeft();
      ghost var before := Pending();
      assert received + Concat([]) == received;
      NoneTaken(received, chunks);
      while taken < |chunks|
        invariant TakenInTurn(old(received), chunks, taken)
        invariant taken <= |chunks| && Settled() && (old(OutOk()) ==> OutOk())
        invariant received == old(received) + Concat(chunks[..taken])
        invariant Accepts(before, chunks) == Accepts(Pending(), chunks[taken..])
      {
        RoomLeft();
        ConcatNext(chunks, taken);
        ghost var rest := Pending();
        AcceptsNext(rest, chunks, taken);
        PendingIsRest();
        RestOnward(received, chunks[taken]);
        FitsBehind(received, chunks[taken], rest);
        if inUsed + |chunks[taken]| > inBuf.Length {
          return -1, taken;
        }
        assert received + chunks[taken] == old(received) + (Concat(chunks[..taken]) + chunks[taken]);
        OneMoreTaken(old(received), chunks, taken);
        var ok := ReadOnce(chunks[taken]);
        taken := taken + 1;
        if !ok {
          return -1, taken;
        }
        PendingIsRest();
      }
      assert chunks[taken..] == [];
      AcceptsAll(Pending());
      RoomLeft();
      assert chunks[..taken] == chunks;
      ret := 0;
    }

    lemma PendingIsRest()
      requires Settled()
      ensures Pending() == ParseStream(received).rest && |Pending()| == inUsed
    {
    }

    // ----- sending -----

    /** tlsv2_json_queue_send, also the core of tlsv2_send_json: one message at a time. */
    method QueueSend(json: Message) returns (ret: int)
      requires OutOk()
      modifies this`outUsed, this`outSent, this`accepted, outBuf
      ensures OutOk()
      ensures ret == (if state != Open || |json| > MAX_JSON_SIZE then -1 else if old(outUsed != outSent) then -2 else 0)
      ensures accepted == old(accepted) + (if ret == 0 then [json] else [])
      ensures outUsed - outSent == if ret == 0 then 4 + |json| else old(outUsed - outSent)
      ensures ret != 0 ==> outUsed == old(outUsed) && outSent == old(outSent) && outBuf[..] == old(outBuf[..])
      ensures ret == 0 ==> outSent == 0 && outBuf[..outUsed] == Frame(json)
      ensures old(Settled()) ==> Settled()
    {
      hide ParseStream, Length, Frames, Header;
      if state != Open {
        return -1;
      }
      if |json| > MAX_JSON_SIZE {
        return -1;
      }
      if outUsed != outSent {
        return -2;
      }
      FramesAppend(accepted, json);
      assert written + outBuf[outSent..outUsed] == written;
      CopyIn(outBuf, 0, Header(|json|));
      assert outBuf[..4] == Header(|json|);
      CopyIn(outBuf, 4, json);
      outUsed := 4 + |json|;
      outSent := 0;
      accepted := accepted + [json];
      assert outBuf[0..outUsed] == outBuf[..4] + outBuf[4..outUsed];
      ret := 0;
    }

    /** Some bytes have left. */
    method Sent(n: nat)
      requires OutOk() && outSent + n <= outUsed
      modifies this`outUsed, this`outSent, this`written
      ensures OutOk() && written == old(written) + old(outBuf[outSent..outSent + n])
      ensures if old(outSent) + n == old(outUsed) then outUsed == 0 && outSent == 0
              else outUsed == old(outUsed) && outSent == old(outSent) + n
      ensures old(Settled()) ==> Settled()
    {
      hide ParseStream, Length, Frames;
      assert outBuf[outSent..outUsed] == outBuf[outSent..outSent + n] + outBuf[outSent + n..outUsed];
      assert written + (outBuf[outSent..outSent + n] + outBuf[outSent + n..outUsed])
          == written + outBuf[outSent..outSent + n] + outBuf[outSent + n..outUsed];
      written := written + outBuf[outSent..outSent + n];
      outSent := outSent + n;
      if outSent >= outUsed {
        assert written + outBuf[outSent..outUsed] == written;
        outUsed := 0;
        outSent := 0;
      }
    }

    /** tlsv2_json_flush: one SSL_write of what is pending. */
    method Flush(result: WriteResult) returns (ret: int)
      requires OutOk() && (result.Wrote? && outSent < outUsed ==> 1 <= result.n <= outUsed - outSent)
      modifies this`outUsed, this`outSent, this`written
      ensures OutOk()
      ensures ret == (if state != Open then -1 else if old(outSent == outUsed) then 0
                      else match result case Wrote(_) => 1 case Retry => 0 case Failed => -1)
      ensures written == old(written) + (if ret == 1 then old(outBuf[outSent..])[..result.n] else [])
      ensures ret != 1 ==> outUsed == old(outUsed) && outSent == old(outSent)
      ensures outUsed - outSent == old(outUsed - outSent) - (if ret == 1 then result.n else 0)
      ensures old(Settled()) ==> Settled()
    {
      if state != Open {
        return -1;
      }
      if outSent >= outUsed {
        return 0;
      }
      match result
      case Wrote(n) =>
        assert outBuf[outSent..outSent + n] == outBuf[outSent..][..n];
        Sent(n);
        ret := 1;
      case Retry => ret := 0;
      case Failed => ret := -1;
    }

    /** tlsv2_engine_write_plain of the BearSSL server: `rooms` are the sizes of the buffers the engine offers, one
        after the other, until it has none. */
    method WritePlain(rooms: seq<nat>) returns (ret: int)
      requires OutOk() && forall i :: 0 <= i < |rooms| ==> rooms[i] > 0
      modifies this`outUsed, this`outSent, this`written
      ensures OutOk() && (ret == 0 || ret == 1)
      ensures ret == 1 <==> old(outSent < outUsed) && outSent == outUsed
      ensures written == old(written) + old(outBuf[..])[old(outSent)..old(outSent) + Least(old(outUsed - outSent), Total(rooms))]
      ensures old(Settled()) ==> Settled()
    {
      hide Settled, Frames, ParseStream;
      if outSent >= outUsed {
        return 0;
      }
      ghost var all, first := outBuf[..], outSent;
      var i := 0;
      while i < |rooms|
        invariant (old(Settled()) ==> Settled())
        invariant i <= |rooms| && OutOk() && outUsed == old(outUsed) && old(outSent) <= outSent < outUsed
        invariant written == old(written) + all[first..outSent] && outBuf[..] == all
        invariant outSent - old(outSent) == Total(rooms[..i])
      {
        TotalNext(rooms, i);
        var toCopy := outUsed - outSent;
        if toCopy > rooms[i] {
          toCopy := rooms[i];
        }
        Slices(old(written), all, first, outSent, outSent + toCopy);
        assert outBuf[outSent..outSent + toCopy] == all[outSent..outSent + toCopy];
        Sent(toCopy);
        if outSent >= outUsed {
          return 1;
        }
        i := i + 1;
      }
      assert rooms[..|rooms|] == rooms;
      ret := 0;
    }
  }

  lemma Slices(before: seq<byte>, all: seq<byte>, a: nat, b: nat, c: nat)
    requires a <= b <= c <= |all|
    ensures before + all[a..b] + all[b..c] == before + all[a..c]
  {
  }

  /** What one SSL_write reports. */
  datatype WriteResult = Wrote(n: nat) | Retry | Failed

  function Least(a: int, b: int): int { if a <= b then a else b }

  function Total(s: seq<nat>): (n: nat) {
    if s == [] then 0 else s[0] + Total(s[1..])
  }

  lemma {:induction false} TotalSplit(a: seq<nat>, b: seq<nat>)
    ensures Total(a + b) == Total(a) + Total(b)
    decreases |a|
  {
    if a == [] {
      assert a + b == b;
    } else {
      assert (a + b)[1..] == a[1..] + b;
      TotalSplit(a[1..], b);
    }
  }

  lemma TotalNext(s: seq<nat>, i: nat)
    requires i < |s|
    ensures Total(s[..i + 1]) == Total(s[..i]) + s[i] <= Total(s)
  {
    assert s[..i + 1] == s[..i] + [s[i]] && s == s[..i] + [s[i]] + s[i + 1..];
    TotalSplit(s[..i], [s[i]]);
    TotalSplit(s[..i + 1], s[i + 1..]);
  }

  // ----- capacity of the BearSSL receiver -----

  function Concat(chunks: seq<seq<byte>>): (s: seq<byte>) {
    if chunks == [] then [] else Concat(AllButLast(chunks)) + chunks[|chunks| - 1]
  }

  function AllButLast(chunks: seq<seq<byte>>): (r: seq<seq<byte>>)
    requires chunks != []
    ensures |r| == |chunks| - 1
  {
    chunks[..|chunks| - 1]
  }

  lemma ConcatNext(chunks: seq<seq<byte>>, i: nat)
    requires i < |chunks|
    ensures Concat(chunks[..i + 1]) == Concat(chunks[..i]) + chunks[i]
  {
    assert chunks[..i + 1][..i] == chunks[..i];
  }

  /** Behind what these bytes leave unparsed there is room for the chunk. */
  predicate Fits(received: seq<byte>, chunk: seq<byte>) {
    |ParseStream(received).rest| + |chunk| <= BUF_SIZE
  }

  /** Each of the chunks taken has found room behind the ones before it, none of which had a refused header. */
  ghost predicate TakenInTurn(received: seq<byte>, chunks: seq<seq<byte>>, taken: nat) {
    taken <= |chunks| && forall i {:trigger chunks[i]} :: 0 <= i < taken ==> ChunkTaken(received + Concat(chunks[..i]), chunks[i])
  }

  predicate ChunkTaken(received: seq<byte>, chunk: seq<byte>) {
    !ParseStream(received).stop.Oversize? && Fits(received, chunk)
  }

  lemma NoneTaken(received: seq<byte>, chunks: seq<seq<byte>>)
    ensures TakenInTurn(received, chunks, 0)
  {
  }

  lemma OneMoreTaken(received: seq<byte>, chunks: seq<seq<byte>>, taken: nat)
    requires TakenInTurn(received, chunks, taken) && taken < |chunks|
    requires ChunkTaken(received + Concat(chunks[..taken]), chunks[taken])
    ensures TakenInTurn(received, chunks, taken + 1)
  {
  }

  lemma FitsBehind(received: seq<byte>, chunk: seq<byte>, rest: seq<byte>)
    requires rest == ParseStream(received).rest
    ensures Fits(received, chunk) <==> |rest| + |chunk| <= BUF_SIZE
  {
  }

  /** No chunk overflows the buffer and no header is refused, starting with `rest` in the buffer. */
  function Accepts(rest: seq<byte>, chunks: seq<seq<byte>>): bool
    decreases |chunks|
  {
    if chunks == [] then true
    else
      |rest| + |chunks[0]| <= BUF_SIZE
      && var r := ParseStream(rest + chunks[0]);
         !r.stop.Oversize? && Accepts(r.rest, chunks[1..])
  }

  lemma AcceptsNext(rest: seq<byte>, chunks: seq<seq<byte>>, i: nat)
    requires i < |chunks|
    ensures var r := ParseStream(rest + chunks[i]);
            Accepts(rest, chunks[i..]) == (|rest| + |chunks[i]| <= BUF_SIZE && !r.stop.Oversize? && Accepts(r.rest, chunks[i + 1..]))
  {
    assert chunks[i..][1..] == chunks[i + 1..];
  }

  lemma AcceptsAll(rest: seq<byte>)
    ensures Accepts(rest, [])
  {
  }

  lemma RestOnward(received: seq<byte>, data: seq<byte>)
    ensures var r, r' := ParseStream(ParseStream(received).rest + data), ParseStream(received + data);
            r'.rest == r.rest && r'.stop == r.stop
  {
    ParseOnward(received, data);
  }

  /** What SSL_read returns when there is something to read and room for it. */
  function ReadSize(wanted: nat, space: nat, available: nat): (n: nat)
    requires space >= 1 && available >= 1
    ensures 1 <= n <= space && n <= available
  {
    var n := if wanted == 0 then 1 else wanted;
    var m := if n <= space then n else space;
    if m <= available then m else available
  }

  /** There is room for at least one byte before every read, unless a zero-length header blocks the buffer. */
  lemma FreeSpace(received: seq<byte>, pending: seq<byte>)
    requires pending == ParseStream(received).rest
    ensures ParseStream(received).stop.Incomplete? ==> |pending| < BUF_SIZE
  {
    hide Length;
  }

  /** After a refused or zero-length header, later bytes change nothing. */
  lemma LaterBytes(a: seq<byte>, b: seq<byte>)
    ensures var r, r' := ParseStream(a), ParseStream(a + b);
            (b == [] ==> r' == r) && (!r.stop.Incomplete? ==> r'.frames == r.frames && r'.stop == r.stop)
  {
    hide ParseStream;
    ParseMore(a, b);
    assert a + [] == a;
  }

  lemma StillParsed(received: seq<byte>, delivered: seq<Message>, pending: seq<byte>, data: seq<byte>, expectedLen: u32)
    requires var r := ParseStream(received); delivered == r.frames && pending == r.rest && !r.stop.Oversize?
    requires expectedLen == (if |pending| >= 4 then Length(pending) else 0)
    ensures PartParsed(received + data, delivered, pending + data, expectedLen)
  {
    hide Length;
    ParseOnward(received, data);
    ParseRest(received);
    if |pending| >= 4 {
      SameLength(pending, data);
      HeaderAllowed(pending);
    }
  }

  lemma HeaderAllowed(s: seq<byte>)
    requires |s| >= 4 && !ParseStream(s).stop.Oversize? && ParseStream(s).frames == []
    ensures Length(s) <= MAX_JSON_SIZE
  {
  }

  /** While frames are being taken out: the parse of everything received is what has been delivered, followed
      by the parse of what is in the buffer. */
  ghost predicate PartParsed(received: seq<byte>, delivered: seq<Message>, pending: seq<byte>, expectedLen: u32) {
    var r := ParseStream(pending);
    ParseStream(received) == r.(frames := delivered + r.frames)
    && (expectedLen == 0 || (|pending| >= 4 && expectedLen == Length(pending) && expectedLen <= MAX_JSON_SIZE))
  }

  lemma FrameTaken(received: seq<byte>, delivered: seq<Message>, pending: seq<byte>, expectedLen: u32)
    requires PartParsed(received, delivered, pending, expectedLen) && expectedLen > 0 && |pending| >= 4 + expectedLen
    ensures PartParsed(received, delivered + [pending[4..4 + expectedLen]], pending[4 + expectedLen..], 0)
  {
    hide ParseStream, Length;
    ParseStep(pending);
    var json, tail := pending[4..4 + expectedLen], pending[4 + expectedLen..];
    assert delivered + ([json] + ParseStream(tail).frames) == delivered + [json] + ParseStream(tail).frames;
  }

  lemma HeaderSeen(received: seq<byte>, delivered: seq<Message>, header: seq<byte>, tail: seq<byte>, expectedLen: u32)
    requires PartParsed(received, delivered, header + tail, expectedLen) && |header| == 4
    ensures Length(header) <= MAX_JSON_SIZE ==> PartParsed(received, delivered, header + tail, Length(header))
    ensures Length(header) > MAX_JSON_SIZE ==>
      ParseStream(received).stop.Oversize? && delivered == ParseStream(received).frames
  {
    SameLength(header, tail);
    assert delivered + [] == delivered;
  }

  lemma NoMoreFrames(received: seq<byte>, delivered: seq<Message>, pending: seq<byte>, expectedLen: u32)
    requires PartParsed(received, delivered, pending, expectedLen)
    requires if expectedLen == 0 then |pending| < 4 || Length(pending) == 0 else |pending| < 4 + expectedLen
    ensures var r := ParseStream(received);
            delivered == r.frames && pending == r.rest && !r.stop.Oversize?
            && expectedLen == (if |r.rest| >= 4 then Length(r.rest) else 0)
  {
    hide Length;
    assert delivered + [] == delivered;
  }
}
