/** What arrives: from one end of a connection to the other, and how large frames and chunks may be together. */
module Delivery {
  import opened Bytes
  import opened Framing
  import opened Connection

  // ----- end to end -----

  /** Two ends of a connection that carries bytes in order: what has been delivered at one end are the first
      messages accepted at the other, up to an empty one; once everything has arrived, all messages before the
      first empty one have been delivered, which are all non-empty ones exactly if none follows an empty one. */
  lemma EndToEnd(sender: Client, receiver: Client)
    requires sender.OutOk() && receiver.Settled() && receiver.received <= sender.written
    ensures receiver.delivered <= UpToEmpty(sender.accepted)
    ensures receiver.received == sender.written && sender.outSent == sender.outUsed ==>
      receiver.delivered == UpToEmpty(sender.accepted)
      && (receiver.delivered == NonEmpty(sender.accepted) <==> EmptyLast(sender.accepted))
  {
    hide ParseStream, Frames, UpToEmpty;
    var all := Frames(sender.accepted);
    var more := sender.written[|receiver.received|..] + sender.outBuf[sender.outSent..sender.outUsed];
    assert receiver.received + more == all;
    PrefixFrames(receiver.received, more);
    RoundTrip(sender.accepted);
    AllArrive(sender.accepted);
    if receiver.received == sender.written && sender.outSent == sender.outUsed {
      assert receiver.received == all;
    }
  }

  // ----- capacity -----

  /** Every header in the stream, also that of an incomplete last frame, is between 1 and f. */
  predicate FramesAtMost(s: seq<byte>, f: nat)
    decreases |s|
  {
    |s| < 4
    || (0 < Length(s) <= f && (|s| < 4 + Length(s) || FramesAtMost(s[4 + Length(s)..], f)))
  }

  lemma {:induction false} AtMostRest(a: seq<byte>, b: seq<byte>, f: nat)
    requires FramesAtMost(a + b, f) && f <= MAX_JSON_SIZE
    ensures var r := ParseStream(a);
            r.stop.Incomplete? && |r.rest| < 4 + f && FramesAtMost(r.rest + b, f)
    decreases |a|
  {
    hide Length, ParseStream;
    if |a| >= 4 {
      SameLength(a, b);
      if HasFrame(a) {
        ParseStep(a);
        assert (a + b)[4 + Length(a)..] == a[4 + Length(a)..] + b;
        AtMostRest(a[4 + Length(a)..], b, f);
      } else {
        NoFrameYet(a);
      }
    } else {
      NoFrameYet(a);
    }
  }

  lemma NoFrameYet(a: seq<byte>)
    requires |a| < 4 || (0 < Length(a) <= MAX_JSON_SIZE && |a| < 4 + Length(a))
    ensures ParseStream(a) == Parse([], a, Incomplete)
  {
  }

  lemma {:induction false} ConcatFront(chunks: seq<seq<byte>>)
    requires chunks != []
    ensures Concat(chunks) == chunks[0] + Concat(chunks[1..])
    decreases |chunks|
  {
    if |chunks| > 1 {
      var init := AllButLast(chunks);
      ConcatFront(init);
      assert AllButLast(chunks[1..]) == init[1..];
      var last := chunks[|chunks| - 1];
      assert chunks[0] + Concat(init[1..]) + last == chunks[0] + (Concat(init[1..]) + last);
    }
  }

  /** With chunks of at most k bytes and frames of at most 65537 - k bytes the BearSSL receiver never runs out of room. */
  lemma {:induction false} Capacity(rest: seq<byte>, chunks: seq<seq<byte>>, k: nat, f: nat)
    requires f <= MAX_JSON_SIZE && k + f <= MAX_JSON_SIZE + 1
    requires forall i :: 0 <= i < |chunks| ==> |chunks[i]| <= k
    requires FramesAtMost(rest + Concat(chunks), f) && ParseStream(rest).rest == rest
    ensures Accepts(rest, chunks)
    decreases |chunks|
  {
    hide ParseStream, FramesAtMost;
    if chunks != [] {
      AtMostRest(rest, Concat(chunks), f);
      ConcatFront(chunks);
      var first, more := chunks[0], Concat(chunks[1..]);
      assert rest + Concat(chunks) == rest + first + more;
      AtMostRest(rest + first, more, f);
      ParseRest(rest + first);
      Capacity(ParseStream(rest + first).rest, chunks[1..], k, f);
    }
  }

  // ----- the bound cannot be improved -----

  function Filler(f: nat): (m: Message)
    ensures |m| == f
  {
    seq(f, i => 0x41)
  }

  /** n bytes of a stream of frames of f bytes each. */
  function Stuff(f: nat, n: nat): (s: seq<byte>)
    requires 1 <= f <= MAX_JSON_SIZE
    ensures |s| == n
    decreases n
  {
    if n < 4 + f then Frame(Filler(f))[..n] else Frame(Filler(f)) + Stuff(f, n - 4 - f)
  }

  lemma {:induction false} StuffAtMost(f: nat, n: nat)
    requires 1 <= f <= MAX_JSON_SIZE
    ensures FramesAtMost(Stuff(f, n), f)
    decreases n
  {
    hide Length, Filler;
    var m := Filler(f);
    if n < 4 + f {
      if n >= 4 {
        FrameFirst(m, []);
        assert Frame(m) + [] == Frame(m) && Frame(m)[..n] + Frame(m)[n..] == Frame(m);
        SameLength(Frame(m)[..n], Frame(m)[n..]);
      }
    } else {
      FrameFirst(m, Stuff(f, n - 4 - f));
      StuffAtMost(f, n - 4 - f);
    }
  }

  function Singles(s: seq<byte>): (chunks: seq<seq<byte>>)
    ensures |chunks| == |s|
  {
    seq(|s|, i requires 0 <= i < |s| => [s[i]])
  }

  lemma {:induction false} SinglesConcat(s: seq<byte>, last: seq<byte>)
    ensures Concat(Singles(s) + [last]) == s + last
    decreases |s|
  {
    var chunks := Singles(s) + [last];
    if s == [] {
      assert AllButLast(chunks) == [];
    } else {
      ConcatFront(chunks);
      assert chunks[1..] == Singles(s[1..]) + [last];
      SinglesConcat(s[1..], last);
      assert [s[0]] + (s[1..] + last) == s + last;
    }
  }

  /** Byte by byte up to the last byte of a frame of 65538 - k bytes, then a chunk of k bytes: one too many. */
  lemma {:induction false} OneTooMany(frame: seq<byte>, j: nat, last: seq<byte>)
    requires |frame| >= 5 && Length(frame) == |frame| - 4 <= MAX_JSON_SIZE
    requires j < |frame| && |frame| - 1 + |last| > BUF_SIZE
    ensures !Accepts(frame[..j], Singles(frame[j..|frame| - 1]) + [last])
    decreases |frame| - j
  {
    hide ParseStream, Length;
    var chunks := Singles(frame[j..|frame| - 1]) + [last];
    if j < |frame| - 1 {
      var next := frame[..j + 1];
      assert frame[..j] + chunks[0] == next;
      if |next| >= 4 {
        SameLength(next, frame[j + 1..]);
        assert next + frame[j + 1..] == frame;
      }
      NoFrameYet(next);
      assert chunks[1..] == Singles(frame[j + 1..|frame| - 1]) + [last];
      OneTooMany(frame, j + 1, last);
    }
  }

  /** For every k there is a stream of frames of 65538 - k bytes, in chunks of at most k, that overflows the buffer. */
  lemma CapacityTight(k: nat)
    returns (chunks: seq<seq<byte>>)
    requires 2 <= k <= MAX_JSON_SIZE + 1
    ensures forall i :: 0 <= i < |chunks| ==> |chunks[i]| <= k
    ensures FramesAtMost(Concat(chunks), MAX_JSON_SIZE + 2 - k)
    ensures !Accepts([], chunks)
  {
    hide FramesAtMost, Accepts, Length, Filler, Stuff;
    var f := MAX_JSON_SIZE + 2 - k;
    var frame := Frame(Filler(f));
    FrameFirst(Filler(f), []);
    assert frame + [] == frame;
    var last := frame[3 + f..] + Stuff(f, k - 1);
    chunks := Singles(frame[..3 + f]) + [last];
    SinglesConcat(frame[..3 + f], last);
    assert frame[..3 + f] + last == frame + Stuff(f, k - 1);
    StuffMore(f, k - 1);
    StuffAtMost(f, 4 + f + k - 1);
    OneTooMany(frame, 0, last);
    assert frame[..0] == [] && frame[0..|frame| - 1] == frame[..3 + f];
  }

  lemma StuffMore(f: nat, n: nat)
    requires 1 <= f <= MAX_JSON_SIZE
    ensures Stuff(f, 4 + f + n) == Frame(Filler(f)) + Stuff(f, n)
  {
  }

  /** The plaintext limit of section 6.2.1 of RFC 5246 leaves frames of 49153 bytes. */
  lemma TlsCapacity(chunks: seq<seq<byte>>)
    requires forall i :: 0 <= i < |chunks| ==> |chunks[i]| <= 16384
    requires FramesAtMost(Concat(chunks), 49153)
    ensures Accepts([], chunks)
  {
    assert [] + Concat(chunks) == Concat(chunks);
    Capacity([], chunks, 16384, 49153);
  }
}
