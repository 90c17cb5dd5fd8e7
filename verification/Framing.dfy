/** Length-prefixed frames: four bytes, most significant first, and that many bytes of payload. */
module Framing {
  import opened Bytes

  const MAX_JSON_SIZE: nat := 65536

  type Message = seq<byte>

  function Low(x: nat): (b: byte) {
    x % 256
  }

  /** htonl, as bytes. */
  function Header(n: u32): (h: seq<byte>)
    ensures |h| == 4
  {
    [Low(n / 0x100_0000), Low(n / 0x1_0000), Low(n / 256), Low(n)]
  }

  /** ntohl of the first four bytes. */
  function Length(s: seq<byte>): (n: u32)
    requires |s| >= 4
  {
    var b0: int, b1: int, b2: int, b3: int := s[0], s[1], s[2], s[3];
    b0 * 0x100_0000 + b1 * 0x1_0000 + b2 * 256 + b3
  }

  lemma HeaderLength(n: u32, rest: seq<byte>)
    ensures Length(Header(n) + rest) == n
  {
    assert n / 256 / 256 == n / 0x1_0000;
    assert n / 256 / 256 / 256 == n / 0x100_0000;
  }

  /** The number that bytes stand for, the most significant first. */
  function BigEndian(s: seq<byte>): nat {
    if s == [] then 0 else 256 * BigEndian(s[..|s| - 1]) + s[|s| - 1]
  }

  /** A header is the length in network byte order, for the sender as for the receiver. */
  lemma HeaderIsBigEndian(s: seq<byte>, n: u32)
    ensures |s| >= 4 ==> Length(s) == BigEndian(s[..4])
    ensures BigEndian(Header(n)) == n
  {
    if |s| >= 4 {
      FourBytes(s[..4]);
    }
    FourBytes(Header(n));
    HeaderLength(n, []);
    assert Header(n) + [] == Header(n);
  }

  lemma FourBytes(h: seq<byte>)
    requires |h| == 4
    ensures BigEndian(h) == Length(h)
  {
    var h3 := h[..3];
    var h2 := h[..2];
    var h1 := h[..1];
    assert h3[..2] == h2 && h2[..1] == h1 && h1[..0] == [];
    var b0: int, b1: int := h[0], h[1];
    assert BigEndian(h1) == b0;
    assert BigEndian(h2) == 256 * b0 + b1;
    assert BigEndian(h3) == 256 * BigEndian(h2) + h[2];
    assert BigEndian(h) == 256 * BigEndian(h3) + h[3];
  }

  // ----- what a stream of bytes means -----

  /** Why the parse of a stream stops: the next frame is not complete, its length is refused, or it is zero,
      which the receiver takes for "no header yet". */
  datatype Stop = Incomplete | Oversize | ZeroLength

  datatype Parse = Parse(frames: seq<Message>, rest: seq<byte>, stop: Stop)

  function ParseStream(s: seq<byte>): (r: Parse)
    ensures |r.rest| <= |s|
    ensures r.stop.Incomplete? ==> |r.rest| < 4 + MAX_JSON_SIZE
    decreases |s|
  {
    if |s| < 4 then Parse([], s, Incomplete)
    else if Length(s) > MAX_JSON_SIZE then Parse([], s, Oversize)
    else if Length(s) == 0 then Parse([], s, ZeroLength)
    else if |s| < 4 + Length(s) then Parse([], s, Incomplete)
    else
      var r := ParseStream(s[4 + Length(s)..]);
      r.(frames := [s[4..4 + Length(s)]] + r.frames)
  }

  /** The first frame is complete. */
  predicate HasFrame(s: seq<byte>) {
    |s| >= 4 && 0 < Length(s) <= MAX_JSON_SIZE && |s| >= 4 + Length(s)
  }

  lemma ParseStep(s: seq<byte>)
    requires HasFrame(s)
    ensures ParseStream(s) == ParseStream(s[4 + Length(s)..]).(frames := [s[4..4 + Length(s)]] + ParseStream(s[4 + Length(s)..]).frames)
  {
  }

  /** What a parse followed by more bytes comes to. */
  function Resumed(r: Parse, b: seq<byte>): Parse {
    if r.stop.Incomplete? then ParseStream(r.rest + b).(frames := r.frames + ParseStream(r.rest + b).frames)
    else r.(rest := r.rest + b)
  }

  /** A parse does not look beyond what it has: later bytes only add to it. */
  lemma {:induction false} ParseMore(a: seq<byte>, b: seq<byte>)
    ensures ParseStream(a + b) == Resumed(ParseStream(a), b)
    decreases |a|
  {
    hide ParseStream, Length;
    if HasFrame(a) {
      var n := Length(a);
      var tail := a[4 + n..];
      assert Length(a + b) == n by { SameLength(a, b); }
      assert (a + b)[4 + n..] == tail + b && (a + b)[4..4 + n] == a[4..4 + n];
      ParseStep(a);
      ParseStep(a + b);
      ParseMore(tail, b);
      assert forall f: seq<Message> :: [a[4..4 + n]] + (ParseStream(tail).frames + f) == [a[4..4 + n]] + ParseStream(tail).frames + f;
    } else {
      ParseAtHeader(a, b);
    }
  }

  lemma SameLength(a: seq<byte>, b: seq<byte>)
    requires |a| >= 4
    ensures Length(a + b) == Length(a)
  {
  }

  lemma ParseAtHeader(a: seq<byte>, b: seq<byte>)
    requires !HasFrame(a)
    ensures ParseStream(a).frames == [] && ParseStream(a).rest == a
    ensures ParseStream(a + b) == Resumed(ParseStream(a), b)
  {
    assert [] + ParseStream(a + b).frames == ParseStream(a + b).frames;
    if |a| >= 4 {
      SameLength(a, b);
    }
  }

  /** The frames of a prefix are a prefix of the frames. */
  lemma PrefixFrames(a: seq<byte>, b: seq<byte>)
    ensures ParseStream(a).frames <= ParseStream(a + b).frames
  {
    ParseMore(a, b);
  }

  // ----- what a sender writes -----

  function Frame(m: Message): (f: seq<byte>)
    requires |m| <= MAX_JSON_SIZE
  {
    Header(|m|) + m
  }

  function Frames(ms: seq<Message>): (s: seq<byte>)
    requires forall i :: 0 <= i < |ms| ==> |ms[i]| <= MAX_JSON_SIZE
  {
    if ms == [] then [] else Frame(ms[0]) + Frames(ms[1..])
  }

  lemma {:induction false} FramesAppend(ms: seq<Message>, m: Message)
    requires forall i :: 0 <= i < |ms| ==> |ms[i]| <= MAX_JSON_SIZE
    requires |m| <= MAX_JSON_SIZE
    ensures Frames(ms + [m]) == Frames(ms) + Frame(m)
    decreases |ms|
  {
    if ms == [] {
      assert [] + [m] == [m];
      assert [m][1..] == [];
      assert Frame(m) + [] == Frame(m) && [] + Frame(m) == Frame(m);
    } else {
      assert (ms + [m])[1..] == ms[1..] + [m];
      FramesAppend(ms[1..], m);
      assert Frame(ms[0]) + (Frames(ms[1..]) + Frame(m)) == Frame(ms[0]) + Frames(ms[1..]) + Frame(m);
    }
  }

  /** The messages before the first empty one. */
  function UpToEmpty(ms: seq<Message>): (r: seq<Message>)
    ensures |r| <= |ms| && forall i :: 0 <= i < |r| ==> r[i] == ms[i] && r[i] != []
    ensures |r| < |ms| ==> ms[|r|] == []
  {
    if ms == [] || ms[0] == [] then [] else [ms[0]] + UpToEmpty(ms[1..])
  }

  lemma FrameFirst(m: Message, tail: seq<byte>)
    requires |m| <= MAX_JSON_SIZE
    ensures var s := Frame(m) + tail;
            && |s| == 4 + |m| + |tail| && Length(s) == |m| && s[4..4 + |m|] == m && s[4 + |m|..] == tail
            && (HasFrame(s) <==> m != [])
  {
    hide Length, Header;
    HeaderLength(|m|, m + tail);
    assert Frame(m) + tail == Header(|m|) + (m + tail);
  }

  lemma ParseZero(s: seq<byte>)
    requires |s| >= 4 && Length(s) == 0
    ensures ParseStream(s) == Parse([], s, ZeroLength)
  {
  }

  /** A receiver gets back what was sent up to the first empty message, and nothing more. */
  lemma {:induction false} RoundTrip(ms: seq<Message>)
    requires forall i :: 0 <= i < |ms| ==> |ms[i]| <= MAX_JSON_SIZE
    ensures ParseStream(Frames(ms)).frames == UpToEmpty(ms)
    ensures |UpToEmpty(ms)| == |ms| ==> ParseStream(Frames(ms)) == Parse(ms, [], Incomplete)
    ensures |UpToEmpty(ms)| < |ms| ==> ParseStream(Frames(ms)).stop == ZeroLength
    decreases |ms|
  {
    hide Length, Frame, HasFrame;
    if ms != [] {
      hide ParseStream;
      var m, tail := ms[0], Frames(ms[1..]);
      FrameFirst(m, tail);
      if m != [] {
        ParseStep(Frames(ms));
        RoundTrip(ms[1..]);
        assert [ms[0]] + ms[1..] == ms;
      } else {
        ParseZero(Frames(ms));
      }
    }
  }

  /** The non-empty ones among the messages. */
  function NonEmpty(ms: seq<Message>): (r: seq<Message>) {
    if ms == [] then [] else (if ms[0] == [] then [] else [ms[0]]) + NonEmpty(ms[1..])
  }

  /** No empty message stands before a non-empty one. */
  predicate EmptyLast(ms: seq<Message>) {
    forall i, j :: 0 <= i < j < |ms| && ms[i] == [] ==> ms[j] == []
  }

  lemma {:induction false} NonEmptyNone(ms: seq<Message>)
    ensures NonEmpty(ms) == [] <==> forall i :: 0 <= i < |ms| ==> ms[i] == []
    decreases |ms|
  {
    if ms != [] {
      NonEmptyNone(ms[1..]);
      assert forall i :: 1 <= i < |ms| ==> ms[i] == ms[1..][i - 1];
    }
  }

  /** All non-empty messages arrive exactly if no empty one was sent before the last of them. */
  lemma {:induction false} AllArrive(ms: seq<Message>)
    ensures UpToEmpty(ms) == NonEmpty(ms) <==> EmptyLast(ms)
    decreases |ms|
  {
    if ms != [] {
      var tail := ms[1..];
      AllArrive(tail);
      NonEmptyNone(tail);
      assert forall i :: 0 <= i < |tail| ==> tail[i] == ms[i + 1];
      if ms[0] != [] {
        assert [ms[0]] + UpToEmpty(tail) == [ms[0]] + NonEmpty(tail) <==> UpToEmpty(tail) == NonEmpty(tail) by {
          ConsEqual(ms[0], UpToEmpty(tail), NonEmpty(tail));
        }
        assert EmptyLast(ms) <==> EmptyLast(tail);
      } else {
        assert EmptyLast(ms) <==> forall i :: 0 <= i < |tail| ==> tail[i] == [];
      }
    }
  }

  lemma ConsEqual(m: Message, a: seq<Message>, b: seq<Message>)
    ensures [m] + a == [m] + b <==> a == b
  {
    assert ([m] + a)[1..] == a && ([m] + b)[1..] == b;
  }
}
