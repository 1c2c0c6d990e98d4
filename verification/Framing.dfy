/** Cutting a byte stream, read in chunks of any size, into length-prefixed frames. */
module Framing {
  import opened SeqEdit

  type byte = b: int | 0 <= b < 256

  const RECV_LEN := 8192

  /** Connections between servers use a two byte length, high byte first; those of clients use three bytes,
      low byte first, and a length one short of the body. */
  datatype Format = ServerFormat | ClientFormat

  function HeadLen(f: Format): nat {
    if f.ServerFormat? then 2 else 3
  }

  function LengthIn(f: Format, mb: seq<byte>): nat
    requires |mb| >= HeadLen(f)
  {
    var b: nat, c: nat := mb[0], mb[1];
    if f.ServerFormat? then b * 256 + c else
      var d: nat := mb[2];
      b + c * 256 + d * 65536
  }

  predicate Refused(f: Format, l: nat) {
    l > RECV_LEN || (f.ClientFormat? && l < 2)
  }

  function BodyLen(f: Format, l: nat): nat {
    if f.ServerFormat? then l else l + 1
  }

  /** A receiver between reads: the length carried over (0 for none), the bytes not used yet and the frames cut off so
      far, empty ones included; or a receiver that met a length it refuses. */
  datatype Recv = Recv(l: nat, mb: seq<byte>, frames: seq<seq<byte>>) | Failed(frames: seq<seq<byte>>)

  const START := Recv(0, [], [])

  /** Reads a length when none is carried over and enough bytes are there. */
  function Head(f: Format, s: Recv): (r: Recv)
    requires s.Recv?
    ensures r.Recv? ==> |r.mb| <= |s.mb|
  {
    if s.l == 0 && |s.mb| >= HeadLen(f) then
      var l := LengthIn(f, s.mb);
      if Refused(f, l) then Failed(s.frames)
      else Recv(l, s.mb[HeadLen(f)..], if l == 0 then s.frames + [[]] else s.frames)
    else s
  }

  predicate Whole(f: Format, s: Recv)
    requires s.Recv?
  {
    s.l > 0 && |s.mb| >= BodyLen(f, s.l)
  }

  function Take(f: Format, s: Recv): Recv
    requires s.Recv? && Whole(f, s)
  {
    var n := BodyLen(f, s.l);
    Recv(0, s.mb[n..], s.frames + [s.mb[..n]])
  }

  /** What a receiver does with its bytes after a read. It stops after a frame of length 0, whatever follows it. */
  function Drain(f: Format, s: Recv): Recv
    requires s.Recv?
    decreases |s.mb|
  {
    var r := Head(f, s);
    if r.Recv? && Whole(f, r) then Drain(f, Take(f, r)) else r
  }

  /** Cutting off every frame there is. */
  function Parse(f: Format, s: Recv): Recv
    requires s.Recv?
    decreases |s.mb|
  {
    var r := Head(f, s);
    if r.Failed? then r
    else if Whole(f, r) then Parse(f, Take(f, r))
    else if |r.mb| < |s.mb| && r.l == 0 then Parse(f, r)
    else r
  }

  /** No frame of length 0 has another length right behind it. */
  predicate Clean(f: Format, s: Recv)
    requires s.Recv?
    decreases |s.mb|
  {
    var r := Head(f, s);
    if r.Failed? then true
    else if Whole(f, r) then Clean(f, Take(f, r))
    else |r.mb| < |s.mb| && r.l == 0 ==> |r.mb| < HeadLen(f)
  }

  function More(s: Recv, x: seq<byte>): Recv
    requires s.Recv?
  {
    Recv(s.l, s.mb + x, s.frames)
  }

  /** Nothing left to cut off. */
  predicate Settled(f: Format, s: Recv) {
    s.Recv? ==> !Whole(f, s) && (s.l == 0 ==> |s.mb| < HeadLen(f))
  }

  lemma HeadMore(f: Format, s: Recv, x: seq<byte>)
    requires s.Recv? && (s.l > 0 || |s.mb| >= HeadLen(f))
    ensures var r := Head(f, s); Head(f, More(s, x)) == if r.Failed? then r else More(r, x)
  {
    if s.l == 0 {
      assert (s.mb + x)[HeadLen(f)..] == s.mb[HeadLen(f)..] + x;
    }
  }

  lemma TakeMore(f: Format, s: Recv, x: seq<byte>)
    requires s.Recv? && Whole(f, s)
    ensures Whole(f, More(s, x)) && Take(f, More(s, x)) == More(Take(f, s), x)
  {
    var n := BodyLen(f, s.l);
    assert (s.mb + x)[n..] == s.mb[n..] + x && (s.mb + x)[..n] == s.mb[..n];
  }

  lemma {:induction false} ParseSettles(f: Format, s: Recv)
    requires s.Recv?
    ensures Settled(f, Parse(f, s))
    ensures Settled(f, s) ==> Parse(f, s) == s
    decreases |s.mb|
  {
    var r := Head(f, s);
    if r.Recv? {
      if Whole(f, r) {
        ParseSettles(f, Take(f, r));
      } else if |r.mb| < |s.mb| && r.l == 0 {
        ParseSettles(f, r);
      }
    }
  }

  /** Cutting frames off early changes nothing: parsing what came first and then going on is parsing it all. */
  lemma {:induction false} ParseInParts(f: Format, s: Recv, x: seq<byte>)
    requires s.Recv?
    ensures var p := Parse(f, s); Parse(f, More(s, x)) == if p.Failed? then p else Parse(f, More(p, x))
    decreases |s.mb|
  {
    if s.l > 0 || |s.mb| >= HeadLen(f) {
      HeadMore(f, s, x);
      var r := Head(f, s);
      if r.Recv? {
        if Whole(f, r) {
          TakeMore(f, r, x);
          ParseInParts(f, Take(f, r), x);
        } else if |r.mb| < |s.mb| && r.l == 0 {
          ParseInParts(f, r, x);
        }
      }
    }
  }

  lemma {:induction false} CleanInParts(f: Format, s: Recv, x: seq<byte>)
    requires s.Recv? && Clean(f, More(s, x))
    ensures Clean(f, s) && (Parse(f, s).Recv? ==> Clean(f, More(Parse(f, s), x)))
    decreases |s.mb|
  {
    if s.l > 0 || |s.mb| >= HeadLen(f) {
      HeadMore(f, s, x);
      var r := Head(f, s);
      if r.Recv? {
        if Whole(f, r) {
          TakeMore(f, r, x);
          CleanInParts(f, Take(f, r), x);
        }
      }
    }
  }

  /** A read cuts off every frame there is if and only if it does not stop early. */
  lemma {:induction false} DrainIsParse(f: Format, s: Recv)
    requires s.Recv?
    ensures Clean(f, s) <==> Drain(f, s) == Parse(f, s)
    ensures Clean(f, s) <==> Settled(f, Drain(f, s))
    decreases |s.mb|
  {
    var r := Head(f, s);
    ParseSettles(f, s);
    if r.Recv? && Whole(f, r) {
      DrainIsParse(f, Take(f, r));
    } else if r.Recv? && |r.mb| < |s.mb| && r.l == 0 {
      ParseSettles(f, r);
    }
  }

  function Flat(chunks: seq<seq<byte>>): seq<byte> {
    if chunks == [] then [] else chunks[0] + Flat(chunks[1..])
  }

  /** A receiver's whole life: chunk after chunk until a length is refused. */
  function Reads(f: Format, s: Recv, chunks: seq<seq<byte>>): Recv
    decreases |chunks|
  {
    if s.Failed? || chunks == [] then s else Reads(f, Drain(f, More(s, chunks[0])), chunks[1..])
  }

  lemma {:induction false} CleanReadsParse(f: Format, s: Recv, chunks: seq<seq<byte>>)
    requires s.Recv? && Settled(f, s) && Clean(f, More(s, Flat(chunks)))
    ensures Reads(f, s, chunks) == Parse(f, More(s, Flat(chunks)))
    decreases |chunks|
  {
    if chunks == [] {
      assert More(s, []) == s;
      ParseSettles(f, s);
    } else {
      var s1, rest := More(s, chunks[0]), Flat(chunks[1..]);
      assert More(s, Flat(chunks)) == More(s1, rest);
      CleanInParts(f, s1, rest);
      ParseInParts(f, s1, rest);
      DrainIsParse(f, s1);
      if Parse(f, s1).Recv? {
        CleanReadsParse(f, Parse(f, s1), chunks[1..]);
      }
    }
  }

  function Singles(stream: seq<byte>): seq<seq<byte>> {
    if stream == [] then [] else [[stream[0]]] + Singles(stream[1..])
  }

  /** One byte at a time every frame is cut off, empty ones too, so some split always gives the whole parse. */
  lemma {:induction false} BytewiseParses(f: Format, s: Recv, stream: seq<byte>)
    requires s.Recv? && Settled(f, s)
    ensures Flat(Singles(stream)) == stream && Reads(f, s, Singles(stream)) == Parse(f, More(s, stream))
    decreases |stream|
  {
    if stream == [] {
      assert More(s, []) == s;
      ParseSettles(f, s);
    } else {
      var s1, rest := More(s, stream[..1]), stream[1..];
      assert stream == stream[..1] + rest && More(s, stream) == More(s1, rest);
      assert Singles(stream)[1..] == Singles(rest) && Singles(stream)[0] == stream[..1];
      assert Clean(f, s1);
      DrainIsParse(f, s1);
      ParseSettles(f, s1);
      ParseInParts(f, s1, rest);
      if Parse(f, s1).Recv? {
        BytewiseParses(f, Parse(f, s1), rest);
      } else {
        BytewiseParses(f, s, rest);
      }
    }
  }

  /** The size of the buffer reads go into. */
  function BufferLen(f: Format): nat {
    if f.ServerFormat? then 8192 else 4096
  }

  /** Chunks as reads can deliver them. */
  ghost predicate Readable(f: Format, chunks: seq<seq<byte>>) {
    forall i {:trigger chunks[i]} :: 0 <= i < |chunks| ==> |chunks[i]| <= BufferLen(f)
  }

  lemma {:induction false} ReadsInParts(f: Format, s: Recv, a: seq<seq<byte>>, b: seq<seq<byte>>)
    ensures Reads(f, s, a + b) == Reads(f, Reads(f, s, a), b)
    ensures Flat(a + b) == Flat(a) + Flat(b)
    decreases |a|
  {
    if a == [] {
      assert a + b == b;
    } else {
      assert (a + b)[1..] == a[1..] + b && (a + b)[0] == a[0];
      if s.Recv? {
        ReadsInParts(f, Drain(f, More(s, a[0])), a[1..], b);
      } else {
        ReadsInParts(f, s, a[1..], b);
      }
      Assoc(a[0], Flat(a[1..]), Flat(b));
    }
  }

  lemma {:induction false} SinglesReadable(f: Format, stream: seq<byte>, more: seq<seq<byte>>)
    requires Readable(f, more)
    ensures Readable(f, Singles(stream) + more)
    decreases |stream|
  {
    if stream == [] {
      assert Singles(stream) + more == more;
    } else {
      SinglesReadable(f, stream[1..], more);
      var rest := Singles(stream[1..]) + more;
      assert Singles(stream) + more == [[stream[0]]] + rest;
    }
  }

  /** These reads have not cut off what there is. */
  ghost predicate StopsEarly(f: Format, s: Recv, chunks: seq<seq<byte>>)
    requires s.Recv?
  {
    Reads(f, s, chunks) != Parse(f, More(s, Flat(chunks)))
  }

  lemma MoreTwice(s: Recv, x: seq<byte>, y: seq<byte>)
    requires s.Recv?
    ensures More(More(s, x), y) == More(s, x + y)
  {
    Assoc(s.mb, x, y);
  }

  /** Reads that stop early still do behind bytes read one by one. */
  lemma StopsEarlyLater(f: Format, s: Recv, front: seq<byte>, chunks: seq<seq<byte>>)
    requires s.Recv? && Settled(f, s) && Parse(f, More(s, front)).Recv?
    requires StopsEarly(f, Parse(f, More(s, front)), chunks)
    ensures StopsEarly(f, s, Singles(front) + chunks) && Flat(Singles(front) + chunks) == front + Flat(chunks)
  {
    BytewiseParses(f, s, front);
    ReadsInParts(f, s, Singles(front), chunks);
    ParseInParts(f, More(s, front), Flat(chunks));
    MoreTwice(s, front, Flat(chunks));
  }

  /** The bytes that make up the frame in front. */
  function Front(f: Format, s: Recv): seq<byte>
    requires s.Recv? && Head(f, s).Recv? && Whole(f, Head(f, s))
  {
    var b := BodyLen(f, Head(f, s).l);
    if s.l > 0 then s.mb[..b] else s.mb[..HeadLen(f)] + s.mb[HeadLen(f)..][..b]
  }

  lemma FrontIsFrame(f: Format, s: Recv)
    requires s.Recv? && Head(f, s).Recv? && Whole(f, Head(f, s))
    ensures var t := Take(f, Head(f, s));
      && s.mb == Front(f, s) + t.mb && |t.mb| < |s.mb|
      && Parse(f, Recv(s.l, Front(f, s), s.frames)) == Recv(0, [], t.frames)
  {
    var r := Head(f, s);
    var b, front := BodyLen(f, r.l), Front(f, s);
    var s0 := Recv(s.l, front, s.frames);
    if s.l == 0 {
      assert front[HeadLen(f)..] == s.mb[HeadLen(f)..][..b];
      assert LengthIn(f, front) == LengthIn(f, s.mb);
    }
    var r0 := Head(f, s0);
    assert r0 == Recv(r.l, r.mb[..b], s.frames);
    assert r0.mb[..b] == r.mb[..b] && r0.mb[b..] == [];
    assert Take(f, r0) == Recv(0, [], Take(f, r).frames);
    ParseSettles(f, Take(f, r0));
  }

  /** A length 0 and the length behind it, read at once. */
  lemma ZeroStopsEarly(f: Format, s: Recv)
    requires s.Recv? && !Clean(f, s) && !(Head(f, s).Recv? && Whole(f, Head(f, s)))
    ensures 2 * HeadLen(f) <= |s.mb| && StopsEarly(f, Recv(s.l, [], s.frames), [s.mb[..2 * HeadLen(f)]])
  {
    var h, none := HeadLen(f), Recv(s.l, [], s.frames);
    var c := s.mb[..2 * h];
    assert [] + c == c && Flat([c][1..]) == [] && Flat([c]) == c;
    assert LengthIn(f, c) == LengthIn(f, s.mb) == 0;
    assert Head(f, More(none, c)) == Recv(0, c[h..], s.frames + [[]]);
    assert Reads(f, none, [c]) == Drain(f, More(none, c));
    DrainIsParse(f, More(none, c));
  }

  ghost predicate CanStopEarly(f: Format, s: Recv, stream: seq<byte>)
    requires s.Recv?
  {
    exists chunks :: Readable(f, chunks) && Flat(chunks) <= stream && StopsEarly(f, s, chunks)
  }

  lemma PrefixBehind(a: seq<byte>, b: seq<byte>, front: seq<byte>)
    requires a <= b
    ensures front + a <= front + b
  {
  }

  lemma CanStopLater(f: Format, s: Recv, front: seq<byte>, rest: seq<byte>)
    requires s.Recv? && Settled(f, s) && Parse(f, More(s, front)).Recv?
    requires CanStopEarly(f, Parse(f, More(s, front)), rest)
    ensures CanStopEarly(f, s, front + rest)
  {
    var t := Parse(f, More(s, front));
    var chunks :| Readable(f, chunks) && Flat(chunks) <= rest && StopsEarly(f, t, chunks);
    StopsEarlyLater(f, s, front, chunks);
    SinglesReadable(f, front, chunks);
    PrefixBehind(Flat(chunks), rest, front);
  }

  lemma ZeroCanStop(f: Format, s: Recv)
    requires s.Recv? && !Clean(f, s) && !(Head(f, s).Recv? && Whole(f, Head(f, s)))
    ensures CanStopEarly(f, Recv(s.l, [], s.frames), s.mb)
  {
    ZeroStopsEarly(f, s);
    var c := s.mb[..2 * HeadLen(f)];
    assert Flat([c][1..]) == [] && Flat([c]) == c && Readable(f, [c]);
  }

  lemma {:induction false} DirtyStopsEarly(f: Format, s: Recv)
    requires s.Recv? && !Clean(f, s)
    ensures CanStopEarly(f, Recv(s.l, [], s.frames), s.mb)
    decreases |s.mb|
  {
    var none := Recv(s.l, [], s.frames);
    if Head(f, s).Recv? && Whole(f, Head(f, s)) {
      var t, front := Take(f, Head(f, s)), Front(f, s);
      FrontIsFrame(f, s);
      DirtyStopsEarly(f, t);
      assert More(none, front) == Recv(s.l, front, s.frames);
      CanStopLater(f, none, front, t.mb);
    } else {
      ZeroCanStop(f, s);
    }
  }

  /** Wherever the reads stand in a stream, they have cut off all there is. */
  ghost predicate SplitsAlike(f: Format, stream: seq<byte>) {
    forall chunks :: Readable(f, chunks) && Flat(chunks) <= stream ==> !StopsEarly(f, START, chunks)
  }

  lemma CleanNeverStops(f: Format, stream: seq<byte>, chunks: seq<seq<byte>>)
    requires Clean(f, More(START, stream)) && Flat(chunks) <= stream
    ensures !StopsEarly(f, START, chunks)
  {
    var x := Flat(chunks);
    assert stream == x + stream[|x|..];
    MoreTwice(START, x, stream[|x|..]);
    CleanInParts(f, More(START, x), stream[|x|..]);
    CleanReadsParse(f, START, chunks);
  }

  /** How a stream is split into reads does not matter, at any point of it, if and only if no frame of length 0 in it
      has another length right behind it. */
  lemma ChunkingDoesNotMatter(f: Format, stream: seq<byte>)
    ensures SplitsAlike(f, stream) <==> Clean(f, More(START, stream))
  {
    if Clean(f, More(START, stream)) {
      forall chunks | Readable(f, chunks) && Flat(chunks) <= stream ensures !StopsEarly(f, START, chunks) {
        CleanNeverStops(f, stream, chunks);
      }
    } else {
      assert [] + stream == stream;
      DirtyStopsEarly(f, More(START, stream));
    }
  }

  /** A length 0 and a whole frame in one read: the frame is left for the next read, which may never come. */
  lemma FrameLeftBehind(chunk: seq<byte>)
    requires chunk == [0, 0, 0, 1, 7]
    ensures Reads(ServerFormat, START, [chunk]) == Recv(0, [0, 1, 7], [[]])
    ensures Parse(ServerFormat, More(START, chunk)) == Recv(0, [], [[], [7]])
  {
    var s := More(START, chunk);
    var r := Head(ServerFormat, s);
    assert s.mb == chunk && LengthIn(ServerFormat, chunk) == 0 && chunk[2..] == [0, 1, 7];
    assert r == Recv(0, [0, 1, 7], [[]]) && Flat([chunk][1..]) == [];
    assert Reads(ServerFormat, START, [chunk]) == Drain(ServerFormat, s);
    assert [0, 1, 7] == Encoded(ServerFormat, [7]);
    ParseOfFrame(ServerFormat, [[]], [7]);
    assert [[]] + [[7]] == [[], [7]];
  }

  /** Which lengths are refused, byte by byte, and what is carried over of the others. */
  lemma LengthsRefused(f: Format, h: seq<byte>)
    requires |h| == if f.ServerFormat? then 2 else 3
    ensures var b: int, c: int := h[0], h[1];
      var l := if f.ServerFormat? then b * 256 + c else var d: int := h[2]; b + c * 256 + d * 65536;
      Reads(f, START, [h]) ==
      if l > 8192 || (f.ClientFormat? && l < 2) then Failed([]) else Recv(l, [], if l == 0 then [[]] else [])
  {
    assert More(START, h) == Recv(0, h, []) && [h][1..] == [];
  }

  /** Client connections refuse the lengths that would make reads stop early. */
  lemma {:induction false} ClientFormatIsClean(s: Recv)
    requires s.Recv?
    ensures Clean(ClientFormat, s)
    decreases |s.mb|
  {
    var r := Head(ClientFormat, s);
    if r.Recv? && Whole(ClientFormat, r) {
      ClientFormatIsClean(Take(ClientFormat, r));
    }
  }

  function HeadOf(f: Format, l: nat): seq<byte>
    requires l < 65536
  {
    if f.ServerFormat? then [l / 256, l % 256] else [l % 256, l / 256, 0]
  }

  /** A frame's length field. */
  function LengthOf(f: Format, d: seq<byte>): int {
    if f.ServerFormat? then |d| else |d| - 1
  }

  function Encoded(f: Format, d: seq<byte>): seq<byte>
    requires 0 <= LengthOf(f, d) <= RECV_LEN
  {
    HeadOf(f, LengthOf(f, d)) + d
  }

  predicate Sendable(f: Format, d: seq<byte>) {
    0 <= LengthOf(f, d) && !Refused(f, LengthOf(f, d))
  }

  ghost predicate AllSendable(f: Format, frames: seq<seq<byte>>) {
    forall i {:trigger frames[i]} :: 0 <= i < |frames| ==> Sendable(f, frames[i])
  }

  ghost function Stream(f: Format, frames: seq<seq<byte>>): seq<byte>
    requires AllSendable(f, frames)
  {
    if frames == [] then [] else Stream(f, frames[..|frames| - 1]) + Encoded(f, frames[|frames| - 1])
  }

  /** The lengths a receiver holds are ones it accepts. */
  ghost predicate Sane(f: Format, s: Recv) {
    AllSendable(f, s.frames) && (s.Recv? && s.l > 0 ==> !Refused(f, s.l))
  }

  /** Every byte a receiver got: the frames cut off with their lengths, the length carried over and the rest. */
  ghost function Account(f: Format, s: Recv): seq<byte>
    requires s.Recv? && Sane(f, s)
  {
    Stream(f, s.frames) + (if s.l > 0 then HeadOf(f, s.l) else []) + s.mb
  }

  lemma HeadOfLength(f: Format, h: seq<byte>)
    requires |h| == HeadLen(f) && LengthIn(f, h) <= RECV_LEN
    ensures HeadOf(f, LengthIn(f, h)) == h
  {
  }

  lemma HeadKeepsBytes(f: Format, s: Recv)
    requires s.Recv? && Sane(f, s)
    ensures Sane(f, Head(f, s)) && (Head(f, s).Recv? ==> Account(f, Head(f, s)) == Account(f, s))
  {
    var r := Head(f, s);
    if s.l == 0 && |s.mb| >= HeadLen(f) && r.Recv? {
      var h := s.mb[..HeadLen(f)];
      var l := LengthIn(f, s.mb);
      assert LengthIn(f, h) == l;
      HeadOfLength(f, h);
      var front := Stream(f, s.frames);
      assert s.mb == h + r.mb;
      if l == 0 {
        assert r.frames[..|r.frames| - 1] == s.frames;
        assert Encoded(f, []) == h;
        assert Account(f, r) == (front + h) + [] + r.mb;
      }
      assert (front + h) + r.mb == front + [] + (h + r.mb);
    }
  }

  lemma TakeKeepsBytes(f: Format, s: Recv)
    requires s.Recv? && Sane(f, s) && Whole(f, s)
    ensures Sane(f, Take(f, s)) && Account(f, Take(f, s)) == Account(f, s)
  {
    var r, n := Take(f, s), BodyLen(f, s.l);
    var d := s.mb[..n];
    assert r.frames[..|r.frames| - 1] == s.frames && s.mb == d + r.mb;
    var front, h := Stream(f, s.frames), HeadOf(f, s.l);
    assert (front + (h + d)) + [] + r.mb == (front + h) + (d + r.mb);
  }

  lemma {:induction false} DrainKeepsBytes(f: Format, s: Recv)
    requires s.Recv? && Sane(f, s)
    ensures Sane(f, Drain(f, s)) && (Drain(f, s).Recv? ==> Account(f, Drain(f, s)) == Account(f, s))
    decreases |s.mb|
  {
    HeadKeepsBytes(f, s);
    var r := Head(f, s);
    if r.Recv? && Whole(f, r) {
      TakeKeepsBytes(f, r);
      DrainKeepsBytes(f, Take(f, r));
    }
  }

  lemma AccountMore(f: Format, s: Recv, x: seq<byte>)
    requires s.Recv? && Sane(f, s)
    ensures Account(f, More(s, x)) == Account(f, s) + x
  {
    var front := Stream(f, s.frames) + if s.l > 0 then HeadOf(f, s.l) else [];
    assert front + (s.mb + x) == (front + s.mb) + x;
  }

  /** However a stream is split, and wherever a receiver is in it, no byte is lost, doubled or out of place. */
  lemma {:induction false} EveryByteAccounted(f: Format, s: Recv, chunks: seq<seq<byte>>)
    requires s.Recv? && Sane(f, s)
    ensures Sane(f, Reads(f, s, chunks))
    ensures Reads(f, s, chunks).Recv? ==> Account(f, Reads(f, s, chunks)) == Account(f, s) + Flat(chunks)
    decreases |chunks|
  {
    if chunks == [] {
      assert Account(f, s) + [] == Account(f, s);
    } else {
      var s1, r := More(s, chunks[0]), Drain(f, More(s, chunks[0]));
      AccountMore(f, s, chunks[0]);
      DrainKeepsBytes(f, s1);
      assert Reads(f, s, chunks) == Reads(f, r, chunks[1..]);
      if r.Recv? {
        EveryByteAccounted(f, r, chunks[1..]);
        Assoc(Account(f, s), chunks[0], Flat(chunks[1..]));
      }
    }
  }

  lemma {:induction false} ParseKeepsFrames(f: Format, s: Recv)
    requires s.Recv?
    ensures s.frames <= Parse(f, s).frames
    decreases |s.mb|
  {
    var r := Head(f, s);
    if r.Recv? {
      if Whole(f, r) {
        ParseKeepsFrames(f, Take(f, r));
      } else if |r.mb| < |s.mb| && r.l == 0 {
        ParseKeepsFrames(f, r);
      }
    }
  }

  ghost predicate NoneEmpty(frames: seq<seq<byte>>) {
    forall i {:trigger frames[i]} :: 0 <= i < |frames| ==> frames[i] != []
  }

  /** A stream all of whose frames hold something is one that no split can delay. */
  lemma {:induction false} NoneEmptyIsClean(f: Format, s: Recv)
    requires s.Recv? && NoneEmpty(Parse(f, s).frames)
    ensures Clean(f, s)
    decreases |s.mb|
  {
    var r := Head(f, s);
    if r.Recv? {
      if Whole(f, r) {
        NoneEmptyIsClean(f, Take(f, r));
      } else if |r.mb| < |s.mb| && r.l == 0 {
        ParseKeepsFrames(f, r);
        assert Parse(f, s).frames[|s.frames|] == [];
      }
    }
  }

  lemma ParseOfFrame(f: Format, frames: seq<seq<byte>>, d: seq<byte>)
    requires Sendable(f, d) && d != []
    ensures Parse(f, Recv(0, Encoded(f, d), frames)) == Recv(0, [], frames + [d])
  {
    var s := Recv(0, Encoded(f, d), frames);
    var r := Head(f, s);
    assert Encoded(f, d)[HeadLen(f)..] == d;
    assert r == Recv(LengthOf(f, d), d, frames);
    assert d[..|d|] == d && Take(f, r) == Recv(0, [], frames + [d]);
    ParseSettles(f, Take(f, r));
  }

  lemma ParseOneMore(f: Format, stream: seq<byte>, frames: seq<seq<byte>>, d: seq<byte>)
    requires Sendable(f, d) && d != [] && Parse(f, More(START, stream)) == Recv(0, [], frames)
    ensures Parse(f, More(START, stream + Encoded(f, d))) == Recv(0, [], frames + [d])
  {
    var s, x := More(START, stream), Encoded(f, d);
    assert More(s, x) == More(START, stream + x);
    ParseInParts(f, s, x);
    assert More(Recv(0, [], frames), x) == Recv(0, x, frames);
    ParseOfFrame(f, frames, d);
  }

  lemma {:induction false} ParseOfStream(f: Format, frames: seq<seq<byte>>)
    requires AllSendable(f, frames) && NoneEmpty(frames)
    ensures Parse(f, More(START, Stream(f, frames))) == Recv(0, [], frames)
  {
    if frames == [] {
      ParseSettles(f, START);
    } else {
      var n := |frames| - 1;
      ParseOfStream(f, frames[..n]);
      ParseOneMore(f, Stream(f, frames[..n]), frames[..n], frames[n]);
      assert frames[..n] + [frames[n]] == frames;
    }
  }

  /** What is framed comes out again, frame by frame, however it is split on the way. */
  lemma FramesComeThrough(f: Format, frames: seq<seq<byte>>, chunks: seq<seq<byte>>)
    requires AllSendable(f, frames) && NoneEmpty(frames) && Flat(chunks) == Stream(f, frames)
    ensures Reads(f, START, chunks) == Recv(0, [], frames)
  {
    ParseOfStream(f, frames);
    NoneEmptyIsClean(f, More(START, Stream(f, frames)));
    CleanReadsParse(f, START, chunks);
  }
}
