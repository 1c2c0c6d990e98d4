/** The receive loops of the two kinds of connection. */
module Receivers {
  import opened Framing

  /** The frames handed on: all but the empty ones. */
  function Solid(frames: seq<seq<byte>>): seq<seq<byte>> {
    if frames == [] then [] else
      var last := frames[|frames| - 1];
      Solid(frames[..|frames| - 1]) + if last == [] then [] else [last]
  }

  lemma SolidOneMore(frames: seq<seq<byte>>, d: seq<byte>)
    ensures Solid(frames + [d]) == Solid(frames) + if d == [] then [] else [d]
  {
    assert (frames + [d])[..|frames|] == frames;
  }

  /** A connection between servers. */
  class ServerConn {
    var l: int  // length of the frame being received, 0 for not known yet
    var mb: seq<byte>
    var recvChan: seq<seq<byte>>
    var failed: bool
    ghost var frames: seq<seq<byte>>

    ghost function State(): Recv
      requires l >= 0
      reads this
    {
      if failed then Failed(frames) else Recv(l, mb, frames)
    }

    ghost predicate Valid()
      reads this
    {
      0 <= l < 65536 && recvChan == Solid(frames)
    }

    constructor ()
      ensures Valid() && State() == START && recvChan == []
    {
      l, mb, recvChan, failed, frames := 0, [], [], false, [];
    }

    /** One read: the chunk joins the buffer, then frames are cut off. */
    method OnRead(chunk: seq<byte>)
      requires Valid() && !failed
      modifies this
      ensures Valid() && State() == Drain(ServerFormat, More(old(State()), chunk))
    {
      mb := mb + chunk;
      while true
        invariant Valid() && !failed
        invariant Drain(ServerFormat, State()) == Drain(ServerFormat, More(old(State()), chunk))
        decreases |mb|
      {
        if l == 0 && |mb| >= 2 {
          ReadLength();
          if failed {
            return;
          }
        }
        if l > 0 && |mb| >= l {
          Deliver();
        } else {
          break;
        }
      }
    }

    method Deliver()
      requires Valid() && !failed && l > 0 && |mb| >= l
      modifies this
      ensures Valid() && State() == Take(ServerFormat, old(State())) && |mb| < |old(mb)|
    {
      var d := mb[..l];
      mb := mb[l..];
      SolidOneMore(frames, d);
      frames := frames + [d];
      recvChan := recvChan + [d];
      l := 0;
    }

    method ReadLength()
      requires Valid() && !failed && l == 0 && |mb| >= 2
      modifies this
      ensures Valid() && State() == Head(ServerFormat, old(State())) && |mb| < |old(mb)|
    {
      SolidOneMore(frames, []);
      var b: int := mb[0];
      mb := mb[1..];
      l := b;
      l := l * 256;
      b := mb[0];
      mb := mb[1..];
      l := l + b;
      if l > RECV_LEN {
        failed := true;
      } else if l == 0 {
        frames := frames + [[]];
      }
    }

    /** Read after read, until the connection ends or a length is refused. */
    method RecvLoop(chunks: seq<seq<byte>>)
      requires Valid() && State() == START
      modifies this
      ensures Valid() && State() == Reads(ServerFormat, START, chunks)
    {
      for i := 0 to |chunks|
        invariant Valid() && !failed && Reads(ServerFormat, State(), chunks[i..]) == Reads(ServerFormat, START, chunks)
      {
        assert chunks[i..][1..] == chunks[i + 1..];
        OnRead(chunks[i]);
        if failed {
          return;
        }
      }
    }
  }

  /** A client's connection. */
  class TcpConn {
    var l: int
    var mb: seq<byte>
    var recvChan: seq<seq<byte>>
    var failed: bool

    ghost function State(): Recv
      requires l >= 0
      reads this
    {
      if failed then Failed(recvChan) else Recv(l, mb, recvChan)
    }

    ghost predicate Valid()
      reads this
    {
      l >= 0 && (!failed && l > 0 ==> 2 <= l <= RECV_LEN)
    }

    constructor ()
      ensures Valid() && State() == START
    {
      l, mb, recvChan, failed := 0, [], [], false;
    }

    method OnRead(chunk: seq<byte>)
      requires Valid() && !failed
      modifies this
      ensures Valid() && State() == Drain(ClientFormat, More(old(State()), chunk))
    {
      mb := mb + chunk;
      while |mb| >= 3
        invariant Valid() && !failed
        invariant Drain(ClientFormat, State()) == Drain(ClientFormat, More(old(State()), chunk))
        decreases |mb|
      {
        if l == 0 && |mb| >= 3 {
          ReadLength();
          if failed {
            return;
          }
        }
        if l > 0 && |mb| >= l + 1 {
          Deliver();
        } else {
          break;
        }
      }
    }

    method Deliver()
      requires Valid() && !failed && l > 0 && |mb| >= l + 1
      modifies this
      ensures Valid() && State() == Take(ClientFormat, old(State())) && |mb| < |old(mb)|
    {
      var d := mb[..l + 1];
      mb := mb[l + 1..];
      recvChan := recvChan + [d];
      l := 0;
    }

    method ReadLength()
      requires Valid() && !failed && l == 0 && |mb| >= 3
      modifies this
      ensures Valid() && State() == Head(ClientFormat, old(State())) && |mb| < |old(mb)|
    {
      var b: int := mb[0];
      mb := mb[1..];
      l := l + b;
      b := mb[0];
      mb := mb[1..];
      l := l + b * 256;
      b := mb[0];
      mb := mb[1..];
      l := l + b * 65536;
      if l > RECV_LEN || l < 2 {
        failed := true;
      }
    }

    method RecvLoop(chunks: seq<seq<byte>>)
      requires Valid() && State() == START
      modifies this
      ensures Valid() && State() == Reads(ClientFormat, START, chunks)
      ensures State() == Parse(ClientFormat, More(START, Flat(chunks)))
    {
      ClientFormatIsClean(More(START, Flat(chunks)));
      CleanReadsParse(ClientFormat, START, chunks);
      for i := 0 to |chunks|
        invariant Valid() && !failed && Reads(ClientFormat, State(), chunks[i..]) == Reads(ClientFormat, START, chunks)
      {
        assert chunks[i..][1..] == chunks[i + 1..];
        OnRead(chunks[i]);
        if failed {
          return;
        }
      }
    }
  }
}
