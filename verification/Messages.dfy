/** Messages on their way between servers: queued in groups, packed into frames, unpacked and handed to handlers. */
module Messages {
  import opened Framing
  import opened Receivers
  import opened SeqEdit

  const MSG_HEAD_LEN := 4
  const MSG_SEND_LEN := 8192
  const COMPRESS_ABOVE := 2048

  datatype Option<T> = None | Some(value: T)

  type uint16 = n: int | 0 <= n < 65536

  datatype Item = Item(typeId: uint16, data: seq<byte>)

  /** Messages sent together; the length counts their heads. */
  datatype Group = Group(length: int, items: seq<Item>)

  /** The compression in use: `inflate` is None for what it cannot read. */
  datatype Codec = Codec(deflate: seq<byte> -> seq<byte>, inflate: seq<byte> -> Option<seq<byte>>)

  /** What a receiving server knows: the types it has handlers for and the bodies it can parse. */
  datatype Node = Node(handlers: set<int>, parses: (int, seq<byte>) -> bool, codec: Codec)

  /** The low two bytes of a number, high byte first. */
  function TwoBytes(n: nat): seq<byte> {
    [n / 256 % 256, n % 256]
  }

  function Written(items: seq<Item>): seq<byte> {
    if items == [] then [] else
      TwoBytes(items[0].typeId) + TwoBytes(|items[0].data|) + items[0].data + Written(items[1..])
  }

  lemma {:induction false} WrittenOneMore(items: seq<Item>, m: Item)
    ensures Written(items + [m]) == Written(items) + (TwoBytes(m.typeId) + TwoBytes(|m.data|) + m.data)
  {
    if items == [] {
      assert items + [m] == [m] && Written([]) == [];
      assert Written([m]) == TwoBytes(m.typeId) + TwoBytes(|m.data|) + m.data + Written([]);
    } else {
      assert (items + [m])[1..] == items[1..] + [m];
      WrittenOneMore(items[1..], m);
      Assoc(TwoBytes(items[0].typeId) + TwoBytes(|items[0].data|) + items[0].data, Written(items[1..]),
            TwoBytes(m.typeId) + TwoBytes(|m.data|) + m.data);
    }
  }

  function Items(groups: seq<Group>): seq<Item> {
    if groups == [] then [] else Items(groups[..|groups| - 1]) + groups[|groups| - 1].items
  }

  lemma ItemsOneMore(groups: seq<Group>, g: Group)
    ensures Items(groups + [g]) == Items(groups) + g.items
  {
    assert (groups + [g])[..|groups|] == groups;
  }

  /** A group's length is that of what is written for it. */
  ghost predicate Counted(g: Group) {
    g.items != [] && g.length == |Written(g.items)|
  }

  function Alone(m: Item): Group {
    Group(|m.data| + MSG_HEAD_LEN, [m])
  }

  class Sender {
    var handing: bool
    var closing: bool
    var sendGroup: Option<Group>
    var sendChan: seq<Group>

    constructor ()
      ensures !handing && !closing && sendGroup == None && sendChan == []
    {
      handing, closing, sendGroup, sendChan := false, false, None, [];
    }

    /** Everything queued, in the order it will be sent. */
    ghost function Queued(): seq<Item>
      reads this
    {
      Items(sendChan) + if sendGroup.Some? then sendGroup.value.items else []
    }

    /** Queues a message. One too long is dropped; any other goes last, and nothing is held back for company: with
        no group held before, there is none after, so every group sent carries one message. */
    method SendData(typeId: uint16, data: seq<byte>, immediate: bool)
      modifies `sendGroup, `sendChan
      ensures closing || |data| + MSG_HEAD_LEN > MSG_SEND_LEN - 4 ==>
              sendGroup == old(sendGroup) && sendChan == old(sendChan)
      ensures !closing && |data| + MSG_HEAD_LEN <= MSG_SEND_LEN - 4 ==>
                sendGroup == None && Queued() == old(Queued()) + [Item(typeId, data)]
      ensures !closing && |data| + MSG_HEAD_LEN <= MSG_SEND_LEN - 4 && old(sendGroup) == None ==>
                sendChan == old(sendChan) + [Alone(Item(typeId, data))]
    {
      if closing {
        return;
      }
      var length := |data| + MSG_HEAD_LEN;
      if length > MSG_SEND_LEN - 4 {
        return;
      }
      var item := Item(typeId, data);
      if !immediate && handing {
        if sendGroup == None {
          Hold();
        } else if sendGroup.value.length + length > MSG_SEND_LEN {
          SendHeld();
          Hold();
        }
        Join(item, length);
        SendHeld();
      } else {
        if sendGroup != None {
          SendHeld();
        }
        SendAlone(item);
      }
    }

    /** Starts a group. */
    method Hold()
      requires sendGroup == None
      modifies `sendGroup
      ensures sendGroup == Some(Group(0, [])) && Queued() == old(Queued())
    {
      sendGroup := Some(Group(0, []));
    }

    /** Sends the group held. */
    method SendHeld()
      requires sendGroup.Some? && !closing
      modifies `sendGroup, `sendChan
      ensures sendGroup == None && sendChan == old(sendChan) + [old(sendGroup).value] && Queued() == old(Queued())
    {
      EventSend(sendGroup.value);
      sendGroup := None;
      assert Queued() == Items(sendChan);
    }

    method SendAlone(item: Item)
      requires sendGroup == None && !closing
      modifies `sendChan
      ensures sendChan == old(sendChan) + [Alone(item)] && Queued() == old(Queued()) + [item]
    {
      EventSend(Group(|item.data| + MSG_HEAD_LEN, [item]));
      assert Queued() == Items(sendChan);
    }

    /** Puts a message last in the group held. */
    method Join(item: Item, length: int)
      requires sendGroup.Some?
      modifies `sendGroup
      ensures sendGroup.Some? && Queued() == old(Queued()) + [item]
      ensures old(sendGroup) == Some(Group(0, [])) ==> sendGroup.value == Group(length, [item])
    {
      var g := sendGroup.value;
      assert [] + [item] == [item];
      assert Items(sendChan) + (g.items + [item]) == (Items(sendChan) + g.items) + [item];
      sendGroup := Some(Group(g.length + length, g.items + [item]));
    }

    method SendFlush()
      modifies `sendGroup, `sendChan
      ensures Queued() == old(Queued())
      ensures if closing then sendGroup == old(sendGroup) && sendChan == old(sendChan) else sendGroup == None
    {
      if closing {
        return;
      }
      if sendGroup != None {
        SendHeld();
      }
    }

    method EventSend(group: Group)
      requires !closing
      modifies `sendChan
      ensures sendChan == old(sendChan) + [group] && Items(sendChan) == old(Items(sendChan)) + group.items
    {
      ItemsOneMore(sendChan, group);
      sendChan := sendChan + [group];
    }
  }

  /** Writes the messages of a group one behind the other. */
  method WriteMsgs(group: Group) returns (ok: bool, w: seq<byte>)
    ensures ok <==> group.items != []
    ensures w == Written(group.items)
  {
    w := [];
    if group.items == [] {
      return false, w;
    }
    var i := 0;
    while i < |group.items|
      invariant 0 <= i <= |group.items| && w == Written(group.items[..i])
    {
      var m := group.items[i];
      var h := [m.typeId / 256 % 256, m.typeId % 256, |m.data| / 256 % 256, |m.data| % 256];
      WrittenOneMore(group.items[..i], m);
      assert group.items[..i + 1] == group.items[..i] + [m];
      Assoc(w, TwoBytes(m.typeId) + TwoBytes(|m.data|), m.data);
      assert h == TwoBytes(m.typeId) + TwoBytes(|m.data|);
      w := w + h;
      w := w + m.data;
      i := i + 1;
    }
    assert group.items[..i] == group.items;
    ok := true;
  }

  /** A frame's body: a byte that says whether what follows is compressed. */
  function Body(codec: Codec, g: Group): seq<byte> {
    if g.length > COMPRESS_ABOVE then [1] + codec.deflate(Written(g.items)) else [0] + Written(g.items)
  }

  /** A body with its length, as far as two bytes can hold it. */
  function Wire(body: seq<byte>): seq<byte> {
    TwoBytes(|body|) + body
  }

  /** One round of the send loop. */
  method SendLoop(codec: Codec, group: Group) returns (ok: bool, sent: seq<byte>)
    requires Counted(group)
    ensures ok && sent == Wire(Body(codec, group))
  {
    if group.length > COMPRESS_ABOVE {
      var b;
      ok, b := WriteMsgs(group);
      if !ok {
        return false, [];
      }
      var data := codec.deflate(b);
      var length := |data| + 1;
      sent := [length / 256 % 256, length % 256, 1];
      sent := sent + data;
      Assoc(TwoBytes(length), [1], data);
    } else {
      var length := group.length + 1;
      sent := [length / 256 % 256, length % 256, 0];
      var b;
      ok, b := WriteMsgs(group);
      sent := sent + b;
      Assoc(TwoBytes(length), [0], b);
    }
  }

  datatype Ending = Done | Malformed | Exception

  function Cons(m: Item, rest: (seq<Item>, Ending)): (seq<Item>, Ending) {
    ([m] + rest.0, rest.1)
  }

  /** The messages handed to handlers out of what a frame carries, and how it ended. */
  function Dispatched(node: Node, data: seq<byte>): (seq<Item>, Ending)
    decreases |data|
  {
    if |data| < MSG_HEAD_LEN then ([], Malformed) else
      var typeId: uint16, ml: uint16 := LengthIn(ServerFormat, data), LengthIn(ServerFormat, data[2..]);
      if |data| < MSG_HEAD_LEN + ml || typeId !in node.handlers then ([], Malformed)
      else if MSG_HEAD_LEN + ml >= 65536 then ([], Exception)
      else
        var m := Item(typeId, data[MSG_HEAD_LEN..MSG_HEAD_LEN + ml]);
        if !node.parses(typeId, m.data) then ([], Malformed)
        else if MSG_HEAD_LEN + ml == |data| then ([m], Done)
        else Cons(m, Dispatched(node, data[MSG_HEAD_LEN + ml..]))
  }

  function Unpacked(node: Node, d: seq<byte>): (seq<Item>, Ending) {
    if |d| < 2 then ([], Malformed)
    else if d[0] % 2 == 0 then Dispatched(node, d[1..])
    else
      match node.codec.inflate(d[1..])
      case None => ([], Malformed)
      case Some(data) => Dispatched(node, data)
  }

  /** Unpacks a frame and hands out its messages. */
  method OnRecv(node: Node, d: seq<byte>) returns (handed: seq<Item>, ending: Ending)
    ensures (handed, ending) == Unpacked(node, d)
  {
    handed := [];
    if |d| < 2 {
      return handed, Malformed;
    }
    var data;
    if d[0] % 2 != 0 {
      var inflated := node.codec.inflate(d[1..]);
      if inflated == None {
        return handed, Malformed;
      }
      data := inflated.value;
    } else {
      data := d[1..];
    }
    ghost var all := Dispatched(node, data);
    while true
      invariant all.0 == handed + Dispatched(node, data).0 && all.1 == Dispatched(node, data).1
      decreases |data|
    {
      assert handed + [] == handed;
      if |data| < MSG_HEAD_LEN {
        return handed, Malformed;
      }
      var a: int, b: int, c: int, e: int := data[0], data[1], data[2], data[3];
      var typeId: uint16 := a * 256 + b;
      var ml: uint16 := c * 256 + e;
      assert typeId == LengthIn(ServerFormat, data) && ml == LengthIn(ServerFormat, data[2..]);
      if |data| < MSG_HEAD_LEN + ml {
        return handed, Malformed;
      }
      if typeId !in node.handlers {
        return handed, Malformed;
      }
      // The end of the body is computed in 16 bits; past them it lies before the start, and slicing panics.
      if MSG_HEAD_LEN + ml >= 65536 {
        return handed, Exception;
      }
      var body := data[MSG_HEAD_LEN..MSG_HEAD_LEN + ml];
      if !node.parses(typeId, body) {
        return handed, Malformed;
      }
      Assoc(handed, [Item(typeId, body)], Dispatched(node, data[MSG_HEAD_LEN + ml..]).0);
      handed := handed + [Item(typeId, body)];
      if MSG_HEAD_LEN + ml == |data| {
        break;
      }
      data := data[MSG_HEAD_LEN + ml..];
    }
    ending := Done;
  }

  /** A message a receiving server takes. */
  ghost predicate Welcome(node: Node, m: Item) {
    m.typeId in node.handlers && node.parses(m.typeId, m.data) && MSG_HEAD_LEN + |m.data| < 65536
  }

  ghost predicate AllWelcome(node: Node, items: seq<Item>) {
    forall i {:trigger items[i]} :: 0 <= i < |items| ==> Welcome(node, items[i])
  }

  /** What was written for a group is split into its messages again. */
  lemma {:induction false} DispatchedOfWritten(node: Node, items: seq<Item>)
    requires items != [] && AllWelcome(node, items)
    ensures Dispatched(node, Written(items)) == (items, Done)
    decreases |items|
  {
    var rest := Written(items[1..]);
    DispatchedFirst(node, items[0], rest);
    assert items == [items[0]] + items[1..];
    if |items| > 1 {
      DispatchedOfWritten(node, items[1..]);
      assert items[1..] != [] && rest != [];
    } else {
      assert items[1..] == [] && rest == [] && items == [items[0]];
    }
  }

  lemma DispatchedFirst(node: Node, m: Item, rest: seq<byte>)
    requires Welcome(node, m)
    ensures Dispatched(node, TwoBytes(m.typeId) + TwoBytes(|m.data|) + m.data + rest) ==
            if rest == [] then ([m], Done) else Cons(m, Dispatched(node, rest))
  {
    var data := TwoBytes(m.typeId) + TwoBytes(|m.data|) + m.data + rest;
    assert LengthIn(ServerFormat, data) == m.typeId && LengthIn(ServerFormat, data[2..]) == |m.data|;
    assert data[MSG_HEAD_LEN..MSG_HEAD_LEN + |m.data|] == m.data && data[MSG_HEAD_LEN + |m.data|..] == rest;
  }

  /** Any front of a frame that is the writing of welcome messages is handed out, so no longer run of them is there. */
  lemma {:induction false} NoLongerRun(node: Node, data: seq<byte>, ms: seq<Item>)
    requires AllWelcome(node, ms) && Written(ms) <= data
    ensures ms <= Dispatched(node, data).0
    decreases |ms|
  {
    if ms != [] {
      var head := TwoBytes(ms[0].typeId) + TwoBytes(|ms[0].data|) + ms[0].data;
      var rest := data[|head|..];
      assert Written(ms) == head + Written(ms[1..]) && data == head + rest;
      DispatchedFirst(node, ms[0], rest);
      assert ms == [ms[0]] + ms[1..];
      if rest == [] {
        assert |Written(ms[1..])| == 0;
      } else {
        NoLongerRun(node, rest, ms[1..]);
      }
    }
  }

  /** Two bytes are those of the number read from them. */
  lemma BytesOfNumber(data: seq<byte>)
    requires |data| >= 2
    ensures LengthIn(ServerFormat, data) < 65536 && TwoBytes(LengthIn(ServerFormat, data)) == data[..2]
  {
  }

  lemma FrontOf(node: Node, data: seq<byte>)
    requires Dispatched(node, data).0 != []
    ensures var m := Dispatched(node, data).0[0];
      TwoBytes(m.typeId) + TwoBytes(|m.data|) + m.data == data[..MSG_HEAD_LEN + |m.data|]
  {
    var ml: nat := LengthIn(ServerFormat, data[2..]);
    var m := Dispatched(node, data).0[0];
    assert m.data == data[MSG_HEAD_LEN..MSG_HEAD_LEN + ml] && |m.data| == ml;
    BytesOfNumber(data);
    BytesOfNumber(data[2..]);
    assert data[2..][..2] == data[2..4];
    assert data[..2] + data[2..4] + m.data == data[..MSG_HEAD_LEN + ml];
  }

  /** The first message handed out is welcome and written in front. */
  lemma FirstIs(node: Node, data: seq<byte>)
    requires Dispatched(node, data).0 != []
    ensures var m := Dispatched(node, data).0[0];
      var head := TwoBytes(m.typeId) + TwoBytes(|m.data|) + m.data;
      && Welcome(node, m) && head <= data
      && Dispatched(node, data) ==
         if head == data then ([m], Done) else Cons(m, Dispatched(node, data[|head|..]))
  {
    FrontOf(node, data);
    var m := Dispatched(node, data).0[0];
    var n := MSG_HEAD_LEN + |m.data|;
    assert n <= |data| && (n == |data| <==> data[..n] == data);
  }

  /** Whatever a frame carries, what is handed out of it is a run of welcome messages written at its front; all went
      well if and only if that is all of it, and something. */
  lemma {:induction false} DispatchedIsRun(node: Node, data: seq<byte>)
    ensures var (items, ending) := Dispatched(node, data);
      && AllWelcome(node, items) && Written(items) <= data
      && (ending == Done <==> items != [] && Written(items) == data)
    decreases |data|
  {
    var (items, ending) := Dispatched(node, data);
    if items != [] {
      FirstIs(node, data);
      var m := items[0];
      var head := TwoBytes(m.typeId) + TwoBytes(|m.data|) + m.data;
      if head == data {
        assert items == [m] && items[1..] == [] && Written(items) == head + [];
      } else {
        var rest := data[|head|..];
        DispatchedIsRun(node, rest);
        assert items[1..] == Dispatched(node, rest).0 && Written(items) == head + Written(items[1..]);
        assert data == head + rest;
      }
    }
  }

  /** A message with a handler whose end does not fit in 16 bits. */
  ghost predicate Overlong(node: Node, m: Item) {
    m.typeId in node.handlers && MSG_HEAD_LEN + |m.data| >= 65536 > |m.data|
  }

  /** The panic comes if and only if a message that long stands right behind what was handed out. */
  lemma {:induction false} PanicsOnlyOverlong(node: Node, data: seq<byte>)
    ensures var (items, ending) := Dispatched(node, data);
      ending == Exception <==> exists m :: Overlong(node, m) && Written(items + [m]) <= data
    decreases |data|
  {
    var (items, ending) := Dispatched(node, data);
    if items != [] {
      FirstIs(node, data);
      var first := items[0];
      var head := TwoBytes(first.typeId) + TwoBytes(|first.data|) + first.data;
      if head == data {
        forall m ensures !(Written(items + [m]) <= data) {
          assert (items + [m])[1..] == [m];
          assert Written(items + [m]) == head + Written([m]);
        }
      } else {
        var rest := data[|head|..];
        PanicsOnlyOverlong(node, rest);
        assert data == head + rest && items[1..] == Dispatched(node, rest).0;
        forall m ensures Written(items + [m]) <= data <==> Written(items[1..] + [m]) <= rest {
          assert (items + [m])[1..] == items[1..] + [m] && (items + [m])[0] == first;
          assert Written(items + [m]) == head + Written(items[1..] + [m]);
        }
      }
    } else {
      if ending == Exception {
        var m := PanicMeansOverlong(node, data);
      }
      forall m | Overlong(node, m) && Written([] + [m]) <= data ensures ending == Exception {
        OverlongMeansPanic(node, data, m);
      }
    }
  }

  lemma WrittenAlone(m: Item)
    ensures Written([] + [m]) == TwoBytes(m.typeId) + TwoBytes(|m.data|) + m.data
  {
    assert [] + [m] == [m] && [m][1..] == [];
  }

  lemma PanicMeansOverlong(node: Node, data: seq<byte>) returns (m: Item)
    requires Dispatched(node, data) == ([], Exception)
    ensures Overlong(node, m) && Written([] + [m]) <= data
  {
    var typeId: uint16, ml: uint16 := LengthIn(ServerFormat, data), LengthIn(ServerFormat, data[2..]);
    m := Item(typeId, data[MSG_HEAD_LEN..MSG_HEAD_LEN + ml]);
    WrittenAlone(m);
    assert TwoBytes(typeId) == data[..2] && TwoBytes(ml) == data[2..4];
    assert data[..2] + data[2..4] + m.data == data[..MSG_HEAD_LEN + ml];
  }

  lemma OverlongMeansPanic(node: Node, data: seq<byte>, m: Item)
    requires Overlong(node, m) && Written([] + [m]) <= data
    ensures Dispatched(node, data) == ([], Exception)
  {
    WrittenAlone(m);
    var w := Written([] + [m]);
    assert w[0] == data[0] && w[1] == data[1] && w[2] == data[2] && w[3] == data[3];
    assert LengthIn(ServerFormat, data) == m.typeId && LengthIn(ServerFormat, data[2..]) == |m.data|;
  }

  /** What a frame carries once its first byte is read and it is inflated where that says so. */
  ghost predicate Carries(codec: Codec, d: seq<byte>, data: seq<byte>) {
    |d| >= 2 && if d[0] % 2 == 0 then d[1..] == data else codec.inflate(d[1..]) == Some(data)
  }

  /** All of a frame is handed out, without complaint, if and only if it carries the writing of just those messages and
      each of them has a handler, can be parsed and is short enough. */
  lemma TakenIffWelcome(node: Node, d: seq<byte>, ms: seq<Item>)
    requires ms != []
    ensures Unpacked(node, d) == (ms, Done) <==> AllWelcome(node, ms) && Carries(node.codec, d, Written(ms))
  {
    if AllWelcome(node, ms) {
      DispatchedOfWritten(node, ms);
    }
    forall data | Carries(node.codec, d, data)
      ensures Unpacked(node, d) == Dispatched(node, data)
      ensures Dispatched(node, data).1 == Done ==> AllWelcome(node, Dispatched(node, data).0) &&
                                                   Written(Dispatched(node, data).0) == data
    {
      DispatchedIsRun(node, data);
    }
    if Unpacked(node, d).1 == Done {
      assert |d| >= 2;
      var data := if d[0] % 2 == 0 then d[1..] else node.codec.inflate(d[1..]).value;
      assert Carries(node.codec, d, data);
    }
  }

  /** Of a frame that is refused part way, the longest run of welcome messages at its front has been handed out; of one
      that carries nothing, nothing. */
  lemma RefusedBehindRun(node: Node, d: seq<byte>, data: seq<byte>, ms: seq<Item>)
    ensures Carries(node.codec, d, data) ==> Written(Unpacked(node, d).0) <= data
    ensures Carries(node.codec, d, data) && AllWelcome(node, ms) && Written(ms) <= data ==> ms <= Unpacked(node, d).0
    ensures (forall w :: !Carries(node.codec, d, w)) ==> Unpacked(node, d) == ([], Malformed)
    ensures Carries(node.codec, d, data) ==>
              (Unpacked(node, d).1 == Exception <==>
               exists m :: Overlong(node, m) && Written(Unpacked(node, d).0 + [m]) <= data)
  {
    if Carries(node.codec, d, data) {
      DispatchedIsRun(node, data);
      PanicsOnlyOverlong(node, data);
      if AllWelcome(node, ms) && Written(ms) <= data {
        NoLongerRun(node, data, ms);
      }
    }
    if |d| >= 2 {
      assert d[0] % 2 == 0 ==> Carries(node.codec, d, d[1..]);
      assert d[0] % 2 != 0 && node.codec.inflate(d[1..]).Some? ==>
          Carries(node.codec, d, node.codec.inflate(d[1..]).value);
    }
  }

  lemma FirstTaken(s: Recv, r: Recv)
    requires s.Recv? && r == Head(ServerFormat, s) && r.Recv? && Whole(ServerFormat, r) && r.frames == []
    ensures var p := Parse(ServerFormat, s); p.frames != [] && p.frames[0] == r.mb[..r.l]
  {
    ParseKeepsFrames(ServerFormat, Take(ServerFormat, r));
  }

  lemma FirstEmpty(s: Recv, r: Recv)
    requires s.Recv? && r == Head(ServerFormat, s) && r.Recv? && |r.mb| < |s.mb| && r.l == 0 && r.frames == [[]]
    ensures var p := Parse(ServerFormat, s); p.frames != [] && p.frames[0] == []
  {
    ParseKeepsFrames(ServerFormat, r);
  }

  /** The length two bytes hold of a body too long: it is refused, or the first frame cut off is not the body. */
  lemma LongBodyMisread(body: seq<byte>)
    requires |body| > RECV_LEN
    ensures Parse(ServerFormat, More(START, Wire(body))) != Recv(0, [], [body])
  {
    var s := More(START, Wire(body));
    var r := Head(ServerFormat, s);
    if r.Recv? {
      assert r.mb == body && r.l <= RECV_LEN;
      if r.l == 0 {
        FirstEmpty(s, r);
      } else {
        FirstTaken(s, r);
      }
    }
  }

  /** A frame comes through on its own if and only if its body, compressed where it is, is short enough. */
  lemma OnlyShortBodiesComeThrough(body: seq<byte>)
    requires body != []
    ensures Parse(ServerFormat, More(START, Wire(body))) == Recv(0, [], [body]) <==> |body| <= RECV_LEN
  {
    if |body| <= RECV_LEN {
      assert More(START, Wire(body)) == Recv(0, Encoded(ServerFormat, body), []) && [] + [body] == [body];
      ParseOfFrame(ServerFormat, [], body);
    } else {
      LongBodyMisread(body);
    }
  }

  function WireAll(codec: Codec, groups: seq<Group>): seq<byte> {
    if groups == [] then [] else
      WireAll(codec, groups[..|groups| - 1]) + Wire(Body(codec, groups[|groups| - 1]))
  }

  function Bodies(codec: Codec, groups: seq<Group>): (bodies: seq<seq<byte>>)
    ensures |bodies| == |groups| && forall i {:trigger bodies[i]} :: 0 <= i < |bodies| ==>
            bodies[i] == Body(codec, groups[i])
  {
    seq(|groups|, i requires 0 <= i < |groups| => Body(codec, groups[i]))
  }

  /** Frames handled one by one, up to the first that ends badly. */
  function Handled(node: Node, frames: seq<seq<byte>>): (seq<Item>, Ending) {
    if frames == [] then ([], Done) else
      var (items, ending) := Handled(node, frames[..|frames| - 1]);
      if ending != Done then (items, ending) else
        var (last, how) := Unpacked(node, frames[|frames| - 1]);
        (items + last, how)
  }

  /** A group that reaches the other side: its messages are welcome, its body is short enough, and compression, where
      it is used, loses nothing. */
  ghost predicate Passes(node: Node, g: Group) {
    && Counted(g) && AllWelcome(node, g.items) && |Body(node.codec, g)| <= RECV_LEN
    && (g.length > COMPRESS_ABOVE ==>
          && node.codec.inflate(node.codec.deflate(Written(g.items))) == Some(Written(g.items))
          && node.codec.deflate(Written(g.items)) != [])
  }

  /** What the sender queues for a welcome message passes unless it has to be compressed. */
  lemma SmallMessagesPass(node: Node, m: Item)
    requires Welcome(node, m) && |m.data| + MSG_HEAD_LEN <= COMPRESS_ABOVE
    ensures Passes(node, Alone(m))
  {
    assert Written([m]) == TwoBytes(m.typeId) + TwoBytes(|m.data|) + m.data + Written([]);
  }

  lemma UnpackedOfBody(node: Node, g: Group)
    requires Passes(node, g)
    ensures Unpacked(node, Body(node.codec, g)) == (g.items, Done)
  {
    DispatchedOfWritten(node, g.items);
    assert ([1] + node.codec.deflate(Written(g.items)))[1..] == node.codec.deflate(Written(g.items));
    assert ([0] + Written(g.items))[1..] == Written(g.items);
  }

  ghost predicate AllPass(node: Node, groups: seq<Group>) {
    forall i {:trigger groups[i]} :: 0 <= i < |groups| ==> Passes(node, groups[i])
  }

  lemma BodiesFit(node: Node, groups: seq<Group>)
    requires AllPass(node, groups)
    ensures AllSendable(ServerFormat, Bodies(node.codec, groups)) && NoneEmpty(Bodies(node.codec, groups))
  {
  }

  lemma EncodedIsWire(body: seq<byte>)
    requires |body| <= RECV_LEN
    ensures Encoded(ServerFormat, body) == Wire(body)
  {
  }

  lemma {:induction false} WireIsStream(node: Node, groups: seq<Group>)
    requires AllPass(node, groups) && AllSendable(ServerFormat, Bodies(node.codec, groups))
    ensures Stream(ServerFormat, Bodies(node.codec, groups)) == WireAll(node.codec, groups)
  {
    var bodies := Bodies(node.codec, groups);
    if groups != [] {
      var n := |groups| - 1;
      assert bodies[..n] == Bodies(node.codec, groups[..n]);
      WireIsStream(node, groups[..n]);
      assert bodies[n] == Body(node.codec, groups[n]);
      EncodedIsWire(bodies[n]);
    }
  }

  lemma {:induction false} NoneEmptyIsSolid(frames: seq<seq<byte>>)
    requires NoneEmpty(frames)
    ensures Solid(frames) == frames
  {
    if frames != [] {
      var n := |frames| - 1;
      NoneEmptyIsSolid(frames[..n]);
      assert frames[..n] + [frames[n]] == frames && frames[n] != [];
    }
  }

  lemma HandledOneMore(node: Node, frames: seq<seq<byte>>, items: seq<Item>, d: seq<byte>, last: seq<Item>)
    requires Handled(node, frames) == (items, Done) && Unpacked(node, d) == (last, Done)
    ensures Handled(node, frames + [d]) == (items + last, Done)
  {
    assert (frames + [d])[..|frames|] == frames;
  }

  lemma BodiesOneMore(codec: Codec, groups: seq<Group>)
    requires groups != []
    ensures Bodies(codec, groups) == Bodies(codec, groups[..|groups| - 1]) + [Body(codec, groups[|groups| - 1])]
  {
  }

  lemma {:induction false} HandledBodies(node: Node, groups: seq<Group>)
    requires AllPass(node, groups)
    ensures Handled(node, Bodies(node.codec, groups)) == (Items(groups), Done)
  {
    if groups != [] {
      var n := |groups| - 1;
      HandledBodies(node, groups[..n]);
      UnpackedOfBody(node, groups[n]);
      HandledOneMore(node, Bodies(node.codec, groups[..n]), Items(groups[..n]), Body(node.codec, groups[n]),
        groups[n].items);
      BodiesOneMore(node.codec, groups);
    }
  }

  /** From sender to handlers: the messages of the groups sent are handed out with their types and bodies, each once
      and in order, however the bytes are split on the way. */
  lemma MessagesComeThrough(node: Node, groups: seq<Group>, chunks: seq<seq<byte>>)
    requires AllPass(node, groups) && Flat(chunks) == WireAll(node.codec, groups)
    ensures var r := Reads(ServerFormat, START, chunks);
      r == Recv(0, [], r.frames) && Handled(node, Solid(r.frames)) == (Items(groups), Done)
  {
    var bodies := Bodies(node.codec, groups);
    BodiesFit(node, groups);
    WireIsStream(node, groups);
    FramesComeThrough(ServerFormat, bodies, chunks);
    NoneEmptyIsSolid(bodies);
    HandledBodies(node, groups);
  }

  predicate Accepted(m: Item) {
    |m.data| + MSG_HEAD_LEN <= MSG_SEND_LEN - 4
  }

  /** The messages a sender does not drop. */
  function Kept(ms: seq<Item>): seq<Item> {
    if ms == [] then [] else
      var n := |ms| - 1;
      Kept(ms[..n]) + if Accepted(ms[n]) then [ms[n]] else []
  }

  function Alones(ms: seq<Item>): (groups: seq<Group>)
    ensures |groups| == |ms| && forall i {:trigger groups[i]} :: 0 <= i < |ms| ==> groups[i] == Alone(ms[i])
  {
    seq(|ms|, i requires 0 <= i < |ms| => Alone(ms[i]))
  }

  lemma KeptOneMore(ms: seq<Item>, i: nat)
    requires i < |ms|
    ensures Alones(Kept(ms[..i + 1])) == Alones(Kept(ms[..i])) + if Accepted(ms[i]) then [Alone(ms[i])] else []
  {
    assert ms[..i + 1][..i] == ms[..i];
    assert Accepted(ms[i]) ==> Alones(Kept(ms[..i]) + [ms[i]]) == Alones(Kept(ms[..i])) + [Alone(ms[i])];
  }

  /** Any run of sends from a new connection, whatever is being handled and whether or not it is urgent: each message
      that is not too long goes out in a group of its own, in order. */
  method SendAll(ms: seq<Item>, handing: seq<bool>, immediate: seq<bool>) returns (sender: Sender)
    requires |ms| == |handing| == |immediate|
    ensures fresh(sender) && sender.sendGroup == None && sender.sendChan == Alones(Kept(ms))
  {
    sender := new Sender();
    var i := 0;
    while i < |ms|
      invariant 0 <= i <= |ms| && fresh(sender) && !sender.closing && sender.sendGroup == None
      invariant sender.sendChan == Alones(Kept(ms[..i]))
    {
      sender.handing := handing[i];
      sender.SendData(ms[i].typeId, ms[i].data, immediate[i]);
      KeptOneMore(ms, i);
      i := i + 1;
    }
    assert ms[..i] == ms;
  }

  ghost predicate Small(node: Node, m: Item) {
    Welcome(node, m) && |m.data| + MSG_HEAD_LEN <= COMPRESS_ABOVE
  }

  lemma {:induction false} ItemsOfAlones(ms: seq<Item>)
    ensures Items(Alones(ms)) == ms
  {
    if ms != [] {
      var n := |ms| - 1;
      ItemsOfAlones(ms[..n]);
      assert Alones(ms)[..n] == Alones(ms[..n]) && ms == ms[..n] + [ms[n]];
    }
  }

  lemma {:induction false} SmallAreKept(node: Node, ms: seq<Item>)
    requires forall i {:trigger ms[i]} :: 0 <= i < |ms| ==> Small(node, ms[i])
    ensures Kept(ms) == ms
  {
    if ms != [] {
      var n := |ms| - 1;
      SmallAreKept(node, ms[..n]);
      assert Small(node, ms[n]) && ms == ms[..n] + [ms[n]];
    }
  }

  /** From the first send to the last handler: welcome messages small enough to go uncompressed are handed out exactly
      as they were sent, whatever the codec does and however the bytes are split. */
  lemma SendsComeThrough(node: Node, ms: seq<Item>, chunks: seq<seq<byte>>)
    requires forall i {:trigger ms[i]} :: 0 <= i < |ms| ==> Small(node, ms[i])
    requires Flat(chunks) == WireAll(node.codec, Alones(Kept(ms)))
    ensures var r := Reads(ServerFormat, START, chunks);
      r == Recv(0, [], r.frames) && Handled(node, Solid(r.frames)) == (ms, Done)
  {
    SmallAreKept(node, ms);
    var groups := Alones(ms);
    forall i {:trigger groups[i]} | 0 <= i < |groups| ensures Passes(node, groups[i]) {
      SmallMessagesPass(node, ms[i]);
    }
    MessagesComeThrough(node, groups, chunks);
    ItemsOfAlones(ms);
  }

  /** A frame on a client's connection: never compressed, the type's low byte first, one message. */
  function ClientBody(m: Item): seq<byte> {
    [0, m.typeId % 256, m.typeId / 256] + m.data
  }

  /** A client frame with its length, as far as three bytes can hold it. */
  function ClientWire(m: Item): seq<byte> {
    var length := |m.data| + 2;
    [length % 256, length / 256 % 256, length / 65536 % 256] + ClientBody(m)
  }

  method ClientSend(m: Item) returns (sent: seq<byte>)
    ensures sent == ClientWire(m)
  {
    var length := |m.data| + 2;
    var h: seq<byte> := [0, 0, 0, 0, 0, 0];
    h := h[0 := length % 256];
    h := h[1 := length / 256 % 256];
    h := h[2 := length / 65536 % 256];
    h := h[3 := 0];
    h := h[4 := m.typeId % 256];
    h := h[5 := m.typeId / 256 % 256];
    sent := h + m.data;
    assert h == [length % 256, length / 256 % 256, length / 65536 % 256] + [0, m.typeId % 256, m.typeId / 256];
  }

  function ClientUnpacked(node: Node, d: seq<byte>): (seq<Item>, Ending) {
    if |d| < 3 then ([], Malformed) else
      var low: int, high: int := d[1], d[2];
      var typeId: uint16 := low + high * 256;
      var data := if d[0] % 2 == 0 then Some(d[3..]) else node.codec.inflate(d[3..]);
      if data == None || typeId !in node.handlers || !node.parses(typeId, data.value) then ([], Malformed)
      else ([Item(typeId, data.value)], Done)
  }

  method ClientOnRecv(node: Node, d: seq<byte>) returns (handed: seq<Item>, ending: Ending)
    ensures (handed, ending) == ClientUnpacked(node, d)
  {
    handed := [];
    if |d| < 3 {
      return handed, Malformed;
    }
    var typeId: int := 0;
    var low: int, high: int := d[1], d[2];
    typeId := typeId + low + high * 256;
    var data;
    if d[0] % 2 != 0 {
      var inflated := node.codec.inflate(d[3..]);
      if inflated == None {
        return handed, Malformed;
      }
      data := inflated.value;
    } else {
      data := d[3..];
    }
    if typeId !in node.handlers {
      return handed, Malformed;
    }
    if !node.parses(typeId, data) {
      return handed, Malformed;
    }
    handed, ending := [Item(typeId, data)], Done;
  }

  /** A client's frame is handed out if and only if it holds three bytes, names a type with a handler, low byte first,
      and carries a body, inflated where its first byte says so, that can be parsed; otherwise it is malformed. */
  lemma ClientTakenIff(node: Node, d: seq<byte>, m: Item)
    ensures ClientUnpacked(node, d) == ([m], Done) <==>
            && |d| >= 3 && d[1] == m.typeId % 256 && d[2] == m.typeId / 256
            && (if d[0] % 2 == 0 then d[3..] == m.data else node.codec.inflate(d[3..]) == Some(m.data))
            && m.typeId in node.handlers && node.parses(m.typeId, m.data)
    ensures ClientUnpacked(node, d) == ([], Malformed) || exists k :: ClientUnpacked(node, d) == ([k], Done)
  {
    if |d| >= 3 {
      var low: int, high: int := d[1], d[2];
      var typeId: uint16 := low + high * 256;
      var data := if d[0] % 2 == 0 then Some(d[3..]) else node.codec.inflate(d[3..]);
      if ClientUnpacked(node, d) != ([], Malformed) {
        assert ClientUnpacked(node, d) == ([Item(typeId, data.value)], Done);
      }
    }
  }

  lemma ClientWireIsEncoded(m: Item)
    requires |m.data| + 2 <= RECV_LEN
    ensures Sendable(ClientFormat, ClientBody(m)) && ClientWire(m) == Encoded(ClientFormat, ClientBody(m))
  {
  }

  /** A client's message comes through on its own if and only if it is short enough. */
  lemma OnlyShortClientMessagesComeThrough(m: Item)
    ensures Parse(ClientFormat, More(START, ClientWire(m))) == Recv(0, [], [ClientBody(m)]) <==>
            |m.data| + 2 <= RECV_LEN
  {
    var s, body := More(START, ClientWire(m)), ClientBody(m);
    if |m.data| + 2 <= RECV_LEN {
      ClientWireIsEncoded(m);
      assert s == Recv(0, Encoded(ClientFormat, body), []) && [] + [body] == [body];
      ParseOfFrame(ClientFormat, [], body);
    } else {
      var r := Head(ClientFormat, s);
      if r.Recv? {
        assert 2 <= r.l <= RECV_LEN && Whole(ClientFormat, r);
        ParseKeepsFrames(ClientFormat, Take(ClientFormat, r));
        assert Parse(ClientFormat, s).frames[0] == Take(ClientFormat, r).frames[0];
      }
    }
  }

  function ClientWireAll(ms: seq<Item>): seq<byte> {
    if ms == [] then [] else ClientWireAll(ms[..|ms| - 1]) + ClientWire(ms[|ms| - 1])
  }

  function ClientHandled(node: Node, frames: seq<seq<byte>>): (seq<Item>, Ending) {
    if frames == [] then ([], Done) else
      var (items, ending) := ClientHandled(node, frames[..|frames| - 1]);
      if ending != Done then (items, ending) else
        var (last, how) := ClientUnpacked(node, frames[|frames| - 1]);
        (items + last, how)
  }

  function ClientBodies(ms: seq<Item>): (bodies: seq<seq<byte>>)
    ensures |bodies| == |ms| && forall i {:trigger bodies[i]} :: 0 <= i < |bodies| ==> bodies[i] == ClientBody(ms[i])
  {
    seq(|ms|, i requires 0 <= i < |ms| => ClientBody(ms[i]))
  }

  ghost predicate ClientPasses(node: Node, m: Item) {
    m.typeId in node.handlers && node.parses(m.typeId, m.data) && |m.data| + 2 <= RECV_LEN
  }

  ghost predicate AllClientPass(node: Node, ms: seq<Item>) {
    forall i {:trigger ms[i]} :: 0 <= i < |ms| ==> ClientPasses(node, ms[i])
  }

  lemma {:induction false} ClientWireIsStream(node: Node, ms: seq<Item>)
    requires AllClientPass(node, ms)
    ensures AllSendable(ClientFormat, ClientBodies(ms)) && Stream(ClientFormat, ClientBodies(ms)) == ClientWireAll(ms)
  {
    var bodies := ClientBodies(ms);
    if ms != [] {
      var n := |ms| - 1;
      assert bodies[..n] == ClientBodies(ms[..n]);
      ClientWireIsStream(node, ms[..n]);
      ClientWireIsEncoded(ms[n]);
    }
  }

  lemma {:induction false} ClientHandledBodies(node: Node, ms: seq<Item>)
    requires AllClientPass(node, ms)
    ensures ClientHandled(node, ClientBodies(ms)) == (ms, Done)
  {
    var bodies := ClientBodies(ms);
    if ms != [] {
      var n := |ms| - 1;
      assert bodies[..n] == ClientBodies(ms[..n]);
      ClientHandledBodies(node, ms[..n]);
      assert bodies[n][3..] == ms[n].data && ms == ms[..n] + [ms[n]];
      assert ClientUnpacked(node, bodies[n]) == ([ms[n]], Done);
    }
  }

  /** Clients' messages come through like those between servers. */
  lemma ClientMessagesComeThrough(node: Node, ms: seq<Item>, chunks: seq<seq<byte>>)
    requires AllClientPass(node, ms) && Flat(chunks) == ClientWireAll(ms)
    ensures Reads(ClientFormat, START, chunks) == Recv(0, [], ClientBodies(ms))
    ensures ClientHandled(node, ClientBodies(ms)) == (ms, Done)
  {
    ClientWireIsStream(node, ms);
    FramesComeThrough(ClientFormat, ClientBodies(ms), chunks);
    ClientHandledBodies(node, ms);
  }
}
