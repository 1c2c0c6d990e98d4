/** A chat channel: a doubly linked queue of recent messages whose nodes come from a fixed pool. */
module ChatQueue {
  import opened ItemPool

  /** What a message says, apart from when it was sent. */
  datatype ChatText = ChatText(content: string, extraValue: int, playerId: int, playerName: string, playerLevel: int,
                               playerHead: int)

  datatype ChatMsg = ChatMsg(text: ChatText, sendTime: int)

  class ChatItem {
    var text: ChatText
    var sendTime: int
    var prev: ChatItem?
    var next: ChatItem?

    constructor ()
    {
      text := ChatText("", 0, 0, "", 0, 0);
      sendTime := 0;
      prev, next := null, null;
    }

    function Msg(): ChatMsg
      reads this
    {
      ChatMsg(text, sendTime)
    }
  }

  predicate Expired(m: ChatMsg, life: int, now: int) {
    now - m.sendTime >= life
  }

  /** The messages without the expired ones at their front. */
  function Fresh(ms: seq<ChatMsg>, life: int, now: int): seq<ChatMsg> {
    if ms != [] && Expired(ms[0], life, now) then Fresh(ms[1..], life, now) else ms
  }

  /** What a push keeps of the messages on show: those not expired, and of a full channel all but the oldest. */
  function Kept(ms: seq<ChatMsg>, capacity: int, life: int, now: int): seq<ChatMsg> {
    var f := Fresh(ms, life, now);
    if |f| >= capacity && f != [] then f[1..] else f
  }

  /** What is left when the first k messages, all expired, are gone. */
  ghost predicate Gone(before: seq<ChatMsg>, ms: seq<ChatMsg>, k: nat, life: int, now: int) {
    && k <= |before| && ms == before[k..]
    && forall i {:trigger before[i]} :: 0 <= i < k ==> Expired(before[i], life, now)
  }

  lemma GoneOneMore(before: seq<ChatMsg>, ms: seq<ChatMsg>, k: nat, life: int, now: int)
    requires Gone(before, ms, k, life, now) && ms != [] && Expired(ms[0], life, now)
    ensures Gone(before, ms[1..], k + 1, life, now)
  {
  }

  lemma {:induction false} FreshFrom(before: seq<ChatMsg>, ms: seq<ChatMsg>, k: nat, life: int, now: int)
    requires Gone(before, ms, k, life, now) && (ms != [] ==> !Expired(ms[0], life, now))
    ensures Fresh(before, life, now) == ms
    decreases k
  {
    if k > 0 {
      FreshFrom(before[1..], ms, k - 1, life, now);
    }
  }

  lemma {:induction false} FreshIsSplit(ms: seq<ChatMsg>, life: int, now: int)
    ensures var f := Fresh(ms, life, now);
      |f| <= |ms| && f == ms[|ms| - |f|..] && (f != [] ==> !Expired(f[0], life, now))
    ensures forall i :: 0 <= i < |ms| - |Fresh(ms, life, now)| ==> Expired(ms[i], life, now)
  {
    if ms != [] && Expired(ms[0], life, now) {
      FreshIsSplit(ms[1..], life, now);
      forall i | 0 < i < |ms| - |Fresh(ms, life, now)|
        ensures Expired(ms[i], life, now)
      {
        assert ms[i] == ms[1..][i - 1];
      }
    }
  }

  lemma KeptEndsTheSame(ms: seq<ChatMsg>, capacity: int, life: int, now: int)
    ensures var k := Kept(ms, capacity, life, now); k != [] ==> ms != [] && k[|k| - 1] == ms[|ms| - 1]
  {
    FreshIsSplit(ms, life, now);
  }

  ghost function NodeAt(nodes: seq<ChatItem>, u: int): ChatItem? {
    if 0 <= u < |nodes| then nodes[u] else null
  }

  ghost predicate LinkedAt(nodes: seq<ChatItem>, u: nat)
    requires u < |nodes|
    reads nodes[u]
  {
    nodes[u].prev == NodeAt(nodes, u - 1) && nodes[u].next == NodeAt(nodes, u + 1)
  }

  ghost predicate Chain(nodes: seq<ChatItem>)
    reads nodes
  {
    forall u: nat {:trigger LinkedAt(nodes, u)} :: u < |nodes| ==> LinkedAt(nodes, u)
  }

  ghost predicate Different(nodes: seq<ChatItem>, u: nat, w: nat)
    requires u < |nodes| && w < |nodes|
  {
    nodes[u] != nodes[w]
  }

  ghost predicate NoRepeats(nodes: seq<ChatItem>) {
    forall u: nat, w: nat {:trigger Different(nodes, u, w)} :: u < w < |nodes| ==> Different(nodes, u, w)
  }

  ghost predicate Within(nodes: seq<ChatItem>, owned: set<ChatItem>) {
    forall u {:trigger nodes[u]} :: 0 <= u < |nodes| ==> nodes[u] in owned
  }

  /** Every node of the pool is listed or free, not both, and only once. */
  ghost predicate Parted(nodes: seq<ChatItem>, free: seq<ChatItem>, owned: set<ChatItem>) {
    NoRepeats(nodes + free) && Within(nodes + free, owned) && |nodes| + |free| == |owned|
  }

  lemma PartedAtFirst(free: seq<ChatItem>, owned: set<ChatItem>)
    requires NoRepeats(free) && Within(free, owned) && |free| == |owned|
    ensures Parted([], free, owned)
  {
    assert [] + free == free;
  }

  lemma PartedListed(nodes: seq<ChatItem>, free: seq<ChatItem>, owned: set<ChatItem>)
    requires Parted(nodes, free, owned)
    ensures NoRepeats(nodes) && Within(nodes, owned)
  {
    var all := nodes + free;
    forall u: nat | u < |nodes| ensures nodes[u] in owned { assert all[u] in owned; }
    forall u: nat, w: nat | u < w < |nodes| ensures Different(nodes, u, w) { assert Different(all, u, w); }
  }

  lemma PartedRecycle(nodes: seq<ChatItem>, free: seq<ChatItem>, owned: set<ChatItem>)
    requires Parted(nodes, free, owned) && nodes != []
    ensures Parted(nodes[1..], [nodes[0]] + free, owned)
  {
    var all, all' := nodes + free, nodes[1..] + ([nodes[0]] + free);
    forall u: nat | u < |all'| ensures all'[u] in owned {
      assert all'[u] == all[if u < |nodes| - 1 then u + 1 else if u == |nodes| - 1 then 0 else u];
    }
    forall u: nat, w: nat | u < w < |all'| ensures Different(all', u, w) {
      var u0 := if u < |nodes| - 1 then u + 1 else if u == |nodes| - 1 then 0 else u;
      var w0 := if w < |nodes| - 1 then w + 1 else if w == |nodes| - 1 then 0 else w;
      assert all'[u] == all[u0] && all'[w] == all[w0];
      assert if u0 < w0 then Different(all, u0, w0) else Different(all, w0, u0);
    }
  }

  lemma PartedTake(nodes: seq<ChatItem>, free: seq<ChatItem>, owned: set<ChatItem>)
    requires Parted(nodes, free, owned) && free != []
    ensures Parted(nodes + [free[0]], free[1..], owned) && free[0] !in nodes && free[0] in owned
  {
    assert (nodes + [free[0]]) + free[1..] == nodes + free && (nodes + free)[|nodes|] == free[0];
    forall u | 0 <= u < |nodes| ensures nodes[u] != free[0] { assert Different(nodes + free, u, |nodes|); }
  }

  /** As many different nodes as the pool had: each of them is accounted for, listed or free. */
  lemma {:induction false} NoneLost(all: seq<ChatItem>, owned: set<ChatItem>)
    requires NoRepeats(all) && Within(all, owned) && |all| == |owned|
    ensures forall n :: n in owned <==> n in all
    decreases |all|
  {
    if all == [] {
      assert owned == {};
    } else {
      var rest, others := all[1..], owned - {all[0]};
      forall u: nat, w: nat | u < w < |rest| ensures Different(rest, u, w) { assert Different(all, u + 1, w + 1); }
      forall u: nat | u < |rest| ensures rest[u] in others { assert Different(all, 0, u + 1); }
      NoneLost(rest, others);
      forall n ensures n in owned <==> n in all { assert n != all[0] ==> (n in others <==> n in rest); }
    }
  }

  ghost function Msgs(nodes: seq<ChatItem>): (ms: seq<ChatMsg>)
    reads nodes
    ensures |ms| == |nodes| && forall u {:trigger ms[u]} :: 0 <= u < |nodes| ==> ms[u] == nodes[u].Msg()
  {
    seq(|nodes|, u requires 0 <= u < |nodes| reads nodes => nodes[u].Msg())
  }

  ghost predicate NotAfter(ms: seq<ChatMsg>, u: nat, w: nat)
    requires u < |ms| && w < |ms|
  {
    ms[u].sendTime <= ms[w].sendTime
  }

  ghost predicate TimesUp(ms: seq<ChatMsg>) {
    forall u: nat, w: nat {:trigger NotAfter(ms, u, w)} :: u < w < |ms| ==> NotAfter(ms, u, w)
  }

  lemma TimesUpTail(ms: seq<ChatMsg>, k: nat)
    requires TimesUp(ms) && k <= |ms|
    ensures TimesUp(ms[k..])
  {
    var t := ms[k..];
    forall u: nat, w: nat | u < w < |t| ensures NotAfter(t, u, w) { assert NotAfter(ms, u + k, w + k); }
  }

  lemma TimesUpPush(ms: seq<ChatMsg>, m: ChatMsg)
    requires TimesUp(ms) && (ms != [] ==> ms[|ms| - 1].sendTime <= m.sendTime)
    ensures TimesUp(ms + [m])
  {
    var t := ms + [m];
    forall u: nat, w: nat | u < w < |t| ensures NotAfter(t, u, w) {
      if w < |ms| { assert NotAfter(ms, u, w); } else if u < |ms| - 1 { assert NotAfter(ms, u, |ms| - 1); }
    }
  }

  method MakeItems(capacity: nat) returns (all: seq<ChatItem>, ghost owned: set<ChatItem>)
    ensures |all| == capacity && NoRepeats(all) && Within(all, owned) && |owned| == capacity && fresh(owned)
  {
    all, owned := [], {};
    for i := 0 to capacity
      invariant |all| == i && NoRepeats(all) && Within(all, owned) && |owned| == i && fresh(owned)
    {
      var item := new ChatItem();
      ghost var all0 := all;
      all, owned := all + [item], owned + {item};
      forall u: nat, w: nat | u < w < |all| ensures Different(all, u, w) {
        if w < |all0| { assert Different(all0, u, w); }
      }
    }
  }

  class ChatMgr {
    const life: int  // seconds a message is shown
    var msgNum: int
    var head: ChatItem?
    var tail: ChatItem?
    const itemsPool: SimpleItemPool<ChatItem>
    const capacity: nat  // how many nodes the pool holds

    ghost const owned: set<ChatItem>  // the nodes the pool was made with
    ghost var nodes: seq<ChatItem>

    /** The messages on show, oldest first. */
    ghost function Contents(): seq<ChatMsg>
      reads this, nodes
    {
      Msgs(nodes)
    }

    /** Listed and free nodes together are the pool, each node once; the list is linked both ways and in
        the order of the send times. Nothing is said about the tail. */
    ghost predicate Sound()
      reads this, itemsPool, nodes
    {
      && itemsPool.Valid() && |itemsPool.items| == capacity
      && Parted(nodes, itemsPool.Free(), owned) && |owned| == capacity
      && Chain(nodes) && head == NodeAt(nodes, 0)
      && TimesUp(Msgs(nodes))
    }

    ghost predicate TailIsLast()
      reads this
    {
      tail == NodeAt(nodes, |nodes| - 1)
    }

    ghost predicate Valid()
      reads this, itemsPool, nodes
    {
      Sound() && TailIsLast()
    }

    constructor (capacity: nat, minutes: int)
      requires capacity > 0
      ensures Valid() && Contents() == [] && this.capacity == capacity && life == minutes * 60 && msgNum == 0
      ensures fresh(itemsPool) && fresh(owned)
    {
      var all, made := MakeItems(capacity);
      life := minutes * 60;
      this.capacity := capacity;
      msgNum := 0;
      head, tail := null, null;
      itemsPool := new SimpleItemPool<ChatItem>(all);
      nodes := [];
      owned := made;
      new;
      PartedAtFirst(all, made);
    }

    /** Unlinks the oldest node. */
    method Detach(msg: ChatItem)
      requires Chain(nodes) && NoRepeats(nodes) && head == NodeAt(nodes, 0) && tail == NodeAt(nodes, |nodes| - 1)
      requires nodes != [] && msg == nodes[0]
      modifies `head, `tail, nodes
      ensures Chain(nodes[1..]) && head == NodeAt(nodes[1..], 0) && tail == NodeAt(nodes[1..], |nodes| - 2)
      ensures Msgs(nodes) == old(Msgs(nodes)) && msg.next == old(msg.next)
    {
      assert LinkedAt(nodes, 0) && (|nodes| > 1 ==> LinkedAt(nodes, 1));
      assert |nodes| > 1 ==> Different(nodes, 0, |nodes| - 1);
      if msg == head {
        head := msg.next;
      }
      if msg == tail {
        tail := null;
      }
      if msg.prev != null {
        // A sweep unlinks from the middle here; with send times in order only the oldest can expire.
        assert false;
      }
      if msg.next != null {
        msg.next.prev := msg.prev;
      }
      forall u: nat | u < |nodes| - 1 ensures LinkedAt(nodes[1..], u) {
        assert old(LinkedAt(nodes, u + 1));
        if u > 0 { assert Different(nodes, 1, u + 1); }
        assert Different(nodes, 0, u + 1);
      }
    }

    /** Gives the oldest node back to the pool, as the sweep over expired messages does. */
    method DropOldest(msg: ChatItem)
      requires Valid() && nodes != [] && msg == nodes[0]
      modifies `head, `tail, `nodes, itemsPool, owned
      ensures Valid() && nodes == old(nodes)[1..] && Contents() == old(Contents())[1..]
      ensures msg.next == old(msg.next)
    {
      PartedListed(nodes, itemsPool.Free(), owned);
      PartedRecycle(nodes, itemsPool.Free(), owned);
      Detach(msg);
      var _ := itemsPool.Recycle(msg);
      TimesUpTail(Msgs(nodes), 1);
      nodes := nodes[1..];
      assert Msgs(nodes) == old(Msgs(nodes))[1..];
    }

    /** Recycles the messages whose time is over. */
    method RecycleOld(now: int)
      requires Valid()
      modifies `head, `tail, `nodes, itemsPool, owned
      ensures Valid() && Contents() == Fresh(old(Contents()), life, now)
    {
      ghost var u: nat, k: nat := 0, 0;
      ghost var before := Contents();
      var msg := head;
      while msg != null
        invariant Valid() && u <= |nodes| && msg == NodeAt(nodes, u)
        invariant Gone(before, Contents(), k, life, now)
        invariant u > 0 ==> Contents() != [] && !Expired(Contents()[0], life, now)
        decreases |before| - k - u
      {
        msg, u, k := SweepOne(msg, u, k, before, now);
      }
      FreshFrom(before, Contents(), k, life, now);
    }

    /** One step of the sweep, `k` messages gone and `u` looked at and kept. */
    method SweepOne(msg: ChatItem, ghost u: nat, ghost k: nat, ghost before: seq<ChatMsg>, now: int)
      returns (next: ChatItem?, ghost u': nat, ghost k': nat)
      requires Valid() && u < |nodes| && msg == nodes[u] && Gone(before, Contents(), k, life, now)
      requires u > 0 ==> !Expired(Contents()[0], life, now)
      modifies `head, `tail, `nodes, itemsPool, owned
      ensures Valid() && u' <= |nodes| && next == NodeAt(nodes, u') && u' + k' == u + k + 1
      ensures Gone(before, Contents(), k', life, now)
      ensures u' > 0 ==> Contents() != [] && !Expired(Contents()[0], life, now)
    {
      ghost var ms, dropped := Contents(), false;
      next, dropped := Check(msg, u, now);
      u', k' := u + 1, k;
      if dropped {
        GoneOneMore(before, ms, k, life, now);
        u', k' := u, k + 1;
      }
    }

    /** One step of the sweep: an expired message is recycled, which in order can only be the oldest. */
    method Check(msg: ChatItem, ghost u: nat, now: int) returns (next: ChatItem?, ghost dropped: bool)
      requires Valid() && u < |nodes| && msg == nodes[u]
      requires u > 0 ==> !Expired(Contents()[0], life, now)
      modifies `head, `tail, `nodes, itemsPool, owned
      ensures Valid()
      ensures dropped == Expired(old(Contents())[u], life, now) && (dropped ==> u == 0)
      ensures nodes == (if dropped then old(nodes)[1..] else old(nodes))
      ensures Contents() == (if dropped then old(Contents())[1..] else old(Contents()))
      ensures next == NodeAt(nodes, if dropped then u else u + 1)
    {
      assert LinkedAt(nodes, u);
      dropped := now - msg.sendTime >= life;
      assert u > 0 ==> NotAfter(Contents(), 0, u);
      if now - msg.sendTime >= life {
        DropOldest(msg);
      }
      next := msg.next;
    }

    /** Makes room by recycling the oldest message of a full channel; the tail is left as it is. */
    method Evict() returns (ok: bool)
      requires Valid() && nodes != [] && itemsPool.Free() == []
      modifies `head, `nodes, itemsPool, owned
      ensures ok && Sound() && itemsPool.Free() == old(nodes)[..1] && nodes == old(nodes)[1..]
      ensures Contents() == old(Contents())[1..]
    {
      PartedListed(nodes, itemsPool.Free(), owned);
      PartedRecycle(nodes, itemsPool.Free(), owned);
      assert LinkedAt(nodes, 0) && (|nodes| > 1 ==> LinkedAt(nodes, 1));
      ok := itemsPool.Recycle(head);
      if !ok {
        return;
      }
      var n := head.next;
      head := n;
      if n != null {
        n.prev := null;
      }
      ghost var nodes0 := nodes;
      nodes := nodes[1..];
      forall u: nat | u < |nodes| ensures LinkedAt(nodes, u) {
        assert old(LinkedAt(nodes, u + 1));
        if u > 0 { assert Different(nodes0, 1, u + 1); }
      }
      TimesUpTail(old(Contents()), 1);
      assert Contents() == old(Contents())[1..];
    }

    /** The part of a push before the new message: the sweep, and an eviction when nothing is free. */
    method MakeRoom(now: int) returns (ok: bool)
      requires Valid()
      modifies `head, `tail, `nodes, itemsPool, owned
      ensures ok && Sound() && itemsPool.Free() != []
      ensures Contents() == Kept(old(Contents()), capacity, life, now)
      ensures TailIsLast() <==> capacity >= 2 || Fresh(old(Contents()), life, now) == []
      ensures !TailIsLast() ==> nodes == [] && tail == itemsPool.Free()[0]
      ensures nodes != [] ==> old(nodes) != [] && nodes[|nodes| - 1].sendTime == old(nodes[|nodes| - 1].sendTime)
    {
      KeptEndsTheSame(Contents(), capacity, life, now);
      RecycleOld(now);
      var has := itemsPool.HasFree();
      ok := true;
      if !has {
        ok := Evict();
      }
      assert nodes != [] ==> Contents()[|nodes| - 1].sendTime == nodes[|nodes| - 1].sendTime;
    }

    /** Links a node, not listed so far, behind the tail field. */
    method Link(item: ChatItem)
      requires Chain(nodes) && NoRepeats(nodes) && item !in nodes && item.next == null
      requires head == NodeAt(nodes, 0) && (TailIsLast() || (nodes == [] && tail == item))
      modifies `head, `tail, `nodes, nodes, item
      ensures nodes == old(nodes) + [item] && head == nodes[0] && TailIsLast()
      ensures Msgs(nodes) == old(Msgs(nodes)) + [old(item.Msg())]
      ensures if old(TailIsLast()) then Chain(nodes) else !Chain(nodes) && head.next == head == item
    {
      ghost var nodes0, good := nodes, TailIsLast();
      item.prev := tail;
      item.next := null;
      if head == null {
        head := item;
      }
      if tail != null {
        tail.next := item;
      }
      tail := item;
      nodes := nodes + [item];
      if good {
        forall u: nat | u < |nodes| ensures LinkedAt(nodes, u) {
          if u < |nodes0| { assert old(LinkedAt(nodes, u)); }
          if u < |nodes0| - 1 { assert Different(nodes0, u, |nodes0| - 1); }
        }
      } else {
        assert !LinkedAt(nodes, 0);
      }
    }

    /** Takes a free node, fills it in anew and links it behind the tail field, right or wrong. */
    method Append(message: ChatText, now: int) returns (ok: bool)
      requires Sound() && itemsPool.Free() != []
      requires !TailIsLast() ==> nodes == [] && tail == itemsPool.Free()[0]
      requires nodes != [] ==> nodes[|nodes| - 1].sendTime <= now
      modifies `head, `tail, `msgNum, `nodes, itemsPool, owned
      ensures ok && head != null && msgNum == old(msgNum) + 1
      ensures if old(TailIsLast()) then Valid()
              else !Valid() && head.next == head && head.Msg() == ChatMsg(message, now)
      ensures Contents() == old(Contents()) + [ChatMsg(message, now)]
    {
      ghost var ms := Contents();
      PartedListed(nodes, itemsPool.Free(), owned);
      PartedTake(nodes, itemsPool.Free(), owned);
      TimesUpPush(ms, ChatMsg(message, now));
      var found, item := itemsPool.GetFree();
      if !found {
        return false;
      }
      item.text := message;
      item.sendTime := now;
      item.next := null;
      assert Msgs(nodes) == ms;
      forall u: nat | u < |nodes| ensures LinkedAt(nodes, u) { assert old(LinkedAt(nodes, u)); }
      Link(item);
      assert Contents()[|nodes| - 1] == ChatMsg(message, now);
      msgNum := msgNum + 1;
      ok := true;
    }

    /** A push: sweep, make room when full, append. A pool of one node is the exception: evicting its only message
        leaves the tail at the node that is used again, which then follows itself. */
    method Push(message: ChatText, now1: int, now2: int) returns (ok: bool)
      requires Valid() && now1 <= now2
      requires nodes != [] ==> nodes[|nodes| - 1].sendTime <= now1
      modifies this, itemsPool, owned
      ensures ok && head != null && msgNum == old(msgNum) + 1
      ensures Valid() <==> capacity >= 2 || Fresh(old(Contents()), life, now1) == []
      ensures Valid() ==> Contents() == Kept(old(Contents()), capacity, life, now1) + [ChatMsg(message, now2)]
      ensures !Valid() ==> head.next == head && head.Msg() == ChatMsg(message, now2)
    {
      ok := MakeRoom(now1);
      if !ok {
        return;
      }
      ok := Append(message, now2);
    }
  }

  /** Two messages to a pool of one node: the node ends up behind itself. */
  method OneNodePool(text: ChatText) returns (mgr: ChatMgr)
    ensures mgr.capacity == 1 && !mgr.Valid() && mgr.head != null && mgr.head.next == mgr.head
  {
    mgr := new ChatMgr(1, 60);
    var _ := mgr.Push(text, 0, 0);
    assert mgr.Contents() == [ChatMsg(text, 0)] && mgr.Contents()[0] == mgr.nodes[0].Msg();
    var _ := mgr.Push(text, 1, 1);
  }

  /** One push: what is sent, the clock the sweep reads and the clock that stamps the message. */
  datatype Sending = Sending(text: ChatText, checkTime: int, sendTime: int) {
    function Msg(): ChatMsg {
      ChatMsg(text, sendTime)
    }
  }

  /** The messages on show after a run of pushes on a new channel, push by push. */
  function Shown(sends: seq<Sending>, capacity: int, life: int): seq<ChatMsg> {
    if sends == [] then [] else
      var last := sends[|sends| - 1];
      Kept(Shown(sends[..|sends| - 1], capacity, life), capacity, life, last.checkTime) + [last.Msg()]
  }

  function Sent(sends: seq<Sending>): (ms: seq<ChatMsg>)
    ensures |ms| == |sends| && forall i {:trigger ms[i]} :: 0 <= i < |sends| ==> ms[i] == sends[i].Msg()
  {
    seq(|sends|, i requires 0 <= i < |sends| => sends[i].Msg())
  }

  ghost predicate InTime(sends: seq<Sending>, i: nat, j: nat)
    requires i < |sends| && j < |sends|
  {
    sends[i].sendTime <= sends[j].checkTime <= sends[j].sendTime
  }

  /** The clock never goes back. */
  ghost predicate ClockRuns(sends: seq<Sending>) {
    forall i: nat, j: nat {:trigger InTime(sends, i, j)} :: i < j < |sends| ==> InTime(sends, i, j)
  }

  /** Whether message i of a run is on show at its end: it is the last one, or it is among the last `capacity`
      and had not expired when the last push looked. */
  predicate OnShow(sends: seq<Sending>, capacity: int, life: int, i: int)
    requires 0 <= i < |sends|
  {
    i == |sends| - 1 || (i >= |sends| - capacity && sends[|sends| - 1].checkTime - sends[i].sendTime < life)
  }

  /** What a push found gone stays gone: a message off the show after one push is off it after the next. */
  lemma GoneStaysGone(sends: seq<Sending>, capacity: int, life: int, i: nat)
    requires ClockRuns(sends) && i < |sends| - 1 && !OnShow(sends[..|sends| - 1], capacity, life, i)
    ensures !OnShow(sends, capacity, life, i)
  {
    var n := |sends| - 1;
    assert InTime(sends, i, n - 1) && InTime(sends, n - 1, n);
  }

  /** Among messages in the order of their times, those on show at `now` are the ones not expired. */
  lemma FreshInOrder(all: seq<ChatMsg>, s: nat, n: nat, life: int, now: int)
    requires s <= n <= |all| && (forall i, j :: s <= i <= j < n ==> all[i].sendTime <= all[j].sendTime)
    ensures var f := Fresh(all[s..n], life, now);
      && |f| <= n - s && f == all[n - |f|..n]
      && forall i :: s <= i < n ==> (i >= n - |f| <==> now - all[i].sendTime < life)
  {
    var was := all[s..n];
    FreshIsSplit(was, life, now);
    var f := Fresh(was, life, now);
    forall i | s <= i < n ensures i >= n - |f| <==> now - all[i].sendTime < life {
      assert was[i - s] == all[i];
      if f != [] { assert f[0] == all[n - |f|]; }
    }
  }

  /** Of at most `capacity` messages in the order of their times, a push keeps the newest `capacity - 1` of the ones
      that have not expired. */
  lemma KeptInOrder(all: seq<ChatMsg>, s: nat, n: nat, capacity: int, life: int, now: int)
    requires s <= n <= |all| && n - s <= capacity && capacity >= 1
    requires forall i, j :: s <= i <= j < n ==> all[i].sendTime <= all[j].sendTime
    ensures var k := |Kept(all[s..n], capacity, life, now)|;
      && k <= n - s && k < capacity && Kept(all[s..n], capacity, life, now) == all[n - k..n]
      && forall i :: s <= i < n ==> (i >= n - k <==> i > n - capacity && now - all[i].sendTime < life)
  {
    FreshInOrder(all, s, n, life, now);
  }

  /** A channel is a bounded queue over whole runs: on show are, in the order they were sent, exactly the newest
      messages up to the capacity that have not expired. */
  lemma {:induction false} ShownAreTheNewest(sends: seq<Sending>, capacity: int, life: int)
    requires capacity >= 1 && ClockRuns(sends)
    ensures var k := |Shown(sends, capacity, life)|;
      && k <= |sends| && k <= capacity
      && Shown(sends, capacity, life) == Sent(sends)[|sends| - k..]
      && forall i {:trigger OnShow(sends, capacity, life, i)} ::
           0 <= i < |sends| ==> (i >= |sends| - k <==> OnShow(sends, capacity, life, i))
  {
    if sends != [] {
      var n, now := |sends| - 1, sends[|sends| - 1].checkTime;
      var earlier, all := sends[..n], Sent(sends);
      forall i: nat, j: nat | i < j < n ensures InTime(earlier, i, j) { assert InTime(sends, i, j); }
      ShownAreTheNewest(earlier, capacity, life);
      var s := n - |Shown(earlier, capacity, life)|;
      assert Sent(earlier)[s..] == all[s..n];
      forall i, j | s <= i <= j < n ensures all[i].sendTime <= all[j].sendTime {
        assert i < j ==> InTime(sends, i, j);
      }
      KeptInOrder(all, s, n, capacity, life, now);
      var e := n - |Kept(all[s..n], capacity, life, now)|;
      assert all[e..] == all[e..n] + [all[n]];
      forall i | 0 <= i < |sends| ensures i >= e <==> OnShow(sends, capacity, life, i) {
        if i < s {
          assert !OnShow(earlier, capacity, life, i);
          GoneStaysGone(sends, capacity, life, i);
        } else if i < n {
          assert all[i] == sends[i].Msg();
        }
      }
    }
  }

  /** A run of pushes on a new channel of two nodes or more leaves on show what `Shown` says. */
  method PushAll(sends: seq<Sending>, capacity: nat, minutes: int) returns (mgr: ChatMgr)
    requires capacity >= 2 && ClockRuns(sends)
    requires forall i :: 0 <= i < |sends| ==> sends[i].checkTime <= sends[i].sendTime
    ensures fresh(mgr) && fresh(mgr.itemsPool) && fresh(mgr.owned)
    ensures mgr.Valid() && mgr.capacity == capacity && mgr.life == minutes * 60
    ensures mgr.Contents() == Shown(sends, capacity, minutes * 60) && mgr.msgNum == |sends|
  {
    if sends == [] {
      mgr := new ChatMgr(capacity, minutes);
      return;
    }
    var n := |sends| - 1;
    assert forall i: nat, j: nat {:trigger InTime(sends[..n], i, j)} :: i < j < n ==> InTime(sends, i, j);
    mgr := PushAll(sends[..n], capacity, minutes);
    if mgr.nodes != [] {
      assert n > 0 && InTime(sends, n - 1, n);
      assert mgr.Contents()[|mgr.nodes| - 1] == sends[n - 1].Msg();
    }
    var _ := mgr.Push(sends[n].text, sends[n].checkTime, sends[n].sendTime);
  }
}
