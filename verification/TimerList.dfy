/** The doubly linked list of connection timers that hangs in one slot of the timing wheel. */
module TimerList {
  import opened SeqEdit

  class ConnTimer {
    const playerId: int
    var next: ConnTimer?
    var prev: ConnTimer?

    constructor (playerId: int)
      ensures this.playerId == playerId && next == null && prev == null
    {
      this.playerId := playerId;
      next, prev := null, null;
    }
  }

  ghost function NodeAt(nodes: seq<ConnTimer>, u: int): ConnTimer? {
    if 0 <= u < |nodes| then nodes[u] else null
  }

  /** The timer at index `u` points at its neighbours in the sequence. */
  ghost predicate LinkedAt(nodes: seq<ConnTimer>, u: nat)
    requires u < |nodes|
    reads nodes[u]
  {
    nodes[u].prev == NodeAt(nodes, u - 1) && nodes[u].next == NodeAt(nodes, u + 1)
  }

  ghost predicate Different(nodes: seq<ConnTimer>, u: nat, w: nat)
    requires u < |nodes| && w < |nodes|
  {
    nodes[u] != nodes[w]
  }

  ghost predicate Chain(nodes: seq<ConnTimer>)
    reads nodes
  {
    && (forall u: nat {:trigger LinkedAt(nodes, u)} :: u < |nodes| ==> LinkedAt(nodes, u))
    && (forall u: nat, w: nat {:trigger Different(nodes, u, w)} :: u < w < |nodes| ==> Different(nodes, u, w))
  }

  class ConnTimerList {
    var head: ConnTimer?
    var tail: ConnTimer?
    ghost var nodes: seq<ConnTimer>

    ghost predicate Valid()
      reads this, nodes
    {
      Chain(nodes) && head == NodeAt(nodes, 0) && tail == NodeAt(nodes, |nodes| - 1)
    }

    constructor ()
      ensures Valid() && nodes == []
    {
      head, tail := null, null;
      nodes := [];
    }

    method Add(playerId: int) returns (node: ConnTimer)
      requires Valid()
      modifies this, nodes
      ensures Valid() && fresh(node) && node.playerId == playerId && nodes == old(nodes) + [node]
    {
      node := new ConnTimer(playerId);
      if head == null {
        head := node;
        tail := node;
      } else {
        assert LinkedAt(nodes, |nodes| - 1);
        node.prev := tail;
        tail.next := node;
        tail := node;
      }
      ghost var nodes0 := nodes;
      nodes := nodes + [node];
      forall u: nat | u < |nodes| ensures LinkedAt(nodes, u) {
        if u < |nodes0| { assert old(LinkedAt(nodes, u)); }
        if u < |nodes0| - 1 { assert Different(nodes0, u, |nodes0| - 1); }
      }
      forall u: nat, w: nat | u < w < |nodes| ensures Different(nodes, u, w) {
        if w < |nodes0| { assert Different(nodes0, u, w); }
      }
    }

    /** Unlinks a timer; its own pointers stay as they were. */
    method Remove(timer: ConnTimer, ghost u: nat)
      requires Valid() && u < |nodes| && timer == nodes[u]
      modifies this, nodes
      ensures Valid() && nodes == RemoveAt(old(nodes), u)
      ensures timer.next == old(timer.next) == NodeAt(nodes, u)
    {
      assert LinkedAt(nodes, u);
      if u > 0 { assert Different(nodes, u - 1, u) && LinkedAt(nodes, u - 1); }
      if u + 1 < |nodes| { assert Different(nodes, u, u + 1) && LinkedAt(nodes, u + 1); }
      if 0 < u < |nodes| - 1 { assert Different(nodes, u - 1, u + 1); }
      assert u > 0 ==> Different(nodes, 0, u);
      assert u < |nodes| - 1 ==> Different(nodes, u, |nodes| - 1);
      if timer.prev != null {
        timer.prev.next := timer.next;
      }
      if timer.next != null {
        timer.next.prev := timer.prev;
      }
      if timer == head {
        head := timer.next;
      }
      if timer == tail {
        tail := timer.prev;
      }
      ghost var nodes0 := nodes;
      nodes := RemoveAt(nodes, u);
      forall w: nat | w < |nodes| ensures LinkedAt(nodes, w) {
        var w0 := if w < u then w else w + 1;
        assert old(LinkedAt(nodes, w0));
        if w0 != u - 1 && u > 0 {
          assert if w0 < u - 1 then Different(nodes0, w0, u - 1) else Different(nodes0, u - 1, w0);
        }
        if w0 != u + 1 && u + 1 < |nodes0| {
          assert if w0 < u + 1 then Different(nodes0, w0, u + 1) else Different(nodes0, u + 1, w0);
        }
      }
      forall v: nat, w: nat | v < w < |nodes| ensures Different(nodes, v, w) {
        assert Different(nodes0, if v < u then v else v + 1, if w < u then w else w + 1);
      }
    }
  }
}
