/** The connection timing wheel: a ring of timer lists, three heartbeat intervals long, that a
    once-a-second loop sweeps by however many seconds have passed. */
module TimerWheel {
  import opened SeqEdit
  import opened TimerList

  /** Where a player's timer is. */
  datatype ConnTimerPlayer = ConnTimerPlayer(playerId: int, timerList: ConnTimerList, timer: ConnTimer)

  /** How many slots a sweep from `curr` passes until it reaches slot `s`; a full turn to reach itself. */
  function Dist(curr: int, len: int, s: int): int {
    if s > curr then s - curr else s - curr + len
  }

  lemma WrapOnce(x: int, len: int)
    requires 0 <= x < 2 * len
    ensures x % len == if x < len then x else x - len
  {
  }

  /** The timer at index `u` of a list `l` that holds `nodes` is the one on file for its player. */
  ghost predicate Owned(players: map<int, ConnTimerPlayer>, l: ConnTimerList, nodes: seq<ConnTimer>, u: nat)
    requires u < |nodes|
  {
    var n := nodes[u];
    n.playerId in players && players[n.playerId] == ConnTimerPlayer(n.playerId, l, n)
  }

  ghost predicate AllOwned(players: map<int, ConnTimerPlayer>, l: ConnTimerList, nodes: seq<ConnTimer>) {
    forall u: nat {:trigger Owned(players, l, nodes, u)} :: u < |nodes| ==> Owned(players, l, nodes, u)
  }

  lemma OwnedWithout(players: map<int, ConnTimerPlayer>, l: ConnTimerList, nodes: seq<ConnTimer>, k: int)
    requires AllOwned(players, l, nodes) && (k in players ==> players[k].timerList != l)
    ensures AllOwned(players - {k}, l, nodes)
  {
    var players' := players - {k};
    forall u: nat | u < |nodes| ensures Owned(players', l, nodes, u) { assert Owned(players, l, nodes, u); }
  }

  lemma OwnedAfterRemove(players: map<int, ConnTimerPlayer>, l: ConnTimerList, nodes: seq<ConnTimer>, u: nat)
    requires AllOwned(players, l, nodes) && u < |nodes|
    requires forall w: nat, v: nat :: w < v < |nodes| ==> nodes[w] != nodes[v]
    ensures AllOwned(players - {nodes[u].playerId}, l, RemoveAt(nodes, u))
  {
    var nodes', players' := RemoveAt(nodes, u), players - {nodes[u].playerId};
    assert Owned(players, l, nodes, u);
    forall w: nat | w < |nodes'| ensures Owned(players', l, nodes', w) {
      assert Owned(players, l, nodes, if w < u then w else w + 1);
    }
  }

  lemma OwnedAfterAdd(players: map<int, ConnTimerPlayer>, l: ConnTimerList, nodes: seq<ConnTimer>, p: ConnTimerPlayer)
    requires AllOwned(players, l, nodes) && p.playerId !in players && p.timer.playerId == p.playerId
    ensures AllOwned(players[p.playerId := p], l, nodes)
    ensures l == p.timerList ==> AllOwned(players[p.playerId := p], l, nodes + [p.timer])
  {
    var players' := players[p.playerId := p];
    forall u: nat | u < |nodes| ensures Owned(players', l, nodes, u) { assert Owned(players, l, nodes, u); }
    if l == p.timerList {
      var nodes' := nodes + [p.timer];
      forall u: nat | u < |nodes'| ensures Owned(players', l, nodes', u) {
        assert u < |nodes| ==> Owned(players', l, nodes, u);
      }
    }
  }

  ghost predicate Placed(timerLists: seq<ConnTimerList?>, curr: int, interval: int, l: ConnTimerList, s: int)
    reads l
  {
    && (s == -1 || (0 <= s < |timerLists| && timerLists[s] == l))
    && (s >= 0 && l.nodes != [] ==> Dist(curr, |timerLists|, s) <= interval)
  }

  ghost function RemainingOf(players: map<int, ConnTimerPlayer>, slot: map<ConnTimerList, int>, curr: int, len: int)
    : map<int, int>
  {
    map k | k in players && players[k].timerList in slot && slot[players[k].timerList] >= 0
      :: Dist(curr, len, slot[players[k].timerList])
  }

  /** The timers of unknown players, which a sweep leaves in the list. */
  ghost function Kept(nodes: seq<ConnTimer>, known: set<int>): seq<ConnTimer> {
    if nodes == [] then []
    else Kept(nodes[..|nodes| - 1], known) + (if nodes[|nodes| - 1].playerId in known then [] else [nodes[|nodes| - 1]])
  }

  /** The known players, in list order. */
  ghost function KnownIds(nodes: seq<ConnTimer>, known: set<int>): seq<int> {
    if nodes == [] then [] else
      var last := nodes[|nodes| - 1];
      KnownIds(nodes[..|nodes| - 1], known) + (if last.playerId in known then [last.playerId] else [])
  }

  /** What a walk has made of a list once it has passed `done` of its timers. */
  ghost function Walked(nodes: seq<ConnTimer>, done: nat, known: set<int>): seq<ConnTimer>
    requires done <= |nodes|
  {
    Kept(nodes[..done], known) + nodes[done..]
  }

  lemma WalkStep(nodes: seq<ConnTimer>, done: nat, known: set<int>)
    requires done < |nodes|
    ensures var k := |Kept(nodes[..done], known)|;
      && k < |Walked(nodes, done, known)| && Walked(nodes, done, known)[k] == nodes[done]
      && Walked(nodes, done + 1, known) ==
           (if nodes[done].playerId in known then RemoveAt(Walked(nodes, done, known), k)
            else Walked(nodes, done, known))
      && NodeAt(Walked(nodes, done + 1, known), if nodes[done].playerId in known then k else k + 1) ==
        NodeAt(nodes, done + 1)
    ensures KnownIds(nodes[..done + 1], known) ==
      KnownIds(nodes[..done], known) + (if nodes[done].playerId in known then [nodes[done].playerId] else [])
  {
    assert nodes[..done + 1][..done] == nodes[..done];
    assert nodes[done..] == [nodes[done]] + nodes[done + 1..];
    var kept := Kept(nodes[..done], known);
    if nodes[done].playerId in known {
      assert RemoveAt(kept + nodes[done..], |kept|) == kept + nodes[done + 1..];
    } else {
      assert Kept(nodes[..done + 1], known) == kept + [nodes[done]];
    }
  }

  ghost predicate NoRepeats(ks: seq<int>) {
    forall a, b :: 0 <= a < b < |ks| ==> ks[a] != ks[b]
  }

  lemma {:induction false} KnownIdsMembers(nodes: seq<ConnTimer>, known: set<int>)
    ensures forall k :: k in KnownIds(nodes, known) ==>
            k in known && exists u :: 0 <= u < |nodes| && nodes[u].playerId == k
    ensures forall u :: 0 <= u < |nodes| && nodes[u].playerId in known ==> nodes[u].playerId in KnownIds(nodes, known)
  {
    if nodes != [] {
      KnownIdsMembers(nodes[..|nodes| - 1], known);
      assert forall u :: 0 <= u < |nodes| - 1 ==> nodes[u] == nodes[..|nodes| - 1][u];
      var ks := KnownIds(nodes, known);
      assert nodes[|nodes| - 1].playerId in known ==> ks[|ks| - 1] == nodes[|nodes| - 1].playerId;
    }
  }

  lemma {:induction false} KnownIdsNoRepeats(nodes: seq<ConnTimer>, known: set<int>)
    requires forall u, w :: 0 <= u < w < |nodes| ==> nodes[u].playerId != nodes[w].playerId
    ensures NoRepeats(KnownIds(nodes, known))
  {
    if nodes != [] {
      var init := nodes[..|nodes| - 1];
      KnownIdsNoRepeats(init, known);
      KnownIdsMembers(init, known);
      var ks := KnownIds(init, known);
      forall a | 0 <= a < |ks| ensures ks[a] != nodes[|nodes| - 1].playerId {
        assert ks[a] in ks;
        var u :| 0 <= u < |init| && init[u].playerId == ks[a];
        assert nodes[u] == init[u];
      }
    }
  }

  /** The countdowns but those at exactly `d`. */
  ghost function NotAt(rem: map<int, int>, d: int): map<int, int> {
    map k | k in rem && rem[k] != d :: rem[k]
  }

  lemma RemainingDrop(players: map<int, ConnTimerPlayer>, slot: map<ConnTimerList, int>, curr: int, len: int,
                      list: ConnTimerList, i: int)
    requires list in slot && slot[list] == i && 0 <= i < len && -1 <= curr < len
    requires forall l :: l in slot ==> -1 <= slot[l] < len && (slot[l] == i ==> l == list)
    ensures RemainingOf(players, slot[list := -1], curr, len) ==
            NotAt(RemainingOf(players, slot, curr, len), Dist(curr, len, i))
  {
    var a := RemainingOf(players, slot[list := -1], curr, len);
    var b := NotAt(RemainingOf(players, slot, curr, len), Dist(curr, len, i));
    forall k ensures k in a <==> k in b {
      if k in players && players[k].timerList in slot {
        var s := slot[players[k].timerList];
        assert s >= 0 && Dist(curr, len, s) == Dist(curr, len, i) ==> s == i;
      }
    }
    assert forall k :: k in a ==> a[k] == b[k];
  }

  /** The countdowns longer than `j`. */
  ghost function Beyond(rem: map<int, int>, j: int): map<int, int> {
    map k | k in rem && rem[k] > j :: rem[k]
  }

  /** The countdowns `d` seconds later, those that have ended left out. */
  ghost function Later(rem: map<int, int>, d: int): map<int, int> {
    map k | k in rem && rem[k] > d :: rem[k] - d
  }

  /** The logged-out players stand in the order in which their countdowns ended. */
  ghost predicate InOrderOf(rem: map<int, int>, ks: seq<int>) {
    && (forall k :: k in ks ==> k in rem)
    && forall a, b :: 0 <= a < b < |ks| ==> rem[ks[a]] <= rem[ks[b]]
  }

  /** The slot a sweep of `d` seconds ends at. */
  function TargetSlot(curr: int, len: int, d: int): (idx: int)
    requires len > 0 && -1 <= curr < len && d > 0
  {
    if d >= len then (if curr > 0 then curr - 1 else len - 1) else (curr + d) % len
  }

  lemma TargetDist(curr: int, len: int, d: int)
    requires len > 1 && -1 <= curr < len && d > 0
    ensures 0 <= TargetSlot(curr, len, d) < len
    ensures d < len ==> Dist(curr, len, TargetSlot(curr, len, d)) == d
    ensures d >= len ==> len - 1 <= Dist(curr, len, TargetSlot(curr, len, d)) <= len
  {
    if d < len { WrapOnce(curr + d, len); }
  }

  lemma NextSlot(curr: int, len: int, i: int)
    requires len > 1 && -1 <= curr < len && 0 <= i < len && Dist(curr, len, i) < len
    ensures 0 <= (i + 1) % len < len && Dist(curr, len, (i + 1) % len) == Dist(curr, len, i) + 1
  {
    WrapOnce(i + 1, len);
  }

  lemma FirstSlot(curr: int, len: int)
    requires len > 1 && -1 <= curr < len
    ensures 0 <= (curr + 1) % len < len && Dist(curr, len, (curr + 1) % len) == 1
  {
    WrapOnce(curr + 1, len);
  }

  /** What the next `j + 1`st slot takes off what is left beyond `j`. */
  lemma BeyondStep(rem: map<int, int>, j: int)
    ensures NotAt(Beyond(rem, j), j + 1) == Beyond(rem, j + 1)
  {
    var a, b := NotAt(Beyond(rem, j), j + 1), Beyond(rem, j + 1);
    assert forall k :: k in b ==> k in Beyond(rem, j);
    assert forall k :: k in a <==> k in b;
  }

  /** The slot behind one that is not the last to be swept. */
  lemma StillBehind(curr: int, len: int, i: int, idx: int, j: int)
    requires -1 <= curr < len && 0 <= i < len && 0 <= idx < len && i != idx
    requires j == Dist(curr, len, i) <= Dist(curr, len, idx)
    ensures j < Dist(curr, len, idx) && 0 <= (i + 1) % len < len && Dist(curr, len, (i + 1) % len) == j + 1
  {
    NextSlot(curr, len, i);
  }

  lemma DistShift(curr: int, len: int, idx: int, s: int)
    requires -1 <= curr < len && 0 <= idx < len && 0 <= s < len && Dist(curr, len, s) > Dist(curr, len, idx)
    ensures Dist(idx, len, s) == Dist(curr, len, s) - Dist(curr, len, idx)
  {
  }

  lemma RemainingAdvance(players: map<int, ConnTimerPlayer>, slot: map<ConnTimerList, int>, curr: int, len: int,
                         idx: int)
    requires -1 <= curr < len && 0 <= idx < len && forall l :: l in slot ==> slot[l] < len
    requires forall k :: k in RemainingOf(players, slot, curr, len) ==>
             RemainingOf(players, slot, curr, len)[k] > Dist(curr, len, idx)
    ensures RemainingOf(players, slot, idx, len) == Later(RemainingOf(players, slot, curr, len), Dist(curr, len, idx))
  {
    var rem, a, d := RemainingOf(players, slot, curr, len), RemainingOf(players, slot, idx, len), Dist(curr, len, idx);
    var b := Later(rem, d);
    assert a.Keys == rem.Keys;
    assert forall k :: k in a <==> k in b;
    forall k | k in a ensures a[k] == b[k] {
      assert k in rem;
      DistShift(curr, len, idx, slot[players[k].timerList]);
    }
  }

  /** The players logged out by the time all slots up to distance `j` are swept. */
  ghost predicate Collected(rem: map<int, int>, gone: seq<int>, known: set<int>, j: int) {
    && NoRepeats(gone) && InOrderOf(rem, gone)
    && forall k :: k in gone <==> k in known && k in rem && rem[k] <= j
  }

  /** Sweeping `total` slots is sweeping `d` seconds if either they are equal or no countdown exceeds them. */
  lemma SweptEnough(rem: map<int, int>, gone: seq<int>, known: set<int>, total: int, d: int)
    requires Collected(rem, gone, known, total)
    requires total == d || forall k :: k in rem ==> rem[k] <= total && rem[k] <= d
    ensures Collected(rem, gone, known, d)
    ensures Later(Beyond(rem, total), total) == Later(rem, d)
  {
    var a, b := Later(Beyond(rem, total), total), Later(rem, d);
    if total == d {
      assert forall k :: k in b ==> k in Beyond(rem, total);
      assert forall k :: k in a <==> k in b;
      assert a == b;
    } else {
      assert forall k :: k !in a && k !in b;
      assert a == b;
    }
  }

  lemma CollectedStep(rem: map<int, int>, gone: seq<int>, more: seq<int>, known: set<int>, j: int)
    requires Collected(rem, gone, known, j) && NoRepeats(more)
    requires forall k :: k in more <==> k in known && k in Beyond(rem, j) && Beyond(rem, j)[k] == j + 1
    ensures Collected(rem, gone + more, known, j + 1)
  {
    var all := gone + more;
    assert forall a :: 0 <= a < |gone| ==> all[a] in gone;
    assert forall a :: |gone| <= a < |all| ==> all[a] in more;
    assert forall k :: k in all <==> k in gone || k in more;
  }

  lemma WithoutTwice<V>(m: map<int, V>, gone: seq<int>, more: seq<int>)
    ensures Without(Without(m, gone), more) == Without(m, gone + more)
  {
    assert forall k :: k in gone + more <==> k in gone || k in more;
  }

  ghost function Without<V>(m: map<int, V>, gone: seq<int>): map<int, V> {
    map k | k in m && k !in gone :: m[k]
  }

  /** What `j` slots of a sweep have done. */
  ghost predicate Swept<V>(rem0: map<int, int>, players0: map<int, V>, rem: map<int, int>, players: map<int, V>,
                           gone: seq<int>, known: set<int>, j: int)
  {
    rem == Beyond(rem0, j) && players == Without(players0, gone) && Collected(rem0, gone, known, j)
  }

  lemma SweptAtFirst<V>(rem: map<int, int>, players: map<int, V>, known: set<int>)
    requires forall k :: k in rem ==> rem[k] >= 1
    ensures Swept(rem, players, rem, players, [], known, 0)
  {
    var b := Beyond(rem, 0);
    forall k ensures k in b <==> k in rem {}
    assert Without(players, []) == players;
  }

  lemma SweptStep<V>(rem0: map<int, int>, players0: map<int, V>, rem: map<int, int>, players: map<int, V>,
                     rem': map<int, int>, players': map<int, V>, gone: seq<int>, more: seq<int>, known: set<int>,
                     j: int)
    requires Swept(rem0, players0, rem, players, gone, known, j)
    requires rem' == NotAt(rem, j + 1) && players' == Without(players, more) && NoRepeats(more)
    requires forall k :: k in more <==> k in known && k in rem && rem[k] == j + 1
    ensures Swept(rem0, players0, rem', players', gone + more, known, j + 1)
  {
    BeyondStep(rem0, j);
    CollectedStep(rem0, gone, more, known, j);
    WithoutTwice(players0, gone, more);
  }

  lemma NotAtWithout(rem: map<int, int>, gone: seq<int>, d: int)
    requires forall k :: k in gone ==> k in rem && rem[k] == d
    ensures NotAt(Without(rem, gone), d) == NotAt(rem, d)
  {
    var a, b := NotAt(Without(rem, gone), d), NotAt(rem, d);
    assert forall k :: k in b ==> k !in gone && k in Without(rem, gone);
    assert forall k :: k in a <==> k in b;
  }

  lemma RemainingWith(players: map<int, ConnTimerPlayer>, slot: map<ConnTimerList, int>, curr: int, len: int,
                      p: ConnTimerPlayer)
    requires p.timerList in slot && slot[p.timerList] >= 0
    ensures RemainingOf(players[p.playerId := p], slot, curr, len) ==
      RemainingOf(players, slot, curr, len)[p.playerId := Dist(curr, len, slot[p.timerList])]
  {
  }

  lemma RemainingWithout(players: map<int, ConnTimerPlayer>, slot: map<ConnTimerList, int>, curr: int, len: int,
                         gone: seq<int>)
    ensures RemainingOf(Without(players, gone), slot, curr, len) == Without(RemainingOf(players, slot, curr, len), gone)
  {
  }

  lemma RemainingLess(players: map<int, ConnTimerPlayer>, slot: map<ConnTimerList, int>, curr: int, len: int, k: int)
    ensures RemainingOf(players - {k}, slot, curr, len) == RemainingOf(players, slot, curr, len) - {k}
  {
  }

  lemma WithoutOneMore<V>(m: map<int, V>, gone: seq<int>, k: int)
    ensures Without(m, gone + [k]) == Without(m, gone) - {k}
  {
    assert forall j :: j in gone + [k] <==> j in gone || j == k;
  }

  /** A queued request: 1 (re)starts a player's countdown, 2 ends it. */
  datatype ConnOp = ConnOp(op: int, playerId: int)

  /** One round of the once-a-second loop: the requests it finds, its clock, the players still known. */
  datatype Tick = Tick(ops: seq<ConnOp>, now: int, known: set<int>)

  /** What the ring means: each player's countdown, and the time it was last swept. */
  datatype Wheel = Wheel(rem: map<int, int>, last: int)

  ghost function Served(interval: int, rem: map<int, int>, ops: seq<ConnOp>): map<int, int> {
    if ops == [] then rem
    else
      var r, o := Served(interval, rem, ops[..|ops| - 1]), ops[|ops| - 1];
      if o.op == 1 then r[o.playerId := interval] else if o.op == 2 then r - {o.playerId} else r
  }

  function CheckedTime(last: int, now: int): int {
    if last == 0 then now else last
  }

  ghost function NextWheel(interval: int, w: Wheel, t: Tick): Wheel {
    var rem, last := Served(interval, w.rem, t.ops), CheckedTime(w.last, t.now);
    if t.now > last then Wheel(Later(rem, t.now - last), t.now) else Wheel(rem, last)
  }

  /** The players a round logs out. */
  ghost function LoggedOut(interval: int, w: Wheel, t: Tick): set<int> {
    var rem, last := Served(interval, w.rem, t.ops), CheckedTime(w.last, t.now);
    set k | k in rem && t.now > last && rem[k] <= t.now - last && k in t.known
  }

  class ConnTimerWheel {
    const interval: int
    var timerLists: seq<ConnTimerList?>
    var currTimerIndex: int
    var lastCheckTime: int
    var players: map<int, ConnTimerPlayer>

    ghost var slot: map<ConnTimerList, int>  // the slot of each list in use; -1 once it has been dropped
    ghost var timers: set<ConnTimer>

    ghost predicate InTimers(l: ConnTimerList)
      reads l, `timers
    {
      forall u :: 0 <= u < |l.nodes| ==> l.nodes[u] in timers
    }

    /** A list in use is well formed, holds exactly timers on file, and hangs in its slot; a slot with
        timers is at most one interval ahead. */
    ghost predicate ListOk(l: ConnTimerList)
      requires l in slot
      reads this, l, l.nodes
    {
      l.Valid() && AllOwned(players, l, l.nodes) && Placed(timerLists, currTimerIndex, interval, l, slot[l])
    }

    ghost predicate SlotOk(i: nat)
      requires i < |timerLists|
      reads this
    {
      timerLists[i] != null ==> timerLists[i] in slot && slot[timerLists[i]] == i
    }

    ghost predicate PlayerOk(k: int)
      requires k in players
      reads this, players[k].timerList
    {
      && players[k].playerId == k && players[k].timer.playerId == k
      && players[k].timer in players[k].timerList.nodes
    }

    ghost predicate Valid()
      reads this, slot.Keys, timers
    {
      && interval >= 1 && |timerLists| == 3 * interval && -1 <= currTimerIndex < |timerLists|
      && (forall i: nat {:trigger SlotOk(i)} :: i < |timerLists| ==> SlotOk(i))
      && (forall l {:trigger ListOk(l)} {:trigger InTimers(l)} :: l in slot ==> InTimers(l) && ListOk(l))
      && (forall k :: k in players ==> players[k].timerList in slot)
      && (forall k {:trigger PlayerOk(k)} :: k in players ==> PlayerOk(k))
    }

    /** Seconds each player in the ring has left before a sweep reaches its slot. */
    ghost function Remaining(): map<int, int>
      reads this
    {
      RemainingOf(players, slot, currTimerIndex, |timerLists|)
    }

    constructor (heartbeatInterval: int)
      requires heartbeatInterval >= 1
      ensures Valid() && players == map[] && slot == map[] && timers == {} && Abstract() == Wheel(map[], 0)
      ensures interval == heartbeatInterval
    {
      interval := heartbeatInterval;
      timerLists := seq(heartbeatInterval * 3, _ => null);
      currTimerIndex := -1;
      lastCheckTime := 0;
      players := map[];
      slot := map[];
      timers := {};
    }

    /** A timer belongs to one list only. */
    lemma OneList(l: ConnTimerList, u: nat, m: ConnTimerList, w: nat)
      requires Valid() && l in slot && m in slot && u < |l.nodes| && w < |m.nodes| && l.nodes[u] == m.nodes[w]
      ensures l == m && u == w
    {
      assert ListOk(l) && ListOk(m) && Owned(players, l, l.nodes, u) && Owned(players, m, m.nodes, w);
      assert u < w ==> Different(l.nodes, u, w);
      assert w < u ==> Different(l.nodes, w, u);
    }

    ghost predicate Apart(l: ConnTimerList, m: ConnTimerList)
      reads l, m
    {
      forall u :: 0 <= u < |l.nodes| ==> l.nodes[u] !in m.nodes
    }

    lemma NoSharedTimer(l: ConnTimerList, m: ConnTimerList)
      requires Valid() && l in slot && m in slot && l != m
      ensures Apart(l, m)
    {
      forall u | 0 <= u < |l.nodes| ensures l.nodes[u] !in m.nodes {
        if l.nodes[u] in m.nodes {
          var w: nat :| w < |m.nodes| && m.nodes[w] == l.nodes[u];
          OneList(l, u, m, w);
        }
      }
    }

    /** Every other list is untouched when one list changes. */
    ghost predicate OthersValid(list: ConnTimerList)
      reads slot.Keys, timers, this
    {
      forall l {:trigger l.Valid()} :: l in slot && l != list && InTimers(l) ==> l.Valid()
    }

    method RemoveTimer(p: ConnTimerPlayer, ghost u: nat)
      requires Valid() && p.timerList in slot && u < |p.timerList.nodes| && p.timerList.nodes[u] == p.timer
      modifies p.timerList, p.timerList.nodes
      ensures p.timerList.Valid() && p.timerList.nodes == RemoveAt(old(p.timerList.nodes), u) &&
              OthersValid(p.timerList)
      ensures p.timer.next == old(p.timer.next) == NodeAt(p.timerList.nodes, u)
    {
      var list := p.timerList;
      assert ListOk(list);
      forall l | l in slot && l != list ensures Apart(l, list) {
        NoSharedTimer(l, list);
      }
      list.Remove(p.timer, u);
      forall l | l in slot && l != list && InTimers(l) ensures l.Valid() {
        assert old(ListOk(l)) && old(Apart(l, list));
      }
    }

    /** Takes a player's timer out of its list and off the file. */
    method Unlink(p: ConnTimerPlayer) returns (ghost u: nat)
      requires Valid() && p.playerId in players && players[p.playerId] == p
      modifies `players, p.timerList, p.timerList.nodes
      ensures Valid() && players == old(players) - {p.playerId} && Remaining() == old(Remaining()) - {p.playerId}
      ensures u < |old(p.timerList.nodes)| && old(p.timerList.nodes)[u] == p.timer
      ensures p.timerList.nodes == RemoveAt(old(p.timerList.nodes), u)
      ensures p.timer.next == old(p.timer.next) == NodeAt(p.timerList.nodes, u)
    {
      ghost var list := p.timerList;
      assert PlayerOk(p.playerId) && ListOk(list);
      u :| u < |list.nodes| && list.nodes[u] == p.timer;
      ghost var players0, nodes0 := players, list.nodes;
      AllDifferent(nodes0);
      RemoveTimer(p, u);
      players := players - {p.playerId};
      RemainingLess(players0, slot, currTimerIndex, |timerLists|, p.playerId);
      RemoveMembers(nodes0, u);
      OwnedAfterRemove(players0, list, nodes0, u);
      forall l | l in slot ensures InTimers(l) && ListOk(l) {
        assert old(ListOk(l));
        if l != list { OwnedWithout(players0, l, l.nodes, p.playerId); }
      }
      forall k | k in players ensures PlayerOk(k) {
        assert old(PlayerOk(k));
        if players[k].timerList == list { StillListed(old(list.nodes), u, players[k].timer); }
      }
      forall i: nat | i < |timerLists| ensures SlotOk(i) { assert old(SlotOk(i)); }
    }

    lemma AllDifferent(nodes: seq<ConnTimer>)
      requires Chain(nodes)
      ensures forall w: nat, v: nat :: w < v < |nodes| ==> nodes[w] != nodes[v]
    {
      forall w: nat, v: nat | w < v < |nodes| ensures nodes[w] != nodes[v] { assert Different(nodes, w, v); }
    }

    lemma StillListed(nodes: seq<ConnTimer>, u: nat, t: ConnTimer)
      requires u < |nodes| && t != nodes[u] && t in nodes
      ensures t in RemoveAt(nodes, u)
    {
      var w :| 0 <= w < |nodes| && nodes[w] == t;
      assert RemoveAt(nodes, u)[if w < u then w else w - 1] == t;
    }

    /** Ends a player's countdown. */
    method Remove(playerId: int) returns (ok: bool)
      requires Valid()
      modifies `players, slot.Keys, timers
      ensures Valid() && ok == (playerId in old(players)) && players == old(players) - {playerId}
      ensures Remaining() == old(Remaining()) - {playerId}
      ensures slot == old(slot) && timers == old(timers) && lastCheckTime == old(lastCheckTime)
    {
      if playerId !in players {
        return false;
      }
      assert PlayerOk(playerId) && InTimers(players[playerId].timerList);
      ghost var _ := Unlink(players[playerId]);
      ok := true;
    }

    /** Opens a list in an empty slot. */
    method OpenSlot(i: nat) returns (list: ConnTimerList)
      requires Valid() && i < |timerLists| && timerLists[i] == null
      modifies `timerLists, `slot
      ensures Valid() && list in slot && slot[list] == i && timerLists[i] == list
      ensures players == old(players) && fresh(list) && list.nodes == []
      ensures slot == old(slot)[list := i] && list !in old(slot) && |timerLists| == |old(timerLists)|
    {
      list := new ConnTimerList();
      timerLists := timerLists[i := list];
      slot := slot[list := i];
      forall l | l in slot ensures InTimers(l) && ListOk(l) {
        assert l != list ==> old(ListOk(l));
      }
      forall j: nat | j < |timerLists| ensures SlotOk(j) { assert old(SlotOk(j)); }
      forall k | k in players ensures PlayerOk(k) { assert old(PlayerOk(k)); }
    }

    /** The list of a slot, made on first use. */
    method SlotList(i: nat) returns (list: ConnTimerList)
      requires Valid() && i < |timerLists|
      modifies `timerLists, `slot
      ensures Valid() && list in slot && slot[list] == i
      ensures Remaining() == old(Remaining()) && players == old(players)
      ensures list in old(slot) || fresh(list)
      ensures forall l :: l in slot ==> l in old(slot) || l == list
    {
      assert SlotOk(i);
      var found := timerLists[i];
      if found == null {
        ghost var slot0 := slot;
        assert forall k :: k in players ==> players[k].timerList in slot0;
        list := OpenSlot(i);
        assert Remaining() == RemainingOf(players, slot0, currTimerIndex, |timerLists|);
      } else {
        list := found;
      }
    }

    method AppendTimer(list: ConnTimerList, playerId: int) returns (timer: ConnTimer)
      requires Valid() && list in slot
      modifies list, list.nodes
      ensures fresh(timer) && timer.playerId == playerId
      ensures list.Valid() && list.nodes == old(list.nodes) + [timer] && OthersValid(list)
    {
      assert ListOk(list);
      forall l | l in slot && l != list ensures Apart(l, list) {
        NoSharedTimer(l, list);
      }
      timer := list.Add(playerId);
      forall l | l in slot && l != list && InTimers(l) ensures l.Valid() {
        assert old(ListOk(l)) && old(Apart(l, list));
      }
    }

    /** Hangs a new timer into a list whose slot is one interval ahead. */
    method AddTimer(list: ConnTimerList, playerId: int)
      requires Valid() && playerId !in players && list in slot && slot[list] >= 0
      requires Dist(currTimerIndex, |timerLists|, slot[list]) == interval
      modifies `players, `timers, list, list.nodes
      ensures Valid() && Remaining() == old(Remaining())[playerId := interval]
      ensures playerId in players && players == old(players)[playerId := players[playerId]]
      ensures forall t :: t in timers ==> t in old(timers) || fresh(t)
    {
      assert ListOk(list);
      ghost var players0, nodes0 := players, list.nodes;
      var timer := AppendTimer(list, playerId);
      var p := ConnTimerPlayer(playerId, list, timer);
      RemainingWith(players, slot, currTimerIndex, |timerLists|, p);
      players := players[playerId := p];
      timers := timers + {timer};
      forall l | l in slot ensures InTimers(l) && ListOk(l) {
        assert old(ListOk(l)) && old(InTimers(l));
        OwnedAfterAdd(players0, l, old(l.nodes), p);
      }
      forall k | k in players ensures PlayerOk(k) {
        assert k != playerId ==> old(PlayerOk(k));
      }
      forall i: nat | i < |timerLists| ensures SlotOk(i) { assert old(SlotOk(i)); }
    }

    /** (Re)starts a player's countdown at one full interval. */
    method Insert(playerId: int) returns (ok: bool)
      requires Valid()
      modifies this, slot.Keys, timers
      ensures Valid() && ok && Remaining() == old(Remaining())[playerId := interval]
      ensures players.Keys == old(players).Keys + {playerId}
      ensures unchanged(`currTimerIndex) && unchanged(`lastCheckTime)
      ensures forall l :: l in slot ==> l in old(slot) || fresh(l)
      ensures forall t :: t in timers ==> t in old(timers) || fresh(t)
    {
      if playerId in players {
        assert PlayerOk(playerId) && InTimers(players[playerId].timerList);
        ghost var _ := Unlink(players[playerId]);
      }
      Place(playerId);
      ok := true;
    }

    method Place(playerId: int)
      requires Valid() && playerId !in players
      modifies `timerLists, `slot, `players, `timers, slot.Keys, timers
      ensures Valid() && Remaining() == old(Remaining())[playerId := interval]
      ensures players.Keys == old(players).Keys + {playerId}
      ensures forall l :: l in slot ==> l in old(slot) || fresh(l)
      ensures forall t :: t in timers ==> t in old(timers) || fresh(t)
    {
      var i := (currTimerIndex + interval) % |timerLists|;
      WrapOnce(currTimerIndex + interval, |timerLists|);
      var list := SlotList(i);
      assert InTimers(list);
      AddTimer(list, playerId);
    }

    /** Visits the timer at index `kept`: a known player is taken off and logged out, an unknown one stays. */
    method Visit(list: ConnTimerList, t: ConnTimer, known: set<int>, ghost kept: nat) returns (gone: bool)
      requires Valid() && list in slot && kept < |list.nodes| && t == list.nodes[kept]
      modifies `players, slot.Keys, timers
      ensures Valid() && gone == (t.playerId in known)
      ensures players == if gone then old(players) - {t.playerId} else old(players)
      ensures list.nodes == if gone then RemoveAt(old(list.nodes), kept) else old(list.nodes)
      ensures t.next == NodeAt(list.nodes, if gone then kept else kept + 1)
    {
      assert ListOk(list) && Owned(players, list, list.nodes, kept) && LinkedAt(list.nodes, kept);
      AllDifferent(list.nodes);
      gone := t.playerId in known;
      if gone {
        ghost var u := Unlink(players[t.playerId]);
        assert u == kept;
      }
    }

    /** Walks one slot's list from its head, although known players' timers leave it on the way. */
    method VisitAll(list: ConnTimerList, known: set<int>) returns (gone: seq<int>)
      requires Valid() && list in slot
      modifies `players, slot.Keys, timers
      ensures Valid() && gone == KnownIds(old(list.nodes), known)
      ensures players == Without(old(players), gone)
    {
      ghost var nodes0, done := list.nodes, 0;
      gone := [];
      var t := list.head;
      assert ListOk(list);
      while t != null
        invariant Valid() && done <= |nodes0| && slot == old(slot) && timers == old(timers)
        invariant list.nodes == Walked(nodes0, done, known)
        invariant t == NodeAt(nodes0, done)
        invariant gone == KnownIds(nodes0[..done], known)
        invariant players == Without(old(players), gone)
        decreases |nodes0| - done
      {
        WalkStep(nodes0, done, known);
        var left := Visit(list, t, known, |Kept(nodes0[..done], known)|);
        if left {
          WithoutOneMore(old(players), gone, t.playerId);
          gone := gone + [t.playerId];
        }
        t := t.next;
        done := done + 1;
      }
      assert nodes0[..done] == nodes0;
    }

    /** The players whose countdown ends at slot `i` are those with a timer in its list. */
    lemma SlotPlayers(list: ConnTimerList, i: nat)
      requires Valid() && list in slot && slot[list] == i
      ensures forall k :: k in players && players[k].timerList == list <==>
        k in Remaining() && Remaining()[k] == Dist(currTimerIndex, |timerLists|, i)
      ensures forall k :: k in players && players[k].timerList == list ==>
              exists u :: 0 <= u < |list.nodes| && list.nodes[u].playerId == k
      ensures forall u :: 0 <= u < |list.nodes| ==>
              list.nodes[u].playerId in players && players[list.nodes[u].playerId].timerList == list
      ensures forall u, w :: 0 <= u < w < |list.nodes| ==> list.nodes[u].playerId != list.nodes[w].playerId
    {
      assert ListOk(list);
      forall k | k in Remaining() && Remaining()[k] == Dist(currTimerIndex, |timerLists|, i)
        ensures players[k].timerList == list
      {
        assert ListOk(players[k].timerList);
      }
      forall k | k in players && players[k].timerList == list
        ensures exists u :: 0 <= u < |list.nodes| && list.nodes[u].playerId == k
      {
        assert PlayerOk(k);
      }
      forall u: nat | u < |list.nodes|
        ensures list.nodes[u].playerId in players && players[list.nodes[u].playerId].timerList == list
      {
        assert Owned(players, list, list.nodes, u);
      }
      forall u: nat, w: nat | u < w < |list.nodes| ensures list.nodes[u].playerId != list.nodes[w].playerId {
        assert Owned(players, list, list.nodes, u) && Owned(players, list, list.nodes, w) &&
          Different(list.nodes, u, w);
      }
    }

    lemma EmptySlot(i: nat)
      requires Valid() && i < |timerLists| && timerLists[i] == null
      ensures NotAt(Remaining(), Dist(currTimerIndex, |timerLists|, i)) == Remaining()
      ensures forall k :: k in Remaining() ==> Remaining()[k] != Dist(currTimerIndex, |timerLists|, i)
    {
      var rem, d := Remaining(), Dist(currTimerIndex, |timerLists|, i);
      forall k | k in rem ensures rem[k] != d {
        assert ListOk(players[k].timerList);
      }
      assert forall k :: k in rem ==> k in NotAt(rem, d);
    }

    /** Drops a list from the ring; timers of unknown players stay on file, hanging in no slot. */
    method DropSlot(i: nat, list: ConnTimerList)
      requires Valid() && i < |timerLists| && timerLists[i] == list
      modifies `timerLists, `slot
      ensures Valid() && |timerLists| == |old(timerLists)|
      ensures Remaining() == NotAt(old(Remaining()), Dist(currTimerIndex, |timerLists|, i))
      ensures slot.Keys == old(slot).Keys
    {
      assert SlotOk(i);
      forall l | l in slot ensures -1 <= slot[l] < |timerLists| && (slot[l] == i ==> l == list) { assert ListOk(l); }
      RemainingDrop(players, slot, currTimerIndex, |timerLists|, list, i);
      timerLists := timerLists[i := null];
      slot := slot[list := -1];
      forall l | l in slot ensures InTimers(l) && ListOk(l) { assert old(ListOk(l)); }
      forall j: nat | j < |timerLists| ensures SlotOk(j) { assert old(SlotOk(j)) && old(SlotOk(i)); }
      forall k | k in players ensures PlayerOk(k) { assert old(PlayerOk(k)); }
    }

    /** Sweeps one slot: its known players are logged out, its list is dropped. */
    method SweepSlot(i: nat, known: set<int>) returns (gone: seq<int>)
      requires Valid() && i < |timerLists|
      modifies `timerLists, `slot, `players, slot.Keys, timers
      ensures Valid() && |timerLists| == |old(timerLists)| && slot.Keys == old(slot).Keys
      ensures Remaining() == NotAt(old(Remaining()), Dist(currTimerIndex, |timerLists|, i))
      ensures players == Without(old(players), gone) && NoRepeats(gone)
      ensures forall k :: k in gone <==>
        k in known && k in old(Remaining()) && old(Remaining())[k] == Dist(currTimerIndex, |timerLists|, i)
    {
      gone := [];
      var list := timerLists[i];
      if list != null {
        assert SlotOk(i) && InTimers(list);
        SlotPlayers(list, i);
        KnownIdsMembers(list.nodes, known);
        KnownIdsNoRepeats(list.nodes, known);
        gone := VisitAll(list, known);
        assert forall k :: k in gone <==>
          k in known && k in old(Remaining()) && old(Remaining())[k] == Dist(currTimerIndex, |timerLists|, i);
        RemainingWithout(old(players), slot, currTimerIndex, |timerLists|, gone);
        NotAtWithout(old(Remaining()), gone, Dist(currTimerIndex, |timerLists|, i));
        DropSlot(i, list);
      } else {
        EmptySlot(i);
        assert players == Without(old(players), gone);
      }
    }

    lemma Bounded()
      requires Valid()
      ensures forall k :: k in Remaining() ==> 1 <= Remaining()[k] <= interval
    {
      forall k | k in Remaining() ensures 1 <= Remaining()[k] <= interval {
        assert PlayerOk(k) && ListOk(players[k].timerList);
      }
    }

    /** Moves the hand once every slot up to the target is empty. */
    method Advance(idx: int)
      requires Valid() && 0 <= idx < |timerLists|
      requires forall k :: k in Remaining() ==> Remaining()[k] > Dist(currTimerIndex, |timerLists|, idx)
      modifies `currTimerIndex
      ensures Valid() && Remaining() == Later(old(Remaining()), Dist(old(currTimerIndex), |timerLists|, idx))
    {
      forall l | l in slot ensures slot[l] < |timerLists| { assert ListOk(l); }
      ghost var rem0 := Remaining();
      assert rem0 == RemainingOf(players, slot, currTimerIndex, |timerLists|);
      RemainingAdvance(players, slot, currTimerIndex, |timerLists|, idx);
      currTimerIndex := idx;
      forall l | l in slot ensures InTimers(l) && ListOk(l) {
        assert old(ListOk(l));
        if slot[l] >= 0 && l.nodes != [] {
          var k := l.nodes[0].playerId;
          assert old(Owned(players, l, l.nodes, 0)) && k in rem0 &&
            rem0[k] == Dist(old(currTimerIndex), |timerLists|, slot[l]);
          DistShift(old(currTimerIndex), |timerLists|, idx, slot[l]);
        }
      }
      forall i: nat | i < |timerLists| ensures SlotOk(i) { assert old(SlotOk(i)); }
      forall k | k in players ensures PlayerOk(k) { assert old(PlayerOk(k)); }
    }

    /** Sweeps all slots that have come due: exactly the known players whose countdown is over are logged
        out, once each and in the order of their deadlines; all other countdowns go down by `diffSecs`. */
    method Sweep(diffSecs: int, known: set<int>) returns (gone: seq<int>)
      requires Valid() && diffSecs > 0
      modifies this, slot.Keys, timers
      ensures Valid() && lastCheckTime == old(lastCheckTime) && slot.Keys == old(slot).Keys && timers == old(timers)
      ensures Remaining() == Later(old(Remaining()), diffSecs)
      ensures players == Without(old(players), gone)
      ensures Collected(old(Remaining()), gone, known, diffSecs)
    {
      Bounded();
      ghost var rem0 := Remaining();
      var idx := TargetSlot(currTimerIndex, |timerLists|, diffSecs);
      TargetDist(currTimerIndex, |timerLists|, diffSecs);
      ghost var total := Dist(currTimerIndex, |timerLists|, idx);
      gone := Turn(idx, known);
      SweptEnough(rem0, gone, known, total, diffSecs);
    }

    method Turn(idx: int, known: set<int>) returns (gone: seq<int>)
      requires Valid() && 0 <= idx < |timerLists|
      modifies `timerLists, `currTimerIndex, `slot, `players, slot.Keys, timers
      ensures Valid() && slot.Keys == old(slot).Keys && players == Without(old(players), gone)
      ensures var total := Dist(old(currTimerIndex), |old(timerLists)|, idx);
        && Remaining() == Later(Beyond(old(Remaining()), total), total)
        && Collected(old(Remaining()), gone, known, total)
    {
      gone := SweepTo(idx, known);
      Advance(idx);
    }

    /** Sweeps the next slot of a sweep that has done `j`. */
    method SweepNext(i: nat, known: set<int>, gone0: seq<int>,
                     ghost rem0: map<int, int>, ghost players0: map<int, ConnTimerPlayer>, ghost j: int)
      returns (gone: seq<int>)
      requires Valid() && i < |timerLists| && Dist(currTimerIndex, |timerLists|, i) == j + 1
      requires Swept(rem0, players0, Remaining(), players, gone0, known, j)
      modifies `timerLists, `slot, `players, slot.Keys, timers
      ensures Valid() && |timerLists| == |old(timerLists)| && slot.Keys == old(slot).Keys
      ensures Swept(rem0, players0, Remaining(), players, gone, known, j + 1)
    {
      ghost var rem1, players1 := Remaining(), players;
      var more := SweepSlot(i, known);
      SweptStep(rem0, players0, rem1, players1, Remaining(), players, gone0, more, known, j);
      gone := gone0 + more;
    }

    /** Sweeps slot after slot, from the one behind the hand up to `idx`. */
    method SweepTo(idx: int, known: set<int>) returns (gone: seq<int>)
      requires Valid() && 0 <= idx < |timerLists|
      modifies `timerLists, `slot, `players, slot.Keys, timers
      ensures Valid() && |timerLists| == |old(timerLists)| && slot.Keys == old(slot).Keys
      ensures Swept(old(Remaining()), old(players), Remaining(), players, gone, known,
                    Dist(currTimerIndex, |timerLists|, idx))
    {
      gone := [];
      ghost var rem0, players0, j, total := Remaining(), players, 0, Dist(currTimerIndex, |timerLists|, idx);
      var i := (currTimerIndex + 1) % |timerLists|;
      FirstSlot(currTimerIndex, |timerLists|);
      Bounded();
      SweptAtFirst(rem0, players0, known);
      while true
        invariant Valid() && |timerLists| == |old(timerLists)| && slot.Keys == old(slot).Keys
        invariant 0 <= j < total && 0 <= i < |timerLists| && Dist(currTimerIndex, |timerLists|, i) == j + 1
        invariant Swept(rem0, players0, Remaining(), players, gone, known, j)
        decreases total - j
      {
        gone := SweepNext(i, known, gone, rem0, players0, j);
        j := j + 1;
        if i == idx {
          break;
        }
        StillBehind(currTimerIndex, |timerLists|, i, idx, j);
        i := (i + 1) % |timerLists|;
      }
    }

    /** The ring, read as countdowns. */
    ghost function Abstract(): Wheel
      reads this
    {
      Wheel(Remaining(), lastCheckTime)
    }

    /** Serves one request. */
    method ServeOne(d: ConnOp)
      requires Valid()
      modifies this, slot.Keys, timers
      ensures Valid() && lastCheckTime == old(lastCheckTime)
      ensures Remaining() == if d.op == 1 then old(Remaining())[d.playerId := interval]
                             else if d.op == 2 then old(Remaining()) - {d.playerId} else old(Remaining())
      ensures forall l :: l in slot ==> l in old(slot) || fresh(l)
      ensures forall t :: t in timers ==> t in old(timers) || fresh(t)
    {
      if d.op == 1 {
        var _ := Insert(d.playerId);
        return;
      }
      if d.op == 2 {
        var _ := Remove(d.playerId);
      }
    }

    /** Serves the requests waiting, in order. */
    method Serve(ops: seq<ConnOp>)
      requires Valid()
      modifies this, slot.Keys, timers
      ensures Valid() && Remaining() == Served(interval, old(Remaining()), ops) && lastCheckTime == old(lastCheckTime)
      ensures forall l :: l in slot ==> l in old(slot) || fresh(l)
      ensures forall t :: t in timers ==> t in old(timers) || fresh(t)
    {
      if ops != [] {
        Serve(ops[..|ops| - 1]);
        ServeOne(ops[|ops| - 1]);
      }
    }

    /** One round of the loop does exactly what the countdowns say, in the ring. */
    method Step(t: Tick) returns (gone: seq<int>)
      requires Valid()
      modifies this, slot.Keys, timers
      ensures Valid() && Abstract() == NextWheel(interval, old(Abstract()), t)
      ensures NoRepeats(gone) && forall k :: k in gone <==> k in LoggedOut(interval, old(Abstract()), t)
      ensures InOrderOf(Served(interval, old(Remaining()), t.ops), gone)
      ensures forall l :: l in slot ==> l in old(slot) || fresh(l)
      ensures forall t :: t in timers ==> t in old(timers) || fresh(t)
    {
      Serve(t.ops);
      gone := CheckTime(t.now, t.known);
    }

    /** Sweeps by the seconds since the last check, if any have passed. */
    method CheckTime(now: int, known: set<int>) returns (gone: seq<int>)
      requires Valid()
      modifies this, slot.Keys, timers
      ensures Valid() && slot.Keys == old(slot).Keys && timers == old(timers)
      ensures Abstract() == NextWheel(interval, old(Abstract()), Tick([], now, known))
      ensures NoRepeats(gone) && forall k :: k in gone <==>
              k in LoggedOut(interval, old(Abstract()), Tick([], now, known))
      ensures InOrderOf(old(Remaining()), gone)
    {
      gone := [];
      if lastCheckTime == 0 {
        SetCheckTime(now);
      }
      var diffSecs := now - lastCheckTime;
      if diffSecs > 0 {
        gone := Sweep(diffSecs, known);
        SetCheckTime(now);
      }
    }

    method SetCheckTime(now: int)
      requires Valid()
      modifies `lastCheckTime
      ensures Valid() && lastCheckTime == now && Remaining() == old(Remaining())
    {
      lastCheckTime := now;
      forall l | l in slot ensures InTimers(l) && ListOk(l) { assert old(ListOk(l)); }
      forall i: nat | i < |timerLists| ensures SlotOk(i) { assert old(SlotOk(i)); }
      forall k | k in players ensures PlayerOk(k) { assert old(PlayerOk(k)); }
    }
  }
}
