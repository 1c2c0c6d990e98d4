/** The operations on a player's workshop, each settling the queue first or last. */
module Workshop {
  import opened SeqEdit
  import opened MakingQueue

  lemma SoundPolled(shop: Shop, formulas: map<int, Formula>, now: int)
    requires Sound(shop, formulas)
    ensures Sound(Polled(shop, formulas, now), formulas)
  {
    var k, mid := DoneBy(shop, formulas, now), Polled(shop, formulas, now);
    forall i: nat, j: nat | i < j < |mid.making|
      ensures Apart(mid.making, i, j)
    {
      assert Apart(shop.making, k + i, k + j);
    }
    forall i: nat | i < |mid.making| ensures InUse(mid, formulas, i) {
      assert InUse(shop, formulas, k + i);
      FormulaStays(shop, formulas, now, i);
    }
    forall slot | slot in mid.slots ensures Usable(mid, slot) {
      FreedAt(shop.slots, shop.making, k, Start(shop) + Sum(Times(shop, formulas)[..k]), slot);
      assert Usable(shop, slot) && shop.making == shop.making[..k] + mid.making;
    }
  }

  /** A workshop never used gets its first slots. */
  function Opened(shop: Shop): Shop {
    if shop.slots == map[] then Shop(map[1 := Slot(0, 0), 2 := Slot(0, 0)], [], shop.maked) else shop
  }

  lemma SoundOpened(shop: Shop, formulas: map<int, Formula>)
    requires Sound(shop, formulas)
    ensures Sound(Opened(shop), formulas)
  {
    forall slot | slot in Opened(shop).slots ensures Usable(Opened(shop), slot) {
      assert slot in shop.slots ==> Usable(shop, slot);
    }
  }

  function Made(shop: Shop, slot: int, formulaId: int, now: int): Shop {
    Shop(shop.slots[slot := Slot(formulaId, now)], shop.making + [slot], shop.maked)
  }

  lemma SoundMade(shop: Shop, formulas: map<int, Formula>, slot: int, formulaId: int, now: int)
    requires Sound(shop, formulas) && Table(formulas) && formulaId in formulas
    requires slot in shop.slots && shop.slots[slot].formulaId == 0
    ensures Sound(Made(shop, slot, formulaId, now), formulas) && slot !in shop.making
  {
    var after := Made(shop, slot, formulaId, now);
    forall i: nat | i < |shop.making| ensures shop.making[i] != slot { assert InUse(shop, formulas, i); }
    forall i: nat, j: nat | i < j < |after.making| ensures Apart(after.making, i, j) {
      if j < |shop.making| { assert Apart(shop.making, i, j); }
    }
    forall i: nat | i < |after.making| ensures InUse(after, formulas, i) {
      if i < |shop.making| { assert InUse(shop, formulas, i); }
    }
    forall s | s in after.slots ensures Usable(after, s) { assert Usable(shop, s); }
  }

  /** Ends the building in front at once. */
  function Sped(shop: Shop, formulas: map<int, Formula>): Shop
    requires shop.making != []
  {
    Shop(Put(shop.slots, shop.making[0], Slot(0, 0)), shop.making[1..],
         shop.maked + [FormulaOf(shop, formulas, shop.making[0]).buildId])
  }

  /** Drops the n-th building of the queue. */
  function Cancelled(shop: Shop, n: nat): Shop
    requires n < |shop.making|
  {
    Shop(Put(shop.slots, shop.making[n], Slot(0, 0)), RemoveAt(shop.making, n), shop.maked)
  }

  lemma SoundCancelled(shop: Shop, formulas: map<int, Formula>, n: nat)
    requires Sound(shop, formulas) && n < |shop.making|
    ensures Sound(Cancelled(shop, n), formulas)
  {
    var after := Cancelled(shop, n);
    forall i: nat, j: nat | i < j < |after.making| ensures Apart(after.making, i, j) {
      assert Apart(shop.making, if i < n then i else i + 1, if j < n then j else j + 1);
    }
    forall i: nat | i < |after.making| ensures InUse(after, formulas, i) {
      var u := if i < n then i else i + 1;
      assert InUse(shop, formulas, u) && (if u < n then Apart(shop.making, u, n) else Apart(shop.making, n, u));
    }
    forall slot | slot in after.slots ensures Usable(after, slot) {
      assert Usable(shop, slot);
      if slot in shop.making && slot != shop.making[n] {
        var u: nat :| u < |shop.making| && shop.making[u] == slot;
        assert after.making[if u < n then u else u - 1] == slot;
      }
    }
  }

  lemma SoundSped(shop: Shop, formulas: map<int, Formula>)
    requires Sound(shop, formulas) && shop.making != []
    ensures Sound(Sped(shop, formulas), formulas)
  {
    SoundCancelled(shop, formulas, 0);
    var a, b := Cancelled(shop, 0), Sped(shop, formulas);
    assert a.making == b.making;
    forall i: nat | i < |b.making| ensures InUse(b, formulas, i) { assert InUse(a, formulas, i); }
    forall slot | slot in b.slots ensures Usable(b, slot) { assert Usable(a, slot); }
  }

  function Bought(shop: Shop, slot: int): Shop {
    Shop(shop.slots[slot := Slot(0, 0)], shop.making, shop.maked)
  }

  lemma SoundBought(shop: Shop, formulas: map<int, Formula>, slot: int)
    requires Sound(shop, formulas) && slot !in shop.slots && 1 <= slot <= MAX_SLOTS
    ensures Sound(Bought(shop, slot), formulas)
  {
    var after := Bought(shop, slot);
    forall i: nat | i < |after.making| ensures InUse(after, formulas, i) { assert InUse(shop, formulas, i); }
    forall s | s in after.slots ensures Usable(after, s) { assert s != slot ==> Usable(shop, s); }
  }

  /** An order in which the slots can be listed: each once. */
  ghost predicate Listing(order: seq<int>, slots: map<int, Slot>) {
    && NoRepeats(order)
    && (forall i {:trigger order[i]} :: 0 <= i < |order| ==> order[i] in slots)
    && (forall slot :: slot in slots ==> slot in order)
  }

  /** The slots listed that are not in the queue. */
  function Idle(order: seq<int>, making: seq<int>): (idle: seq<int>)
    ensures forall slot :: slot in idle <==> slot in order && slot !in making
  {
    if order == [] then [] else
      var n := |order| - 1;
      Idle(order[..n], making) + if order[n] in making then [] else [order[n]]
  }

  lemma {:induction false} IdleApart(order: seq<int>, making: seq<int>)
    requires NoRepeats(order)
    ensures NoRepeats(Idle(order, making))
  {
    if order != [] {
      var n := |order| - 1;
      var front, idle := Idle(order[..n], making), Idle(order, making);
      forall i: nat, j: nat | i < j < n ensures Apart(order[..n], i, j) { assert Apart(order, i, j); }
      IdleApart(order[..n], making);
      forall i: nat, j: nat | i < j < |idle| ensures Apart(idle, i, j) {
        if j < |front| {
          assert Apart(front, i, j);
        } else {
          assert front[i] in order[..n];
          var u: nat :| u < n && order[u] == front[i];
          assert Apart(order, u, n);
        }
      }
    }
  }

  lemma {:induction false} SetSize(s: seq<int>)
    requires NoRepeats(s)
    ensures |set x | x in s| == |s|
  {
    if s != [] {
      var n := |s| - 1;
      forall i: nat, j: nat | i < j < n ensures Apart(s[..n], i, j) { assert Apart(s, i, j); }
      SetSize(s[..n]);
      forall i: nat | i < n ensures s[i] != s[n] { assert Apart(s, i, n); }
      assert (set x | x in s) == (set x | x in s[..n]) + {s[n]};
    }
  }

  /** Together the slots in the queue and those not in it are all the slots. */
  lemma IdleAndMaking(order: seq<int>, making: seq<int>)
    requires NoRepeats(order) && NoRepeats(making) && forall slot :: slot in making ==> slot in order
    ensures |Idle(order, making)| + |making| == |order|
  {
    var idle := Idle(order, making);
    IdleApart(order, making);
    SetSize(order);
    SetSize(idle);
    SetSize(making);
    var all, some, used := set x | x in order, set x | x in idle, set x | x in making;
    forall x ensures x in all <==> x in some + used {}
    assert all == some + used && some !! used;
  }

  /** What a poll answers: the queue from the front, and from the back the slots that are free. */
  ghost predicate Answers(reply: seq<Reply>, shop: Shop, formulas: map<int, Formula>, back: seq<int>, now: int) {
    && |reply| == |shop.making| + |back|
    && (forall i {:trigger Waiting(shop, formulas, i, now)} :: 0 <= i < |shop.making| ==>
          reply[i] == Waiting(shop, formulas, i, now))
    && BackRows(reply, back)
  }

  ghost predicate BackRows(reply: seq<Reply>, back: seq<int>) {
    |back| <= |reply| && forall j {:trigger back[j]} :: 0 <= j < |back| ==>
      reply[|reply| - 1 - j] == Reply(back[j], 0, 0)
  }

  /** The rows not written yet. */
  ghost predicate BlankTo(reply: seq<Reply>, dn: int) {
    -1 <= dn < |reply| && forall i {:trigger reply[i]} :: 0 <= i <= dn ==> reply[i] == Reply(0, 0, 0)
  }

  /** The row of entry i of a queue whose first n buildings are over. */
  ghost predicate WaitRow(reply: seq<Reply>, slots: map<int, Slot>, formulas: map<int, Formula>, making: seq<int>,
                          n: nat, left: int, i: int)
    requires n <= i < |making| && i - n < |reply|
  {
    && making[i] in slots && slots[making[i]].formulaId in formulas
    && reply[i - n] == Reply(making[i], slots[making[i]].formulaId,
                             if i == n then left else formulas[slots[making[i]].formulaId].time * 60)
  }

  lemma BackRowAt(reply: seq<Reply>, back: seq<int>, j: nat)
    requires BackRows(reply, back) && j < |back|
    ensures reply[|reply| - 1 - j] == Reply(back[j], 0, 0)
  {
  }

  lemma BackRowsPut(reply: seq<Reply>, back: seq<int>, dn: int, slot: int)
    requires BackRows(reply, back) && BlankTo(reply, dn) && 0 <= dn == |reply| - 1 - |back|
    ensures BackRows(reply[dn := reply[dn].(slotId := slot)], back + [slot]) &&
            BlankTo(reply[dn := reply[dn].(slotId := slot)], dn - 1)
  {
  }

  /** The row of a slot in the queue: what is left of the first one, and sixty times the time of the others. */
  function Waiting(shop: Shop, formulas: map<int, Formula>, i: int, now: int): Reply
    requires 0 <= i < |shop.making|
  {
    var slot := shop.making[i];
    var f := FormulaOf(shop, formulas, slot);
    Reply(slot, if slot in shop.slots then shop.slots[slot].formulaId else 0,
          if i == 0 then f.time - (now - Start(shop)) else f.time * 60)
  }

  lemma AllApart(order: seq<int>, making: seq<int>)
    requires NoRepeats(order) && NoRepeats(making)
    ensures NoRepeats(Idle(order, making) + making)
  {
    var idle := Idle(order, making);
    var all := idle + making;
    IdleApart(order, making);
    forall i: nat, j: nat | i < j < |all| ensures Apart(all, i, j) {
      if j < |idle| {
        assert Apart(idle, i, j);
      } else if i >= |idle| {
        assert Apart(making, i - |idle|, j - |idle|);
      } else {
        assert all[i] in idle && all[j] in making;
      }
    }
  }

  /** Where the slot of row i stands among the free slots followed by the queue as it was. */
  lemma RowIsEntry(reply: seq<Reply>, shop: Shop, formulas: map<int, Formula>, idle: seq<int>, making: seq<int>,
                   k: nat, now: int, i: nat)
    requires k <= |making| && shop.making == making[k..] && Answers(reply, shop, formulas, idle + making[..k], now)
    requires i < |reply|
    ensures |reply| == |idle| + |making|
    ensures var e := if i < |making| - k then |idle| + k + i else |reply| - 1 - i;
      0 <= e < |idle| + |making| && reply[i].slotId == (idle + making)[e]
  {
    if i < |making| - k {
      assert reply[i] == Waiting(shop, formulas, i, now) && shop.making[i] == making[k + i];
    } else {
      var back := idle + making[..k];
      var j := |reply| - 1 - i;
      assert back[j] == (idle + making)[j];
      BackRowAt(reply, back, j);
    }
  }

  /** A poll's answer has one row for each slot. */
  lemma EachSlotOnce(reply: seq<Reply>, shop: Shop, formulas: map<int, Formula>, making: seq<int>, order: seq<int>,
                     k: nat, now: int)
    requires NoRepeats(making) && NoRepeats(order) && (forall s :: s in making ==> s in order)
    requires k <= |making| && shop.making == making[k..]
    requires Answers(reply, shop, formulas, Idle(order, making) + making[..k], now)
    ensures |reply| == |order|
    ensures forall i: nat {:trigger reply[i]} :: i < |reply| ==> reply[i].slotId in order
    ensures forall i: nat, j: nat {:trigger reply[i], reply[j]} :: i < j < |reply| ==>
            reply[i].slotId != reply[j].slotId
  {
    var idle := Idle(order, making);
    var all := idle + making;
    IdleAndMaking(order, making);
    AllApart(order, making);
    forall i: nat {:trigger reply[i]} | i < |reply| ensures reply[i].slotId in order {
      RowIsEntry(reply, shop, formulas, idle, making, k, now, i);
      assert forall x :: x in all ==> x in idle || x in making;
    }
    forall i: nat, j: nat {:trigger reply[i], reply[j]} | i < j < |reply| ensures reply[i].slotId != reply[j].slotId {
      RowIsEntry(reply, shop, formulas, idle, making, k, now, i);
      RowIsEntry(reply, shop, formulas, idle, making, k, now, j);
      var u := if i < |making| - k then |idle| + k + i else |reply| - 1 - i;
      var w := if j < |making| - k then |idle| + k + j else |reply| - 1 - j;
      assert if u < w then Apart(all, u, w) else Apart(all, w, u);
    }
  }

  /** Rows behind those of the queue show nothing being made. */
  lemma FreeRowsAreEmpty(reply: seq<Reply>, shop: Shop, formulas: map<int, Formula>, back: seq<int>, now: int, i: nat)
    requires Answers(reply, shop, formulas, back, now) && |shop.making| <= i < |reply|
    ensures reply[i].slotId in back && reply[i].formulaId == 0 && reply[i].remainSeconds == 0
  {
    BackRowAt(reply, back, |reply| - 1 - i);
  }

  ghost predicate AsBefore(shop: Shop, slots: map<int, Slot>, i: nat)
    requires i < |shop.making|
  {
    shop.making[i] in slots && shop.making[i] in shop.slots && slots[shop.making[i]] == shop.slots[shop.making[i]]
  }

  /** The time used when the first n buildings are over. */
  function UsedAfter(shop: Shop, formulas: map<int, Formula>, n: nat, now: int): int
    requires n <= |shop.making|
  {
    now - Start(shop) - Sum(Times(shop, formulas)[..n])
  }

  /** The state of a poll that has found the first n buildings over: what it will find in all is not settled by how far
      it has come. */
  ghost predicate Ahead(shop: Shop, slots: map<int, Slot>, formulas: map<int, Formula>, n: nat, now: int) {
    && n <= DoneBy(shop, formulas, now)
    && DoneBy(shop, formulas, now) - n == Done(Times(shop, formulas)[n..], UsedAfter(shop, formulas, n, now))
    && SlotsAfter(shop, formulas, DoneBy(shop, formulas, now)) ==
       Freed(slots, shop.making[n..], DoneBy(shop, formulas, now) - n,
             Start(shop) + Sum(Times(shop, formulas)[..DoneBy(shop, formulas, now)]))
    && (forall i: nat {:trigger AsBefore(shop, slots, i)} :: n <= i < |shop.making| ==> AsBefore(shop, slots, i))
  }

  lemma AheadAtFirst(shop: Shop, formulas: map<int, Formula>, now: int)
    requires Sound(shop, formulas)
    ensures Ahead(shop, shop.slots, formulas, 0, now)
  {
    assert Times(shop, formulas)[0..] == Times(shop, formulas) && shop.making[0..] == shop.making &&
      Times(shop, formulas)[..0] == [];
    forall i: nat | i < |shop.making| ensures AsBefore(shop, shop.slots, i) { assert InUse(shop, formulas, i); }
  }

  lemma AheadStops(shop: Shop, slots: map<int, Slot>, formulas: map<int, Formula>, n: nat, now: int)
    requires Ahead(shop, slots, formulas, n, now)
    requires n < |shop.making| ==> UsedAfter(shop, formulas, n, now) < Times(shop, formulas)[n]
    ensures DoneBy(shop, formulas, now) == n
    ensures n == |shop.making| ==> SlotsAfter(shop, formulas, n) == slots
    ensures n < |shop.making| ==>
              var slot := shop.making[n];
              slot in slots &&
              SlotsAfter(shop, formulas, n) ==
                slots[slot := Slot(slots[slot].formulaId, now - UsedAfter(shop, formulas, n, now))]
  {
    assert n < |shop.making| ==> Times(shop, formulas)[n..][0] == Times(shop, formulas)[n] && AsBefore(shop, slots, n);
  }

  lemma AheadNext(shop: Shop, slots: map<int, Slot>, formulas: map<int, Formula>, n: nat, now: int)
    requires Sound(shop, formulas) && Ahead(shop, slots, formulas, n, now) && n < |shop.making|
    requires UsedAfter(shop, formulas, n, now) >= Times(shop, formulas)[n]
    ensures Ahead(shop, Put(slots, shop.making[n], Slot(0, 0)), formulas, n + 1, now)
    ensures UsedAfter(shop, formulas, n + 1, now) == UsedAfter(shop, formulas, n, now) - Times(shop, formulas)[n]
    ensures Builds(shop, formulas, n + 1) ==
            Builds(shop, formulas, n) + [FormulaOf(shop, formulas, shop.making[n]).buildId]
  {
    var ts, slots' := Times(shop, formulas), Put(slots, shop.making[n], Slot(0, 0));
    assert ts[..n + 1][..n] == ts[..n] && ts[n..][1..] == ts[n + 1..] && shop.making[n..][1..] == shop.making[n + 1..];
    forall i: nat | n + 1 <= i < |shop.making| ensures AsBefore(shop, slots', i) {
      assert AsBefore(shop, slots, i) && Apart(shop.making, n, i);
    }
  }

  lemma OneMore(idle: seq<int>, making: seq<int>, n: nat)
    requires n < |making|
    ensures (idle + making[..n]) + [making[n]] == idle + making[..n + 1]
  {
  }

  lemma PolledKeepsSlots(shop: Shop, formulas: map<int, Formula>, now: int)
    requires Sound(shop, formulas)
    ensures Polled(shop, formulas, now).slots.Keys == shop.slots.Keys
  {
    var k := DoneBy(shop, formulas, now);
    forall slot ensures slot in Polled(shop, formulas, now).slots <==> slot in shop.slots {
      FreedAt(shop.slots, shop.making, k, Start(shop) + Sum(Times(shop, formulas)[..k]), slot);
    }
  }

  ghost predicate FreeSlot(slots: map<int, Slot>) {
    exists slot :: slot in slots && slots[slot].formulaId == 0
  }

  /** One unit for each started `per` seconds. */
  ghost predicate RoundsUp(left: int, per: int, cost: int) {
    (cost - 1) * per < left <= cost * per
  }

  lemma RoundedUp(left: int, per: int)
    requires per > 0
    ensures RoundsUp(left, per, (left + (per - 1)) / per)
  {
    var cost := (left + (per - 1)) / per;
    assert left + (per - 1) == cost * per + (left + (per - 1)) % per;
  }

  lemma SoundCollected(shop: Shop, formulas: map<int, Formula>)
    requires Sound(shop, formulas)
    ensures Sound(Shop(shop.slots, shop.making, []), formulas)
  {
    var after := Shop(shop.slots, shop.making, []);
    forall i: nat | i < |after.making| ensures InUse(after, formulas, i) { assert InUse(shop, formulas, i); }
    forall slot | slot in after.slots ensures Usable(after, slot) { assert Usable(shop, slot); }
  }

  /** A workshop without slots gets slots 1 and 2, free; any other is left as it is. */
  lemma OpensTwoSlots(shop: Shop, formulas: map<int, Formula>, slot: int)
    requires Sound(shop, formulas)
    ensures slot in Opened(shop).slots <==> slot in shop.slots || (shop.slots == map[] && (slot == 1 || slot == 2))
    ensures slot in Opened(shop).slots ==>
              Opened(shop).slots[slot] == if slot in shop.slots then shop.slots[slot] else Slot(0, 0)
    ensures Opened(shop).making == shop.making && Opened(shop).maked == shop.maked
  {
    assert shop.making != [] ==> InUse(shop, formulas, 0);
  }

  class Player {
    var slots: map<int, Slot>
    var makingQueue: seq<int>
    var makedQueue: seq<int>
    const formulas: map<int, Formula>

    ghost function Now(): Shop
      reads this
    {
      Shop(slots, makingQueue, makedQueue)
    }

    ghost predicate Valid()
      reads this
    {
      Table(formulas) && Sound(Now(), formulas)
    }

    constructor (formulas: map<int, Formula>)
      requires Table(formulas)
      ensures Valid() && Now() == Shop(map[], [], []) && this.formulas == formulas
    {
      slots, makingQueue, makedQueue := map[], [], [];
      this.formulas := formulas;
    }

    /** Whether a slot is in the queue. */
    method InQueue(slot: int) returns (found: bool)
      ensures found <==> slot in makingQueue
    {
      var j := 0;
      while j < |makingQueue|
        invariant 0 <= j <= |makingQueue| && slot !in makingQueue[..j]
      {
        if slot == makingQueue[j] {
          break;
        }
        j := j + 1;
      }
      found := j != |makingQueue|;
    }

    /** The first rows of the answer, from the back: the slots that are not in the queue. */
    method FillIdle(order: seq<int>) returns (reply: seq<Reply>, dn: int)
      ensures |reply| == |order| && dn == |order| - 1 - |Idle(order, makingQueue)|
      ensures BackRows(reply, Idle(order, makingQueue)) && BlankTo(reply, dn)
    {
      reply := seq(|order|, _ => Reply(0, 0, 0));
      dn := |order| - 1;
      var i := 0;
      ghost var idle := [];
      while i < |order|
        invariant 0 <= i <= |order| && |reply| == |order| && idle == Idle(order[..i], makingQueue) && |idle| <= i
        invariant dn == |order| - 1 - |idle| && BackRows(reply, idle) && BlankTo(reply, dn)
      {
        assert order[..i + 1][..i] == order[..i];
        var found := InQueue(order[i]);
        if !found {
          BackRowsPut(reply, idle, dn, order[i]);
          reply := reply[dn := reply[dn].(slotId := order[i])];
          dn := dn - 1;
          idle := idle + [order[i]];
        }
        i := i + 1;
      }
      assert order[..i] == order;
    }

    method ClearSlot(slot: int)
      modifies `slots
      ensures slots == Put(old(slots), slot, Slot(0, 0))
    {
      if slot in slots {
        slots := slots[slot := slots[slot].(formulaId := 0)];
        slots := slots[slot := slots[slot].(startTime := 0)];
      }
    }

    /** Takes the buildings that are over out of the slots, from the front; their slots are answered next from the
        back. `n` says how many, `left` what is left of the one in front. */
    method Advance(now: int, reply0: seq<Reply>, dn0: int, ghost idle: seq<int>)
      returns (n: nat, left: int, reply: seq<Reply>)
      requires Valid() && makingQueue != [] && dn0 == |reply0| - 1 - |idle| && |idle| + |makingQueue| <= |reply0|
      requires BackRows(reply0, idle) && BlankTo(reply0, dn0)
      modifies `slots, `makedQueue
      ensures n == DoneBy(old(Now()), formulas, now)
      ensures slots == SlotsAfter(old(Now()), formulas, n)
      ensures makedQueue == old(makedQueue) + Builds(old(Now()), formulas, n)
      ensures |reply| == |reply0| && BackRows(reply, idle + makingQueue[..n]) && BlankTo(reply, dn0 - n)
      ensures n < |makingQueue| ==> left == Times(old(Now()), formulas)[n] - UsedAfter(old(Now()), formulas, n, now)
    {
      ghost var shop, back := Now(), idle;
      assert idle + makingQueue[..0] == idle;
      var startTime, usedTime, dn := 0, 0, dn0;
      reply := reply0;
      n, left := 0, 0;
      AheadAtFirst(shop, formulas, now);
      while n < |makingQueue|
        invariant 0 <= n <= |makingQueue| && dn == dn0 - n && makedQueue == shop.maked + Builds(shop, formulas, n)
        invariant |reply| == |reply0| && BackRows(reply, back) && BlankTo(reply, dn) && back == idle + makingQueue[..n]
        invariant Ahead(shop, slots, formulas, n, now)
        invariant n > 0 ==> usedTime == UsedAfter(shop, formulas, n, now)
      {
        assert InUse(shop, formulas, n) && AsBefore(shop, slots, n);
        var slot := makingQueue[n];
        var f := formulas[slots[slot].formulaId];
        if n == 0 {
          startTime := slots[slot].startTime;
          usedTime := now - startTime;
        }
        if usedTime < f.time {
          left := f.time - usedTime;
          AheadStops(shop, slots, formulas, n, now);
          slots := slots[slot := slots[slot].(startTime := now - usedTime)];
          return;
        }
        AheadNext(shop, slots, formulas, n, now);
        usedTime := usedTime - f.time;
        ClearSlot(slot);
        BackRowsPut(reply, back, dn, slot);
        reply := reply[dn := reply[dn].(slotId := slot)];
        back := back + [slot];
        OneMore(idle, makingQueue, n);
        makedQueue := makedQueue + [f.buildId];
        dn := dn - 1;
        n := n + 1;
      }
      AheadStops(shop, slots, formulas, n, now);
    }

    /** The rows of what is still in the queue, from the front. */
    method FillWaiting(making: seq<int>, left: int, n: nat, reply0: seq<Reply>) returns (reply: seq<Reply>)
      requires n <= |making| && |making| - n <= |reply0| && BlankTo(reply0, |making| - n - 1)
      requires forall i {:trigger making[i]} :: n <= i < |making| ==>
               making[i] in slots && slots[making[i]].formulaId in formulas
      ensures |reply| == |reply0| && forall j {:trigger reply[j]} :: |making| - n <= j < |reply| ==>
              reply[j] == reply0[j]
      ensures forall i {:trigger WaitRow(reply, slots, formulas, making, n, left, i)} :: n <= i < |making| ==>
                WaitRow(reply, slots, formulas, making, n, left, i)
    {
      reply := reply0;
      var i := n;
      while i < |making|
        invariant n <= i <= |making| && |reply| == |reply0|
        invariant forall j {:trigger reply[j]} :: i - n <= j < |reply| ==> reply[j] == reply0[j]
        invariant forall u {:trigger WaitRow(reply, slots, formulas, making, n, left, u)} :: n <= u < i ==>
                    WaitRow(reply, slots, formulas, making, n, left, u)
      {
        ghost var before := reply;
        var slot := making[i];
        var fid := slots[slot].formulaId;
        var f := formulas[fid];
        var row := reply[i - n];
        row := row.(slotId := slot);
        row := row.(formulaId := fid);
        if i == n {
          row := row.(remainSeconds := left);
        } else {
          row := row.(remainSeconds := f.time * 60);
        }
        reply := reply[i - n := row];
        i := i + 1;
        forall u | n <= u < i ensures WaitRow(reply, slots, formulas, making, n, left, u) {
          assert u < i - 1 ==> WaitRow(before, slots, formulas, making, n, left, u);
        }
      }
    }

    /** The slots, in any order. */
    method GetAllIndex() returns (list: seq<int>)
      ensures Listing(list, slots) && (list == [] <==> slots == map[])
    {
      list := [];
      var rest := slots.Keys;
      while rest != {}
        invariant rest <= slots.Keys && NoRepeats(list)
        invariant forall i {:trigger list[i]} :: 0 <= i < |list| ==> list[i] in slots && list[i] !in rest
        invariant forall slot :: slot in slots && slot !in rest ==> slot in list
        decreases rest
      {
        HasMember(rest);
        var slot :| slot in rest;
        ghost var before := list;
        list := list + [slot];
        rest := rest - {slot};
        forall i: nat, j: nat | i < j < |list| ensures Apart(list, i, j) {
          if j < |before| { assert Apart(before, i, j); } else { assert before[i] in slots; }
        }
      }
      if list == [] {
        forall slot ensures slot !in slots {}
        assert slots == map[];
      } else {
        assert list[0] in slots;
      }
    }

    /** Settles the queue at this time and answers with one row for each slot. */
    method GetFormulaBuildings(now: int) returns (reply: seq<Reply>, ghost order: seq<int>)
      requires Valid()
      modifies `slots, `makingQueue, `makedQueue
      ensures Valid() && Now() == Polled(Opened(old(Now())), formulas, now) && Listing(order, Now().slots)
      ensures Answers(reply, Now(), formulas,
                      Idle(order, old(makingQueue)) +
                      old(makingQueue)[..DoneBy(Opened(old(Now())), formulas, now)], now)
    {
      SoundOpened(Now(), formulas);
      if slots == map[] {
        slots := slots[1 := Slot(0, 0)];
        slots := slots[2 := Slot(0, 0)];
        assert makingQueue == [] by { assert makingQueue != [] ==> InUse(old(Now()), formulas, 0); }
        makingQueue := [];
      }
      PolledKeepsSlots(Now(), formulas, now);
      ghost var keys := slots.Keys;
      var list := GetAllIndex();
      order := list;
      reply := Settle(list, now);
      assert slots.Keys == keys;
    }

    method Settle(order: seq<int>, now: int) returns (reply: seq<Reply>)
      requires Valid() && Listing(order, slots)
      modifies `slots, `makingQueue, `makedQueue
      ensures Valid() && Now() == Polled(old(Now()), formulas, now)
      ensures Answers(reply, Now(), formulas,
                      Idle(order, old(makingQueue)) + old(makingQueue)[..DoneBy(old(Now()), formulas, now)], now)
    {
      ghost var shop := Now();
      QueueListed(shop, formulas, order);
      var dn;
      reply, dn := FillIdle(order);
      PolledFollows(shop, formulas, now);
      SoundPolled(shop, formulas, now);
      if makingQueue != [] {
        reply := SettleQueue(order, now, reply, dn);
      }
    }

    method SettleQueue(order: seq<int>, now: int, reply0: seq<Reply>, dn: int) returns (reply: seq<Reply>)
      requires Valid() && makingQueue != [] && |reply0| == |Idle(order, makingQueue)| + |makingQueue|
      requires dn == |reply0| - 1 - |Idle(order, makingQueue)| && BackRows(reply0, Idle(order, makingQueue)) &&
               BlankTo(reply0, dn)
      modifies `slots, `makingQueue, `makedQueue
      ensures Now() == Polled(old(Now()), formulas, now)
      ensures Answers(reply, Now(), formulas,
                      Idle(order, old(makingQueue)) + old(makingQueue)[..DoneBy(old(Now()), formulas, now)], now)
    {
      ghost var shop, after, idle := Now(), Polled(Now(), formulas, now), Idle(order, makingQueue);
      var n, left, reply1 := Advance(now, reply0, dn, idle);
      PolledFollows(shop, formulas, now);
      SoundPolled(shop, formulas, now);
      forall i {:trigger makingQueue[i]} | n <= i < |makingQueue|
        ensures makingQueue[i] in slots && slots[makingQueue[i]].formulaId in formulas
      {
        assert InUse(after, formulas, i - n);
      }
      reply := FillWaiting(makingQueue, left, n, reply1);
      makingQueue := makingQueue[n..];
      AnswerIsWhole(reply1, reply, shop, after, formulas, idle, n, left, now);
    }

    method FirstFree(list: seq<int>) returns (idx: int)
      requires Listing(list, slots)
      ensures -1 <= idx < |list| && (idx >= 0 <==> FreeSlot(slots))
      ensures idx >= 0 ==> list[idx] in slots && slots[list[idx]].formulaId == 0
    {
      idx := 0;
      while idx < |list|
        invariant 0 <= idx <= |list|
        invariant forall j {:trigger list[j]} :: 0 <= j < idx ==> slots[list[j]].formulaId != 0
      {
        var s := list[idx];
        if slots[s].formulaId == 0 {
          assert s in slots && slots[s].formulaId == 0;
          return;
        }
        idx := idx + 1;
      }
      forall slot | slot in slots ensures slots[slot].formulaId != 0 { assert slot in list; }
      idx := -1;
    }

    /** Starts a building in the first free slot. `action` is the action points left and `refusal` what the checks of
        the recipe and its costs say, 0 for nothing. The queue is settled afterwards, not before. */
    method MakeFormulaBuilding(formulaId: int, action: int, refusal: int, now: int, later: int)
      returns (r: int, ghost slot: int)
      requires Valid() && refusal <= 0
      modifies `slots, `makingQueue, `makedQueue
      ensures Valid()
      ensures r == 1 <==> action >= 1 && FreeSlot(old(slots)) && formulaId in formulas && refusal == 0
      ensures r == 1 ==> slot in old(slots) && old(slots)[slot].formulaId == 0 &&
                         Now() == Polled(Made(old(Now()), slot, formulaId, now), formulas, later)
      ensures r != 1 ==> Now() == old(Now())
      ensures action < 1 ==> r == ACTION_NOT_ENOUGH
      ensures action >= 1 && !FreeSlot(old(slots)) ==> r == if old(slots) == map[] then -1 else NO_SLOT_TO_MAKING
      ensures action >= 1 && FreeSlot(old(slots)) && formulaId !in formulas ==> r == TABLE_DATA_NOT_FOUND
      ensures action >= 1 && FreeSlot(old(slots)) && formulaId in formulas && refusal < 0 ==> r == refusal
    {
      if action < 1 {
        return ACTION_NOT_ENOUGH, 0;
      }
      var allIdx := GetAllIndex();
      if allIdx == [] {
        return -1, 0;
      }
      var idx := FirstFree(allIdx);
      if idx < 0 {
        return NO_SLOT_TO_MAKING, 0;
      }
      if formulaId !in formulas {
        return TABLE_DATA_NOT_FOUND, 0;
      }
      if refusal < 0 {
        return refusal, 0;
      }
      var slotId := allIdx[idx];
      slot := slotId;
      assert Usable(Now(), slotId);
      SoundMade(Now(), formulas, slotId, formulaId, now);
      slots := slots[slotId := slots[slotId].(formulaId := formulaId)];
      slots := slots[slotId := slots[slotId].(startTime := now)];
      makingQueue := makingQueue + [slotId];
      assert Now() == Made(old(Now()), slotId, formulaId, now);
      var _, _ := GetFormulaBuildings(later);
      r := 1;
    }

    /** Adds the next slot that can be bought; `enough` says whether the diamonds are there. */
    method BuyNewMakingBuildingSlot(enough: bool, later: int) returns (r: int, ghost slot: int)
      requires Valid()
      modifies `slots, `makingQueue, `makedQueue
      ensures Valid() && (r != 1 ==> Now() == old(Now()))
      ensures old(slots) == map[] ==> r == -1
      ensures old(slots) != map[] && !enough ==> r == SLOT_ID_INVALID
      ensures old(slots) != map[] && enough ==> (r == 0 || r == 1) && (r == 0 <==> 3 in old(slots) && 4 in old(slots))
      ensures r == 1 ==> slot == (if 3 in old(slots) then 4 else 3) && slot !in old(slots) &&
                         Now() == Polled(Bought(old(Now()), slot), formulas, later)
    {
      slot := 0;
      var allIndex := GetAllIndex();
      if allIndex == [] {
        return -1, slot;
      }
      if !enough {
        return SLOT_ID_INVALID, slot;
      }
      var newSlot, s := 0, DEFAULT_SLOTS + 1;
      while s <= MAX_SLOTS && newSlot == 0
        invariant makingQueue == old(makingQueue) && makedQueue == old(makedQueue)
        invariant 3 <= s <= 5 && (newSlot == 0 ==> slots == old(slots) && forall t :: 3 <= t < s ==> t in slots)
        invariant newSlot != 0 ==> newSlot !in old(slots) && slots == old(slots)[newSlot := Slot(0, 0)] &&
                                   newSlot == if 3 in old(slots) then 4 else 3
      {
        if s !in slots {
          slots := slots[s := Slot(0, 0)];
          newSlot := s;
        }
        s := s + 1;
      }
      if newSlot == 0 {
        assert 3 in slots && 4 in slots;
        return 0, slot;
      }
      slot := newSlot;
      SoundBought(old(Now()), formulas, newSlot);
      assert Now() == Bought(old(Now()), newSlot);
      var _, _ := GetFormulaBuildings(later);
      r := 1;
    }

    /** Settles the queue and ends the building in front at once. With nothing in the queue the answer is built from
        the first entry of an empty list: -1 stands for that panic. */
    method SpeedupMakingBuilding(costPer: int, now: int, later: int) returns (r: int, cost: int)
      requires Valid() && costPer > 0
      modifies `slots, `makingQueue, `makedQueue
      ensures Valid()
      ensures var polled := Polled(Opened(old(Now())), formulas, now);
        if polled.making == [] then r == -1 && Now() == polled
        else r == 1 && Now() == Polled(Sped(polled, formulas), formulas, later) &&
             var left := Start(polled) + FormulaOf(polled, formulas, polled.making[0]).time - now;
             (cost - 1) * costPer < left <= cost * costPer
    {
      var reply, _ := GetFormulaBuildings(now);
      cost := 0;
      if makingQueue == [] {
        return -1, cost;
      }
      cost := EndFront(reply, costPer, now);
      var _, _ := GetFormulaBuildings(later);
      r := 1;
    }

    method EndFront(reply: seq<Reply>, costPer: int, now: int) returns (cost: int)
      requires Valid() && costPer > 0 && makingQueue != [] && |reply| > 0 &&
               reply[0] == Waiting(Now(), formulas, 0, now)
      modifies `slots, `makingQueue, `makedQueue
      ensures Valid() && slots != map[] && Now() == Sped(old(Now()), formulas)
      ensures RoundsUp(old(Waiting(Now(), formulas, 0, now)).remainSeconds, costPer, cost)
    {
      ghost var shop := Now();
      SoundSped(shop, formulas);
      assert InUse(shop, formulas, 0) && Usable(shop, makingQueue[0]);
      var slot, left := reply[0].slotId, reply[0].remainSeconds;
      var f := formulas[reply[0].formulaId];
      ClearSlot(slot);
      makingQueue := makingQueue[1..];
      makedQueue := makedQueue + [f.buildId];
      cost := (left + (costPer - 1)) / costPer;
      RoundedUp(left, costPer);
      assert slot in slots;
    }

    /** Settles the queue and drops a building that waits in it; the one in front cannot be dropped. */
    method CancelMakingFormulaBuilding(slot: int, now: int, later: int) returns (r: int, ghost n: nat)
      requires Valid()
      modifies `slots, `makingQueue, `makedQueue
      ensures Valid()
      ensures var polled := Polled(Opened(old(Now())), formulas, now);
        if |polled.making| < 2 then r == NOT_MAKING && Now() == polled
        else if slot !in polled.making[1..] then r == SLOT_ID_INVALID && Now() == polled
        else r == 1 && 1 <= n < |polled.making| && polled.making[n] == slot &&
             Now() == Polled(Cancelled(polled, n), formulas, later)
    {
      n := 0;
      var _, _ := GetFormulaBuildings(now);
      ghost var polled := Now();
      if |makingQueue| < 2 {
        return NOT_MAKING, n;
      }
      var m := 1;
      while m < |makingQueue|
        invariant 1 <= m <= |makingQueue| && slot !in makingQueue[1..m]
      {
        if makingQueue[m] == slot {
          break;
        }
        m := m + 1;
      }
      if m == |makingQueue| {
        assert makingQueue[1..m] == makingQueue[1..];
        return SLOT_ID_INVALID, n;
      }
      n := m;
      assert makingQueue[1..][m - 1] == slot;
      DropAt(m);
      assert Now() == Cancelled(polled, m);
      var _, _ := GetFormulaBuildings(later);
      r := 1;
    }

    method DropAt(m: nat)
      requires Valid() && m < |makingQueue|
      modifies `slots, `makingQueue
      ensures Valid() && slots != map[] && Now() == Cancelled(old(Now()), m)
    {
      SoundCancelled(Now(), formulas, m);
      assert InUse(Now(), formulas, m);
      ClearSlot(makingQueue[m]);
      assert makingQueue[m] in slots;
      ghost var was := makingQueue;
      var list := makingQueue;
      var i: int := m;
      while i < |list| - 1
        invariant m <= i <= |list| - 1 && |list| == |was|
        invariant forall j {:trigger list[j]} :: 0 <= j < |list| ==>
                  list[j] == if m <= j < i then was[j + 1] else was[j]
      {
        list := list[i := list[i + 1]];
        i := i + 1;
      }
      makingQueue := list[..|list| - 1];
      assert makingQueue == RemoveAt(was, m);
    }

    /** Hands over the buildings made so far. */
    method GetCompletedFormulaBuilding(later: int) returns (r: int, taken: seq<int>)
      requires Valid()
      modifies `slots, `makingQueue, `makedQueue
      ensures Valid()
      ensures if old(slots) == map[] then r == NO_MAKING_BUILDING && Now() == old(Now())
              else if old(makedQueue) == [] then r == -1 && Now() == old(Now())
              else r == 1 && taken == old(makedQueue) &&
                   Now() == Polled(Shop(old(slots), old(makingQueue), []), formulas, later)
    {
      taken := [];
      var allIndex := GetAllIndex();
      if allIndex == [] {
        return NO_MAKING_BUILDING, taken;
      }
      if makedQueue == [] {
        return -1, taken;
      }
      taken := makedQueue;
      makedQueue := [];
      SoundCollected(old(Now()), formulas);
      assert Now() == Shop(old(slots), old(makingQueue), []);
      var _, _ := GetFormulaBuildings(later);
      r := 1;
    }
  }

  lemma QueueListed(shop: Shop, formulas: map<int, Formula>, order: seq<int>)
    requires Sound(shop, formulas) && Listing(order, shop.slots)
    ensures |Idle(order, shop.making)| + |shop.making| == |order|
  {
    forall slot | slot in shop.making ensures slot in order {
      var i: nat :| i < |shop.making| && shop.making[i] == slot;
      assert InUse(shop, formulas, i);
    }
    IdleAndMaking(order, shop.making);
  }

  lemma AnswerIsWhole(reply0: seq<Reply>, reply: seq<Reply>, shop: Shop, after: Shop, formulas: map<int, Formula>,
                      idle: seq<int>, n: nat, left: int, now: int)
    requires Follows(shop, after, formulas, n) && Sound(after, formulas)
    requires |reply| == |reply0| == |idle| + |shop.making| && BackRows(reply0, idle + shop.making[..n])
    requires n < |shop.making| ==> left == Times(shop, formulas)[n] - UsedAfter(shop, formulas, n, now)
    requires forall j {:trigger reply[j]} :: |shop.making| - n <= j < |reply| ==> reply[j] == reply0[j]
    requires forall i {:trigger WaitRow(reply, after.slots, formulas, shop.making, n, left, i)} ::
             n <= i < |shop.making| ==>
               WaitRow(reply, after.slots, formulas, shop.making, n, left, i)
    ensures Answers(reply, after, formulas, idle + shop.making[..n], now)
  {
    var back := idle + shop.making[..n];
    forall j: nat {:trigger back[j]} | j < |back| ensures reply[|reply| - 1 - j] == Reply(back[j], 0, 0) {
      BackRowAt(reply0, back, j);
    }
    forall i: nat | i < |after.making| ensures reply[i] == Waiting(after, formulas, i, now) {
      assert after.making[i] == shop.making[n + i] &&
        WaitRow(reply, after.slots, formulas, shop.making, n, left, n + i);
      if i == 0 {
        assert Times(after, formulas)[0] == Times(shop, formulas)[n];
      }
    }
  }

  lemma FromPlace(s: seq<int>, i: nat, k: nat)
    requires NoRepeats(s) && i < |s| && k <= |s|
    ensures s[i] in s[k..] <==> k <= i
  {
    if k <= i {
      assert s[k..][i - k] == s[i];
    } else {
      forall j: nat | k <= j < |s| ensures s[j] != s[i] { assert Apart(s, i, j); }
    }
  }

  lemma MadeTimes(shop: Shop, formulas: map<int, Formula>, slot: int, formulaId: int, now: int)
    requires Sound(shop, formulas) && Table(formulas) && formulaId in formulas
    requires slot in shop.slots && shop.slots[slot].formulaId == 0
    ensures Times(Made(shop, slot, formulaId, now), formulas) == Times(shop, formulas) + [formulas[formulaId].time]
    ensures Start(Made(shop, slot, formulaId, now)) == if shop.making == [] then now else Start(shop)
  {
    SoundMade(shop, formulas, slot, formulaId, now);
    var after := Made(shop, slot, formulaId, now);
    forall i: nat | i < |shop.making|
      ensures FormulaOf(after, formulas, after.making[i]) == FormulaOf(shop, formulas, shop.making[i])
    {
      assert InUse(shop, formulas, i) && after.making[i] == shop.making[i];
    }
    assert shop.making != [] ==> InUse(shop, formulas, 0);
  }

  /** Whether what is made in a slot is over by a poll at this time. */
  ghost predicate OverBy(shop: Shop, formulas: map<int, Formula>, slot: int, t: int) {
    slot !in Polled(shop, formulas, t).making
  }

  /** A building ordered takes its place behind what is queued and is over when the times before and its own are. */
  lemma MadeIsOver(shop: Shop, formulas: map<int, Formula>, slot: int, formulaId: int, now: int, t: int)
    requires Sound(shop, formulas) && Table(formulas) && formulaId in formulas && NoneNegative(Times(shop, formulas)) &&
             formulas[formulaId].time >= 0
    requires slot in shop.slots && shop.slots[slot].formulaId == 0
    ensures OverBy(Made(shop, slot, formulaId, now), formulas, slot, t) <==>
            t >= (if shop.making == [] then now else Start(shop)) + Sum(Times(shop, formulas)) +
              formulas[formulaId].time
  {
    var made, n := Made(shop, slot, formulaId, now), |shop.making|;
    var ts := Times(made, formulas);
    SoundMade(shop, formulas, slot, formulaId, now);
    MadeTimes(shop, formulas, slot, formulaId, now);
    DoneIffElapsed(ts, t - Start(made), n);
    assert ts[..n + 1] == ts && ts[..n] == Times(shop, formulas);
    FromPlace(made.making, n, DoneBy(made, formulas, t));
  }

  /** The queue is not settled before a building is ordered, so time already past can count for it. A poll after the
      order can find it over before its own time has passed if and only if it takes any time, something was queued and
      all of that was over before the order. */
  lemma MadeMayBeEarly(shop: Shop, formulas: map<int, Formula>, slot: int, formulaId: int, now: int)
    requires Sound(shop, formulas) && Table(formulas) && formulaId in formulas
    requires NoneNegative(Times(shop, formulas)) && formulas[formulaId].time >= 0
    requires slot in shop.slots && shop.slots[slot].formulaId == 0
    ensures var time := formulas[formulaId].time;
      (exists t :: now <= t < now + time && OverBy(Made(shop, slot, formulaId, now), formulas, slot, t)) <==>
      time > 0 && shop.making != [] && Start(shop) + Sum(Times(shop, formulas)) < now
  {
    var made, time := Made(shop, slot, formulaId, now), formulas[formulaId].time;
    var end := Start(shop) + Sum(Times(shop, formulas));
    forall t
      ensures OverBy(made, formulas, slot, t) <==>
        t >= (if shop.making == [] then now else Start(shop)) + Sum(Times(shop, formulas)) + time
    {
      MadeIsOver(shop, formulas, slot, formulaId, now, t);
    }
    if shop.making != [] {
      assert OverBy(made, formulas, slot, if end + time < now then now else end + time);
    }
  }

  /** One building of ten seconds ordered at 0 and not looked at since, another ordered at 100: it is over at once. */
  lemma MadeAndOver(shop: Shop, formulas: map<int, Formula>)
    requires formulas == map[1 := Formula(10, 7)]
    requires shop == Shop(map[1 := Slot(1, 0), 2 := Slot(0, 0)], [1], [])
    ensures Sound(shop, formulas) && OverBy(Made(shop, 2, 1, 100), formulas, 2, 100)
  {
    assert Usable(shop, 1) && Usable(shop, 2);
    assert Times(shop, formulas) == [10] && [10][..0] == [];
    assert Sum([10]) == Sum([]) + 10;
    MadeIsOver(shop, formulas, 2, 1, 100, 100);
  }

  /** Speeding up leaves the next building the start it was given when it was ordered, so the time it waited counts for
      it: the poll that follows finds it over if and only if its time has passed since the order. */
  lemma SpedStartsFromOrder(shop: Shop, formulas: map<int, Formula>, later: int)
    requires Sound(shop, formulas) && |shop.making| >= 2
    ensures shop.making[1] in shop.slots
    ensures OverBy(Sped(shop, formulas), formulas, shop.making[1], later) <==>
            later - shop.slots[shop.making[1]].startTime >= FormulaOf(shop, formulas, shop.making[1]).time
  {
    var sped := Sped(shop, formulas);
    SoundSped(shop, formulas);
    assert InUse(shop, formulas, 1) && Apart(shop.making, 0, 1) && sped.making[0] == shop.making[1];
    assert Times(sped, formulas)[0] == FormulaOf(shop, formulas, shop.making[1]).time;
    FromPlace(sped.making, 0, DoneBy(sped, formulas, later));
  }
}
