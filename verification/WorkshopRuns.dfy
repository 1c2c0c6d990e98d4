/** What a workshop owes its player, over whole runs of orders, polls, speed-ups, cancellations and collections. */
module WorkshopRuns {
  import opened SeqEdit
  import opened MakingQueue
  import opened Workshop

  /** All buildings a workshop owes its player: made and not collected, or in the queue. */
  ghost function Owed(shop: Shop, formulas: map<int, Formula>): multiset<int> {
    multiset(shop.maked) + multiset(Builds(shop, formulas, |shop.making|))
  }

  /** Polling moves buildings from the queue to those made, and loses none. */
  lemma PollingKeepsOwed(shop: Shop, formulas: map<int, Formula>, now: int)
    requires Sound(shop, formulas)
    ensures Owed(Polled(shop, formulas, now), formulas) == Owed(shop, formulas)
  {
    var k, mid := DoneBy(shop, formulas, now), Polled(shop, formulas, now);
    PolledFollows(shop, formulas, now);
    BuildsTwice(shop, mid, formulas, k, |mid.making|);
    assert k + |mid.making| == |shop.making|;
  }

  lemma OpeningKeepsOwed(shop: Shop, formulas: map<int, Formula>)
    requires Sound(shop, formulas)
    ensures Owed(Opened(shop), formulas) == Owed(shop, formulas)
  {
    OpensTwoSlots(shop, formulas, 1);
    assert shop.making != [] ==> InUse(shop, formulas, 0);
    assert shop.slots == map[] ==> Builds(Opened(shop), formulas, 0) == Builds(shop, formulas, 0);
  }

  lemma BuyingKeepsOwed(shop: Shop, formulas: map<int, Formula>, slot: int)
    requires Sound(shop, formulas) && slot !in shop.slots
    ensures Owed(Bought(shop, slot), formulas) == Owed(shop, formulas)
  {
    var after := Bought(shop, slot);
    var a, b := Builds(shop, formulas, |shop.making|), Builds(after, formulas, |shop.making|);
    forall i: nat | i < |shop.making| ensures a[i] == b[i] { assert InUse(shop, formulas, i); }
    assert a == b;
  }

  /** An order adds its building, whatever else is going on. */
  lemma OrderAddsOne(shop: Shop, formulas: map<int, Formula>, slot: int, formulaId: int, now: int)
    requires Sound(shop, formulas) && Table(formulas) && formulaId in formulas
    requires slot in shop.slots && shop.slots[slot].formulaId == 0
    ensures Owed(Made(shop, slot, formulaId, now), formulas) ==
            Owed(shop, formulas) + multiset{formulas[formulaId].buildId}
    ensures Made(shop, slot, formulaId, now).slots[slot] == Slot(formulaId, now)
  {
    var after, n := Made(shop, slot, formulaId, now), |shop.making|;
    var a, b := Builds(shop, formulas, n), Builds(after, formulas, n + 1);
    SoundMade(shop, formulas, slot, formulaId, now);
    forall i: nat | i < n ensures b[i] == a[i] { assert InUse(shop, formulas, i) && after.making[i] != slot; }
    assert b == a + [formulas[formulaId].buildId];
  }

  /** Whichever building of the queue is dropped, each other one keeps its slot, its formula and its place in line. */
  lemma OtherStays(shop: Shop, formulas: map<int, Formula>, n: nat, u: nat)
    requires Sound(shop, formulas) && n < |shop.making| && u < |shop.making| && u != n
    ensures var after, slot := Cancelled(shop, n), shop.making[u];
      && |after.making| == |shop.making| - 1 && after.making[if u < n then u else u - 1] == slot
      && slot in after.slots && slot in shop.slots && after.slots[slot] == shop.slots[slot]
      && FormulaOf(after, formulas, slot) == FormulaOf(shop, formulas, slot)
  {
    assert InUse(shop, formulas, u);
    if u < n {
      assert Apart(shop.making, u, n);
    } else {
      assert Apart(shop.making, n, u);
    }
  }

  lemma QueueOfCancelled(shop: Shop, formulas: map<int, Formula>, n: nat)
    requires Sound(shop, formulas) && n < |shop.making|
    ensures Builds(Cancelled(shop, n), formulas, |shop.making| - 1) ==
            RemoveAt(Builds(shop, formulas, |shop.making|), n)
    ensures Times(Cancelled(shop, n), formulas) == RemoveAt(Times(shop, formulas), n)
    ensures n > 0 ==> Start(Cancelled(shop, n)) == Start(shop)
  {
    var after := Cancelled(shop, n);
    forall i: nat | i < |after.making|
      ensures FormulaOf(after, formulas, after.making[i]) ==
              FormulaOf(shop, formulas, shop.making[if i < n then i else i + 1])
    {
      OtherStays(shop, formulas, n, if i < n then i else i + 1);
    }
    if n > 0 {
      OtherStays(shop, formulas, n, 0);
    }
  }

  /** A cancelled order takes exactly its building with it. */
  lemma CancelTakesOne(shop: Shop, formulas: map<int, Formula>, n: nat)
    requires Sound(shop, formulas) && n < |shop.making|
    ensures Owed(shop, formulas) ==
            Owed(Cancelled(shop, n), formulas) + multiset{FormulaOf(shop, formulas, shop.making[n]).buildId}
  {
    QueueOfCancelled(shop, formulas, n);
    RemovalTakesOne(Builds(shop, formulas, |shop.making|), n);
  }

  /** Ending the building in front makes it, as a poll would have done. */
  lemma SpeedingKeepsOwed(shop: Shop, formulas: map<int, Formula>)
    requires Sound(shop, formulas) && shop.making != []
    ensures Owed(Sped(shop, formulas), formulas) == Owed(shop, formulas)
    ensures Sped(shop, formulas).maked == shop.maked + [FormulaOf(shop, formulas, shop.making[0]).buildId]
  {
    var a, b := Cancelled(shop, 0), Sped(shop, formulas);
    CancelTakesOne(shop, formulas, 0);
    SoundCancelled(shop, formulas, 0);
    assert a.making == b.making && a.slots == b.slots;
    assert Builds(a, formulas, |a.making|) == Builds(b, formulas, |b.making|);
  }

  /** A poll at the moment the building in front is over makes everything a speed-up makes, in the same order. */
  lemma SpedIsMadeByThen(shop: Shop, formulas: map<int, Formula>)
    requires Sound(shop, formulas) && shop.making != []
    ensures var end := Start(shop) + FormulaOf(shop, formulas, shop.making[0]).time;
      Sped(shop, formulas).maked <= Polled(shop, formulas, end).maked
  {
    var end := Start(shop) + FormulaOf(shop, formulas, shop.making[0]).time;
    var ts := Times(shop, formulas);
    assert ts[0] == end - Start(shop) && DoneBy(shop, formulas, end) >= 1;
    assert Builds(shop, formulas, DoneBy(shop, formulas, end))[..1] == Builds(shop, formulas, 1);
    assert Builds(shop, formulas, 1) == [FormulaOf(shop, formulas, shop.making[0]).buildId];
  }

  /** One call of a player's: what it is and the clock it reads, first for settling and last for the answer. */
  datatype Deed =
    | Poll(now: int)
    | Order(slot: int, formulaId: int, now: int, later: int)
    | SpeedUp(now: int, later: int)
    | Cancel(place: int, now: int, later: int)
    | Buy(slot: int, later: int)
    | Collect(later: int)

  /** A workshop and the buildings ordered, handed over and cancelled so far. */
  datatype Books = Books(shop: Shop, ordered: multiset<int>, taken: multiset<int>, dropped: multiset<int>)

  /** What a call makes of the workshop, as the operations do it, refusals included. */
  ghost function AfterDeed(b: Books, formulas: map<int, Formula>, d: Deed): Books {
    var shop := b.shop;
    match d
    case Poll(now) => b.(shop := Polled(Opened(shop), formulas, now))
    case Order(slot, formulaId, now, later) =>
      if slot in shop.slots && shop.slots[slot].formulaId == 0 && formulaId in formulas then
        b.(shop := Polled(Made(shop, slot, formulaId, now), formulas, later),
           ordered := b.ordered + multiset{formulas[formulaId].buildId})
      else b
    case SpeedUp(now, later) =>
      var polled := Polled(Opened(shop), formulas, now);
      b.(shop := if polled.making == [] then polled else Polled(Sped(polled, formulas), formulas, later))
    case Cancel(n, now, later) =>
      var polled := Polled(Opened(shop), formulas, now);
      if 1 <= n < |polled.making| then
        b.(shop := Polled(Cancelled(polled, n), formulas, later),
           dropped := b.dropped + multiset{FormulaOf(polled, formulas, polled.making[n]).buildId})
      else b.(shop := polled)
    case Buy(slot, later) =>
      if shop.slots != map[] && slot !in shop.slots && DEFAULT_SLOTS < slot <= MAX_SLOTS then
        b.(shop := Polled(Bought(shop, slot), formulas, later))
      else b
    case Collect(later) =>
      if shop.slots != map[] && shop.maked != [] then
        b.(shop := Polled(Shop(shop.slots, shop.making, []), formulas, later),
           taken := b.taken + multiset(shop.maked))
      else b
  }

  ghost function Run(formulas: map<int, Formula>, deeds: seq<Deed>): Books {
    if deeds == [] then Books(Shop(map[], [], []), multiset{}, multiset{}, multiset{})
    else AfterDeed(Run(formulas, deeds[..|deeds| - 1]), formulas, deeds[|deeds| - 1])
  }

  /** Of a building, as many were ordered as are owed, were handed over or were cancelled. */
  ghost predicate Accounted(b: Books, formulas: map<int, Formula>, building: int) {
    b.ordered[building] == Owed(b.shop, formulas)[building] + b.taken[building] + b.dropped[building]
  }

  ghost predicate Balanced(b: Books, formulas: map<int, Formula>) {
    Sound(b.shop, formulas) &&
    forall building {:trigger Accounted(b, formulas, building)} :: Accounted(b, formulas, building)
  }

  lemma SettledIsOwed(shop: Shop, formulas: map<int, Formula>, now: int)
    requires Sound(shop, formulas)
    ensures var polled := Polled(Opened(shop), formulas, now);
      Sound(polled, formulas) && Owed(polled, formulas) == Owed(shop, formulas)
  {
    SoundOpened(shop, formulas);
    OpeningKeepsOwed(shop, formulas);
    SoundPolled(Opened(shop), formulas, now);
    PollingKeepsOwed(Opened(shop), formulas, now);
  }

  lemma CollectingTakes(shop: Shop, formulas: map<int, Formula>)
    requires Sound(shop, formulas)
    ensures var after := Shop(shop.slots, shop.making, []);
      Sound(after, formulas) && Owed(shop, formulas) == Owed(after, formulas) + multiset(shop.maked)
  {
    var after := Shop(shop.slots, shop.making, []);
    SoundCollected(shop, formulas);
    assert Builds(after, formulas, |after.making|) == Builds(shop, formulas, |shop.making|);
  }

  lemma SpeedUpIsOwed(polled: Shop, formulas: map<int, Formula>, later: int)
    requires Sound(polled, formulas) && polled.making != []
    ensures var after := Polled(Sped(polled, formulas), formulas, later);
      Sound(after, formulas) && Owed(after, formulas) == Owed(polled, formulas)
  {
    SoundSped(polled, formulas);
    SpeedingKeepsOwed(polled, formulas);
    SoundPolled(Sped(polled, formulas), formulas, later);
    PollingKeepsOwed(Sped(polled, formulas), formulas, later);
  }

  lemma CancelIsOwed(polled: Shop, formulas: map<int, Formula>, n: nat, later: int)
    requires Sound(polled, formulas) && n < |polled.making|
    ensures var after := Polled(Cancelled(polled, n), formulas, later);
      && Sound(after, formulas)
      && Owed(polled, formulas) ==
         Owed(after, formulas) + multiset{FormulaOf(polled, formulas, polled.making[n]).buildId}
  {
    SoundCancelled(polled, formulas, n);
    CancelTakesOne(polled, formulas, n);
    SoundPolled(Cancelled(polled, n), formulas, later);
    PollingKeepsOwed(Cancelled(polled, n), formulas, later);
  }

  lemma OrderIsOwed(shop: Shop, formulas: map<int, Formula>, slot: int, formulaId: int, now: int, later: int)
    requires Sound(shop, formulas) && Table(formulas) && formulaId in formulas
    requires slot in shop.slots && shop.slots[slot].formulaId == 0
    ensures var after := Polled(Made(shop, slot, formulaId, now), formulas, later);
      Sound(after, formulas) && Owed(after, formulas) == Owed(shop, formulas) + multiset{formulas[formulaId].buildId}
  {
    SoundMade(shop, formulas, slot, formulaId, now);
    OrderAddsOne(shop, formulas, slot, formulaId, now);
    SoundPolled(Made(shop, slot, formulaId, now), formulas, later);
    PollingKeepsOwed(Made(shop, slot, formulaId, now), formulas, later);
  }

  /** What a call orders, hands over and cancels makes up for what it changes in the workshop. */
  lemma StaysBalanced(b: Books, after: Books, formulas: map<int, Formula>, ordered: multiset<int>,
                      taken: multiset<int>, dropped: multiset<int>)
    requires Balanced(b, formulas) && Sound(after.shop, formulas)
    requires Owed(b.shop, formulas) + ordered == Owed(after.shop, formulas) + (taken + dropped)
    requires after.ordered == b.ordered + ordered && after.taken == b.taken + taken
    requires after.dropped == b.dropped + dropped
    ensures Balanced(after, formulas)
  {
    forall building ensures Accounted(after, formulas, building) {
      assert Accounted(b, formulas, building);
      assert (Owed(b.shop, formulas) + ordered)[building] ==
             (Owed(after.shop, formulas) + (taken + dropped))[building];
    }
  }

  lemma CancelBalances(b: Books, formulas: map<int, Formula>, n: int, now: int, later: int)
    requires Balanced(b, formulas)
    ensures Balanced(AfterDeed(b, formulas, Cancel(n, now, later)), formulas)
  {
    var after, polled := AfterDeed(b, formulas, Cancel(n, now, later)), Polled(Opened(b.shop), formulas, now);
    SettledIsOwed(b.shop, formulas, now);
    var dropped := multiset{};
    if 1 <= n < |polled.making| {
      CancelIsOwed(polled, formulas, n, later);
      dropped := multiset{FormulaOf(polled, formulas, polled.making[n]).buildId};
    }
    StaysBalanced(b, after, formulas, multiset{}, multiset{}, dropped);
  }

  lemma CollectBalances(b: Books, formulas: map<int, Formula>, later: int)
    requires Balanced(b, formulas)
    ensures Balanced(AfterDeed(b, formulas, Collect(later)), formulas)
  {
    var after := Shop(b.shop.slots, b.shop.making, []);
    CollectingTakes(b.shop, formulas);
    SoundPolled(after, formulas, later);
    PollingKeepsOwed(after, formulas, later);
    if b.shop.slots != map[] && b.shop.maked != [] {
      StaysBalanced(b, AfterDeed(b, formulas, Collect(later)), formulas, multiset{}, multiset(b.shop.maked),
                    multiset{});
    }
  }

  lemma OrderBalances(b: Books, formulas: map<int, Formula>, slot: int, formulaId: int, now: int, later: int)
    requires Balanced(b, formulas) && Table(formulas)
    ensures Balanced(AfterDeed(b, formulas, Order(slot, formulaId, now, later)), formulas)
  {
    if slot in b.shop.slots && b.shop.slots[slot].formulaId == 0 && formulaId in formulas {
      OrderIsOwed(b.shop, formulas, slot, formulaId, now, later);
      StaysBalanced(b, AfterDeed(b, formulas, Order(slot, formulaId, now, later)), formulas,
                    multiset{formulas[formulaId].buildId}, multiset{}, multiset{});
    }
  }

  lemma PollBalances(b: Books, formulas: map<int, Formula>, now: int)
    requires Balanced(b, formulas)
    ensures Balanced(AfterDeed(b, formulas, Poll(now)), formulas)
  {
    SettledIsOwed(b.shop, formulas, now);
    StaysBalanced(b, AfterDeed(b, formulas, Poll(now)), formulas, multiset{}, multiset{}, multiset{});
  }

  lemma SpeedUpBalances(b: Books, formulas: map<int, Formula>, now: int, later: int)
    requires Balanced(b, formulas)
    ensures Balanced(AfterDeed(b, formulas, SpeedUp(now, later)), formulas)
  {
    var polled := Polled(Opened(b.shop), formulas, now);
    SettledIsOwed(b.shop, formulas, now);
    if polled.making != [] {
      SpeedUpIsOwed(polled, formulas, later);
    }
    StaysBalanced(b, AfterDeed(b, formulas, SpeedUp(now, later)), formulas, multiset{}, multiset{}, multiset{});
  }

  lemma BuyBalances(b: Books, formulas: map<int, Formula>, slot: int, later: int)
    requires Balanced(b, formulas)
    ensures Balanced(AfterDeed(b, formulas, Buy(slot, later)), formulas)
  {
    var shop := b.shop;
    if shop.slots != map[] && slot !in shop.slots && DEFAULT_SLOTS < slot <= MAX_SLOTS {
      SoundBought(shop, formulas, slot);
      BuyingKeepsOwed(shop, formulas, slot);
      SoundPolled(Bought(shop, slot), formulas, later);
      PollingKeepsOwed(Bought(shop, slot), formulas, later);
      StaysBalanced(b, AfterDeed(b, formulas, Buy(slot, later)), formulas, multiset{}, multiset{}, multiset{});
    }
  }

  lemma DeedBalances(b: Books, formulas: map<int, Formula>, d: Deed)
    requires Balanced(b, formulas) && Table(formulas)
    ensures Balanced(AfterDeed(b, formulas, d), formulas)
  {
    match d
    case Poll(now) => PollBalances(b, formulas, now);
    case Order(slot, formulaId, now, later) => OrderBalances(b, formulas, slot, formulaId, now, later);
    case SpeedUp(now, later) => SpeedUpBalances(b, formulas, now, later);
    case Cancel(n, now, later) => CancelBalances(b, formulas, n, now, later);
    case Buy(slot, later) => BuyBalances(b, formulas, slot, later);
    case Collect(later) => CollectBalances(b, formulas, later);
  }

  /** Over any run of calls no building is lost, doubled or made up. */
  lemma {:induction false} BooksBalance(formulas: map<int, Formula>, deeds: seq<Deed>)
    requires Table(formulas)
    ensures Balanced(Run(formulas, deeds), formulas)
  {
    if deeds == [] {
      var shop := Shop(map[], [], []);
      assert Builds(shop, formulas, 0) == [];
    } else {
      BooksBalance(formulas, deeds[..|deeds| - 1]);
      DeedBalances(Run(formulas, deeds[..|deeds| - 1]), formulas, deeds[|deeds| - 1]);
    }
  }

  // What the answers and times mean.

  /** A building is over once the times before and its own have passed since the start of the queue. */
  lemma OverIff(shop: Shop, formulas: map<int, Formula>, i: nat, t: int)
    requires Sound(shop, formulas) && NoneNegative(Times(shop, formulas)) && i < |shop.making|
    ensures OverBy(shop, formulas, shop.making[i], t) <==> Sum(Times(shop, formulas)[..i + 1]) <= t - Start(shop)
  {
    DoneIffElapsed(Times(shop, formulas), t - Start(shop), i);
    FromPlace(shop.making, i, DoneBy(shop, formulas, t));
  }

  /** A row of a settled queue tells how long its building still takes if and only if it is in front, or the buildings
      before it take 59 times as long as it does itself: the seconds of the others are shown times sixty. */
  lemma RowTells(shop: Shop, formulas: map<int, Formula>, i: nat, now: int, d: int)
    requires Sound(shop, formulas) && NoneNegative(Times(shop, formulas)) && i < |shop.making|
    ensures var left := Sum(Times(shop, formulas)[..i + 1]) - (now - Start(shop));
      && (OverBy(shop, formulas, shop.making[i], now + d) <==> d >= left)
      && shop.making[i] in shop.slots && Waiting(shop, formulas, i, now).slotId == shop.making[i]
      && Waiting(shop, formulas, i, now).formulaId == shop.slots[shop.making[i]].formulaId
      && (Waiting(shop, formulas, i, now).remainSeconds == left <==>
          i == 0 || 59 * Times(shop, formulas)[i] == left - Times(shop, formulas)[i])
  {
    var ts := Times(shop, formulas);
    OverIff(shop, formulas, i, now + d);
    assert InUse(shop, formulas, i);
    if i == 0 {
      assert ts[..1] == [ts[0]] && ts[..1][..0] == [] && Sum(ts[..1]) == Sum([]) + ts[0];
    }
  }

  lemma SumWithout(ts: seq<int>, n: nat, u: nat)
    requires n < |ts| && u < |ts| && u != n
    ensures u < n ==> Sum(RemoveAt(ts, n)[..u + 1]) == Sum(ts[..u + 1])
    ensures u > n ==> Sum(RemoveAt(ts, n)[..u]) == Sum(ts[..u + 1]) - ts[n]
  {
    if u < n {
      assert RemoveAt(ts, n)[..u + 1] == ts[..u + 1];
    } else {
      var front, mid := ts[..n], ts[n + 1..u + 1];
      assert RemoveAt(ts, n)[..u] == front + mid && ts[..u + 1] == front + ([ts[n]] + mid);
      SumInParts(front, mid);
      SumInParts(front, [ts[n]] + mid);
      SumInParts([ts[n]], mid);
      assert [ts[n]][..0] == [] && Sum([ts[n]]) == Sum([]) + ts[n];
    }
  }

  lemma TimesWithout(shop: Shop, formulas: map<int, Formula>, n: nat)
    requires Sound(shop, formulas) && NoneNegative(Times(shop, formulas)) && 0 < n < |shop.making|
    ensures Times(Cancelled(shop, n), formulas) == RemoveAt(Times(shop, formulas), n)
    ensures NoneNegative(Times(Cancelled(shop, n), formulas)) && Start(Cancelled(shop, n)) == Start(shop)
  {
    QueueOfCancelled(shop, formulas, n);
  }

  lemma OverWithout(shop: Shop, formulas: map<int, Formula>, n: nat, u: nat, t: int)
    requires Sound(shop, formulas) && NoneNegative(Times(shop, formulas))
    requires 0 < n < |shop.making| && u < |shop.making| && u != n
    ensures OverBy(Cancelled(shop, n), formulas, shop.making[u], t) <==>
            Sum(RemoveAt(Times(shop, formulas), n)[..if u < n then u + 1 else u]) <= t - Start(shop)
  {
    var w := if u < n then u else u - 1;
    TimesWithout(shop, formulas, n);
    assert w < |Cancelled(shop, n).making| && Cancelled(shop, n).making[w] == shop.making[u] by {
      OtherStays(shop, formulas, n, u);
    }
    SoundCancelled(shop, formulas, n);
    OverIff(Cancelled(shop, n), formulas, w, t);
  }

  /** Cancelling lets those behind be over earlier by the time of the building dropped, and no one else. */
  lemma CancelMovesUp(shop: Shop, formulas: map<int, Formula>, n: nat, u: nat, t: int)
    requires Sound(shop, formulas) && NoneNegative(Times(shop, formulas))
    requires 0 < n < |shop.making| && u < |shop.making| && u != n
    ensures OverBy(Cancelled(shop, n), formulas, shop.making[u], t) <==>
            OverBy(shop, formulas, shop.making[u], if u < n then t else t + Times(shop, formulas)[n])
  {
    SumWithout(Times(shop, formulas), n, u);
    OverWithout(shop, formulas, n, u, t);
    OverIff(shop, formulas, u, if u < n then t else t + Times(shop, formulas)[n]);
  }

  /** A building ordered behind another that is then ended at once is over when its own time has passed since the order,
      although it could not be started before. */
  lemma OrderedThenSped(shop: Shop, formulas: map<int, Formula>, slot: int, formulaId: int, now: int, t: int)
    requires Sound(shop, formulas) && Table(formulas) && formulaId in formulas && |shop.making| == 1
    requires slot in shop.slots && shop.slots[slot].formulaId == 0
    ensures OverBy(Sped(Made(shop, slot, formulaId, now), formulas), formulas, slot, t) <==>
            t >= now + formulas[formulaId].time
  {
    var made := Made(shop, slot, formulaId, now);
    SoundMade(shop, formulas, slot, formulaId, now);
    assert made.making[1] == slot && made.slots[slot] == Slot(formulaId, now);
    SpedStartsFromOrder(made, formulas, t);
  }
}
