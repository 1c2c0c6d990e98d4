/** Buildings being made one after the other in a player's workshop. */
module MakingQueue {
  import opened SeqEdit

  const DEFAULT_SLOTS := 2
  const MAX_SLOTS := 4

  const ACTION_NOT_ENOUGH := -101003
  const TABLE_DATA_NOT_FOUND := -101200
  const SLOT_ID_INVALID := -101206
  const NOT_MAKING := -101209
  const NO_MAKING_BUILDING := -101211
  const NO_SLOT_TO_MAKING := -101213

  /** A place to make something in; formula 0 means that nothing is made there. */
  datatype Slot = Slot(formulaId: int, startTime: int)

  datatype Formula = Formula(time: int, buildId: int)

  /** A row of the answer to a poll. */
  datatype Reply = Reply(slotId: int, formulaId: int, remainSeconds: int)

  /** The slots, those in use in the order they were taken, and the buildings made and not yet collected. */
  datatype Shop = Shop(slots: map<int, Slot>, making: seq<int>, maked: seq<int>)

  ghost predicate Apart(s: seq<int>, i: nat, j: nat)
    requires i < |s| && j < |s|
  {
    s[i] != s[j]
  }

  ghost predicate NoRepeats(s: seq<int>) {
    forall i: nat, j: nat {:trigger Apart(s, i, j)} :: i < j < |s| ==> Apart(s, i, j)
  }

  ghost predicate InUse(shop: Shop, formulas: map<int, Formula>, i: nat)
    requires i < |shop.making|
  {
    shop.making[i] in shop.slots && shop.slots[shop.making[i]].formulaId in formulas
  }

  ghost predicate Usable(shop: Shop, slot: int)
    requires slot in shop.slots
  {
    1 <= slot <= MAX_SLOTS && (shop.slots[slot].formulaId != 0 ==> slot in shop.making)
  }

  /** The queue names each slot in use once, and no other; every formula in use is in the table. */
  ghost predicate Sound(shop: Shop, formulas: map<int, Formula>) {
    && NoRepeats(shop.making)
    && (forall i: nat {:trigger InUse(shop, formulas, i)} :: i < |shop.making| ==> InUse(shop, formulas, i))
    && (forall slot {:trigger Usable(shop, slot)} :: slot in shop.slots ==> Usable(shop, slot))
  }

  ghost predicate Table(formulas: map<int, Formula>) {
    forall id :: id in formulas ==> id > 0
  }

  function FormulaOf(shop: Shop, formulas: map<int, Formula>, slot: int): Formula {
    if slot in shop.slots && shop.slots[slot].formulaId in formulas then
      formulas[shop.slots[slot].formulaId]
    else
      Formula(0, 0)
  }

  function Times(shop: Shop, formulas: map<int, Formula>): (ts: seq<int>)
    ensures |ts| == |shop.making|
    ensures forall i {:trigger ts[i]} :: 0 <= i < |ts| ==> ts[i] == FormulaOf(shop, formulas, shop.making[i]).time
  {
    seq(|shop.making|, i requires 0 <= i < |shop.making| => FormulaOf(shop, formulas, shop.making[i]).time)
  }

  function Builds(shop: Shop, formulas: map<int, Formula>, k: nat): (bs: seq<int>)
    requires k <= |shop.making|
    ensures |bs| == k
    ensures forall i {:trigger bs[i]} :: 0 <= i < k ==> bs[i] == FormulaOf(shop, formulas, shop.making[i]).buildId
  {
    seq(k, i requires 0 <= i < k => FormulaOf(shop, formulas, shop.making[i]).buildId)
  }

  function Sum(ts: seq<int>): int {
    if ts == [] then 0 else Sum(ts[..|ts| - 1]) + ts[|ts| - 1]
  }

  /** How many of these are over one after the other in the time used. */
  function Done(ts: seq<int>, used: int): (k: nat)
    ensures k <= |ts|
  {
    if ts == [] || used < ts[0] then 0 else 1 + Done(ts[1..], used - ts[0])
  }

  function Start(shop: Shop): int {
    if shop.making != [] && shop.making[0] in shop.slots then shop.slots[shop.making[0]].startTime else 0
  }

  function DoneBy(shop: Shop, formulas: map<int, Formula>, now: int): nat {
    Done(Times(shop, formulas), now - Start(shop))
  }

  function Put(slots: map<int, Slot>, slot: int, s: Slot): map<int, Slot> {
    if slot in slots then slots[slot := s] else slots
  }

  /** The slots after the first k buildings are made: theirs are free, and the next one starts at `start`. */
  function Freed(slots: map<int, Slot>, making: seq<int>, k: nat, start: int): map<int, Slot>
    requires k <= |making|
    decreases k
  {
    if making == [] then slots
    else if k == 0 then
      if making[0] in slots then slots[making[0] := Slot(slots[making[0]].formulaId, start)] else slots
    else Freed(Put(slots, making[0], Slot(0, 0)), making[1..], k - 1, start)
  }

  /** Which slots that changes, and how. */
  lemma {:induction false} FreedAt(slots: map<int, Slot>, making: seq<int>, k: nat, start: int, slot: int)
    requires k <= |making| && NoRepeats(making)
    ensures slot in Freed(slots, making, k, start) <==> slot in slots
    ensures slot in slots ==>
              Freed(slots, making, k, start)[slot] ==
              if slot in making[..k] then Slot(0, 0)
              else if k < |making| && slot == making[k] then Slot(slots[slot].formulaId, start)
              else slots[slot]
    decreases k
  {
    if k > 0 {
      var rest := making[1..];
      forall i: nat, j: nat | i < j < |rest| ensures Apart(rest, i, j) { assert Apart(making, i + 1, j + 1); }
      FreedAt(Put(slots, making[0], Slot(0, 0)), rest, k - 1, start, slot);
      assert making[..k] == [making[0]] + rest[..k - 1];
      forall i: nat | i < |rest| ensures making[0] != rest[i] { assert Apart(making, 0, i + 1); }
    }
  }

  /** The next building started when the last one ended. */
  function SlotsAfter(shop: Shop, formulas: map<int, Formula>, k: nat): map<int, Slot>
    requires k <= |shop.making|
  {
    Freed(shop.slots, shop.making, k, Start(shop) + Sum(Times(shop, formulas)[..k]))
  }

  /** What a poll makes of the workshop. */
  function Polled(shop: Shop, formulas: map<int, Formula>, now: int): Shop {
    var k := DoneBy(shop, formulas, now);
    Shop(SlotsAfter(shop, formulas, k), shop.making[k..], shop.maked + Builds(shop, formulas, k))
  }

  lemma {:induction false} SumFirst(ts: seq<int>)
    requires ts != []
    ensures Sum(ts) == ts[0] + Sum(ts[1..])
  {
    if |ts| > 1 {
      SumFirst(ts[..|ts| - 1]);
      assert ts[..|ts| - 1][1..] == ts[1..][..|ts| - 2];
    }
  }

  /** What is over earlier is over later, and going on from there gives the same. */
  lemma {:induction false} DoneInParts(ts: seq<int>, used: int, later: int)
    requires used <= later
    ensures Done(ts, used) <= Done(ts, later)
    ensures Done(ts, later) == Done(ts, used) + Done(ts[Done(ts, used)..], later - Sum(ts[..Done(ts, used)]))
  {
    var k := Done(ts, used);
    if ts != [] && used >= ts[0] {
      DoneInParts(ts[1..], used - ts[0], later - ts[0]);
      SumFirst(ts[..k]);
      assert ts[..k][1..] == ts[1..][..k - 1] && ts[k..] == ts[1..][k - 1..];
    } else {
      assert ts[..k] == [] && ts[k..] == ts;
    }
  }

  lemma {:induction false} SumInParts(a: seq<int>, b: seq<int>)
    ensures Sum(a + b) == Sum(a) + Sum(b)
  {
    if b == [] {
      assert a + b == a;
    } else {
      SumInParts(a, b[..|b| - 1]);
      assert (a + b)[..|a| + |b| - 1] == a + b[..|b| - 1];
    }
  }

  ghost predicate NoneNegative(ts: seq<int>) {
    forall i {:trigger ts[i]} :: 0 <= i < |ts| ==> ts[i] >= 0
  }

  lemma {:induction false} SumsGrow(ts: seq<int>, i: nat, j: nat)
    requires NoneNegative(ts) && i <= j <= |ts|
    ensures Sum(ts[..i]) <= Sum(ts[..j])
    decreases j
  {
    if i < j {
      SumsGrow(ts, i, j - 1);
      assert ts[..j][..j - 1] == ts[..j - 1];
    }
  }

  /** A building is over exactly when the times up to its own fit in the time used. */
  lemma {:induction false} DoneIffElapsed(ts: seq<int>, used: int, i: nat)
    requires NoneNegative(ts) && i < |ts|
    ensures i < Done(ts, used) <==> Sum(ts[..i + 1]) <= used
  {
    SumFirst(ts[..i + 1]);
    assert ts[..i + 1][1..] == ts[1..][..i];
    if used < ts[0] {
      SumsGrow(ts[1..], 0, i);
    } else if i > 0 {
      DoneIffElapsed(ts[1..], used - ts[0], i - 1);
    }
  }

  /** What waits in the queue is not touched, only the start of the one in front. */
  lemma FormulaStays(shop: Shop, formulas: map<int, Formula>, now: int, i: nat)
    requires Sound(shop, formulas) && DoneBy(shop, formulas, now) + i < |shop.making|
    ensures var k, after := DoneBy(shop, formulas, now), Polled(shop, formulas, now);
      && after.making[i] == shop.making[k + i] && shop.making[k + i] in after.slots && shop.making[k + i] in shop.slots
      && after.slots[shop.making[k + i]].formulaId == shop.slots[shop.making[k + i]].formulaId
      && FormulaOf(after, formulas, after.making[i]) == FormulaOf(shop, formulas, shop.making[k + i])
  {
    var k := DoneBy(shop, formulas, now);
    assert InUse(shop, formulas, k + i);
    FreedAt(shop.slots, shop.making, k, Start(shop) + Sum(Times(shop, formulas)[..k]), shop.making[k + i]);
    forall j: nat | j < k ensures shop.making[j] != shop.making[k + i] { assert Apart(shop.making, j, k + i); }
  }

  /** How the queue stands after its first k buildings are made. */
  ghost predicate Follows(shop: Shop, mid: Shop, formulas: map<int, Formula>, k: nat) {
    && k <= |shop.making| && |mid.making| == |shop.making| - k
    && Times(mid, formulas) == Times(shop, formulas)[k..]
    && (k < |shop.making| ==> Start(mid) == Start(shop) + Sum(Times(shop, formulas)[..k]))
    && (forall i: nat {:trigger mid.making[i]} :: i < |mid.making| ==>
          mid.making[i] == shop.making[k + i] &&
          FormulaOf(mid, formulas, mid.making[i]) == FormulaOf(shop, formulas, shop.making[k + i]))
  }

  lemma PolledFollows(shop: Shop, formulas: map<int, Formula>, now: int)
    requires Sound(shop, formulas)
    ensures Follows(shop, Polled(shop, formulas, now), formulas, DoneBy(shop, formulas, now))
  {
    var k, after := DoneBy(shop, formulas, now), Polled(shop, formulas, now);
    forall i: nat {:trigger after.making[i]} | i < |after.making|
      ensures after.making[i] == shop.making[k + i]
      ensures FormulaOf(after, formulas, after.making[i]) == FormulaOf(shop, formulas, shop.making[k + i])
    {
      FormulaStays(shop, formulas, now, i);
    }
    if k < |shop.making| {
      assert InUse(shop, formulas, k) && after.making[0] == shop.making[k];
      FreedAt(shop.slots, shop.making, k, Start(shop) + Sum(Times(shop, formulas)[..k]), shop.making[k]);
      forall j: nat | j < k ensures shop.making[j] != shop.making[k] { assert Apart(shop.making, j, k); }
    }
  }

  lemma DoneRest(ts: seq<int>, used: int, later: int, rest: seq<int>, restLater: int)
    requires used <= later && rest == ts[Done(ts, used)..]
    requires rest != [] ==> restLater == later - Sum(ts[..Done(ts, used)])
    ensures Done(ts, used) + Done(rest, restLater) == Done(ts, later)
  {
    DoneInParts(ts, used, later);
  }

  lemma DoneTwice(shop: Shop, mid: Shop, formulas: map<int, Formula>, now: int, later: int)
    requires Follows(shop, mid, formulas, DoneBy(shop, formulas, now)) && now <= later
    ensures DoneBy(shop, formulas, now) + DoneBy(mid, formulas, later) == DoneBy(shop, formulas, later)
  {
    DoneRest(Times(shop, formulas), now - Start(shop), later - Start(shop), Times(mid, formulas), later - Start(mid));
  }

  lemma BuildsTwice(shop: Shop, mid: Shop, formulas: map<int, Formula>, k: nat, k2: nat)
    requires Follows(shop, mid, formulas, k) && k + k2 <= |shop.making|
    ensures Builds(shop, formulas, k) + Builds(mid, formulas, k2) == Builds(shop, formulas, k + k2)
  {
    var a, b, c := Builds(shop, formulas, k), Builds(mid, formulas, k2), Builds(shop, formulas, k + k2);
    forall i: nat | i < k + k2 ensures (a + b)[i] == c[i] {
      if i >= k { assert mid.making[i - k] == shop.making[i]; }
    }
  }

  lemma {:induction false} FreedTwice(slots: map<int, Slot>, making: seq<int>, k: nat, k2: nat, start: int,
                                      start2: int, start3: int)
    requires k + k2 <= |making| && (k + k2 < |making| ==> start2 == start3)
    ensures Freed(Freed(slots, making, k, start), making[k..], k2, start2) == Freed(slots, making, k + k2, start3)
    decreases k
  {
    if making == [] {
    } else if k == 0 {
      assert making[0..] == making;
      FreedAgain(slots, making, k2, start, start3);
      if k2 == |making| {
        FreedAll(Freed(slots, making, 0, start), making, start2, start3);
      }
    } else {
      FreedTwice(Put(slots, making[0], Slot(0, 0)), making[1..], k - 1, k2, start, start2, start3);
      assert making[k..] == making[1..][k - 1..];
    }
  }

  lemma {:induction false} FreedAll(slots: map<int, Slot>, making: seq<int>, start: int, start2: int)
    ensures Freed(slots, making, |making|, start) == Freed(slots, making, |making|, start2)
    decreases |making|
  {
    if making != [] {
      FreedAll(Put(slots, making[0], Slot(0, 0)), making[1..], start, start2);
    }
  }

  lemma FreedAgain(slots: map<int, Slot>, making: seq<int>, k: nat, start: int, start2: int)
    requires making != [] && k <= |making|
    ensures Freed(Freed(slots, making, 0, start), making, k, start2) == Freed(slots, making, k, start2)
  {
    var once := Freed(slots, making, 0, start);
    assert Put(once, making[0], Slot(0, 0)) == Put(slots, making[0], Slot(0, 0));
  }

  /** When the next building starts does not depend on how often the queue was polled. */
  lemma StartsTwice(shop: Shop, mid: Shop, formulas: map<int, Formula>, k: nat, k2: nat)
    requires Follows(shop, mid, formulas, k) && k + k2 < |shop.making|
    ensures Start(mid) + Sum(Times(mid, formulas)[..k2]) == Start(shop) + Sum(Times(shop, formulas)[..k + k2])
  {
    var ts := Times(shop, formulas);
    SumInParts(ts[..k], ts[k..][..k2]);
    assert ts[..k] + ts[k..][..k2] == ts[..k + k2];
  }

  lemma SlotsTwice(shop: Shop, mid: Shop, formulas: map<int, Formula>, k: nat, k2: nat)
    requires k + k2 <= |shop.making| && mid.making == shop.making[k..] && mid.slots == SlotsAfter(shop, formulas, k)
    requires k + k2 < |shop.making| ==>
             Start(mid) + Sum(Times(mid, formulas)[..k2]) == Start(shop) + Sum(Times(shop, formulas)[..k + k2])
    ensures SlotsAfter(mid, formulas, k2) == SlotsAfter(shop, formulas, k + k2)
  {
    FreedTwice(shop.slots, shop.making, k, k2, Start(shop) + Sum(Times(shop, formulas)[..k]),
               Start(mid) + Sum(Times(mid, formulas)[..k2]), Start(shop) + Sum(Times(shop, formulas)[..k + k2]));
  }

  /** Polling twice is polling once, at the later time. */
  lemma PollsDoNotMatter(shop: Shop, formulas: map<int, Formula>, now: int, later: int)
    requires Sound(shop, formulas) && now <= later
    ensures Polled(Polled(shop, formulas, now), formulas, later) == Polled(shop, formulas, later)
  {
    var k, mid := DoneBy(shop, formulas, now), Polled(shop, formulas, now);
    var k2 := DoneBy(mid, formulas, later);
    PolledFollows(shop, formulas, now);
    DoneTwice(shop, mid, formulas, now, later);
    BuildsTwice(shop, mid, formulas, k, k2);
    if k + k2 < |shop.making| {
      StartsTwice(shop, mid, formulas, k, k2);
    }
    SlotsTwice(shop, mid, formulas, k, k2);
    Assoc(shop.maked, Builds(shop, formulas, k), Builds(mid, formulas, k2));
    assert shop.making[k..][k2..] == shop.making[k + k2..];
  }
}
