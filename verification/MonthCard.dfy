/** Month cards: a mail for each day, settled whenever the award is asked for. */
module MonthCard {

  const DAY := 86400
  const MONTH_CARD_DAYS_NUM := 30

  /** The time of day mails are sent, and the zone's distance from UTC. A day has 86400 seconds. */
  datatype DayTime = DayTime(second: int, zone: int)

  ghost predicate InADay(d: DayTime) {
    0 <= d.second < DAY
  }

  /** The time of day set in the configuration, on the local date of a moment. */
  function TodayConfigTime(d: DayTime, t: int): int {
    (t + d.zone) / DAY * DAY - d.zone + d.second
  }

  /** How many sending times there were up to a moment, counted from a fixed one. */
  function Points(d: DayTime, t: int): int {
    (t + d.zone - d.second) / DAY
  }

  /** The local clock shows the sending time. */
  predicate IsSending(d: DayTime, t: int) {
    (t + d.zone) % DAY == d.second
  }

  /** The sending times from `low`, left out, to `high`. */
  ghost function Sendings(d: DayTime, low: int, high: int): set<int> {
    set t | low < t <= high && IsSending(d, t)
  }

  lemma ConfigTimeIsToday(d: DayTime, t: int)
    requires InADay(d)
    ensures (TodayConfigTime(d, t) + d.zone) / DAY == (t + d.zone) / DAY
    ensures IsSending(d, TodayConfigTime(d, t))
  {
  }

  lemma PointsStep(d: DayTime, t: int)
    requires InADay(d)
    ensures Points(d, t) - Points(d, t - 1) == if IsSending(d, t) then 1 else 0
  {
    var n := t + d.zone - d.second;
    assert n == n / DAY * DAY + n % DAY && t + d.zone == n / DAY * DAY + (n % DAY + d.second);
  }

  lemma SendingsStep(d: DayTime, low: int, high: int)
    requires low < high
    ensures |Sendings(d, low, high)| == |Sendings(d, low, high - 1)| + if IsSending(d, high) then 1 else 0
  {
    if IsSending(d, high) {
      assert Sendings(d, low, high) == Sendings(d, low, high - 1) + {high};
    } else {
      assert Sendings(d, low, high) == Sendings(d, low, high - 1);
    }
  }

  lemma {:induction false} PointsCountSendings(d: DayTime, low: int, high: int)
    requires InADay(d) && low <= high
    ensures Points(d, high) - Points(d, low) == |Sendings(d, low, high)|
    decreases high - low
  {
    if low == high {
      assert Sendings(d, low, high) == {};
    } else {
      PointsCountSendings(d, low, high - 1);
      PointsStep(d, high);
      SendingsStep(d, low, high);
    }
  }

  /** How many sending times passed since the last award, and one for a card never awarded; -1 when that cannot be
      told. */
  method GetDaysNumToLastSaveTime(lastSave: int, d: DayTime, readable: bool, now: int) returns (num: int)
    requires InADay(d)
    ensures num == DaysNum(lastSave, d, readable, now)
    ensures readable && 0 < lastSave <= now ==> num == |Sendings(d, lastSave, now)|
    ensures readable && lastSave == 0 ==> num == 1
    ensures !readable || lastSave < 0 || (lastSave > now && lastSave != 0) ==> num == -1
  {
    if lastSave <= now { PointsCountSendings(d, lastSave, now); }
    num := 0;
    var last := lastSave;
    if last < 0 {
      return -1;
    } else if last == 0 {
      num := 1;
      last := now;
    }
    if last > now {
      return -1;
    }
    if !readable {
      return -1;
    }
    var config := TodayConfigTime(d, last);
    ConfigTimeIsPoint(d, last, now);
    if last < config {
      if now < config {
      } else {
        num := num + ((now - config) / DAY + 1);
      }
    } else {
      num := num + (now - config) / DAY;
    }
  }

  function DaysNum(lastSave: int, d: DayTime, readable: bool, now: int): int {
    if lastSave < 0 || !readable then -1
    else if lastSave == 0 then 1
    else if lastSave > now then -1
    else Points(d, now) - Points(d, lastSave)
  }

  /** The case split on the date's sending time counts the sending times in between. */
  lemma ConfigTimeIsPoint(d: DayTime, last: int, now: int)
    requires InADay(d) && last <= now
    ensures var config := TodayConfigTime(d, last);
      Points(d, now) - Points(d, last) ==
      if last < config then if now < config then 0 else (now - config) / DAY + 1 else (now - config) / DAY
  {
    var q, r := (last + d.zone) / DAY, (last + d.zone) % DAY;
    var config := TodayConfigTime(d, last);
    var e := now - config;
    assert last + d.zone - d.second == q * DAY + (r - d.second);
    assert now + d.zone - d.second == q * DAY + e;
    assert (q * DAY + e) / DAY == q + e / DAY;
    if last < config {
      assert r < d.second && (q * DAY + (r - d.second)) / DAY == q - 1;
      assert now < config ==> e / DAY == -1;
    } else {
      assert (q * DAY + (r - d.second)) / DAY == q;
    }
  }

  datatype Card = Card(sendMailNum: int, lastAwardTime: int)

  /** What one settlement makes of a card. */
  function Awarded(c: Card, d: DayTime, readable: bool, now: int): Card {
    var num := DaysNum(c.lastAwardTime, d, readable, now);
    if c.sendMailNum >= MONTH_CARD_DAYS_NUM || num <= 0 then c
    else Card(if c.sendMailNum + num < MONTH_CARD_DAYS_NUM then c.sendMailNum + num else MONTH_CARD_DAYS_NUM, now)
  }

  /** The mails settling these cards in turn comes to; a card named again gets no more. */
  function Mailed(pays: map<int, Card>, ids: seq<int>, d: DayTime, readable: bool, now: int): int {
    if ids == [] then 0 else
      var n := |ids| - 1;
      var id := ids[n];
      Mailed(pays, ids[..n], d, readable, now) +
        if id in pays && id !in ids[..n] then Awarded(pays[id], d, readable, now).sendMailNum - pays[id].sendMailNum
        else 0
  }

  class Player {
    var pays: map<int, Card>
    var mails: nat  // reward mails sent
    const dayTime: DayTime
    const readable: bool

    ghost predicate Open(ids: seq<int>)
      reads this
    {
      exists i :: 0 <= i < |ids| && ids[i] in pays && pays[ids[i]].sendMailNum < MONTH_CARD_DAYS_NUM
    }

    method ChargeHasMonthCard(ids: seq<int>) returns (has: bool)
      ensures has <==> exists i :: 0 <= i < |ids| && ids[i] in pays && pays[ids[i]].sendMailNum < 30
    {
      var i := 0;
      while i < |ids|
        invariant 0 <= i <= |ids|
        invariant forall j :: 0 <= j < i ==> !(ids[j] in pays && pays[ids[j]].sendMailNum < MONTH_CARD_DAYS_NUM)
      {
        if ids[i] in pays && pays[ids[i]].sendMailNum < MONTH_CARD_DAYS_NUM {
          return true;
        }
        i := i + 1;
      }
      has := false;
    }

    method SendAward(id: int) returns (sendNum: int)
      requires id in pays
      modifies this
      ensures pays == old(pays)[id := old(pays)[id].(sendMailNum := old(pays)[id].sendMailNum + 1)]
      ensures sendNum == old(pays)[id].sendMailNum + 1 && mails == old(mails) + 1
    {
      mails := mails + 1;
      pays := pays[id := pays[id].(sendMailNum := pays[id].sendMailNum + 1)];
      sendNum := pays[id].sendMailNum;
    }

    method AwardCard(id: int, now: int)
      requires id in pays && InADay(dayTime)
      modifies this
      ensures pays == old(pays)[id := Awarded(old(pays)[id], dayTime, readable, now)]
      ensures mails - old(mails) == pays[id].sendMailNum - old(pays)[id].sendMailNum
    {
      var sendNum := pays[id].sendMailNum;
      if sendNum >= MONTH_CARD_DAYS_NUM {
        return;
      }
      var num := GetDaysNumToLastSaveTime(pays[id].lastAwardTime, dayTime, readable, now);
      var i := 0;
      while i < num
        invariant 0 <= i && (i == 0 || i <= num) && sendNum == old(pays)[id].sendMailNum + i <= MONTH_CARD_DAYS_NUM
        invariant i < num ==> sendNum < MONTH_CARD_DAYS_NUM
        invariant id in pays && pays == old(pays)[id := old(pays)[id].(sendMailNum := sendNum)]
        invariant mails == old(mails) + i
      {
        sendNum := SendAward(id);
        i := i + 1;
        if sendNum >= MONTH_CARD_DAYS_NUM {
          break;
        }
      }
      assert pays[id] == Card(sendNum, old(pays)[id].lastAwardTime) && old(pays) == old(pays)[id := old(pays)[id]];
      if num > 0 {
        pays := pays[id := pays[id].(lastAwardTime := now)];
      }
    }

    /** Settles the month cards there are; nothing is done when none of them is running. */
    method ChargeMonthCardAward(ids: seq<int>, now: int) returns (ok: bool)
      requires InADay(dayTime) && now > 0
      modifies this
      ensures ok == old(Open(ids)) && pays.Keys == old(pays).Keys
      ensures !ok ==> pays == old(pays) && mails == old(mails)
      ensures ok ==> mails - old(mails) == Mailed(old(pays), ids, dayTime, readable, now)
      ensures ok ==> forall id :: id in pays ==>
                pays[id] == if id in ids then Awarded(old(pays)[id], dayTime, readable, now) else old(pays)[id]
    {
      ok := ChargeHasMonthCard(ids);
      if !ok {
        return;
      }
      var i := 0;
      while i < |ids|
        invariant 0 <= i <= |ids| && pays.Keys == old(pays).Keys
        invariant mails - old(mails) == Mailed(old(pays), ids[..i], dayTime, readable, now)
        invariant forall id :: id in pays ==>
                    pays[id] == if id in ids[..i] then Awarded(old(pays)[id], dayTime, readable, now) else old(pays)[id]
      {
        if ids[i] in pays {
          AwardedAgain(old(pays)[ids[i]], dayTime, readable, now);
          AwardCard(ids[i], now);
        }
        assert ids[..i + 1] == ids[..i] + [ids[i]] && ids[..i + 1][..i] == ids[..i];
        i := i + 1;
      }
      assert ids[..i] == ids;
    }
  }

  /** Settling again at the same moment changes nothing. */
  lemma AwardedAgain(c: Card, d: DayTime, readable: bool, now: int)
    requires now > 0
    ensures Awarded(Awarded(c, d, readable, now), d, readable, now) == Awarded(c, d, readable, now)
  {
  }

  /** A card is left as it is when its days cannot be told or thirty mails are sent, and never gets more than thirty. */
  lemma AwardsNeverMore(c: Card, d: DayTime, readable: bool, now: int)
    ensures !readable || c.lastAwardTime < 0 || (c.lastAwardTime > now && c.lastAwardTime != 0) ==>
              Awarded(c, d, readable, now) == c
    ensures c.sendMailNum >= 30 ==> Awarded(c, d, readable, now) == c
    ensures c.sendMailNum <= Awarded(c, d, readable, now).sendMailNum
    ensures c.sendMailNum < 30 ==> Awarded(c, d, readable, now).sendMailNum <= 30
  {
  }

  /** A card's history: settlements at these times, in order. */
  function Run(c: Card, d: DayTime, ticks: seq<int>): Card {
    if ticks == [] then c else Awarded(Run(c, d, ticks[..|ticks| - 1]), d, true, ticks[|ticks| - 1])
  }

  ghost predicate Before(ticks: seq<int>, i: nat, j: nat)
    requires i < |ticks| && j < |ticks|
  {
    0 < ticks[i] <= ticks[j]
  }

  ghost predicate InOrder(ticks: seq<int>) {
    forall i: nat, j: nat {:trigger Before(ticks, i, j)} :: i <= j < |ticks| ==> Before(ticks, i, j)
  }

  lemma PointsGrow(d: DayTime, t: int, u: int)
    requires t <= u
    ensures Points(d, t) <= Points(d, u)
  {
  }

  /** The mails a card is due, settled up to a moment, from when it was last settled or, never settled, first is. */
  function DueByPoints(c: Card, d: DayTime, first: int, last: int): int {
    c.sendMailNum +
      if c.lastAwardTime == 0 then 1 + Points(d, last) - Points(d, first)
      else Points(d, last) - Points(d, c.lastAwardTime)
  }

  lemma {:induction false} SettledByPoints(c: Card, d: DayTime, ticks: seq<int>)
    requires InOrder(ticks) && ticks != [] && 0 <= c.lastAwardTime <= ticks[0]
    ensures var n, e := DueByPoints(c, d, ticks[0], ticks[|ticks| - 1]), Run(c, d, ticks);
      && e.sendMailNum == (if c.sendMailNum >= MONTH_CARD_DAYS_NUM then c.sendMailNum
                           else if n < MONTH_CARD_DAYS_NUM then n else MONTH_CARD_DAYS_NUM)
      && (e.sendMailNum < MONTH_CARD_DAYS_NUM ==>
            0 < e.lastAwardTime <= ticks[|ticks| - 1] && Points(d, e.lastAwardTime) == Points(d, ticks[|ticks| - 1]))
  {
    var n := |ticks| - 1;
    assert Before(ticks, 0, n) && Before(ticks, n, n);
    if n == 0 {
      assert ticks[..0] == [] && Run(c, d, []) == c;
      PointsGrow(d, c.lastAwardTime, ticks[0]);
    } else {
      var front := ticks[..n];
      forall i: nat, j: nat | i <= j < |front| ensures Before(front, i, j) { assert Before(ticks, i, j); }
      SettledByPoints(c, d, front);
      assert Before(ticks, n - 1, n) && front[|front| - 1] == ticks[n - 1] && front[0] == ticks[0];
      PointsGrow(d, ticks[n - 1], ticks[n]);
    }
  }

  /** How often and when a card is settled does not matter: it has been sent one mail for each sending time since it
      was last settled, thirty at most, and one for the first settlement of a card never settled; and short of thirty
      none is outstanding. */
  lemma ScheduleDoesNotMatter(c: Card, d: DayTime, ticks: seq<int>)
    requires InADay(d) && InOrder(ticks) && ticks != [] && 0 <= c.lastAwardTime <= ticks[0]
    ensures var last, e := ticks[|ticks| - 1], Run(c, d, ticks);
      var due := c.sendMailNum + if c.lastAwardTime == 0 then 1 + |Sendings(d, ticks[0], last)|
                                 else |Sendings(d, c.lastAwardTime, last)|;
      && e.sendMailNum == (if c.sendMailNum >= MONTH_CARD_DAYS_NUM then c.sendMailNum
                           else if due < MONTH_CARD_DAYS_NUM then due else MONTH_CARD_DAYS_NUM)
      && (e.sendMailNum < MONTH_CARD_DAYS_NUM ==>
            0 < e.lastAwardTime <= last && Sendings(d, e.lastAwardTime, last) == {})
  {
    var last, e := ticks[|ticks| - 1], Run(c, d, ticks);
    assert Before(ticks, 0, |ticks| - 1);
    SettledByPoints(c, d, ticks);
    PointsCountSendings(d, ticks[0], last);
    PointsCountSendings(d, c.lastAwardTime, last);
    if e.sendMailNum < MONTH_CARD_DAYS_NUM {
      PointsCountSendings(d, e.lastAwardTime, last);
    }
  }
}
