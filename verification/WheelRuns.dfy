/** Whole runs of the timing wheel: when, over any sequence of rounds, a player is logged out. */
module WheelRuns {
  import opened TimerWheel

  /** The wheel after the first `n` rounds. */
  ghost function After(interval: int, w: Wheel, ticks: seq<Tick>, n: nat): Wheel
    requires n <= |ticks|
  {
    if n == 0 then w else NextWheel(interval, After(interval, w, ticks, n - 1), ticks[n - 1])
  }

  predicate Requests(o: ConnOp, p: int) {
    o.playerId == p && (o.op == 1 || o.op == 2)
  }

  ghost predicate Untouched(ops: seq<ConnOp>, p: int) {
    forall i :: 0 <= i < |ops| ==> !Requests(ops[i], p)
  }

  /** The last request for `p` in a round (re)starts its countdown. */
  ghost predicate Starts(ops: seq<ConnOp>, p: int) {
    exists i :: 0 <= i < |ops| && ops[i] == ConnOp(1, p) && Untouched(ops[i + 1..], p)
  }

  lemma {:induction false} ServedUntouched(interval: int, rem: map<int, int>, ops: seq<ConnOp>, p: int)
    requires Untouched(ops, p)
    ensures p in Served(interval, rem, ops) <==> p in rem
    ensures p in rem ==> Served(interval, rem, ops)[p] == rem[p]
  {
    if ops != [] {
      ServedUntouched(interval, rem, ops[..|ops| - 1], p);
      assert !Requests(ops[|ops| - 1], p);
    }
  }

  lemma {:induction false} ServedStarts(interval: int, rem: map<int, int>, ops: seq<ConnOp>, p: int)
    requires Starts(ops, p)
    ensures p in Served(interval, rem, ops) && Served(interval, rem, ops)[p] == interval
  {
    var i :| 0 <= i < |ops| && ops[i] == ConnOp(1, p) && Untouched(ops[i + 1..], p);
    if i < |ops| - 1 {
      var init := ops[..|ops| - 1];
      assert init[i + 1..] == ops[i + 1..][..|ops| - 2 - i];
      assert init[i] == ConnOp(1, p) && Untouched(init[i + 1..], p);
      ServedStarts(interval, rem, init, p);
      assert ops[|ops| - 1] == ops[i + 1..][|ops| - 2 - i] && !Requests(ops[|ops| - 1], p);
    }
  }

  /** The last request for `p` in a round ends its countdown. */
  ghost predicate Ends(ops: seq<ConnOp>, p: int) {
    exists i :: 0 <= i < |ops| && ops[i] == ConnOp(2, p) && Untouched(ops[i + 1..], p)
  }

  lemma {:induction false} ServedEnds(interval: int, rem: map<int, int>, ops: seq<ConnOp>, p: int)
    requires Ends(ops, p)
    ensures p !in Served(interval, rem, ops)
  {
    var i :| 0 <= i < |ops| && ops[i] == ConnOp(2, p) && Untouched(ops[i + 1..], p);
    if i < |ops| - 1 {
      var init := ops[..|ops| - 1];
      assert init[i + 1..] == ops[i + 1..][..|ops| - 2 - i];
      assert init[i] == ConnOp(2, p) && Untouched(init[i + 1..], p);
      ServedEnds(interval, rem, init, p);
      assert ops[|ops| - 1] == ops[i + 1..][|ops| - 2 - i] && !Requests(ops[|ops| - 1], p);
    }
  }

  /** A run in which the first round leaves `p` freshly started and no later one requests anything for it. */
  ghost predicate StartedOnce(interval: int, w: Wheel, ticks: seq<Tick>, p: int) {
    && interval >= 1 && w.last >= 0 && |ticks| > 0
    && (forall i :: 0 <= i < |ticks| ==> ticks[i].now > 0)
    && Starts(ticks[0].ops, p)
    && (forall i :: 1 <= i < |ticks| ==> Untouched(ticks[i].ops, p))
  }

  /** The moment a run's clock is counted from: the last sweep before it, or its first reading on a new wheel. */
  function Origin(w: Wheel, ticks: seq<Tick>): int
    requires ticks != []
  {
    if w.last == 0 then ticks[0].now else w.last
  }

  /** The latest reading of the clock in the first `n` rounds, and never before the origin. */
  function Latest(w: Wheel, ticks: seq<Tick>, n: nat): int
    requires n <= |ticks| && ticks != []
  {
    if n == 0 then Origin(w, ticks)
    else if ticks[n - 1].now > Latest(w, ticks, n - 1) then ticks[n - 1].now
    else Latest(w, ticks, n - 1)
  }

  /** Seconds gone by on the clock since the start, after `n` rounds. */
  function Elapsed(w: Wheel, ticks: seq<Tick>, n: nat): int
    requires n <= |ticks| && ticks != []
  {
    Latest(w, ticks, n) - Origin(w, ticks)
  }

  /** The clock does not go back, from the last sweep on. */
  ghost predicate ClockRuns(w: Wheel, ticks: seq<Tick>) {
    && (ticks != [] && w.last != 0 ==> w.last <= ticks[0].now)
    && forall i {:trigger ticks[i]} :: 1 <= i < |ticks| ==> ticks[i - 1].now <= ticks[i].now
  }

  /** On a clock that does not go back, the seconds gone by are the difference of two readings. */
  lemma {:induction false} ElapsedOnClock(w: Wheel, ticks: seq<Tick>, n: nat)
    requires ClockRuns(w, ticks) && 1 <= n <= |ticks|
    ensures Elapsed(w, ticks, n) == ticks[n - 1].now - if w.last == 0 then ticks[0].now else w.last
  {
    assert Latest(w, ticks, 0) == Origin(w, ticks);
    if n > 1 {
      ElapsedOnClock(w, ticks, n - 1);
      assert ticks[n - 1].now >= ticks[n - 2].now;
    }
  }

  /** The first round of a new wheel starts its clock: nobody is logged out and nothing comes off any countdown. */
  lemma FirstRound(interval: int, w: Wheel, t: Tick)
    requires w.last == 0
    ensures LoggedOut(interval, w, t) == {}
    ensures NextWheel(interval, w, t) == Wheel(Served(interval, w.rem, t.ops), t.now)
  {
  }

  /** The wheel was last swept at the latest reading of the clock. */
  lemma {:induction false} LastIsLatest(interval: int, w: Wheel, ticks: seq<Tick>, n: nat)
    requires 1 <= n <= |ticks| && w.last >= 0 && forall i :: 0 <= i < |ticks| ==> ticks[i].now > 0
    ensures After(interval, w, ticks, n).last == Latest(w, ticks, n) > 0
  {
    if n > 1 {
      LastIsLatest(interval, w, ticks, n - 1);
    } else {
      assert After(interval, w, ticks, 0) == w;
    }
  }

  /** The countdown is exact after every round: it shows what is left of the interval, or is gone. */
  lemma {:induction false} Countdown(interval: int, w: Wheel, ticks: seq<Tick>, p: int, n: nat)
    requires StartedOnce(interval, w, ticks, p) && 1 <= n <= |ticks|
    ensures var s := After(interval, w, ticks, n); var e := Elapsed(w, ticks, n);
      && (p in s.rem <==> e < interval) && (e < interval ==> s.rem[p] == interval - e)
  {
    var before := After(interval, w, ticks, n - 1);
    LastIsLatest(interval, w, ticks, n);
    if n == 1 {
      ServedStarts(interval, before.rem, ticks[0].ops, p);
    } else {
      LastIsLatest(interval, w, ticks, n - 1);
      Countdown(interval, w, ticks, p, n - 1);
      ServedUntouched(interval, before.rem, ticks[n - 1].ops, p);
    }
  }

  /** A started player is logged out in the first round whose sweep brings the elapsed seconds to the
      interval, provided it is still known then; never in an earlier round and never in a later one. */
  lemma DeadlineExact(interval: int, w: Wheel, ticks: seq<Tick>, p: int, n: nat)
    requires StartedOnce(interval, w, ticks, p) && n < |ticks|
    ensures p in LoggedOut(interval, After(interval, w, ticks, n), ticks[n]) <==>
      Elapsed(w, ticks, n) < interval <= Elapsed(w, ticks, n + 1) && p in ticks[n].known
  {
    var before := After(interval, w, ticks, n);
    if n == 0 {
      ServedStarts(interval, before.rem, ticks[0].ops, p);
    } else {
      LastIsLatest(interval, w, ticks, n);
      Countdown(interval, w, ticks, p, n);
      ServedUntouched(interval, before.rem, ticks[n].ops, p);
    }
  }

  /** The same, read off the clock: on one that does not go back, with `start` the first reading on a new wheel and the
      last sweep otherwise, the log-out comes in the round that reads `start + interval` or later for the first time. */
  lemma DeadlineOnClock(interval: int, w: Wheel, ticks: seq<Tick>, p: int, n: nat)
    requires StartedOnce(interval, w, ticks, p) && ClockRuns(w, ticks) && n < |ticks|
    ensures var start := if w.last == 0 then ticks[0].now else w.last;
      p in LoggedOut(interval, After(interval, w, ticks, n), ticks[n]) <==>
      (n > 0 ==> ticks[n - 1].now < start + interval) && start + interval <= ticks[n].now && p in ticks[n].known
  {
    DeadlineExact(interval, w, ticks, p, n);
    ElapsedOnClock(w, ticks, n + 1);
    if n > 0 {
      ElapsedOnClock(w, ticks, n);
    }
  }

  lemma {:induction false} ElapsedGrows(w: Wheel, ticks: seq<Tick>, m: nat, n: nat)
    requires m <= n <= |ticks| && ticks != []
    ensures Elapsed(w, ticks, m) <= Elapsed(w, ticks, n)
    decreases n
  {
    if m < n {
      ElapsedGrows(w, ticks, m, n - 1);
    }
  }

  /** No run logs a player out twice for one start. */
  lemma LoggedOutOnce(interval: int, w: Wheel, ticks: seq<Tick>, p: int, m: nat, n: nat)
    requires StartedOnce(interval, w, ticks, p) && m < n < |ticks|
    requires p in LoggedOut(interval, After(interval, w, ticks, m), ticks[m])
    ensures p !in LoggedOut(interval, After(interval, w, ticks, n), ticks[n])
  {
    assert Elapsed(w, ticks, m + 1) >= interval by {
      DeadlineExact(interval, w, ticks, p, m);
    }
    ElapsedGrows(w, ticks, m + 1, n);
    DeadlineExact(interval, w, ticks, p, n);
  }

  /** A player whose countdown a round ends is not logged out by that round or any later one, unless requested anew. */
  lemma {:induction false} EndedIsNotLoggedOut(interval: int, w: Wheel, ticks: seq<Tick>, p: int, n: nat)
    requires n < |ticks| && Ends(ticks[0].ops, p) && forall i :: 1 <= i < |ticks| ==> Untouched(ticks[i].ops, p)
    ensures p !in LoggedOut(interval, After(interval, w, ticks, n), ticks[n])
    ensures p !in After(interval, w, ticks, n + 1).rem
  {
    var before := After(interval, w, ticks, n);
    if n == 0 {
      ServedEnds(interval, before.rem, ticks[0].ops, p);
    } else {
      EndedIsNotLoggedOut(interval, w, ticks, p, n - 1);
      ServedUntouched(interval, before.rem, ticks[n].ops, p);
    }
  }

  /** Once the sweeps add up to the interval, a player known throughout has been logged out. */
  lemma {:induction false} LoggedOutByThen(interval: int, w: Wheel, ticks: seq<Tick>, p: int, n: nat) returns (m: nat)
    requires StartedOnce(interval, w, ticks, p) && n <= |ticks| && Elapsed(w, ticks, n) >= interval
    requires forall i :: 0 <= i < |ticks| ==> p in ticks[i].known
    ensures m < n && p in LoggedOut(interval, After(interval, w, ticks, m), ticks[m])
  {
    if Elapsed(w, ticks, n - 1) >= interval {
      m := LoggedOutByThen(interval, w, ticks, p, n - 1);
    } else {
      DeadlineExact(interval, w, ticks, p, n - 1);
      m := n - 1;
    }
  }

  /** The players a round of a run on a new wheel logs out. */
  ghost predicate LogsOut(interval: int, ticks: seq<Tick>, n: nat, gone: seq<int>)
    requires n < |ticks|
  {
    NoRepeats(gone) &&
    forall k :: k in gone <==> k in LoggedOut(interval, After(interval, Wheel(map[], 0), ticks, n), ticks[n])
  }

  ghost predicate AllLogOut(interval: int, ticks: seq<Tick>, gone: seq<seq<int>>) {
    |gone| <= |ticks| && forall n {:trigger gone[n]} :: 0 <= n < |gone| ==> LogsOut(interval, ticks, n, gone[n])
  }

  lemma LogsOutOneMore(interval: int, ticks: seq<Tick>, gone: seq<seq<int>>, last: seq<int>)
    requires AllLogOut(interval, ticks, gone) && |gone| < |ticks| && LogsOut(interval, ticks, |gone|, last)
    ensures AllLogOut(interval, ticks, gone + [last])
  {
  }

  /** A wheel that has done the first `n` rounds of a run. */
  ghost predicate HasRun(wheel: ConnTimerWheel, ticks: seq<Tick>, n: nat)
    requires n <= |ticks|
    reads wheel, wheel.slot.Keys, wheel.timers
  {
    wheel.Valid() && wheel.Abstract() == After(wheel.interval, Wheel(map[], 0), ticks, n)
  }

  method NewWheel(interval: int, ticks: seq<Tick>) returns (wheel: ConnTimerWheel)
    requires interval >= 1
    ensures fresh(wheel) && fresh(wheel.slot.Keys) && fresh(wheel.timers)
    ensures wheel.interval == interval && HasRun(wheel, ticks, 0)
  {
    wheel := new ConnTimerWheel(interval);
  }

  /** One more round. */
  method RunRound(wheel: ConnTimerWheel, ticks: seq<Tick>, n: nat) returns (gone: seq<int>)
    requires n < |ticks| && HasRun(wheel, ticks, n)
    modifies wheel, wheel.slot.Keys, wheel.timers
    ensures HasRun(wheel, ticks, n + 1) && LogsOut(wheel.interval, ticks, n, gone)
    ensures forall l :: l in wheel.slot ==> l in old(wheel.slot) || fresh(l)
    ensures forall t :: t in wheel.timers ==> t in old(wheel.timers) || fresh(t)
  {
    gone := wheel.Step(ticks[n]);
  }

  /** The first `n` rounds, on a wheel that has done none. */
  method RunRounds(wheel: ConnTimerWheel, ticks: seq<Tick>, n: nat) returns (gone: seq<seq<int>>)
    requires n <= |ticks| && HasRun(wheel, ticks, 0)
    modifies wheel, wheel.slot.Keys, wheel.timers
    ensures HasRun(wheel, ticks, n) && |gone| == n && AllLogOut(wheel.interval, ticks, gone)
    ensures forall l :: l in wheel.slot ==> l in old(wheel.slot) || fresh(l)
    ensures forall t :: t in wheel.timers ==> t in old(wheel.timers) || fresh(t)
  {
    gone := [];
    if n > 0 {
      gone := RunRounds(wheel, ticks, n - 1);
      var last := RunRound(wheel, ticks, n - 1);
      LogsOutOneMore(wheel.interval, ticks, gone, last);
      gone := gone + [last];
    }
  }

  /** Any run of rounds on a new wheel logs out, round by round, exactly whom the countdowns say. */
  method Run(interval: int, ticks: seq<Tick>) returns (wheel: ConnTimerWheel, gone: seq<seq<int>>)
    requires interval >= 1
    ensures fresh(wheel) && wheel.interval == interval && HasRun(wheel, ticks, |ticks|)
    ensures |gone| == |ticks| && AllLogOut(interval, ticks, gone)
  {
    wheel := NewWheel(interval, ticks);
    gone := RunRounds(wheel, ticks, |ticks|);
  }
}
