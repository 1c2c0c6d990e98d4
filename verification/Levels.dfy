/** Experience turned into levels, for players and for cats. */
module Levels {

  const CAT_TABLE_DATA_NOT_FOUND := -101100
  const CAT_FOOD_NOT_ENOUGH := -101110
  const CAT_UPLEVEL_NEED_UPSTAR := -101127

  datatype Progress = Progress(level: int, exp: int)

  /** The experience the levels from `low` up to but not including `high` cost; `costs[l - 1]` is the price of leaving
      level l. */
  function Paid(costs: seq<int>, low: int, high: int): int
    decreases high - low
  {
    if low >= high then 0
    else Paid(costs, low, high - 1) + if 1 <= high - 1 <= |costs| then costs[high - 2] else 0
  }

  lemma {:induction false} PaidInParts(costs: seq<int>, a: int, b: int, c: int)
    requires a <= b <= c
    ensures Paid(costs, a, b) + Paid(costs, b, c) == Paid(costs, a, c)
    decreases c - b
  {
    if b < c {
      PaidInParts(costs, a, b, c - 1);
    }
  }

  // Players.

  /** Levels gained one by one while the experience lasts. */
  function Climbed(costs: seq<int>, p: Progress): Progress
    requires p.level >= 1
    decreases |costs| - p.level
  {
    if p.level < |costs| && p.exp >= costs[p.level - 1] then
      Climbed(costs, Progress(p.level + 1, p.exp - costs[p.level - 1]))
    else
      p
  }

  /** What a gain of experience makes of a player; at the highest level nothing is kept of it. */
  function Gained(costs: seq<int>, p: Progress, add: int): Progress {
    if add < 0 || p.level < 1 || p.level >= |costs| then p else Climbed(costs, Progress(p.level, p.exp + add))
  }

  /** Nothing is lost or made on the way up, every level reached was paid for, and what is left does not pay for the
      next one. */
  lemma {:induction false} ClimbConserves(costs: seq<int>, p: Progress)
    requires p.level >= 1
    ensures var q := Climbed(costs, p);
      && q.level >= p.level && p.exp == Paid(costs, p.level, q.level) + q.exp
      && (forall l {:trigger Paid(costs, p.level, l)} ::
            p.level < l <= q.level ==> l <= |costs| && p.exp >= Paid(costs, p.level, l))
      && (q.level < |costs| ==> q.exp < costs[q.level - 1])
      && (q.level > p.level ==> q.exp >= 0)
    decreases |costs| - p.level
  {
    if p.level < |costs| && p.exp >= costs[p.level - 1] {
      var next := Progress(p.level + 1, p.exp - costs[p.level - 1]);
      var q := Climbed(costs, next);
      ClimbConserves(costs, next);
      PaidInParts(costs, p.level, p.level + 1, q.level);
      assert Paid(costs, p.level, p.level) == 0;
      forall l {:trigger Paid(costs, p.level, l)} | p.level < l <= q.level
        ensures l <= |costs| && p.exp >= Paid(costs, p.level, l)
      {
        PaidInParts(costs, p.level, p.level + 1, l);
        assert Paid(costs, next.level, l) <= next.exp by { assert Paid(costs, next.level, next.level) == 0; }
      }
    }
  }

  /** So a gain leads to the last level that all experience pays the way to, and leaves the rest. */
  lemma GainConserves(costs: seq<int>, p: Progress, add: int)
    ensures add < 0 || p.level < 1 || p.level >= |costs| ==> Gained(costs, p, add) == p
    ensures add >= 0 && 1 <= p.level < |costs| ==>
              var q := Gained(costs, p, add);
              && p.level <= q.level <= |costs| && p.exp + add == Paid(costs, p.level, q.level) + q.exp
              && (forall l {:trigger Paid(costs, p.level, l)} ::
                    p.level < l <= q.level ==> p.exp + add >= Paid(costs, p.level, l))
              && (q.level < |costs| ==> p.exp + add < Paid(costs, p.level, q.level + 1))
  {
    if add >= 0 && 1 <= p.level < |costs| {
      var start := Progress(p.level, p.exp + add);
      ClimbConserves(costs, start);
      assert Gained(costs, p, add) == Climbed(costs, start);
      assert Paid(costs, p.level, p.level) == 0;
    }
  }

  lemma {:induction false} ClimbInParts(costs: seq<int>, p: Progress, more: int)
    requires p.level >= 1 && more >= 0
    ensures var q := Climbed(costs, p);
      q.level >= 1 && Climbed(costs, Progress(p.level, p.exp + more)) == Climbed(costs, Progress(q.level, q.exp + more))
    decreases |costs| - p.level
  {
    if p.level < |costs| && p.exp >= costs[p.level - 1] {
      ClimbInParts(costs, Progress(p.level + 1, p.exp - costs[p.level - 1]), more);
    }
  }

  /** Two gains are one gain of the sum, except that what comes after the highest level is reached is not kept: the
      level is always the same, and the experience is too if and only if the first gain ended below the highest level,
      or started there, or the second was nothing. */
  lemma GainsAdd(costs: seq<int>, p: Progress, a: int, b: int)
    requires a >= 0 && b >= 0
    ensures var q := Gained(costs, p, a);
      && Gained(costs, q, b).level == Gained(costs, p, a + b).level
      && (Gained(costs, q, b) == Gained(costs, p, a + b) <==> q.level < |costs| || p.level >= |costs| || b == 0)
  {
    if 1 <= p.level < |costs| {
      ClimbInParts(costs, Progress(p.level, p.exp + a), b);
      ClimbConserves(costs, Progress(p.level, p.exp + a));
    }
  }

  class PlayerLevel {
    var level: int
    var exp: int
    const costs: seq<int>  // one entry for each level

    ghost function Now(): Progress
      reads this
    {
      Progress(level, exp)
    }

    method AddExp(addVal: int) returns (lvl: int, e: int)
      modifies this
      ensures Now() == Gained(costs, old(Now()), addVal)
      ensures addVal < 0 ==> (lvl, e) == (level, exp)
      ensures addVal >= 0 && old(level) < 1 ==> (lvl, e) == (-1, -1)
      ensures addVal >= 0 && 1 <= old(level) < |costs| ==> (lvl, e) == (level, exp)
      ensures addVal >= 0 && old(level) >= 1 && old(level) >= |costs| ==> (lvl, e) == (level, exp + addVal)
    {
      var oldLvl := level;
      if addVal < 0 {
        return oldLvl, exp;
      }
      var curExp := exp + addVal;
      if oldLvl < 1 {
        return -1, -1;
      }
      var curLvl := oldLvl;
      if curLvl + 1 <= |costs| {
        var changed := false;
        var i := curLvl;
        while i < |costs|
          invariant 1 <= i == curLvl <= |costs| && (changed || curLvl == oldLvl)
          invariant Climbed(costs, Progress(curLvl, curExp)) == Climbed(costs, Progress(oldLvl, exp + addVal))
          invariant level == old(level) && exp == old(exp)
        {
          var nextExp := costs[i - 1];
          if curExp >= nextExp {
            curLvl := i + 1;
            curExp := curExp - nextExp;
            changed := true;
          } else {
            break;
          }
          i := i + 1;
        }
        if changed {
          level := curLvl;
          exp := curExp;
        } else {
          exp := curExp;
        }
      }
      lvl, e := curLvl, curExp;
    }
  }

  // Cats.

  /** What a kind of cat needs for its levels, and how far each star lets it go. */
  datatype CatCfg = CatCfg(upgradeExps: seq<int>, upstarMaxLevels: seq<int>)

  function LevelExp(cfg: CatCfg, level: int): int {
    if level < 1 || level > |cfg.upgradeExps| then -1 else cfg.upgradeExps[level - 1]
  }

  function StarMaxLevel(cfg: CatCfg, star: int): int {
    if star < 1 || star > |cfg.upstarMaxLevels| then -1 else cfg.upstarMaxLevels[star - 1]
  }

  predicate AtMax(cfg: CatCfg, level: int) {
    level >= |cfg.upgradeExps|
  }

  predicate NextPaid(cfg: CatCfg, p: Progress) {
    0 <= LevelExp(cfg, p.level) <= p.exp
  }

  /** A cat's climb: until the highest level, the limit of its star, or a level the experience does not pay for. */
  function CatClimbed(cfg: CatCfg, cap: int, p: Progress): Progress
    decreases |cfg.upgradeExps| - p.level
  {
    if AtMax(cfg, p.level) || p.level + 1 > cap || !NextPaid(cfg, p) then p
    else CatClimbed(cfg, cap, Progress(p.level + 1, p.exp - LevelExp(cfg, p.level)))
  }

  /** What is kept of the experience: none at the highest level, and under the limit of a star one less than the next
      level costs. */
  function Kept(cfg: CatCfg, cap: int, p: Progress): Progress {
    if AtMax(cfg, p.level) then Progress(p.level, 0)
    else if p.level + 1 > cap && p.exp >= LevelExp(cfg, p.level) then Progress(p.level, LevelExp(cfg, p.level) - 1)
    else p
  }

  function Fed(cfg: CatCfg, cap: int, p: Progress, add: int): Progress {
    Kept(cfg, cap, CatClimbed(cfg, cap, Progress(p.level, p.exp + add)))
  }

  /** Nowhere to go: the highest level, the limit of the star, a level without a price or one not paid for. */
  ghost predicate Stuck(cfg: CatCfg, cap: int, q: Progress) {
    || q.level >= |cfg.upgradeExps| || q.level >= cap || q.level < 1
    || cfg.upgradeExps[q.level - 1] < 0 || q.exp < cfg.upgradeExps[q.level - 1]
  }

  lemma {:induction false} CatClimbConserves(cfg: CatCfg, cap: int, p: Progress)
    ensures var q := CatClimbed(cfg, cap, p);
      && q.level >= p.level && p.exp == Paid(cfg.upgradeExps, p.level, q.level) + q.exp
      && (forall l {:trigger Paid(cfg.upgradeExps, p.level, l)} :: p.level < l <= q.level ==>
            l <= cap && l <= |cfg.upgradeExps| && p.exp >= Paid(cfg.upgradeExps, p.level, l))
      && Stuck(cfg, cap, q)
      && (q.level > p.level ==> q.exp >= 0)
    decreases |cfg.upgradeExps| - p.level
  {
    if !AtMax(cfg, p.level) && p.level + 1 <= cap && NextPaid(cfg, p) {
      var costs, next := cfg.upgradeExps, Progress(p.level + 1, p.exp - LevelExp(cfg, p.level));
      var q := CatClimbed(cfg, cap, next);
      CatClimbConserves(cfg, cap, next);
      PaidInParts(costs, p.level, p.level + 1, q.level);
      assert Paid(costs, p.level, p.level) == 0;
      forall l {:trigger Paid(costs, p.level, l)} | p.level < l <= q.level
        ensures l <= cap && l <= |costs| && p.exp >= Paid(costs, p.level, l)
      {
        PaidInParts(costs, p.level, p.level + 1, l);
        assert Paid(costs, next.level, l) <= next.exp by { assert Paid(costs, next.level, next.level) == 0; }
      }
    }
  }

  /** Feeding pays exactly the levels gained, each of them within the limits and paid for, and goes on until it is
      stuck. The rest is the new experience, except at the highest level, which keeps none, and at the limit of a star,
      which keeps one less than the next level costs. Below the highest level what is kept never pays for the next. */
  lemma FeedingConserves(cfg: CatCfg, cap: int, p: Progress, add: int)
    ensures var costs, q := cfg.upgradeExps, Fed(cfg, cap, p, add);
      var rest := p.exp + add - Paid(costs, p.level, q.level);
      && q.level >= p.level
      && (forall l {:trigger Paid(costs, p.level, l)} :: p.level < l <= q.level ==>
            l <= cap && l <= |costs| && p.exp + add >= Paid(costs, p.level, l))
      && Stuck(cfg, cap, Progress(q.level, rest))
      && q.exp == (if q.level >= |costs| then 0
                   else if q.level >= cap && rest >= LevelExp(cfg, q.level) then LevelExp(cfg, q.level) - 1
                   else rest)
      && (1 <= q.level < |costs| && costs[q.level - 1] >= 0 ==> q.exp < costs[q.level - 1])
  {
    CatClimbConserves(cfg, cap, Progress(p.level, p.exp + add));
  }

  /** A cat of some star gains levels up to what that star allows, and none without a star of its kind. */
  lemma FeedingKeepsStar(cfg: CatCfg, star: int, p: Progress, add: int)
    ensures var q := Fed(cfg, StarMaxLevel(cfg, star), p, add);
      && (q.level > p.level && q.level >= 0 ==>
            1 <= star <= |cfg.upstarMaxLevels| && q.level <= cfg.upstarMaxLevels[star - 1])
      && (1 <= star <= |cfg.upstarMaxLevels| && 1 <= q.level < |cfg.upgradeExps| &&
          q.level < cfg.upstarMaxLevels[star - 1] ==>
            cfg.upgradeExps[q.level - 1] < 0 ||
            p.exp + add < Paid(cfg.upgradeExps, p.level, q.level) + cfg.upgradeExps[q.level - 1])
  {
    FeedingConserves(cfg, StarMaxLevel(cfg, star), p, add);
  }

  lemma {:induction false} CatClimbInParts(cfg: CatCfg, cap: int, p: Progress, more: int)
    requires more >= 0
    ensures var q := CatClimbed(cfg, cap, p);
      CatClimbed(cfg, cap, Progress(p.level, p.exp + more)) == CatClimbed(cfg, cap, Progress(q.level, q.exp + more))
    decreases |cfg.upgradeExps| - p.level
  {
    if !AtMax(cfg, p.level) && p.level + 1 <= cap && NextPaid(cfg, p) {
      CatClimbInParts(cfg, cap, Progress(p.level + 1, p.exp - LevelExp(cfg, p.level)), more);
    }
  }

  /** Feeding twice is feeding the sum once, whatever the limits. */
  lemma FeedingsAdd(cfg: CatCfg, cap: int, p: Progress, a: int, b: int)
    requires b >= 0
    ensures Fed(cfg, cap, Fed(cfg, cap, p, a), b) == Fed(cfg, cap, p, a + b)
  {
    var q := CatClimbed(cfg, cap, Progress(p.level, p.exp + a));
    CatClimbInParts(cfg, cap, Progress(p.level, p.exp + a), b);
    CatClimbConserves(cfg, cap, Progress(p.level, p.exp + a));
    assert Progress(p.level, p.exp + a + b) == Progress(p.level, p.exp + (a + b));
  }

  datatype Cat = Cat(cfgId: int, star: int, progress: Progress)

  class CatOwner {
    var catFood: int
    var cats: map<int, Cat>
    const cfgs: map<int, CatCfg>

    /** Takes the food and gives the experience; nothing is taken when nothing changes. */
    method FeedCat(catId: int, food: int, addExp: int) returns (level: int, exp: int, r: int)
      modifies this
      ensures r != 1 ==> (level, exp) == (0, 0) && cats == old(cats) && catFood == old(catFood)
      ensures catId !in old(cats) ==> r == -1
      ensures catId in old(cats) && old(cats)[catId].cfgId !in cfgs ==> r == CAT_TABLE_DATA_NOT_FOUND
      ensures catId in old(cats) && old(cats)[catId].cfgId in cfgs && (food < 0 || food > old(catFood)) ==>
              r == CAT_FOOD_NOT_ENOUGH
      ensures catId in old(cats) && old(cats)[catId].cfgId in cfgs && 0 <= food <= old(catFood) ==>
                var cat := old(cats)[catId];
                var cfg := cfgs[cat.cfgId];
                var cap := StarMaxLevel(cfg, cat.star);
                var fed := Fed(cfg, cap, cat.progress, addExp);
                if fed == cat.progress then
                  r == (if !AtMax(cfg, fed.level) && fed.level + 1 > cap then CAT_UPLEVEL_NEED_UPSTAR else 0)
                else r == 1 && (level, exp) == (fed.level, fed.exp) && catFood == old(catFood) - food &&
                     cats == old(cats)[catId := cat.(progress := fed)]
    {
      level, exp := 0, 0;
      if catId !in cats {
        return level, exp, -1;
      }
      var cat := cats[catId];
      if cat.cfgId !in cfgs {
        return level, exp, CAT_TABLE_DATA_NOT_FOUND;
      }
      var cfg := cfgs[cat.cfgId];
      if food < 0 || food > catFood {
        return level, exp, CAT_FOOD_NOT_ENOUGH;
      }
      var currLevel, currExp := cat.progress.level, cat.progress.exp;
      var maxLevel := StarMaxLevel(cfg, cat.star);
      var totalCost := 0;
      var isMaxLevel, limitedByStar := false, false;
      ghost var whole := CatClimbed(cfg, maxLevel, Progress(currLevel, currExp + addExp));
      while true
        invariant CatClimbed(cfg, maxLevel, Progress(currLevel, currExp + addExp - totalCost)) == whole
        invariant cats == old(cats) && catFood == old(catFood)
        decreases |cfg.upgradeExps| - currLevel
      {
        if currLevel >= |cfg.upgradeExps| {
          isMaxLevel := true;
          break;
        }
        if currLevel + 1 > maxLevel {
          limitedByStar := true;
          break;
        }
        var ok, cost := CatLevelUp(currLevel, cfg, currExp + addExp - totalCost);
        if !ok {
          break;
        }
        currLevel := currLevel + 1;
        totalCost := totalCost + cost;
      }
      if isMaxLevel {
        currExp := 0;
      } else {
        currExp := currExp + addExp - totalCost;
        if limitedByStar {
          var need := LevelExp(cfg, currLevel);
          if currExp >= need {
            totalCost := totalCost + (need - 1);
            currExp := need - 1;
          }
        }
      }
      if currLevel == cat.progress.level && currExp == cat.progress.exp {
        if limitedByStar {
          return level, exp, CAT_UPLEVEL_NEED_UPSTAR;
        }
        return level, exp, 0;
      }
      if currLevel != cat.progress.level {
        cats := cats[catId := cats[catId].(progress := Progress(currLevel, cats[catId].progress.exp))];
      }
      if currExp != cat.progress.exp {
        cats := cats[catId := cats[catId].(progress := Progress(cats[catId].progress.level, currExp))];
      }
      catFood := catFood - food;
      level, exp, r := currLevel, currExp, 1;
    }

    method CatLevelUp(level: int, cfg: CatCfg, food: int) returns (ok: bool, cost: int)
      ensures ok <==> 1 <= level <= |cfg.upgradeExps| && 0 <= cfg.upgradeExps[level - 1] <= food
      ensures cost == if ok then cfg.upgradeExps[level - 1] else 0
    {
      var needExp := LevelExp(cfg, level);
      if needExp < 0 {
        return false, 0;
      }
      if needExp > food {
        return false, 0;
      }
      return true, needExp;
    }
  }
}
