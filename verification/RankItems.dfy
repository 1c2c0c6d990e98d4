/** The rows a ranking list orders: a higher value first, then the earlier update,
    then the smaller player id. */
module RankItems {

  /** The value of a ranking row at one moment. */
  datatype Rank = Rank(value: int, updateTime: int, playerId: int) {
    predicate Less(o: Rank) {
      if value < o.value then true
      else value == o.value && (updateTime > o.updateTime || (updateTime == o.updateTime && playerId > o.playerId))
    }

    predicate Greater(o: Rank) {
      if value > o.value then true
      else value == o.value && (updateTime < o.updateTime || (updateTime == o.updateTime && playerId < o.playerId))
    }

    predicate KeyEqual(o: Rank) {
      playerId == o.playerId
    }
  }

  /** The mutable row itself, shared by reference between a ranking list's two indexes. */
  class PlayerRankItem {
    var value: int
    var updateTime: int
    var playerId: int

    constructor (r: Rank)
      ensures Snap() == r
    {
      value, updateTime, playerId := r.value, r.updateTime, r.playerId;
    }

    function Snap(): Rank
      reads this
    {
      Rank(value, updateTime, playerId)
    }

    predicate Greater(o: PlayerRankItem)
      reads this, o
    {
      Snap().Greater(o.Snap())
    }

    predicate KeyEqual(o: PlayerRankItem)
      reads this, o
    {
      Snap().KeyEqual(o.Snap())
    }

    method Assign(n: PlayerRankItem)
      modifies this
      ensures Snap() == old(n.Snap())
    {
      value := n.value;
      updateTime := n.updateTime;
      playerId := n.playerId;
    }
  }

  /** `Greater` is a strict total order whose converse is `Less`. */
  lemma GreaterIsStrictTotalOrder(a: Rank, b: Rank, c: Rank)
    ensures !a.Greater(a)
    ensures a.Greater(b) <==> b.Less(a)
    ensures a.Greater(b) || a == b || b.Greater(a)
    ensures a.Greater(b) ==> !b.Greater(a)
    ensures a.Greater(b) && b.Greater(c) ==> a.Greater(c)
  {
  }

  /** What stands higher: the higher value; at equal values the earlier update; at equal times the smaller id. */
  lemma GreaterOnFields(a: Rank, b: Rank)
    ensures a.value > b.value ==> a.Greater(b) && b.Less(a)
    ensures a.value == b.value && a.updateTime < b.updateTime ==> a.Greater(b) && b.Less(a)
    ensures a.value == b.value && a.updateTime == b.updateTime && a.playerId < b.playerId ==> a.Greater(b) && b.Less(a)
    ensures a.KeyEqual(b) <==> a.playerId == b.playerId
  {
  }

  /** No row stands before a greater one. */
  ghost predicate Descending(rs: seq<Rank>) {
    forall a, b {:trigger InOrder(rs, a, b)} :: 0 <= a < b < |rs| ==> InOrder(rs, a, b)
  }

  ghost predicate InOrder(rs: seq<Rank>, a: nat, b: nat)
    requires a < |rs| && b < |rs|
  {
    !rs[b].Greater(rs[a])
  }

  /** How many rows are greater than `v`. */
  function Above(rs: seq<Rank>, v: Rank): (n: nat)
    ensures n <= |rs|
  {
    if rs == [] then 0 else (if rs[0].Greater(v) then 1 else 0) + Above(rs[1..], v)
  }

  /** In a descending list the rows greater than `v` are exactly the first `Above` ones. */
  lemma {:induction false} AboveSplits(rs: seq<Rank>, v: Rank)
    requires Descending(rs)
    ensures forall a :: 0 <= a < |rs| ==> (rs[a].Greater(v) <==> a < Above(rs, v))
  {
    if rs != [] {
      var t := rs[1..];
      assert forall a :: 0 <= a < |t| ==> t[a] == rs[a + 1];
      forall a: nat, b: nat | a < b < |t| ensures InOrder(t, a, b) {
        assert InOrder(rs, a + 1, b + 1);
      }
      AboveSplits(t, v);
      if !rs[0].Greater(v) {
        forall a: nat | 1 <= a < |rs| ensures !rs[a].Greater(v) {
          assert InOrder(rs, 0, a);
          GreaterIsStrictTotalOrder(rs[a], v, rs[0]);
          GreaterIsStrictTotalOrder(v, rs[0], rs[a]);
        }
        if |t| > 0 { assert !t[0].Greater(v); }
      }
      forall a: nat | a < |rs| ensures rs[a].Greater(v) <==> a < Above(rs, v) {
        if a > 0 { assert rs[a] == t[a - 1]; }
      }
    }
  }

  /** A row put behind the greater ones keeps the list descending. */
  lemma InsertDescending(rs: seq<Rank>, v: Rank)
    requires Descending(rs)
    ensures Descending(rs[..Above(rs, v)] + [v] + rs[Above(rs, v)..])
  {
    var c := Above(rs, v);
    AboveSplits(rs, v);
    var s := rs[..c] + [v] + rs[c..];
    forall a: nat, b: nat | a < b < |s| ensures InOrder(s, a, b) {
      if b == c {
        GreaterIsStrictTotalOrder(s[a], v, s[a]);
      } else if a != c {
        assert InOrder(rs, if a < c then a else a - 1, if b < c then b else b - 1);
      }
    }
  }
}
