/** Pure arithmetic of an indexable skip list: a list of tower heights decides,
    layer by layer, which tower follows which, and how many steps apart they are. */
module SkipLevels {
  import opened SeqEdit

  /** The position of the first tower after `p` that reaches layer `i`, or the length. */
  function Next(hs: seq<nat>, p: nat, i: nat): (q: nat)
    requires p < |hs|
    ensures p < q <= |hs|
    ensures q < |hs| ==> hs[q] > i
    decreases |hs| - p
  {
    if p + 1 == |hs| then |hs| else if hs[p + 1] > i then p + 1 else Next(hs, p + 1, i)
  }

  /** The position of the last tower before `p` that reaches layer `i`. */
  function Prev(hs: seq<nat>, p: nat, i: nat): (q: nat)
    requires 0 < p <= |hs| && hs[0] > i
    ensures q < p && hs[q] > i
  {
    if hs[p - 1] > i then p - 1 else Prev(hs, p - 1, i)
  }

  lemma {:induction false} NextSkips(hs: seq<nat>, p: nat, i: nat, r: nat)
    requires p < r < |hs| && r < Next(hs, p, i)
    ensures hs[r] <= i
    decreases r - p
  {
    if p + 1 < r { NextSkips(hs, p + 1, i, r); }
  }

  lemma {:induction false} PrevSkips(hs: seq<nat>, p: nat, i: nat, r: nat)
    requires 0 < p <= |hs| && hs[0] > i && Prev(hs, p, i) < r < p
    ensures hs[r] <= i
    decreases p - r
  {
    if r + 1 < p { PrevSkips(hs, p - 1, i, r); }
  }

  lemma NextUnique(hs: seq<nat>, p: nat, i: nat, q: nat)
    requires p < q <= |hs|
    requires q < |hs| ==> hs[q] > i
    requires forall r :: p < r < q ==> hs[r] <= i
    ensures Next(hs, p, i) == q
  {
    if q < Next(hs, p, i) { NextSkips(hs, p, i, q); }
  }

  lemma PrevUnique(hs: seq<nat>, p: nat, i: nat, q: nat)
    requires 0 < p <= |hs| && hs[0] > i
    requires q < p && hs[q] > i
    requires forall r :: q < r < p ==> hs[r] <= i
    ensures Prev(hs, p, i) == q
  {
    if Prev(hs, p, i) < q { PrevSkips(hs, p, i, q); }
  }

  /** Putting a tower of height `h` at position `k` moves each successor by at most one. */
  lemma NextInsert(hs: seq<nat>, k: nat, h: nat, p: nat, i: nat)
    requires k <= |hs| && p < |hs|
    ensures p < k ==> Next(InsertAt(hs, k, h), p, i) ==
                        var q := Next(hs, p, i); if q < k then q else if h > i then k else q + 1
    ensures k <= p ==> Next(InsertAt(hs, k, h), p + 1, i) == Next(hs, p, i) + 1
  {
    var hs' := InsertAt(hs, k, h);
    var q := Next(hs, p, i);
    forall r | p < r < q ensures hs[r] <= i { NextSkips(hs, p, i, r); }
    if k <= p {
      assert forall r :: p + 1 < r < q + 1 ==> hs'[r] == hs[r - 1];
      NextUnique(hs', p + 1, i, q + 1);
    } else if q < k {
      NextUnique(hs', p, i, q);
    } else if h > i {
      NextUnique(hs', p, i, k);
    } else {
      assert forall r :: k < r < q + 1 ==> hs'[r] == hs[r - 1];
      NextUnique(hs', p, i, q + 1);
    }
  }

  lemma PrevInsert(hs: seq<nat>, k: nat, h: nat, p: nat, i: nat)
    requires 0 < k <= |hs| && 0 < p <= |hs| && hs[0] > i
    ensures p <= k ==> Prev(InsertAt(hs, k, h), p, i) == Prev(hs, p, i)
    ensures k <= p ==> Prev(InsertAt(hs, k, h), p + 1, i) ==
                         var q := Prev(hs, p, i); if q >= k then q + 1 else if h > i then k else q
  {
    var hs' := InsertAt(hs, k, h);
    var q := Prev(hs, p, i);
    forall r | q < r < p ensures hs[r] <= i { PrevSkips(hs, p, i, r); }
    if p <= k {
      PrevUnique(hs', p, i, q);
    }
    if k <= p {
      assert forall r :: k < r < p + 1 ==> hs'[r] == hs[r - 1];
      PrevUnique(hs', p + 1, i, if q >= k then q + 1 else if h > i then k else q);
    }
  }

  /** Only the last tower before `k` on a layer has its successor at or behind `k`. */
  lemma NextOfPrev(hs: seq<nat>, p: nat, k: nat, i: nat)
    requires 0 < k <= |hs| && p < k && hs[0] > i && hs[p] > i
    ensures Next(hs, p, i) >= k <==> p == Prev(hs, k, i)
  {
    var b, q := Prev(hs, k, i), Next(hs, p, i);
    if b < p { PrevSkips(hs, k, i, p); }
    if p < b < q { NextSkips(hs, p, i, b); }
    if p == b && q < k { PrevSkips(hs, k, i, q); }
  }

  lemma NextOfPrevAt(hs: seq<nat>, k: nat, i: nat)
    requires 0 < k < |hs| && hs[0] > i && hs[k] > i
    ensures Next(hs, Prev(hs, k, i), i) == k
  {
    var b := Prev(hs, k, i);
    forall r | b < r < k ensures hs[r] <= i { PrevSkips(hs, k, i, r); }
    NextUnique(hs, b, i, k);
  }

  lemma PrevOfNext(hs: seq<nat>, p: nat, i: nat)
    requires p < |hs| && hs[0] > i && hs[p] > i && Next(hs, p, i) < |hs|
    ensures Prev(hs, Next(hs, p, i), i) == p
  {
    var q := Next(hs, p, i);
    forall r | p < r < q ensures hs[r] <= i { NextSkips(hs, p, i, r); }
    PrevUnique(hs, q, i, p);
  }

  /** The tower behind `k` whose predecessor lies before `k` is the successor of that predecessor. */
  lemma NextIsFirstBehind(hs: seq<nat>, k: nat, p: nat, i: nat)
    requires 0 < k <= p < |hs| && hs[0] > i && hs[p] > i
    ensures Next(hs, Prev(hs, k, i), i) == p <==> Prev(hs, p, i) < k
    ensures Prev(hs, p, i) < k ==> Prev(hs, p, i) == Prev(hs, k, i)
  {
    var q := Prev(hs, p, i);
    var b := Prev(hs, k, i);
    NextOfPrevAt(hs, p, i);
    if q < k {
      NextOfPrev(hs, q, k, i);
    } else if Next(hs, b, i) > q {
      NextSkips(hs, b, i, q);
    }
  }

  /** The inserted tower is followed by what its predecessor was followed by. */
  lemma NextOfInserted(hs: seq<nat>, k: nat, h: nat, i: nat)
    requires 0 < k <= |hs| && hs[0] > i && h > i
    ensures Next(InsertAt(hs, k, h), k, i) == Next(hs, Prev(hs, k, i), i) + 1
  {
    var b, hs' := Prev(hs, k, i), InsertAt(hs, k, h);
    var q := Next(hs, b, i);
    NextOfPrev(hs, b, k, i);
    forall r | k < r < q + 1 ensures hs'[r] <= i { NextSkips(hs, b, i, r - 1); }
    NextUnique(hs', k, i, q + 1);
  }

  /** Among the towers behind the head, an insertion adds its height and nothing else. */
  lemma InsertCount(hs: seq<nat>, k: nat, h: nat)
    requires 0 < k <= |hs|
    ensures multiset(InsertAt(hs, k, h)[1..]) == multiset(hs[1..]) + multiset{h}
  {
    assert hs[1..] == hs[1..k] + hs[k..];
    assert InsertAt(hs, k, h)[1..] == hs[1..k] + [h] + hs[k..];
  }

  /** Among the towers behind the head, a removal takes one away of its height. */
  lemma RemoveCount(hs: seq<nat>, k: nat)
    requires 0 < k < |hs|
    ensures multiset(hs[1..]) == multiset(RemoveAt(hs, k)[1..]) + multiset{hs[k]}
  {
    assert hs[1..] == hs[1..k] + [hs[k]] + hs[k + 1..];
    assert RemoveAt(hs, k)[1..] == hs[1..k] + hs[k + 1..];
  }

  /** Tower `m` is the first one at or behind position `k` on some layer: every tower from `k` up to
      it is lower. */
  ghost predicate Visible(hs: seq<nat>, k: nat, m: nat) {
    k <= m < |hs| && hs[m] > 0 && forall t :: k <= t < m ==> hs[t] < hs[m]
  }

  lemma VisibleIsFirst(hs: seq<nat>, k: nat, m: nat)
    requires 0 < k <= m < |hs| && hs[0] >= hs[m]
    ensures Visible(hs, k, m) ==> Next(hs, Prev(hs, k, hs[m] - 1), hs[m] - 1) == m
  {
    if Visible(hs, k, m) {
      var i := hs[m] - 1;
      var b := Prev(hs, k, i);
      forall r | b < r < m ensures hs[r] <= i {
        if r < k { PrevSkips(hs, k, i, r); }
      }
      NextUnique(hs, b, i, m);
    }
  }

  lemma FirstIsVisible(hs: seq<nat>, k: nat, i: nat)
    requires 0 < k <= |hs| && hs[0] > i && Next(hs, Prev(hs, k, i), i) < |hs|
    ensures Visible(hs, k, Next(hs, Prev(hs, k, i), i))
  {
    var b := Prev(hs, k, i);
    var m := Next(hs, b, i);
    NextOfPrev(hs, b, k, i);
    forall t | k <= t < m ensures hs[t] < hs[m] { NextSkips(hs, b, i, t); }
  }
}
