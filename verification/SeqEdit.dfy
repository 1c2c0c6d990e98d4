/** One element put into, or taken out of, a sequence. */
module SeqEdit {

  function InsertAt<T>(s: seq<T>, k: nat, x: T): (r: seq<T>)
    requires k <= |s|
    ensures |r| == |s| + 1 && r[k] == x
    ensures forall p {:trigger r[p]} :: 0 <= p < |r| ==> r[p] == if p < k then s[p] else if p == k then x else s[p - 1]
  {
    s[..k] + [x] + s[k..]
  }

  function RemoveAt<T>(s: seq<T>, k: nat): (r: seq<T>)
    requires k < |s|
    ensures |r| == |s| - 1
    ensures forall p {:trigger r[p]} :: 0 <= p < |r| ==> r[p] == if p < k then s[p] else s[p + 1]
  {
    s[..k] + s[k + 1..]
  }

  lemma RemoveThenInsert<T>(s: seq<T>, k: nat)
    requires k < |s|
    ensures InsertAt(RemoveAt(s, k), k, s[k]) == s
  {
  }

  lemma InsertMembers<T>(s: seq<T>, k: nat, x: T)
    requires k <= |s|
    ensures forall y :: y in InsertAt(s, k, x) ==> y in s || y == x
  {
  }

  lemma RemoveMembers<T>(s: seq<T>, k: nat)
    requires k < |s|
    ensures forall x :: x in RemoveAt(s, k) ==> x in s
  {
  }

  lemma Assoc<T>(a: seq<T>, b: seq<T>, c: seq<T>)
    ensures (a + b) + c == a + (b + c)
  {
  }

  lemma HasMember(s: set<int>)
    ensures s == {} || exists x :: x in s
  {
    if forall x :: x !in s {
      assert s == {};
    }
  }

  lemma RemovalTakesOne<T>(s: seq<T>, k: nat)
    requires k < |s|
    ensures multiset(s) == multiset(RemoveAt(s, k)) + multiset{s[k]}
  {
    assert s == s[..k] + [s[k]] + s[k + 1..];
  }
}
