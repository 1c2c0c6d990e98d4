/** The common ranking list: a key table and a skip list that share the same rows. */
module RankList {
  import opened SeqEdit
  import opened SkipLevels
  import opened RankItems
  import opened Skiplists

  /** A table of rows files each row under its own key. */
  ghost predicate Keyed(m: map<int, Rank>) {
    forall k :: k in m ==> m[k].playerId == k
  }

  /** `rs` shows exactly the rows of `m`, each once, in ranking order. */
  ghost predicate Ranking(m: map<int, Rank>, rs: seq<Rank>) {
    && Keyed(m)
    && Descending(rs)
    && (forall a {:trigger rs[a]} :: 0 <= a < |rs| ==> rs[a].playerId in m && m[rs[a].playerId] == rs[a])
    && (forall k :: k in m ==> m[k] in rs)
    && (forall a, b :: 0 <= a < b < |rs| ==> rs[a] != rs[b])
  }

  /** The keys whose row has a higher value than `v`, or as high a one and is older, or is as old with a smaller id. */
  ghost function Ahead(m: map<int, Rank>, v: Rank): set<int> {
    set k | k in m && (m[k].value > v.value || (m[k].value == v.value && (m[k].updateTime < v.updateTime ||
                       (m[k].updateTime == v.updateTime && m[k].playerId < v.playerId))))
  }

  lemma AboveOfMember(rs: seq<Rank>, a: nat)
    requires Descending(rs) && a < |rs| && forall b, c :: 0 <= b < c < |rs| ==> rs[b] != rs[c]
    ensures Above(rs, rs[a]) == a
  {
    AboveSplits(rs, rs[a]);
    assert !rs[a].Greater(rs[a]);
    if a > 0 {
      assert InOrder(rs, a - 1, a) && rs[a - 1] != rs[a];
      GreaterIsStrictTotalOrder(rs[a - 1], rs[a], rs[a]);
    }
  }

  lemma {:induction false} CountKeys(rs: seq<Rank>, n: nat) returns (ks: set<int>)
    requires n <= |rs| && forall a, b :: 0 <= a < b < |rs| ==> rs[a].playerId != rs[b].playerId
    ensures ks == (set a | 0 <= a < n :: rs[a].playerId) && |ks| == n
  {
    if n == 0 {
      ks := {};
    } else {
      var ks0 := CountKeys(rs, n - 1);
      ks := ks0 + {rs[n - 1].playerId};
    }
  }

  /** The place of a row is the number of rows ahead of it by value, time and id. */
  lemma RankCountsAhead(m: map<int, Rank>, rs: seq<Rank>, a: nat)
    requires Ranking(m, rs) && a < |rs|
    ensures |Ahead(m, rs[a])| == a
  {
    DistinctKeys(m, rs);
    AboveOfMember(rs, a);
    AboveSplits(rs, rs[a]);
    var ks := CountKeys(rs, a);
    forall k ensures k in ks <==> k in Ahead(m, rs[a]) {
      if k in Ahead(m, rs[a]) {
        var b :| 0 <= b < |rs| && rs[b] == m[k];
        assert b < a;
      }
    }
    assert ks == Ahead(m, rs[a]);
  }

  lemma DistinctKeys(m: map<int, Rank>, rs: seq<Rank>)
    requires Ranking(m, rs)
    ensures forall a, b :: 0 <= a < b < |rs| ==> rs[a].playerId != rs[b].playerId
  {
  }

  /** Down a ranking values never rise, at equal values times never fall, and at equal times ids rise. */
  lemma HigherValuesFirst(m: map<int, Rank>, rs: seq<Rank>, a: nat, b: nat)
    requires Ranking(m, rs) && a < b < |rs|
    ensures rs[a].value >= rs[b].value
    ensures rs[a].value == rs[b].value ==> rs[a].updateTime <= rs[b].updateTime
    ensures rs[a].value == rs[b].value && rs[a].updateTime == rs[b].updateTime ==> rs[a].playerId < rs[b].playerId
  {
    assert InOrder(rs, a, b) && rs[a] != rs[b];
    GreaterOnFields(rs[b], rs[a]);
    DistinctKeys(m, rs);
  }

  /** The ranking has as many rows as the table. */
  lemma RankingLength(m: map<int, Rank>, rs: seq<Rank>)
    requires Ranking(m, rs)
    ensures |rs| == |m|
  {
    DistinctKeys(m, rs);
    var ks := CountKeys(rs, |rs|);
    forall k ensures k in ks <==> k in m.Keys {
      if k in m {
        var b :| 0 <= b < |rs| && rs[b] == m[k];
      }
    }
    assert ks == m.Keys;
  }

  /** A table has only one ranking: what is shown does not depend on the updates that led to it. */
  lemma RankingIsUnique(m: map<int, Rank>, rs: seq<Rank>, rs': seq<Rank>)
    requires Ranking(m, rs) && Ranking(m, rs')
    ensures rs == rs'
  {
    RankingLength(m, rs);
    RankingLength(m, rs');
    forall a | 0 <= a < |rs| ensures rs[a] == rs'[a] {
      RankCountsAhead(m, rs, a);
      var b :| 0 <= b < |rs'| && rs'[b] == rs[a];
      RankCountsAhead(m, rs', b);
    }
  }

  /** No row object is listed twice. */
  ghost predicate NoRepeats(items: seq<PlayerRankItem>) {
    forall a, b {:trigger RowsApart(items, a, b)} :: 0 <= a < b < |items| ==> RowsApart(items, a, b)
  }

  ghost predicate RowsApart(items: seq<PlayerRankItem>, a: nat, b: nat)
    requires a < |items| && b < |items|
  {
    items[a] != items[b]
  }

  lemma SameRow(items: seq<PlayerRankItem>, a: nat, b: nat)
    requires NoRepeats(items) && a < |items| && b < |items| && items[a] == items[b]
    ensures a == b
  {
    assert a < b ==> RowsApart(items, a, b);
    assert b < a ==> RowsApart(items, b, a);
  }

  type Files = map<int, PlayerRankItem>

  /** The two indexes hold the same row objects, one for each key. */
  ghost predicate Shared(m: Files, items: seq<PlayerRankItem>)
    reads items
  {
    && (forall k :: k in m ==> m[k] in items && m[k].playerId == k)
    && (forall a {:trigger items[a]} :: 0 <= a < |items| ==> items[a].playerId in m && m[items[a].playerId] == items[a])
    && NoRepeats(items)
  }

  /** The indexes agree on every key but `key`, whose row is in no list. */
  ghost predicate SharedBut(m: Files, key: int, items: seq<PlayerRankItem>)
    reads items
  {
    && (forall k :: k in m && k != key ==> m[k] in items && m[k].playerId == k)
    && (forall a {:trigger items[a]} :: 0 <= a < |items| ==>
          items[a].playerId != key && items[a].playerId in m && m[items[a].playerId] == items[a])
    && NoRepeats(items)
  }

  lemma SharedAfterRemove(m: Files, items: seq<PlayerRankItem>, a: nat, key: int)
    requires Shared(m, items) && a < |items| && key in m && items[a] == m[key]
    ensures SharedBut(m, key, RemoveAt(items, a)) && m[key] !in RemoveAt(items, a)
  {
    var items' := RemoveAt(items, a);
    forall b: nat, c: nat | b < c < |items'| ensures RowsApart(items', b, c) {
      assert RowsApart(items, if b < a then b else b + 1, if c < a then c else c + 1);
    }
    forall b | 0 <= b < |items'| ensures items'[b] != m[key] {
      assert b < a ==> RowsApart(items, b, a);
      assert b >= a ==> RowsApart(items, a, b + 1);
    }
    forall k | k in m && k != key ensures m[k] in items' {
      var b :| 0 <= b < |items| && items[b] == m[k];
      assert items'[if b < a then b else b - 1] == m[k];
    }
  }

  lemma SharedAfterInsert(m: Files, items: seq<PlayerRankItem>, c: nat, key: int, item: PlayerRankItem)
    requires SharedBut(m, key, items) && c <= |items| && item.playerId == key && item !in items
    ensures Shared(m[key := item], InsertAt(items, c, item))
  {
    var items', m' := InsertAt(items, c, item), m[key := item];
    forall a: nat, b: nat | a < b < |items'| ensures RowsApart(items', a, b) {
      if a != c && b != c {
        assert RowsApart(items, if a < c then a else a - 1, if b < c then b else b - 1);
      }
    }
    forall k | k in m' ensures m'[k] in items' {
      if k == key {
        assert items'[c] == item;
      } else {
        var b :| 0 <= b < |items| && items[b] == m[k];
        assert items'[if b < c then b else b + 1] == m[k];
      }
    }
  }

  class CommonRankingList {
    var rankingItems: Skiplist
    var key2item: map<int, PlayerRankItem>
    var maxRank: int

    /** The rows on file, by key. */
    ghost function Table(): map<int, Rank>
      reads this, key2item.Values
    {
      map k | k in key2item :: key2item[k].Snap()
    }

    /** The rows in ranking order. */
    ghost function Shown(): seq<Rank>
      reads this, rankingItems, rankingItems.items
    {
      Ranks(rankingItems.items)
    }

    ghost predicate Valid()
      reads this, rankingItems, rankingItems.nodes, rankingItems.items
    {
      rankingItems.Valid() && Shared(key2item, rankingItems.items)
    }

    constructor (maxRank: int)
      ensures Valid() && Table() == map[] && Shown() == [] && this.maxRank == maxRank
      ensures fresh(rankingItems) && fresh(rankingItems.nodes)
    {
      rankingItems := new Skiplist();
      key2item := map[];
      this.maxRank := maxRank;
    }

    /** The invariant, read as values: what is shown is the ranking of the table. */
    lemma ShownIsRanking()
      requires Valid()
      ensures Ranking(Table(), Shown())
      ensures |Shown()| == |key2item|
    {
      var items, rs := rankingItems.items, Shown();
      forall a, b | 0 <= a < b < |rs| ensures rs[a] != rs[b] {
        assert RowsApart(items, a, b);
      }
      forall k | k in Table() ensures Table()[k] in rs {
        var a :| 0 <= a < |items| && items[a] == key2item[k];
        assert rs[a] == Table()[k];
      }
      RankingLength(Table(), rs);
      assert Table().Keys == key2item.Keys;
    }

    /** A filed row stands right behind the rows greater than itself. */
    lemma PositionOf(key: int) returns (a: nat)
      requires Valid() && key in key2item
      ensures a < |rankingItems.items| && rankingItems.items[a] == key2item[key]
      ensures Above(Shown(), key2item[key].Snap()) == a
    {
      var items := rankingItems.items;
      a :| a < |items| && items[a] == key2item[key];
      ShownIsRanking();
      AboveOfMember(Shown(), a);
    }

    /** Unlinks the row of a key from the list; the key table keeps it. */
    method UnlinkKey(key: int) returns (ok: bool, ghost a: nat)
      requires Valid()
      modifies rankingItems, rankingItems.nodes
      ensures rankingItems.Valid() && ok == (key in key2item)
      ensures ok ==> a + 1 < |old(rankingItems.nodes)| && rankingItems.nodes == RemoveAt(old(rankingItems.nodes), a + 1)
      ensures if ok then SharedBut(key2item, key, rankingItems.items) && key2item[key] !in rankingItems.items
              else rankingItems.items == old(rankingItems.items)
      ensures forall x :: x in rankingItems.items ==> x in old(rankingItems.items)
    {
      a := 0;
      if key !in key2item {
        return false, a;
      }
      a := PositionOf(key);
      SharedAfterRemove(key2item, rankingItems.items, a, key);
      RemoveMembers(rankingItems.items, a);
      ok := UnlinkRow(key2item[key], a);
    }

    method UnlinkRow(row: PlayerRankItem, ghost a: nat) returns (ok: bool)
      requires rankingItems.Valid() && a < |rankingItems.items| && rankingItems.items[a] == row
      requires Above(Shown(), row.Snap()) == a
      modifies rankingItems, rankingItems.nodes
      ensures ok && rankingItems.Valid() && rankingItems.items == RemoveAt(old(rankingItems.items), a)
      ensures a + 1 < |old(rankingItems.nodes)| && rankingItems.nodes == RemoveAt(old(rankingItems.nodes), a + 1)
    {
      ok := rankingItems.Delete(row);
    }

    method LinkRow(item: PlayerRankItem, newLayer: nat)
      requires rankingItems.Valid() && 1 <= newLayer <= MAX_SKIPLIST_LAYER
      modifies rankingItems, rankingItems.nodes
      ensures rankingItems.Valid()
      ensures rankingItems.items == InsertAt(old(rankingItems.items), Above(old(Shown()), old(item.Snap())), item)
      ensures forall n :: n in rankingItems.nodes ==> n in old(rankingItems.nodes) || fresh(n)
      ensures forall x :: x in rankingItems.items ==> x in old(rankingItems.items) || x == item
    {
      ghost var nodes, c := rankingItems.nodes, Above(Shown(), item.Snap());
      InsertMembers(rankingItems.items, c, item);
      var _ := rankingItems.Insert(item, newLayer);
      InsertMembers(nodes, c + 1, rankingItems.nodes[c + 1]);
    }

    /** Links a row that is in no list, and files it under its key. */
    method LinkKey(key: int, item: PlayerRankItem, newLayer: nat)
      requires rankingItems.Valid() && SharedBut(key2item, key, rankingItems.items)
      requires item.playerId == key && item !in rankingItems.items && 1 <= newLayer <= MAX_SKIPLIST_LAYER
      modifies `key2item, rankingItems, rankingItems.nodes
      ensures Valid() && key2item == old(key2item)[key := item]
      ensures forall n :: n in rankingItems.nodes ==> n in old(rankingItems.nodes) || fresh(n)
      ensures forall x :: x in rankingItems.items ==> x in old(rankingItems.items) || x == item
    {
      ghost var items, c := rankingItems.items, Above(Shown(), item.Snap());
      LinkRow(item, newLayer);
      SharedAfterInsert(key2item, items, c, key, item);
      key2item := key2item[key := item];
    }

    /** Stores a row's newest value: the shared row is rewritten only while no list holds it. */
    method Update(item: PlayerRankItem, newLayer: nat) returns (ok: bool)
      requires Valid() && item !in key2item.Values && 1 <= newLayer <= MAX_SKIPLIST_LAYER
      modifies `key2item, rankingItems, rankingItems.nodes, rankingItems.items
      ensures Valid() && ok
      ensures Table() == old(Table())[item.playerId := old(item.Snap())]
      ensures forall n :: n in rankingItems.nodes ==> n in old(rankingItems.nodes) || fresh(n)
      ensures forall x :: x in rankingItems.items ==> x in old(rankingItems.items) || fresh(x)
    {
      var key := item.playerId;
      if key in key2item {
        assert forall k :: k in key2item && k != key ==> key2item[k] != key2item[key];
        ok := Refile(key, item, newLayer);
      } else {
        FileNew(key, item, newLayer);
        ok := true;
      }
    }

    method FileNew(key: int, item: PlayerRankItem, newLayer: nat)
      requires Valid() && key == item.playerId && key !in key2item && 1 <= newLayer <= MAX_SKIPLIST_LAYER
      modifies `key2item, rankingItems, rankingItems.nodes
      ensures Valid() && key in key2item && key2item == old(key2item)[key := key2item[key]]
      ensures key2item[key].Snap() == item.Snap()
      ensures forall n :: n in rankingItems.nodes ==> n in old(rankingItems.nodes) || fresh(n)
      ensures forall x :: x in rankingItems.items ==> x in old(rankingItems.items) || fresh(x)
    {
      var newItem := new PlayerRankItem(Rank(0, 0, 0));
      newItem.Assign(item);
      LinkKey(key, newItem, newLayer);
    }

    /** Takes a filed row out of the list and rewrites it there, where no order depends on it. */
    method Rewrite(key: int, item: PlayerRankItem) returns (ok: bool, ghost a: nat)
      requires Valid() && item !in key2item.Values && key == item.playerId && key in key2item
      modifies rankingItems, rankingItems.nodes, key2item[key]
      ensures ok && rankingItems.Valid() && SharedBut(key2item, key, rankingItems.items)
      ensures key2item[key] !in rankingItems.items && key2item[key].Snap() == old(item.Snap())
      ensures a + 1 < |old(rankingItems.nodes)| && rankingItems.nodes == RemoveAt(old(rankingItems.nodes), a + 1)
      ensures forall n :: n in rankingItems.nodes ==> n in old(rankingItems.nodes)
      ensures forall x :: x in rankingItems.items ==> x in old(rankingItems.items)
    {
      ok, a := UnlinkKey(key);
      RemoveMembers(old(rankingItems.nodes), a + 1);
      if !ok {
        return;
      }
      key2item[key].Assign(item);
    }

    method Refile(key: int, item: PlayerRankItem, newLayer: nat) returns (ok: bool)
      requires Valid() && item !in key2item.Values && 1 <= newLayer <= MAX_SKIPLIST_LAYER
      requires key == item.playerId && key in key2item
      modifies `key2item, rankingItems, rankingItems.nodes, key2item[key]
      ensures Valid() && ok && key2item == old(key2item) && key2item[key].Snap() == old(item.Snap())
      ensures forall n :: n in rankingItems.nodes ==> n in old(rankingItems.nodes) || fresh(n)
      ensures forall x :: x in rankingItems.items ==> x in old(rankingItems.items)
    {
      var oldItem := key2item[key];
      ghost var a;
      ok, a := Rewrite(key, item);
      if !ok {
        return;
      }
      LinkKey(key, oldItem, newLayer);
      assert key2item == old(key2item);
    }

    method GetLength() returns (n: int)
      requires Valid()
      ensures n == |Table()| == |Shown()|
    {
      ShownIsRanking();
      RankingLength(Table(), Shown());
      n := rankingItems.currLength;
    }

    /** The rank of a key: one more than the number of keys ahead of it by value, time and id, 0 for an unknown
        key. */
    method GetRank(key: int) returns (rank: int)
      requires Valid()
      ensures key !in Table() ==> rank == 0
      ensures key in Table() ==> rank == 1 + |Ahead(Table(), Table()[key])|
      ensures key in Table() ==> rank <= |Shown()| && Shown()[rank - 1] == Table()[key]
    {
      if key !in key2item {
        return 0;
      }
      ghost var a := PositionOf(key);
      rank := rankingItems.GetRank(key2item[key]);
      RankAtPosition(key, a, rank);
      ShownIsRanking();
      RankCountsAhead(Table(), Shown(), a);
    }

    /** A filed row's own tower is never hidden, so the search finds it at its position. */
    lemma RankAtPosition(key: int, a: nat, rank: int)
      requires Valid() && key in key2item
      requires a < |rankingItems.items| && rankingItems.items[a] == key2item[key]
      requires rankingItems.RankFound(key2item[key], a, rank)
      ensures rank == a + 1
    {
      var items := rankingItems.items;
      assert Visible(rankingItems.hs, a + 1, a + 1);
      assert items[a].playerId == key2item[key].playerId;
      if rank > 0 {
        SameRow(items, rank - 1, a);
      }
    }

    /** A copy of the row at a rank. */
    method GetByRank(rank: int) returns (copy: PlayerRankItem?)
      requires Valid()
      ensures copy != null <==> 1 <= rank <= |Shown()|
      ensures copy != null ==> fresh(copy) && copy.Snap() == Shown()[rank - 1]
    {
      var item := rankingItems.GetByRank(rank);
      if item == null {
        return null;
      }
      copy := new PlayerRankItem(Rank(0, 0, 0));
      copy.Assign(item);
    }

    /** A copy of the row of a key. */
    method GetByKey(key: int) returns (copy: PlayerRankItem?)
      requires Valid()
      ensures copy != null <==> key in Table()
      ensures copy != null ==> fresh(copy) && copy.Snap() == Table()[key]
    {
      if key !in key2item {
        return null;
      }
      copy := new PlayerRankItem(Rank(0, 0, 0));
      copy.Assign(key2item[key]);
    }

    /** The highest values are shown first, whatever updates led there. */
    lemma ShownByValue(a: nat, b: nat)
      requires Valid() && a < b < |Shown()|
      ensures var r, q := Shown()[a], Shown()[b];
        && r.value >= q.value
        && (r.value == q.value ==> r.updateTime <= q.updateTime)
        && (r.value == q.value && r.updateTime == q.updateTime ==> r.playerId < q.playerId)
    {
      ShownIsRanking();
      HigherValuesFirst(Table(), Shown(), a, b);
    }

    /** How many rows a page request may show. */
    function PageSize(length: int, rankStart: int, rankNum: int): int
      reads `maxRank
    {
      if rankStart <= 0 || rankStart > maxRank || rankStart > length then 0
      else if length - rankStart + 1 < rankNum then length - rankStart + 1
      else rankNum
    }

    /** A page shows the ranks asked for that the ranking has, and none if it starts below 1, past the ranking or past
        the highest rank that may be asked for. */
    lemma PageShows(length: nat, rankStart: int, rankNum: int, r: int)
      ensures rankStart <= r < rankStart + PageSize(length, rankStart, rankNum) <==>
              1 <= rankStart <= maxRank && rankStart <= r < rankStart + rankNum && r <= length
      ensures PageSize(length, rankStart, rankNum) < 0 <==>
              1 <= rankStart <= maxRank && rankStart <= length && rankNum < 0
    {
    }

    /** Copies a page of the ranking into the caller's rows. Asked for fewer than no rows of a page there is, it panics
        when it makes room for them. */
    method GetRangeNodes(rankStart: int, rankNum: int, out: seq<PlayerRankItem>) returns (panicked: bool, num: int)
      requires Valid() && PageSize(|Shown()|, rankStart, rankNum) <= |out| && NoRepeats(out)
      requires forall x :: x in out ==> x !in rankingItems.items
      modifies out
      ensures panicked <==> PageSize(|old(Shown())|, rankStart, rankNum) < 0
      ensures num == if panicked then 0 else PageSize(|old(Shown())|, rankStart, rankNum)
      ensures forall j :: 0 <= j < num ==> out[j].Snap() == old(Shown())[rankStart - 1 + j]
      ensures forall j :: num <= j < |out| ==> out[j].Snap() == old(out[j].Snap())
    {
      panicked, num := false, 0;
      if rankStart <= 0 || rankStart > maxRank {
        return;
      }
      ShownIsRanking();
      if rankStart > |key2item| {
        return;
      }
      var n := rankNum;
      if |key2item| - rankStart + 1 < n {
        n := |key2item| - rankStart + 1;
      }
      if n < 0 {
        panicked := true;
        return;
      }
      var items := new PlayerRankItem?[n](_ => null);
      var ok := rankingItems.GetByRankRange(rankStart, n, items);
      if !ok {
        return;
      }
      num := CopyPage(items, n, out, rankStart);
    }

    method CopyPage(items: array<PlayerRankItem?>, n: nat, out: seq<PlayerRankItem>, ghost rankStart: nat)
      returns (num: int)
      requires rankStart > 0 && rankStart - 1 + n <= |rankingItems.items| && n <= items.Length && n <= |out| &&
               NoRepeats(out)
      requires forall j :: 0 <= j < n ==> items[j] == rankingItems.items[rankStart - 1 + j]
      requires forall x :: x in out ==> x !in rankingItems.items
      modifies out
      ensures num == n
      ensures forall j :: 0 <= j < n ==> out[j].Snap() == old(Shown())[rankStart - 1 + j]
      ensures forall j :: n <= j < |out| ==> out[j].Snap() == old(out[j].Snap())
    {
      num := 0;
      for i := 0 to n
        invariant num == i
        invariant Shown() == old(Shown())
        invariant forall j :: 0 <= j < i ==> out[j].Snap() == old(Shown())[rankStart - 1 + j]
        invariant forall j :: i <= j < |out| ==> out[j].Snap() == old(out[j].Snap())
      {
        var item := items[i];
        if item == null {
          continue;
        }
        forall j | 0 <= j < |out| && j != i ensures out[j] != out[i] {
          if out[j] == out[i] { SameRow(out, j, i); }
        }
        assert out[i] in out && out[i] !in rankingItems.items;
        out[i].Assign(item);
        assert forall a :: 0 <= a < |rankingItems.items| ==> rankingItems.items[a] != out[i];
        num := num + 1;
      }
    }
  }
}
