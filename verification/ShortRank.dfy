/** A short ranking kept in an array, with a map from keys to places in it. */
module ShortRank {
  import opened SeqEdit

  /** A row at one moment. */
  datatype Score = Score(id: int, value: int)

  class ShortRankItem {
    var id: int
    var value: int

    constructor ()
      ensures id == 0 && value == 0
    {
      id, value := 0, 0;
    }

    function Snap(): Score
      reads this
    {
      Score(id, value)
    }

    method Assign(item: ShortRankItem)
      modifies this
      ensures Snap() == old(item.Snap())
    {
      id := item.id;
      value := item.value;
    }

    method Add(item: ShortRankItem)
      modifies this
      ensures Snap() == Score(old(id), old(value) + if old(id == item.id) then old(item.value) else 0)
    {
      if id == item.id {
        value := value + item.value;
      }
    }
  }

  predicate NotBelow(board: seq<Score>, u: nat, w: nat)
    requires u < |board| && w < |board|
  {
    board[u].value >= board[w].value
  }

  /** Higher values first. */
  predicate Descending(board: seq<Score>) {
    forall u: nat, w: nat {:trigger NotBelow(board, u, w)} :: u < w < |board| ==> NotBelow(board, u, w)
  }

  predicate RowMapped(places: map<int, int>, board: seq<Score>, u: nat)
    requires u < |board|
  {
    board[u].id in places && places[board[u].id] == u
  }

  predicate KeyListed(places: map<int, int>, board: seq<Score>, key: int)
    requires key in places
  {
    0 <= places[key] < |board| && board[places[key]].id == key
  }

  /** The map gives the place of every key listed, and of no other. */
  ghost predicate Inverse(places: map<int, int>, board: seq<Score>) {
    && (forall u: nat {:trigger RowMapped(places, board, u)} :: u < |board| ==> RowMapped(places, board, u))
    && (forall key {:trigger KeyListed(places, board, key)} :: key in places ==> KeyListed(places, board, key))
  }

  /** The place of a key, or the length if it is not listed. */
  function IndexOf(board: seq<Score>, key: int): (i: nat)
    ensures i <= |board| && (i < |board| ==> board[i].id == key)
    ensures forall u :: 0 <= u < i ==> board[u].id != key
  {
    if board == [] || board[0].id == key then 0 else 1 + IndexOf(board[1..], key)
  }

  lemma PlaceIsIndex(places: map<int, int>, board: seq<Score>, key: int)
    requires Inverse(places, board)
    ensures IndexOf(board, key) < |board| <==> key in places
    ensures key in places ==> places[key] == IndexOf(board, key)
  {
    var i := IndexOf(board, key);
    if key in places { assert KeyListed(places, board, key); }
    if i < |board| { assert RowMapped(places, board, i); }
  }

  /** How many rows, from the top, have at least this value. */
  function AtLeast(board: seq<Score>, value: int): (k: nat)
    ensures k <= |board| && (k < |board| ==> board[k].value < value)
    ensures forall u :: 0 <= u < k ==> board[u].value >= value
  {
    if board == [] || board[0].value < value then 0 else 1 + AtLeast(board[1..], value)
  }

  /** A row put in its order: behind all rows that have at least its value. */
  function Placed(board: seq<Score>, s: Score): seq<Score> {
    InsertAt(board, AtLeast(board, s.value), s)
  }

  /** The value an update gives a key: with `add`, what is listed counts on top. */
  function Updated(board: seq<Score>, s: Score, add: bool): int {
    var i := IndexOf(board, s.id);
    if add && i < |board| then s.value + board[i].value else s.value
  }

  /** What an update makes of the ranking: a new row is placed if there is room, a row whose value changes is
      placed anew, and an equal value changes nothing. */
  function AfterUpdate(board: seq<Score>, maxNum: int, s: Score, add: bool): seq<Score> {
    var i := IndexOf(board, s.id);
    if i == |board| then
      if |board| >= maxNum then board else Placed(board, s)
    else
      var v := Updated(board, s, add);
      if v == board[i].value then board else Placed(RemoveAt(board, i), Score(s.id, v))
  }

  predicate Accepted(board: seq<Score>, maxNum: int, s: Score, add: bool) {
    var i := IndexOf(board, s.id);
    if i == |board| then |board| < maxNum else Updated(board, s, add) != board[i].value
  }

  function AfterDelete(board: seq<Score>, key: int): seq<Score> {
    var i := IndexOf(board, key);
    if i == |board| then board else RemoveAt(board, i)
  }

  /** Keys between two places move on by d. */
  function Shifted(places: map<int, int>, b: int, e: int, d: int): map<int, int> {
    map key | key in places :: if b <= places[key] <= e then places[key] + d else places[key]
  }

  lemma ShiftOneMore(places: map<int, int>, b: int, e: int, d: int, i: int, key: int)
    requires key in places && places[key] == i && forall k :: k in places && places[k] == i ==> k == key
    ensures i == b - 1 <= e ==> Shifted(places, b, e, d)[key := i + d] == Shifted(places, i, e, d)
    ensures i == e + 1 >= b ==> Shifted(places, b, e, d)[key := i + d] == Shifted(places, b, i, d)
  {
    var m := Shifted(places, b, e, d)[key := i + d];
    if i == b - 1 <= e {
      var m' := Shifted(places, i, e, d);
      forall k ensures k in m <==> k in m' {}
      forall k | k in m ensures m[k] == m'[k] { assert places[k] == i ==> k == key; }
    }
    if i == e + 1 >= b {
      var m' := Shifted(places, b, i, d);
      forall k ensures k in m <==> k in m' {}
      forall k | k in m ensures m[k] == m'[k] { assert places[k] == i ==> k == key; }
    }
  }

  lemma AtLeastIs(board: seq<Score>, value: int, k: nat)
    requires k <= |board| && (forall u :: 0 <= u < k ==> board[u].value >= value) &&
             (k < |board| ==> board[k].value < value)
    ensures AtLeast(board, value) == k
  {
  }

  lemma PlacedDescending(board: seq<Score>, s: Score)
    requires Descending(board)
    ensures Descending(Placed(board, s))
  {
    var after, k := Placed(board, s), AtLeast(board, s.value);
    forall u: nat, w: nat | u < w < |after| ensures NotBelow(after, u, w) {
      var u0, w0 := if u < k then u else u - 1, if w < k then w else w - 1;
      if u != k && w != k { assert NotBelow(board, u0, w0); }
      if u == k && w0 > k { assert NotBelow(board, k, w0); }
    }
  }

  lemma RemoveDescending(board: seq<Score>, i: nat)
    requires Descending(board) && i < |board|
    ensures Descending(RemoveAt(board, i))
  {
    var after := RemoveAt(board, i);
    forall u: nat, w: nat | u < w < |after| ensures NotBelow(after, u, w) {
      assert NotBelow(board, if u < i then u else u + 1, if w < i then w else w + 1);
    }
  }

  lemma InsertKeepsInverse(places: map<int, int>, board: seq<Score>, k: nat, s: Score)
    requires Inverse(places, board) && s.id !in places && k <= |board|
    ensures Inverse(Shifted(places[s.id := |board|], k, |board| - 1, 1)[s.id := k], InsertAt(board, k, s))
  {
    var m, after := Shifted(places[s.id := |board|], k, |board| - 1, 1)[s.id := k], InsertAt(board, k, s);
    forall u: nat | u < |after| ensures RowMapped(m, after, u) {
      if u != k {
        var w := if u < k then u else u - 1;
        assert RowMapped(places, board, w) && after[u] == board[w];
      }
    }
    forall key | key in m ensures KeyListed(m, after, key) {
      if key != s.id {
        assert KeyListed(places, board, key);
        assert after[if places[key] < k then places[key] else places[key] + 1] == board[places[key]];
      }
    }
  }

  lemma RemoveKeepsInverse(places: map<int, int>, board: seq<Score>, i: nat)
    requires Inverse(places, board) && i < |board|
    ensures Inverse(Shifted(places, i + 1, |board| - 1, -1) - {board[i].id}, RemoveAt(board, i))
  {
    var m, after := Shifted(places, i + 1, |board| - 1, -1) - {board[i].id}, RemoveAt(board, i);
    assert RowMapped(places, board, i);
    forall u: nat | u < |after| ensures RowMapped(m, after, u) {
      var w := if u < i then u else u + 1;
      assert RowMapped(places, board, w) && after[u] == board[w];
    }
    forall key | key in m ensures KeyListed(m, after, key) {
      var w := places[key];
      assert KeyListed(places, board, key);
      assert after[if w < i then w else w - 1] == board[w];
    }
  }

  /** Where a row of place w goes when the row of place i goes to place k. */
  function NewPlace(i: nat, k: nat, w: nat): nat {
    if w == i then k else if k <= w < i then w + 1 else if i < w <= k then w - 1 else w
  }

  lemma MovedRow<T>(board: seq<T>, i: nat, k: nat, s: T, w: nat)
    requires i < |board| && k < |board| && w < |board|
    ensures NewPlace(i, k, w) < |board|
    ensures InsertAt(RemoveAt(board, i), k, s)[NewPlace(i, k, w)] == if w == i then s else board[w]
  {
    var rest := RemoveAt(board, i);
    if w != i {
      assert rest[if w < i then w else w - 1] == board[w];
    }
  }

  /** Taking a row from place i to place k moves the keys between them by one. */
  lemma MoveKeepsInverse(places: map<int, int>, board: seq<Score>, i: nat, k: nat, value: int)
    requires Inverse(places, board) && i < |board| && k < |board|
    ensures Inverse((if k <= i then Shifted(places, k, i - 1, 1) else Shifted(places, i + 1, k, -1))[board[i].id := k],
                    InsertAt(RemoveAt(board, i), k, Score(board[i].id, value)))
  {
    var s := Score(board[i].id, value);
    var m := (if k <= i then Shifted(places, k, i - 1, 1) else Shifted(places, i + 1, k, -1))[s.id := k];
    var after := InsertAt(RemoveAt(board, i), k, s);
    assert RowMapped(places, board, i);
    forall u: nat | u < |after| ensures RowMapped(m, after, u) {
      var w := NewPlace(k, i, u);
      assert RowMapped(places, board, w);
      MovedRow(board, i, k, s, w);
    }
    forall key | key in m ensures KeyListed(m, after, key) {
      var w := places[key];
      assert KeyListed(places, board, key);
      MovedRow(board, i, k, s, w);
    }
  }

  /** Where the search up, or the search down, ends is the place of the new value among the other rows. */
  lemma SearchEnds(board: seq<Score>, i: nat, k: nat, value: int)
    requires Descending(board) && i < |board| && k < |board|
    requires value > board[i].value ==>
               k <= i && (forall u :: k <= u < i ==> board[u].value < value) && (k > 0 ==> board[k - 1].value >= value)
    requires value < board[i].value ==>
               k >= i && (forall u :: i < u <= k ==> board[u].value >= value) &&
               (k + 1 < |board| ==> board[k + 1].value < value)
    requires value != board[i].value
    ensures AtLeast(RemoveAt(board, i), value) == k
  {
    var rest := RemoveAt(board, i);
    forall u: nat | u < k ensures rest[u].value >= value {
      if value > board[i].value {
        assert u < k - 1 ==> NotBelow(board, u, k - 1);
      } else {
        assert u < i ==> NotBelow(board, u, i);
      }
    }
    assert i + 1 < |board| ==> NotBelow(board, i, i + 1);
    AtLeastIs(rest, value, k);
  }

  function Snaps(objs: seq<ShortRankItem>): (board: seq<Score>)
    reads objs
    ensures |board| == |objs| && forall u {:trigger board[u]} :: 0 <= u < |objs| ==> board[u] == objs[u].Snap()
  {
    seq(|objs|, u requires 0 <= u < |objs| reads objs => objs[u].Snap())
  }

  ghost predicate Different(objs: seq<ShortRankItem>, u: nat, w: nat)
    requires u < |objs| && w < |objs|
  {
    objs[u] != objs[w]
  }

  ghost predicate NoRepeats(objs: seq<ShortRankItem>) {
    forall u: nat, w: nat {:trigger Different(objs, u, w)} :: u < w < |objs| ==> Different(objs, u, w)
  }

  lemma InsertObj(objs: seq<ShortRankItem>, k: nat, x: ShortRankItem)
    requires NoRepeats(objs) && k <= |objs| && x !in objs
    ensures NoRepeats(InsertAt(objs, k, x)) && Snaps(InsertAt(objs, k, x)) == InsertAt(Snaps(objs), k, x.Snap())
    ensures forall u {:trigger InsertAt(objs, k, x)[u]} :: 0 <= u <= |objs| ==>
            InsertAt(objs, k, x)[u] in objs || u == k
  {
    var after := InsertAt(objs, k, x);
    forall u: nat, w: nat | u < w < |after| ensures Different(after, u, w) {
      if u != k && w != k { assert Different(objs, if u < k then u else u - 1, if w < k then w else w - 1); }
    }
  }

  lemma RemoveObj(objs: seq<ShortRankItem>, i: nat)
    requires NoRepeats(objs) && i < |objs|
    ensures NoRepeats(RemoveAt(objs, i)) && Snaps(RemoveAt(objs, i)) == RemoveAt(Snaps(objs), i) &&
            objs[i] !in RemoveAt(objs, i)
  {
    var after := RemoveAt(objs, i);
    forall u: nat, w: nat | u < w < |after| ensures Different(after, u, w) {
      assert Different(objs, if u < i then u else u + 1, if w < i then w else w + 1);
    }
    forall u: nat | u < |after| ensures after[u] != objs[i] {
      assert if u < i then Different(objs, u, i) else Different(objs, i, u + 1);
    }
  }

  class ShortRankList {
    const items: array<ShortRankItem?>
    var currNum: int
    var keysMap: map<int, int>
    ghost var objs: seq<ShortRankItem>

    /** The ranking, best first. */
    ghost function Board(): seq<Score>
      reads this, objs
    {
      Snaps(objs)
    }

    /** The array holds the rows listed and nothing behind them. */
    ghost predicate Laid()
      reads this, items
    {
      && Held() && NoRepeats(objs)
      && (forall u :: currNum <= u < items.Length ==> items[u] == null)
    }

    ghost predicate Valid()
      reads this, items, objs
    {
      Laid() && Descending(Board()) && Inverse(keysMap, Board())
    }

    constructor (maxNum: int)
      requires maxNum > 0
      ensures Valid() && Board() == [] && items.Length == maxNum && fresh(items)
    {
      items := new ShortRankItem?[maxNum](_ => null);
      currNum := 0;
      keysMap := map[];
      objs := [];
    }

    method GetLength() returns (n: int)
      requires Valid()
      ensures n == |Board()|
    {
      n := currNum;
    }

    method GetRank(key: int) returns (rank: int)
      requires Valid()
      ensures rank == if IndexOf(Board(), key) < |Board()| then IndexOf(Board(), key) + 1 else 0
    {
      PlaceIsIndex(keysMap, Board(), key);
      if key !in keysMap {
        return 0;
      }
      rank := keysMap[key];
      rank := rank + 1;
    }

    method GetByRank(rank: int) returns (found: bool, key: int, value: int)
      requires Valid() && rank >= 1
      ensures found <==> rank <= |Board()|
      ensures found ==> Score(key, value) == Board()[rank - 1]
    {
      if currNum < rank {
        return false, 0, 0;
      }
      var item := items[rank - 1];
      if item == null {
        return false, 0, 0;
      }
      assert Board()[rank - 1] == item.Snap();
      return true, item.id, item.value;
    }

    method GetIndex(rank: int) returns (index: int)
      requires Valid() && rank >= 1
      ensures index == if rank <= |Board()| then rank - 1 else -1
    {
      if currNum < rank {
        return -1;
      }
      var item := items[rank - 1];
      if item == null {
        return -1;
      }
      assert Board()[rank - 1] == item.Snap() && RowMapped(keysMap, Board(), rank - 1);
      index := keysMap[item.id];
    }

    method Clear()
      requires Valid()
      modifies this, items
      ensures Valid() && Board() == []
    {
      for i := 0 to items.Length
        invariant forall u :: 0 <= u < i ==> items[u] == null
      {
        items[i] := null;
      }
      currNum := 0;
      keysMap := map[];
      objs := [];
    }

    /** Moves the rows from b to e one place down. */
    method ShiftDown(b: int, e: int)
      requires 0 <= b <= e + 1 < items.Length
      requires forall u :: b <= u <= e ==> items[u] != null && items[u].id in keysMap && keysMap[items[u].id] == u
      requires forall key :: key in keysMap && b <= keysMap[key] <= e ==> items[keysMap[key]].id == key
      modifies items, `keysMap
      ensures forall u :: 0 <= u < items.Length ==> items[u] == old(items[if b < u <= e + 1 then u - 1 else u])
      ensures keysMap == Shifted(old(keysMap), b, e, 1)
    {
      ghost var was, places := items[..], keysMap;
      var i := e;
      while i >= b
        invariant b - 1 <= i <= e
        invariant forall u :: 0 <= u < items.Length ==> items[u] == was[if i + 1 < u <= e + 1 then u - 1 else u]
        invariant keysMap == Shifted(places, i + 1, e, 1)
      {
        var item := items[i];
        items[i + 1] := item;
        keysMap := keysMap[item.id := i + 1];
        assert forall key :: key in places && places[key] == i ==> key == item.id;
        ShiftOneMore(places, i + 1, e, 1, i, item.id);
        i := i - 1;
      }
    }

    /** Moves the rows from b to e one place up. */
    method ShiftUp(b: int, e: int)
      requires 1 <= b <= e + 1 <= items.Length
      requires forall u :: b <= u <= e ==> items[u] != null && items[u].id in keysMap && keysMap[items[u].id] == u
      requires forall key :: key in keysMap && b <= keysMap[key] <= e ==> items[keysMap[key]].id == key
      modifies items, `keysMap
      ensures forall u :: 0 <= u < items.Length ==> items[u] == old(items[if b <= u + 1 <= e then u + 1 else u])
      ensures keysMap == Shifted(old(keysMap), b, e, -1)
    {
      ghost var was, places := items[..], keysMap;
      var i := b;
      while i <= e
        invariant b <= i <= e + 1
        invariant forall u :: 0 <= u < items.Length ==> items[u] == was[if b <= u + 1 < i then u + 1 else u]
        invariant keysMap == Shifted(places, b, i - 1, -1)
      {
        var item := items[i];
        items[i - 1] := item;
        keysMap := keysMap[item.id := i - 1];
        assert forall key :: key in places && places[key] == i ==> key == item.id;
        ShiftOneMore(places, b, i - 1, -1, i, item.id);
        i := i + 1;
      }
    }

    /** From place `from` up, past all rows the item beats. */
    method SearchUp(item: ShortRankItem, from: int) returns (i: int)
      requires -1 <= from < items.Length && forall u :: 0 <= u <= from ==> items[u] != null
      ensures -1 <= i <= from && forall u :: i < u <= from ==> items[u].value < item.value
      ensures i >= 0 ==> items[i].value >= item.value
    {
      i := from;
      while i >= 0
        invariant -1 <= i <= from && forall u :: i < u <= from ==> items[u].value < item.value
      {
        if !(item.value > items[i].value) {
          break;
        }
        i := i - 1;
      }
    }

    /** From place `from` down, past all rows the item does not beat. */
    method SearchDown(item: ShortRankItem, from: int) returns (i: int)
      requires 0 <= from <= currNum <= items.Length && forall u :: 0 <= u < currNum ==> items[u] != null
      ensures from <= i <= currNum && forall u :: from <= u < i ==> items[u].value >= item.value
      ensures i < currNum ==> items[i].value < item.value
    {
      i := from;
      while i < currNum
        invariant from <= i <= currNum && forall u :: from <= u < i ==> items[u].value >= item.value
      {
        if item.value > items[i].value {
          break;
        }
        i := i + 1;
      }
    }

    /** Makes room at place k for an item that stands behind the rows listed. */
    method SettleAt(k: int, item: ShortRankItem)
      requires 0 <= k <= currNum < items.Length && items[currNum] == item && item.id in keysMap &&
               keysMap[item.id] == currNum
      requires forall u :: k <= u < currNum ==> items[u] != null && items[u].id in keysMap && keysMap[items[u].id] == u
      requires forall key :: key in keysMap && k <= keysMap[key] < currNum ==> items[keysMap[key]].id == key
      modifies items, `keysMap
      ensures forall u :: 0 <= u < items.Length ==>
                items[u] == if u == k then item else old(items[if k < u <= currNum then u - 1 else u])
      ensures keysMap == Shifted(old(keysMap), k, currNum - 1, 1)[item.id := k]
    {
      if k != currNum {
        ShiftDown(k, currNum - 1);
        items[k] := item;
        keysMap := keysMap[item.id := k];
      } else {
        assert keysMap == Shifted(keysMap, k, currNum - 1, 1)[item.id := k];
      }
    }

    ghost predicate Held()
      reads this, items
    {
      0 <= currNum == |objs| <= items.Length && forall u {:trigger items[u]} :: 0 <= u < currNum ==> items[u] == objs[u]
    }

    /** Where a new row belongs: one behind the place the search up ends at. */
    method PlaceFor(item: ShortRankItem) returns (i: int)
      requires Held() && Descending(Board())
      ensures 0 <= i + 1 == AtLeast(Board(), item.value) <= currNum
    {
      ghost var board := Board();
      i := SearchUp(item, currNum - 1);
      forall u: nat | u <= i ensures board[u].value >= item.value {
        assert items[u] == objs[u] && items[i] == objs[i];
        assert u < i ==> NotBelow(board, u, i);
      }
      assert i + 1 < currNum ==> items[i + 1] == objs[i + 1];
      AtLeastIs(board, item.value, i + 1);
    }

    /** Puts a copy of the item in its place in the array and the map. */
    method PutCopy(item: ShortRankItem) returns (newItem: ShortRankItem, ghost k: nat)
      requires Valid() && item !in objs && item.id !in keysMap && currNum < items.Length
      modifies items, `keysMap
      ensures fresh(newItem) && newItem.Snap() == item.Snap() && k == AtLeast(Board(), item.value)
      ensures forall u {:trigger items[u]} :: 0 <= u < items.Length ==>
                items[u] == if u == k then newItem else if u < k then objs[u]
                            else if u <= currNum then objs[u - 1] else null
      ensures keysMap == Shifted(old(keysMap)[item.id := currNum], k, currNum - 1, 1)[item.id := k]
    {
      newItem := CopyBehind(item);
      var i := PlaceFor(item);
      k := i + 1;
      SettleAt(i + 1, newItem);
    }

    /** Puts a copy of the item behind all rows. */
    method CopyBehind(item: ShortRankItem) returns (newItem: ShortRankItem)
      requires Valid() && item !in objs && item.id !in keysMap && currNum < items.Length
      modifies items, `keysMap
      ensures fresh(newItem) && newItem.Snap() == item.Snap() && keysMap == old(keysMap)[item.id := currNum] &&
              Board() == old(Board())
      ensures forall u {:trigger items[u]} :: 0 <= u < items.Length ==>
              items[u] == if u == currNum then newItem else old(items[u])
      ensures forall u :: 0 <= u < currNum ==> items[u].id in keysMap && keysMap[items[u].id] == u
      ensures forall key :: key in keysMap && 0 <= keysMap[key] < currNum ==> items[keysMap[key]].id == key
    {
      ghost var board := Board();
      newItem := new ShortRankItem();
      newItem.Assign(item);
      items[currNum] := newItem;
      keysMap := keysMap[item.id := currNum];
      forall u | 0 <= u < currNum ensures items[u].id in keysMap && keysMap[items[u].id] == u {
        assert RowMapped(old(keysMap), board, u) && items[u] == objs[u];
      }
      forall key | key in keysMap && 0 <= keysMap[key] < currNum ensures items[keysMap[key]].id == key {
        assert KeyListed(old(keysMap), board, key) && items[keysMap[key]] == objs[keysMap[key]];
      }
    }

    /** Puts a copy of the item in its place and counts it. */
    method AddRow(item: ShortRankItem) returns (ghost k: nat)
      requires Valid() && item !in objs && item.id !in keysMap && currNum < items.Length
      modifies this, items
      ensures k == AtLeast(old(Board()), item.value) && Laid() && Board() == InsertAt(old(Board()), k, item.Snap())
      ensures keysMap == Shifted(old(keysMap)[item.id := old(currNum)], k, old(currNum) - 1, 1)[item.id := k]
    {
      ghost var objs0 := objs;
      var newItem;
      newItem, k := PutCopy(item);
      currNum := currNum + 1;
      InsertObj(objs0, k, newItem);
      objs := InsertAt(objs0, k, newItem);
      forall u | 0 <= u < currNum ensures items[u] == objs[u] {
        if u != k { assert objs[u] == objs0[if u < k then u else u - 1]; }
      }
    }

    method AddNew(item: ShortRankItem)
      requires Valid() && item !in objs && item.id !in keysMap && currNum < items.Length
      modifies this, items
      ensures Valid() && Board() == Placed(old(Board()), item.Snap())
    {
      ghost var board, s := Board(), item.Snap();
      InsertKeepsInverse(keysMap, board, AtLeast(board, s.value), s);
      PlacedDescending(board, s);
      ghost var k := AddRow(item);
    }

    lemma KeysMatch()
      requires Held() && Inverse(keysMap, Board())
      ensures forall u {:trigger items[u]} :: 0 <= u < currNum ==> items[u].id in keysMap && keysMap[items[u].id] == u
      ensures forall key {:trigger keysMap[key]} :: key in keysMap ==>
              0 <= keysMap[key] < currNum && items[keysMap[key]].id == key
    {
      forall u {:trigger items[u]} | 0 <= u < currNum ensures items[u].id in keysMap && keysMap[items[u].id] == u {
        assert RowMapped(keysMap, Board(), u);
      }
      forall key {:trigger keysMap[key]} | key in keysMap
        ensures 0 <= keysMap[key] < currNum && items[keysMap[key]].id == key
      {
        assert KeyListed(keysMap, Board(), key) && items[keysMap[key]] == objs[keysMap[key]];
      }
    }

    /** Where a row whose value changes belongs, and which rows have to make way. */
    method NewPlaceFor(item: ShortRankItem, idx: int) returns (b: int, e: int, pos: int)
      requires Held() && Descending(Board()) && 0 <= idx < currNum && item.value != objs[idx].value
      ensures 0 <= pos < currNum && pos == AtLeast(RemoveAt(Board(), idx), item.value)
      ensures if item.value > objs[idx].value then pos <= idx && b == pos && e == idx - 1
              else pos >= idx && b == idx + 1 && e == pos
    {
      ghost var board := Board();
      assert items[idx] == objs[idx];
      if item.value > items[idx].value {
        var i := SearchUp(item, idx - 1);
        b := i + 1;
        e := idx - 1;
        pos := b;
        assert i >= 0 ==> items[i] == objs[i];
        forall u | pos <= u < idx ensures board[u].value < item.value { assert items[u] == objs[u]; }
      } else {
        var i := SearchDown(item, idx + 1);
        b := idx + 1;
        e := i - 1;
        pos := e;
        assert i < currNum ==> items[i] == objs[i];
        forall u | idx < u <= pos ensures board[u].value >= item.value { assert items[u] == objs[u]; }
      }
      SearchEnds(board, idx, pos, item.value);
    }

    /** Takes the row of place idx to place pos; the rows from b to e make way. */
    method MoveRow(idx: int, b: int, e: int, pos: int)
      requires 0 <= idx < currNum && 0 <= pos < currNum && Laid() && Inverse(keysMap, Board())
      requires pos == idx || (pos < idx && b == pos && e == idx - 1) || (pos > idx && b == idx + 1 && e == pos)
      modifies items, `keysMap
      ensures forall u {:trigger items[u]} :: 0 <= u < items.Length ==>
              items[u] == if u < currNum then objs[NewPlace(pos, idx, u)] else null
      ensures keysMap == if pos <= idx then Shifted(old(keysMap), pos, idx - 1, 1)
                         else Shifted(old(keysMap), idx + 1, pos, -1)
    {
      KeysMatch();
      ghost var places := keysMap;
      var theItem: ShortRankItem? := null;
      if pos != idx {
        theItem := items[idx];
        if pos < idx {
          ShiftDown(b, e);
        } else {
          ShiftUp(b, e);
        }
      } else {
        assert keysMap == Shifted(places, pos, idx - 1, 1);
      }
      if theItem != null {
        items[pos] := theItem;
      }
    }

    /** Takes the row of place idx to place pos, values as they are. */
    method Relink(idx: int, b: int, e: int, pos: int)
      requires 0 <= idx < currNum && 0 <= pos < currNum && Laid() && Inverse(keysMap, Board())
      requires pos == idx || (pos < idx && b == pos && e == idx - 1) || (pos > idx && b == idx + 1 && e == pos)
      modifies items, `keysMap, `objs
      ensures Laid() && objs[pos] == old(objs[idx]) && forall u {:trigger objs[u]} :: 0 <= u < currNum ==>
              objs[u] in old(objs)
      ensures Board() == InsertAt(RemoveAt(old(Board()), idx), pos, old(Board())[idx])
      ensures keysMap == if pos <= idx then Shifted(old(keysMap), pos, idx - 1, 1)
                         else Shifted(old(keysMap), idx + 1, pos, -1)
    {
      MoveRow(idx, b, e, pos);
      ghost var objs0 := objs;
      RemoveObj(objs0, idx);
      InsertObj(RemoveAt(objs0, idx), pos, objs0[idx]);
      objs := InsertAt(RemoveAt(objs0, idx), pos, objs0[idx]);
      forall u {:trigger objs[u]} | 0 <= u < currNum ensures items[u] == objs[u] && objs[u] in objs0 {
        MovedRow(objs0, idx, pos, objs0[idx], NewPlace(pos, idx, u));
      }
    }

    /** Writes a row's new value. */
    method Assign(item: ShortRankItem, pos: int)
      requires Laid() && item !in objs && 0 <= pos < currNum
      modifies `keysMap, objs
      ensures Laid() && Board() == old(Board())[pos := item.Snap()] && keysMap == old(keysMap)[item.id := pos]
    {
      ghost var board := Board();
      assert items[pos] == objs[pos];
      items[pos].Assign(item);
      keysMap := keysMap[items[pos].id := pos];
      forall u: nat | u < currNum ensures Board()[u] == if u == pos then item.Snap() else board[u] {
        assert if u < pos then Different(objs, u, pos) else u > pos ==> Different(objs, pos, u);
      }
    }

    /** Gives a row its new value at its new place. */
    method Revalue(item: ShortRankItem, idx: int)
      requires Valid() && item !in objs && 0 <= idx < currNum && item.id == objs[idx].id &&
               item.value != objs[idx].value
      modifies `keysMap, `objs, items, objs
      ensures Valid() && Board() == Placed(RemoveAt(old(Board()), idx), item.Snap())
    {
      ghost var board, places, s := Board(), keysMap, item.Snap();
      var b, e, pos := NewPlaceFor(item, idx);
      ghost var after := Placed(RemoveAt(board, idx), s);
      MoveKeepsInverse(places, board, idx, pos, s.value);
      RemoveDescending(board, idx);
      PlacedDescending(RemoveAt(board, idx), s);
      Relink(idx, b, e, pos);
      Assign(item, pos);
      assert Board() == after;
    }

    /** Inserts a new row or moves a listed one; the item passed in comes back with the value the row got. */
    method Update(item: ShortRankItem, add: bool) returns (ok: bool)
      requires Valid() && item !in objs
      modifies this, items, objs, item
      ensures Valid() && Board() == AfterUpdate(old(Board()), items.Length, old(item.Snap()), add)
      ensures ok == Accepted(old(Board()), items.Length, old(item.Snap()), add)
      ensures item.Snap() == Score(old(item.id), Updated(old(Board()), old(item.Snap()), add))
    {
      ghost var board, s := Board(), item.Snap();
      ghost var after := AfterUpdate(board, items.Length, s, add);
      PlaceIsIndex(keysMap, board, item.id);
      var o := item.id in keysMap;
      if !o && currNum >= items.Length {
        return false;
      }
      if !o {
        AddNew(item);
      } else {
        ok := Change(item, keysMap[item.id], add);
        return;
      }
      ok := true;
    }

    method Change(item: ShortRankItem, idx: int, add: bool) returns (ok: bool)
      requires Valid() && item !in objs && 0 <= idx == IndexOf(Board(), item.id) < currNum
      modifies `keysMap, `objs, items, objs, item
      ensures Valid() && ok == (Updated(old(Board()), old(item.Snap()), add) != old(Board())[idx].value)
      ensures item.Snap() == Score(old(item.id), Updated(old(Board()), old(item.Snap()), add))
      ensures Board() == if ok then Placed(RemoveAt(old(Board()), idx), item.Snap()) else old(Board())
    {
      ghost var board, s := Board(), item.Snap();
      assert items[idx] == objs[idx] && board[idx] == objs[idx].Snap();
      if items[idx] == null {
        return false;
      }
      if add {
        item.Add(items[idx]);
      }
      assert Board() == board;
      if item.value == items[idx].value {
        return false;
      }
      Revalue(item, idx);
      ok := true;
    }

    /** Takes the row of place idx out of the array. */
    method CloseGap(idx: int)
      requires Laid() && Inverse(keysMap, Board()) && 0 <= idx < currNum
      modifies items, `keysMap, `objs, `currNum
      ensures Laid() && Board() == RemoveAt(old(Board()), idx) &&
              keysMap == Shifted(old(keysMap), idx + 1, |old(objs)| - 1, -1)
    {
      KeysMatch();
      ghost var objs0 := objs;
      ShiftUp(idx + 1, currNum - 1);
      items[currNum - 1] := null;
      currNum := currNum - 1;
      RemoveObj(objs0, idx);
      objs := RemoveAt(objs0, idx);
    }

    method Delete(key: int) returns (ok: bool)
      requires Valid()
      modifies this, items
      ensures Valid() && Board() == AfterDelete(old(Board()), key)
      ensures ok == (IndexOf(old(Board()), key) < |old(Board())|)
    {
      ghost var board, places := Board(), keysMap;
      PlaceIsIndex(keysMap, board, key);
      if key !in keysMap {
        return false;
      }
      var idx := keysMap[key];
      RemoveKeepsInverse(places, board, idx);
      RemoveDescending(board, idx);
      CloseGap(idx);
      keysMap := keysMap - {key};
      ok := true;
    }
  }

  ghost predicate Apart(board: seq<Score>, u: nat, w: nat)
    requires u < |board| && w < |board|
  {
    board[u].id != board[w].id
  }

  ghost predicate DistinctKeys(board: seq<Score>) {
    forall u: nat, w: nat {:trigger Apart(board, u, w)} :: u < w < |board| ==> Apart(board, u, w)
  }

  lemma InverseIsDistinct(places: map<int, int>, board: seq<Score>)
    requires Inverse(places, board)
    ensures DistinctKeys(board)
  {
    forall u: nat, w: nat | u < w < |board| ensures Apart(board, u, w) {
      assert RowMapped(places, board, u) && RowMapped(places, board, w);
    }
  }

  /** Asking for the rank of the key at a rank gives that rank back. */
  lemma RankOfRow(board: seq<Score>, u: nat)
    requires DistinctKeys(board) && u < |board|
    ensures IndexOf(board, board[u].id) == u
  {
    var i := IndexOf(board, board[u].id);
    assert i < u ==> Apart(board, i, u);
  }

  lemma InsertedRow(board: seq<Score>, k: nat, s: Score)
    requires DistinctKeys(board) && IndexOf(board, s.id) == |board| && k <= |board|
    ensures DistinctKeys(InsertAt(board, k, s)) && IndexOf(InsertAt(board, k, s), s.id) == k
    ensures RemoveAt(InsertAt(board, k, s), k) == board
  {
    var after := InsertAt(board, k, s);
    forall u: nat, w: nat | u < w < |after| ensures Apart(after, u, w) {
      if u != k && w != k { assert Apart(board, if u < k then u else u - 1, if w < k then w else w - 1); }
    }
    assert after[k] == s;
    RankOfRow(after, k);
  }

  lemma RemovedRow(board: seq<Score>, i: nat)
    requires DistinctKeys(board) && i < |board|
    ensures DistinctKeys(RemoveAt(board, i)) && IndexOf(RemoveAt(board, i), board[i].id) == |board| - 1
  {
    var after := RemoveAt(board, i);
    forall u: nat, w: nat | u < w < |after| ensures Apart(after, u, w) {
      assert Apart(board, if u < i then u else u + 1, if w < i then w else w + 1);
    }
    forall u: nat | u < |after| ensures after[u].id != board[i].id {
      assert if u < i then Apart(board, u, i) else Apart(board, i, u + 1);
    }
  }

  /** An update touches no other row, and puts its own behind exactly the others that have at least its value. */
  lemma UpdateMovesOneRow(board: seq<Score>, maxNum: int, s: Score, add: bool)
    requires DistinctKeys(board)
    ensures AfterDelete(AfterUpdate(board, maxNum, s, add), s.id) == AfterDelete(board, s.id)
    ensures Accepted(board, maxNum, s, add) ==>
              var after, v := AfterUpdate(board, maxNum, s, add), Updated(board, s, add);
              var i := IndexOf(after, s.id);
              && i < |after| && after[i] == Score(s.id, v) && i == AtLeast(AfterDelete(board, s.id), v)
              && (forall u :: 0 <= u < i ==> after[u].value >= v)
              && (Descending(board) ==> forall u :: i < u < |after| ==> after[u].value < v)
    ensures !Accepted(board, maxNum, s, add) <==> AfterUpdate(board, maxNum, s, add) == board
  {
    var i, v := IndexOf(board, s.id), Updated(board, s, add);
    var others := AfterDelete(board, s.id);
    if i < |board| { RemovedRow(board, i); }
    if Accepted(board, maxNum, s, add) {
      var k, after := AtLeast(others, v), AfterUpdate(board, maxNum, s, add);
      InsertedRow(others, k, Score(s.id, v));
      if Descending(board) {
        if i < |board| { RemoveDescending(board, i); }
        forall u | k < u < |after| ensures after[u].value < v {
          assert after[u] == others[u - 1] && (k < u - 1 ==> NotBelow(others, k, u - 1));
        }
      }
    }
  }

  datatype Op = Put(s: Score, add: bool) | Drop(key: int)

  function Run(ops: seq<Op>, maxNum: int): seq<Score> {
    if ops == [] then [] else
      var board := Run(ops[..|ops| - 1], maxNum);
      match ops[|ops| - 1]
      case Put(s, add) => AfterUpdate(board, maxNum, s, add)
      case Drop(key) => AfterDelete(board, key)
  }

  /** The same run on a plain table of values, with no order and no ranks. */
  function Table(ops: seq<Op>, maxNum: int): map<int, int> {
    if ops == [] then map[] else
      var t := Table(ops[..|ops| - 1], maxNum);
      match ops[|ops| - 1]
      case Put(s, add) =>
        if s.id in t then t[s.id := if add then s.value + t[s.id] else s.value]
        else if |t| < maxNum then t[s.id := s.value] else t
      case Drop(key) => t - {key}
  }

  /** The ranking lists the rows of the table, each once. */
  ghost predicate Lists(board: seq<Score>, t: map<int, int>) {
    && |board| == |t|
    && (forall u: nat {:trigger RowOf(board, t, u)} :: u < |board| ==> RowOf(board, t, u))
    && (forall key :: key in t ==> IndexOf(board, key) < |board|)
  }

  ghost predicate RowOf(board: seq<Score>, t: map<int, int>, u: nat)
    requires u < |board|
  {
    board[u].id in t && t[board[u].id] == board[u].value
  }

  lemma ListsInserted(board: seq<Score>, t: map<int, int>, k: nat, s: Score)
    requires DistinctKeys(board) && Lists(board, t) && IndexOf(board, s.id) == |board| && k <= |board|
    ensures Lists(InsertAt(board, k, s), t[s.id := s.value])
  {
    var after, t' := InsertAt(board, k, s), t[s.id := s.value];
    assert t'.Keys == t.Keys + {s.id};
    InsertedRow(board, k, s);
    forall u: nat | u < |after| ensures RowOf(after, t', u) {
      if u != k { assert RowOf(board, t, if u < k then u else u - 1); }
    }
    forall key | key in t' ensures IndexOf(after, key) < |after| {
      if key != s.id {
        var w := IndexOf(board, key);
        var u := if w < k then w else w + 1;
        assert after[u] == board[w];
        RankOfRow(after, u);
      }
    }
  }

  lemma ListsRemoved(board: seq<Score>, t: map<int, int>, i: nat)
    requires DistinctKeys(board) && Lists(board, t) && i < |board|
    ensures Lists(RemoveAt(board, i), t - {board[i].id})
  {
    var after, t' := RemoveAt(board, i), t - {board[i].id};
    assert RowOf(board, t, i) && t.Keys == t'.Keys + {board[i].id};
    RemovedRow(board, i);
    forall u: nat | u < |after| ensures RowOf(after, t', u) {
      var w := if u < i then u else u + 1;
      assert RowOf(board, t, w) && (if w < i then Apart(board, w, i) else Apart(board, i, w));
    }
    forall key | key in t' ensures IndexOf(after, key) < |after| {
      var w := IndexOf(board, key);
      var u := if w < i then w else w - 1;
      assert after[u] == board[w];
      RankOfRow(after, u);
    }
  }

  lemma DropKeepsRows(board: seq<Score>, t: map<int, int>, key: int)
    requires Lists(board, t) && Descending(board) && DistinctKeys(board)
    ensures var after := AfterDelete(board, key);
      Lists(after, t - {key}) && Descending(after) && DistinctKeys(after) && IndexOf(after, key) == |after|
  {
    var i := IndexOf(board, key);
    if i < |board| {
      RemovedRow(board, i);
      RemoveDescending(board, i);
      ListsRemoved(board, t, i);
    } else {
      assert t - {key} == t;
    }
  }

  lemma PlacingAddsRow(board: seq<Score>, t: map<int, int>, s: Score)
    requires Lists(board, t) && Descending(board) && DistinctKeys(board) && IndexOf(board, s.id) == |board|
    ensures Lists(Placed(board, s), t[s.id := s.value]) && Descending(Placed(board, s)) &&
            DistinctKeys(Placed(board, s))
  {
    PlacedDescending(board, s);
    InsertedRow(board, AtLeast(board, s.value), s);
    ListsInserted(board, t, AtLeast(board, s.value), s);
  }

  lemma PutKeepsRows(board: seq<Score>, t: map<int, int>, maxNum: int, s: Score, add: bool)
    requires Lists(board, t) && Descending(board) && DistinctKeys(board)
    ensures var after := AfterUpdate(board, maxNum, s, add);
      && Descending(after) && DistinctKeys(after)
      && Lists(after, if s.id in t then t[s.id := if add then s.value + t[s.id] else s.value]
                      else if |t| < maxNum then t[s.id := s.value] else t)
  {
    var i, v := IndexOf(board, s.id), Updated(board, s, add);
    if i == |board| {
      if |board| < maxNum { PlacingAddsRow(board, t, s); }
    } else {
      assert RowOf(board, t, i);
      DropKeepsRows(board, t, s.id);
      PlacingAddsRow(RemoveAt(board, i), t - {s.id}, Score(s.id, v));
      assert t[s.id := v] == (t - {s.id})[s.id := v] && (v == board[i].value ==> t[s.id := v] == t);
    }
  }

  /** Over whole runs the ranking is the plain table, sorted: every key once with its last value, best first. */
  lemma {:induction false} RunIsSortedTable(ops: seq<Op>, maxNum: int)
    ensures Lists(Run(ops, maxNum), Table(ops, maxNum))
    ensures Descending(Run(ops, maxNum)) && DistinctKeys(Run(ops, maxNum))
  {
    if ops != [] {
      var ops0 := ops[..|ops| - 1];
      RunIsSortedTable(ops0, maxNum);
      match ops[|ops| - 1]
      case Put(s, add) => PutKeepsRows(Run(ops0, maxNum), Table(ops0, maxNum), maxNum, s, add);
      case Drop(key) => DropKeepsRows(Run(ops0, maxNum), Table(ops0, maxNum), key);
    }
  }
}
