/** Looking an address up in a table of upper bounds, through an index by its first octet. */
module IpTable {

  const OCTET := 0x100_0000

  predicate Address(ip: int) {
    0 <= ip < 0x1_0000_0000
  }

  ghost predicate NotAbove(bounds: seq<int>, i: nat, j: nat)
    requires i < |bounds| && j < |bounds|
  {
    bounds[i] <= bounds[j]
  }

  ghost predicate Sorted(bounds: seq<int>) {
    forall i: nat, j: nat {:trigger NotAbove(bounds, i, j)} :: i <= j < |bounds| ==> NotAbove(bounds, i, j)
  }

  /** The index names, for each first octet, the first row whose bound reaches it. */
  ghost predicate FirstOf(bounds: seq<int>, index: seq<int>, o: nat)
    requires o < |index|
  {
    && 0 <= index[o] < |bounds| && bounds[index[o]] >= o * OCTET
    && (index[o] > 0 ==> bounds[index[o] - 1] < o * OCTET)
  }

  ghost predicate Consistent(bounds: seq<int>, index: seq<int>) {
    && Sorted(bounds) && |index| == 256
    && (forall o: nat {:trigger FirstOf(bounds, index, o)} :: o < 256 ==> FirstOf(bounds, index, o))
  }

  /** The first row, from the top, whose bound is at least the address; the length when there is none. */
  function Scan(bounds: seq<int>, ip: int): (r: nat)
    ensures r <= |bounds| && (r < |bounds| ==> bounds[r] >= ip)
    ensures forall i :: 0 <= i < r ==> bounds[i] < ip
  {
    if bounds == [] || bounds[0] >= ip then 0 else 1 + Scan(bounds[1..], ip)
  }

  lemma ScanIs(bounds: seq<int>, ip: int, r: nat)
    requires r < |bounds| && bounds[r] >= ip && forall i :: 0 <= i < r ==> bounds[i] < ip
    ensures Scan(bounds, ip) == r
  {
  }

  method FindIndexOffset(bounds: seq<int>, ip: int, start0: int, end0: int) returns (r: int)
    requires Sorted(bounds) && 0 <= start0 <= end0 < |bounds|
    ensures start0 <= r <= end0
    ensures forall i :: start0 <= i < r ==> bounds[i] < ip
    ensures r < end0 ==> bounds[r] >= ip
  {
    var start, end := start0, end0;
    while start < end
      invariant start0 <= start <= end <= end0
      invariant forall i :: start0 <= i < start ==> bounds[i] < ip
      invariant end < end0 ==> bounds[end] >= ip
    {
      var mid := (start + end) / 2;
      if ip > bounds[mid] {
        forall i | start0 <= i <= mid ensures bounds[i] < ip { assert NotAbove(bounds, i, mid); }
        start := mid + 1;
      } else {
        end := mid;
      }
    }
    if bounds[end] >= ip {
      return end;
    }
    return start;
  }

  /** The row an address is looked up in. It is the row a scan of the whole table finds, and the last one for an
      address above all bounds. */
  method RowOf(bounds: seq<int>, index: seq<int>, ip: int) returns (idx: int)
    requires Consistent(bounds, index) && Address(ip)
    ensures 0 <= idx < |bounds|
    ensures idx == if Scan(bounds, ip) < |bounds| then Scan(bounds, ip) else |bounds| - 1
  {
    var o := ip / OCTET;
    assert FirstOf(bounds, index, 0) && FirstOf(bounds, index, o);
    var end := |bounds| - 1;
    if o != 255 {
      end := index[o + 1];
      assert FirstOf(bounds, index, o + 1);
      BoundReached(bounds, index, o, ip);
    }
    idx := FindIndexOffset(bounds, ip, index[o], end);
    forall i | 0 <= i < idx ensures bounds[i] < ip {
      if i < index[o] { assert NotAbove(bounds, i, index[o] - 1); }
    }
    if bounds[idx] >= ip {
      ScanIs(bounds, ip, idx);
    } else {
      assert Scan(bounds, ip) == |bounds|;
    }
  }

  /** The row that ends the search of an octet reaches every address of it. */
  lemma BoundReached(bounds: seq<int>, index: seq<int>, o: nat, ip: int)
    requires Consistent(bounds, index) && o < 255 && ip / OCTET == o
    ensures 0 <= index[o] <= index[o + 1] < |bounds| && bounds[index[o + 1]] > ip
  {
    assert FirstOf(bounds, index, o) && FirstOf(bounds, index, o + 1);
    var last, next := index[o] - 1, index[o + 1];
    assert 0 <= next <= last ==> NotAbove(bounds, next, last);
  }
}
