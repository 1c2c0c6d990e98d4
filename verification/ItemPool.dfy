/** The fixed pool a chat channel takes its message nodes from. */
module ItemPool {

  class SimpleItemPool<T> {
    var items: seq<T>
    var canUseStart: int

    /** -1 means that nothing is free. */
    ghost predicate Valid()
      reads this
    {
      |items| > 0 && -1 <= canUseStart < |items|
    }

    /** The free items, the next one first. */
    ghost function Free(): seq<T>
      requires Valid()
      reads this
    {
      if canUseStart < 0 then [] else items[canUseStart..]
    }

    constructor (all: seq<T>)
      requires |all| > 0
      ensures Valid() && items == all && Free() == all
    {
      items := all;
      canUseStart := 0;
    }

    method GetFree() returns (found: bool, item: T)
      requires Valid()
      modifies this
      ensures Valid() && items == old(items)
      ensures found == (old(Free()) != [])
      ensures found ==> item == old(Free())[0] && Free() == old(Free())[1..]
      ensures !found ==> Free() == old(Free())
    {
      if canUseStart < 0 {
        return false, items[0];
      }
      found, item := true, items[canUseStart];
      canUseStart := canUseStart + 1;
      if canUseStart >= |items| {
        canUseStart := -1;
      }
    }

    method Recycle(item: T) returns (ok: bool)
      requires Valid()
      modifies this
      ensures Valid() && |items| == |old(items)|
      ensures ok == (|old(Free())| < |items|)
      ensures Free() == if ok then [item] + old(Free()) else old(Free())
    {
      if canUseStart == 0 {
        return false;
      }
      if canUseStart < 0 {
        canUseStart := |items| - 1;
      } else {
        canUseStart := canUseStart - 1;
      }
      items := items[canUseStart := item];
      ok := true;
    }

    method HasFree() returns (has: bool)
      requires Valid()
      ensures has == (Free() != [])
    {
      has := canUseStart >= 0;
    }
  }
}
