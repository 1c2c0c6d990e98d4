/** The indexable skip list of the ranking lists: up to 32 doubly linked layers whose
    links carry the number of rows they jump over. */
module Skiplists {
  import opened SeqEdit
  import opened SkipLevels
  import opened RankItems

  const MAX_SKIPLIST_LAYER := 32

  /** One layer of one node: its neighbours there, and the distance to the next. */
  datatype Layer = Layer(next: Node?, prev: Node?, span: int)

  class Node {
    const value: PlayerRankItem?
    var layers: seq<Layer>

    constructor (layer: nat, v: PlayerRankItem?)
      ensures value == v && |layers| == layer
      ensures forall i :: 0 <= i < layer ==> layers[i] == Layer(null, null, 0)
    {
      value := v;
      layers := seq(layer, _ => Layer(null, null, 0));
    }
  }

  /** What layer `i` of the node at position `p` must hold. Position 0 is the head; the span
      of the last node of a layer counts the nodes that follow it on the bottom layer. */
  ghost function LayerAt(nodes: seq<Node>, hs: seq<nat>, p: nat, i: nat): Layer
    requires |nodes| == |hs| && p < |hs| && hs[0] > i
  {
    var q := Next(hs, p, i);
    Layer(if q < |hs| then nodes[q] else null,
          if p == 0 then null else nodes[Prev(hs, p, i)],
          if q < |hs| then q - p else |hs| - 1 - p)
  }

  /** The layers of every node, as values. */
  ghost function Towers(nodes: seq<Node>): (ls: seq<seq<Layer>>)
    reads nodes
    ensures |ls| == |nodes|
    ensures forall p {:trigger ls[p]} :: 0 <= p < |nodes| ==> ls[p] == nodes[p].layers
  {
    seq(|nodes|, p requires 0 <= p < |nodes| reads nodes => nodes[p].layers)
  }

  ghost predicate Apart(nodes: seq<Node>, p: nat, q: nat)
    requires p < |nodes| && q < |nodes|
  {
    nodes[p] != nodes[q]
  }

  ghost predicate Distinct(nodes: seq<Node>) {
    forall p, q {:trigger Apart(nodes, p, q)} :: 0 <= p < q < |nodes| ==> Apart(nodes, p, q)
  }

  lemma AllApart(nodes: seq<Node>)
    requires Distinct(nodes)
    ensures forall p, q :: 0 <= p < q < |nodes| ==> nodes[p] != nodes[q]
  {
    forall p: nat, q: nat | p < q < |nodes| ensures nodes[p] != nodes[q] { assert Apart(nodes, p, q); }
  }

  /** Towers, heights and rows belong together. */
  ghost predicate Shape(ls: seq<seq<Layer>>, nodes: seq<Node>, hs: seq<nat>, items: seq<PlayerRankItem>, top: int) {
    && |ls| == |nodes| == |hs| == |items| + 1
    && hs[0] == MAX_SKIPLIST_LAYER && nodes[0].value == null
    && 1 <= top <= MAX_SKIPLIST_LAYER
    && (forall p :: 1 <= p < |hs| ==> 1 <= hs[p] <= top)
    && (forall p :: 1 <= p < |hs| ==> nodes[p].value == items[p - 1])
    && Distinct(nodes)
    && (forall p {:trigger ls[p]} :: 0 <= p < |nodes| ==> |ls[p]| == hs[p])
  }

  /** The node at position `p` is linked and measured correctly on layer `i`. */
  ghost predicate NodeOk(ls: seq<seq<Layer>>, nodes: seq<Node>, hs: seq<nat>, p: nat, i: nat)
    requires |ls| == |nodes| == |hs| && p < |hs| && hs[0] > i
  {
    i < |ls[p]| && ls[p][i] == LayerAt(nodes, hs, p, i)
  }

  /** Layer `i` is linked and measured correctly. */
  ghost predicate LevelOk(ls: seq<seq<Layer>>, nodes: seq<Node>, hs: seq<nat>, i: nat)
    requires |ls| == |nodes| == |hs| > 0 && hs[0] > i
  {
    forall p {:trigger NodeOk(ls, nodes, hs, p, i)} :: 0 <= p < |nodes| && hs[p] > i ==> NodeOk(ls, nodes, hs, p, i)
  }

  /** Layers at or above `top` hold nothing but the head. */
  ghost predicate EmptyFrom(ls: seq<seq<Layer>>, top: nat)
    requires |ls| > 0
  {
    forall i :: top <= i < |ls[0]| ==> ls[0][i].next == null && ls[0][i].prev == null
  }

  lemma TopLevelOk(ls: seq<seq<Layer>>, nodes: seq<Node>, hs: seq<nat>, i: nat)
    requires |ls| == |nodes| == |hs| > 0 && i < |ls[0]| == hs[0] && EmptyFrom(ls, i)
    requires ls[0][i].span == |hs| - 1
    requires forall p :: 1 <= p < |hs| ==> hs[p] <= i
    ensures LevelOk(ls, nodes, hs, i)
  {
    NextUnique(hs, 0, i, |hs|);
  }

  /** The whole link structure: every layer below `top` is correct, every other layer is empty. */
  ghost predicate Links(ls: seq<seq<Layer>>, nodes: seq<Node>, hs: seq<nat>, items: seq<PlayerRankItem>, top: int) {
    && Shape(ls, nodes, hs, items, top)
    && (forall i :: 0 <= i < top ==> LevelOk(ls, nodes, hs, i))
    && EmptyFrom(ls, top)
  }

  /** Nothing but layer `i` differs. */
  ghost predicate OffLayer(a: seq<Layer>, b: seq<Layer>, i: nat) {
    |a| == |b| && forall j :: 0 <= j < |a| && j != i ==> a[j] == b[j]
  }

  ghost predicate OffTowers(ls: seq<seq<Layer>>, ls': seq<seq<Layer>>, i: nat) {
    |ls| == |ls'| && forall p {:trigger ls'[p]} :: 0 <= p < |ls| ==> OffLayer(ls[p], ls'[p], i)
  }

  /** The other layers stay correct. */
  lemma LevelFrame(ls: seq<seq<Layer>>, ls': seq<seq<Layer>>, nodes: seq<Node>, hs: seq<nat>, i: nat, j: nat)
    requires |ls| == |ls'| == |nodes| == |hs| > 0 && hs[0] > j && i != j && OffTowers(ls, ls', i)
    requires LevelOk(ls, nodes, hs, j)
    ensures LevelOk(ls', nodes, hs, j)
  {
    forall p: nat | p < |nodes| && hs[p] > j ensures NodeOk(ls', nodes, hs, p, j) {
      assert NodeOk(ls, nodes, hs, p, j) && OffLayer(ls[p], ls'[p], i);
    }
  }

  /** Layer `i` of the node at old position `p`, once a node `x` of height `h` stands at position `k`:
      its predecessor there is relinked, its successor points back, and a span passing over it grows. */
  ghost function SplicedLayer(nodes: seq<Node>, hs: seq<nat>, k: nat, x: Node, h: nat, p: nat, i: nat): Layer
    requires |nodes| == |hs| && 0 < k <= |hs| && p < |hs| && hs[0] > i && hs[p] > i
  {
    var L := LayerAt(nodes, hs, p, i);
    var b := Prev(hs, k, i);
    if p == b then (if h > i then L.(next := x, span := k - p) else L.(span := L.span + 1))
    else if p == Next(hs, b, i) && h > i then L.(prev := x)
    else L
  }

  lemma SplicedBefore(nodes: seq<Node>, hs: seq<nat>, k: nat, x: Node, h: nat, p: nat, i: nat)
    requires |nodes| == |hs| && k <= |hs| && p < k && hs[0] > i && hs[p] > i
    ensures LayerAt(InsertAt(nodes, k, x), InsertAt(hs, k, h), p, i) == SplicedLayer(nodes, hs, k, x, h, p, i)
  {
    NextInsert(hs, k, h, p, i);
    NextOfPrev(hs, p, k, i);
    NextOfPrev(hs, Prev(hs, k, i), k, i);
    if p > 0 { PrevInsert(hs, k, h, p, i); }
  }

  lemma SplicedBehind(nodes: seq<Node>, hs: seq<nat>, k: nat, x: Node, h: nat, p: nat, i: nat)
    requires |nodes| == |hs| && 0 < k <= p < |hs| && hs[0] > i && hs[p] > i
    ensures LayerAt(InsertAt(nodes, k, x), InsertAt(hs, k, h), p + 1, i) == SplicedLayer(nodes, hs, k, x, h, p, i)
  {
    var hs', nodes' := InsertAt(hs, k, h), InsertAt(nodes, k, x);
    var q, b := Next(hs, p, i), Prev(hs, p, i);
    var q', b' := Next(hs', p + 1, i), Prev(hs', p + 1, i);
    assert q' == q + 1 by { NextInsert(hs, k, h, p, i); }
    assert b' == if b >= k then b + 1 else if h > i then k else b by { PrevInsert(hs, k, h, p, i); }
    assert h > i && Next(hs, Prev(hs, k, i), i) == p <==> h > i && b < k by { NextIsFirstBehind(hs, k, p, i); }
  }

  /** The inserted node takes over its predecessor's link and the rest of its span. */
  lemma SplicedItself(nodes: seq<Node>, hs: seq<nat>, k: nat, x: Node, h: nat, i: nat)
    requires |nodes| == |hs| && 0 < k <= |hs| && hs[0] > i && h > i
    ensures var b := Prev(hs, k, i);
            var L := LayerAt(nodes, hs, b, i);
            LayerAt(InsertAt(nodes, k, x), InsertAt(hs, k, h), k, i) == Layer(L.next, nodes[b], L.span - (k - 1 - b))
  {
    NextOfInserted(hs, k, h, i);
    PrevInsert(hs, k, h, k, i);
    NextOfPrev(hs, Prev(hs, k, i), k, i);
  }

  /** A layer spliced at every node is the correct layer of the longer list. */
  lemma LevelOkOfSpliced(ls: seq<seq<Layer>>, nodes: seq<Node>, hs: seq<nat>, k: nat, x: Node, xl: seq<Layer>, h: nat,
                         i: nat)
    requires |ls| == |nodes| == |hs| && 0 < k <= |hs| && hs[0] > i
    requires forall p {:trigger ls[p]} :: 0 <= p < |hs| && hs[p] > i ==>
             i < |ls[p]| && ls[p][i] == SplicedLayer(nodes, hs, k, x, h, p, i)
    requires h > i ==> var L := LayerAt(nodes, hs, Prev(hs, k, i), i);
      |xl| > i && xl[i] == Layer(L.next, nodes[Prev(hs, k, i)], L.span - (k - 1 - Prev(hs, k, i)))
    ensures LevelOk(InsertAt(ls, k, xl), InsertAt(nodes, k, x), InsertAt(hs, k, h), i)
  {
    var ls', nodes', hs' := InsertAt(ls, k, xl), InsertAt(nodes, k, x), InsertAt(hs, k, h);
    forall p: nat | p < |nodes'| && hs'[p] > i
      ensures NodeOk(ls', nodes', hs', p, i)
    {
      if p < k {
        assert ls'[p] == ls[p];
        SplicedBefore(nodes, hs, k, x, h, p, i);
      } else if p == k {
        SplicedItself(nodes, hs, k, x, h, i);
      } else {
        assert ls'[p] == ls[p - 1];
        SplicedBehind(nodes, hs, k, x, h, p - 1, i);
      }
    }
  }

  /** The towers after `x` is linked behind position `b` and before `q` on layer `i`. */
  ghost function RelinkedTowers(ls: seq<seq<Layer>>, x: Node, i: nat, d: int, b: nat, q: nat): (r: seq<seq<Layer>>)
    requires b < q <= |ls| && i < |ls[b]| && (q < |ls| ==> i < |ls[q]|)
    ensures OffTowers(ls, r, i)
  {
    var ls1 := ls[b := ls[b][i := Layer(x, ls[b][i].prev, d + 1)]];
    if q < |ls| then ls1[q := ls[q][i := ls[q][i].(prev := x)]] else ls1
  }

  lemma RelinkedIsSpliced(ls: seq<seq<Layer>>, nodes: seq<Node>, hs: seq<nat>, k: nat, x: Node, h: nat, i: nat, b: nat,
                          q: nat, p: nat)
    requires |ls| == |nodes| == |hs| && 0 < k <= |hs| && i < h <= hs[0] && LevelOk(ls, nodes, hs, i)
    requires b == Prev(hs, k, i) && q == Next(hs, b, i) && i < |ls[b]| && (q < |ls| ==> i < |ls[q]|)
    requires p < |hs| && hs[p] > i
    ensures var ls' := RelinkedTowers(ls, x, i, k - 1 - b, b, q);
      i < |ls'[p]| && ls'[p][i] == SplicedLayer(nodes, hs, k, x, h, p, i)
  {
    assert NodeOk(ls, nodes, hs, p, i);
  }

  /** Relinking behind the predecessor makes layer `i` correct for the longer list. */
  lemma RelinkedLevelOk(ls: seq<seq<Layer>>, nodes: seq<Node>, hs: seq<nat>, k: nat, x: Node, xl: seq<Layer>, h: nat,
                        i: nat, b: nat, q: nat)
    requires |ls| == |nodes| == |hs| && 0 < k <= |hs| && i < h <= hs[0] && i < |xl| && LevelOk(ls, nodes, hs, i)
    requires b == Prev(hs, k, i) && q == Next(hs, b, i) && i < |ls[b]| && (q < |ls| ==> i < |ls[q]|)
    requires ls[b][i] == LayerAt(nodes, hs, b, i)
    ensures LevelOk(InsertAt(RelinkedTowers(ls, x, i, k - 1 - b, b, q), k,
                             xl[i := Layer(ls[b][i].next, nodes[b], ls[b][i].span - (k - 1 - b))]),
                    InsertAt(nodes, k, x), InsertAt(hs, k, h), i)
  {
    var ls' := RelinkedTowers(ls, x, i, k - 1 - b, b, q);
    forall p: nat | p < |hs| && hs[p] > i
      ensures i < |ls'[p]| && ls'[p][i] == SplicedLayer(nodes, hs, k, x, h, p, i)
    {
      RelinkedIsSpliced(ls, nodes, hs, k, x, h, i, b, q, p);
    }
    LevelOkOfSpliced(ls', nodes, hs, k, x, xl[i := Layer(ls[b][i].next, nodes[b], ls[b][i].span - (k - 1 - b))], h, i);
  }

  /** Layers below `i` are already those of the longer list, the others still those of the old one. */
  ghost predicate HalfSpliced(ls: seq<seq<Layer>>, xl: seq<Layer>, nodes: seq<Node>, hs: seq<nat>, k: nat, x: Node,
                              h: nat, i: nat, top: nat)
    requires |ls| == |nodes| == |hs| && 0 < k <= |hs| && i <= top <= hs[0]
  {
    && (forall j :: 0 <= j < i ==> LevelOk(InsertAt(ls, k, xl), InsertAt(nodes, k, x), InsertAt(hs, k, h), j))
    && (forall j :: i <= j < top ==> LevelOk(ls, nodes, hs, j))
  }

  lemma HalfSplicedStep(ls: seq<seq<Layer>>, ls': seq<seq<Layer>>, xl: seq<Layer>, xl': seq<Layer>,
                        nodes: seq<Node>, hs: seq<nat>, k: nat, x: Node, h: nat, i: nat, top: nat)
    requires |ls| == |nodes| == |hs| && 0 < k <= |hs| && i < top <= hs[0]
    requires HalfSpliced(ls, xl, nodes, hs, k, x, h, i, top)
    requires OffTowers(ls, ls', i) && OffLayer(xl, xl', i)
    requires LevelOk(InsertAt(ls', k, xl'), InsertAt(nodes, k, x), InsertAt(hs, k, h), i)
    ensures HalfSpliced(ls', xl', nodes, hs, k, x, h, i + 1, top)
  {
    assert OffTowers(InsertAt(ls, k, xl), InsertAt(ls', k, xl'), i);
    forall j: nat | j < i ensures LevelOk(InsertAt(ls', k, xl'), InsertAt(nodes, k, x), InsertAt(hs, k, h), j) {
      LevelFrame(InsertAt(ls, k, xl), InsertAt(ls', k, xl'), InsertAt(nodes, k, x), InsertAt(hs, k, h), i, j);
    }
    forall j: nat | i < j < top ensures LevelOk(ls', nodes, hs, j) {
      LevelFrame(ls, ls', nodes, hs, i, j);
    }
  }

  /** No tower has changed its height or a layer at or above `top`. */
  ghost predicate SameFrom(ls: seq<seq<Layer>>, ls': seq<seq<Layer>>, top: nat) {
    |ls| == |ls'| && forall p {:trigger ls'[p]} :: 0 <= p < |ls| ==>
      |ls[p]| == |ls'[p]| && forall j :: top <= j < |ls[p]| ==> ls[p][j] == ls'[p][j]
  }

  lemma SameFromStep(ls0: seq<seq<Layer>>, ls: seq<seq<Layer>>, ls': seq<seq<Layer>>, i: nat, top: nat)
    requires SameFrom(ls0, ls, top) && OffTowers(ls, ls', i) && i < top
    ensures SameFrom(ls0, ls', top)
  {
    forall p | 0 <= p < |ls0|
      ensures |ls0[p]| == |ls'[p]| && forall j :: top <= j < |ls0[p]| ==> ls0[p][j] == ls'[p][j]
    {
      assert OffLayer(ls[p], ls'[p], i);
    }
  }

  /** A node spliced into every layer in use yields the link structure of the longer list. */
  lemma SplicedLinks(ls: seq<seq<Layer>>, ls': seq<seq<Layer>>, nodes: seq<Node>, hs: seq<nat>,
                     items: seq<PlayerRankItem>, top: int,
                     c: nat, x: Node, xl: seq<Layer>, h: nat, v: PlayerRankItem)
    requires Shape(ls, nodes, hs, items, top) && EmptyFrom(ls, top) && c < |hs| && x !in nodes
    requires x.value == v && 1 <= h == |xl| <= top && SameFrom(ls, ls', top)
    requires HalfSpliced(ls', xl, nodes, hs, c + 1, x, h, top, top)
    ensures Links(InsertAt(ls', c + 1, xl), InsertAt(nodes, c + 1, x), InsertAt(hs, c + 1, h), InsertAt(items, c, v),
            top)
  {
    var ls1, nodes1, hs1 := InsertAt(ls', c + 1, xl), InsertAt(nodes, c + 1, x), InsertAt(hs, c + 1, h);
    assert ls1[0] == ls'[0] && |ls[0]| == |ls'[0]|;
    forall p | 0 <= p < |nodes1| ensures |ls1[p]| == hs1[p] {
      assert p < c + 1 ==> ls1[p] == ls'[p] && |ls'[p]| == |ls[p]|;
      assert p > c + 1 ==> ls1[p] == ls'[p - 1] && |ls'[p - 1]| == |ls[p - 1]|;
    }
    assert EmptyFrom(ls1, top);
    forall i: nat | i < top ensures LevelOk(ls1, nodes1, hs1, i) {
      var ok := LevelOk(ls1, nodes1, hs1, i);
      assert ok;
    }
    forall p: nat, q: nat | p < q < |nodes1| ensures Apart(nodes1, p, q) {
      if p != c + 1 && q != c + 1 {
        assert Apart(nodes, if p < c + 1 then p else p - 1, if q < c + 1 then q else q - 1);
      }
    }
    assert Shape(ls1, nodes1, hs1, InsertAt(items, c, v), top);
  }

  ghost function BumpedTowers(ls: seq<seq<Layer>>, i: nat, delta: int, b: nat): (r: seq<seq<Layer>>)
    requires b < |ls| && i < |ls[b]|
    ensures OffTowers(ls, r, i)
  {
    var l: Layer := ls[b][i];
    ls[b := ls[b][i := l.(span := l.span + delta)]]
  }

  /** On a layer the new node does not reach, one more node passes under a single span. */
  lemma BumpedLevelOk(ls: seq<seq<Layer>>, nodes: seq<Node>, hs: seq<nat>, k: nat, x: Node, xl: seq<Layer>, h: nat,
                      i: nat, b: nat)
    requires |ls| == |nodes| == |hs| && 0 < k <= |hs| && h <= i < hs[0] && LevelOk(ls, nodes, hs, i)
    requires b == Prev(hs, k, i) && i < |ls[b]|
    ensures LevelOk(InsertAt(BumpedTowers(ls, i, 1, b), k, xl), InsertAt(nodes, k, x), InsertAt(hs, k, h), i)
  {
    var ls' := BumpedTowers(ls, i, 1, b);
    forall p: nat | p < |hs| && hs[p] > i
      ensures i < |ls'[p]| && ls'[p][i] == SplicedLayer(nodes, hs, k, x, h, p, i)
    {
      assert NodeOk(ls, nodes, hs, p, i);
    }
    LevelOkOfSpliced(ls', nodes, hs, k, x, xl, h, i);
  }

  /** The towers after position `k` is bypassed on layer `i`, between `b` and `q`. */
  ghost function UnlinkedTowers(ls: seq<seq<Layer>>, i: nat, k: nat, b: nat, q: nat): (r: seq<seq<Layer>>)
    requires b < k < q <= |ls| && i < |ls[b]| && i < |ls[k]| && (q < |ls| ==> i < |ls[q]|)
    ensures OffTowers(ls, r, i) && r[k] == ls[k]
  {
    var l, x: Layer := ls[b][i], ls[k][i];
    var ls1 := ls[b := ls[b][i := l.(next := x.next, span := l.span + (x.span - 1))]];
    if q < |ls| then var m: Layer := ls[q][i]; ls1[q := ls[q][i := m.(prev := x.prev)]] else ls1
  }

  /** What the longer list holds on layer `i` at the nodes of the shorter one. */
  lemma SplicedFromLevelOk(ls: seq<seq<Layer>>, nodes: seq<Node>, hs: seq<nat>, k: nat, x: Node, h: nat, p: nat, i: nat)
    requires |nodes| == |hs| && 0 < k <= |hs| && p < |hs| && hs[0] > i && hs[p] > i && |ls| == |hs| + 1
    requires LevelOk(ls, InsertAt(nodes, k, x), InsertAt(hs, k, h), i)
    ensures var p' := if p < k then p else p + 1;
      i < |ls[p']| && ls[p'][i] == SplicedLayer(nodes, hs, k, x, h, p, i)
  {
    var nodes', hs' := InsertAt(nodes, k, x), InsertAt(hs, k, h);
    var p' := if p < k then p else p + 1;
    assert hs'[p'] == hs[p];
    assert NodeOk(ls, nodes', hs', p', i);
    if p < k { SplicedBefore(nodes, hs, k, x, h, p, i); } else { SplicedBehind(nodes, hs, k, x, h, p, i); }
  }

  /** Bypassing a node undoes what splicing it in did. */
  lemma UnlinkedLevelOk(ls: seq<seq<Layer>>, nodes: seq<Node>, hs: seq<nat>, k: nat, x: Node, h: nat, i: nat, b: nat,
                        q: nat)
    requires |nodes| == |hs| && 0 < k <= |hs| && hs[0] > i && h > i && |ls| == |hs| + 1
    requires LevelOk(ls, InsertAt(nodes, k, x), InsertAt(hs, k, h), i)
    requires b == Prev(hs, k, i) && q == Next(hs, b, i) + 1
    ensures b < k < q <= |ls| && i < |ls[b]| && i < |ls[k]| && (q < |ls| ==> i < |ls[q]|)
    ensures LevelOk(RemoveAt(UnlinkedTowers(ls, i, k, b, q), k), nodes, hs, i)
  {
    NextOfPrev(hs, b, k, i);
    SplicedFromLevelOk(ls, nodes, hs, k, x, h, b, i);
    if q < |ls| { SplicedFromLevelOk(ls, nodes, hs, k, x, h, q - 1, i); }
    assert NodeOk(ls, InsertAt(nodes, k, x), InsertAt(hs, k, h), k, i);
    SplicedItself(nodes, hs, k, x, h, i);
    var ls' := RemoveAt(UnlinkedTowers(ls, i, k, b, q), k);
    forall p: nat | p < |hs| && hs[p] > i ensures NodeOk(ls', nodes, hs, p, i) {
      UnlinkedNodeOk(ls, nodes, hs, k, x, h, i, b, q, p);
    }
  }

  lemma UnlinkedNodeOk(ls: seq<seq<Layer>>, nodes: seq<Node>, hs: seq<nat>, k: nat, x: Node, h: nat, i: nat, b: nat,
                       q: nat, p: nat)
    requires |nodes| == |hs| && 0 < k <= |hs| && hs[0] > i && h > i && |ls| == |hs| + 1
    requires LevelOk(ls, InsertAt(nodes, k, x), InsertAt(hs, k, h), i)
    requires b == Prev(hs, k, i) && q == Next(hs, b, i) + 1 && b < k < q
    requires i < |ls[b]| && i < |ls[k]| && (q < |ls| ==> i < |ls[q]|)
    requires ls[k][i] == Layer(LayerAt(nodes, hs, b, i).next, nodes[b], LayerAt(nodes, hs, b, i).span - (k - 1 - b))
    requires p < |hs| && hs[p] > i
    ensures NodeOk(RemoveAt(UnlinkedTowers(ls, i, k, b, q), k), nodes, hs, p, i)
  {
    SplicedFromLevelOk(ls, nodes, hs, k, x, h, p, i);
    var u := UnlinkedTowers(ls, i, k, b, q);
    var p' := if p < k then p else p + 1;
    var L := LayerAt(nodes, hs, p, i);
    assert RemoveAt(u, k)[p] == u[p'];
    if p == b {
      var l: Layer, m: Layer := ls[b][i], ls[k][i];
      assert u[p'][i] == l.(next := m.next, span := l.span + m.span - 1) == L;
    } else if p == q - 1 {
      PrevOfNext(hs, b, i);
      assert ls[q][i] == L.(prev := x) && L.prev == nodes[b];
      assert u[q][i] == L;
    } else {
      assert u[p'] == ls[p'];
    }
  }

  /** Where the removed node did not reach, one node fewer passes under the span. */
  lemma UnbumpedLevelOk(ls: seq<seq<Layer>>, nodes: seq<Node>, hs: seq<nat>, k: nat, x: Node, h: nat, i: nat, b: nat)
    requires |nodes| == |hs| && 0 < k <= |hs| && hs[0] > i && h <= i && |ls| == |hs| + 1
    requires LevelOk(ls, InsertAt(nodes, k, x), InsertAt(hs, k, h), i)
    requires b == Prev(hs, k, i)
    ensures i < |ls[b]| && LevelOk(RemoveAt(BumpedTowers(ls, i, -1, b), k), nodes, hs, i)
  {
    SplicedFromLevelOk(ls, nodes, hs, k, x, h, b, i);
    var u := BumpedTowers(ls, i, -1, b);
    forall p: nat | p < |hs| && hs[p] > i ensures NodeOk(RemoveAt(u, k), nodes, hs, p, i) {
      SplicedFromLevelOk(ls, nodes, hs, k, x, h, p, i);
      var p' := if p < k then p else p + 1;
      assert RemoveAt(u, k)[p] == u[p'];
    }
  }

  /** Layers below `i` are already those of the shorter list, the others still those of the longer one. */
  ghost predicate HalfUnlinked(ls: seq<seq<Layer>>, nodes: seq<Node>, hs: seq<nat>, k: nat, x: Node, h: nat, i: nat,
                               top: nat)
    requires |ls| == |nodes| + 1 == |hs| + 1 && 0 < k <= |hs| && i <= top <= hs[0]
  {
    && (forall j :: 0 <= j < i ==> LevelOk(RemoveAt(ls, k), nodes, hs, j))
    && (forall j :: i <= j < top ==> LevelOk(ls, InsertAt(nodes, k, x), InsertAt(hs, k, h), j))
  }

  lemma HalfUnlinkedStep(ls: seq<seq<Layer>>, ls': seq<seq<Layer>>, nodes: seq<Node>, hs: seq<nat>, k: nat, x: Node,
                         h: nat, i: nat, top: nat)
    requires |ls| == |nodes| + 1 == |hs| + 1 && 0 < k <= |hs| && i < top <= hs[0]
    requires HalfUnlinked(ls, nodes, hs, k, x, h, i, top)
    requires OffTowers(ls, ls', i) && LevelOk(RemoveAt(ls', k), nodes, hs, i)
    ensures HalfUnlinked(ls', nodes, hs, k, x, h, i + 1, top)
  {
    assert OffTowers(RemoveAt(ls, k), RemoveAt(ls', k), i);
    forall j: nat | j < i ensures LevelOk(RemoveAt(ls', k), nodes, hs, j) {
      LevelFrame(RemoveAt(ls, k), RemoveAt(ls', k), nodes, hs, i, j);
    }
    forall j: nat | i < j < top ensures LevelOk(ls', InsertAt(nodes, k, x), InsertAt(hs, k, h), j) {
      LevelFrame(ls, ls', InsertAt(nodes, k, x), InsertAt(hs, k, h), i, j);
    }
  }

  lemma UnlinkedShape(ls: seq<seq<Layer>>, ls': seq<seq<Layer>>, nodes: seq<Node>, hs: seq<nat>,
                      items: seq<PlayerRankItem>, top: nat, k: nat)
    requires Shape(ls, nodes, hs, items, top) && 0 < k < |hs| && SameFrom(ls, ls', top)
    ensures Shape(RemoveAt(ls', k), RemoveAt(nodes, k), RemoveAt(hs, k), RemoveAt(items, k - 1), top)
  {
    var ls1, nodes1, hs1 := RemoveAt(ls', k), RemoveAt(nodes, k), RemoveAt(hs, k);
    forall p | 0 <= p < |nodes1| ensures |ls1[p]| == hs1[p] {
      var p' := if p < k then p else p + 1;
      assert ls1[p] == ls'[p'] && |ls'[p']| == |ls[p']|;
    }
    forall p: nat, q: nat | p < q < |nodes1| ensures Apart(nodes1, p, q) {
      assert Apart(nodes, if p < k then p else p + 1, if q < k then q else q + 1);
    }
  }

  /** A node bypassed on every layer in use leaves the link structure of the shorter list. */
  lemma UnlinkedLinks(ls: seq<seq<Layer>>, ls': seq<seq<Layer>>, nodes: seq<Node>, hs: seq<nat>,
                      items: seq<PlayerRankItem>, top: nat, k: nat)
    requires Shape(ls, nodes, hs, items, top) && EmptyFrom(ls, top) && 0 < k < |hs|
    requires SameFrom(ls, ls', top)
    requires HalfUnlinked(ls', RemoveAt(nodes, k), RemoveAt(hs, k), k, nodes[k], hs[k], top, top)
    ensures Links(RemoveAt(ls', k), RemoveAt(nodes, k), RemoveAt(hs, k), RemoveAt(items, k - 1), top)
  {
    UnlinkedShape(ls, ls', nodes, hs, items, top, k);
    assert RemoveAt(ls', k)[0] == ls'[0] && |ls[0]| == |ls'[0]|;
  }

  /** A top layer that only the head reaches may be given up. */
  lemma LowerTop(ls: seq<seq<Layer>>, nodes: seq<Node>, hs: seq<nat>, items: seq<PlayerRankItem>, top: nat)
    requires Links(ls, nodes, hs, items, top) && top > 1 && |ls[0]| >= top && ls[0][top - 1].next == null
    ensures Links(ls, nodes, hs, items, top - 1)
  {
    var ok := LevelOk(ls, nodes, hs, top - 1);
    assert ok && NodeOk(ls, nodes, hs, 0, top - 1);
    forall p | 1 <= p < |hs| ensures hs[p] <= top - 1 { NextSkips(hs, 0, top - 1, p); }
  }

  /** The values of the rows, in list order. */
  ghost function Ranks(items: seq<PlayerRankItem>): (rs: seq<Rank>)
    reads items
    ensures |rs| == |items|
    ensures forall a :: 0 <= a < |items| ==> rs[a] == items[a].Snap()
  {
    seq(|items|, a requires 0 <= a < |items| reads items => items[a].Snap())
  }

  /** The search boundary: where `v` belongs in the descending list of rows. */
  ghost predicate Splits(items: seq<PlayerRankItem>, v: PlayerRankItem, c: nat)
    reads items, v
  {
    c <= |items| && forall a :: 0 <= a < |items| ==> (items[a].Greater(v) <==> a < c)
  }

  /** For each height, the number of towers of that height. */
  ghost predicate Counted(lengthsNum: seq<int>, hs: seq<nat>)
    requires |hs| > 0
  {
    |lengthsNum| == MAX_SKIPLIST_LAYER &&
    forall g :: 0 <= g < MAX_SKIPLIST_LAYER ==> lengthsNum[g] == multiset(hs[1..])[g + 1]
  }

  lemma CountedInsert(lengthsNum: seq<int>, hs: seq<nat>, k: nat, h: nat)
    requires 0 < k <= |hs| && 1 <= h <= MAX_SKIPLIST_LAYER && Counted(lengthsNum, hs)
    ensures Counted(lengthsNum[h - 1 := lengthsNum[h - 1] + 1], InsertAt(hs, k, h))
  {
    InsertCount(hs, k, h);
  }

  lemma CountedRemove(lengthsNum: seq<int>, hs: seq<nat>, k: nat)
    requires 0 < k < |hs| && 1 <= hs[k] <= MAX_SKIPLIST_LAYER && Counted(lengthsNum, hs)
    ensures lengthsNum[hs[k] - 1] > 0
    ensures Counted(lengthsNum[hs[k] - 1 := lengthsNum[hs[k] - 1] - 1], RemoveAt(hs, k))
  {
    RemoveCount(hs, k);
  }

  function SumTo(counts: seq<int>, n: nat): int
    requires n <= |counts|
  {
    if n == 0 then 0 else SumTo(counts, n - 1) + counts[n - 1]
  }

  /** One more tower of height h. */
  lemma {:induction false} SumOfOneMore(a: seq<int>, b: seq<int>, h: nat, n: nat)
    requires |a| == |b| && n <= |a| && 1 <= h <= |a|
    requires forall g :: 0 <= g < |a| ==> b[g] == a[g] + if g + 1 == h then 1 else 0
    ensures SumTo(b, n) == SumTo(a, n) + if h <= n then 1 else 0
  {
    if n > 0 {
      SumOfOneMore(a, b, h, n - 1);
    }
  }

  lemma {:induction false} SumOfNone(a: seq<int>, n: nat)
    requires n <= |a| && forall g :: 0 <= g < |a| ==> a[g] == 0
    ensures SumTo(a, n) == 0
  {
    if n > 0 {
      SumOfNone(a, n - 1);
    }
  }

  /** The counts by height add up to the number of rows. */
  lemma {:induction false} HeightsAddUp(lengthsNum: seq<int>, hs: seq<nat>)
    requires |hs| > 0 && Counted(lengthsNum, hs) && forall p :: 1 <= p < |hs| ==> 1 <= hs[p] <= MAX_SKIPLIST_LAYER
    ensures SumTo(lengthsNum, MAX_SKIPLIST_LAYER) == |hs| - 1
    decreases |hs|
  {
    if |hs| == 1 {
      assert hs[1..] == [];
      SumOfNone(lengthsNum, MAX_SKIPLIST_LAYER);
    } else {
      var k := |hs| - 1;
      var h := hs[k];
      var fewer := lengthsNum[h - 1 := lengthsNum[h - 1] - 1];
      CountedRemove(lengthsNum, hs, k);
      assert RemoveAt(hs, k) == hs[..k];
      HeightsAddUp(fewer, hs[..k]);
      SumOfOneMore(fewer, lengthsNum, h, MAX_SKIPLIST_LAYER);
    }
  }

  lemma BoundaryIsAbove(items: seq<PlayerRankItem>, v: PlayerRankItem)
    requires Descending(Ranks(items))
    ensures Splits(items, v, Above(Ranks(items), v.Snap()))
  {
    var rs := Ranks(items);
    AboveSplits(rs, v.Snap());
    forall a | 0 <= a < |items| ensures items[a].Greater(v) <==> a < Above(rs, v.Snap()) {
      assert rs[a] == items[a].Snap();
    }
  }

  class Skiplist {
    var currLayer: int
    var currLength: int
    var lengthsNum: seq<int>
    var head: Node
    var tail: Node?
    var beforeNode: seq<Node?>
    var rank: seq<int>

    ghost var nodes: seq<Node>
    ghost var hs: seq<nat>
    ghost var items: seq<PlayerRankItem>

    /** The links alone: every layer in use is correct, every other layer is empty. */
    ghost predicate Linked()
      reads `nodes, `hs, `items, `currLayer, `head, nodes
    {
      && Links(Towers(nodes), nodes, hs, items, currLayer)
      && head == nodes[0]
    }

    /** The books: length, heights, last node, and the order of the rows. */
    ghost predicate Booked(nodes: seq<Node>, hs: seq<nat>, items: seq<PlayerRankItem>)
      requires |nodes| == |hs| == |items| + 1
      reads `currLength, `lengthsNum, `tail, items
    {
      && currLength == |items|
      && Counted(lengthsNum, hs)
      && (if items == [] then tail == null || tail == nodes[0] else tail == nodes[|items|])
      && Descending(Ranks(items))
    }

    ghost predicate Valid()
      reads this, nodes, items
    {
      Linked() && |beforeNode| == |rank| == MAX_SKIPLIST_LAYER && Booked(nodes, hs, items)
    }

    constructor ()
      ensures Valid() && fresh(nodes) && items == []
    {
      currLayer := 1;
      currLength := 0;
      lengthsNum := seq(MAX_SKIPLIST_LAYER, _ => 0);
      head := new Node(MAX_SKIPLIST_LAYER, null);
      tail := null;
      beforeNode := seq(MAX_SKIPLIST_LAYER, _ => null);
      rank := seq(MAX_SKIPLIST_LAYER, _ => 0);
      new;
      nodes, hs, items := [head], [MAX_SKIPLIST_LAYER], [];
    }

    /** The heights counted are those of all the rows. */
    lemma CountsSumToLength()
      requires Valid()
      ensures SumTo(lengthsNum, MAX_SKIPLIST_LAYER) == currLength
    {
      HeightsAddUp(lengthsNum, hs);
    }

    /** What a search reads from the node at position `p` on layer `i`. */
    lemma LinkAt(p: nat, i: nat)
      requires Linked() && p < |nodes| && i < currLayer && i < hs[p]
      ensures |nodes[p].layers| == hs[p] && nodes[p].layers[i] == LayerAt(nodes, hs, p, i)
      ensures nodes[p].layers[i].next == null <==> Next(hs, p, i) == |nodes|
      ensures var q := Next(hs, p, i); q < |nodes| ==>
        nodes[p].layers[i].next == nodes[q] && nodes[q].value == items[q - 1] && nodes[p].layers[i].span == q - p
    {
      assert LevelOk(Towers(nodes), nodes, hs, i) && NodeOk(Towers(nodes), nodes, hs, p, i) &&
        Towers(nodes)[p] == nodes[p].layers;
    }

    /** The step condition of every search: the next row on layer `i` is still before the boundary. */
    predicate NextIsGreater(n: Node, i: int, v: PlayerRankItem)
      requires 0 <= i < |n.layers|
      requires n.layers[i].next != null ==> n.layers[i].next.value != null
      reads n, v, n.layers[i].next, if n.layers[i].next == null then {} else {n.layers[i].next.value}
    {
      n.layers[i].next != null && n.layers[i].next.value.Greater(v)
    }

    /** What that test says of the node at position `p`, with the boundary at `c`. */
    ghost predicate StepFacts(n: Node, p: nat, i: nat, v: PlayerRankItem, c: nat)
      requires |nodes| == |hs| && p <= c < |hs| && hs[0] > i
      reads this, n, v, nodes, set m: Node | m in nodes :: m.value
    {
      && n == nodes[p] && hs[p] > i && |n.layers| > i
      && (n.layers[i].next != null ==> n.layers[i].next in nodes && n.layers[i].next.value != null)
      && var q := Next(hs, p, i);
         if NextIsGreater(n, i, v)
         then q <= c && n.layers[i].next == nodes[q] && n.layers[i].span == q - p
         else q > c && p == Prev(hs, c + 1, i)
    }

    lemma SearchStep(n: Node, p: nat, i: nat, v: PlayerRankItem, c: nat)
      requires Linked() && Splits(items, v, c) && p <= c && i < currLayer && i < hs[p] && n == nodes[p]
      ensures StepFacts(n, p, i, v, c)
    {
      LinkAt(p, i);
      NextOfPrev(hs, p, c + 1, i);
    }

    /** Follows layer `i` from the node at position `p` while the next row is greater than `v`;
        returns the last node before the boundary and the number of rows passed. */
    method SkipGreater(start: Node, i: int, v: PlayerRankItem, ghost p: nat, ghost c: nat)
        returns (node: Node, passed: int)
      requires Linked() && Splits(items, v, c)
      requires 0 <= i < currLayer && p <= c && start == nodes[p] && hs[p] > i
      ensures 0 <= passed && p + passed == Prev(hs, c + 1, i) && node == nodes[p + passed]
    {
      node, passed := start, 0;
      SearchStep(node, p, i, v, c);
      while NextIsGreater(node, i, v)
        invariant 0 <= passed && p + passed <= c && StepFacts(node, p + passed, i, v, c)
        decreases |nodes| - passed
      {
        passed := passed + node.layers[i].span;
        node := node.layers[i].next;
        SearchStep(node, p + passed, i, v, c);
      }
    }

    /** The descent of an insertion: leaves for each layer the last node before the boundary,
        with its position. */
    method Search(v: PlayerRankItem, ghost c: nat)
      requires Linked() && |beforeNode| == |rank| == MAX_SKIPLIST_LAYER
      requires Splits(items, v, c)
      modifies `rank, `beforeNode
      ensures |beforeNode| == |rank| == MAX_SKIPLIST_LAYER
      ensures forall j :: 0 <= j < currLayer ==> rank[j] == Prev(hs, c + 1, j) && beforeNode[j] == nodes[rank[j]]
    {
      var node := head;
      ghost var pos: nat := 0;
      var i := currLayer - 1;
      while i >= 0
        invariant -1 <= i < currLayer
        invariant |beforeNode| == |rank| == MAX_SKIPLIST_LAYER
        invariant pos <= c && node == nodes[pos] && (i >= 0 ==> hs[pos] > i)
        invariant pos == if i == currLayer - 1 then 0 else rank[i + 1]
        invariant forall j :: i < j < currLayer ==> rank[j] == Prev(hs, c + 1, j) && beforeNode[j] == nodes[rank[j]]
      {
        var passed;
        var base := if i == currLayer - 1 then 0 else rank[i + 1];
        node, passed := SkipGreater(node, i, v, pos, c);
        rank := rank[i := base + passed];
        beforeNode := beforeNode[i := node];
        pos := pos + passed;
        i := i - 1;
      }
    }

    /** Links `x` into layer `i` behind `node`, which is followed there by `nx`, and divides the span. */
    static method Relink(x: Node, node: Node, i: nat, d: int)
      requires i < |x.layers| && i < |node.layers| && x != node
      requires node.layers[i].next != null ==>
               i < |node.layers[i].next.layers| && node.layers[i].next != x && node.layers[i].next != node
      modifies x, node, node.layers[i].next
      ensures var l := old(node.layers[i]);
              && x.layers == old(x.layers)[i := Layer(l.next, node, l.span - d)]
              && node.layers == old(node.layers)[i := Layer(x, l.prev, d + 1)]
              && (l.next != null ==> l.next.layers == old(l.next.layers)[i := old(l.next.layers[i]).(prev := x)])
    {
      x.layers := x.layers[i := x.layers[i].(next := node.layers[i].next, prev := node)];
      if node.layers[i].next != null {
        var nx := node.layers[i].next;
        nx.layers := nx.layers[i := nx.layers[i].(prev := x)];
      }
      node.layers := node.layers[i := node.layers[i].(next := x)];
      x.layers := x.layers[i := x.layers[i].(span := node.layers[i].span - d)];
      node.layers := node.layers[i := node.layers[i].(span := d + 1)];
    }

    /** Links the new node into layer `i` behind its recorded predecessor. */
    method SpliceAt(x: Node, i: int, d: int, ghost b: nat, ghost q: nat)
      requires |nodes| > 0 && b < q <= |nodes| && 0 <= i < |beforeNode| && i < |x.layers|
      requires Distinct(nodes) && x !in nodes
      requires beforeNode[i] == nodes[b] && i < |nodes[b].layers| && (q < |nodes| ==> i < |nodes[q].layers|)
      requires nodes[b].layers[i].next == if q < |nodes| then nodes[q] else null
      modifies x, nodes
      ensures x.layers ==
              old(x.layers)[i := Layer(old(nodes[b].layers[i].next), nodes[b], old(nodes[b].layers[i].span) - d)]
      ensures Towers(nodes) == RelinkedTowers(old(Towers(nodes)), x, i, d, b, q)
    {
      ghost var ls := Towers(nodes);
      AllApart(nodes);
      assert ls[b] == nodes[b].layers && (q < |nodes| ==> ls[q] == nodes[q].layers);
      Relink(x, beforeNode[i], i, d);
      assert Towers(nodes) == RelinkedTowers(ls, x, i, d, b, q);
    }

    method Splice(x: Node, i: int, ghost k: nat, ghost h: nat)
      requires |nodes| == |hs| && 0 < k <= |hs| && 0 <= i < h <= hs[0] == |beforeNode| == |rank|
      requires Distinct(nodes) && x !in nodes && |x.layers| == h
      requires LevelOk(Towers(nodes), nodes, hs, i)
      requires rank[0] == k - 1 && rank[i] == Prev(hs, k, i) && beforeNode[i] == nodes[rank[i]]
      modifies x, nodes
      ensures OffLayer(old(x.layers), x.layers, i) && OffTowers(old(Towers(nodes)), Towers(nodes), i)
      ensures LevelOk(InsertAt(Towers(nodes), k, x.layers), InsertAt(nodes, k, x), InsertAt(hs, k, h), i)
    {
      ghost var b := Prev(hs, k, i);
      ghost var q := Next(hs, b, i);
      ghost var ls, xl := Towers(nodes), x.layers;
      assert NodeOk(ls, nodes, hs, b, i) && ls[b] == nodes[b].layers;
      if q < |nodes| { assert NodeOk(ls, nodes, hs, q, i) && ls[q] == nodes[q].layers; }
      SpliceAt(x, i, rank[0] - rank[i], b, q);
      RelinkedLevelOk(ls, nodes, hs, k, x, xl, h, i, b, q);
    }

    /** A span that passes over the new node grows by one. */
    method Bump(i: int, delta: int, ghost b: nat)
      requires |nodes| > b && 0 <= i < |beforeNode| && beforeNode[i] == nodes[b] && i < |nodes[b].layers|
      requires Distinct(nodes)
      modifies nodes
      ensures Towers(nodes) == BumpedTowers(old(Towers(nodes)), i, delta, b)
    {
      ghost var ls := Towers(nodes);
      AllApart(nodes);
      var node := beforeNode[i];
      node.layers := node.layers[i := node.layers[i].(span := node.layers[i].span + delta)];
      assert Towers(nodes) == BumpedTowers(ls, i, delta, b);
    }

    /** Links the new node into every layer it reaches, and stretches the spans above it. */
    method LinkIn(x: Node, newLayer: nat, ghost k: nat)
      requires |nodes| == |hs| && 0 < k <= |hs| && 1 <= newLayer <= currLayer <= hs[0] == |beforeNode| == |rank|
      requires Distinct(nodes) && x !in nodes && |x.layers| == newLayer
      requires forall j :: 0 <= j < currLayer ==> LevelOk(Towers(nodes), nodes, hs, j)
      requires rank[0] == k - 1
      requires forall j :: 0 <= j < currLayer ==> rank[j] == Prev(hs, k, j) && beforeNode[j] == nodes[rank[j]]
      modifies x, nodes
      ensures |x.layers| == newLayer
      ensures SameFrom(old(Towers(nodes)), Towers(nodes), currLayer)
      ensures HalfSpliced(Towers(nodes), x.layers, nodes, hs, k, x, newLayer, currLayer, currLayer)
    {
      ghost var ls0 := Towers(nodes);
      var i := 0;
      while i < newLayer
        invariant 0 <= i <= newLayer && |x.layers| == newLayer
        invariant SameFrom(ls0, Towers(nodes), currLayer)
        invariant HalfSpliced(Towers(nodes), x.layers, nodes, hs, k, x, newLayer, i, currLayer)
      {
        ghost var ls, xl := Towers(nodes), x.layers;
        Splice(x, i, k, newLayer);
        HalfSplicedStep(ls, Towers(nodes), xl, x.layers, nodes, hs, k, x, newLayer, i, currLayer);
        SameFromStep(ls0, ls, Towers(nodes), i, currLayer);
        i := i + 1;
      }
      while i < currLayer
        invariant newLayer <= i <= currLayer && |x.layers| == newLayer
        invariant SameFrom(ls0, Towers(nodes), currLayer)
        invariant HalfSpliced(Towers(nodes), x.layers, nodes, hs, k, x, newLayer, i, currLayer)
      {
        ghost var ls := Towers(nodes);
        ghost var b := Prev(hs, k, i);
        assert LevelOk(ls, nodes, hs, i) && NodeOk(ls, nodes, hs, b, i) && ls[b] == nodes[b].layers;
        Bump(i, 1, b);
        BumpedLevelOk(ls, nodes, hs, k, x, x.layers, newLayer, i, b);
        HalfSplicedStep(ls, Towers(nodes), x.layers, x.layers, nodes, hs, k, x, newLayer, i, currLayer);
        SameFromStep(ls0, ls, Towers(nodes), i, currLayer);
        i := i + 1;
      }
    }

    /** Opens the empty layers up to `newLayer`: only the head is there. */
    method Raise(newLayer: nat, ghost k: nat)
      requires Linked() && |beforeNode| == |rank| == MAX_SKIPLIST_LAYER && currLength == |items|
      requires currLayer < newLayer <= MAX_SKIPLIST_LAYER && 0 < k <= |hs|
      requires forall j :: 0 <= j < currLayer ==> rank[j] == Prev(hs, k, j) && beforeNode[j] == nodes[rank[j]]
      modifies `rank, `beforeNode, `currLayer, head
      ensures Linked() && |beforeNode| == |rank| == MAX_SKIPLIST_LAYER && currLayer == newLayer
      ensures forall j :: 0 <= j < currLayer ==> rank[j] == Prev(hs, k, j) && beforeNode[j] == nodes[rank[j]]
    {
      var i := currLayer;
      while i < newLayer
        invariant currLayer <= i <= newLayer && |beforeNode| == |rank| == MAX_SKIPLIST_LAYER
        invariant forall p {:trigger Towers(nodes)[p]} :: 0 <= p < |nodes| ==> |Towers(nodes)[p]| == hs[p]
        invariant EmptyFrom(Towers(nodes), i)
        invariant forall j :: 0 <= j < i ==> LevelOk(Towers(nodes), nodes, hs, j)
        invariant forall j :: 0 <= j < i ==> rank[j] == Prev(hs, k, j) && beforeNode[j] == nodes[rank[j]]
      {
        ghost var ls := Towers(nodes);
        assert |ls[0]| == hs[0] && ls[0] == head.layers;
        rank := rank[i := 0];
        beforeNode := beforeNode[i := head];
        head.layers := head.layers[i := head.layers[i].(span := currLength)];
        ghost var ls' := Towers(nodes);
        assert OffTowers(ls, ls', i);
        TopLevelOk(ls', nodes, hs, i);
        PrevUnique(hs, k, i, 0);
        forall j: nat | j < i ensures LevelOk(ls', nodes, hs, j) {
          LevelFrame(ls, ls', nodes, hs, i, j);
        }
        i := i + 1;
      }
      currLayer := newLayer;
    }

    /** Builds the node of a new row and links it behind the boundary `c`. */
    method AddNode(v: PlayerRankItem, newLayer: nat, ghost c: nat) returns (newNode: Node)
      requires Linked() && |beforeNode| == |rank| == MAX_SKIPLIST_LAYER
      requires c <= |items| && 1 <= newLayer <= currLayer
      requires forall j :: 0 <= j < currLayer ==> rank[j] == Prev(hs, c + 1, j) && beforeNode[j] == nodes[rank[j]]
      modifies `nodes, `hs, `items, nodes
      ensures Linked() && fresh(newNode) && newNode in nodes
      ensures items == InsertAt(old(items), c, v) && hs == InsertAt(old(hs), c + 1, newLayer)
      ensures nodes == InsertAt(old(nodes), c + 1, newNode)
      ensures |newNode.layers| == newLayer && (newNode.layers[0].next == null <==> c == |old(items)|)
    {
      newNode := new Node(newLayer, v);
      assert rank[0] == c;
      LinkIn(newNode, newLayer, c + 1);
      ghost var ls := InsertAt(Towers(nodes), c + 1, newNode.layers);
      SplicedLinks(old(Towers(nodes)), Towers(nodes), nodes, hs, items, currLayer, c, newNode, newNode.layers, newLayer,
        v);
      nodes := InsertAt(nodes, c + 1, newNode);
      hs := InsertAt(hs, c + 1, newLayer);
      items := InsertAt(items, c, v);
      assert Towers(nodes) == ls;
      LinkAt(c + 1, 0);
    }

    /** The links of an insertion: the new node stands right behind the rows greater than `v`. */
    method InsertNode(v: PlayerRankItem, newLayer: nat, ghost c: nat) returns (newNode: Node)
      requires Linked() && |beforeNode| == |rank| == MAX_SKIPLIST_LAYER && currLength == |items|
      requires 1 <= newLayer <= MAX_SKIPLIST_LAYER && Splits(items, v, c)
      modifies `rank, `beforeNode, `currLayer, `nodes, `hs, `items, nodes
      ensures Linked() && fresh(newNode) && |beforeNode| == |rank| == MAX_SKIPLIST_LAYER
      ensures items == InsertAt(old(items), c, v) && hs == InsertAt(old(hs), c + 1, newLayer)
      ensures nodes == InsertAt(old(nodes), c + 1, newNode)
      ensures |newNode.layers| == newLayer && (newNode.layers[0].next == null <==> c == |old(items)|)
    {
      Search(v, c);
      if newLayer > currLayer {
        Raise(newLayer, c + 1);
      }
      newNode := AddNode(v, newLayer, c);
    }

    lemma RanksAfterInsert(rs: seq<Rank>, oldItems: seq<PlayerRankItem>, v: PlayerRankItem)
      requires Ranks(oldItems) == rs && Descending(rs)
      ensures Ranks(InsertAt(oldItems, Above(rs, v.Snap()), v)) == InsertAt(rs, Above(rs, v.Snap()), v.Snap())
      ensures Descending(InsertAt(rs, Above(rs, v.Snap()), v.Snap()))
    {
      InsertDescending(rs, v.Snap());
    }

    /** The books of an insertion at `c`. */
    method RecordInsert(newNode: Node, v: PlayerRankItem, ghost c: nat, ghost h: nat, ghost nodes0: seq<Node>,
                        ghost hs0: seq<nat>, ghost items0: seq<PlayerRankItem>)
      requires |nodes0| == |hs0| == |items0| + 1 && Booked(nodes0, hs0, items0)
      requires c == Above(Ranks(items0), v.Snap()) && 1 <= h == |newNode.layers| <= MAX_SKIPLIST_LAYER
      requires newNode.layers[0].next == null <==> c == |items0|
      modifies `tail, `lengthsNum, `currLength
      ensures Booked(InsertAt(nodes0, c + 1, newNode), InsertAt(hs0, c + 1, h), InsertAt(items0, c, v))
    {
      CountedInsert(lengthsNum, hs0, c + 1, h);
      RanksAfterInsert(Ranks(items0), items0, v);
      if newNode.layers[0].next == null {
        tail := newNode;
      }
      lengthsNum := lengthsNum[|newNode.layers| - 1 := lengthsNum[|newNode.layers| - 1] + 1];
      currLength := currLength + 1;
    }

    /** Puts a row where the order wants it, in a tower of the drawn height. */
    method Insert(v: PlayerRankItem, newLayer: nat) returns (layer: int)
      requires Valid() && 1 <= newLayer <= MAX_SKIPLIST_LAYER
      modifies this, nodes
      ensures Valid() && layer == newLayer
      ensures var c := Above(old(Ranks(items)), old(v.Snap()));
        && items == InsertAt(old(items), c, v)
        && hs == InsertAt(old(hs), c + 1, newLayer)
        && fresh(nodes[c + 1]) && nodes == InsertAt(old(nodes), c + 1, nodes[c + 1])
    {
      ghost var nodes0, hs0, items0 := nodes, hs, items;
      ghost var c := Above(Ranks(items), v.Snap());
      BoundaryIsAbove(items, v);
      var newNode := InsertNode(v, newLayer, c);
      RecordInsert(newNode, v, c, newLayer, nodes0, hs0, items0);
      layer := newLayer;
    }

    /** Finds the row with the key of `v` where `v` would stand, and leaves for each layer the
        last node before that place. */
    method GetNode(v: PlayerRankItem) returns (node: Node?)
      requires Valid()
      modifies `beforeNode
      ensures Valid()
      ensures var c := Above(Ranks(items), v.Snap());
        && node == (if c < |items| && items[c].playerId == v.playerId then nodes[c + 1] else null)
        && forall j :: 0 <= j < currLayer ==> beforeNode[j] == nodes[Prev(hs, c + 1, j)]
    {
      ghost var c := Above(Ranks(items), v.Snap());
      BoundaryIsAbove(items, v);
      var n := Descend(v, c);
      LinkAt(c, 0);
      node := null;
      if n.layers[0].next != null && n.layers[0].next.value.KeyEqual(v) {
        node := n.layers[0].next;
      }
    }

    /** The descent of a lookup. */
    method Descend(v: PlayerRankItem, ghost c: nat) returns (n: Node)
      requires Linked() && |beforeNode| == MAX_SKIPLIST_LAYER && Splits(items, v, c)
      modifies `beforeNode
      ensures |beforeNode| == MAX_SKIPLIST_LAYER && n == nodes[c]
      ensures forall j :: 0 <= j < currLayer ==> beforeNode[j] == nodes[Prev(hs, c + 1, j)]
    {
      n := head;
      ghost var pos: nat := 0;
      var i := currLayer - 1;
      while i >= 0
        invariant -1 <= i < currLayer && |beforeNode| == MAX_SKIPLIST_LAYER
        invariant pos <= c && n == nodes[pos] && (i >= 0 ==> hs[pos] > i) && (i < 0 ==> pos == Prev(hs, c + 1, 0))
        invariant forall j :: i < j < currLayer ==> beforeNode[j] == nodes[Prev(hs, c + 1, j)]
      {
        var passed;
        n, passed := SkipGreater(n, i, v, pos, c);
        pos := pos + passed;
        beforeNode := beforeNode[i := n];
        i := i - 1;
      }
      PrevUnique(hs, c + 1, 0, c);
    }

    /** The node at a rank: the head at 0, the `rank`-th row up to the length, nothing elsewhere. */
    method GetNodeByRank(rank: int) returns (node: Node?)
      requires Linked()
      ensures node == if 0 <= rank <= |items| then nodes[rank] else null
    {
      var n := head;
      var currRank := 0;
      var i := currLayer - 1;
      node := null;
      while i >= 0
        invariant -1 <= i < currLayer
        invariant 0 <= currRank <= |items| && n == nodes[currRank] && (i >= 0 ==> hs[currRank] > i)
        invariant currRank == 0 || currRank < rank
        invariant i < 0 && 0 <= rank ==> rank > |items|
        invariant rank != 0 || i >= 0
      {
        n, currRank := SkipToRank(n, i, currRank, rank);
        if currRank == rank {
          node := n;
          return;
        }
        if i == 0 { NextUnique(hs, currRank, 0, currRank + 1); }
        i := i - 1;
      }
    }

    /** Follows layer `i` while the span stays within `rank`. */
    method SkipToRank(start: Node, i: int, p: nat, rank: int) returns (n: Node, q: nat)
      requires Linked() && 0 <= i < currLayer && p < |nodes| && start == nodes[p] && hs[p] > i
      requires p == 0 || p <= rank
      ensures p <= q < |nodes| && n == nodes[q] && hs[q] > i && (q == 0 || q <= rank)
      ensures Next(hs, q, i) > rank || Next(hs, q, i) == |nodes|
    {
      n, q := start, p;
      LinkAt(q, i);
      while n.layers[i].next != null && q + n.layers[i].span <= rank
        invariant p <= q < |nodes| && n == nodes[q] && hs[q] > i && (q == 0 || q <= rank)
        invariant |n.layers| > i && n.layers[i] == LayerAt(nodes, hs, q, i)
        decreases |nodes| - q
      {
        q := q + n.layers[i].span;
        n := n.layers[i].next;
        LinkAt(q, i);
      }
    }

    method GetByRank(rank: int) returns (v: PlayerRankItem?)
      requires Valid()
      ensures v == if 1 <= rank <= |items| then items[rank - 1] else null
    {
      var node := GetNodeByRank(rank);
      v := if node == null then null else node.value;
    }

    /** Rank `r` shows a row with the key of `v` that no tower from the boundary on hides; 0 says there is none. */
    ghost predicate RankFound(v: PlayerRankItem, c: nat, r: int)
      requires c < |hs| == |items| + 1
      reads `hs, `items, items, v
    {
      && 0 <= r <= |items|
      && (r > 0 ==> Visible(hs, c + 1, r) && items[r - 1].playerId == v.playerId)
      && (r == 0 ==> forall a :: 0 <= a < |items| && Visible(hs, c + 1, a + 1) ==> items[a].playerId != v.playerId)
    }

    /** The rank of a row with the key of `v`: the search looks, layer by layer, only at the first tower at
        or behind the place of `v`, so it finds exactly the rows no higher or equal tower hides. */
    method GetRank(v: PlayerRankItem) returns (r: int)
      requires Valid()
      ensures RankFound(v, Above(Ranks(items), v.Snap()), r)
    {
      BoundaryIsAbove(items, v);
      r := RankFrom(v, Above(Ranks(items), v.Snap()));
    }

    /** One layer of the search: the last row before the place of `v`, and the distance to the row looked for. */
    method RankOnLayer(start: Node, i: int, v: PlayerRankItem, p: nat, ghost c: nat)
      returns (node: Node, r: int, span: int)
      requires Linked() && 0 <= i < currLayer && Splits(items, v, c) && p <= c && start == nodes[p] && hs[p] > i
      ensures 0 <= r <= c && node == nodes[r] && hs[r] > i
      ensures span == 0 ==> NotOnLayer(v, c, i)
      ensures span != 0 ==> 0 < span && RankFound(v, c, r + span)
    {
      var passed;
      node, passed := SkipGreater(start, i, v, p, c);
      r := p + passed;
      span := KeyIsNext(node, i, v, r, c);
    }

    method RankFrom(v: PlayerRankItem, ghost c: nat) returns (r: int)
      requires Linked() && Splits(items, v, c)
      ensures RankFound(v, c, r)
    {
      var node := head;
      r := 0;
      var i := currLayer - 1;
      while i >= 0
        invariant -1 <= i < currLayer
        invariant 0 <= r <= c && node == nodes[r] && (i >= 0 ==> hs[r] > i)
        invariant forall j :: i < j < currLayer ==> NotOnLayer(v, c, j)
      {
        var span;
        node, r, span := RankOnLayer(node, i, v, r, c);
        if span > 0 {
          r := r + span;
          return;
        }
        i := i - 1;
      }
      r := 0;
      NowhereVisible(v, c);
    }

    /** The distance to the next row on layer `i` if that has the key of `v`, else 0. */
    method KeyIsNext(node: Node, i: int, v: PlayerRankItem, ghost p: nat, ghost c: nat) returns (span: int)
      requires Linked() && 0 <= i < currLayer && c < |hs| && p == Prev(hs, c + 1, i) && node == nodes[p]
      ensures span == 0 ==> NotOnLayer(v, c, i)
      ensures span != 0 ==> 0 < span && RankFound(v, c, p + span)
    {
      LinkAt(p, i);
      span := 0;
      if node.layers[i].next != null && node.layers[i].next.value.KeyEqual(v) {
        span := node.layers[i].span;
        FirstIsVisible(hs, c + 1, i);
      }
    }

    /** The row the search meets on layer `j` does not have the key of `v`. */
    ghost predicate NotOnLayer(v: PlayerRankItem, c: nat, j: nat)
      requires c < |hs| == |items| + 1 && hs[0] > j
      reads `hs, `items, items, v
    {
      var q := Next(hs, Prev(hs, c + 1, j), j);
      q < |hs| ==> items[q - 1].playerId != v.playerId
    }

    lemma NowhereVisible(v: PlayerRankItem, c: nat)
      requires Linked() && c < |hs|
      requires forall j :: 0 <= j < currLayer ==> NotOnLayer(v, c, j)
      ensures RankFound(v, c, 0)
    {
      forall a | 0 <= a < |items| && Visible(hs, c + 1, a + 1) ensures items[a].playerId != v.playerId {
        VisibleIsFirst(hs, c + 1, a + 1);
        assert NotOnLayer(v, c, hs[a + 1] - 1);
      }
    }

    /** On the bottom layer every node is followed by the next one. */
    lemma NextRow(p: nat)
      requires Linked() && p < |nodes|
      ensures |nodes[p].layers| > 0 && nodes[p].layers[0].next == if p + 1 < |nodes| then nodes[p + 1] else null
      ensures |nodes| == |items| + 1
    {
      LinkAt(p, 0);
      NextUnique(hs, p, 0, p + 1);
    }

    /** Copies the rows from a rank on, as far as the list and the request reach. */
    method GetByRankRange(rankStart: int, rankNum: int, values: array?<PlayerRankItem?>) returns (ok: bool)
      requires Linked()
      modifies values
      ensures ok == (0 <= rankStart <= |items| && rankNum > 0 && values != null && values.Length >= rankNum)
      ensures !ok && values != null ==> values[..] == old(values[..])
      ensures ok ==> forall j :: 0 <= j < values.Length ==>
        values[j] == if j < rankNum && rankStart + j <= |items| then nodes[rankStart + j].value else old(values[j])
    {
      var node := GetNodeByRank(rankStart);
      if node == null || rankNum <= 0 || values == null {
        return false;
      }
      if values.Length < rankNum {
        return false;
      }
      CopyRange(node, rankNum, values, rankStart);
      ok := true;
    }

    method CopyRange(start: Node, rankNum: int, values: array<PlayerRankItem?>, ghost p: nat)
      requires Linked() && p < |nodes| && start == nodes[p] && 0 < rankNum <= values.Length
      modifies values
      ensures forall j :: 0 <= j < values.Length ==>
        values[j] == if j < rankNum && p + j <= |items| then nodes[p + j].value else old(values[j])
    {
      var node := start;
      values[0] := node.value;
      var i := 1;
      NextRow(p);
      while i < rankNum
        invariant 1 <= i <= rankNum && p + i <= |nodes| && node == nodes[p + i - 1]
        invariant forall j :: 0 <= j < values.Length ==>
                  values[j] == if j < i then nodes[p + j].value else old(values[j])
      {
        NextRow(p + i - 1);
        if node.layers[0].next == null {
          break;
        }
        values[i] := node.layers[0].next.value;
        node := node.layers[0].next;
        i := i + 1;
      }
    }

    method PullList() returns (rows: seq<PlayerRankItem>)
      requires Linked()
      ensures rows == items
    {
      var node := head;
      rows := [];
      NextRow(0);
      while node.layers[0].next != null
        invariant |rows| <= |items| && rows == items[..|rows|] && node == nodes[|rows|]
        invariant |node.layers| > 0 && node.layers[0].next == if |rows| < |items| then nodes[|rows| + 1] else null
        decreases |items| - |rows|
      {
        node := node.layers[0].next;
        rows := rows + [node.value];
        NextRow(|rows|);
      }
    }

    /** Bypasses the node on layer `i`. */
    static method Unlink(node: Node, i: nat)
      requires i < |node.layers| && node.layers[i].prev != node && node.layers[i].next != node
      requires node.layers[i].prev != null ==>
               i < |node.layers[i].prev.layers| && node.layers[i].prev != node.layers[i].next
      requires node.layers[i].next != null ==> i < |node.layers[i].next.layers|
      modifies node.layers[i].prev, node.layers[i].next
      ensures node.layers == old(node.layers)
      ensures var x := node.layers[i]; x.prev != null ==>
        x.prev.layers ==
          old(x.prev.layers)[i := old(x.prev.layers[i]).(next := x.next,
                                                         span := old(x.prev.layers[i]).span + (x.span - 1))]
      ensures var x := node.layers[i]; x.next != null ==>
        x.next.layers == old(x.next.layers)[i := old(x.next.layers[i]).(prev := x.prev)]
    {
      if node.layers[i].prev != null {
        var pr := node.layers[i].prev;
        pr.layers := pr.layers[i := pr.layers[i].(next := node.layers[i].next)];
        pr.layers := pr.layers[i := pr.layers[i].(span := pr.layers[i].span + (node.layers[i].span - 1))];
      }
      if node.layers[i].next != null {
        var nx := node.layers[i].next;
        nx.layers := nx.layers[i := nx.layers[i].(prev := node.layers[i].prev)];
      }
    }

    method UnlinkAt(node: Node, i: nat, ghost k: nat, ghost b: nat, ghost q: nat)
      requires b < k < q <= |nodes| && node == nodes[k]
      requires Distinct(nodes)
      requires i < |nodes[b].layers| && i < |node.layers| && (q < |nodes| ==> i < |nodes[q].layers|)
      requires node.layers[i].prev == nodes[b] && node.layers[i].next == if q < |nodes| then nodes[q] else null
      modifies nodes
      ensures Towers(nodes) == UnlinkedTowers(old(Towers(nodes)), i, k, b, q)
    {
      ghost var ls := Towers(nodes);
      AllApart(nodes);
      assert ls[b] == nodes[b].layers && ls[k] == node.layers && (q < |nodes| ==> ls[q] == nodes[q].layers);
      Unlink(node, i);
      assert Towers(nodes) == UnlinkedTowers(ls, i, k, b, q);
    }

    /** Takes the node at position `k` out of every layer in use. */
    method UnlinkAll(node: Node, ghost k: nat)
      requires Linked() && |beforeNode| == MAX_SKIPLIST_LAYER && 1 <= k < |nodes| && node == nodes[k]
      requires forall j :: hs[k] <= j < currLayer ==> beforeNode[j] == nodes[Prev(hs, k, j)]
      modifies nodes
      ensures SameFrom(old(Towers(nodes)), Towers(nodes), currLayer) && node.layers == old(node.layers)
      ensures HalfUnlinked(Towers(nodes), RemoveAt(nodes, k), RemoveAt(hs, k), k, node, hs[k], currLayer, currLayer)
    {
      ghost var ls0, nodes0, hs0 := Towers(nodes), RemoveAt(nodes, k), RemoveAt(hs, k);
      ghost var h: nat := hs[k];
      RemoveThenInsert(nodes, k);
      RemoveThenInsert(hs, k);
      var n := 0;
      while n < currLayer
        invariant 0 <= n <= currLayer && Towers(nodes)[k] == ls0[k]
        invariant SameFrom(ls0, Towers(nodes), currLayer)
        invariant HalfUnlinked(Towers(nodes), nodes0, hs0, k, node, h, n, currLayer)
      {
        ghost var ls := Towers(nodes);
        assert |ls0[k]| == h && |ls[k]| == |ls0[k]| && ls[k] == node.layers;
        UnlinkLevel(node, n, k, nodes0, hs0, h);
        HalfUnlinkedStep(ls, Towers(nodes), nodes0, hs0, k, node, h, n, currLayer);
        SameFromStep(ls0, ls, Towers(nodes), n, currLayer);
        n := n + 1;
      }
    }

    method UnlinkLevel(node: Node, n: nat, ghost k: nat, ghost nodes0: seq<Node>, ghost hs0: seq<nat>, ghost h: nat)
      requires |nodes| == |hs| == |nodes0| + 1 == |hs0| + 1 && 1 <= k < |nodes| && node == nodes[k] &&
               n < hs0[0] == |beforeNode|
      requires nodes == InsertAt(nodes0, k, node) && hs == InsertAt(hs0, k, h) && |node.layers| == h
      requires Distinct(nodes)
      requires LevelOk(Towers(nodes), InsertAt(nodes0, k, node), InsertAt(hs0, k, h), n)
      requires n >= h ==> beforeNode[n] == nodes[Prev(hs, k, n)]
      modifies nodes
      ensures OffTowers(old(Towers(nodes)), Towers(nodes), n) && Towers(nodes)[k] == old(Towers(nodes)[k])
      ensures LevelOk(RemoveAt(Towers(nodes), k), nodes0, hs0, n)
    {
      ghost var ls := Towers(nodes);
      ghost var b := Prev(hs0, k, n);
      ghost var q := Next(hs0, b, n) + 1;
      PrevInsert(hs0, k, h, k, n);
      if |node.layers| > n {
        UnlinkedLevelOk(ls, nodes0, hs0, k, node, h, n, b, q);
        SplicedItself(nodes0, hs0, k, node, h, n);
        assert NodeOk(ls, nodes, hs, k, n);
        assert ls[b] == nodes[b].layers && ls[k] == node.layers && (q < |nodes| ==> ls[q] == nodes[q].layers);
        UnlinkAt(node, n, k, b, q);
      } else {
        UnbumpedLevelOk(ls, nodes0, hs0, k, node, h, n, b);
        assert ls[b] == nodes[b].layers;
        Bump(n, -1, b);
      }
    }

    /** The links of a removal. */
    method ExtractNode(node: Node, ghost k: nat)
      requires Linked() && |beforeNode| == MAX_SKIPLIST_LAYER && 1 <= k < |nodes| && node == nodes[k]
      requires forall j :: hs[k] <= j < currLayer ==> beforeNode[j] == nodes[Prev(hs, k, j)]
      modifies `nodes, `hs, `items, nodes
      ensures Linked()
      ensures items == RemoveAt(old(items), k - 1) && hs == RemoveAt(old(hs), k) && nodes == RemoveAt(old(nodes), k)
      ensures |node.layers| == old(hs[k]) > 0 && node.layers[0].prev == nodes[k - 1]
    {
      LinkAt(k, 0);
      PrevUnique(hs, k, 0, k - 1);
      UnlinkAll(node, k);
      ghost var ls1 := RemoveAt(Towers(nodes), k);
      UnlinkedLinks(old(Towers(nodes)), Towers(nodes), nodes, hs, items, currLayer, k);
      nodes, hs, items := RemoveAt(nodes, k), RemoveAt(hs, k), RemoveAt(items, k - 1);
      assert Towers(nodes) == ls1;
    }

    /** The top layer is lowered once, even if several have become empty. */
    method LowerTopLayer()
      requires Linked()
      modifies `currLayer
      ensures Linked()
    {
      assert Towers(nodes)[0] == head.layers && |Towers(nodes)[0]| == hs[0];
      if currLayer > 1 && head.layers[currLayer - 1].next == null {
        LowerTop(Towers(nodes), nodes, hs, items, currLayer);
        currLayer := currLayer - 1;
      }
    }

    lemma RanksAfterRemove(rs: seq<Rank>, oldItems: seq<PlayerRankItem>, a: nat)
      requires Ranks(oldItems) == rs && Descending(rs) && a < |rs|
      ensures Ranks(RemoveAt(oldItems, a)) == RemoveAt(rs, a) && Descending(RemoveAt(rs, a))
    {
      var rs1 := RemoveAt(rs, a);
      forall b: nat, c: nat | b < c < |rs1| ensures InOrder(rs1, b, c) {
        assert InOrder(rs, if b < a then b else b + 1, if c < a then c else c + 1);
      }
    }

    /** The books of a removal at position `k`. */
    method RecordRemove(node: Node, newTail: Node?, ghost k: nat, ghost nodes0: seq<Node>, ghost hs0: seq<nat>,
                        ghost items0: seq<PlayerRankItem>)
      requires |nodes0| == |hs0| == |items0| + 1 && 0 < k < |nodes0| && Booked(nodes0, hs0, items0)
      requires Distinct(nodes0) && node == nodes0[k] && newTail == nodes0[k - 1]
      requires 1 <= hs0[k] == |node.layers| <= MAX_SKIPLIST_LAYER
      modifies `tail, `lengthsNum, `currLength
      ensures Booked(RemoveAt(nodes0, k), RemoveAt(hs0, k), RemoveAt(items0, k - 1))
    {
      assert k < |items0| ==> Apart(nodes0, k, |items0|);
      CountedRemove(lengthsNum, hs0, k);
      RanksAfterRemove(Ranks(items0), items0, k - 1);
      if tail == node {
        tail := newTail;
      }
      if lengthsNum[|node.layers| - 1] > 0 {
        lengthsNum := lengthsNum[|node.layers| - 1 := lengthsNum[|node.layers| - 1] - 1];
      }
      if currLength > 0 {
        currLength := currLength - 1;
      }
    }

    method RemoveNode(node: Node, ghost k: nat)
      requires Linked() && |beforeNode| == MAX_SKIPLIST_LAYER && 1 <= k < |nodes| && node == nodes[k]
      requires forall j :: hs[k] <= j < currLayer ==> beforeNode[j] == nodes[Prev(hs, k, j)]
      modifies `currLayer, `nodes, `hs, `items, nodes
      ensures Linked() && old(Distinct(nodes))
      ensures items == RemoveAt(old(items), k - 1) && hs == RemoveAt(old(hs), k) && nodes == RemoveAt(old(nodes), k)
      ensures 1 <= |node.layers| == old(hs[k]) <= MAX_SKIPLIST_LAYER && node.layers[0].prev == old(nodes[k - 1])
    {
      ExtractNode(node, k);
      LowerTopLayer();
    }

    /** Takes the row at position `k` out; `beforeNode` must hold its predecessors on the higher layers. */
    method DeleteNode(node: Node, ghost k: nat)
      requires Valid() && 1 <= k < |nodes| && node == nodes[k]
      requires forall j :: hs[k] <= j < currLayer ==> beforeNode[j] == nodes[Prev(hs, k, j)]
      modifies `currLayer, `currLength, `lengthsNum, `tail, `nodes, `hs, `items, nodes
      ensures Valid()
      ensures items == RemoveAt(old(items), k - 1) && hs == RemoveAt(old(hs), k) && nodes == RemoveAt(old(nodes), k)
    {
      ghost var nodes0, hs0, items0 := nodes, hs, items;
      RemoveNode(node, k);
      RecordRemove(node, node.layers[0].prev, k, nodes0, hs0, items0);
    }

    /** Removes the row with the key of `v` that stands where `v` would stand. */
    method Delete(v: PlayerRankItem) returns (ok: bool)
      requires Valid()
      modifies this, nodes
      ensures Valid()
      ensures var c := Above(old(Ranks(items)), old(v.Snap()));
        && ok == (c < |old(items)| && old(items[c].playerId) == old(v.playerId))
        && items == (if ok then RemoveAt(old(items), c) else old(items))
        && nodes == (if ok then RemoveAt(old(nodes), c + 1) else old(nodes))
    {
      if currLength == 0 {
        return false;
      }
      ghost var c := Above(Ranks(items), v.Snap());
      var node := GetNode(v);
      if node == null {
        return false;
      }
      DeleteNode(node, c + 1);
      ok := true;
    }
  }
}
