/** The occupancy map of a player's ground, kept up to date as buildings are placed, moved, turned and removed. */
module BuildingMap {
  import opened SeqEdit

  const BIG_X_DIR: int := 0
  const BIG_Y_DIR: int := 1

  const POS_FORBIDDEN: int := -100201
  const NOT_EXIST: int := -100202
  const NOT_CFG: int := -100203
  const AREA_TYPE_NOT_MATCH: int := -100216
  const AREA_NO_POS: int := -100217

  /** Keeps the low 32 bits, read as a signed number. */
  function Wrap32(n: int): int {
    (n + 0x8000_0000) % 0x1_0000_0000 - 0x8000_0000
  }

  /** A cell as one 32-bit key: the low 16 bits of x shifted up, next to the low 16 bits of y. */
  function Pack(x: int, y: int): int {
    Wrap32(x * 0x1_0000) + y % 0x1_0000
  }

  function UnpackX(xy: int): int {
    xy / 0x1_0000
  }

  /** The low 16 bits, read as a signed number. */
  function UnpackY(xy: int): int {
    (xy + 0x8000) % 0x1_0000 - 0x8000
  }

  predicate Int32(n: int) {
    -0x8000_0000 <= n < 0x8000_0000
  }

  predicate Int16(n: int) {
    -0x8000 <= n < 0x8000
  }

  lemma ShiftWraps(x: int)
    ensures Wrap32(x * 0x1_0000) == ((x + 0x8000) % 0x1_0000 - 0x8000) * 0x1_0000
  {
    var q, r := (x + 0x8000) / 0x1_0000, (x + 0x8000) % 0x1_0000;
    assert x * 0x1_0000 + 0x8000_0000 == q * 0x1_0000_0000 + r * 0x1_0000;
  }

  /** The shifted half is x's low 16 bits, read as a signed number. */
  lemma SignedLow(x: int)
    ensures var a, low := (x + 0x8000) % 0x1_0000 - 0x8000, x % 0x1_0000;
      Int16(a) && a == if low < 0x8000 then low else low - 0x1_0000
  {
    var q, r := x / 0x1_0000, x % 0x1_0000;
    assert x + 0x8000 == q * 0x1_0000 + (r + 0x8000);
  }

  /** Two cells share a key exactly when both coordinates agree in their low 16 bits. */
  lemma PackCollides(x: int, y: int, x': int, y': int)
    ensures Int32(Pack(x, y)) && Pack(x, y) % 0x1_0000_0000 == x % 0x1_0000 * 0x1_0000 + y % 0x1_0000
    ensures Pack(x, y) == Pack(x', y') <==> x % 0x1_0000 == x' % 0x1_0000 && y % 0x1_0000 == y' % 0x1_0000
  {
    ShiftWraps(x);
    ShiftWraps(x');
    SignedLow(x);
    SignedLow(x');
    var a, a', r, r' := UnpackX(Wrap32(x * 0x1_0000)), UnpackX(Wrap32(x' * 0x1_0000)), y % 0x1_0000, y' % 0x1_0000;
    assert Pack(x, y) == a * 0x1_0000 + r && Pack(x', y') == a' * 0x1_0000 + r';
  }

  /** On signed 16-bit coordinates the key is one to one and decoding gives the coordinates back. */
  lemma UnpackOfPack(x: int, y: int)
    requires Int16(x) && Int16(y)
    ensures UnpackX(Pack(x, y)) == x && UnpackY(Pack(x, y)) == y
  {
    ShiftWraps(x);
    assert (x + 0x8000) % 0x1_0000 == x + 0x8000;
    assert Pack(x, y) == x * 0x1_0000 + y % 0x1_0000;
    assert y % 0x1_0000 == if y < 0 then y + 0x1_0000 else y;
    if y < 0 {
      assert Pack(x, y) + 0x8000 == (x + 1) * 0x1_0000 + (y + 0x8000);
    } else {
      assert Pack(x, y) + 0x8000 == x * 0x1_0000 + (y + 0x8000);
    }
  }

  lemma PackOfUnpack(xy: int)
    requires Int32(xy)
    ensures Int16(UnpackX(xy)) && Int16(UnpackY(xy)) && Pack(UnpackX(xy), UnpackY(xy)) == xy
  {
    ShiftWraps(UnpackX(xy));
  }

  /** The keys of one column of cells, and of a rectangle. */
  function Column(x: int, y: int, h: int): set<int> {
    if h <= 0 then {} else Column(x, y, h - 1) + {Pack(x, y + (h - 1))}
  }

  function Cells(x: int, y: int, w: int, h: int): set<int> {
    if w <= 0 then {} else Cells(x, y, w - 1, h) + Column(x + (w - 1), y, h)
  }

  ghost predicate Offset(x: int, y: int, i: int, j: int, xy: int) {
    xy == Pack(x + i, y + j)
  }

  lemma {:induction false} InColumn(x: int, y: int, h: int, xy: int)
    ensures xy in Column(x, y, h) <==> exists j :: 0 <= j < h && Offset(x, y, 0, j, xy)
  {
    if h > 0 {
      InColumn(x, y, h - 1, xy);
      assert Offset(x, y, 0, h - 1, xy) <==> xy == Pack(x, y + (h - 1));
    }
  }

  /** A rectangle holds the keys of all its offsets and no others. */
  lemma {:induction false} InCells(x: int, y: int, w: int, h: int, xy: int)
    ensures xy in Cells(x, y, w, h) <==> exists i, j :: 0 <= i < w && 0 <= j < h && Offset(x, y, i, j, xy)
  {
    if w > 0 {
      InCells(x, y, w - 1, h, xy);
      InColumn(x + (w - 1), y, h, xy);
      var last, c := w - 1, x + (w - 1);
      forall j ensures Offset(c, y, 0, j, xy) <==> Offset(x, y, last, j, xy) {}
    }
  }

  datatype BuildingCfg = BuildingCfg(width: int, height: int, geography: bv32)

  datatype Building = Building(cfgId: int, x: int, y: int, dir: int)

  function Wide(cfg: BuildingCfg, dir: int): int {
    if dir == BIG_X_DIR then cfg.width else cfg.height
  }

  function High(cfg: BuildingCfg, dir: int): int {
    if dir == BIG_X_DIR then cfg.height else cfg.width
  }

  /** The cells a building stands on; one that is not in the tables stands on none. */
  function Footprint(cfgs: map<int, BuildingCfg>, b: Building): set<int> {
    if b.cfgId !in cfgs then {} else
      var cfg := cfgs[b.cfgId];
      Cells(b.x, b.y, Wide(cfg, b.dir), High(cfg, b.dir))
  }

  /** Every marked cell is under the building it names, and every cell under a building names that building. In
      particular no two buildings share a cell. */
  ghost predicate Exact(cells: map<int, int>, buildings: map<int, Building>, cfgs: map<int, BuildingCfg>) {
    && (forall xy :: xy in cells ==> cells[xy] in buildings && xy in Footprint(cfgs, buildings[cells[xy]]))
    && (forall id, xy :: id in buildings && xy in Footprint(cfgs, buildings[id]) ==> xy in cells && cells[xy] == id)
  }

  /** What any rebuild gives, whatever its order: the cells under buildings, each naming some building above it. */
  ghost predicate Covering(cells: map<int, int>, buildings: map<int, Building>, cfgs: map<int, BuildingCfg>) {
    && (forall xy :: xy in cells ==> cells[xy] in buildings && xy in Footprint(cfgs, buildings[cells[xy]]))
    && (forall id, xy :: id in buildings && xy in Footprint(cfgs, buildings[id]) ==> xy in cells)
  }

  ghost predicate Disjoint(buildings: map<int, Building>, cfgs: map<int, BuildingCfg>) {
    forall a, b, xy ::
      a in buildings && b in buildings && xy in Footprint(cfgs, buildings[a]) && xy in Footprint(cfgs, buildings[b]) ==>
      a == b
  }

  /** The occupancy map is determined by the table, and exists exactly for tables whose footprints are disjoint. */
  lemma ExactIsUnique(cells: map<int, int>, cells': map<int, int>, buildings: map<int, Building>,
                      cfgs: map<int, BuildingCfg>)
    requires Exact(cells, buildings, cfgs)
    ensures Disjoint(buildings, cfgs)
    ensures Covering(cells', buildings, cfgs) <==> cells' == cells
  {
    forall a, b, xy |
      a in buildings && b in buildings && xy in Footprint(cfgs, buildings[a]) && xy in Footprint(cfgs, buildings[b])
      ensures a == b
    {
      assert cells[xy] == a && cells[xy] == b;
    }
    if Covering(cells', buildings, cfgs) {
      forall xy ensures xy in cells' <==> xy in cells {
        if xy in cells { assert cells[xy] in buildings; }
        if xy in cells' { assert cells'[xy] in buildings; }
      }
      forall xy | xy in cells ensures cells'[xy] == cells[xy] { assert cells'[xy] in buildings; }
    }
  }

  /** The kinds of ground are bits of a signed number: what both sides have in common must be positive. */
  predicate Shares(ground: bv32, geography: bv32) {
    0 < ground & geography < 0x8000_0000
  }

  /** Whether a cell's kind of ground is one of those a building accepts. */
  predicate Matches(areaType: map<int, bv32>, xy: int, geography: bv32) {
    Shares(if xy in areaType then areaType[xy] else 0, geography)
  }

  predicate Open(openPos: map<int, int>, xy: int) {
    xy in openPos && openPos[xy] == 1
  }

  /** What speaks against building on a cell; 0 for nothing. */
  function CellError(cells: map<int, int>, areaType: map<int, bv32>, openPos: map<int, int>, xy: int, extraId: int,
                     geography: bv32): int
  {
    if !Matches(areaType, xy, geography) then AREA_TYPE_NOT_MATCH
    else if xy in cells && cells[xy] > 0 && cells[xy] != extraId then POS_FORBIDDEN
    else if !Open(openPos, xy) then AREA_NO_POS
    else 0
  }

  /** A rectangle a building with this id may take: ground of the right kind, open, and free but for itself. */
  ghost predicate FreeFor(cells: map<int, int>, areaType: map<int, bv32>, openPos: map<int, int>, area: set<int>,
                          extraId: int, geography: bv32)
  {
    forall xy :: xy in area ==> CellError(cells, areaType, openPos, xy, extraId, geography) == 0
  }

  /** Ground matches when some bit but the sign is set on both sides and the sign is not. */
  lemma SharedKind(ground: bv32, geography: bv32)
    ensures Shares(ground, geography) <==>
            (ground & geography) & 0x7FFF_FFFF != 0 && (ground & geography) & 0x8000_0000 == 0
  {
    SignedPositive(ground & geography);
  }

  lemma SignedPositive(both: bv32)
    ensures 0 < both < 0x8000_0000 <==> both & 0x7FFF_FFFF != 0 && both & 0x8000_0000 == 0
  {
  }

  /** A cell without a kind of ground matches nothing. */
  lemma NoGround(areaType: map<int, bv32>, xy: int, geography: bv32)
    requires xy !in areaType
    ensures !Matches(areaType, xy, geography)
  {
    assert 0 & geography == 0;
  }

  /** A rectangle can be built on if and only if every cell is open, of a kind of ground the building accepts, and under
      no building but itself; the error of a cell tells which of these fails first: ground, occupancy, openness. */
  lemma FreeForIff(cells: map<int, int>, areaType: map<int, bv32>, openPos: map<int, int>, area: set<int>,
                   extraId: int, geography: bv32, xy: int)
    ensures FreeFor(cells, areaType, openPos, area, extraId, geography) <==> forall c :: c in area ==>
              && c in openPos && openPos[c] == 1 && Matches(areaType, c, geography)
              && (c in cells ==> cells[c] <= 0 || cells[c] == extraId)
    ensures var error := CellError(cells, areaType, openPos, xy, extraId, geography);
      && (error == AREA_TYPE_NOT_MATCH <==> !Matches(areaType, xy, geography))
      && (error == POS_FORBIDDEN <==>
            Matches(areaType, xy, geography) && xy in cells && cells[xy] > 0 && cells[xy] != extraId)
      && (error == AREA_NO_POS ==> xy !in openPos || openPos[xy] != 1)
  {
  }

  /** The footprint of a building: its sides along x and y, exchanged when it is turned. */
  lemma FootprintIs(cfgs: map<int, BuildingCfg>, b: Building, xy: int)
    requires b.cfgId in cfgs
    ensures var along, up := if b.dir == 0 then cfgs[b.cfgId].width else cfgs[b.cfgId].height,
                             if b.dir == 0 then cfgs[b.cfgId].height else cfgs[b.cfgId].width;
      xy in Footprint(cfgs, b) <==>
      exists i, j {:trigger Offset(b.x, b.y, i, j, xy)} :: 0 <= i < along && 0 <= j < up && Offset(b.x, b.y, i, j, xy)
  {
    var cfg := cfgs[b.cfgId];
    InCells(b.x, b.y, Wide(cfg, b.dir), High(cfg, b.dir), xy);
  }

  /** Every cell under a building is open and of a kind of ground the building accepts. */
  ghost predicate Grounded(buildings: map<int, Building>, cfgs: map<int, BuildingCfg>, areaType: map<int, bv32>,
                           openPos: map<int, int>)
  {
    forall id, xy :: id in buildings && xy in Footprint(cfgs, buildings[id]) ==>
      Open(openPos, xy) && Matches(areaType, xy, cfgs[buildings[id].cfgId].geography)
  }

  /** `after` is `before` with all these cells given to a building. */
  ghost predicate Marked(before: map<int, int>, area: set<int>, buildingId: int, after: map<int, int>) {
    && (forall xy :: xy in after <==> xy in before || xy in area)
    && (forall xy :: xy in after ==> after[xy] == if xy in area then buildingId else before[xy])
  }

  /** Marking a new building's cells keeps the map exact if and only if none of them was taken. */
  lemma PutKeepsExact(cells: map<int, int>, buildings: map<int, Building>, cfgs: map<int, BuildingCfg>, id: int,
                      b: Building, cells': map<int, int>)
    requires Exact(cells, buildings, cfgs) && id !in buildings
    requires Marked(cells, Footprint(cfgs, b), id, cells')
    ensures Exact(cells', buildings[id := b], cfgs) <==> forall xy :: xy in Footprint(cfgs, b) ==> xy !in cells
  {
    var after := buildings[id := b];
    if Exact(cells', after, cfgs) {
      forall a, xy | a in buildings && xy in Footprint(cfgs, buildings[a]) ensures xy !in Footprint(cfgs, b) {
        assert xy in Footprint(cfgs, after[a]) && cells'[xy] == a;
      }
    }
    if forall xy :: xy in Footprint(cfgs, b) ==> xy !in cells {
      forall xy | xy in cells' ensures cells'[xy] in after && xy in Footprint(cfgs, after[cells'[xy]]) {
        if xy !in Footprint(cfgs, b) { assert cells[xy] in buildings; }
      }
      forall a, xy | a in after && xy in Footprint(cfgs, after[a]) ensures xy in cells' && cells'[xy] == a {
        if a != id { assert after[a] == buildings[a] && xy in Footprint(cfgs, buildings[a]); }
      }
    }
  }

  /** Clearing a building's own cells along with its row keeps the map exact. */
  lemma RemoveKeepsExact(cells: map<int, int>, buildings: map<int, Building>, cfgs: map<int, BuildingCfg>, id: int)
    requires Exact(cells, buildings, cfgs) && id in buildings
    ensures Exact(cells - Footprint(cfgs, buildings[id]), buildings - {id}, cfgs)
  {
    var after, cells' := buildings - {id}, cells - Footprint(cfgs, buildings[id]);
    forall xy | xy in cells' ensures cells'[xy] in after && xy in Footprint(cfgs, after[cells'[xy]]) {
      assert cells[xy] in buildings && xy in Footprint(cfgs, buildings[cells[xy]]);
    }
    forall a, xy | a in after && xy in Footprint(cfgs, after[a]) ensures xy in cells' && cells'[xy] == a {
      assert xy in Footprint(cfgs, buildings[a]) && cells[xy] == a;
    }
  }

  /** Clearing a building's cells and marking new ones that are free but for itself keeps the map exact. */
  lemma MoveKeepsExact(cells: map<int, int>, buildings: map<int, Building>, cfgs: map<int, BuildingCfg>, id: int,
                       b: Building, cells': map<int, int>)
    requires Exact(cells, buildings, cfgs) && id in buildings
    requires Marked(cells - Footprint(cfgs, buildings[id]), Footprint(cfgs, b), id, cells')
    requires forall xy :: xy in Footprint(cfgs, b) && xy in cells ==> cells[xy] == id
    ensures Exact(cells', buildings[id := b], cfgs)
  {
    RemoveKeepsExact(cells, buildings, cfgs, id);
    var cleared := cells - Footprint(cfgs, buildings[id]);
    forall xy | xy in Footprint(cfgs, b) ensures xy !in cleared {
      if xy in cells { assert cells[xy] == id; }
    }
    PutKeepsExact(cleared, buildings - {id}, cfgs, id, b, cells');
    assert (buildings - {id})[id := b] == buildings[id := b];
  }

  /** After a move the old place is free for the building again, and moving back gives the very map there was. */
  lemma MoveCanBeUndone(cells: map<int, int>, buildings: map<int, Building>, cfgs: map<int, BuildingCfg>,
                        areaType: map<int, bv32>, openPos: map<int, int>, id: int, b: Building, cells': map<int, int>,
                            cells'': map<int, int>)
    requires Exact(cells, buildings, cfgs) && Grounded(buildings, cfgs, areaType, openPos)
    requires id in buildings && buildings[id].cfgId in cfgs && Exact(cells', buildings[id := b], cfgs)
    requires Marked(cells' - Footprint(cfgs, b), Footprint(cfgs, buildings[id]), id, cells'')
    ensures FreeFor(cells', areaType, openPos, Footprint(cfgs, buildings[id]), id, cfgs[buildings[id].cfgId].geography)
    ensures cells'' == cells
  {
    var moved, geography := buildings[id := b], cfgs[buildings[id].cfgId].geography;
    forall xy | xy in Footprint(cfgs, buildings[id])
      ensures xy in cells' ==> cells'[xy] == id
      ensures Open(openPos, xy) && Matches(areaType, xy, geography)
    {
      assert cells[xy] == id;
    }
    assert moved[id] == b;
    MoveKeepsExact(cells', moved, cfgs, id, buildings[id], cells'');
    assert moved[id := buildings[id]] == buildings;
    ExactIsUnique(cells, cells'', buildings, cfgs);
  }

  lemma PutKeepsGrounded(buildings: map<int, Building>, cfgs: map<int, BuildingCfg>, areaType: map<int, bv32>,
                         openPos: map<int, int>, id: int, b: Building)
    requires Grounded(buildings - {id}, cfgs, areaType, openPos) && b.cfgId in cfgs
    ensures Grounded(buildings[id := b], cfgs, areaType, openPos) <==>
            forall xy :: xy in Footprint(cfgs, b) ==>
              Open(openPos, xy) && Matches(areaType, xy, cfgs[b.cfgId].geography)
  {
    var after := buildings[id := b];
    if Grounded(after, cfgs, areaType, openPos) {
      forall xy | xy in Footprint(cfgs, b) ensures Open(openPos, xy) && Matches(areaType, xy, cfgs[b.cfgId].geography) {
        assert xy in Footprint(cfgs, after[id]);
      }
    }
    if forall xy :: xy in Footprint(cfgs, b) ==> Open(openPos, xy) && Matches(areaType, xy, cfgs[b.cfgId].geography) {
      forall a, xy | a in after && xy in Footprint(cfgs, after[a])
        ensures Open(openPos, xy) && Matches(areaType, xy, cfgs[after[a].cfgId].geography)
      {
        if a != id { assert after[a] == (buildings - {id})[a]; }
      }
    }
  }

  /** The rotated check of a placement misses the cells the placement marks: a building one cell wide and two high,
      put down turned on two open cells side by side, is let through and then stands on a closed cell. */
  lemma TurnedPlacementCanBreak(cfg: BuildingCfg, areaType: map<int, bv32>, openPos: map<int, int>)
    requires cfg == BuildingCfg(1, 2, 1) && areaType == map[Pack(0, 0) := 1, Pack(1, 0) := 1, Pack(0, 1) := 1]
    requires openPos == map[Pack(0, 0) := 1, Pack(1, 0) := 1]
    ensures FreeFor(map[], areaType, openPos, Cells(0, 0, Wide(cfg, BIG_Y_DIR), High(cfg, BIG_Y_DIR)), 0, cfg.geography)
    ensures !FreeFor(map[], areaType, openPos, Cells(0, 0, Wide(cfg, BIG_X_DIR), High(cfg, BIG_X_DIR)), 0,
                     cfg.geography)
  {
    var a, b, closed := Pack(0, 0), Pack(1, 0), Pack(0, 1);
    assert Column(0, 0, 1) == {a} && Column(1, 0, 1) == {b};
    assert Cells(0, 0, 1, 1) == {a} && Cells(0, 0, 2, 1) == {a, b};
    assert closed in Column(0, 0, 2) && closed in Cells(0, 0, 1, 2);
    assert CellError(map[], areaType, openPos, closed, 0, 1) == AREA_NO_POS;
  }

  lemma ExactCovers(cells: map<int, int>, buildings: map<int, Building>, cfgs: map<int, BuildingCfg>)
    requires Exact(cells, buildings, cfgs)
    ensures Covering(cells, buildings, cfgs)
  {
  }

  lemma CoveringDisjointIsExact(cells: map<int, int>, buildings: map<int, Building>, cfgs: map<int, BuildingCfg>)
    requires Covering(cells, buildings, cfgs)
    ensures Exact(cells, buildings, cfgs) <==> Disjoint(buildings, cfgs)
  {
    if Exact(cells, buildings, cfgs) {
      ExactIsUnique(cells, cells, buildings, cfgs);
    }
    if Disjoint(buildings, cfgs) {
      forall id, xy | id in buildings && xy in Footprint(cfgs, buildings[id]) ensures xy in cells && cells[xy] == id {
        assert xy in Footprint(cfgs, buildings[cells[xy]]);
      }
    }
  }

  lemma MarkedCovers(cells: map<int, int>, buildings: map<int, Building>, cfgs: map<int, BuildingCfg>, id: int,
                     b: Building, cells': map<int, int>)
    requires Covering(cells, buildings, cfgs) && id !in buildings && Marked(cells, Footprint(cfgs, b), id, cells')
    ensures Covering(cells', buildings[id := b], cfgs)
  {
    var after := buildings[id := b];
    forall xy | xy in cells' ensures cells'[xy] in after && xy in Footprint(cfgs, after[cells'[xy]]) {
      if xy !in Footprint(cfgs, b) { assert cells[xy] in buildings; }
    }
    forall a, xy | a in after && xy in Footprint(cfgs, after[a]) ensures xy in cells' {
      if a != id { assert xy in Footprint(cfgs, buildings[a]); }
    }
  }

  lemma OpeningKeepsGrounded(buildings: map<int, Building>, cfgs: map<int, BuildingCfg>, areaType: map<int, bv32>,
                             openPos: map<int, int>, openPos': map<int, int>)
    requires Grounded(buildings, cfgs, areaType, openPos) && forall xy :: Open(openPos, xy) ==> Open(openPos', xy)
    ensures Grounded(buildings, cfgs, areaType, openPos')
  {
    forall a, xy | a in buildings && xy in Footprint(cfgs, buildings[a])
      ensures Open(openPos', xy) && Matches(areaType, xy, cfgs[buildings[a].cfgId].geography)
    {
      assert Open(openPos, xy);
    }
  }

  lemma RemoveKeepsGrounded(buildings: map<int, Building>, cfgs: map<int, BuildingCfg>, areaType: map<int, bv32>,
                            openPos: map<int, int>, id: int)
    requires Grounded(buildings, cfgs, areaType, openPos)
    ensures Grounded(buildings - {id}, cfgs, areaType, openPos)
  {
    forall a, xy | a in buildings - {id} && xy in Footprint(cfgs, (buildings - {id})[a])
      ensures Open(openPos, xy) && Matches(areaType, xy, cfgs[(buildings - {id})[a].cfgId].geography)
    {
      assert xy in Footprint(cfgs, buildings[a]);
    }
  }

  ghost predicate InSome(areas: seq<set<int>>, n: nat, xy: int) {
    exists a :: 0 <= a < n <= |areas| && xy in areas[a]
  }

  /** The first n areas' cells are open, and all others as before. */
  ghost predicate OpenedBy(before: map<int, int>, after: map<int, int>, areas: seq<set<int>>, n: nat) {
    && (forall xy :: xy in after <==> xy in before || InSome(areas, n, xy))
    && (forall xy :: xy in after ==> after[xy] == if InSome(areas, n, xy) then 1 else before[xy])
  }

  lemma OpenedOneMore(first: map<int, int>, before: map<int, int>, after: map<int, int>, areas: seq<set<int>>, n: nat)
    requires n < |areas| && OpenedBy(first, before, areas, n)
    requires forall xy :: xy in after <==> xy in before || xy in areas[n]
    requires forall xy :: xy in after ==> after[xy] == if xy in areas[n] then 1 else before[xy]
    ensures OpenedBy(first, after, areas, n + 1)
  {
    forall xy ensures InSome(areas, n + 1, xy) <==> InSome(areas, n, xy) || xy in areas[n] {
      if InSome(areas, n, xy) {
        var a :| 0 <= a < n && xy in areas[a];
      }
    }
  }

  class Player {
    var curBuildingMap: map<int, int>
    var curOpenPosMap: map<int, int>
    var curBuildingMapInit: bool
    var buildings: map<int, Building>
    var nextBuildingId: int
    const cfgs: map<int, BuildingCfg>
    const areaType: map<int, bv32>

    constructor (cfgs: map<int, BuildingCfg>, areaType: map<int, bv32>)
      ensures Valid() && buildings == map[] && curBuildingMap == map[] && curOpenPosMap == map[] && nextBuildingId == 0
      ensures this.cfgs == cfgs && this.areaType == areaType && !curBuildingMapInit
    {
      curBuildingMap, curOpenPosMap, buildings := map[], map[], map[];
      curBuildingMapInit, nextBuildingId := false, 0;
      this.cfgs, this.areaType := cfgs, areaType;
    }

    ghost predicate IdsIssued()
      reads this
    {
      0 <= nextBuildingId && forall id :: id in buildings ==> 0 < id <= nextBuildingId
    }

    ghost predicate Valid()
      reads this
    {
      && Exact(curBuildingMap, buildings, cfgs) && Grounded(buildings, cfgs, areaType, curOpenPosMap) && IdsIssued()
      && forall xy :: xy in curOpenPosMap ==> Int32(xy)
    }

    ghost predicate CanStand(area: set<int>, extraId: int, geography: bv32)
      reads this
    {
      FreeFor(curBuildingMap, areaType, curOpenPosMap, area, extraId, geography)
    }

    function ErrorAt(xy: int, extraId: int, geography: bv32): int
      reads this
    {
      CellError(curBuildingMap, areaType, curOpenPosMap, xy, extraId, geography)
    }

    method SetArea(x: int, y: int, width: int, height: int, buildingId: int)
      modifies `curBuildingMap
      ensures Marked(old(curBuildingMap), Cells(x, y, width, height), buildingId, curBuildingMap)
    {
      ghost var was := curBuildingMap;
      var i := 0;
      while i < width
        invariant i == 0 || i <= width
        invariant Marked(was, Cells(x, y, i, height), buildingId, curBuildingMap)
      {
        var j := 0;
        while j < height
          invariant j == 0 || j <= height
          invariant Marked(was, Cells(x, y, i, height) + Column(x + i, y, j), buildingId, curBuildingMap)
        {
          curBuildingMap := curBuildingMap[Pack(x + i, y + j) := buildingId];
          j := j + 1;
        }
        i := i + 1;
      }
    }

    method RemoveArea(x: int, y: int, width: int, height: int)
      modifies `curBuildingMap
      ensures curBuildingMap == old(curBuildingMap) - Cells(x, y, width, height)
    {
      ghost var was := curBuildingMap;
      var i := 0;
      while i < width
        invariant i == 0 || i <= width
        invariant curBuildingMap == was - Cells(x, y, i, height)
      {
        var j := 0;
        while j < height
          invariant j == 0 || j <= height
          invariant curBuildingMap == was - (Cells(x, y, i, height) + Column(x + i, y, j))
        {
          curBuildingMap := curBuildingMap - {Pack(x + i, y + j)};
          j := j + 1;
        }
        i := i + 1;
      }
    }

    /** The first cell, column by column, that speaks against the rectangle. */
    ghost predicate FirstError(x: int, y: int, height: int, i: int, j: int, extraId: int, geography: bv32)
      reads this
    {
      && 0 <= i && 0 <= j < height && ErrorAt(Pack(x + i, y + j), extraId, geography) != 0
      && CanStand(Cells(x, y, i, height), extraId, geography) && CanStand(Column(x + i, y, j), extraId, geography)
    }

    /** Why a building of a kind cannot go to a place: the error of the first bad cell of its turned rectangle. */
    ghost predicate FailsWith(cfgId: int, x: int, y: int, dir: int, extraId: int, r: int)
      requires cfgId in cfgs
      reads this
    {
      var cfg := cfgs[cfgId];
      exists i, j :: i < Wide(cfg, dir) && FirstError(x, y, High(cfg, dir), i, j, extraId, cfg.geography) &&
                     r == ErrorAt(Pack(x + i, y + j), extraId, cfg.geography)
    }

    method IfPosCanSetBuilding(x: int, y: int, width: int, height: int, extraId: int, geography: bv32) returns (r: int)
      ensures r == 0 || r == AREA_TYPE_NOT_MATCH || r == POS_FORBIDDEN || r == AREA_NO_POS
      ensures r == 0 <==> CanStand(Cells(x, y, width, height), extraId, geography)
      ensures r != 0 ==> exists i, j :: i < width && FirstError(x, y, height, i, j, extraId, geography) &&
                                        r == ErrorAt(Pack(x + i, y + j), extraId, geography)
    {
      var i := 0;
      while i < width
        invariant i == 0 || i <= width
        invariant CanStand(Cells(x, y, i, height), extraId, geography)
      {
        var j := 0;
        while j < height
          invariant j == 0 || j <= height
          invariant CanStand(Column(x + i, y, j), extraId, geography)
        {
          var xy := Pack(x + i, y + j);
          ghost var error := ErrorAt(xy, extraId, geography);
          r := 0;
          if !Matches(areaType, xy, geography) {
            r := AREA_TYPE_NOT_MATCH;
          } else if xy in curBuildingMap && curBuildingMap[xy] > 0 && curBuildingMap[xy] != extraId {
            r := POS_FORBIDDEN;
          } else if !(xy in curOpenPosMap && curOpenPosMap[xy] == 1) {
            r := AREA_NO_POS;
          }
          if r != 0 {
            assert FirstError(x, y, height, i, j, extraId, geography);
            InCells(x, y, width, height, xy);
            assert Offset(x, y, i, j, xy);
            return;
          }
          j := j + 1;
        }
        i := i + 1;
      }
      r := 0;
    }

    /** Records a new building facing the usual way and marks its cells. The player stays valid if and only if
        those cells could take it. */
    method PutDown(cfgId: int, x: int, y: int) returns (id: int)
      requires Valid() && cfgId in cfgs
      modifies `buildings, `nextBuildingId, `curBuildingMap
      ensures id == nextBuildingId == old(nextBuildingId) + 1
      ensures buildings == old(buildings)[id := Building(cfgId, x, y, BIG_X_DIR)]
      ensures Marked(old(curBuildingMap), Footprint(cfgs, Building(cfgId, x, y, BIG_X_DIR)), id, curBuildingMap)
      ensures Valid() <==> old(CanStand(Cells(x, y, cfgs[cfgId].width, cfgs[cfgId].height), 0, cfgs[cfgId].geography))
    {
      var cfg := cfgs[cfgId];
      var b := Building(cfgId, x, y, BIG_X_DIR);
      nextBuildingId := nextBuildingId + 1;
      id := nextBuildingId;
      if id !in buildings {
        buildings := buildings[id := b];
      }
      SetArea(x, y, cfg.width, cfg.height, id);
      assert Footprint(cfgs, b) == Cells(x, y, cfg.width, cfg.height);
      PutKeepsExact(old(curBuildingMap), old(buildings), cfgs, id, b, curBuildingMap);
      PutKeepsGrounded(old(buildings), cfgs, areaType, curOpenPosMap, id, b);
      forall xy | xy in old(curBuildingMap) ensures old(curBuildingMap)[xy] > 0 {
        assert old(curBuildingMap)[xy] in old(buildings);
      }
    }

    /** Looks, in any order, for an open cell in no full area where a building of this kind fits as it is. */
    method TrySetMapBuildingDefDir(cfgId: int, full: set<int>) returns (id: int)
      requires Valid()
      modifies `buildings, `nextBuildingId, `curBuildingMap
      ensures Valid()
      ensures id != 0 ==> cfgId in cfgs && id == nextBuildingId == old(nextBuildingId) + 1
      ensures id != 0 ==> exists xy :: xy in curOpenPosMap && xy !in full && FitsAt(old(curBuildingMap), cfgId, xy) &&
                            buildings == old(buildings)[id := Building(cfgId, UnpackX(xy), UnpackY(xy), BIG_X_DIR)]
      ensures id == 0 ==>
              buildings == old(buildings) && nextBuildingId == old(nextBuildingId) &&
              curBuildingMap == old(curBuildingMap)
      ensures id == 0 ==>
                forall xy :: xy in curOpenPosMap && xy !in full && cfgId in cfgs ==> !FitsAt(curBuildingMap, cfgId, xy)
    {
      if cfgId !in cfgs {
        return 0;
      }
      var cfg := cfgs[cfgId];
      var rest := curOpenPosMap.Keys;
      while rest != {}
        invariant rest <= curOpenPosMap.Keys
        invariant buildings == old(buildings) && nextBuildingId == old(nextBuildingId) &&
                  curBuildingMap == old(curBuildingMap)
        invariant forall xy :: xy in curOpenPosMap && xy !in full && xy !in rest ==> !FitsAt(curBuildingMap, cfgId, xy)
        decreases rest
      {
        HasMember(rest);
        var xy :| xy in rest;
        rest := rest - {xy};
        if xy in full {
          continue;
        }
        var r := IfPosCanSetBuilding(UnpackX(xy), UnpackY(xy), cfg.width, cfg.height, 0, cfg.geography);
        if r >= 0 {
          assert FitsAt(curBuildingMap, cfgId, xy);
          id := PutDown(cfgId, UnpackX(xy), UnpackY(xy));
          return;
        }
      }
      id := 0;
    }

    /** A building of this kind, facing the usual way, fits with its corner on a cell. */
    ghost predicate FitsAt(cells: map<int, int>, cfgId: int, xy: int)
      requires cfgId in cfgs
      reads this
    {
      var cfg := cfgs[cfgId];
      FreeFor(cells, areaType, curOpenPosMap, Cells(UnpackX(xy), UnpackY(xy), cfg.width, cfg.height), 0, cfg.geography)
    }

    /** Places a new building: the rectangle checked is turned by `dir`, the one recorded and marked is not. */
    method SetMapBuilding(cfgId: int, x: int, y: int, dir: int) returns (r: int)
      requires Valid()
      modifies `buildings, `nextBuildingId, `curBuildingMap
      ensures r == 0 <==> cfgId !in cfgs
      ensures r > 0 <==> cfgId in cfgs && old(CanStand(Turned(cfgId, x, y, dir), 0, cfgs[cfgId].geography))
      ensures r > 0 ==> r == nextBuildingId == old(nextBuildingId) + 1
      ensures r > 0 ==> buildings == old(buildings)[r := Building(cfgId, x, y, BIG_X_DIR)]
      ensures r > 0 ==> Marked(old(curBuildingMap), Turned(cfgId, x, y, BIG_X_DIR), r, curBuildingMap)
      ensures r > 0 ==> (Valid() <==> old(CanStand(Turned(cfgId, x, y, BIG_X_DIR), 0, cfgs[cfgId].geography)))
      ensures r > 0 && (dir == BIG_X_DIR || cfgs[cfgId].width == cfgs[cfgId].height) ==> Valid()
      ensures r < 0 ==> old(FailsWith(cfgId, x, y, dir, 0, r))
      ensures r <= 0 ==>
                Valid() && buildings == old(buildings) && curBuildingMap == old(curBuildingMap) &&
                nextBuildingId == old(nextBuildingId)
    {
      if cfgId !in cfgs {
        return 0;
      }
      var cfg := cfgs[cfgId];
      var width, height;
      if BIG_X_DIR == dir {
        width, height := cfg.width, cfg.height;
      } else {
        width, height := cfg.height, cfg.width;
      }
      r := IfPosCanSetBuilding(x, y, width, height, 0, cfg.geography);
      if r >= 0 {
        r := PutDown(cfgId, x, y);
      }
    }

    ghost function Turned(cfgId: int, x: int, y: int, dir: int): set<int> {
      Footprint(cfgs, Building(cfgId, x, y, dir))
    }

    /** Moves a building to a place that is free but for itself; its kind for success. */
    method RelocateMapBuilding(id: int, newX: int, newY: int, newDir: int) returns (r: int)
      requires Valid() && id in buildings && buildings[id].cfgId in cfgs
      modifies `buildings, `curBuildingMap
      ensures Valid()
      ensures
        var cfgId := old(buildings)[id].cfgId;
        if old(CanStand(Turned(buildings[id].cfgId, newX, newY, newDir), id, cfgs[buildings[id].cfgId].geography))
        then r == cfgId && buildings == old(buildings)[id := Building(cfgId, newX, newY, newDir)]
        else r < 0 && buildings == old(buildings) && curBuildingMap == old(curBuildingMap) &&
             old(FailsWith(buildings[id].cfgId, newX, newY, newDir, id, r))
    {
      var b := buildings[id];
      var cfg := cfgs[b.cfgId];
      ghost var b' := Building(b.cfgId, newX, newY, newDir);
      r := IfPosCanSetBuilding(newX, newY, Wide(cfg, newDir), High(cfg, newDir), id, cfg.geography);
      assert Footprint(cfgs, b') == Cells(newX, newY, Wide(cfg, newDir), High(cfg, newDir));
      if r < 0 {
        return;
      }
      forall xy | xy in Footprint(cfgs, b') && xy in curBuildingMap ensures curBuildingMap[xy] == id {
        assert curBuildingMap[xy] in buildings;
      }
      RemoveArea(b.x, b.y, Wide(cfg, b.dir), High(cfg, b.dir));
      SetArea(newX, newY, Wide(cfg, newDir), High(cfg, newDir), id);
      buildings := buildings[id := buildings[id].(x := newX)];
      buildings := buildings[id := buildings[id].(y := newY)];
      buildings := buildings[id := buildings[id].(dir := newDir)];
      assert buildings == old(buildings)[id := b'];
      MoveKeepsExact(old(curBuildingMap), old(buildings), cfgs, id, b', curBuildingMap);
      PutKeepsGrounded(old(buildings), cfgs, areaType, curOpenPosMap, id, b');
      r := b.cfgId;
    }

    method MoveMapBuilding(id: int, x: int, y: int, dir: int) returns (r: int)
      requires Valid()
      modifies `buildings, `curBuildingMap
      ensures Valid()
      ensures id !in old(buildings) ==> r == NOT_EXIST
      ensures id in old(buildings) && old(buildings)[id].cfgId !in cfgs ==> r == NOT_CFG
      ensures id in old(buildings) && old(buildings)[id].cfgId in cfgs ==>
                var cfgId := old(buildings)[id].cfgId;
                if old(CanStand(Turned(buildings[id].cfgId, x, y, dir), id, cfgs[buildings[id].cfgId].geography))
                then r == cfgId && buildings == old(buildings)[id := Building(cfgId, x, y, dir)]
                else r < 0 && buildings == old(buildings) && old(FailsWith(buildings[id].cfgId, x, y, dir, id, r))
      ensures buildings == old(buildings) ==> curBuildingMap == old(curBuildingMap)
    {
      if id !in buildings {
        return NOT_EXIST;
      }
      if buildings[id].cfgId !in cfgs {
        return NOT_CFG;
      }
      var cfgId := buildings[id].cfgId;
      r := RelocateMapBuilding(id, x, y, dir);
      ExactIsUnique(curBuildingMap, old(curBuildingMap), buildings, cfgs);
      ExactCovers(old(curBuildingMap), old(buildings), cfgs);
      if r < 0 {
        return;
      }
      r := cfgId;
    }

    /** Turns a building where it stands. */
    method ChgMapBuildingDir(id: int) returns (r: int)
      requires Valid()
      modifies `buildings, `curBuildingMap
      ensures Valid()
      ensures id !in old(buildings) ==> r == NOT_EXIST
      ensures id in old(buildings) && old(buildings)[id].cfgId !in cfgs ==> r == NOT_CFG
      ensures id in old(buildings) && old(buildings)[id].cfgId in cfgs ==>
                var b := old(buildings)[id];
                var dir := if b.dir == BIG_X_DIR then BIG_Y_DIR else BIG_X_DIR;
                if old(CanStand(Turned(b.cfgId, b.x, b.y, dir), id, cfgs[b.cfgId].geography))
                then r == b.cfgId && buildings == old(buildings)[id := b.(dir := dir)]
                else r < 0 && buildings == old(buildings) && old(FailsWith(b.cfgId, b.x, b.y, dir, id, r))
    {
      if id !in buildings {
        return NOT_EXIST;
      }
      var b := buildings[id];
      if b.cfgId !in cfgs {
        return NOT_CFG;
      }
      var newDir;
      if BIG_X_DIR == b.dir {
        newDir := BIG_Y_DIR;
      } else {
        newDir := BIG_X_DIR;
      }
      r := RelocateMapBuilding(id, b.x, b.y, newDir);
      if r < 0 {
        return;
      }
      r := b.cfgId;
    }

    /** Deletes a building's cells and its row; callers pass the rectangle the building stands on. */
    method RemoveAreaBuilding(id: int, x: int, y: int, width: int, height: int)
      requires Valid() && id in buildings && buildings[id].cfgId in cfgs
      requires Cells(x, y, width, height) == Footprint(cfgs, buildings[id])
      modifies `buildings, `curBuildingMap
      ensures Valid() && buildings == old(buildings) - {id}
      ensures curBuildingMap == old(curBuildingMap) - Cells(x, y, width, height)
    {
      RemoveKeepsExact(curBuildingMap, buildings, cfgs, id);
      RemoveArea(x, y, width, height);
      buildings := buildings - {id};
      RemoveKeepsGrounded(old(buildings), cfgs, areaType, curOpenPosMap, id);
    }

    /** Takes a building back; `catHouse` is what the cat house check, asked only for cat houses, says. */
    method GetBackMapBuilding(id: int, catHouse: int) returns (r: int)
      requires Valid()
      modifies `buildings, `curBuildingMap
      ensures Valid()
      ensures id !in old(buildings) ==> r == NOT_EXIST
      ensures id in old(buildings) && old(buildings)[id].cfgId !in cfgs ==> r == NOT_CFG
      ensures id in old(buildings) && old(buildings)[id].cfgId in cfgs && catHouse < 0 ==> r == catHouse
      ensures if id in old(buildings) && old(buildings)[id].cfgId in cfgs && catHouse >= 0
              then r == old(buildings)[id].cfgId && buildings == old(buildings) - {id} &&
                   curBuildingMap == old(curBuildingMap) - Footprint(cfgs, old(buildings)[id])
              else buildings == old(buildings) && curBuildingMap == old(curBuildingMap)
    {
      if id !in buildings {
        return NOT_EXIST;
      }
      var b := buildings[id];
      if b.cfgId !in cfgs {
        return NOT_CFG;
      }
      if catHouse < 0 {
        return catHouse;
      }
      var cfg := cfgs[b.cfgId];
      RemoveAreaBuilding(id, b.x, b.y, Wide(cfg, b.dir), High(cfg, b.dir));
      r := b.cfgId;
    }

    /** Rebuilds the map from the table, row by row in any order. For a valid player this is the map there is. */
    method GetAllBuildingPos() returns (posMap: map<int, int>)
      ensures Covering(posMap, buildings, cfgs)
      ensures Valid() ==> posMap == curBuildingMap
    {
      posMap := map[];
      var rest := buildings.Keys;
      while rest != {}
        invariant rest <= buildings.Keys
        invariant Covering(posMap, buildings - rest, cfgs)
        decreases rest
      {
        HasMember(rest);
        var id :| id in rest;
        var b := buildings[id];
        ghost var was, seen := posMap, buildings - rest;
        rest := rest - {id};
        if b.cfgId in cfgs {
          var cfg := cfgs[b.cfgId];
          var i, width, height := 0, Wide(cfg, b.dir), High(cfg, b.dir);
          while i < width
            invariant i == 0 || i <= width
            invariant Marked(was, Cells(b.x, b.y, i, height), id, posMap)
          {
            var j := 0;
            while j < height
              invariant j == 0 || j <= height
              invariant Marked(was, Cells(b.x, b.y, i, height) + Column(b.x + i, b.y, j), id, posMap)
            {
              posMap := posMap[Pack(b.x + i, b.y + j) := id];
              j := j + 1;
            }
            i := i + 1;
          }
        }
        MarkedCovers(was, seen, cfgs, id, b, posMap);
        assert buildings - rest == seen[id := b];
      }
      assert buildings - {} == buildings;
      if Valid() {
        ExactIsUnique(curBuildingMap, posMap, buildings, cfgs);
      }
    }

    /** The first use of the map in a session: the map is rebuilt and the cells of the areas owned are opened. */
    method ChkUpdateMyBuildingAreas(areas: seq<set<int>>)
      requires IdsIssued() && (forall xy :: xy in curOpenPosMap ==> Int32(xy))
      requires forall a, xy :: 0 <= a < |areas| && xy in areas[a] ==> Int32(xy)
      modifies this
      ensures buildings == old(buildings) && nextBuildingId == old(nextBuildingId) && curBuildingMapInit
      ensures old(curBuildingMapInit) ==> curBuildingMap == old(curBuildingMap) && curOpenPosMap == old(curOpenPosMap)
      ensures !old(curBuildingMapInit) ==>
                && Covering(curBuildingMap, buildings, cfgs)
                && OpenedBy(old(curOpenPosMap), curOpenPosMap, areas, |areas|)
                && (Valid() <==> Disjoint(buildings, cfgs) && Grounded(buildings, cfgs, areaType, curOpenPosMap))
    {
      if curBuildingMapInit {
        return;
      }
      curBuildingMapInit := true;
      curBuildingMap := GetAllBuildingPos();
      for a := 0 to |areas|
        invariant curBuildingMapInit && buildings == old(buildings) && nextBuildingId == old(nextBuildingId)
        invariant Covering(curBuildingMap, buildings, cfgs)
        invariant forall xy :: xy in curOpenPosMap ==> Int32(xy)
        invariant OpenedBy(old(curOpenPosMap), curOpenPosMap, areas, a)
      {
        ghost var before := curOpenPosMap;
        OpenCells(areas[a]);
        OpenedOneMore(old(curOpenPosMap), before, curOpenPosMap, areas, a);
      }
      CoveringDisjointIsExact(curBuildingMap, buildings, cfgs);
    }

    /** Opens the cells of an area, as loading and unlocking do. */
    method OpenCells(area: set<int>)
      modifies `curOpenPosMap
      ensures forall xy :: xy in curOpenPosMap <==> xy in old(curOpenPosMap) || xy in area
      ensures forall xy :: xy in curOpenPosMap ==> curOpenPosMap[xy] == if xy in area then 1 else old(curOpenPosMap)[xy]
      ensures old(Valid()) && (forall xy :: xy in area ==> Int32(xy)) ==> Valid()
    {
      var rest := area;
      while rest != {}
        invariant rest <= area
        invariant forall xy :: xy in curOpenPosMap <==> xy in old(curOpenPosMap) || xy in area - rest
        invariant forall xy :: xy in curOpenPosMap ==>
                  curOpenPosMap[xy] == if xy in area - rest then 1 else old(curOpenPosMap)[xy]
        decreases rest
      {
        HasMember(rest);
        var xy :| xy in rest;
        rest := rest - {xy};
        curOpenPosMap := curOpenPosMap[xy := 1];
      }
      if old(Valid()) {
        OpeningKeepsGrounded(buildings, cfgs, areaType, old(curOpenPosMap), curOpenPosMap);
      }
    }
  }

  /** The same through the operations: the player is left with a building on a closed cell. */
  method TurnedPlacement() returns (p: Player, r: int)
    ensures r > 0 && !p.Valid()
  {
    var cfg := BuildingCfg(1, 2, 1);
    var areaType: map<int, bv32> := map[Pack(0, 0) := 1, Pack(1, 0) := 1, Pack(0, 1) := 1];
    p := new Player(map[5 := cfg], areaType);
    var area := {Pack(0, 0), Pack(1, 0)};
    PackCollides(0, 0, 1, 0);
    PackCollides(1, 0, 0, 0);
    p.OpenCells(area);
    var openPos: map<int, int> := map[Pack(0, 0) := 1, Pack(1, 0) := 1];
    forall xy ensures xy in p.curOpenPosMap <==> xy in openPos {}
    forall xy | xy in openPos ensures p.curOpenPosMap[xy] == openPos[xy] {}
    assert p.curOpenPosMap == openPos;
    TurnedPlacementCanBreak(cfg, areaType, p.curOpenPosMap);
    assert Building(5, 0, 0, BIG_Y_DIR).cfgId == 5;
    r := p.SetMapBuilding(5, 0, 0, BIG_Y_DIR);
  }
}
