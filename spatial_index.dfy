/**
 * The uniform-grid spatial index: a map from integer cell keys
 * (floor(x / 20), floor(y / 20)) to sets of entities, with an insert-only
 * `Update`, a `Remove` that sweeps every cell, and a query that gathers the
 * 3x3 block of cells around a point.
 */
module Spatial {
  import opened Bevy

  /** Side of a grid cell. It has to exceed every interaction radius. */
  const CELL_SIZE: real := 20.0

  /** A grid cell key. Integer width (i32) is not modelled. */
  datatype Cell = Cell(x: int, y: int)

  type Grid = map<Cell, set<Entity>>

  /** Point p lies in the half-open CELL_SIZE square of cell c. */
  predicate InCell(p: Vec2, c: Cell) {
    && c.x as real * CELL_SIZE <= p.x < (c.x + 1) as real * CELL_SIZE
    && c.y as real * CELL_SIZE <= p.y < (c.y + 1) as real * CELL_SIZE
  }

  /** The key of the cell holding p: floor of each coordinate over CELL_SIZE. */
  function CellOf(p: Vec2): (c: Cell)
    ensures InCell(p, c)
  {
    Cell((p.x / CELL_SIZE).Floor, (p.y / CELL_SIZE).Floor)
  }

  /** The cell of a point is the only cell whose square holds it. */
  lemma CellOfUnique(p: Vec2, c: Cell)
    ensures CellOf(p) == c <==> InCell(p, c)
  {
    var d := CellOf(p);
    if InCell(p, c) {
      assert c.x < d.x + 1 && d.x < c.x + 1;
      assert c.y < d.y + 1 && d.y < c.y + 1;
    }
  }

  /** Two points share a key iff they lie in the same grid square. */
  lemma SameCellIffSameSquare(p: Vec2, q: Vec2)
    ensures CellOf(p) == CellOf(q) <==> exists c :: InCell(p, c) && InCell(q, c)
  {
    if c :| InCell(p, c) && InCell(q, c) {
      CellOfUnique(p, c);
      CellOfUnique(q, c);
    }
  }

  /** The 3x3 block around c, in the order the query visits it (x outer, y inner). */
  function Neighbourhood(c: Cell): (ks: seq<Cell>)
    ensures |ks| == 9
  {
    [ Cell(c.x - 1, c.y - 1), Cell(c.x - 1, c.y), Cell(c.x - 1, c.y + 1),
      Cell(c.x, c.y - 1),     Cell(c.x, c.y),     Cell(c.x, c.y + 1),
      Cell(c.x + 1, c.y - 1), Cell(c.x + 1, c.y), Cell(c.x + 1, c.y + 1) ]
  }

  /** The offset (dx, dy) sits at position 3 * (dx + 1) + (dy + 1) of the block. */
  lemma NeighbourAt(c: Cell, dx: int, dy: int)
    requires -1 <= dx <= 1 && -1 <= dy <= 1
    ensures Neighbourhood(c)[3 * (dx + 1) + (dy + 1)] == Cell(c.x + dx, c.y + dy)
  {
  }

  /** A cell is in the block around c iff both of its coordinates are within one of c's. */
  lemma InNeighbourhood(c: Cell, k: Cell)
    ensures k in Neighbourhood(c) <==> c.x - 1 <= k.x <= c.x + 1 && c.y - 1 <= k.y <= c.y + 1
  {
    var ks := Neighbourhood(c);
    if c.x - 1 <= k.x <= c.x + 1 && c.y - 1 <= k.y <= c.y + 1 {
      NeighbourAt(c, k.x - c.x, k.y - c.y);
    }
  }

  /** The nine keys of a block are pairwise distinct. */
  lemma NeighbourhoodDistinct(c: Cell)
    ensures Distinct(Neighbourhood(c))
  {
  }

  predicate Distinct(ks: seq<Cell>) {
    forall i, j :: 0 <= i < j < |ks| ==> ks[i] != ks[j]
  }

  /** The entities of cell k, each once; an absent key holds nothing. */
  function CellBag(g: Grid, k: Cell): multiset<Entity> {
    if k in g then multiset(g[k]) else multiset{}
  }

  /** What the query collects from the keys ks, visited in order. */
  function Gathered(g: Grid, ks: seq<Cell>): multiset<Entity> {
    if ks == [] then multiset{}
    else Gathered(g, ks[..|ks| - 1]) + CellBag(g, ks[|ks| - 1])
  }

  /** Gathering one more key adds that key's cell. */
  lemma GatheredSnoc(g: Grid, ks: seq<Cell>, n: nat)
    requires n < |ks|
    ensures Gathered(g, ks[..n + 1]) == Gathered(g, ks[..n]) + CellBag(g, ks[n])
  {
    assert ks[..n + 1][..n] == ks[..n];
  }

  /** The entities, with multiplicity, of the 3x3 block around the cell of p. */
  function NearbyBag(g: Grid, p: Vec2): multiset<Entity> {
    Gathered(g, Neighbourhood(CellOf(p)))
  }

  /** Every entity recorded in some cell of g. */
  function Indexed(g: Grid): set<Entity> {
    set k, e | k in g && e in g[k] :: e
  }

  /** The single-cell invariant: no entity is recorded in two cells. */
  predicate AtMostOneCell(g: Grid) {
    forall k1, k2, e :: k1 in g && k2 in g && e in g[k1] && e in g[k2] ==> k1 == k2
  }

  /** An entity is gathered from ks iff some present key of ks records it. */
  lemma {:induction false} GatheredMembership(g: Grid, ks: seq<Cell>, e: Entity)
    ensures e in Gathered(g, ks) <==> exists k :: k in ks && k in g && e in g[k]
  {
    if ks != [] {
      var last := ks[|ks| - 1];
      var init := ks[..|ks| - 1];
      GatheredMembership(g, init, e);
      assert ks == init + [last];
      if e in Gathered(g, ks) && e !in Gathered(g, init) {
        assert last in ks && last in g && e in g[last];
      }
      if k :| k in ks && k in g && e in g[k] {
        if k != last {
          assert k in init;
        }
      }
    }
  }

  /** With the single-cell invariant, distinct keys gather each entity at most once. */
  lemma {:induction false} GatheredNoDuplicates(g: Grid, ks: seq<Cell>, e: Entity)
    requires AtMostOneCell(g)
    requires Distinct(ks)
    ensures Gathered(g, ks)[e] <= 1
  {
    if ks != [] {
      var last := ks[|ks| - 1];
      var init := ks[..|ks| - 1];
      GatheredNoDuplicates(g, init, e);
      GatheredMembership(g, init, e);
      forall k | k in init ensures k != last {
        var i :| 0 <= i < |init| && init[i] == k;
        assert ks[i] == k;
      }
    }
  }

  /** The query over a grid that keeps the single-cell invariant returns no entity twice. */
  lemma NearbyHasNoDuplicates(g: Grid, p: Vec2, e: Entity)
    requires AtMostOneCell(g)
    ensures NearbyBag(g, p)[e] <= 1
  {
    NeighbourhoodDistinct(CellOf(p));
    GatheredNoDuplicates(g, Neighbourhood(CellOf(p)), e);
  }

  /** The query returns exactly the entities of the nine cells around p's cell. */
  lemma NearbyMembership(g: Grid, p: Vec2, e: Entity)
    ensures e in NearbyBag(g, p) <==>
      exists k :: k in g && e in g[k] && CellOf(p).x - 1 <= k.x <= CellOf(p).x + 1
                                      && CellOf(p).y - 1 <= k.y <= CellOf(p).y + 1
  {
    var c := CellOf(p);
    GatheredMembership(g, Neighbourhood(c), e);
    if k :| k in g && e in g[k] && c.x - 1 <= k.x <= c.x + 1 && c.y - 1 <= k.y <= c.y + 1 {
      InNeighbourhood(c, k);
    }
  }

  /** A grid without any entity answers every query with nothing. */
  lemma EmptyGridNearbyEmpty(g: Grid, p: Vec2)
    requires Indexed(g) == {}
    ensures NearbyBag(g, p) == multiset{}
  {
    forall e ensures NearbyBag(g, p)[e] == 0 {
      GatheredMembership(g, Neighbourhood(CellOf(p)), e);
      forall k | k in g ensures e !in g[k] {
        assert e in g[k] ==> e in Indexed(g);
      }
    }
  }

  /** The map `update` leaves: the entity added to cell c, created on first use. */
  function Inserted(g: Grid, e: Entity, c: Cell): (r: Grid)
    ensures r.Keys == g.Keys + {c}
    ensures r[c] == (if c in g then g[c] else {}) + {e}
    ensures forall k :: k in g && k != c ==> r[k] == g[k]
  {
    g[c := (if c in g then g[c] else {}) + {e}]
  }

  /** The map `remove` leaves: the entity taken out of every cell, all keys kept. */
  function Removed(g: Grid, e: Entity): (r: Grid)
    ensures r.Keys == g.Keys
    ensures forall k :: k in r ==> e !in r[k]
    ensures forall k, x :: k in r && x != e ==> (x in r[k] <==> x in g[k])
  {
    map k | k in g :: g[k] - {e}
  }

  /** After `update(e, p)` the entity is found by a query at p. */
  lemma UpdateIsFound(g: Grid, e: Entity, p: Vec2)
    ensures e in NearbyBag(Inserted(g, e, CellOf(p)), p)
  {
    var c := CellOf(p);
    InNeighbourhood(c, c);
    GatheredMembership(Inserted(g, e, c), Neighbourhood(c), e);
  }

  /** A second identical `update` leaves the map as the first one left it. */
  lemma UpdateIdempotent(g: Grid, e: Entity, p: Vec2)
    ensures Inserted(Inserted(g, e, CellOf(p)), e, CellOf(p)) == Inserted(g, e, CellOf(p))
  {
  }

  /** `update` never evicts: moving an entity to another cell leaves it in both. */
  lemma UpdateDoesNotEvict(g: Grid, e: Entity, c1: Cell, c2: Cell)
    requires c1 in g && e in g[c1] && c1 != c2
    ensures var r := Inserted(g, e, c2); e in r[c1] && e in r[c2] && !AtMostOneCell(r)
  {
  }

  /** `update` of an entity that is in no cell keeps the single-cell invariant. */
  lemma UpdateFreshKeepsSingleCell(g: Grid, e: Entity, c: Cell)
    requires AtMostOneCell(g) && e !in Indexed(g)
    ensures AtMostOneCell(Inserted(g, e, c))
    ensures Indexed(Inserted(g, e, c)) == Indexed(g) + {e}
  {
    var r := Inserted(g, e, c);
    forall k | k in g ensures e !in g[k] {
      assert e in g[k] ==> e in Indexed(g);
    }
    forall k1, k2, x | k1 in r && k2 in r && x in r[k1] && x in r[k2]
      ensures k1 == k2
    {
      if x != e {
        assert k1 in g && x in g[k1] && k2 in g && x in g[k2];
      }
    }
    forall x | x in Indexed(r) ensures x in Indexed(g) + {e} {
      var k :| k in r && x in r[k];
      if x != e { assert k in g && x in g[k]; }
    }
    forall x | x in Indexed(g) + {e} ensures x in Indexed(r) {
      if x == e {
        assert c in r && e in r[c];
      } else {
        var k :| k in g && x in g[k];
        assert k in r && x in r[k];
      }
    }
  }

  /** After `remove(e)` no query finds e. */
  lemma RemovedIsNotFound(g: Grid, e: Entity, p: Vec2)
    ensures e !in NearbyBag(Removed(g, e), p)
  {
    GatheredMembership(Removed(g, e), Neighbourhood(CellOf(p)), e);
  }

  /** `remove` of an entity that is not recorded leaves the map unchanged. */
  lemma RemoveAbsentIsNoOp(g: Grid, e: Entity)
    requires e !in Indexed(g)
    ensures Removed(g, e) == g
  {
    forall k | k in g ensures g[k] - {e} == g[k] {
      assert e in g[k] ==> e in Indexed(g);
    }
  }

  /** `remove` keeps the single-cell invariant and takes exactly e out of the index. */
  lemma RemoveKeepsSingleCell(g: Grid, e: Entity)
    requires AtMostOneCell(g)
    ensures AtMostOneCell(Removed(g, e))
    ensures Indexed(Removed(g, e)) == Indexed(g) - {e}
  {
    var r := Removed(g, e);
    forall x | x in Indexed(r) ensures x in Indexed(g) - {e} {
      var k :| k in r && x in r[k];
      assert k in g && x in g[k];
    }
    forall x | x in Indexed(g) - {e} ensures x in Indexed(r) {
      var k :| k in g && x in g[k];
      assert k in r && x in r[k];
    }
  }

  /** Points less than a cell apart on both axes have neighbouring cells. */
  lemma CloseCellsAreNeighbours(p: Vec2, q: Vec2)
    requires -CELL_SIZE < p.x - q.x < CELL_SIZE && -CELL_SIZE < p.y - q.y < CELL_SIZE
    ensures CellOf(q) in Neighbourhood(CellOf(p))
  {
    var a, b := CellOf(p), CellOf(q);
    assert a.x - 1 <= b.x <= a.x + 1;
    assert a.y - 1 <= b.y <= a.y + 1;
    InNeighbourhood(a, b);
  }

  /**
   * Coverage: an entity recorded at q is found by a query at any p less than
   * one cell away on each axis, so every radius below CELL_SIZE is covered.
   */
  lemma CoverageWithinCell(g: Grid, e: Entity, p: Vec2, q: Vec2)
    requires -CELL_SIZE < p.x - q.x < CELL_SIZE && -CELL_SIZE < p.y - q.y < CELL_SIZE
    requires CellOf(q) in g && e in g[CellOf(q)]
    ensures e in NearbyBag(g, p)
  {
    CloseCellsAreNeighbours(p, q);
    GatheredMembership(g, Neighbourhood(CellOf(p)), e);
  }

  /** The grid resource: cell key to the set of entities recorded there. */
  class SpatialIndex {
    var cells: Grid

    /** The default (empty) index. */
    constructor ()
      ensures cells == map[]
    {
      cells := map[];
    }

    /** Collects the entities of the 3x3 block of cells around pos. */
    method GetNearby(pos: Vec2) returns (nearby: seq<Entity>)
      ensures multiset(nearby) == NearbyBag(cells, pos)
    {
      var tile := CellOf(pos);
      ghost var ks := Neighbourhood(tile);
      ghost var n := 0;
      nearby := [];
      for x := -1 to 2
        invariant n == 3 * (x + 1)
        invariant multiset(nearby) == Gathered(cells, ks[..n])
      {
        for y := -1 to 2
          invariant n == 3 * (x + 1) + (y + 1)
          invariant multiset(nearby) == Gathered(cells, ks[..n])
        {
          var key := Cell(tile.x + x, tile.y + y);
          NeighbourAt(tile, x, y);
          GatheredSnoc(cells, ks, n);
          nearby := ExtendFromCell(nearby, cells, key);
          n := n + 1;
        }
      }
      assert ks[..9] == ks;
    }

    /** Records the entity in the cell of pos. Nothing is evicted from other cells. */
    method Update(entity: Entity, pos: Vec2)
      modifies this
      ensures cells == Inserted(old(cells), entity, CellOf(pos))
    {
      var tile := CellOf(pos);
      var members := if tile in cells then cells[tile] else {};
      cells := cells[tile := members + {entity}];
    }

    /** Takes the entity out of every cell; keys, even emptied ones, stay. */
    method Remove(entity: Entity)
      modifies this
      ensures cells == Removed(old(cells), entity)
    {
      ghost var before := cells;
      var keys := cells.Keys;
      while keys != {}
        invariant keys <= before.Keys && cells.Keys == before.Keys
        invariant forall k :: k in cells ==>
                    cells[k] == if k in keys then before[k] else before[k] - {entity}
        decreases keys
      {
        var k :| k in keys;
        cells := cells[k := cells[k] - {entity}];
        keys := keys - {k};
      }
    }
  }

  /** Appends the members of cell `key`, if the grid has that cell, to s. */
  method ExtendFromCell(s: seq<Entity>, g: Grid, key: Cell) returns (r: seq<Entity>)
    ensures multiset(r) == multiset(s) + CellBag(g, key)
  {
    r := s;
    if key in g {
      r := AppendAll(s, g[key]);
    }
  }

  /** Appends the members of a set, in some order, to a sequence (`Vec::extend`). */
  method AppendAll(s: seq<Entity>, items: set<Entity>) returns (r: seq<Entity>)
    ensures multiset(r) == multiset(s) + multiset(items)
  {
    r := s;
    var rest := items;
    while rest != {}
      invariant rest <= items
      invariant multiset(r) + multiset(rest) == multiset(s) + multiset(items)
      decreases rest
    {
      var e :| e in rest;
      assert multiset(rest) == multiset(rest - {e}) + multiset{e};
      r := r + [e];
      rest := rest - {e};
    }
  }
}
