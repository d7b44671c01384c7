/**
 * The hit pipeline on top of the spatial index: hit events, the collision
 * system that turns each hitter's neighbourhood into at most one event, and
 * the two systems that keep the index in step with the Collidable marker.
 */
module Collision {
  import opened Bevy
  import opened Spatial
  import opened Ecs

  /** A hit: the hittable that was found first, the hitter that found it second. */
  datatype HitEvent = HitEvent(entities: (Entity, Entity)) {
    function Hittable(): Entity { entities.0 }
    function Hitter(): Entity { entities.1 }
  }

  /** The accessors give back the two entities an event was built from, in order. */
  lemma HitEventAccessors(hittable: Entity, hitter: Entity)
    ensures HitEvent((hittable, hitter)).Hittable() == hittable
    ensures HitEvent((hittable, hitter)).Hitter() == hitter
  {
  }

  /** The entities the hitter query yields: Collidable, of the hitter role, with a Transform and a Bounding. */
  function HitterSet(w: World, hitterRole: set<Entity>): (hs: set<Entity>)
    reads w
    ensures hs <= hitterRole * w.collidable * w.transforms.Keys * w.boundings.Keys
  {
    set e | e in w.collidable && e in hitterRole && e in w.transforms && e in w.boundings
  }

  /** Where a hitter queries the index from: its translation without z. */
  function QueryPoint(w: World, e: Entity): Vec2
    reads w
    requires e in w.transforms
  {
    w.transforms[e].Truncate()
  }

  /** A hitter emits when its neighbourhood query returns at least one entity. */
  predicate Emits(cells: Grid, w: World, e: Entity)
    reads w
  {
    e in w.transforms && NearbyBag(cells, QueryPoint(w, e)) != multiset{}
  }

  /** The hitters whose neighbourhood holds at least one entity. */
  function Emitters(index: SpatialIndex, w: World, hitterRole: set<Entity>): set<Entity>
    reads index, w
  {
    set e | e in HitterSet(w, hitterRole) && Emits(index.cells, w, e)
  }

  /** The hitters named by a sequence of events. */
  function HitterOf(hits: seq<HitEvent>): set<Entity> {
    set i | 0 <= i < |hits| :: hits[i].Hitter()
  }

  /** The event's hittable is among the entities its hitter's neighbourhood query returns. */
  predicate FoundNearby(cells: Grid, w: World, ev: HitEvent)
    reads w
  {
    ev.Hitter() in w.transforms && ev.Hittable() in NearbyBag(cells, QueryPoint(w, ev.Hitter()))
  }

  /** No two events share a hitter. */
  predicate OnePerHitter(hits: seq<HitEvent>) {
    forall i, j :: 0 <= i < j < |hits| ==> hits[i].Hitter() != hits[j].Hitter()
  }

  /**
   * For every hitter, emits one event naming the first entity its
   * neighbourhood query returned, with no distance test; a hitter with an
   * empty neighbourhood emits nothing. The index is only read.
   */
  method CollisionSystem(index: SpatialIndex, w: World, hitterRole: set<Entity>)
    returns (hits: seq<HitEvent>)
    ensures OnePerHitter(hits)
    ensures HitterOf(hits) == Emitters(index, w, hitterRole)
    ensures forall i :: 0 <= i < |hits| ==>
      hits[i].Hitter() in HitterSet(w, hitterRole) && FoundNearby(index.cells, w, hits[i])
  {
    var hitters := HitterSet(w, hitterRole);
    var todo := hitters;
    ghost var done: set<Entity> := {};
    ghost var named: set<Entity> := {};
    hits := [];
    while todo != {}
      invariant done !! todo && done + todo == hitters
      invariant named == HitterOf(hits)
      invariant forall e :: e in named <==> e in done && Emits(index.cells, w, e)
      invariant forall i :: 0 <= i < |hits| ==> hits[i].Hitter() in done
      invariant forall i :: 0 <= i < |hits| ==> FoundNearby(index.cells, w, hits[i])
      invariant OnePerHitter(hits)
      decreases todo
    {
      var hitter :| hitter in todo;
      var nearby := index.GetNearby(w.transforms[hitter].Truncate());
      assert Emits(index.cells, w, hitter) <==> |nearby| > 0;
      if |nearby| > 0 {
        assert nearby[0] in multiset(nearby);
        var ev := HitEvent((nearby[0], hitter));
        HitterOfAppend(hits, ev);
        hits := hits + [ev];
        named := named + {hitter};
      }
      done := done + {hitter};
      todo := todo - {hitter};
    }
  }

  /** The first entity of a neighbourhood query, if it returned any. */
  method FirstNearby(index: SpatialIndex, pos: Vec2) returns (first: Option<Entity>)
    ensures first.Some? <==> NearbyBag(index.cells, pos) != multiset{}
    ensures first.Some? ==> first.value in NearbyBag(index.cells, pos)
  {
    var nearby := index.GetNearby(pos);
    if |nearby| > 0 {
      assert nearby[0] in multiset(nearby);
      first := Some(nearby[0]);
    } else {
      first := None;
    }
  }

  /** Appending an event adds its hitter to the named hitters. */
  lemma HitterOfAppend(hits: seq<HitEvent>, ev: HitEvent)
    ensures HitterOf(hits + [ev]) == HitterOf(hits) + {ev.Hitter()}
  {
    var s := hits + [ev];
    assert s[|hits|] == ev;
    forall i | 0 <= i < |hits| ensures s[i] == hits[i] {}
  }

  /** Events with pairwise distinct hitters are as many as the hitters they name. */
  lemma {:induction false} OnePerHitterCount(hits: seq<HitEvent>)
    requires OnePerHitter(hits)
    ensures |HitterOf(hits)| == |hits|
  {
    if hits != [] {
      var init := hits[..|hits| - 1];
      var last := hits[|hits| - 1];
      OnePerHitterCount(init);
      assert HitterOf(hits) == HitterOf(init) + {last.Hitter()} by {
        forall i | 0 <= i < |init| ensures init[i] == hits[i] {}
        assert hits == init + [last];
      }
      forall i | 0 <= i < |init| ensures init[i].Hitter() != last.Hitter() {
        assert init[i] == hits[i];
      }
    }
  }

  /** The number of events is the number of hitters with a non-empty neighbourhood. */
  lemma EventCountIsEmitterCount(index: SpatialIndex, w: World, hitterRole: set<Entity>, hits: seq<HitEvent>)
    requires OnePerHitter(hits) && HitterOf(hits) == Emitters(index, w, hitterRole)
    ensures |hits| == |Emitters(index, w, hitterRole)|
    ensures |hits| <= |HitterSet(w, hitterRole)|
  {
    OnePerHitterCount(hits);
    assert Emitters(index, w, hitterRole) <= HitterSet(w, hitterRole);
    SubsetCard(Emitters(index, w, hitterRole), HitterSet(w, hitterRole));
  }

  lemma SubsetCard(a: set<Entity>, b: set<Entity>)
    requires a <= b
    ensures |a| <= |b|
  {
    assert b == a + (b - a);
  }

  /** The entities items assigns to cell k. */
  function Bucket(items: map<Entity, Cell>, k: Cell): set<Entity>
  {
    set e | e in items && items[e] == k
  }

  /** The index after inserting each entity of items into its cell (insertion order does not matter). */
  function InsertedAll(g: Grid, items: map<Entity, Cell>): (r: Grid)
    ensures r.Keys == g.Keys + items.Values
    ensures forall k :: k in r ==> r[k] == (if k in g then g[k] else {}) + Bucket(items, k)
  {
    map k | k in g.Keys + items.Values :: (if k in g then g[k] else {}) + Bucket(items, k)
  }

  /** The index after removing every entity of gone from every cell. */
  function RemovedAll(g: Grid, gone: set<Entity>): (r: Grid)
    ensures r.Keys == g.Keys
    ensures forall k, e :: k in r ==> (e in r[k] <==> e in g[k] && e !in gone)
  {
    map k | k in g :: g[k] - gone
  }

  /** Adding one entity to the assignment adds it to the bucket of its cell only. */
  lemma BucketStep(items: map<Entity, Cell>, e: Entity, c: Cell, k: Cell)
    requires e !in items
    ensures Bucket(items[e := c], k) == Bucket(items, k) + (if k == c then {e} else {})
  {
  }

  lemma ValuesStep(items: map<Entity, Cell>, e: Entity, c: Cell)
    requires e !in items
    ensures items[e := c].Values == items.Values + {c}
  {
    forall v | v in items.Values ensures v in items[e := c].Values {
      var x :| x in items && items[x] == v;
      assert x != e && items[e := c][x] == v;
    }
    assert items[e := c][e] == c;
  }

  /** One more `update` extends the batch insertion by one entity. */
  lemma InsertedAllStep(g: Grid, items: map<Entity, Cell>, e: Entity, c: Cell)
    requires e !in items
    ensures InsertedAll(g, items[e := c]) == Inserted(InsertedAll(g, items), e, c)
  {
    InsertedAllStepKeys(g, items, e, c);
    InsertedAllStepCells(g, items, e, c);
  }

  lemma InsertedAllStepKeys(g: Grid, items: map<Entity, Cell>, e: Entity, c: Cell)
    requires e !in items
    ensures InsertedAll(g, items[e := c]).Keys == Inserted(InsertedAll(g, items), e, c).Keys
  {
    ValuesStep(items, e, c);
  }

  lemma InsertedAllStepCells(g: Grid, items: map<Entity, Cell>, e: Entity, c: Cell)
    requires e !in items
    ensures forall k :: k in InsertedAll(g, items[e := c]) && k in Inserted(InsertedAll(g, items), e, c) ==>
      InsertedAll(g, items[e := c])[k] == Inserted(InsertedAll(g, items), e, c)[k]
  {
    forall k | k in InsertedAll(g, items[e := c]) && k in Inserted(InsertedAll(g, items), e, c) {
      InsertedAllStepCell(g, items, e, c, k);
    }
  }

  lemma InsertedAllStepCell(g: Grid, items: map<Entity, Cell>, e: Entity, c: Cell, k: Cell)
    requires e !in items
    requires k in InsertedAll(g, items[e := c]) && k in Inserted(InsertedAll(g, items), e, c)
    ensures InsertedAll(g, items[e := c])[k] == Inserted(InsertedAll(g, items), e, c)[k]
  {
    BucketStep(items, e, c, k);
  }

  /** One more `remove` extends the batch removal by one entity. */
  lemma RemovedAllStep(g: Grid, gone: set<Entity>, e: Entity)
    ensures RemovedAll(g, gone + {e}) == Removed(RemovedAll(g, gone), e)
  {
    var l, r := RemovedAll(g, gone + {e}), Removed(RemovedAll(g, gone), e);
    forall k | k in l ensures l[k] == r[k] {
      assert g[k] - (gone + {e}) == (g[k] - gone) - {e};
    }
  }

  function Elements(s: seq<Entity>): set<Entity> {
    set e | e in s
  }

  /** The hittables a query yields: of the hittable role, eligible, and with a Transform, at their position. */
  function HittablePositions(w: World, hittableRole: set<Entity>, eligible: set<Entity>): (ps: map<Entity, Vec2>)
    reads w
    ensures ps.Keys <= hittableRole * eligible * w.transforms.Keys
    ensures forall e :: e in ps ==> ps[e] == w.transforms[e].Truncate()
  {
    map e | e in hittableRole && e in eligible && e in w.transforms :: w.transforms[e].Truncate()
  }

  /** The cell of each position. */
  function CellsOf(positions: map<Entity, Vec2>): (cells: map<Entity, Cell>)
    ensures cells.Keys == positions.Keys
  {
    map e | e in positions :: CellOf(positions[e])
  }

  lemma InsertedAllEmpty(g: Grid)
    ensures InsertedAll(g, map[]) == g
  {
    var r := InsertedAll(g, map[]);
    forall k | k in r ensures r[k] == g[k] {
      forall x ensures x in r[k] <==> x in g[k] {}
    }
  }

  lemma RemovedAllNothing(g: Grid)
    ensures RemovedAll(g, {}) == g
  {
    var r := RemovedAll(g, {});
    forall k | k in r ensures r[k] == g[k] {}
  }

  /** Calls `update` once for each entity of the query, at its position. */
  method UpdateEach(index: SpatialIndex, positions: map<Entity, Vec2>)
    modifies index
    ensures index.cells == InsertedAll(old(index.cells), CellsOf(positions))
  {
    var items := CellsOf(positions);
    var todo := positions.Keys;
    ghost var done: map<Entity, Cell> := map[];
    ghost var start := index.cells;
    InsertedAllEmpty(start);
    while todo != {}
      invariant done.Keys !! todo && done.Keys + todo == items.Keys
      invariant forall x :: x in done ==> done[x] == items[x]
      invariant index.cells == InsertedAll(start, done)
      decreases todo
    {
      var e :| e in todo;
      index.Update(e, positions[e]);
      InsertedAllStep(start, done, e, items[e]);
      done := done[e := items[e]];
      todo := todo - {e};
    }
    assert done == items;
  }

  /** Calls `remove` once for each entity read from the removal events. */
  method RemoveEach(index: SpatialIndex, removed: seq<Entity>)
    modifies index
    ensures index.cells == RemovedAll(old(index.cells), Elements(removed))
  {
    ghost var start := index.cells;
    RemovedAllNothing(start);
    assert Elements(removed[..0]) == {};
    for i := 0 to |removed|
      invariant index.cells == RemovedAll(start, Elements(removed[..i]))
    {
      RemovedAllStep(start, Elements(removed[..i]), removed[i]);
      assert Elements(removed[..i + 1]) == Elements(removed[..i]) + {removed[i]} by {
        assert removed[..i + 1] == removed[..i] + [removed[i]];
      }
      index.Remove(removed[i]);
    }
    assert removed[..|removed|] == removed;
  }

  /** At startup every hittable is recorded in the cell of its position. */
  method InitializeHittables(index: SpatialIndex, w: World, hittableRole: set<Entity>)
    modifies index
    ensures index.cells == InsertedAll(old(index.cells), CellsOf(HittablePositions(w, hittableRole, hittableRole)))
  {
    UpdateEach(index, HittablePositions(w, hittableRole, hittableRole));
  }

  /**
   * Each frame: hittables whose Collidable was just added (`added`, from
   * change detection; the query also needs the marker to be present) are
   * recorded at their position, then every entity that just lost
   * Collidable (`removed`, the removal events) is taken out of every cell.
   */
  method UpdateHittablePositions(index: SpatialIndex, w: World, hittableRole: set<Entity>,
                                 added: set<Entity>, removed: seq<Entity>)
    modifies index
    ensures index.cells ==
      RemovedAll(InsertedAll(old(index.cells), CellsOf(HittablePositions(w, hittableRole, added * w.collidable))),
                 Elements(removed))
  {
    UpdateEach(index, HittablePositions(w, hittableRole, added * w.collidable));
    RemoveEach(index, removed);
  }

  /** An entity both just added and just removed ends up in no cell. */
  lemma AddedAndRemovedEndsAbsent(g: Grid, items: map<Entity, Cell>, gone: set<Entity>, e: Entity)
    requires e in items && e in gone
    ensures e !in Indexed(RemovedAll(InsertedAll(g, items), gone))
  {
    var r := RemovedAll(InsertedAll(g, items), gone);
    forall k | k in r ensures e !in r[k] {}
  }

  /**
   * The synchronisation protocol keeps the single-cell invariant: when the
   * newly inserted entities are in no cell yet, every entity stays in at most
   * one cell, and the index then records exactly (old + inserted) - removed.
   */
  lemma SyncKeepsSingleCell(g: Grid, items: map<Entity, Cell>, gone: set<Entity>)
    requires AtMostOneCell(g)
    requires items.Keys !! Indexed(g)
    ensures AtMostOneCell(RemovedAll(InsertedAll(g, items), gone))
    ensures Indexed(RemovedAll(InsertedAll(g, items), gone)) == (Indexed(g) + items.Keys) - gone
  {
    var m := InsertedAll(g, items);
    var r := RemovedAll(m, gone);
    forall k | k in g ensures g[k] !! items.Keys {
      forall e | e in g[k] ensures e !in items.Keys {
        assert e in Indexed(g);
      }
    }
    forall k1, k2, e | k1 in r && k2 in r && e in r[k1] && e in r[k2] ensures k1 == k2 {
      if e !in items {
        assert k1 in g && e in g[k1] && k2 in g && e in g[k2];
      }
    }
    forall e | e in Indexed(r) ensures e in (Indexed(g) + items.Keys) - gone {
      var k :| k in r && e in r[k];
      if e !in items {
        assert k in g && e in g[k];
      }
    }
    forall e | e in (Indexed(g) + items.Keys) - gone ensures e in Indexed(r) {
      if e in items {
        assert items[e] in r && e in r[items[e]];
      } else {
        var k :| k in g && e in g[k];
        assert k in r && e in r[k];
      }
    }
  }

  /**
   * If the index mirrors the eligible hittables before a frame, and the
   * frame's change lists are exactly what became and stopped being eligible,
   * it mirrors them afterwards too.
   */
  lemma SyncMirrorsEligibility(g: Grid, items: map<Entity, Cell>, gone: set<Entity>,
                               before: set<Entity>, after: set<Entity>)
    requires AtMostOneCell(g) && Indexed(g) == before
    requires items.Keys == after - before && gone == before - after
    ensures Indexed(RemovedAll(InsertedAll(g, items), gone)) == after
    ensures AtMostOneCell(RemovedAll(InsertedAll(g, items), gone))
  {
    SyncKeepsSingleCell(g, items, gone);
  }
}
