/**
 * The gatherers' own systems: the reaction of an ant to a hit (pick the
 * food up, or drop what it carries), the pick-up cooldown, movement, and
 * the start-up spawning of ants and food.
 *
 * The hit reaction runs in two phases, as the framework does: while the
 * hits are read, velocities and food translations are written at once and
 * the hierarchy, Collidable and Cooldown changes are queued as commands;
 * the queue is applied, in order, after the loop.
 */
module Gatherers {
  import opened Bevy
  import opened Config
  import opened Ecs
  import opened Collision

  /** A queued command batch: what a hit makes an ant do to the hierarchy and markers. */
  datatype Reaction =
    | Drop(ant: Entity, carried: Entity)   // detach carried in place, make it Collidable, cool the ant down
    | PickUp(ant: Entity, food: Entity)    // attach food to the ant, make it not Collidable

  /** What the hit loop reads and never changes while it runs. */
  datatype HitContext = HitContext(
    ants: set<Entity>,        // Ant marker
    cooling: set<Entity>,     // entities with a Cooldown
    foods: set<Entity>,       // Food marker
    children: ChildLists)     // Children, as of the start of the system

  /** The ant query yields the ant: it has the Ant marker and a Velocity, and no Cooldown. */
  predicate Responds(ant: Entity, velocityHolders: set<Entity>, ctx: HitContext) {
    ant in ctx.ants && ant in velocityHolders && ant !in ctx.cooling
  }

  /**
   * The reaction one hit asks for. An ant the query does not yield ignores
   * the hit; a carrying ant drops its first child; an ant with no Children
   * picks the hit food up; an empty Children list only warns.
   */
  function Decide(hit: HitEvent, velocityHolders: set<Entity>, ctx: HitContext): (r: Option<Reaction>)
    ensures r.Some? ==> Responds(hit.Hitter(), velocityHolders, ctx) && r.value.ant == hit.Hitter()
    ensures (r.Some? && r.value.Drop?) <==>
      Responds(hit.Hitter(), velocityHolders, ctx) && hit.Hitter() in ctx.children && ctx.children[hit.Hitter()] != []
    ensures r.Some? && r.value.Drop? ==> r.value.carried == ctx.children[hit.Hitter()][0]
    ensures (r.Some? && r.value.PickUp?) <==>
      Responds(hit.Hitter(), velocityHolders, ctx) && hit.Hitter() !in ctx.children
    ensures r.Some? && r.value.PickUp? ==> r.value.food == hit.Hittable()
  {
    var ant := hit.Hitter();
    if !Responds(ant, velocityHolders, ctx) then None
    else if ant in ctx.children then
      if ctx.children[ant] != [] then Some(Drop(ant, ctx.children[ant][0])) else None
    else Some(PickUp(ant, hit.Hittable()))
  }

  /** What the hit loop writes: velocities, translations, and the queued commands. */
  datatype Frame = Frame(velocities: map<Entity, Vec2>, transforms: map<Entity, Vec3>, queued: seq<Reaction>)

  /** Where a picked-up food sits relative to the ant that carries it. */
  const CARRIED_OFFSET: Vec3 := Vec3(0.0, 0.0, CARRIED_FOOD_Z_LAYER)

  /**
   * The effect of one hit on the loop's state. `turn` is the velocity the
   * ant would be given on a pick-up (reversed heading plus a random angle,
   * times the speed). If the picked food has no Transform (or no Food
   * marker) the commands stay queued but the translation and velocity are
   * not written.
   */
  function React(f: Frame, hit: HitEvent, turn: Vec2, ctx: HitContext): (g: Frame)
    ensures g.velocities.Keys == f.velocities.Keys && g.transforms.Keys == f.transforms.Keys
  {
    match Decide(hit, f.velocities.Keys, ctx)
    case None => f
    case Some(Drop(ant, carried)) => f.(queued := f.queued + [Drop(ant, carried)])
    case Some(PickUp(ant, food)) =>
      if food in ctx.foods && food in f.transforms then
        Frame(f.velocities[ant := turn], f.transforms[food := CARRIED_OFFSET], f.queued + [PickUp(ant, food)])
      else f.(queued := f.queued + [PickUp(ant, food)])
  }

  /** The loop over all hits, in reading order. */
  function ReactAll(f: Frame, hits: seq<HitEvent>, turns: seq<Vec2>, ctx: HitContext): (g: Frame)
    requires |turns| == |hits|
    ensures g.velocities.Keys == f.velocities.Keys && g.transforms.Keys == f.transforms.Keys
  {
    if hits == [] then f
    else
      var n := |hits| - 1;
      React(ReactAll(f, hits[..n], turns[..n], ctx), hits[n], turns[n], ctx)
  }

  /** An ant with a Cooldown keeps its velocity and has no command queued for it, however many hits it gets. */
  lemma {:induction false} CoolingAntIgnoresHits(f: Frame, hits: seq<HitEvent>, turns: seq<Vec2>, ctx: HitContext, ant: Entity)
    requires |turns| == |hits| && ant in ctx.cooling && ant in f.velocities
    ensures ReactAll(f, hits, turns, ctx).velocities[ant] == f.velocities[ant]
    ensures forall r :: r in ReactAll(f, hits, turns, ctx).queued && r !in f.queued ==> r.ant != ant
  {
    if hits != [] {
      var n := |hits| - 1;
      var mid := ReactAll(f, hits[..n], turns[..n], ctx);
      CoolingAntIgnoresHits(f, hits[..n], turns[..n], ctx, ant);
      var d := Decide(hits[n], mid.velocities.Keys, ctx);
      assert d.Some? ==> d.value.ant != ant;
    }
  }

  /**
   * The hit makes `ant` pick up `food` with both written at once: the food
   * has the Food marker and a Transform, so the loop turns the ant and puts
   * the food at the carried offset. Velocity holders and Transform holders
   * never change during the loop, so this depends on the loop's start only.
   */
  predicate Lifts(f: Frame, hit: HitEvent, ctx: HitContext, ant: Entity, food: Entity) {
    Decide(hit, f.velocities.Keys, ctx) == Some(PickUp(ant, food)) && food in ctx.foods && food in f.transforms
  }

  /**
   * One hit: a pick-up of a food with a Transform turns the ant and moves the
   * food to the carried offset; a drop, an ignored hit, or a pick-up of
   * something that is not a Food with a Transform writes neither velocities
   * nor translations. Every reaction the hit asks for is queued.
   */
  lemma ReactEffect(f: Frame, hit: HitEvent, turn: Vec2, ctx: HitContext)
    ensures var g := React(f, hit, turn, ctx);
      && (forall ant, food :: Lifts(f, hit, ctx, ant, food) ==>
            g.velocities == f.velocities[ant := turn] && g.transforms == f.transforms[food := CARRIED_OFFSET])
      && ((forall ant, food :: !Lifts(f, hit, ctx, ant, food)) ==>
            g.velocities == f.velocities && g.transforms == f.transforms)
      && g.queued == f.queued + (match Decide(hit, f.velocities.Keys, ctx) case Some(r) => [r] case None => [])
  {
    var d := Decide(hit, f.velocities.Keys, ctx);
    if d.Some? && d.value.PickUp? {
      assert d == Some(PickUp(d.value.ant, d.value.food));
      if d.value.food in ctx.foods && d.value.food in f.transforms {
        assert Lifts(f, hit, ctx, d.value.ant, d.value.food);
      }
    }
  }

  /** Every food some hit lifts ends the loop at the carried offset. */
  lemma {:induction false} LiftedFoodIsCarried(f: Frame, hits: seq<HitEvent>, turns: seq<Vec2>, ctx: HitContext, j: nat, ant: Entity, food: Entity)
    requires |turns| == |hits| && j < |hits| && Lifts(f, hits[j], ctx, ant, food)
    ensures ReactAll(f, hits, turns, ctx).transforms[food] == CARRIED_OFFSET
  {
    var n := |hits| - 1;
    var mid := ReactAll(f, hits[..n], turns[..n], ctx);
    if j < n {
      assert hits[..n][j] == hits[j];
      LiftedFoodIsCarried(f, hits[..n], turns[..n], ctx, j, ant, food);
      assert ReactAll(f, hits, turns, ctx) == React(mid, hits[n], turns[n], ctx);
      ReactEffect(mid, hits[n], turns[n], ctx);
    } else {
      assert Lifts(mid, hits[n], ctx, ant, food);
    }
  }

  /** A translation no hit lifts is left as it was. */
  lemma {:induction false} UnliftedKeepsTranslation(f: Frame, hits: seq<HitEvent>, turns: seq<Vec2>, ctx: HitContext, e: Entity)
    requires |turns| == |hits| && e in f.transforms
    requires forall j, ant :: 0 <= j < |hits| ==> !Lifts(f, hits[j], ctx, ant, e)
    ensures ReactAll(f, hits, turns, ctx).transforms[e] == f.transforms[e]
  {
    if hits != [] {
      var n := |hits| - 1;
      forall j, ant | 0 <= j < n ensures !Lifts(f, hits[..n][j], ctx, ant, e) {
        assert hits[..n][j] == hits[j];
      }
      UnliftedKeepsTranslation(f, hits[..n], turns[..n], ctx, e);
      var mid := ReactAll(f, hits[..n], turns[..n], ctx);
      forall ant ensures !Lifts(mid, hits[n], ctx, ant, e) {
        assert !Lifts(f, hits[n], ctx, ant, e);
      }
      assert ReactAll(f, hits, turns, ctx) == React(mid, hits[n], turns[n], ctx);
      ReactEffect(mid, hits[n], turns[n], ctx);
    }
  }

  /** An ant that lifts nothing keeps its velocity; in particular a drop never turns it. */
  lemma {:induction false} UnturnedAntKeepsVelocity(f: Frame, hits: seq<HitEvent>, turns: seq<Vec2>, ctx: HitContext, ant: Entity)
    requires |turns| == |hits| && ant in f.velocities
    requires forall j, food :: 0 <= j < |hits| ==> !Lifts(f, hits[j], ctx, ant, food)
    ensures ReactAll(f, hits, turns, ctx).velocities[ant] == f.velocities[ant]
  {
    if hits != [] {
      var n := |hits| - 1;
      forall j, food | 0 <= j < n ensures !Lifts(f, hits[..n][j], ctx, ant, food) {
        assert hits[..n][j] == hits[j];
      }
      UnturnedAntKeepsVelocity(f, hits[..n], turns[..n], ctx, ant);
      var mid := ReactAll(f, hits[..n], turns[..n], ctx);
      forall food ensures !Lifts(mid, hits[n], ctx, ant, food) {
        assert !Lifts(f, hits[n], ctx, ant, food);
      }
      assert ReactAll(f, hits, turns, ctx) == React(mid, hits[n], turns[n], ctx);
      ReactEffect(mid, hits[n], turns[n], ctx);
    }
  }

  /** An ant's velocity at the end of the loop is the turn of its last lift. */
  lemma {:induction false} LastLiftSetsVelocity(f: Frame, hits: seq<HitEvent>, turns: seq<Vec2>, ctx: HitContext, j: nat, ant: Entity, food: Entity)
    requires |turns| == |hits| && j < |hits| && Lifts(f, hits[j], ctx, ant, food)
    requires forall k, other :: j < k < |hits| ==> !Lifts(f, hits[k], ctx, ant, other)
    ensures ReactAll(f, hits, turns, ctx).velocities[ant] == turns[j]
  {
    var n := |hits| - 1;
    var mid := ReactAll(f, hits[..n], turns[..n], ctx);
    if j < n {
      assert hits[..n][j] == hits[j] && turns[..n][j] == turns[j];
      forall k, other | j < k < n ensures !Lifts(f, hits[..n][k], ctx, ant, other) {
        assert hits[..n][k] == hits[k];
      }
      LastLiftSetsVelocity(f, hits[..n], turns[..n], ctx, j, ant, food);
      forall other ensures !Lifts(mid, hits[n], ctx, ant, other) {
        assert !Lifts(f, hits[n], ctx, ant, other);
      }
      assert ReactAll(f, hits, turns, ctx) == React(mid, hits[n], turns[n], ctx);
      ReactEffect(mid, hits[n], turns[n], ctx);
    } else {
      assert Lifts(mid, hits[n], ctx, ant, food);
    }
  }

  /**
   * The loop moves no entity except a picked-up food, which it puts at the
   * carried offset, and queues commands only for ants.
   */
  lemma {:induction false} ReactAllMovesOnlyPickedFood(f: Frame, hits: seq<HitEvent>, turns: seq<Vec2>, ctx: HitContext)
    requires |turns| == |hits|
    ensures forall e :: e in f.transforms ==>
      ReactAll(f, hits, turns, ctx).transforms[e] == f.transforms[e] ||
      (e in ctx.foods && ReactAll(f, hits, turns, ctx).transforms[e] == CARRIED_OFFSET)
    ensures forall r :: r in ReactAll(f, hits, turns, ctx).queued && r !in f.queued ==> r.ant in ctx.ants
  {
    if hits != [] {
      var n := |hits| - 1;
      ReactAllMovesOnlyPickedFood(f, hits[..n], turns[..n], ctx);
    }
  }

  /** The loop only appends to the command queue. */
  lemma {:induction false} ReactAllQueueGrows(f: Frame, hits: seq<HitEvent>, turns: seq<Vec2>, ctx: HitContext)
    requires |turns| == |hits|
    ensures f.queued <= ReactAll(f, hits, turns, ctx).queued
    ensures |ReactAll(f, hits, turns, ctx).queued| <= |f.queued| + |hits|
  {
    if hits != [] {
      var n := |hits| - 1;
      ReactAllQueueGrows(f, hits[..n], turns[..n], ctx);
    }
  }

  /** The parts of the world the queued commands change. */
  datatype Store = Store(
    children: ChildLists,
    parents: ParentLinks,
    transforms: map<Entity, Vec3>,
    collidable: set<Entity>,
    cooldowns: map<Entity, Timer>)

  function StoreOf(w: World): Store
    reads w
  {
    Store(w.children, w.parents, w.transforms, w.collidable, w.cooldowns)
  }

  /** Translations once c has left its parent keeping its world position. */
  function InPlace(transforms: map<Entity, Vec3>, parents: ParentLinks, c: Entity): (r: map<Entity, Vec3>)
    ensures r.Keys == transforms.Keys
    ensures forall e :: e in r && e != c ==> r[e] == transforms[e]
  {
    if c in parents && parents[c] in transforms && c in transforms
    then transforms[c := transforms[parents[c]].Add(transforms[c])]
    else transforms
  }

  /** The cooldown a drop gives the ant. */
  function FreshCooldown(): (t: Timer)
    ensures !t.Finished()
  {
    TimerFromSeconds(PICKUP_COOLDOWN)
  }

  /** The store after one queued command batch. */
  function Applied(s: Store, r: Reaction): (t: Store)
    ensures r.Drop? ==>
      && r.carried !in t.parents && r.carried in t.collidable
      && r.ant in t.cooldowns && !t.cooldowns[r.ant].Finished()
      && t.transforms.Keys == s.transforms.Keys
    ensures r.PickUp? ==>
      && r.food in t.parents && t.parents[r.food] == r.ant && r.food !in t.collidable
      && r.ant in t.children && r.food in t.children[r.ant]
      && t.transforms == s.transforms && t.cooldowns == s.cooldowns
  {
    match r
    case Drop(ant, c) =>
      Store(Detached(s.children, s.parents, c), s.parents - {c}, InPlace(s.transforms, s.parents, c),
            s.collidable + {c}, s.cooldowns[ant := FreshCooldown()])
    case PickUp(ant, food) =>
      Store(Attached(Detached(s.children, s.parents, food), ant, food), s.parents[food := ant], s.transforms,
            s.collidable - {food}, s.cooldowns)
  }

  /** The ants a command queue cools down: those that drop. */
  function Droppers(rs: seq<Reaction>): set<Entity> {
    if rs == [] then {} else (if rs[0].Drop? then {rs[0].ant} else {}) + Droppers(rs[1..])
  }

  /**
   * The queue applied in order. It refreshes the cooldown of every ant that
   * drops and touches no other cooldown.
   */
  function ApplyAll(s: Store, rs: seq<Reaction>): (t: Store)
    ensures t.cooldowns.Keys == s.cooldowns.Keys + Droppers(rs)
    ensures forall a :: a in Droppers(rs) ==> !t.cooldowns[a].Finished()
    ensures forall a :: a in s.cooldowns && a !in Droppers(rs) ==> t.cooldowns[a] == s.cooldowns[a]
    decreases |rs|
  {
    if rs == [] then s else ApplyAll(Applied(s, rs[0]), rs[1..])
  }

  /**
   * The carrying invariant: the hierarchy is consistent and a carried
   * entity (one with a parent) is never Collidable, so it cannot be hit.
   */
  predicate Carrying(s: Store) {
    Consistent(s.children, s.parents) && forall c :: c in s.parents ==> c !in s.collidable
  }

  /** Every command batch keeps the carrying invariant. */
  lemma AppliedKeepsCarrying(s: Store, r: Reaction)
    requires Carrying(s)
    ensures Carrying(Applied(s, r))
  {
    match r
    case Drop(ant, c) =>
      DetachKeepsConsistent(s.children, s.parents, c);
    case PickUp(ant, food) =>
      AddChildKeepsConsistent(s.children, s.parents, ant, food);
  }

  lemma {:induction false} ApplyAllKeepsCarrying(s: Store, rs: seq<Reaction>)
    requires Carrying(s)
    ensures Carrying(ApplyAll(s, rs))
    decreases |rs|
  {
    if rs != [] {
      AppliedKeepsCarrying(s, rs[0]);
      ApplyAllKeepsCarrying(Applied(s, rs[0]), rs[1..]);
    }
  }

  /** Only a drop gives a cooldown: a pick-up leaves every cooldown as it was. */
  lemma OnlyDropCoolsDown(s: Store, r: Reaction)
    ensures r.PickUp? ==> Applied(s, r).cooldowns == s.cooldowns
    ensures r.Drop? ==> Applied(s, r).cooldowns == s.cooldowns[r.ant := FreshCooldown()]
    ensures r.ant in Applied(s, r).cooldowns <==> r.ant in s.cooldowns || r.Drop?
  {
  }

  /** With a consistent hierarchy, the entity a drop names is a child of the dropping ant. */
  lemma DropNamesOwnChild(hit: HitEvent, velocityHolders: set<Entity>, ctx: HitContext, parents: ParentLinks)
    requires Consistent(ctx.children, parents)
    requires Decide(hit, velocityHolders, ctx).Some? && Decide(hit, velocityHolders, ctx).value.Drop?
    ensures var r := Decide(hit, velocityHolders, ctx).value; r.carried in parents && parents[r.carried] == r.ant
  {
    var ant := hit.Hitter();
    assert ctx.children[ant][0] in ctx.children[ant];
  }

  /**
   * Picking a food up and then dropping it restores the hierarchy and the
   * Collidable marker, leaves the ant cooling down, and leaves the food at
   * the ant's translation plus its own.
   */
  lemma PickUpThenDropRestores(s: Store, ant: Entity, food: Entity)
    requires Carrying(s) && ant !in s.children && food !in s.parents && food in s.collidable
    requires ant in s.transforms && food in s.transforms
    ensures var t := Applied(Applied(s, PickUp(ant, food)), Drop(ant, food));
      && t.children == s.children && t.parents == s.parents && t.collidable == s.collidable
      && t.cooldowns == s.cooldowns[ant := FreshCooldown()]
      && t.transforms == s.transforms[food := s.transforms[ant].Add(s.transforms[food])]
  {
    var m := Applied(s, PickUp(ant, food));
    var t := Applied(m, Drop(ant, food));
    assert Detached(s.children, s.parents, food) == s.children;
    assert [] + [food] == [food];
    assert m == Store(s.children[ant := [food]], s.parents[food := ant], s.transforms, s.collidable - {food}, s.cooldowns);
    assert Without([food], food) == [];
    assert t.children == s.children;
    assert t.parents == s.parents;
  }

  /** Apply one command batch to the world. */
  method ApplyReaction(w: World, r: Reaction)
    modifies w`children, w`parents, w`transforms, w`collidable, w`cooldowns
    ensures StoreOf(w) == Applied(old(StoreOf(w)), r)
  {
    match r
    case Drop(ant, carried) =>
      w.RemoveParentInPlace(carried);
      w.collidable := w.collidable + {carried};
      w.cooldowns := w.cooldowns[ant := TimerFromSeconds(PICKUP_COOLDOWN)];
    case PickUp(ant, food) =>
      w.AddChild(ant, food);
      w.collidable := w.collidable - {food};
  }

  /** Apply the queued command batches in order. */
  method ApplyQueued(w: World, queued: seq<Reaction>)
    modifies w`children, w`parents, w`transforms, w`collidable, w`cooldowns
    ensures StoreOf(w) == ApplyAll(old(StoreOf(w)), queued)
  {
    ghost var start := StoreOf(w);
    for i := 0 to |queued|
      invariant ApplyAll(start, queued) == ApplyAll(StoreOf(w), queued[i..])
    {
      assert queued[i..][1..] == queued[i + 1..];
      ApplyReaction(w, queued[i]);
    }
  }

  /**
   * `ant_hits_system`: reads the hits in order, writes velocities and food
   * translations at once and queues the rest, then applies the queue.
   * `turns[i]` stands for the random new velocity drawn on a pick-up by hit i.
   */
  method AntHitsSystem(w: World, hits: seq<HitEvent>, turns: seq<Vec2>) returns (queued: seq<Reaction>)
    requires |turns| == |hits|
    modifies w`velocities, w`transforms, w`children, w`parents, w`collidable, w`cooldowns
    ensures var ctx := HitContext(old(w.ants), old(w.cooldowns.Keys), old(w.foods), old(w.children));
      var f := ReactAll(Frame(old(w.velocities), old(w.transforms), []), hits, turns, ctx);
      && queued == f.queued
      && w.velocities == f.velocities
      && StoreOf(w) == ApplyAll(Store(old(w.children), old(w.parents), f.transforms, old(w.collidable), old(w.cooldowns)), queued)
  {
    var ctx := HitContext(w.ants, w.cooldowns.Keys, w.foods, w.children);
    ghost var start := Frame(w.velocities, w.transforms, []);
    queued := [];
    for i := 0 to |hits|
      invariant Frame(w.velocities, w.transforms, queued) == ReactAll(start, hits[..i], turns[..i], ctx)
      invariant w.children == old(w.children) && w.parents == old(w.parents)
      invariant w.collidable == old(w.collidable) && w.cooldowns == old(w.cooldowns)
    {
      assert hits[..i + 1][..i] == hits[..i] && turns[..i + 1][..i] == turns[..i];
      var hit := hits[i];
      var ant := hit.Hitter();
      var food := hit.Hittable();
      if ant in w.ants && ant in w.velocities && ant !in w.cooldowns {
        if ant in w.children {
          if w.children[ant] != [] {
            queued := queued + [Drop(ant, w.children[ant][0])];
          }
        } else {
          queued := queued + [PickUp(ant, food)];
          if food in w.foods && food in w.transforms {
            w.transforms := w.transforms[food := Vec3(0.0, 0.0, CARRIED_FOOD_Z_LAYER)];
            w.velocities := w.velocities[ant := turns[i]];
          }
        }
      }
    }
    assert hits[..|hits|] == hits && turns[..|turns|] == turns;
    ApplyQueued(w, queued);
  }

  /** The cooldowns after one tick: each timer advanced by delta, finished ones removed. */
  function Cooled(cooldowns: map<Entity, Timer>, delta: real): (r: map<Entity, Timer>)
    requires delta >= 0.0
    ensures forall e :: e in r <==> e in cooldowns && !cooldowns[e].Tick(delta).Finished()
    ensures forall e :: e in r ==> r[e] == cooldowns[e].Tick(delta)
  {
    map e | e in cooldowns && !cooldowns[e].Tick(delta).Finished() :: cooldowns[e].Tick(delta)
  }

  /** `cooldown_system`: ticks every Cooldown timer and removes those that have finished. */
  method CooldownSystem(w: World, delta: real)
    requires delta >= 0.0
    modifies w`cooldowns
    ensures w.cooldowns == Cooled(old(w.cooldowns), delta)
  {
    var todo := w.cooldowns.Keys;
    var start := w.cooldowns;
    var ticked: map<Entity, Timer> := map[];
    while todo != {}
      invariant todo <= start.Keys
      invariant forall e :: e in ticked <==> e in start && e !in todo
      invariant forall e :: e in ticked ==> ticked[e] == start[e].Tick(delta)
      decreases todo
    {
      var e :| e in todo;
      ticked := ticked[e := start[e].Tick(delta)];
      todo := todo - {e};
    }
    var finished := set e | e in ticked && ticked[e].Finished();
    w.cooldowns := map e | e in ticked && e !in finished :: ticked[e];
  }

  /** A fresh drop cooldown outlives a tick shorter than PICKUP_COOLDOWN and is removed by one at least that long. */
  lemma FreshCooldownLifetime(ant: Entity, delta: real)
    requires delta >= 0.0
    ensures ant in Cooled(map[ant := FreshCooldown()], delta) <==> delta < PICKUP_COOLDOWN
  {
    assert FreshCooldown().Tick(delta).Finished() <==> delta >= PICKUP_COOLDOWN;
  }

  /** Two ticks remove no cooldown that one tick of their sum would keep, and keep the same timers. */
  lemma {:induction false} CooledTwiceWithinSum(cooldowns: map<Entity, Timer>, d1: real, d2: real, e: Entity)
    requires d1 >= 0.0 && d2 >= 0.0
    requires e in cooldowns && cooldowns[e].elapsed <= cooldowns[e].duration
    ensures e in Cooled(Cooled(cooldowns, d1), d2) <==> e in Cooled(cooldowns, d1 + d2)
  {
    var t := cooldowns[e];
    if e in Cooled(cooldowns, d1) {
      assert Cooled(cooldowns, d1)[e] == t.Tick(d1);
      assert t.Tick(d1).elapsed == t.elapsed + d1;
    }
  }

  /** A translation moved by a velocity for dt seconds; z is kept. */
  function Moved(t: Vec3, v: Vec2, dt: real): (r: Vec3)
    ensures r.Truncate() == t.Truncate().Add(v.Scale(dt))
    ensures r.z == t.z
  {
    var step := v.Scale(dt);
    Vec3(t.x + step.x, t.y + step.y, t.z)
  }

  /** Moving for dt1 and then for dt2 is moving for dt1 + dt2. */
  lemma MovedAdds(t: Vec3, v: Vec2, dt1: real, dt2: real)
    ensures Moved(Moved(t, v, dt1), v, dt2) == Moved(t, v, dt1 + dt2)
  {
    assert v.x * dt1 + v.x * dt2 == v.x * (dt1 + dt2);
    assert v.y * dt1 + v.y * dt2 == v.y * (dt1 + dt2);
  }

  /** `gatherer_movement`: every entity with a Velocity and a Transform moves by velocity * dt. */
  method GathererMovement(w: World, dt: real)
    modifies w`transforms
    ensures w.transforms.Keys == old(w.transforms.Keys)
    ensures forall e :: e in w.transforms ==>
      w.transforms[e] == (if e in w.velocities then Moved(old(w.transforms[e]), w.velocities[e], dt)
                          else old(w.transforms[e]))
  {
    var todo := w.transforms.Keys * w.velocities.Keys;
    ghost var moving := todo;
    ghost var start := w.transforms;
    while todo != {}
      invariant todo <= moving
      invariant w.transforms.Keys == start.Keys
      invariant forall e :: e in w.transforms ==>
        w.transforms[e] == (if e in moving - todo then Moved(start[e], w.velocities[e], dt) else start[e])
      decreases todo
    {
      var e :| e in todo;
      var scaled := w.velocities[e].Scale(dt);
      var t := w.transforms[e];
      w.transforms := w.transforms[e := Vec3(t.x + scaled.x, t.y + scaled.y, t.z)];
      todo := todo - {e};
    }
  }

  /** The number of ants `spawn_ants` places across the window: one per ANT_SPAWN_STEP in [-halfX, halfX). */
  function SpawnCount(halfX: int): (n: nat)
    ensures -halfX + ANT_SPAWN_STEP * n >= halfX
    ensures n > 0 ==> -halfX + ANT_SPAWN_STEP * (n - 1) < halfX
  {
    if halfX <= 0 then 0 else (2 * halfX + ANT_SPAWN_STEP - 1) / ANT_SPAWN_STEP
  }

  /** Every position is counted once: n steps fit below halfX exactly when n <= SpawnCount(halfX). */
  lemma SpawnCountIsLeast(halfX: int, n: nat)
    ensures -halfX + ANT_SPAWN_STEP * n < halfX <==> n < SpawnCount(halfX)
  {
    var c := SpawnCount(halfX);
    if n >= c {
      assert ANT_SPAWN_STEP * n >= ANT_SPAWN_STEP * c;
    }
  }

  /** The x of the i-th ant. */
  function AntSpawnX(halfX: int, i: int): int {
    -halfX + ANT_SPAWN_STEP * i
  }

  /** e is an ant as `spawn_ants` creates it: at (x, ANT_SPAWN_Y, ANT_Z_LAYER), moving along heading at ANT_SPEED. */
  predicate IsSpawnedAnt(w: World, e: Entity, x: int, heading: Vec2)
    reads w
  {
    && e in w.ants && e in w.collidable && e in w.boundaryWraps
    && e in w.transforms && w.transforms[e] == Vec3(x as real, ANT_SPAWN_Y, ANT_Z_LAYER)
    && e in w.velocities && w.velocities[e] == heading.Scale(ANT_SPEED)
    && e in w.boundings && w.boundings[e] == COLLISION_RADIUS
  }

  /** e is a food item as `spawn_food` creates it: at spot on the food layer, collidable, not wrapping. */
  predicate IsSpawnedFood(w: World, e: Entity, spot: (int, int))
    reads w
  {
    && e in w.foods && e in w.collidable && e !in w.boundaryWraps
    && e in w.transforms && w.transforms[e] == Vec3(spot.0 as real, spot.1 as real, FOOD_Z_LAYER)
    && e in w.boundings && w.boundings[e] == COLLISION_RADIUS
  }

  /** The ids handed out by the allocator while it moved from lo to hi. */
  function IdsBetween(lo: Entity, hi: Entity): (ids: set<Entity>)
    ensures forall e :: e in ids <==> lo <= e < hi
    decreases hi - lo
  {
    if hi <= lo then {} else IdsBetween(lo, hi - 1) + {hi - 1}
  }

  /** Every entry of m0 is still in m1 with the same value. */
  predicate Extends<V(==)>(m0: map<Entity, V>, m1: map<Entity, V>) {
    forall e :: e in m0 ==> e in m1 && m1[e] == m0[e]
  }

  /** Spawns one ant bundle: Ant, Transform, Velocity, Bounding, Collidable, BoundaryWrap. */
  method SpawnAnt(w: World, x: int, heading: Vec2) returns (e: Entity)
    requires w.Allocated()
    modifies w
    ensures e == old(w.nextEntity) && w.nextEntity == e + 1 && w.Allocated()
    ensures IsSpawnedAnt(w, e, x, heading)
    ensures w.ants == old(w.ants) + {e} && w.foods == old(w.foods)
    ensures w.collidable == old(w.collidable) + {e} && w.boundaryWraps == old(w.boundaryWraps) + {e}
    ensures w.transforms == old(w.transforms)[e := Vec3(x as real, ANT_SPAWN_Y, ANT_Z_LAYER)]
    ensures w.velocities == old(w.velocities)[e := heading.Scale(ANT_SPEED)]
    ensures w.boundings == old(w.boundings)[e := COLLISION_RADIUS]
    ensures unchanged(w`children, w`parents, w`cooldowns)
  {
    e := w.Spawn();
    w.ants := w.ants + {e};
    w.transforms := w.transforms[e := Vec3(x as real, ANT_SPAWN_Y, ANT_Z_LAYER)];
    w.velocities := w.velocities[e := heading.Scale(ANT_SPEED)];
    w.boundings := w.boundings[e := COLLISION_RADIUS];
    w.collidable := w.collidable + {e};
    w.boundaryWraps := w.boundaryWraps + {e};
  }

  /** Spawns one food bundle: Food, Transform, Collidable, Bounding. */
  method SpawnFoodItem(w: World, spot: (int, int)) returns (e: Entity)
    requires w.Allocated()
    modifies w
    ensures e == old(w.nextEntity) && w.nextEntity == e + 1 && w.Allocated()
    ensures IsSpawnedFood(w, e, spot)
    ensures w.foods == old(w.foods) + {e} && w.ants == old(w.ants)
    ensures w.collidable == old(w.collidable) + {e} && w.boundaryWraps == old(w.boundaryWraps)
    ensures w.transforms == old(w.transforms)[e := Vec3(spot.0 as real, spot.1 as real, FOOD_Z_LAYER)]
    ensures w.velocities == old(w.velocities)
    ensures w.boundings == old(w.boundings)[e := COLLISION_RADIUS]
    ensures unchanged(w`children, w`parents, w`cooldowns)
  {
    e := w.Spawn();
    w.foods := w.foods + {e};
    w.transforms := w.transforms[e := Vec3(spot.0 as real, spot.1 as real, FOOD_Z_LAYER)];
    w.collidable := w.collidable + {e};
    w.boundings := w.boundings[e := COLLISION_RADIUS];
  }

  /**
   * `spawn_ants`: one ant per step in [-halfX, halfX), at height
   * ANT_SPAWN_Y, each heading along its own unit vector at ANT_SPEED;
   * returns how many it spawned.
   */
  method SpawnAnts(w: World, halfX: int, headings: seq<Vec2>) returns (count: nat)
    requires w.Allocated()
    requires |headings| == SpawnCount(halfX)
    modifies w
    ensures count == SpawnCount(halfX)
    ensures w.Allocated() && w.nextEntity == old(w.nextEntity) + count
    ensures forall i :: 0 <= i < count ==> IsSpawnedAnt(w, old(w.nextEntity) + i, AntSpawnX(halfX, i), headings[i])
    ensures w.ants == old(w.ants) + IdsBetween(old(w.nextEntity), w.nextEntity) && w.foods == old(w.foods)
    ensures w.collidable == old(w.collidable) + IdsBetween(old(w.nextEntity), w.nextEntity)
    ensures w.boundaryWraps == old(w.boundaryWraps) + IdsBetween(old(w.nextEntity), w.nextEntity)
    ensures Extends(old(w.transforms), w.transforms) && Extends(old(w.velocities), w.velocities)
    ensures Extends(old(w.boundings), w.boundings)
    ensures unchanged(w`children, w`parents, w`cooldowns)
  {
    count := 0;
    var x := -halfX;
    while x < halfX
      invariant x == AntSpawnX(halfX, count) && count <= |headings|
      invariant w.Allocated() && w.nextEntity == old(w.nextEntity) + count
      invariant forall i :: 0 <= i < count ==> IsSpawnedAnt(w, old(w.nextEntity) + i, AntSpawnX(halfX, i), headings[i])
      invariant forall e :: e in w.ants <==> e in old(w.ants) || old(w.nextEntity) <= e < w.nextEntity
      invariant forall e :: e in w.collidable <==> e in old(w.collidable) || old(w.nextEntity) <= e < w.nextEntity
      invariant forall e :: e in w.boundaryWraps <==> e in old(w.boundaryWraps) || old(w.nextEntity) <= e < w.nextEntity
      invariant w.foods == old(w.foods)
      invariant Extends(old(w.transforms), w.transforms) && Extends(old(w.velocities), w.velocities)
      invariant Extends(old(w.boundings), w.boundings)
      invariant unchanged(w`children, w`parents, w`cooldowns)
      decreases halfX - x
    {
      SpawnCountIsLeast(halfX, count);
      var _ := SpawnAnt(w, x, headings[count]);
      x := x + ANT_SPAWN_STEP;
      count := count + 1;
    }
    SpawnCountIsLeast(halfX, count);
  }

  /**
   * `spawn_food`: FOOD_COUNT food items at the drawn positions, each in
   * [-halfX, halfX) x [-halfY, halfY); returns FOOD_COUNT. Drawing from an
   * empty range aborts, so both half extents must be positive.
   */
  method SpawnFood(w: World, halfX: int, halfY: int, spots: seq<(int, int)>) returns (count: nat)
    requires w.Allocated()
    requires halfX > 0 && halfY > 0
    requires |spots| == FOOD_COUNT
    requires forall i :: 0 <= i < |spots| ==> -halfX <= spots[i].0 < halfX && -halfY <= spots[i].1 < halfY
    modifies w
    ensures count == FOOD_COUNT
    ensures w.Allocated() && w.nextEntity == old(w.nextEntity) + FOOD_COUNT
    ensures forall i :: 0 <= i < FOOD_COUNT ==> IsSpawnedFood(w, old(w.nextEntity) + i, spots[i])
    ensures w.foods == old(w.foods) + IdsBetween(old(w.nextEntity), w.nextEntity)
    ensures w.collidable == old(w.collidable) + IdsBetween(old(w.nextEntity), w.nextEntity)
    ensures w.ants == old(w.ants) && w.boundaryWraps == old(w.boundaryWraps)
    ensures Extends(old(w.transforms), w.transforms) && w.velocities == old(w.velocities)
    ensures Extends(old(w.boundings), w.boundings)
    ensures unchanged(w`children, w`parents, w`cooldowns)
  {
    for i := 0 to FOOD_COUNT
      invariant w.Allocated() && w.nextEntity == old(w.nextEntity) + i
      invariant forall j :: 0 <= j < i ==> IsSpawnedFood(w, old(w.nextEntity) + j, spots[j])
      invariant forall e :: e in w.foods <==> e in old(w.foods) || old(w.nextEntity) <= e < w.nextEntity
      invariant forall e :: e in w.collidable <==> e in old(w.collidable) || old(w.nextEntity) <= e < w.nextEntity
      invariant w.ants == old(w.ants) && w.boundaryWraps == old(w.boundaryWraps)
      invariant Extends(old(w.transforms), w.transforms) && w.velocities == old(w.velocities)
      invariant Extends(old(w.boundings), w.boundings)
      invariant unchanged(w`children, w`parents, w`cooldowns)
    {
      var _ := SpawnFoodItem(w, spots[i]);
    }
    count := FOOD_COUNT;
  }
}
