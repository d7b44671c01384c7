/**
 * The browser port of the simulation: agents walk a fixed 800 x 600 world
 * that wraps at its edges, pick up the first free resource they come within
 * 15 pixels of, and drop what they carry on the next contact, with a short
 * cooldown in between. Agents and resources are mutable objects held in two
 * arrays of the simulation object.
 */
module GatherersJs {
  import opened Bevy

  const WORLD_WIDTH: real := 800.0
  const WORLD_HEIGHT: real := 600.0
  const HALF_WIDTH: real := WORLD_WIDTH / 2.0
  const HALF_HEIGHT: real := WORLD_HEIGHT / 2.0
  const AGENT_COUNT: int := 16
  const AGENT_SPEED: real := 100.0
  const AGENT_SPAWN_Y: real := 100.0
  const RESOURCE_COUNT: int := 80
  const PICKUP_COOLDOWN: real := 0.1
  const INTERACT_DISTANCE: real := 15.0

  /**
   * `distance(p, q) < maxDistance` without the square root: a Euclidean
   * distance is never negative, so it is below a non-positive bound never,
   * and below a positive one exactly when its square is below the bound's.
   */
  predicate Within(p: Vec2, q: Vec2, maxDistance: real) {
    var dx, dy := p.x - q.x, p.y - q.y;
    maxDistance > 0.0 && dx * dx + dy * dy < maxDistance * maxDistance
  }

  /** Being within a distance does not depend on which point is measured from. */
  lemma WithinSymmetric(p: Vec2, q: Vec2, maxDistance: real)
    ensures Within(p, q, maxDistance) <==> Within(q, p, maxDistance)
  {
    assert (p.x - q.x) * (p.x - q.x) == (q.x - p.x) * (q.x - p.x);
    assert (p.y - q.y) * (p.y - q.y) == (q.y - p.y) * (q.y - p.y);
  }

  /** One coordinate after the edge wrap: past one edge, it jumps to the other. */
  function WrapCoordinate(v: real, half: real): (r: real)
    ensures half >= 0.0 ==> -half <= r <= half
    ensures -half <= v <= half ==> r == v
  {
    if v < -half then half else if v > half then -half else v
  }

  /** Wrapping an already wrapped coordinate changes nothing. */
  lemma WrapCoordinateIdempotent(v: real, half: real)
    requires half >= 0.0
    ensures WrapCoordinate(WrapCoordinate(v, half), half) == WrapCoordinate(v, half)
  {
  }

  /** A position after the world's edge wrap. */
  function WrapPosition(p: Vec2): (r: Vec2)
    ensures -HALF_WIDTH <= r.x <= HALF_WIDTH && -HALF_HEIGHT <= r.y <= HALF_HEIGHT
    ensures -HALF_WIDTH <= p.x <= HALF_WIDTH && -HALF_HEIGHT <= p.y <= HALF_HEIGHT ==> r == p
  {
    Vec2(WrapCoordinate(p.x, HALF_WIDTH), WrapCoordinate(p.y, HALF_HEIGHT))
  }

  class Resource {
    var position: Vec2
    var pickedUp: bool

    constructor (position: Vec2)
      ensures this.position == position && !pickedUp
    {
      this.position := position;
      pickedUp := false;
    }

    /** Where the resource is drawn: with its carrier while picked up, else where it lies. */
    function GetVisualPosition(carrier: Agent): (p: Vec2)
      reads this, carrier
      ensures pickedUp ==> p == carrier.position
      ensures !pickedUp ==> p == position
    {
      if pickedUp then carrier.position else position
    }
  }

  class Agent {
    var position: Vec2
    var velocity: Vec2
    var carrying: Resource?
    var cooldown: real

    constructor (position: Vec2, velocity: Vec2)
      ensures this.position == position && this.velocity == velocity
      ensures carrying == null && cooldown == 0.0
    {
      this.position := position;
      this.velocity := velocity;
      carrying := null;
      cooldown := 0.0;
    }

    /** Steps along the velocity for deltaTime seconds, then wraps at the world's edges. */
    method Move(deltaTime: real)
      modifies this`position
      ensures position == WrapPosition(old(position).Add(velocity.Scale(deltaTime)))
      ensures -HALF_WIDTH <= position.x <= HALF_WIDTH && -HALF_HEIGHT <= position.y <= HALF_HEIGHT
    {
      var movement := velocity.Scale(deltaTime);
      position := position.Add(movement);
      if position.x < -HALF_WIDTH { position := position.(x := HALF_WIDTH); }
      if position.x > HALF_WIDTH { position := position.(x := -HALF_WIDTH); }
      if position.y < -HALF_HEIGHT { position := position.(y := HALF_HEIGHT); }
      if position.y > HALF_HEIGHT { position := position.(y := -HALF_HEIGHT); }
    }

    /**
     * Meets a free resource. While cooling down nothing happens; an empty
     * handed agent picks the resource up; a carrying agent puts what it
     * carries down where it stands (the met resource is left alone). Either
     * way it turns around (`turn`: its new velocity) and cools down.
     */
    method Interact(resource: Resource, turn: Vec2)
      modifies this, resource, carrying
      ensures old(cooldown) > 0.0 ==>
        unchanged(this) && unchanged(resource) && (old(carrying) != null ==> unchanged(old(carrying)))
      ensures old(cooldown) <= 0.0 ==>
        position == old(position) && velocity == turn && cooldown == PICKUP_COOLDOWN
      ensures old(cooldown) <= 0.0 && old(carrying) == null ==>
        carrying == resource && resource.pickedUp && resource.position == old(resource.position)
      ensures old(cooldown) <= 0.0 && old(carrying) != null ==>
        && carrying == null
        && old(carrying).position == old(position) && !old(carrying).pickedUp
        && (resource != old(carrying) ==> unchanged(resource))
    {
      if cooldown > 0.0 {
        return;
      }
      if carrying == null {
        carrying := resource;
        resource.pickedUp := true;
        velocity := turn;
        cooldown := PICKUP_COOLDOWN;
      } else {
        carrying.position := Vec2(position.x, position.y);
        carrying.pickedUp := false;
        carrying := null;
        velocity := turn;
        cooldown := PICKUP_COOLDOWN;
      }
    }
  }

  /** The resources not picked up, in array order. */
  function Available(resources: seq<Resource>): (a: seq<Resource>)
    reads resources
    ensures |a| <= |resources|
  {
    if resources == [] then []
    else (if resources[0].pickedUp then [] else [resources[0]]) + Available(resources[1..])
  }

  /** The free list holds free resources of the array only, and every free one of them. */
  lemma {:induction false} AvailableIsFree(resources: seq<Resource>)
    ensures forall j :: 0 <= j < |Available(resources)| ==>
      Available(resources)[j] in resources && !Available(resources)[j].pickedUp
    ensures forall k :: 0 <= k < |resources| && !resources[k].pickedUp ==> resources[k] in Available(resources)
  {
    if resources != [] {
      AvailableIsFree(resources[1..]);
      var a, at := Available(resources), Available(resources[1..]);
      assert a == (if resources[0].pickedUp then [] else [resources[0]]) + at;
      forall k | 0 < k < |resources| && !resources[k].pickedUp ensures resources[k] in a {
        assert resources[1..][k - 1] == resources[k];
      }
    }
  }

  /** The index of the first resource within maxDistance of position, or |resources| if there is none. */
  function FirstWithin(position: Vec2, resources: seq<Resource>, maxDistance: real): (k: nat)
    reads resources
    ensures k <= |resources|
    ensures k < |resources| ==> Within(position, resources[k].position, maxDistance)
    ensures forall j :: 0 <= j < k ==> !Within(position, resources[j].position, maxDistance)
  {
    if resources == [] then 0
    else if Within(position, resources[0].position, maxDistance) then 0
    else 1 + FirstWithin(position, resources[1..], maxDistance)
  }

  /** Resource k is within maxDistance and none before it is. */
  predicate IsFirstWithin(position: Vec2, resources: seq<Resource>, maxDistance: real, k: int)
    reads resources
  {
    && 0 <= k < |resources|
    && Within(position, resources[k].position, maxDistance)
    && forall j :: 0 <= j < k ==> !Within(position, resources[j].position, maxDistance)
  }

  /** `resources.find(...)`: the first resource, in array order, closer than maxDistance; null for undefined. */
  function FindNearestResource(position: Vec2, resources: seq<Resource>, maxDistance: real): (r: Resource?)
    reads resources
    ensures r == null <==> forall j :: 0 <= j < |resources| ==> !Within(position, resources[j].position, maxDistance)
    ensures r != null ==> exists k :: IsFirstWithin(position, resources, maxDistance, k) && resources[k] == r
  {
    var k := FirstWithin(position, resources, maxDistance);
    if k < |resources| then resources[k] else null
  }

  /** What a round of interactions reads and writes of a resource. */
  datatype ResourceState = ResourceState(position: Vec2, pickedUp: bool)

  /** What a round of interactions reads and writes of an agent; `carrying` indexes the resource array. */
  datatype AgentState = AgentState(position: Vec2, velocity: Vec2, carrying: Option<nat>, cooldown: real)

  /** The agents and the resources as values. */
  datatype RoundState = RoundState(agents: seq<AgentState>, resources: seq<ResourceState>)

  /** The resources' positions and flags as they are now. */
  function Snapshot(resources: seq<Resource>): (s: seq<ResourceState>)
    reads resources
    ensures |s| == |resources|
    ensures forall k :: 0 <= k < |s| ==> s[k] == ResourceState(resources[k].position, resources[k].pickedUp)
  {
    seq(|resources|, k requires 0 <= k < |resources| reads resources => ResourceState(resources[k].position, resources[k].pickedUp))
  }

  /** The position of r's first occurrence in rs; None for null and for a resource not in rs. */
  function IndexOf(rs: seq<Resource>, r: Resource?): (o: Option<nat>)
    ensures o.Some? <==> r != null && r in rs
    ensures o.Some? ==> o.value < |rs| && rs[o.value] == r && forall j :: 0 <= j < o.value ==> rs[j] != r
  {
    if r == null || rs == [] then None
    else if rs[0] == r then Some(0)
    else match IndexOf(rs[1..], r)
      case None => None
      case Some(k) => Some(k + 1)
  }

  /** The agents' state as it is now, each carried resource named by its index in `resources`. */
  function AgentStates(agents: seq<Agent>, resources: seq<Resource>): (s: seq<AgentState>)
    reads agents
    ensures |s| == |agents|
    ensures forall j :: 0 <= j < |s| ==>
      s[j] == AgentState(agents[j].position, agents[j].velocity, IndexOf(resources, agents[j].carrying), agents[j].cooldown)
  {
    seq(|agents|, j requires 0 <= j < |agents| reads agents =>
      AgentState(agents[j].position, agents[j].velocity, IndexOf(resources, agents[j].carrying), agents[j].cooldown))
  }

  /** The index of the first resource that is free and within maxDistance, or |resources| if there is none. */
  function FirstFreeWithin(position: Vec2, resources: seq<ResourceState>, maxDistance: real): (k: nat)
    ensures k <= |resources|
    ensures k < |resources| ==> !resources[k].pickedUp && Within(position, resources[k].position, maxDistance)
    ensures forall j :: 0 <= j < k ==> resources[j].pickedUp || !Within(position, resources[j].position, maxDistance)
  {
    if resources == [] then 0
    else if !resources[0].pickedUp && Within(position, resources[0].position, maxDistance) then 0
    else 1 + FirstFreeWithin(position, resources[1..], maxDistance)
  }

  /**
   * Searching the free list finds the first resource of the whole array
   * that is free and close enough: a picked-up one is never offered, and
   * array order decides between candidates.
   */
  lemma {:induction false} FindAvailableIsFirstFree(position: Vec2, resources: seq<Resource>, maxDistance: real)
    ensures var k := FirstFreeWithin(position, Snapshot(resources), maxDistance);
      FindNearestResource(position, Available(resources), maxDistance) == (if k < |resources| then resources[k] else null)
  {
    FirstWithinAvailable(position, resources, maxDistance);
  }

  lemma {:induction false} FirstWithinAvailable(position: Vec2, resources: seq<Resource>, maxDistance: real)
    ensures var a, i, k := Available(resources), FirstWithin(position, Available(resources), maxDistance),
                           FirstFreeWithin(position, Snapshot(resources), maxDistance);
      && (i < |a| <==> k < |resources|)
      && (k < |resources| ==> a[i] == resources[k])
  {
    if resources != [] {
      var head, tail := resources[0], resources[1..];
      FirstWithinAvailable(position, tail, maxDistance);
      var a, at := Available(resources), Available(tail);
      var it, kt := FirstWithin(position, at, maxDistance), FirstFreeWithin(position, Snapshot(tail), maxDistance);
      assert Snapshot(resources)[1..] == Snapshot(tail);
      if head.pickedUp {
        assert a == at;
        assert FirstFreeWithin(position, Snapshot(resources), maxDistance) == 1 + kt;
      } else {
        assert a == [head] + at;
        if Within(position, head.position, maxDistance) {
          assert FirstWithin(position, a, maxDistance) == 0;
          assert FirstFreeWithin(position, Snapshot(resources), maxDistance) == 0;
        } else {
          assert a[1..] == at;
          assert FirstWithin(position, a, maxDistance) == 1 + it;
          assert FirstFreeWithin(position, Snapshot(resources), maxDistance) == 1 + kt;
        }
      }
    }
  }

  /** A cooldown after one update: only a positive one counts down. */
  function CooledDown(cooldown: real, deltaTime: real): (c: real)
    ensures cooldown <= 0.0 ==> c == cooldown
    ensures cooldown > 0.0 && deltaTime >= 0.0 ==> c <= cooldown
  {
    if cooldown > 0.0 then cooldown - deltaTime else cooldown
  }

  /**
   * Agent i meets the free resource k (`Agent.interact`). While cooling down
   * nothing happens. Otherwise the agent turns to `turn` and cools down; an
   * empty handed agent picks k up, and a carrying agent instead puts what it
   * carries down, free, where it stands, leaving k alone.
   */
  function Interacted(s: RoundState, i: nat, k: nat, turn: Vec2): (t: RoundState)
    requires i < |s.agents| && k < |s.resources|
    ensures |t.agents| == |s.agents| && |t.resources| == |s.resources|
    ensures forall j :: 0 <= j < |s.agents| && j != i ==> t.agents[j] == s.agents[j]
    ensures t.agents[i].position == s.agents[i].position
  {
    var a := s.agents[i];
    if a.cooldown > 0.0 then s
    else match a.carrying
      case None =>
        RoundState(s.agents[i := AgentState(a.position, turn, Some(k), PICKUP_COOLDOWN)],
                   s.resources[k := s.resources[k].(pickedUp := true)])
      case Some(c) =>
        RoundState(s.agents[i := AgentState(a.position, turn, None, PICKUP_COOLDOWN)],
                   if c < |s.resources| then s.resources[c := ResourceState(a.position, false)] else s.resources)
  }

  /**
   * Agent i's turn in the interaction loop: the free resources are filtered
   * afresh, so what earlier agents picked up or put down counts, and the
   * agent meets the first of them in reach, if any.
   */
  function TakeTurn(s: RoundState, i: nat, turn: Vec2): (t: RoundState)
    requires i < |s.agents|
    ensures |t.agents| == |s.agents| && |t.resources| == |s.resources|
    ensures forall j :: 0 <= j < |s.agents| && j != i ==> t.agents[j] == s.agents[j]
  {
    var k := FirstFreeWithin(s.agents[i].position, s.resources, INTERACT_DISTANCE);
    if k < |s.resources| then Interacted(s, i, k, turn) else s
  }

  /** The turns of agents i, i + 1, ... in array order; turns[j] is agent j's new velocity should it interact. */
  function RoundFrom(s: RoundState, turns: seq<Vec2>, i: nat): (t: RoundState)
    requires |turns| == |s.agents| && i <= |s.agents|
    ensures |t.agents| == |s.agents| && |t.resources| == |s.resources|
    decreases |s.agents| - i
  {
    if i == |s.agents| then s else RoundFrom(TakeTurn(s, i, turns[i]), turns, i + 1)
  }

  /** The whole interaction loop of one update. */
  function Round(s: RoundState, turns: seq<Vec2>): RoundState
    requires |turns| == |s.agents|
  {
    RoundFrom(s, turns, 0)
  }

  /** Every agent after the cooldown loop. */
  function CooledAll(s: RoundState, deltaTime: real): (t: RoundState)
  {
    RoundState(seq(|s.agents|, j requires 0 <= j < |s.agents| =>
      s.agents[j].(cooldown := CooledDown(s.agents[j].cooldown, deltaTime))), s.resources)
  }

  /** Every agent after the movement loop. */
  function MovedAll(s: RoundState, deltaTime: real): (t: RoundState)
  {
    RoundState(seq(|s.agents|, j requires 0 <= j < |s.agents| =>
      s.agents[j].(position := WrapPosition(s.agents[j].position.Add(s.agents[j].velocity.Scale(deltaTime))))), s.resources)
  }

  /**
   * The carrying relation as values: a carried resource exists and is
   * flagged picked up, no two agents carry the same one, and every resource
   * flagged picked up has a carrier.
   */
  predicate Linked(s: RoundState) {
    && (forall j :: 0 <= j < |s.agents| && s.agents[j].carrying.Some? ==>
          s.agents[j].carrying.value < |s.resources| && s.resources[s.agents[j].carrying.value].pickedUp)
    && (forall j, l :: 0 <= j < l < |s.agents| && s.agents[j].carrying.Some? ==> s.agents[j].carrying != s.agents[l].carrying)
    && (forall k :: 0 <= k < |s.resources| && s.resources[k].pickedUp ==>
          exists j :: 0 <= j < |s.agents| && s.agents[j].carrying == Some(k))
  }

  /** Meeting a free resource keeps every resource with at most one carrier and every picked-up one with one. */
  lemma InteractedKeepsLinked(s: RoundState, i: nat, k: nat, turn: Vec2)
    requires Linked(s) && i < |s.agents| && k < |s.resources| && !s.resources[k].pickedUp
    ensures Linked(Interacted(s, i, k, turn))
  {
    var t := Interacted(s, i, k, turn);
    var a := s.agents[i];
    if a.cooldown <= 0.0 {
      forall m | 0 <= m < |t.resources| && t.resources[m].pickedUp
        ensures exists j :: 0 <= j < |t.agents| && t.agents[j].carrying == Some(m)
      {
        if a.carrying == None && m == k {
          assert t.agents[i].carrying == Some(m);
        } else {
          var j :| 0 <= j < |s.agents| && s.agents[j].carrying == Some(m);
          assert t.agents[j].carrying == Some(m);
        }
      }
    }
  }

  /** A turn keeps the carrying relation. */
  lemma TakeTurnKeepsLinked(s: RoundState, i: nat, turn: Vec2)
    requires Linked(s) && i < |s.agents|
    ensures Linked(TakeTurn(s, i, turn))
  {
    var k := FirstFreeWithin(s.agents[i].position, s.resources, INTERACT_DISTANCE);
    if k < |s.resources| {
      InteractedKeepsLinked(s, i, k, turn);
    }
  }

  /** The whole loop keeps the carrying relation, whatever the turns. */
  lemma {:induction false} RoundKeepsLinked(s: RoundState, turns: seq<Vec2>, i: nat)
    requires Linked(s) && |turns| == |s.agents| && i <= |s.agents|
    ensures Linked(RoundFrom(s, turns, i))
    decreases |s.agents| - i
  {
    if i < |s.agents| {
      TakeTurnKeepsLinked(s, i, turns[i]);
      RoundKeepsLinked(TakeTurn(s, i, turns[i]), turns, i + 1);
    }
  }

  /** An agent still cooling down sits the whole loop out, however the others move things. */
  lemma {:induction false} CoolingAgentSitsOut(s: RoundState, turns: seq<Vec2>, i: nat, j: nat)
    requires |turns| == |s.agents| && i <= |s.agents| && j < |s.agents| && s.agents[j].cooldown > 0.0
    ensures RoundFrom(s, turns, i).agents[j] == s.agents[j]
    decreases |s.agents| - i
  {
    if i < |s.agents| {
      var t := TakeTurn(s, i, turns[i]);
      assert t.agents[j] == s.agents[j];
      CoolingAgentSitsOut(t, turns, i + 1, j);
    }
  }

  class Simulation {
    var agents: seq<Agent>
    var resources: seq<Resource>
    var time: real
    var paused: bool

    /**
     * Agents and resources are distinct objects; a carried resource is one
     * of the simulation's, is marked picked up, and has only one carrier;
     * and every picked-up resource has a carrier.
     */
    ghost predicate Valid()
      reads this`agents, this`resources, agents, resources
    {
      && (forall i, j :: 0 <= i < j < |agents| ==> agents[i] != agents[j])
      && (forall i, j :: 0 <= i < j < |resources| ==> resources[i] != resources[j])
      && CarriedArePicked()
      && CarryingIsExclusive()
      && PickedAreCarried()
    }

    /** What an agent carries is one of the resources, flagged as picked up. */
    ghost predicate CarriedArePicked()
      reads this`agents, this`resources, agents, resources
    {
      forall i :: 0 <= i < |agents| && agents[i].carrying != null ==>
        agents[i].carrying in resources && agents[i].carrying.pickedUp
    }

    /** No two agents carry the same resource. */
    ghost predicate CarryingIsExclusive()
      reads this`agents, agents
    {
      forall i, j :: 0 <= i < j < |agents| && agents[i].carrying != null ==>
        agents[i].carrying != agents[j].carrying
    }

    /** A resource flagged as picked up is carried by some agent. */
    ghost predicate PickedAreCarried()
      reads this`agents, this`resources, agents, resources
    {
      forall k :: 0 <= k < |resources| && resources[k].pickedUp ==>
        exists i :: 0 <= i < |agents| && agents[i].carrying == resources[k]
    }

    /** The agents and the resources as values. */
    ghost function State(): RoundState
      reads this`agents, this`resources, agents, resources
    {
      RoundState(AgentStates(agents, resources), Snapshot(resources))
    }

    /** A valid simulation's carrying relation, read as values, is Linked. */
    lemma ValidIsLinked()
      requires Valid()
      ensures Linked(State())
    {
      var s := State();
      forall k | 0 <= k < |s.resources| && s.resources[k].pickedUp
        ensures exists j :: 0 <= j < |s.agents| && s.agents[j].carrying == Some(k)
      {
        var j :| 0 <= j < |agents| && agents[j].carrying == resources[k];
        assert s.agents[j].carrying == Some(k);
      }
    }

    constructor ()
      ensures agents == [] && resources == [] && time == 0.0 && !paused
      ensures Valid()
    {
      agents := [];
      resources := [];
      time := 0.0;
      paused := false;
    }

    method Pause()
      modifies this`paused
      ensures paused
    {
      paused := true;
    }

    method Resume()
      modifies this`paused
      ensures !paused
    {
      paused := false;
    }

    /** Flips the pause flag and returns its new value. */
    method TogglePause() returns (nowPaused: bool)
      modifies this`paused
      ensures paused == !old(paused) && nowPaused == paused
    {
      paused := !paused;
      nowPaused := paused;
    }

    /**
     * Starts over: AGENT_COUNT agents evenly spaced along y = AGENT_SPAWN_Y
     * from the left edge, each heading along its own unit vector at
     * AGENT_SPEED, and RESOURCE_COUNT resources at the drawn spots.
     */
    method Initialize(headings: seq<Vec2>, spots: seq<Vec2>)
      requires |headings| == AGENT_COUNT && |spots| == RESOURCE_COUNT
      modifies this`agents, this`resources, this`time
      ensures |agents| == AGENT_COUNT && |resources| == RESOURCE_COUNT && time == 0.0
      ensures forall i :: 0 <= i < |agents| ==>
        && fresh(agents[i])
        && agents[i].position == Vec2(-HALF_WIDTH + (i as real) * (WORLD_WIDTH / AGENT_COUNT as real), AGENT_SPAWN_Y)
        && agents[i].velocity == headings[i].Scale(AGENT_SPEED)
        && agents[i].carrying == null && agents[i].cooldown == 0.0
      ensures forall k :: 0 <= k < |resources| ==>
        fresh(resources[k]) && resources[k].position == spots[k] && !resources[k].pickedUp
      ensures Valid()
    {
      agents := [];
      resources := [];
      time := 0.0;
      var stepSize := WORLD_WIDTH / AGENT_COUNT as real;
      for i := 0 to AGENT_COUNT
        invariant |agents| == i && resources == [] && time == 0.0
        invariant forall j :: 0 <= j < i ==>
          && fresh(agents[j])
          && agents[j].position == Vec2(-HALF_WIDTH + (j as real) * stepSize, AGENT_SPAWN_Y)
          && agents[j].velocity == headings[j].Scale(AGENT_SPEED)
          && agents[j].carrying == null && agents[j].cooldown == 0.0
        invariant forall j, l :: 0 <= j < l < i ==> agents[j] != agents[l]
      {
        var x := -WORLD_WIDTH / 2.0 + (i as real) * stepSize;
        var agent := new Agent(Vec2(x, AGENT_SPAWN_Y), headings[i].Scale(AGENT_SPEED));
        agents := agents + [agent];
      }
      ghost var spawned := agents;
      for k := 0 to RESOURCE_COUNT
        invariant |resources| == k && agents == spawned && time == 0.0
        invariant forall j :: 0 <= j < |agents| ==>
          && fresh(agents[j])
          && agents[j].position == Vec2(-HALF_WIDTH + (j as real) * stepSize, AGENT_SPAWN_Y)
          && agents[j].velocity == headings[j].Scale(AGENT_SPEED)
          && agents[j].cooldown == 0.0
        invariant forall j, l :: 0 <= j < l < |agents| ==> agents[j] != agents[l]
        invariant forall j :: 0 <= j < k ==>
          fresh(resources[j]) && resources[j].position == spots[j] && !resources[j].pickedUp
        invariant forall j, l :: 0 <= j < l < k ==> resources[j] != resources[l]
        invariant forall j :: 0 <= j < |agents| ==> agents[j].carrying == null
      {
        var resource := new Resource(spots[k]);
        resources := resources + [resource];
      }
    }

    /** Counts every positive cooldown down by deltaTime. */
    method TickCooldowns(deltaTime: real)
      requires Valid()
      modifies agents
      ensures Valid()
      ensures State() == CooledAll(old(State()), deltaTime)
    {
      for i := 0 to |agents|
        invariant forall j :: 0 <= j < |agents| ==>
          && agents[j].cooldown == (if j < i then CooledDown(old(agents[j].cooldown), deltaTime) else old(agents[j].cooldown))
          && agents[j].position == old(agents[j].position) && agents[j].velocity == old(agents[j].velocity)
          && agents[j].carrying == old(agents[j].carrying)
      {
        if agents[i].cooldown > 0.0 {
          agents[i].cooldown := agents[i].cooldown - deltaTime;
        }
      }
      assert AgentStates(agents, resources) == CooledAll(old(State()), deltaTime).agents;
    }

    /** Moves every agent. */
    method MoveAll(deltaTime: real)
      requires Valid()
      modifies agents
      ensures Valid()
      ensures State() == MovedAll(old(State()), deltaTime)
    {
      for i := 0 to |agents|
        invariant forall j :: 0 <= j < |agents| ==>
          && agents[j].position == (if j < i then WrapPosition(old(agents[j].position).Add(old(agents[j].velocity).Scale(deltaTime)))
                                    else old(agents[j].position))
          && agents[j].velocity == old(agents[j].velocity) && agents[j].cooldown == old(agents[j].cooldown)
          && agents[j].carrying == old(agents[j].carrying)
      {
        agents[i].Move(deltaTime);
      }
      assert AgentStates(agents, resources) == MovedAll(old(State()), deltaTime).agents;
    }

    /**
     * Agent i filters the free resources afresh, looks for the first of them
     * within INTERACT_DISTANCE and, if there is one, interacts with it.
     */
    method InteractOne(i: int, turn: Vec2)
      requires Valid() && 0 <= i < |agents|
      modifies agents[i], resources
      ensures Valid()
      ensures State() == TakeTurn(old(State()), i, turn)
    {
      var agent := agents[i];
      var available := Available(resources);
      var nearby := FindNearestResource(agent.position, available, INTERACT_DISTANCE);
      FindAvailableIsFirstFree(agent.position, resources, INTERACT_DISTANCE);
      ghost var k := FirstFreeWithin(agent.position, Snapshot(resources), INTERACT_DISTANCE);
      if nearby != null {
        Meet(i, nearby, turn, k);
      }
    }

    /** InteractWith read as values: the state afterwards is Interacted's. */
    method Meet(i: int, resource: Resource, turn: Vec2, ghost k: nat)
      requires Valid() && 0 <= i < |agents| && k < |resources|
      requires resource == resources[k] && !resource.pickedUp
      modifies agents[i], resources
      ensures Valid()
      ensures State() == Interacted(old(State()), i, k, turn)
    {
      var agent := agents[i];
      ghost var s := State();
      ghost var carried := agent.carrying;
      ghost var c := IndexOf(resources, carried);
      InteractWith(i, resource, turn);
      ghost var t := Interacted(s, i, k, turn);
      if old(agent.cooldown) > 0.0 {
        assert State() == s;
      } else if carried == null {
        assert IndexOf(resources, agent.carrying) == Some(k);
        assert AgentStates(agents, resources) == t.agents;
        assert Snapshot(resources) == t.resources;
      } else {
        assert AgentStates(agents, resources) == t.agents;
        forall m | 0 <= m < |resources| ensures Snapshot(resources)[m] == t.resources[m] {
          if m != c.value {
            assert resources[m] != carried;
          }
        }
      }
    }

    /**
     * Agent i meets the free resource `resource` (`Agent.interact`): the
     * cases of Agent.Interact, read at the simulation's level, with the
     * simulation kept valid and every other agent and resource untouched.
     */
    method InteractWith(i: int, resource: Resource, turn: Vec2)
      requires Valid() && 0 <= i < |agents|
      requires resource in resources && !resource.pickedUp
      modifies agents[i], resources
      ensures Valid()
      ensures forall j :: 0 <= j < |agents| && j != i ==> unchanged(agents[j])
      ensures forall m :: 0 <= m < |resources| && resources[m] != resource && resources[m] != old(agents[i].carrying) ==>
        unchanged(resources[m])
      ensures agents[i].position == old(agents[i].position)
      ensures old(agents[i].cooldown) > 0.0 ==> unchanged(agents[i]) && unchanged(resources)
      ensures old(agents[i].cooldown) <= 0.0 ==> agents[i].velocity == turn && agents[i].cooldown == PICKUP_COOLDOWN
      ensures old(agents[i].cooldown) <= 0.0 && old(agents[i].carrying) == null ==>
        agents[i].carrying == resource && resource.pickedUp && resource.position == old(resource.position)
      ensures old(agents[i].cooldown) <= 0.0 && old(agents[i].carrying) != null ==>
        && agents[i].carrying == null && unchanged(resource)
        && old(agents[i].carrying).position == agents[i].position && !old(agents[i].carrying).pickedUp
    {
      var agent := agents[i];
      agent.Interact(resource, turn);
      assert CarriedArePicked();
      assert CarryingIsExclusive();
      forall k | 0 <= k < |resources| && resources[k].pickedUp
        ensures exists j :: 0 <= j < |agents| && agents[j].carrying == resources[k]
      {
        var r := resources[k];
        if r == resource && agent.carrying == resource {
          assert agents[i].carrying == r;
        } else {
          assert old(r.pickedUp);
          var j :| 0 <= j < |agents| && old(agents[j].carrying) == r;
          assert agents[j].carrying == r;
        }
      }
      assert PickedAreCarried();
    }

    /**
     * Every agent, in array order, gets its chance to interact; turns[i] is
     * the velocity agent i turns to if it does.
     */
    method InteractAll(turns: seq<Vec2>)
      requires Valid() && |turns| == |agents|
      modifies agents, resources
      ensures Valid()
      ensures State() == Round(old(State()), turns)
    {
      for i := 0 to |agents|
        invariant Valid()
        invariant RoundFrom(State(), turns, i) == Round(old(State()), turns)
      {
        ghost var s := State();
        InteractOne(i, turns[i]);
        assert RoundFrom(s, turns, i) == RoundFrom(State(), turns, i + 1);
      }
    }

    /**
     * One frame: nothing while paused; otherwise the clock advances, the
     * cooldowns count down, every agent moves, then the agents interact.
     */
    method Update(deltaTime: real, turns: seq<Vec2>)
      requires Valid() && |turns| == |agents|
      modifies this`time, agents, resources
      ensures Valid()
      ensures old(paused) ==> time == old(time) && unchanged(agents) && unchanged(resources)
      ensures !old(paused) ==> time == old(time) + deltaTime
      ensures !old(paused) ==> State() == Round(MovedAll(CooledAll(old(State()), deltaTime), deltaTime), turns)
    {
      if paused {
        return;
      }
      time := time + deltaTime;
      TickCooldowns(deltaTime);
      MoveAll(deltaTime);
      InteractAll(turns);
    }
  }
}
