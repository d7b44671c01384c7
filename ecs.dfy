/**
 * The entity-component store the systems run against: one field per
 * component type, keyed by entity, and the two hierarchy commands the
 * hit reactions use (attach a child, detach a child keeping its world position).
 */
module Ecs {
  import opened Bevy

  type ChildLists = map<Entity, seq<Entity>>
  type ParentLinks = map<Entity, Entity>

  /** The list with every occurrence of e removed, order kept. */
  function Without(s: seq<Entity>, e: Entity): (r: seq<Entity>)
    ensures forall x :: x in r <==> x in s && x != e
    ensures |r| <= |s|
  {
    if s == [] then []
    else (if s[0] == e then [] else [s[0]]) + Without(s[1..], e)
  }

  /**
   * The hierarchy invariant: the Children lists and the ChildOf links mirror
   * each other, and an entity with no children has no Children list at all.
   */
  predicate Consistent(children: ChildLists, parents: ParentLinks) {
    && (forall c :: c in parents ==> parents[c] in children && c in children[parents[c]])
    && (forall p, c :: p in children && c in children[p] ==> c in parents && parents[c] == p)
    && (forall p :: p in children ==> children[p] != [])
  }

  /** The Children lists once c leaves its parent's list; a list left empty is removed. */
  function Detached(children: ChildLists, parents: ParentLinks, c: Entity): (r: ChildLists)
    ensures r.Keys <= children.Keys
    ensures forall p :: p in r && !(c in parents && p == parents[c]) ==> r[p] == children[p]
  {
    if c in parents && parents[c] in children then
      var p := parents[c];
      var rest := Without(children[p], c);
      if rest == [] then children - {p} else children[p := rest]
    else children
  }

  /** The Children lists once c is appended to p's list, created on first use. */
  function Attached(children: ChildLists, p: Entity, c: Entity): (r: ChildLists)
    ensures r.Keys == children.Keys + {p}
    ensures r[p] != [] && r[p][|r[p]| - 1] == c
    ensures forall q :: q in children && q != p ==> r[q] == children[q]
  {
    children[p := (if p in children then children[p] else []) + [c]]
  }

  /** Detaching a child keeps the hierarchy consistent and leaves c in no list. */
  lemma DetachKeepsConsistent(children: ChildLists, parents: ParentLinks, c: Entity)
    requires Consistent(children, parents)
    ensures Consistent(Detached(children, parents, c), parents - {c})
    ensures forall p :: p in Detached(children, parents, c) ==> c !in Detached(children, parents, c)[p]
    ensures Detached(children, parents, c).Keys <= children.Keys
  {
    var d := Detached(children, parents, c);
    var ps := parents - {c};
    if c in parents {
      var p := parents[c];
      var rest := Without(children[p], c);
      forall x | x in ps ensures ps[x] in d && x in d[ps[x]] {
        if ps[x] == p {
          assert x in rest;
        }
      }
    }
  }

  /** Re-parenting (detach, then append to the new parent) keeps the hierarchy consistent. */
  lemma AddChildKeepsConsistent(children: ChildLists, parents: ParentLinks, p: Entity, c: Entity)
    requires Consistent(children, parents)
    ensures Consistent(Attached(Detached(children, parents, c), p, c), parents[c := p])
  {
    DetachKeepsConsistent(children, parents, c);
  }

  /** The component storage of the running simulation. */
  class World {
    var ants: set<Entity>            // Ant marker
    var foods: set<Entity>           // Food marker
    var boundaryWraps: set<Entity>   // BoundaryWrap marker
    var collidable: set<Entity>      // Collidable marker
    var transforms: map<Entity, Vec3>
    var velocities: map<Entity, Vec2>
    var boundings: map<Entity, real> // Bounding, stored as its radius
    var children: ChildLists         // Children
    var parents: ParentLinks         // ChildOf
    var cooldowns: map<Entity, Timer>
    var nextEntity: Entity

    /** An empty world. */
    constructor ()
      ensures ants == foods == boundaryWraps == collidable == {}
      ensures transforms == map[] && velocities == map[] && boundings == map[]
      ensures children == map[] && parents == map[] && cooldowns == map[]
      ensures nextEntity == 0
    {
      ants, foods, boundaryWraps, collidable := {}, {}, {}, {};
      transforms, velocities, boundings := map[], map[], map[];
      children, parents, cooldowns := map[], map[], map[];
      nextEntity := 0;
    }

    /** Every entity that holds a component has been handed out by Spawn. */
    ghost predicate Allocated()
      reads this
    {
      && (forall e :: e in ants ==> e < nextEntity)
      && (forall e :: e in foods ==> e < nextEntity)
      && (forall e :: e in boundaryWraps ==> e < nextEntity)
      && (forall e :: e in collidable ==> e < nextEntity)
      && (forall e :: e in transforms ==> e < nextEntity)
      && (forall e :: e in velocities ==> e < nextEntity)
      && (forall e :: e in boundings ==> e < nextEntity)
      && (forall e :: e in cooldowns ==> e < nextEntity)
      && (forall e :: e in children ==> e < nextEntity)
      && (forall e :: e in parents ==> e < nextEntity)
    }

    /** Hands out a new entity id, not yet holding any component. */
    method Spawn() returns (e: Entity)
      requires Allocated()
      modifies this`nextEntity
      ensures e == old(nextEntity) && nextEntity == e + 1
      ensures Allocated()
    {
      e := nextEntity;
      nextEntity := nextEntity + 1;
    }

    /** `add_child`: child leaves its current parent, if any, and is appended to parent's list. */
    method AddChild(parent: Entity, child: Entity)
      modifies this`children, this`parents
      ensures children == Attached(Detached(old(children), old(parents), child), parent, child)
      ensures parents == old(parents)[child := parent]
    {
      children := Detached(children, parents, child);
      children := Attached(children, parent, child);
      parents := parents[child := parent];
    }

    /**
     * `remove_parent_in_place`: child leaves its parent and keeps its world
     * position, the parent's translation plus its own local one.
     */
    method RemoveParentInPlace(child: Entity)
      modifies this`children, this`parents, this`transforms
      ensures children == Detached(old(children), old(parents), child)
      ensures parents == old(parents) - {child}
      ensures child in old(parents) && old(parents)[child] in old(transforms) && child in old(transforms) ==>
        transforms == old(transforms)[child := old(transforms)[old(parents)[child]].Add(old(transforms)[child])]
      ensures !(child in old(parents) && old(parents)[child] in old(transforms) && child in old(transforms)) ==>
        transforms == old(transforms)
    {
      if child in parents {
        var p := parents[child];
        if p in transforms && child in transforms {
          transforms := transforms[child := transforms[p].Add(transforms[child])];
        }
        children := Detached(children, parents, child);
        parents := parents - {child};
      }
    }
  }
}
