/**
 * Screen wrapping: an entity that has gone completely off one edge of the
 * window reappears just beyond the opposite edge. Each axis is handled on
 * its own, and the entity's radius decides when it counts as fully off screen.
 */
module Boundary {
  import opened Bevy
  import opened Ecs

  /**
   * The collision extent of an entity, a circle of the given radius. The
   * world's `boundings` component map keeps only this radius, as a real.
   */
  datatype Bounding = Bounding(radius: real)

  /** A bounding of radius r; its radius is what the world's `boundings` map stores. */
  function FromRadius(r: real): (b: Bounding)
    ensures b.radius == r
  {
    Bounding(r)
  }

  /** The primary window's size in logical pixels. */
  datatype Window = Window(width: real, height: real)

  /**
   * One coordinate after wrapping against the half-extent `half` of the
   * window on that axis.
   */
  function WrapAxis(v: real, radius: real, half: real): (r: real)
    ensures v + radius < -half ==> r == half + radius
    ensures !(v + radius < -half) && v - radius > half ==> r == -half - radius
    ensures -half - radius <= v <= half + radius ==> r == v
  {
    if v + radius < -half then half + radius
    else if v - radius > half then -half - radius
    else v
  }

  /** With a non-negative extent, the wrapped coordinate lies in the band [-half - radius, half + radius]. */
  lemma WrapAxisInBand(v: real, radius: real, half: real)
    requires half + radius >= 0.0
    ensures -half - radius <= WrapAxis(v, radius, half) <= half + radius
  {
  }

  /** A coordinate is moved exactly when the entity is entirely beyond one edge. */
  lemma WrapAxisMovesIffOffScreen(v: real, radius: real, half: real)
    requires half + radius >= 0.0
    ensures WrapAxis(v, radius, half) != v <==> v + radius < -half || v - radius > half
  {
  }

  /** Wrapping twice is wrapping once: a wrapped entity sits exactly on the edge of the band and stays there. */
  lemma WrapAxisIdempotent(v: real, radius: real, half: real)
    requires half + radius >= 0.0
    ensures WrapAxis(WrapAxis(v, radius, half), radius, half) == WrapAxis(v, radius, half)
  {
    WrapAxisInBand(v, radius, half);
  }

  /** A translation after wrapping both axes; z is untouched. */
  function Wrap(t: Vec3, radius: real, window: Window): (r: Vec3)
    ensures r.x == WrapAxis(t.x, radius, window.width / 2.0)
    ensures r.y == WrapAxis(t.y, radius, window.height / 2.0)
    ensures r.z == t.z
  {
    Vec3(WrapAxis(t.x, radius, window.width / 2.0), WrapAxis(t.y, radius, window.height / 2.0), t.z)
  }

  /** Wrapping a translation twice is wrapping it once. */
  lemma WrapIdempotent(t: Vec3, radius: real, window: Window)
    requires radius >= 0.0 && window.width >= 0.0 && window.height >= 0.0
    ensures Wrap(Wrap(t, radius, window), radius, window) == Wrap(t, radius, window)
  {
    WrapAxisIdempotent(t.x, radius, window.width / 2.0);
    WrapAxisIdempotent(t.y, radius, window.height / 2.0);
  }

  /** The entities the wrap query yields: BoundaryWrap marker, a Transform and a Bounding. */
  function Wrapping(w: World): (ws: set<Entity>)
    reads w
    ensures ws <= w.boundaryWraps * w.transforms.Keys * w.boundings.Keys
  {
    set e | e in w.boundaryWraps && e in w.transforms && e in w.boundings
  }

  /**
   * With a primary window, every entity of the query has its translation
   * wrapped with its own radius; every other transform is left alone.
   * Without exactly one primary window the system does nothing.
   */
  method BoundaryWrapSystem(w: World, window: Option<Window>)
    modifies w`transforms
    ensures window.None? ==> w.transforms == old(w.transforms)
    ensures w.transforms.Keys == old(w.transforms.Keys)
    ensures window.Some? ==> forall e :: e in w.transforms ==>
      w.transforms[e] == (if e in old(Wrapping(w)) then Wrap(old(w.transforms[e]), w.boundings[e], window.value)
                          else old(w.transforms[e]))
  {
    if window.None? {
      return;
    }
    var win := window.value;
    var todo := Wrapping(w);
    ghost var wrapping := todo;
    ghost var start := w.transforms;
    while todo != {}
      invariant todo <= wrapping
      invariant w.transforms.Keys == start.Keys
      invariant forall e :: e in w.transforms ==>
        w.transforms[e] == (if e in wrapping - todo then Wrap(start[e], w.boundings[e], win) else start[e])
      decreases todo
    {
      var e :| e in todo;
      var radius := w.boundings[e];
      var t := w.transforms[e];
      var x := t.x;
      if x + radius < -(win.width / 2.0) {
        x := win.width / 2.0 + radius;
      } else if x - radius > win.width / 2.0 {
        x := -(win.width / 2.0) - radius;
      }
      var y := t.y;
      if y + radius < -(win.height / 2.0) {
        y := win.height / 2.0 + radius;
      } else if y - radius > win.height / 2.0 {
        y := -(win.height / 2.0) - radius;
      }
      w.transforms := w.transforms[e := Vec3(x, y, t.z)];
      todo := todo - {e};
    }
  }

  /** The system keeps every wrapped entity inside the band its radius allows. */
  lemma WrappedEntitiesInBand(t: Vec3, radius: real, window: Window)
    requires radius >= 0.0 && window.width >= 0.0 && window.height >= 0.0
    ensures -window.width / 2.0 - radius <= Wrap(t, radius, window).x <= window.width / 2.0 + radius
    ensures -window.height / 2.0 - radius <= Wrap(t, radius, window).y <= window.height / 2.0 + radius
  {
    WrapAxisInBand(t.x, radius, window.width / 2.0);
    WrapAxisInBand(t.y, radius, window.height / 2.0);
  }
}
