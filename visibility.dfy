/** The visibility system: every viewer's field of view is recomputed, and
    what the player sees becomes permanently revealed. */
module Visibility {
  import opened Maps
  import opened Components

  /** The geometry library's `field_of_view(origin, range, map)`: the map's
      opacity does not change during the system, so it is a function of the
      origin and the range, whose result is taken as it comes. */
  type FieldOfView = (Point, int) -> seq<Point>

  /** `retain` with the in-map test: the points of `pts` that lie on the map,
      in their original order. */
  function InBoundsOnly(m: Map, pts: seq<Point>): (r: seq<Point>)
    ensures forall p :: p in r <==> p in pts && m.InBounds(p.x, p.y)
    ensures |r| <= |pts|
  {
    if pts == [] then []
    else (if m.InBounds(pts[0].x, pts[0].y) then [pts[0]] else []) + InBoundsOnly(m, pts[1..])
  }

  /** Filtering keeps relative order: it distributes over concatenation. */
  lemma {:induction false} InBoundsOnlyAppend(m: Map, s: seq<Point>, t: seq<Point>)
    ensures InBoundsOnly(m, s + t) == InBoundsOnly(m, s) + InBoundsOnly(m, t)
  {
    if s == [] {
      assert s + t == t;
    } else {
      assert (s + t)[1..] == s[1..] + t;
      InBoundsOnlyAppend(m, s[1..], t);
    }
  }

  /** A field of view already inside the map is kept whole. */
  lemma {:induction false} InBoundsOnlyKeepsInBounds(m: Map, s: seq<Point>)
    requires forall p | p in s :: m.InBounds(p.x, p.y)
    ensures InBoundsOnly(m, s) == s
  {
    if s != [] {
      InBoundsOnlyKeepsInBounds(m, s[1..]);
    }
  }

  /** Filtering twice changes nothing. */
  lemma InBoundsOnlyIdempotent(m: Map, s: seq<Point>)
    ensures InBoundsOnly(m, InBoundsOnly(m, s)) == InBoundsOnly(m, s)
  {
    InBoundsOnlyKeepsInBounds(m, InBoundsOnly(m, s));
  }

  /** The system visits the entities that have a Viewshed and a Position. */
  predicate IsViewer(e: Entity) {
    e.viewshed.Some? && e.position.Some?
  }

  /** One viewer after the system: its visible tiles are replaced by the field
      of view from its position with its range, clipped to the map; nothing
      else about the entity changes. */
  function View(m: Map, e: Entity, fov: FieldOfView): (e': Entity)
    ensures !IsViewer(e) ==> e' == e
    ensures IsViewer(e) ==> IsViewer(e') && e' == e.(viewshed := e'.viewshed)
    ensures IsViewer(e) ==> e'.viewshed.value.range == e.viewshed.value.range
    ensures IsViewer(e) ==> e'.viewshed.value.dirty == e.viewshed.value.dirty
    ensures IsViewer(e) ==> forall p | p in e'.viewshed.value.visibleTiles :: m.InBounds(p.x, p.y)
  {
    if IsViewer(e) then
      var vs := e.viewshed.value;
      var origin := Point(e.position.value.x, e.position.value.y);
      e.(viewshed := Some(vs.(visibleTiles := InBoundsOnly(m, fov(origin, vs.range)))))
    else e
  }

  /** Every entity after the system, in store order: no entity moves, the
      components other than the viewshed are kept, and every viewer's
      visible tiles lie on the map. */
  function ViewAll(m: Map, es: seq<Entity>, fov: FieldOfView): (r: seq<Entity>)
    ensures |r| == |es|
    ensures forall k | 0 <= k < |es| :: r[k] == es[k].(viewshed := r[k].viewshed)
    ensures forall k | 0 <= k < |es| :: IsViewer(r[k]) <==> IsViewer(es[k])
    ensures forall k, p | 0 <= k < |es| && IsViewer(r[k]) && p in r[k].viewshed.value.visibleTiles ::
      m.InBounds(p.x, p.y)
  {
    seq(|es|, k requires 0 <= k < |es| => View(m, es[k], fov))
  }

  /** What a viewer saw before has no influence on what it sees now. */
  lemma ViewDiscardsPrevious(m: Map, e: Entity, fov: FieldOfView, previous: seq<Point>)
    requires IsViewer(e)
    ensures View(m, e.(viewshed := Some(e.viewshed.value.(visibleTiles := previous))), fov) == View(m, e, fov)
  {
  }

  /** Point `p` has index `i` on the map. */
  predicate Marks(m: Map, p: Point, i: int) {
    0 <= p.x && 0 <= p.y && m.XyIdx(p.x, p.y) == i
  }

  /** `e` is a player viewer whose visible tiles include tile `i`. */
  ghost predicate Reveals(m: Map, e: Entity, i: int) {
    e.player && IsViewer(e) && exists p :: p in e.viewshed.value.visibleTiles && Marks(m, p, i)
  }

  /** Some entity of `es` reveals tile `i`. */
  ghost predicate RevealedBy(m: Map, es: seq<Entity>, i: int) {
    exists e :: e in es && Reveals(m, e, i)
  }

  lemma RevealedByAppend(m: Map, es: seq<Entity>, e: Entity, i: int)
    ensures RevealedBy(m, es + [e], i) <==> RevealedBy(m, es, i) || Reveals(m, e, i)
  {
    if Reveals(m, e, i) {
      assert e in es + [e];
    }
    if RevealedBy(m, es, i) {
      var e' :| e' in es && Reveals(m, e', i);
      assert e' in es + [e];
    }
  }

  /** The player's reveal loop: `revealed` is set at every point of `tiles`. */
  method Reveal(m: Map, tiles: seq<Point>)
    requires m.Valid()
    requires forall p | p in tiles :: m.InBounds(p.x, p.y)
    modifies m.revealed
    ensures forall i | 0 <= i < m.revealed.Length ::
      m.revealed[i] == (old(m.revealed[i]) || exists p :: p in tiles && Marks(m, p, i))
  {
    for j := 0 to |tiles|
      invariant forall i | 0 <= i < m.revealed.Length ::
        m.revealed[i] == (old(m.revealed[i]) || exists p :: p in tiles[..j] && Marks(m, p, i))
    {
      var p := tiles[j];
      assert tiles[..j + 1] == tiles[..j] + [p];
      assert p in tiles;
      forall i ensures (exists q :: q in tiles[..j + 1] && Marks(m, q, i))
        <==> (exists q :: q in tiles[..j] && Marks(m, q, i)) || Marks(m, p, i)
      {
        if exists q :: q in tiles[..j] && Marks(m, q, i) {
          var q :| q in tiles[..j] && Marks(m, q, i);
          assert q in tiles[..j + 1];
        }
      }
      ghost var pre := m.revealed[..];
      m.revealed[m.XyIdx(p.x, p.y)] := true;
      assert forall i | 0 <= i < m.revealed.Length :: m.revealed[i] == (pre[i] || Marks(m, p, i));
    }
    assert tiles[..|tiles|] == tiles;
  }

  /** `VisibilitySystem::run`. For each viewer in turn: replace its visible
      tiles by the field of view, keep the in-map points, and, for the player,
      set `revealed` at each of them. Positions and `occupied` are untouched. */
  method Run(ecs: World, fov: FieldOfView)
    requires ecs.level.Valid()
    modifies ecs.entities, ecs.level.revealed
    ensures forall k | 0 <= k < ecs.entities.Length ::
      ecs.entities[k] == View(ecs.level, old(ecs.entities[k]), fov)
    ensures forall i | 0 <= i < ecs.level.revealed.Length ::
      ecs.level.revealed[i] == (old(ecs.level.revealed[i]) || RevealedBy(ecs.level, ecs.entities[..], i))
    ensures forall i | 0 <= i < ecs.level.revealed.Length :: old(ecs.level.revealed[i]) ==> ecs.level.revealed[i]
    ensures forall k, p | 0 <= k < ecs.entities.Length && ecs.entities[k].player && IsViewer(ecs.entities[k])
      && p in ecs.entities[k].viewshed.value.visibleTiles ::
        ecs.level.InBounds(p.x, p.y) && ecs.level.revealed[ecs.level.XyIdx(p.x, p.y)]
    ensures (forall k | 0 <= k < ecs.entities.Length :: !ecs.entities[k].player) ==>
      ecs.level.revealed[..] == old(ecs.level.revealed[..])
  {
    var m, es := ecs.level, ecs.entities;
    for k := 0 to es.Length
      invariant forall j | 0 <= j < k :: es[j] == View(m, old(es[j]), fov)
      invariant forall j | k <= j < es.Length :: es[j] == old(es[j])
      invariant forall i | 0 <= i < m.revealed.Length ::
        m.revealed[i] == (old(m.revealed[i]) || RevealedBy(m, es[..k], i))
    {
      var e := es[k];
      ghost var done := es[..k];
      if e.viewshed.Some? && e.position.Some? {
        var vs := e.viewshed.value;
        var tiles := fov(Point(e.position.value.x, e.position.value.y), vs.range);
        tiles := InBoundsOnly(m, tiles);
        es[k] := e.(viewshed := Some(vs.(visibleTiles := tiles)));
        if e.player {
          Reveal(m, tiles);
        }
      }
      assert es[..k] == done;
      assert es[..k + 1] == done + [es[k]];
      forall i ensures RevealedBy(m, es[..k + 1], i) <==> RevealedBy(m, done, i) || Reveals(m, es[k], i) {
        RevealedByAppend(m, done, es[k], i);
      }
    }
    assert es[..es.Length] == es[..];
    forall k, p | 0 <= k < es.Length && es[k].player && IsViewer(es[k]) && p in es[k].viewshed.value.visibleTiles
      ensures m.InBounds(p.x, p.y) && m.revealed[m.XyIdx(p.x, p.y)]
    {
      assert es[k] in es[..];
      assert Reveals(m, es[k], m.XyIdx(p.x, p.y));
    }
  }
}
