/** The monster AI: a monster that sees the player takes one step along a
    shortest path toward it. */
module Monsters {
  import opened Maps
  import opened Components

  /** The result of the geometry library's A* search: whether a path was
      found, and the tile indices along it, starting at the origin. */
  datatype NavigationPath = NavigationPath(success: bool, steps: seq<nat>)

  /** `a_star_search(start, end, map)`: the map does not change during the
      system, so the search is a function of the two tile indices. */
  type PathSearch = (int, int) -> NavigationPath

  /** The system visits the entities that have a Viewshed, Monster and Position. */
  predicate IsActor(e: Entity) {
    e.monster.Some? && e.viewshed.Some? && e.position.Some?
  }

  /** The monster's viewshed contains the player's point. */
  predicate SeesPlayer(e: Entity, player: Point) {
    IsActor(e) && player in e.viewshed.value.visibleTiles
  }

  /** The coordinates the source would cast to usize are not negative. */
  predicate CanSearch(e: Entity, player: Point) {
    SeesPlayer(e, player) ==>
      0 <= e.position.value.x && 0 <= e.position.value.y && 0 <= player.x && 0 <= player.y
  }

  /** The path search the monster asks for: from its own tile to the player's. */
  function PathFor(m: Map, e: Entity, player: Point, astar: PathSearch): NavigationPath
    requires SeesPlayer(e, player) && CanSearch(e, player)
  {
    astar(m.XyIdx(e.position.value.x, e.position.value.y), m.XyIdx(player.x, player.y))
  }

  /** One monster after `MonsterAI::run`: if it sees the player and the search
      found a path of at least two tiles, it moves to the second tile, decoded
      with `% width` and `/ width`, and its viewshed is marked dirty. */
  function Step(m: Map, e: Entity, player: Point, astar: PathSearch): (e': Entity)
    requires 0 < m.width && CanSearch(e, player)
    ensures !SeesPlayer(e, player) ==> e' == e
    ensures e' == e.(position := e'.position, viewshed := e'.viewshed)
    ensures IsActor(e') == IsActor(e)
    ensures e' != e ==> IsActor(e) && e'.viewshed.value == e.viewshed.value.(dirty := true)
    ensures e' != e ==> 0 <= e'.position.value.x < m.width && 0 <= e'.position.value.y
  {
    if SeesPlayer(e, player) then
      var path := PathFor(m, e, player, astar);
      if path.success && |path.steps| > 1 then
        e.(position := Some(Position(path.steps[1] % m.width, path.steps[1] / m.width)),
           viewshed := Some(e.viewshed.value.(dirty := true)))
      else e
    else e
  }

  /** A failed search, or a path that is only the origin, leaves the monster
      where it is and its viewshed as it was. */
  lemma NoPathNoMove(m: Map, e: Entity, player: Point, astar: PathSearch)
    requires 0 < m.width && SeesPlayer(e, player) && CanSearch(e, player)
    requires !PathFor(m, e, player, astar).success || |PathFor(m, e, player, astar).steps| <= 1
    ensures Step(m, e, player, astar) == e
  {
  }

  /** A usable path moves the monster to the decoded second tile and marks it dirty. */
  lemma PathMoves(m: Map, e: Entity, player: Point, astar: PathSearch)
    requires 0 < m.width && SeesPlayer(e, player) && CanSearch(e, player)
    requires PathFor(m, e, player, astar).success && |PathFor(m, e, player, astar).steps| > 1
    ensures var s := PathFor(m, e, player, astar).steps[1];
      Step(m, e, player, astar).position == Some(Position(s % m.width, s / m.width))
    ensures Step(m, e, player, astar).viewshed.value.dirty
  {
  }

  /** Decoding the second step inverts `xy_idx`: a step to the index of (x, y)
      lands the monster exactly on (x, y). */
  lemma LandsOnStep(m: Map, e: Entity, player: Point, astar: PathSearch, x: int, y: int)
    requires 0 < m.width && SeesPlayer(e, player) && CanSearch(e, player)
    requires PathFor(m, e, player, astar).success && |PathFor(m, e, player, astar).steps| > 1
    requires 0 <= x < m.width && 0 <= y
    requires PathFor(m, e, player, astar).steps[1] == m.XyIdx(x, y)
    ensures Step(m, e, player, astar).position == Some(Position(x, y))
  {
    RowMajorDecode(m.width, x, y);
  }

  /** The move depends on the search only through the path it returns from the
      monster's tile to the player's tile. */
  lemma SearchEndpoints(m: Map, e: Entity, player: Point, astar: PathSearch, astar': PathSearch)
    requires 0 < m.width && SeesPlayer(e, player) && CanSearch(e, player)
    requires PathFor(m, e, player, astar) == PathFor(m, e, player, astar')
    ensures Step(m, e, player, astar) == Step(m, e, player, astar')
  {
  }

  /** Every tile index the search can return names a tile of the map. */
  ghost predicate PathsOnMap(m: Map, astar: PathSearch) {
    forall a, b, i | 0 <= i < |astar(a, b).steps| :: astar(a, b).steps[i] < m.width * m.height
  }

  /** A monster on the map stays on the map: the decoded step is a tile of it. */
  lemma StepStaysOnMap(m: Map, e: Entity, player: Point, astar: PathSearch)
    requires 0 < m.width && CanSearch(e, player) && PathsOnMap(m, astar)
    requires e.position.Some? ==> m.InBounds(e.position.value.x, e.position.value.y)
    ensures var e' := Step(m, e, player, astar);
      e'.position.Some? ==> m.InBounds(e'.position.value.x, e'.position.value.y)
  {
    var e' := Step(m, e, player, astar);
    if e' != e {
      var s := PathFor(m, e, player, astar).steps[1];
      assert s < m.width * m.height;
      if s / m.width >= m.height {
        MulMonotone(m.height, s / m.width, m.width);
        assert false;
      }
    }
  }

  /** Every entity after the system, in store order: only actors that see the
      player can change, only in position and viewshed, and when the search
      returns tiles of the map, whatever stood on the map still does. */
  function StepAll(m: Map, es: seq<Entity>, player: Point, astar: PathSearch): (r: seq<Entity>)
    requires 0 < m.width && forall k | 0 <= k < |es| :: CanSearch(es[k], player)
    ensures |r| == |es|
    ensures forall k | 0 <= k < |es| && !SeesPlayer(es[k], player) :: r[k] == es[k]
    ensures forall k | 0 <= k < |es| :: r[k] == es[k].(position := r[k].position, viewshed := r[k].viewshed)
    ensures PathsOnMap(m, astar) ==>
      forall k | 0 <= k < |es| && es[k].position.Some? && m.InBounds(es[k].position.value.x, es[k].position.value.y) ::
        r[k].position.Some? && m.InBounds(r[k].position.value.x, r[k].position.value.y)
  {
    var r := seq(|es|, k requires 0 <= k < |es| => Step(m, es[k], player, astar));
    assert PathsOnMap(m, astar) ==>
      forall k | 0 <= k < |es| && es[k].position.Some? && m.InBounds(es[k].position.value.x, es[k].position.value.y) ::
        r[k].position.Some? && m.InBounds(r[k].position.value.x, r[k].position.value.y) by {
      if PathsOnMap(m, astar) {
        forall k | 0 <= k < |es| && es[k].position.Some? && m.InBounds(es[k].position.value.x, es[k].position.value.y)
          ensures r[k].position.Some? && m.InBounds(r[k].position.value.x, r[k].position.value.y)
        {
          StepStaysOnMap(m, es[k], player, astar);
        }
      }
    }
    r
  }

  /** `MonsterAI::run`: every entity is stepped once, in place; the shared
      player point and the map are only read. */
  method Run(ecs: World, astar: PathSearch)
    requires ecs.level.Valid()
    requires forall k | 0 <= k < ecs.entities.Length :: CanSearch(ecs.entities[k], ecs.playerPos)
    modifies ecs.entities
    ensures forall k | 0 <= k < ecs.entities.Length ::
      ecs.entities[k] == Step(ecs.level, old(ecs.entities[k]), ecs.playerPos, astar)
  {
    var m, es, player := ecs.level, ecs.entities, ecs.playerPos;
    for k := 0 to es.Length
      invariant forall j | 0 <= j < k :: es[j] == Step(m, old(es[j]), player, astar)
      invariant forall j | k <= j < es.Length :: es[j] == old(es[j])
    {
      var e := es[k];
      if e.viewshed.Some? && e.monster.Some? && e.position.Some? {
        if player in e.viewshed.value.visibleTiles {
          var pos := e.position.value;
          var path := astar(m.XyIdx(pos.x, pos.y), m.XyIdx(player.x, player.y));
          if path.success && |path.steps| > 1 {
            es[k] := e.(position := Some(Position(path.steps[1] % m.width, path.steps[1] / m.width)),
                        viewshed := Some(e.viewshed.value.(dirty := true)));
          }
        }
      }
    }
  }
}
