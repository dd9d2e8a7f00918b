/** The occupancy index: which tiles are blocked by an entity this tick. */
module MapIndexing {
  import opened Maps
  import opened Components

  /** An entity that blocks its tile: it has a Position and the OccupiesTile marker. */
  predicate IsOccupier(e: Entity) {
    e.position.Some? && e.occupiesTile
  }

  /** `e` blocks tile `i` of the map. */
  predicate StandsOn(m: Map, e: Entity, i: int) {
    && IsOccupier(e)
    && 0 <= e.position.value.x && 0 <= e.position.value.y
    && m.XyIdx(e.position.value.x, e.position.value.y) == i
  }

  /** Some occupier among `es` stands on tile `i`. */
  ghost predicate OccupiedBy(m: Map, es: seq<Entity>, i: int) {
    exists e :: e in es && StandsOn(m, e, i)
  }

  /** Every occupier's index can be written: its coordinates are not
      negative and the index falls inside the occupancy vector. */
  ghost predicate OccupiersIndexable(m: Map, es: seq<Entity>) {
    forall e | e in es && IsOccupier(e) ::
      && 0 <= e.position.value.x && 0 <= e.position.value.y
      && m.XyIdx(e.position.value.x, e.position.value.y) < m.occupied.Length
  }

  /** `MapIndexingSystem::run`: reset the occupancy vector to the map's own
      baseline (`populate_occupied`, given here as `baseline`), then mark the
      tile of every occupier. Only `occupied` is written. */
  method Run(ecs: World, baseline: seq<bool>)
    requires ecs.level.Valid()
    requires |baseline| == ecs.level.occupied.Length
    requires OccupiersIndexable(ecs.level, ecs.entities[..])
    modifies ecs.level.occupied
    ensures forall i | 0 <= i < |baseline| ::
      ecs.level.occupied[i] == (baseline[i] || OccupiedBy(ecs.level, ecs.entities[..], i))
    ensures forall e | e in ecs.entities[..] && IsOccupier(e) ::
      ecs.level.occupied[ecs.level.XyIdx(e.position.value.x, e.position.value.y)]
  {
    var m, es := ecs.level, ecs.entities;
    forall i | 0 <= i < m.occupied.Length {
      m.occupied[i] := baseline[i];
    }
    for k := 0 to es.Length
      invariant forall i | 0 <= i < |baseline| :: m.occupied[i] == (baseline[i] || OccupiedBy(m, es[..k], i))
    {
      var e := es[k];
      assert es[..k + 1] == es[..k] + [e];
      forall i ensures OccupiedBy(m, es[..k + 1], i) <==> OccupiedBy(m, es[..k], i) || StandsOn(m, e, i) {
        OccupiedByAppend(m, es[..k], e, i);
      }
      if e.position.Some? && e.occupiesTile {
        assert e in es[..];
        var idx := m.XyIdx(e.position.value.x, e.position.value.y);
        m.occupied[idx] := true;
      }
    }
    assert es[..es.Length] == es[..];
    forall e | e in es[..] && IsOccupier(e)
      ensures m.occupied[m.XyIdx(e.position.value.x, e.position.value.y)]
    {
      assert StandsOn(m, e, m.XyIdx(e.position.value.x, e.position.value.y));
    }
  }

  /** An occupier one column past the right edge is indexed like the first
      tile of the next row, so that tile is the one flagged. */
  lemma PastRightEdgeMarksNextRow(m: Map, e: Entity, y: int)
    requires 0 < m.width && IsOccupier(e) && e.position.value == Position(m.width, y) && 0 <= y
    ensures StandsOn(m, e, m.XyIdx(0, y + 1))
  {
    assert y * m.width + m.width == (y + 1) * m.width + 0;
  }

  lemma OccupiedByAppend(m: Map, es: seq<Entity>, e: Entity, i: int)
    ensures OccupiedBy(m, es + [e], i) <==> OccupiedBy(m, es, i) || StandsOn(m, e, i)
  {
    if StandsOn(m, e, i) {
      assert e in es + [e];
    }
    if OccupiedBy(m, es, i) {
      var e' :| e' in es && StandsOn(m, e', i);
      assert e' in es + [e];
    }
  }

  /** The entities of `es` that carry OccupiesTile and a Position, in order. */
  function Occupiers(es: seq<Entity>): (r: seq<Entity>)
    ensures forall e :: e in r <==> e in es && IsOccupier(e)
  {
    if es == [] then []
    else (if IsOccupier(es[0]) then [es[0]] else []) + Occupiers(es[1..])
  }

  /** Entities without OccupiesTile do not influence the index. */
  lemma OnlyOccupiersMatter(m: Map, es: seq<Entity>, i: int)
    ensures OccupiedBy(m, es, i) <==> OccupiedBy(m, Occupiers(es), i)
  {
  }

  /** The index does not depend on the order in which entities are visited. */
  lemma OrderIndependent(m: Map, es: seq<Entity>, es': seq<Entity>, i: int)
    requires multiset(es) == multiset(es')
    ensures OccupiedBy(m, es, i) <==> OccupiedBy(m, es', i)
  {
    forall e | e in es ensures e in es' {
      assert e in multiset(es);
    }
    forall e | e in es' ensures e in es {
      assert e in multiset(es');
    }
  }
}
