/** The player: keyboard input mapped to a one-tile move, refused when the
    destination tile is occupied and clamped to the window otherwise. */
module Players {
  import opened Maps
  import opened Components

  /** The default field-of-vision range, in tiles. */
  const DEFAULT_FOV: int := 8

  /** The keys the input handler distinguishes; every other key is `Other`. */
  datatype Key = Left | Right | Up | Down
               | Numpad1 | Numpad2 | Numpad3 | Numpad4 | Numpad6 | Numpad7 | Numpad8 | Numpad9
               | Other

  /** The move a key requests: arrows and the numeric keypad give the eight
      compass directions (y grows downward); any other key requests nothing. */
  function KeyDelta(k: Key): (d: Option<(int, int)>)
    ensures d.Some? <==> k != Other
    ensures d.Some? ==> -1 <= d.value.0 <= 1 && -1 <= d.value.1 <= 1 && d.value != (0, 0)
  {
    match k
    case Left | Numpad4 => Some((-1, 0))
    case Right | Numpad6 => Some((1, 0))
    case Up | Numpad8 => Some((0, -1))
    case Down | Numpad2 => Some((0, 1))
    case Numpad7 => Some((-1, -1))
    case Numpad9 => Some((1, -1))
    case Numpad3 => Some((1, 1))
    case Numpad1 => Some((-1, 1))
    case Other => None
  }

  /** Every one of the eight compass directions has a key. */
  lemma EveryDirectionHasAKey(dx: int, dy: int)
    requires -1 <= dx <= 1 && -1 <= dy <= 1 && (dx, dy) != (0, 0)
    ensures exists k :: KeyDelta(k) == Some((dx, dy))
  {
    var k :=
      if dy == -1 then (if dx == -1 then Numpad7 else if dx == 0 then Up else Numpad9)
      else if dy == 0 then (if dx == -1 then Left else Right)
      else (if dx == -1 then Numpad1 else if dx == 0 then Down else Numpad3);
    assert KeyDelta(k) == Some((dx, dy));
  }

  /** Keys on opposite sides of the keypad request opposite moves. */
  lemma OppositeKeysCancel()
    ensures KeyDelta(Left).value.0 + KeyDelta(Right).value.0 == 0
    ensures KeyDelta(Up).value.1 + KeyDelta(Down).value.1 == 0
    ensures KeyDelta(Numpad7).value == (-KeyDelta(Numpad3).value.0, -KeyDelta(Numpad3).value.1)
    ensures KeyDelta(Numpad9).value == (-KeyDelta(Numpad1).value.0, -KeyDelta(Numpad1).value.1)
  {
  }

  /** The entities `try_move_player` visits: Player, Position and Viewshed. */
  predicate IsMover(e: Entity) {
    e.player && e.position.Some? && e.viewshed.Some?
  }

  /** The destination index of a mover can be computed and read: the source
      casts the destination to usize and indexes `occupied` with it. */
  predicate MoveDefined(m: Map, occ: seq<bool>, e: Entity, dx: int, dy: int) {
    IsMover(e) ==>
      && 0 <= e.position.value.x + dx && 0 <= e.position.value.y + dy
      && 0 <= m.XyIdx(e.position.value.x + dx, e.position.value.y + dy) < |occ|
  }

  function Min(a: int, b: int): int { if a <= b then a else b }
  function Max(a: int, b: int): int { if a >= b then a else b }

  /** `min(hi, max(0, v))`. */
  function Clamp(v: int, hi: int): (c: int)
    requires 0 <= hi
    ensures 0 <= c <= hi
    ensures 0 <= v <= hi ==> c == v
    ensures v < 0 ==> c == 0
    ensures v > hi ==> c == hi
  {
    Min(hi, Max(0, v))
  }

  /** The mover's destination tile is occupied, so the move is refused. */
  predicate Blocked(m: Map, occ: seq<bool>, e: Entity, dx: int, dy: int)
    requires IsMover(e) && MoveDefined(m, occ, e, dx, dy)
  {
    occ[m.XyIdx(e.position.value.x + dx, e.position.value.y + dy)]
  }

  /** An accepted move: the position shifted by the delta and clamped to the
      window, and the viewshed marked dirty. */
  function Moved(e: Entity, dx: int, dy: int): (e': Entity)
    requires IsMover(e)
    ensures IsMover(e')
    ensures e' == e.(position := e'.position, viewshed := e'.viewshed)
    ensures InWindow(e'.position.value.x, e'.position.value.y)
    ensures InWindow(e.position.value.x + dx, e.position.value.y + dy) ==>
      e'.position.value == Position(e.position.value.x + dx, e.position.value.y + dy)
    ensures e'.viewshed.value == e.viewshed.value.(dirty := true)
  {
    var pos := e.position.value;
    e.(position := Some(Position(Clamp(pos.x + dx, WINDOW_WIDTH), Clamp(pos.y + dy, WINDOW_HEIGHT))),
       viewshed := Some(e.viewshed.value.(dirty := true)))
  }

  /** `try_move_player` over the entities `es` in order, starting from the
      player point `pt`: each mover is moved and the point follows it, until a
      mover whose destination is occupied ends the whole call (the early
      `return`), leaving it and every later entity as they were. */
  function MoveAll(m: Map, occ: seq<bool>, es: seq<Entity>, pt: Point, dx: int, dy: int): (r: (seq<Entity>, Point))
    requires forall e | e in es :: MoveDefined(m, occ, e, dx, dy)
    ensures |r.0| == |es|
    decreases |es|
  {
    if es == [] then ([], pt)
    else if IsMover(es[0]) && Blocked(m, occ, es[0], dx, dy) then (es, pt)
    else
      var e' := if IsMover(es[0]) then Moved(es[0], dx, dy) else es[0];
      var pt' := if IsMover(es[0]) then Point(e'.position.value.x, e'.position.value.y) else pt;
      var rest := MoveAll(m, occ, es[1..], pt', dx, dy);
      ([e'] + rest.0, rest.1)
  }

  /** One step of `MoveAll` seen from a loop over the entities: after the
      entity `e`, what is left is `MoveAll` of the rest, from the point the
      step leaves behind; a blocked mover ends everything. */
  lemma MoveAllStep(m: Map, occ: seq<bool>, e: Entity, rest: seq<Entity>, pt: Point, dx: int, dy: int,
                    prefix: seq<Entity>, r: (seq<Entity>, Point))
    requires MoveDefined(m, occ, e, dx, dy) && forall e' | e' in rest :: MoveDefined(m, occ, e', dx, dy)
    requires r.0 == prefix + MoveAll(m, occ, [e] + rest, pt, dx, dy).0
    requires r.1 == MoveAll(m, occ, [e] + rest, pt, dx, dy).1
    ensures IsMover(e) && Blocked(m, occ, e, dx, dy) ==> r == (prefix + ([e] + rest), pt)
    ensures !IsMover(e) ==>
      r.0 == (prefix + [e]) + MoveAll(m, occ, rest, pt, dx, dy).0 && r.1 == MoveAll(m, occ, rest, pt, dx, dy).1
    ensures IsMover(e) && !Blocked(m, occ, e, dx, dy) ==>
      var e' := Moved(e, dx, dy);
      var pt' := Point(e'.position.value.x, e'.position.value.y);
      r.0 == (prefix + [e']) + MoveAll(m, occ, rest, pt', dx, dy).0 && r.1 == MoveAll(m, occ, rest, pt', dx, dy).1
  {
    assert ([e] + rest)[1..] == rest;
    if !IsMover(e) || !Blocked(m, occ, e, dx, dy) {
      var e' := if IsMover(e) then Moved(e, dx, dy) else e;
      var pt' := if IsMover(e) then Point(e'.position.value.x, e'.position.value.y) else pt;
      var tail := MoveAll(m, occ, rest, pt', dx, dy).0;
      assert prefix + ([e'] + tail) == (prefix + [e']) + tail;
    }
  }

  /** Without a mover, nothing changes. */
  lemma {:induction false} NoMoverNoChange(m: Map, occ: seq<bool>, es: seq<Entity>, pt: Point, dx: int, dy: int)
    requires forall e | e in es :: MoveDefined(m, occ, e, dx, dy) && !IsMover(e)
    ensures MoveAll(m, occ, es, pt, dx, dy) == (es, pt)
    decreases |es|
  {
    if es != [] {
      NoMoverNoChange(m, occ, es[1..], pt, dx, dy);
      assert [es[0]] + es[1..] == es;
    }
  }

  /** With exactly one player entity: an occupied destination changes
      nothing at all; otherwise only that entity changes, to its clamped move
      with a dirty viewshed, and the player point becomes its new position. */
  lemma {:induction false} OnePlayerMove(m: Map, occ: seq<bool>, es: seq<Entity>, pt: Point, dx: int, dy: int, p: nat)
    requires forall e | e in es :: MoveDefined(m, occ, e, dx, dy)
    requires p < |es| && IsMover(es[p])
    requires forall k | 0 <= k < |es| && k != p :: !IsMover(es[k])
    ensures Blocked(m, occ, es[p], dx, dy) ==> MoveAll(m, occ, es, pt, dx, dy) == (es, pt)
    ensures !Blocked(m, occ, es[p], dx, dy) ==>
      var e' := Moved(es[p], dx, dy);
      MoveAll(m, occ, es, pt, dx, dy) == (es[p := e'], Point(e'.position.value.x, e'.position.value.y))
    decreases p
  {
    if p == 0 {
      forall e | e in es[1..] ensures MoveDefined(m, occ, e, dx, dy) && !IsMover(e) {
        var k :| 0 <= k < |es[1..]| && es[1..][k] == e;
        assert es[k + 1] == e;
      }
      var e' := Moved(es[0], dx, dy);
      NoMoverNoChange(m, occ, es[1..], Point(e'.position.value.x, e'.position.value.y), dx, dy);
      assert es[0 := e'] == [e'] + es[1..];
    } else {
      assert !IsMover(es[0]);
      forall k | 0 <= k < |es[1..]| && k != p - 1 ensures !IsMover(es[1..][k]) {
        assert es[1..][k] == es[k + 1];
      }
      OnePlayerMove(m, occ, es[1..], pt, dx, dy, p - 1);
      assert es == [es[0]] + es[1..];
      if !Blocked(m, occ, es[p], dx, dy) {
        assert es[p := Moved(es[p], dx, dy)] == [es[0]] + es[1..][p - 1 := Moved(es[p], dx, dy)];
      }
    }
  }

  /** The occupancy test uses the destination before clamping: a step right
      from the last column tests the first tile of the next row, and if that
      tile is free the clamped move leaves the player where it stood. */
  lemma EdgeMoveTestsNextRow(m: Map, occ: seq<bool>, e: Entity, y: int)
    requires m.width == COLUMNS && IsMover(e) && e.position.value == Position(WINDOW_WIDTH, y) && 0 <= y <= WINDOW_HEIGHT
    requires MoveDefined(m, occ, e, 1, 0)
    ensures Blocked(m, occ, e, 1, 0) == occ[m.XyIdx(0, y + 1)]
    ensures Moved(e, 1, 0).position == e.position
  {
    assert y * COLUMNS + COLUMNS == (y + 1) * COLUMNS + 0;
  }

  /** Moves keep every entity and the player point inside the window. */
  lemma {:induction false} MoveAllInWindow(m: Map, occ: seq<bool>, es: seq<Entity>, pt: Point, dx: int, dy: int)
    requires forall e | e in es :: MoveDefined(m, occ, e, dx, dy)
    requires forall e | e in es && e.position.Some? :: InWindow(e.position.value.x, e.position.value.y)
    requires InWindow(pt.x, pt.y)
    ensures var r := MoveAll(m, occ, es, pt, dx, dy);
      && (forall e | e in r.0 && e.position.Some? :: InWindow(e.position.value.x, e.position.value.y))
      && InWindow(r.1.x, r.1.y)
    decreases |es|
  {
    if es != [] && !(IsMover(es[0]) && Blocked(m, occ, es[0], dx, dy)) {
      var e' := if IsMover(es[0]) then Moved(es[0], dx, dy) else es[0];
      var pt' := if IsMover(es[0]) then Point(e'.position.value.x, e'.position.value.y) else pt;
      assert es[0] in es;
      forall e | e in es[1..] ensures e in es { }
      MoveAllInWindow(m, occ, es[1..], pt', dx, dy);
    }
  }

  /** The body of the `try_move_player` loop for the entity at `k`: a mover
      whose destination is occupied is refused and nothing changes;
      otherwise a mover is moved, the player point follows it, and its
      viewshed is marked dirty. Any other entity is left alone. */
  method MoveOne(dx: int, dy: int, ecs: World, k: int) returns (refused: bool)
    requires ecs.level.Valid() && 0 <= k < ecs.entities.Length
    requires MoveDefined(ecs.level, ecs.level.occupied[..], ecs.entities[k], dx, dy)
    modifies ecs`playerPos, ecs.entities
    ensures refused == (IsMover(old(ecs.entities[k]))
      && Blocked(ecs.level, ecs.level.occupied[..], old(ecs.entities[k]), dx, dy))
    ensures IsMover(old(ecs.entities[k])) && !refused ==>
      && ecs.entities[..] == old(ecs.entities[..])[k := Moved(old(ecs.entities[k]), dx, dy)]
      && ecs.playerPos == Point(ecs.entities[k].position.value.x, ecs.entities[k].position.value.y)
    ensures !IsMover(old(ecs.entities[k])) || refused ==>
      ecs.entities[..] == old(ecs.entities[..]) && ecs.playerPos == old(ecs.playerPos)
  {
    var m, e := ecs.level, ecs.entities[k];
    refused := false;
    if e.player && e.position.Some? && e.viewshed.Some? {
      var pos := e.position.value;
      var destination := m.XyIdx(pos.x + dx, pos.y + dy);
      if m.occupied[destination] {
        return true;
      }
      var x := Min(WINDOW_WIDTH, Max(0, pos.x + dx));
      var y := Min(WINDOW_HEIGHT, Max(0, pos.y + dy));
      ecs.entities[k] := e.(position := Some(Position(x, y)), viewshed := Some(e.viewshed.value.(dirty := true)));
      ecs.playerPos := Point(x, y);
    }
  }

  /** The loop of `try_move_player` after the entity at `k`: `r` is what the
      whole call produces, `es`/`pt` the state before the step and
      `es'`/`pt'` the state after it. A refused move ends the call with its
      result; otherwise the loop goes on to `k + 1`. */
  lemma LoopStep(m: Map, occ: seq<bool>, es0: seq<Entity>, k: int, es: seq<Entity>, pt: Point,
                 es': seq<Entity>, pt': Point, dx: int, dy: int, r: (seq<Entity>, Point))
    requires 0 <= k < |es0| == |es|
    requires es[k..] == es0[k..]
    requires forall e | e in es0[k..] :: MoveDefined(m, occ, e, dx, dy)
    requires r.0 == es[..k] + MoveAll(m, occ, es0[k..], pt, dx, dy).0
    requires r.1 == MoveAll(m, occ, es0[k..], pt, dx, dy).1
    requires IsMover(es[k]) && !Blocked(m, occ, es[k], dx, dy) ==>
      es' == es[k := Moved(es[k], dx, dy)] && pt' == Point(es'[k].position.value.x, es'[k].position.value.y)
    requires !IsMover(es[k]) || Blocked(m, occ, es[k], dx, dy) ==> es' == es && pt' == pt
    ensures IsMover(es[k]) && Blocked(m, occ, es[k], dx, dy) ==> r == (es', pt')
    ensures !(IsMover(es[k]) && Blocked(m, occ, es[k], dx, dy)) ==>
      && |es'| == |es0|
      && es'[k + 1..] == es0[k + 1..]
      && (forall e | e in es0[k + 1..] :: MoveDefined(m, occ, e, dx, dy))
      && r.0 == es'[..k + 1] + MoveAll(m, occ, es0[k + 1..], pt', dx, dy).0
      && r.1 == MoveAll(m, occ, es0[k + 1..], pt', dx, dy).1
  {
    var e := es[k];
    assert es0[k..] == [e] + es0[k + 1..];
    assert e in es0[k..];
    MoveAllStep(m, occ, e, es0[k + 1..], pt, dx, dy, es[..k], r);
    if IsMover(e) && Blocked(m, occ, e, dx, dy) {
      assert es == es[..k] + es0[k..];
    } else {
      assert es'[..k + 1] == es[..k] + [es'[k]];
      assert es'[k + 1..] == es[k + 1..] == es0[k + 1..];
      forall e' | e' in es0[k + 1..] ensures MoveDefined(m, occ, e', dx, dy) {
        assert e' in es0[k..];
      }
    }
  }

  /** `try_move_player(dx, dy, ecs)`: for each player entity, refuse the move
      if the destination tile is occupied (returning at once); otherwise move
      and clamp its position, copy it into the player point, and mark its
      viewshed dirty. */
  method TryMovePlayer(dx: int, dy: int, ecs: World)
    requires ecs.level.Valid()
    requires forall e | e in ecs.entities[..] :: MoveDefined(ecs.level, ecs.level.occupied[..], e, dx, dy)
    modifies ecs`playerPos, ecs.entities
    ensures (ecs.entities[..], ecs.playerPos)
      == MoveAll(ecs.level, ecs.level.occupied[..], old(ecs.entities[..]), old(ecs.playerPos), dx, dy)
  {
    var m, es := ecs.level, ecs.entities;
    ghost var occ, es0 := m.occupied[..], es[..];
    ghost var r0 := MoveAll(m, occ, es0, ecs.playerPos, dx, dy);
    var k := 0;
    assert es0[0..] == es0;
    while k < es.Length
      invariant 0 <= k <= es.Length && |es0| == es.Length
      invariant es[k..] == es0[k..]
      invariant forall e | e in es0[k..] :: MoveDefined(m, occ, e, dx, dy)
      invariant r0.0 == es[..k] + MoveAll(m, occ, es0[k..], ecs.playerPos, dx, dy).0
      invariant r0.1 == MoveAll(m, occ, es0[k..], ecs.playerPos, dx, dy).1
    {
      ghost var before, pt := es[..], ecs.playerPos;
      assert es[k] in es0[k..];
      var refused := MoveOne(dx, dy, ecs, k);
      LoopStep(m, occ, es0, k, before, pt, es[..], ecs.playerPos, dx, dy, r0);
      if refused {
        return;
      }
      k := k + 1;
    }
    assert r0 == (es[..], ecs.playerPos) by {
      assert es0[k..] == [];
      assert es[..k] + [] == es[..];
    }
  }

  /** `player_input`: no key leaves everything as it was and pauses; any key
      resumes the simulation, after a move when the key requests one. */
  method PlayerInput(ecs: World, key: Option<Key>) returns (rs: RunState)
    requires ecs.level.Valid()
    requires key.Some? && KeyDelta(key.value).Some? ==>
      forall e | e in ecs.entities[..] ::
        MoveDefined(ecs.level, ecs.level.occupied[..], e, KeyDelta(key.value).value.0, KeyDelta(key.value).value.1)
    modifies ecs`playerPos, ecs.entities
    ensures rs == if key.None? then Paused else Running
    ensures key.None? || KeyDelta(key.value).None? ==>
      ecs.playerPos == old(ecs.playerPos) && ecs.entities[..] == old(ecs.entities[..])
    ensures key.Some? && KeyDelta(key.value).Some? ==>
      var (dx, dy) := KeyDelta(key.value).value;
      (ecs.entities[..], ecs.playerPos)
        == MoveAll(ecs.level, ecs.level.occupied[..], old(ecs.entities[..]), old(ecs.playerPos), dx, dy)
  {
    match key {
      case None =>
        return Paused;
      case Some(k) =>
        match KeyDelta(k) {
          case Some((dx, dy)) => TryMovePlayer(dx, dy, ecs);
          case None =>
        }
    }
    rs := Running;
  }
}
