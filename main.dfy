/** The game state and its frame: spawning the initial entities, the
    Running/Paused alternation of `tick`, the system schedule, and the
    visibility filter applied when entities are drawn. */
module Game {
  import opened Rectangles
  import opened Maps
  import opened Components
  import Visibility
  import Monsters
  import Players

  /** The decimal digits of `n`, most significant first (`{}` of a count). */
  function DecimalDigits(n: nat): (s: string)
    ensures 1 <= |s|
    ensures forall i | 0 <= i < |s| :: '0' <= s[i] <= '9'
    ensures (|s| == 1) == (n < 10)
    ensures s[0] == '0' <==> n == 0
  {
    if n < 10 then [Digit(n)] else DecimalDigits(n / 10) + [Digit(n % 10)]
  }

  function Digit(d: nat): (c: char)
    requires d < 10
    ensures '0' <= c <= '9'
  {
    ('0' as int + d) as char
  }

  /** Reading a digit string back as a number. */
  function DecimalValue(s: string): nat
    requires forall i | 0 <= i < |s| :: '0' <= s[i] <= '9'
  {
    if s == [] then 0 else DecimalValue(s[..|s| - 1]) * 10 + (s[|s| - 1] as int - '0' as int)
  }

  /** The digits of a count read back as that count. */
  lemma {:induction false} DecimalRoundTrip(n: nat)
    ensures DecimalValue(DecimalDigits(n)) == n
  {
    var s := DecimalDigits(n);
    if n < 10 {
      assert s[..0] == [];
    } else {
      assert s[..|s| - 1] == DecimalDigits(n / 10);
      DecimalRoundTrip(n / 10);
    }
  }

  /** The kind of monster a dice roll asks for: a goblin on 1, an orc otherwise. */
  function Kind(roll: int): string {
    if roll == 1 then "Goblin" else "Orc"
  }

  /** `format!("{} #{}", name, count)`. */
  function MonsterName(roll: int, count: nat): string {
    Kind(roll) + " #" + DecimalDigits(count)
  }

  /** Two monsters with different counts never share a name, whatever kinds
      the rolls gave them. */
  lemma MonsterNamesDistinct(roll: int, count: nat, roll': int, count': nat)
    requires count != count'
    ensures MonsterName(roll, count) != MonsterName(roll', count')
  {
    var n, n' := MonsterName(roll, count), MonsterName(roll', count');
    if n == n' {
      assert n[0] == Kind(roll)[0] && n'[0] == Kind(roll')[0];
      assert Kind(roll) == Kind(roll');
      var p := |Kind(roll) + " #"|;
      assert n[p..] == DecimalDigits(count);
      assert n'[p..] == DecimalDigits(count');
      DecimalRoundTrip(count);
      DecimalRoundTrip(count');
    }
  }

  /** The sight every spawned creature starts with: nothing seen yet, range
      `DEFAULT_FOV`, and a request for a first computation. */
  function FreshViewshed(): Viewshed {
    Viewshed([], Players.DEFAULT_FOV, true)
  }

  /** The monster spawned in `room` for the roll `roll`, numbered `count`. */
  function MonsterIn(room: Rectangle, roll: int, count: nat): Entity {
    var (x, y) := room.Center();
    Entity(Some(Position(x, y)), Some(Renderable(if roll == 1 then 'g' else 'o')),
           Some(FreshViewshed()), Some(Monster(MonsterName(roll, count))), false, false)
  }

  /** The player spawned in `room`. */
  function PlayerIn(room: Rectangle): Entity {
    var (x, y) := room.Center();
    Entity(Some(Position(x, y)), Some(Renderable('@')), Some(FreshViewshed()), None, true, false)
  }

  /** The entity creation of `main`: a monster at the centre of every room but
      the first, numbered from 0 with its dice roll, then the player at the
      centre of the first room; `player` is the registered player point. */
  method Spawn(rooms: seq<Rectangle>, rolls: seq<int>) returns (es: seq<Entity>, player: Point)
    requires 1 <= |rooms| && |rolls| == |rooms| - 1
    ensures |es| == |rooms|
    ensures player == Point(rooms[0].Center().0, rooms[0].Center().1)
    ensures forall k | 0 <= k < |es| :: es[k].player <==> k == |es| - 1
    ensures forall k | 0 <= k < |es| :: es[k].monster.Some? <==> k < |es| - 1
    ensures forall j, k | 0 <= j < k < |es| - 1 :: es[j].monster.value.name != es[k].monster.value.name
    ensures forall k | 0 <= k < |es| :: !es[k].occupiesTile
    ensures forall k | 0 <= k < |es| :: es[k].viewshed == Some(Viewshed([], 8, true))
    ensures forall c | 0 <= c < |es| - 1 ::
      && es[c].position == Some(Position(rooms[c + 1].Center().0, rooms[c + 1].Center().1))
      && es[c].monster == Some(Monster((if rolls[c] == 1 then "Goblin" else "Orc") + " #" + DecimalDigits(c)))
      && es[c].renderable == Some(Renderable(if rolls[c] == 1 then 'g' else 'o'))
    ensures es[|es| - 1].position == Some(Position(player.x, player.y))
    ensures es[|es| - 1].renderable == Some(Renderable('@'))
  {
    es := [];
    for c := 0 to |rooms| - 1
      invariant |es| == c
      invariant forall j | 0 <= j < c :: es[j] == MonsterIn(rooms[j + 1], rolls[j], j)
    {
      es := es + [MonsterIn(rooms[c + 1], rolls[c], c)];
    }
    es := es + [PlayerIn(rooms[0])];
    player := Point(rooms[0].Center().0, rooms[0].Center().1);
    forall j, k | 0 <= j < k < |es| - 1
      ensures es[j].monster.value.name != es[k].monster.value.name
    {
      MonsterNamesDistinct(rolls[j], j, rolls[k], k);
    }
  }

  /** A glyph written at a screen position. */
  datatype Sprite = Sprite(x: int, y: int, glyph: char)

  /** The entities the render loop joins: those with a Position and a Renderable. */
  predicate IsDrawable(e: Entity) {
    e.position.Some? && e.renderable.Some?
  }

  function SpriteOf(e: Entity): Sprite
    requires IsDrawable(e)
  {
    Sprite(e.position.value.x, e.position.value.y, e.renderable.value.glyph)
  }

  /** Every drawable entity stands on the map. */
  ghost predicate DrawablesOnMap(m: Map, es: seq<Entity>) {
    forall e | e in es && IsDrawable(e) :: m.InBounds(e.position.value.x, e.position.value.y)
  }

  /** The entity `e` is drawn: its tile is flagged in `vis`. */
  predicate Shown(m: Map, vis: seq<bool>, e: Entity)
    requires |vis| == m.width * m.height
    requires IsDrawable(e) && m.InBounds(e.position.value.x, e.position.value.y)
  {
    vis[m.XyIdx(e.position.value.x, e.position.value.y)]
  }

  /** The sprites the render loop writes, in store order: an entity is drawn
      exactly when its tile is visible. */
  function Drawn(m: Map, vis: seq<bool>, es: seq<Entity>): (r: seq<Sprite>)
    requires |vis| == m.width * m.height && DrawablesOnMap(m, es)
    ensures |r| <= |es|
    ensures forall s | s in r :: exists e | e in es && IsDrawable(e) :: Shown(m, vis, e) && SpriteOf(e) == s
    ensures forall e | e in es && IsDrawable(e) && Shown(m, vis, e) :: SpriteOf(e) in r
  {
    if es == [] then []
    else
      var init, last := es[..|es| - 1], es[|es| - 1];
      assert es == init + [last];
      assert DrawablesOnMap(m, init) by {
        forall e | e in init ensures e in es { }
      }
      var front := Drawn(m, vis, init);
      assert forall s | s in front :: exists e | e in es && IsDrawable(e) :: Shown(m, vis, e) && SpriteOf(e) == s by {
        forall s | s in front ensures exists e | e in es && IsDrawable(e) :: Shown(m, vis, e) && SpriteOf(e) == s {
          var e :| e in init && IsDrawable(e) && Shown(m, vis, e) && SpriteOf(e) == s;
          assert e in es;
        }
      }
      front + (if IsDrawable(last) && Shown(m, vis, last) then [SpriteOf(last)] else [])
  }

  /** With no tile visible, nothing is drawn. */
  lemma NothingVisibleNothingDrawn(m: Map, vis: seq<bool>, es: seq<Entity>)
    requires |vis| == m.width * m.height && DrawablesOnMap(m, es)
    requires forall i | 0 <= i < |vis| :: !vis[i]
    ensures Drawn(m, vis, es) == []
  {
  }

  /** The render loop of `tick`: for every entity with a Position and a
      Renderable, its glyph is set when the map flags its tile visible. */
  method DrawEntities(m: Map, es: array<Entity>) returns (sprites: seq<Sprite>)
    requires m.Valid() && DrawablesOnMap(m, es[..])
    ensures sprites == Drawn(m, m.visible[..], es[..])
  {
    sprites := [];
    for k := 0 to es.Length
      invariant DrawablesOnMap(m, es[..k])
      invariant sprites == Drawn(m, m.visible[..], es[..k])
    {
      var e := es[k];
      assert es[..k + 1][..k] == es[..k];
      assert e in es[..];
      assert DrawablesOnMap(m, es[..k + 1]) by {
        forall e' | e' in es[..k + 1] ensures e' in es[..] {
          var j :| 0 <= j < k + 1 && es[..k + 1][j] == e';
          assert es[j] == e';
        }
      }
      if e.position.Some? && e.renderable.Some? {
        var idx := m.XyIdx(e.position.value.x, e.position.value.y);
        if m.visible[idx] {
          sprites := sprites + [Sprite(e.position.value.x, e.position.value.y, e.renderable.value.glyph)];
        }
      }
    }
    assert es[..es.Length] == es[..];
  }

  /** The game state: the entity store with its resources, and whether the
      systems run this frame. */
  class State {
    const ecs: World
    var runState: RunState

    /** The level is the 80 by 50 window, and every positioned entity and the
        player point lie in it. */
    ghost predicate Valid()
      reads this, ecs, ecs.entities
    {
      && ecs.level.Valid()
      && ecs.level.width == COLUMNS && ecs.level.height == ROWS
      && InWindow(ecs.playerPos.x, ecs.playerPos.y)
      && forall k | 0 <= k < ecs.entities.Length && ecs.entities[k].position.Some? ::
           InWindow(ecs.entities[k].position.value.x, ecs.entities[k].position.value.y)
    }

    /** `main`: the state starts Running, with the monsters and the player
        spawned in the level's rooms and the player point registered. The
        rooms come from the level generator, which places them on the map. */
    constructor (level: Map, rolls: seq<int>)
      requires level.Valid() && level.width == COLUMNS && level.height == ROWS
      requires 1 <= |level.rooms| && |rolls| == |level.rooms| - 1
      requires forall i | 0 <= i < |level.rooms| :: InWindow(level.rooms[i].Center().0, level.rooms[i].Center().1)
      ensures Valid()
      ensures runState == Running && ecs.level == level && fresh(ecs) && fresh(ecs.entities)
      ensures |ecs.entities[..]| == |level.rooms|
      ensures forall c | 0 <= c < |level.rooms| - 1 ::
        ecs.entities[c] == MonsterIn(level.rooms[c + 1], rolls[c], c)
      ensures ecs.entities[|level.rooms| - 1] == PlayerIn(level.rooms[0])
      ensures ecs.playerPos == Point(level.rooms[0].Center().0, level.rooms[0].Center().1)
    {
      var es, player := Spawn(level.rooms, rolls);
      ecs := new World(level, es, player);
      runState := Running;
    }

    /** A key that moves the player has a destination it can index. */
    ghost predicate InputDefined(key: Option<Players.Key>)
      reads this, ecs, ecs.entities, ecs.level.occupied
    {
      key.Some? && Players.KeyDelta(key.value).Some? ==>
        forall e | e in ecs.entities[..] ::
          Players.MoveDefined(ecs.level, ecs.level.occupied[..], e,
            Players.KeyDelta(key.value).value.0, Players.KeyDelta(key.value).value.1)
    }

    /** `run_systems`: visibility, then the monster AI, then `maintain`, which
        has nothing to apply because no system creates or deletes entities.
        The occupancy index is not rebuilt, and the player point and the
        visible flags are only read. */
    method RunSystems(fov: Visibility.FieldOfView, astar: Monsters.PathSearch)
      requires Valid() && Monsters.PathsOnMap(ecs.level, astar)
      modifies ecs.entities, ecs.level.revealed
      ensures Valid()
      ensures ecs.entities[..] == Monsters.StepAll(ecs.level,
        Visibility.ViewAll(ecs.level, old(ecs.entities[..]), fov), ecs.playerPos, astar)
      ensures forall i | 0 <= i < ecs.level.revealed.Length ::
        ecs.level.revealed[i] == (old(ecs.level.revealed[i])
          || Visibility.RevealedBy(ecs.level, Visibility.ViewAll(ecs.level, old(ecs.entities[..]), fov), i))
    {
      var m := ecs.level;
      ghost var viewed := Visibility.ViewAll(m, ecs.entities[..], fov);
      Visibility.Run(ecs, fov);
      assert ecs.entities[..] == viewed;
      Monsters.Run(ecs, astar);
      assert ecs.entities[..] == Monsters.StepAll(m, viewed, ecs.playerPos, astar);
    }

    /** The Paused frame of `tick`: the new run state is what `player_input`
        returns, and its moves keep everything inside the window. */
    method Input(key: Option<Players.Key>)
      requires Valid() && InputDefined(key)
      modifies this`runState, ecs`playerPos, ecs.entities
      ensures Valid()
      ensures runState == (if key.None? then Paused else Running)
      ensures key.None? || Players.KeyDelta(key.value).None? ==>
        ecs.playerPos == old(ecs.playerPos) && ecs.entities[..] == old(ecs.entities[..])
      ensures key.Some? && Players.KeyDelta(key.value).Some? ==>
        (ecs.entities[..], ecs.playerPos) == Players.MoveAll(ecs.level, ecs.level.occupied[..],
          old(ecs.entities[..]), old(ecs.playerPos),
          Players.KeyDelta(key.value).value.0, Players.KeyDelta(key.value).value.1)
    {
      ghost var es0, pt0 := ecs.entities[..], ecs.playerPos;
      runState := Players.PlayerInput(ecs, key);
      if key.Some? && Players.KeyDelta(key.value).Some? {
        forall e | e in es0 && e.position.Some? ensures InWindow(e.position.value.x, e.position.value.y) {
          var k :| 0 <= k < |es0| && es0[k] == e;
        }
        Players.MoveAllInWindow(ecs.level, ecs.level.occupied[..], es0, pt0,
          Players.KeyDelta(key.value).value.0, Players.KeyDelta(key.value).value.1);
        forall k | 0 <= k < ecs.entities.Length && ecs.entities[k].position.Some?
          ensures InWindow(ecs.entities[k].position.value.x, ecs.entities[k].position.value.y)
        {
          assert ecs.entities[k] in ecs.entities[..];
        }
      }
    }

    /** `tick`: a Running frame runs the systems and pauses; a Paused frame
        waits for a key, and any key resumes. Then every entity on a visible
        tile is drawn. */
    method Tick(key: Option<Players.Key>, fov: Visibility.FieldOfView, astar: Monsters.PathSearch)
      returns (drawn: seq<Sprite>)
      requires Valid()
      requires runState == Running ==> Monsters.PathsOnMap(ecs.level, astar)
      requires runState == Paused ==> InputDefined(key)
      modifies this`runState, ecs`playerPos, ecs.entities, ecs.level.revealed
      ensures Valid()
      ensures old(runState) == Running ==>
        && runState == Paused
        && ecs.playerPos == old(ecs.playerPos)
        && ecs.entities[..] == Monsters.StepAll(ecs.level,
             Visibility.ViewAll(ecs.level, old(ecs.entities[..]), fov), ecs.playerPos, astar)
        && forall i | 0 <= i < ecs.level.revealed.Length ::
             ecs.level.revealed[i] == (old(ecs.level.revealed[i])
               || Visibility.RevealedBy(ecs.level, Visibility.ViewAll(ecs.level, old(ecs.entities[..]), fov), i))
      ensures old(runState) == Paused ==>
        && runState == (if key.None? then Paused else Running)
        && ecs.level.revealed[..] == old(ecs.level.revealed[..])
        && (key.None? || Players.KeyDelta(key.value).None? ==>
              ecs.playerPos == old(ecs.playerPos) && ecs.entities[..] == old(ecs.entities[..]))
        && (key.Some? && Players.KeyDelta(key.value).Some? ==>
              (ecs.entities[..], ecs.playerPos) == Players.MoveAll(ecs.level, ecs.level.occupied[..],
                old(ecs.entities[..]), old(ecs.playerPos),
                Players.KeyDelta(key.value).value.0, Players.KeyDelta(key.value).value.1))
      ensures ecs.level.occupied[..] == old(ecs.level.occupied[..])
      ensures ecs.level.visible[..] == old(ecs.level.visible[..])
      ensures drawn == Drawn(ecs.level, ecs.level.visible[..], ecs.entities[..])
    {
      if runState == Running {
        RunSystems(fov, astar);
        runState := Paused;
      } else {
        Input(key);
      }
      forall e | e in ecs.entities[..] && IsDrawable(e)
        ensures ecs.level.InBounds(e.position.value.x, e.position.value.y)
      {
        var k :| 0 <= k < ecs.entities.Length && ecs.entities[k] == e;
      }
      drawn := DrawEntities(ecs.level, ecs.entities);
    }
  }
}
