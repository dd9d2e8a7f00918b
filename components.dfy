/** The component records attached to entities, the entity store, and the
    shared resources the systems read and write. */
module Components {
  import opened Maps

  datatype Option<T> = None | Some(value: T)

  /** A grid point, as the geometry library represents it (also the type of
      the shared player-position resource). */
  datatype Point = Point(x: int, y: int)

  /** Where an entity stands. */
  datatype Position = Position(x: int, y: int)

  /** What an entity can see: the points of its last field of view, its
      sight range, and a flag that asks for recomputation. */
  datatype Viewshed = Viewshed(visibleTiles: seq<Point>, range: int, dirty: bool)

  /** A hostile creature and its display name. */
  datatype Monster = Monster(name: string)

  /** How an entity is drawn; colours are not modelled. */
  datatype Renderable = Renderable(glyph: char)

  /** One entity: a slot per component, the unit markers as flags. */
  datatype Entity = Entity(
    position: Option<Position>,
    renderable: Option<Renderable>,
    viewshed: Option<Viewshed>,
    monster: Option<Monster>,
    player: bool,
    occupiesTile: bool)

  /** Whether the simulation runs its systems this frame or waits for input. */
  datatype RunState = Paused | Running

  /** The entity store with its resources: the level map (`level`) and the player's
      position, which every system can read. */
  class World {
    const level: Map
    const entities: array<Entity>
    var playerPos: Point

    constructor (level: Map, entities: seq<Entity>, playerPos: Point)
      ensures this.level == level && this.playerPos == playerPos
      ensures fresh(this.entities) && this.entities[..] == entities
    {
      this.level := level;
      this.entities := new Entity[|entities|](i requires 0 <= i < |entities| => entities[i]);
      this.playerPos := playerPos;
    }
  }
}
