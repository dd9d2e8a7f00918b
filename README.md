# NQAR simulation core in Dafny

NQAR is a small grid roguelike built on an entity-component store. This
project models its simulation logic and proves properties about it:

- the integer `Rectangle` used for rooms: construction, inclusive
  `intersect` and the truncating `center` (module `Rectangles`);
- the 80×50 tile window: `xy_idx`, the walled `new_map`, and the x/y counter
  walk of `draw_map` (module `Maps`);
- the level map with its occupied, revealed and visible flag vectors, as a
  class whose arrays the systems overwrite in place (`Maps.Map`);
- the component records and the entity store with its shared player point
  (module `Components`);
- the occupancy index system (`MapIndexing`);
- the visibility system (`Visibility`);
- the monster AI (`Monsters`);
- player movement and key input (`Players`);
- the Running/Paused frame, the system schedule, the render filter and the
  initial spawn (`Game`).

Entities are records with one optional slot per component, held in an array.
Each system's loop over the store is a loop over that array, and it is
proved against a value-level definition. `View` and `Step` give what the
visibility and monster systems do to one entity. `OccupiedBy` gives the
occupancy index. `MoveAll` gives what `try_move_player` does to the whole
store, early return included. The lemmas beside those definitions state what
the game promises.

## Model

| member | source | states |
|---|---|---|
| Rectangles.New | src/map/rectangle.rs:13-15 | the upper corner is (x, y) and the lower corner is (x+width, y+height); the rectangle is well formed exactly when width and height are non-negative |
| Rectangles.IntersectSymmetric | src/map/rectangle.rs:18-20 | a intersects b exactly when b intersects a |
| Rectangles.IntersectReflexive | src/map/rectangle.rs:19 | a rectangle built with non-negative width and height intersects itself |
| Rectangles.SharedEdgeIntersects | src/map/rectangle.rs:19 | bounds are inclusive: rectangles that only share an x edge, with overlapping y ranges, intersect |
| Rectangles.SeparatedDoNotIntersect | src/map/rectangle.rs:19 | if one ends strictly before the other starts on either axis, they do not intersect |
| Rectangles.IntersectIffCommonPoint | src/map/rectangle.rs:18-20 | for well-formed rectangles, intersect holds exactly when some grid point lies in both |
| Rectangles.HalfTowardZero | src/map/rectangle.rs:24 | integer halving that truncates toward zero, as i32 division by 2 does, for negative sums too |
| Rectangles.Rectangle.Center | src/map/rectangle.rs:23-25 | the centre of a well-formed rectangle lies inside it, and each coordinate is the half-sum of its corners |
| Maps.RowMajorDecode | src/map.rs:59-61 | `% width` and `/ width` recover x and y from y*width + x |
| Maps.XyIdx | src/map.rs:59-61 | indices are non-negative; inside the window they are below 4000 and decode back to (x, y) |
| Maps.XyIdxInverse | src/map.rs:59-61 | every index below 4000 is xy_idx of (i % 80, i / 80), a point of the window |
| Maps.XyIdxInjective | src/map.rs:59-61 | distinct window points have distinct indices |
| Maps.NewMap | src/map.rs:41-56 | 4000 tiles; a window tile is Wall exactly when it is on the border, Floor otherwise |
| Maps.DrawMap | src/map.rs:16-37 | the i-th tile is visited at (i % 80, i / 80), whose xy_idx is i, with the tile's glyph |
| Maps.Map.XyIdx | src/ai/monsters.rs:35-36 | the level's y*width + x decodes back under `%`/`/` width, and is an index of the flag vectors for on-map points |
| Components.World.constructor | src/main.rs:123-139 | the store holds the given entities, the level and the player point |
| MapIndexing.Run | src/systems/map_indexing.rs:14-22 | occupied[i] becomes baseline[i] or some occupier stands on i; every occupier's tile is flagged; only `occupied` is written; occupiers need only an index inside the vector |
| MapIndexing.PastRightEdgeMarksNextRow | src/systems/map_indexing.rs:19-20 | an occupier one column past the right edge flags the first tile of the next row |
| MapIndexing.OnlyOccupiersMatter | src/systems/map_indexing.rs:18 | entities without OccupiesTile do not influence the index |
| MapIndexing.OrderIndependent | src/systems/map_indexing.rs:18-21 | any reordering of the entities gives the same index |
| Visibility.InBoundsOnly | src/systems/visibility.rs:24 | `retain` keeps exactly the points on the map |
| Visibility.InBoundsOnlyAppend | src/systems/visibility.rs:24 | the filter distributes over concatenation, so order is preserved |
| Visibility.InBoundsOnlyKeepsInBounds | src/systems/visibility.rs:24 | a field of view already on the map is kept whole |
| Visibility.InBoundsOnlyIdempotent | src/systems/visibility.rs:24 | filtering twice equals filtering once |
| Visibility.View | src/systems/visibility.rs:21-24 | only viewers change, and only their visible tiles, which all lie on the map; range and dirty are kept |
| Visibility.ViewAll | src/systems/visibility.rs:21-24 | over the whole store, no entity moves, only viewsheds change, the viewers stay the same, and every viewer's visible tiles lie on the map |
| Visibility.ViewDiscardsPrevious | src/systems/visibility.rs:22-23 | the previous visible tiles have no influence on the new ones |
| Visibility.Reveal | src/systems/visibility.rs:29-32 | revealed[i] becomes its old value or "some visible point has index i" |
| Visibility.Run | src/systems/visibility.rs:18-35 | every entity becomes View of itself; revealed[i] becomes old or revealed by a player; revealed is monotonic; every tile a player sees is on the map and revealed; with no player, revealed is unchanged |
| Monsters.Step | src/ai/monsters.rs:21-38 | a monster that does not see the player is unchanged; only position and viewshed change; a moved entity is a monster, is marked dirty, and lands in a column of the map |
| Monsters.NoPathNoMove | src/ai/monsters.rs:34 | a failed search or a path of at most one tile leaves the monster unchanged |
| Monsters.PathMoves | src/ai/monsters.rs:34-38 | otherwise the position becomes (steps[1] % width, steps[1] / width) and dirty is set |
| Monsters.LandsOnStep | src/ai/monsters.rs:35-36 | a step to xy_idx(x, y), with x inside the width, lands exactly on (x, y) |
| Monsters.SearchEndpoints | src/ai/monsters.rs:27-31 | the move depends only on the search from the monster's tile to the player's tile |
| Monsters.StepAll | src/ai/monsters.rs:21-38 | over the whole store, an entity that does not see the player is unchanged, others change only in position and viewshed, and when the search returns map tiles every entity on the map stays on it |
| Monsters.StepStaysOnMap | src/ai/monsters.rs:35-36 | when the search returns map tiles, a monster on the map stays on the map |
| Monsters.Run | src/ai/monsters.rs:18-41 | every entity becomes Step of itself; the map and the player point are only read |
| Players.KeyDelta | src/player.rs:55-72 | a key has a delta exactly when it is one of the twelve movement keys, and that delta is a non-zero unit step |
| Players.EveryDirectionHasAKey | src/player.rs:57-70 | each of the eight directions has a key |
| Players.OppositeKeysCancel | src/player.rs:57-70 | Left/Right, Up/Down, 7/3 and 9/1 are opposite steps |
| Players.Clamp | src/player.rs:34-35 | min(hi, max(0, v)) lies in [0, hi] and is v when v already does |
| Players.Moved | src/player.rs:33-43 | an accepted move stays inside the 80×50 window, is the exact destination when that is inside, and marks the viewshed dirty |
| Players.MoveAll | src/player.rs:24-44 | the loop over player entities keeps the length of the store |
| Players.MoveAllStep | src/player.rs:24-44 | one loop step: a blocked mover ends the call, leaving the rest as it was; otherwise the mover moves and the point follows it |
| Players.NoMoverNoChange | src/player.rs:24 | with no player entity, nothing changes |
| Players.OnePlayerMove | src/player.rs:24-44 | for a single player: an occupied destination changes nothing, not the position, point or dirty; otherwise only the player moves and the point equals its new position |
| Players.EdgeMoveTestsNextRow | src/player.rs:26-35 | the occupancy test uses the unclamped destination: a step right from the last column tests the first tile of the next row, and the clamped move leaves the player in place |
| Players.MoveAllInWindow | src/player.rs:34-35 | moves keep every entity and the player point inside the window |
| Players.MoveOne | src/player.rs:24-44 | the loop body on one entity: a mover with an occupied destination is refused and nothing changes; otherwise only that entity moves and the point equals its new position |
| Players.LoopStep | src/player.rs:24-44 | after a refused move the state already is the whole call's result; otherwise the rest of the call is MoveAll of the remaining entities |
| Players.TryMovePlayer | src/player.rs:18-45 | the store and the player point become MoveAll of their old values, early return included |
| Players.PlayerInput | src/player.rs:48-76 | no key gives Paused and no change; any key gives Running; a movement key applies MoveAll with its delta, any other key changes nothing |
| Game.DecimalDigits | src/main.rs:115 | the decimal form of a count is a non-empty digit string, one digit exactly for counts below 10, starting with 0 only for 0 |
| Game.DecimalRoundTrip | src/main.rs:115 | reading the digits back gives the count |
| Game.MonsterNamesDistinct | src/main.rs:95-116 | monsters with different counts have different names, whatever their rolls |
| Game.Spawn | src/main.rs:95-136 | one monster per room after the first, at its centre, named "Goblin #k" (glyph g) on roll 1 and "Orc #k" (glyph o) otherwise, k from 0, with distinct names; the player comes last, at the first room's centre, glyph @, equal to the registered point; every viewshed starts empty, with range 8 and dirty; nothing occupies a tile |
| Game.Drawn | src/main.rs:45-51 | an entity with a Position and a Renderable is drawn exactly when its tile is flagged visible |
| Game.NothingVisibleNothingDrawn | src/main.rs:45-51 | with no tile visible, nothing is drawn |
| Game.DrawEntities | src/main.rs:41-51 | the render loop writes exactly Drawn of the store |
| Game.State.constructor | src/main.rs:78-139 | the state starts Running, holding the spawned entities and the registered player point, all inside the window |
| Game.State.RunSystems | src/main.rs:56-67 | the entities become StepAll of ViewAll of the old entities, and revealed grows by what the viewed players see; the occupancy index is not rebuilt |
| Game.State.Input | src/main.rs:35-36 | the run state is player_input's; no key or a non-movement key changes nothing; a movement key applies MoveAll; entities stay inside the window |
| Game.State.Tick | src/main.rs:29-52 | Running runs the systems and ends Paused; Paused runs no system, takes player_input's state and its moves; occupied and visible are never written; the sprites are Drawn of the new store; entities stay inside the window |

## Left out

- Drawing is left out: `ctx.cls`, `ctx.set`, colours, glyph code pages and the window bootstrap. `draw_map` and the render loop are modelled by the cells or sprites they would write.
- `rltk::field_of_view` is an external library call. It is the parameter `fov`, a function of origin and range whose result is taken as it comes.
- `rltk::a_star_search` is an external library call. It is the parameter `astar`, a function of the two tile indices. `Game.State.Tick` asks it to return map tiles.
- `populate_occupied` and the definition of the `Map` struct are not part of this model. The baseline occupancy is an input of `MapIndexing.Run`.
- The `Map` struct is a class with width, height, rooms and three flag arrays. `Maps.Map.constructor` is a stand-in with all flags false, not the game's level generator.
- Room and corridor generation is not modelled. `Game.State.constructor` requires every room's centre to lie inside the window.
- `Game.State.Tick`: nothing in the modelled code writes the map's visible flags, yet the render filter reads them. The model keeps them unchanged across a tick, so what is drawn depends only on the flags the level starts with.
- The dice roll of `roll_dice(1, 2)` is an input sequence `rolls`. Any value other than 1 gives an orc, as the `_` arm does.
- The `println!` in the monster AI is left out, as is the specs machinery: storages, joins, `write_resource` and `maintain`, which has nothing to apply here.
- Negative coordinates are excluded by `requires` wherever the source casts them with `as usize`. The source would wrap there.
- A player destination past the last row, or past the last column on the last row, is excluded by `requires`. The source indexes out of range there. A destination past the last column on any other row is in range and is modelled (`Players.EdgeMoveTestsNextRow`).
- Players.MoveDefined: the source panics on these inputs, so the model does not describe them.
- Game.State.Valid: the level is 80 by 50, the size of the window. The size of the `Map` struct is not part of this model; `Game.State.constructor` requires it.
- Game.Spawn: requires at least one room. With no rooms the source panics when it reads the first room for the player.
- MapIndexing.Run: requires every occupier to have non-negative coordinates and an index inside the occupancy vector. Otherwise the source casts a negative value with `as usize` or indexes out of range. An occupier past the right edge on an inner row is in range and is modelled.
- i32 overflow is not modelled. Coordinates and indices are unbounded integers. Truncating division is written out where the sign matters (`Rectangles.HalfTowardZero`).
- Monsters.Run: the order in which the store visits entities is array order. The specs join order is not modelled.
