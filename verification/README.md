# rusty-map-view core, modelled in Dafny

rusty-map-view is a live map viewer for a randomized game. A websocket feed
streams events into the viewer: a save loaded, the player changed room, a
transition was revealed. The viewer keeps a session state for the loaded save
and shows the rooms reached so far. It lays the rooms out with a small force
simulation and draws them around the player's room. It can also find the
shortest chain of revealed transitions between two rooms.

This project models the sequential core of the viewer:

- the transition-id codec;
- the session state and its events;
- the graph of revealed transitions, with the depth-bounded render set and the
  shortest-path search;
- one tick of the layout;
- room bounding boxes;
- the transform stack;
- the split-borrow map;
- the camera.

Modules follow the program's structure:

| module | file | models |
|---|---|---|
| `Basics` | basics.dfy | `Option`, points, `clamp`, `starts_with`, hash-map iteration orders |
| `TransitionId` | transition_id.dfy | `Transition::get_transition_info` and the `room[name]` format |
| `Geometry` | rect.dfy | the rectangle and `RectExt::inflate` |
| `Rooms` | room.dfy | `Room` and `Room::calc_bounds` |
| `SplitMap` | split.dfy | `GetSplit::split`, the wrapper's `Deref`/`DerefMut` and `Drop` |
| `TransformStacks` | transform_stack.dfy | `TransformStack` |
| `Data` | data.dfy | `MapData`, `RandoData` |
| `GameStates` | state.dfy | `GameState`, `LoadedState::update`, `Camera::update` |
| `Session` | session.dfy | `load_save` and the state branches of `on_message` |
| `Graph` | graph.dfy | the revealed-hop graph and the render-room expansion of `draw` |
| `PathFinder` | pathfinder.dfy | `find_path` |
| `Layout` | layout.dfy | `update_room_positions` and the position registration of `draw` |

Modelling conventions:

- A `HashMap` is a Dafny `map` plus an explicit iteration order: a sequence
  that lists every key once (`Enumerates`). Every result is proved for every
  such order, so nothing depends on the order Rust happens to use.
- `f32` values are `real`s. Hop counts are `nat`s.
- A panic (`unwrap` on `None`) becomes a `None` result.
- The clock is a parameter: `now` for the time of a room change, and
  `elapsed` for the layout.
- JSON messages arrive already decoded, as the `Message` and `SaveData`
  datatypes.
- Room ids contain no `[`. The program re-parses `room[name]` ids at the first
  `[` (src/main.rs:562), so `MapData.Valid` states this.

Behaviour of the code the model keeps:

- **calc_bounds padding.** Padding is sequential: `max` is widened using the
  already-lowered `min`. A span `w < 20` therefore ends as `20 - (20 - w) / 4`,
  and a single item gives a 17.5 × 17.5 box (`Rooms.PadAxis`,
  `Rooms.NarrowAxisPadded`).
- **calc_bounds on a room with no points of interest.** Padding moves `min_x`
  from 10000 to -10 before the fallback test, so the result is
  {-10, -10, -4985, -4985} (`Rooms.EmptyRoomBounds`). The fixed 20 × 20
  rectangle is returned only when the padded `min_x` is exactly 10000
  (`Rooms.FallbackExample`).
- **Transform stack.** `scale` passes a z factor of 0, so any `scale` makes
  the top singular. `inv_transform` then panics, which the model returns as
  `None`. The inverse round trip holds for tops built from translations and
  rotations only (`TransformStacks.ScaleBlocksInverse`,
  `TransformStacks.InverseAfterRigidOps`).
- **Malformed live events.** A message missing a field panics through
  `expect` (src/main.rs:125-227). The model takes decoded messages and leaves
  this panic out.

## Model

| member | source | states |
|---|---|---|
| TransitionId.SplitOnce | src/data/transition.rs:12 | `split_once("[")` fails exactly when there is no `[`; otherwise the input is the part before, the `[`, then the part after, and the part before has no `[` |
| TransitionId.TrimClosers | src/data/transition.rs:12 | `trim_end_matches("]")` removes every trailing `]`: the result has none left, and the input is the result followed by only `]` characters |
| TransitionId.GetTransitionInfo | src/data/transition.rs:11-13 | `None` iff the id has no `[`. Otherwise the room part has no `[`, the name part has no trailing `]`, and the id is room + `[` + name + some number of `]` |
| TransitionId.RoomPartAgrees | src/data/transition.rs:12 | taking the text before the first `[` gives the same room as the full parse, and fails in the same cases |
| TransitionId.RoomOfQualify | src/main.rs:560-563 | re-parsing an id built as `room[name]` gives back that room, when the room has no `[` |
| TransitionId.RoomPartOfQualify | src/main.rs:562 | the room part of `room[name]` is `room`, when the room has no `[` |
| TransitionId.RoundTrip | src/data/transition.rs:12 | round trip: parsing `room[name]` gives `(room, name)` when the room has no `[` and the name does not end in `]` |
| TransitionId.QualifyInjective | src/main.rs:257 | two rooms without `[` produce the same qualified id only for the same room and name |
| Geometry.Inflate | src/util/rect_ext.rs:8-13 | `inflate(a)` moves x and y down by `a`, grows w and h by `2a`, keeps the centre, and for `a >= 0` encloses the original |
| Geometry.InflateCompose | src/util/rect_ext.rs:8-13 | inflating by `a` and then by `b` is inflating by `a + b` |
| Geometry.InflateZero | src/util/rect_ext.rs:8-13 | inflating by 0 is the identity |
| Rooms.SquareAt | src/data/room.rs:27-39 | a bench or item contributes the box of side 10 centred at `(x, -y)` |
| Rooms.Grow | src/data/room.rs:28-31 | one min/max step gives the least box covering both the running box and the new one |
| Rooms.PadAxis | src/data/room.rs:49-57 | a span of at least 20 is left alone. A narrower span `w` starts at `lo - (20 - w) / 2` and ends with width `20 - (20 - w) / 4`, strictly between `w` and 20 |
| Rooms.CalcBounds | src/data/room.rs:21-64 | outside the fallback the rectangle contains the raw envelope; an axis spanning at least 20 keeps the raw min and span exactly, a narrower one is widened to a span strictly between the raw span and 20; the fallback gives the fixed 20 × 20 rectangle at (-10, -10). `Rooms.RawEnvelopeIsHull`, `Rooms.WideAxisExact`, `Rooms.NarrowAxisPadded` and `Rooms.EmptyRoomBounds` state the rest |
| Rooms.RawEnvelopeIsHull | src/data/room.rs:22-46 | the box before padding covers the start box and every bench, item and transition, and is covered by any box that covers them all |
| Rooms.EnvelopeMonotone | src/data/room.rs:27-46 | folding a superset of boxes never gives a smaller envelope |
| Rooms.CalcBoundsOrderIndependent | src/data/room.rs:34-46 | the result does not depend on the iteration order of `items` or `transitions` |
| Rooms.CalcBoundsBenchOrderIndependent | src/data/room.rs:27-32 | the result does not depend on the order of `benches` |
| Rooms.AddBenchGrows | src/data/room.rs:27-32 | adding a bench never shrinks the box before padding |
| Rooms.AddItemGrows | src/data/room.rs:34-39 | adding an item under a fresh key, anywhere in the iteration order, never shrinks the box before padding |
| Rooms.WideAxisExact | src/data/room.rs:49-62 | an axis whose raw span is at least 20 reports the raw min and max − min exactly |
| Rooms.NarrowAxisPadded | src/data/room.rs:49-57 | an axis whose raw span `w` is below 20 ends with span `20 - (20 - w) / 4` |
| Rooms.EmptyRoomBounds | src/data/room.rs:49-60 | a room with no points of interest skips the fallback and gets {-10, -10, -4985, -4985} |
| Rooms.FallbackExample | src/data/room.rs:59-60 | the 20 × 20 fallback is reachable: transitions at x = 10000 and 10050 trigger it |
| SplitMap.Split | src/util/split.rs:45-48 | `None` exactly when the key is absent. Otherwise the wrapper is live, holds `m[k]` under `k`, and the rest is `m` without `k` |
| SplitMap.SetHeld | src/util/split.rs:32-36 | writing through `DerefMut` replaces the held value only |
| SplitMap.SetRest | src/util/split.rs:32-36 | editing the rest through `DerefMut` leaves the held value and key alone |
| SplitMap.Drop | src/util/split.rs:18-21 | drop yields the rest with the held value reinserted under the key, overwriting any entry there |
| SplitMap.DropRestores | src/util/split.rs:18-21 | splitting and dropping without edits restores the original map |
| SplitMap.EditPersists | src/util/split.rs:32-36 | an edit of the held value is in the map after drop |
| SplitMap.DropOverwritesKey | src/util/split.rs:20 | a value inserted under the split key into the rest is overwritten on drop |
| TransformStacks.Translated | src/util/transform_stack.rs:22-27 | post-multiplying a translation: the new matrix maps `p` where the old one mapped `p + (x, y)`; the determinant is unchanged |
| TransformStacks.Scaled | src/util/transform_stack.rs:29-33 | post-multiplying `diag(x, y, 0, 1)`: the new matrix maps `p` where the old one mapped `(x p.x, y p.y)`, and its determinant is 0 |
| TransformStacks.Rotated | src/util/transform_stack.rs:45-51 | post-multiplying a rotation about z: the new matrix maps `p` where the old one mapped the rotated `p`; the determinant is unchanged |
| TransformStacks.InvApply | src/util/transform_stack.rs:86-99 | the inverse mapping fails exactly for a singular matrix, and otherwise returns a point the matrix sends to `q` |
| TransformStacks.InvApplyApply | src/util/transform_stack.rs:86-99 | through an invertible matrix, mapping forward then back gives the point |
| TransformStacks.New | src/util/transform_stack.rs:10-12 | a new stack holds exactly the identity, which maps every point to itself |
| TransformStacks.Push | src/util/transform_stack.rs:14-16 | fails on an empty stack. Otherwise the stack grows by one, the old entries stay, and the new top equals the old top |
| TransformStacks.Pop | src/util/transform_stack.rs:18-20 | removes only the top, and does nothing on an empty stack |
| TransformStacks.Translate | src/util/transform_stack.rs:22-27 | fails on an empty stack. Otherwise only the top changes, and afterwards `transform(p)` equals the old `transform(p + (x, y))` |
| TransformStacks.Scale | src/util/transform_stack.rs:29-33 | fails on an empty stack. Otherwise only the top changes, it scales before mapping, and it becomes singular |
| TransformStacks.Rotate | src/util/transform_stack.rs:45-51 | fails on an empty stack. Otherwise only the top changes, it rotates before mapping, and invertibility is kept |
| TransformStacks.Transform | src/util/transform_stack.rs:54-67 | fails on an empty stack, and otherwise applies the top |
| TransformStacks.InvTransform | src/util/transform_stack.rs:86-99 | fails on an empty stack or a singular top. Otherwise it returns a point that `transform` sends to the input |
| TransformStacks.PushPop | src/util/transform_stack.rs:14-20 | push then pop restores the stack exactly |
| TransformStacks.ScaleBlocksInverse | src/util/transform_stack.rs:29-33 | after any `scale`, `inv_transform` fails whatever the factors |
| TransformStacks.RunKeepsInvertible | src/util/transform_stack.rs:14-51 | pushes, pops, translations and rotations keep every entry invertible |
| TransformStacks.InverseAfterRigidOps | src/util/transform_stack.rs:54-99 | for a top built from `new` by any calls but `scale`, `inv_transform(transform(p)) == p` |
| TransformStacks.PopBaseThenFail | src/util/transform_stack.rs:10-101 | popping the base entry empties the stack, and later push, translate, scale, rotate, transform and inverse transform fail |
| GameStates.Approach | src/state/mod.rs:85-86 | each axis moves exactly 1/8 of the way to the aim. It lies between the old value and the aim, and stays put exactly when it is already at the aim |
| GameStates.UpdateCamera | src/state/mod.rs:46-87 | the camera takes the next target chosen for its current target, and each axis moves 1/8 of the way to that target's aim |
| GameStates.Aim | src/state/mod.rs:54-83 | the camera keeps its target except a room target with no recorded position, which falls back to following the player's room aimed at the origin; a point target aims at its point |
| GameStates.UpdateLoaded | src/state/mod.rs:21-29 | `LoadedState::update` changes only the camera |
| GameStates.TargetChangesOnlyOnMissingRoom | src/state/mod.rs:54-63 | the target changes exactly for a room target without a position, and then becomes `PlayerRoom` aimed at the origin. A room target with a position aims at it and is kept |
| GameStates.PlayerAim | src/state/mod.rs:64-75 | `Player` aims at (pos.x + px, pos.y − py + h). It drops `+ h` when the room data is missing, and aims at (px, py) when the room has no position |
| GameStates.PlayerRoomAim | src/state/mod.rs:76-82 | `PlayerRoom` aims at the current room's position, else the origin |
| GameStates.ApproachGeometric | src/state/mod.rs:85-86 | with a fixed aim, the remaining distance after `n` frames is `(7/8)^n` of the initial one |
| Session.LastValue | src/main.rs:262-267 | there is a value for a source exactly when some pair has that source, and the value found is carried by such a pair |
| Session.LastValueLast | src/main.rs:262-267 | the last pair with a given source decides its value: later inserts overwrite earlier ones |
| Session.LastValueOfKeyed | src/main.rs:251-267 | when every pair for a source carries the same value, that value is the one inserted |
| Session.TransitionTable | src/main.rs:251-267 | every entry of the table comes from a randomizer placement or from the vanilla seeding, and every placement source is a key |
| Session.VanillaValue | src/main.rs:251-260 | the vanilla seeding maps `room[tr]` to the vanilla destination of that transition |
| Session.InsertAll | src/main.rs:262-267 | inserting pairs in order: a key is present iff it was present before or some pair carries it, and its value comes from the last such pair, else the old value |
| Session.RoomVanilla | src/main.rs:255-259 | the entries of one room are exactly `(room[tr], to)` for its transitions that have a vanilla destination |
| Session.WorldVanilla | src/main.rs:251-260 | the vanilla entries of the world are exactly `(room[tr], to)` over every room and transition with a vanilla destination |
| Session.VisitedSet | src/main.rs:269-273 | the visited set holds both ends of every visited pair and nothing else |
| Session.LoadSave | src/main.rs:229-300 | a loaded save starts in the start scene at (0, 0), with no room positions, the camera at the origin following the player, nothing hovered, selected or dragged, and the visited set holding exactly the ends of the visited pairs |
| Session.PlacementOverridesVanilla | src/main.rs:251-267 | the last randomizer placement for a source replaces whatever the vanilla seeding put there |
| Session.VanillaSurvives | src/main.rs:251-267 | a transition that no placement mentions keeps its vanilla destination |
| Session.VanillaKeys | src/main.rs:251-260 | a vanilla entry exists for an id exactly when it names a transition with a vanilla destination |
| Session.TableKeys | src/main.rs:251-267 | the table's keys are the vanilla-seeded ids and the placement sources, nothing else |
| Session.Reveal | src/main.rs:164-177 | a no-op when unloaded. When loaded, only the visited set changes, it only grows, and it gains exactly `to` and `transition_map[to]` if present |
| Session.OnMessage | src/main.rs:125-227 | `loadSave` loads a save in its start scene with no room positions, `unloadSave` unloads, item, asset, unknown and untyped messages change nothing, nothing but `loadSave` acts while unloaded, only a room change while loaded moves the transition time (to `now`), a position update changes only the player position, and a reveal never loads or unloads |
| Session.UnloadedIgnores | src/main.rs:125-227 | while unloaded, every message except `loadSave` leaves the viewer unchanged |
| Session.PlayerMoveEffect | src/main.rs:134-153 | a room change records the room and position, clears every room position and stamps the transition time. The transition table, the visited set, the camera and every other field are left alone |
| Session.RevealIdempotent | src/main.rs:164-177 | revealing twice is revealing once |
| Session.RevealCommutes | src/main.rs:164-177 | two reveals commute |
| Session.RevealVisitedKeepsSet | src/main.rs:164-177 | right after loading, revealing a visited pair's source adds nothing, provided the table maps it to an already visited transition or not at all |
| Graph.Resolve | src/main.rs:578-584 | a transition resolves to its table entry, or to itself when unmapped |
| Graph.TargetRoomSpec | src/main.rs:578-584 | a resolved destination names no room iff it has no `[`. Otherwise the room is the `get_transition_info` room part, has no `[`, and prefixes the destination before a `[` |
| Graph.Edges | src/main.rs:659-675 | the hop set holds `(a, b)` exactly when room `a` has a revealed transition whose resolved destination lies in room `b` |
| Graph.SuccessorsMember | src/main.rs:657-677 | one expansion adds exactly the rooms one hop from a room of the snapshot |
| Graph.Rounds | src/main.rs:653-679 | the expansion always contains the starting room |
| Graph.RenderRooms | src/main.rs:653-679 | the render set contains the current room, and with depth 0 is just that room |
| Graph.RoundsSound | src/main.rs:653-679 | every room of the render set is reachable from the current room in at most `depth` revealed hops |
| Graph.RoundsComplete | src/main.rs:653-679 | every room reachable in at most `depth` revealed hops is in the render set |
| Graph.RenderIsReach | src/main.rs:653-679 | the render set is exactly the rooms reachable from the current room in at most `depth` revealed hops |
| Graph.RoundsMonotone | src/main.rs:653-679 | a larger depth never draws fewer rooms |
| Graph.RoundsStable | src/main.rs:653-679 | once every room one hop from a round is already in it, no larger depth draws any other room |
| PathFinder.Hops | src/main.rs:573-597 | the hop set holds `(a, t, b)` exactly when `t` is a revealed transition of room `a` whose resolved destination lies in the known room `b` |
| PathFinder.SelectNearest | src/main.rs:541-551 | `min_by` over the reached unvisited rooms: none exactly when none is reached; otherwise the first of those at minimum distance |
| PathFinder.RemoveAt | src/main.rs:553 | `Vec::remove` leaves every other room, once each |
| PathFinder.Reconstruct | src/main.rs:556-566 | following the recorded transitions back from `dst` and reversing gives a path from `src` to `dst` whose length is the distance of `dst` |
| PathFinder.Exhausted | src/main.rs:541-552 | when no unvisited room has a distance, no path reaches `dst` |
| PathFinder.SettledIsShortest | src/main.rs:553-567 | when `dst` is the nearest reached room, no path to it is shorter than its distance |
| PathFinder.RelaxStep | src/main.rs:573-598 | relaxing one transition of the settled room keeps the search invariant |
| PathFinder.Relax | src/main.rs:573-598 | a relaxation changes nothing unless the transition is revealed and leads into an unvisited room not yet reached more cheaply; then it sets that room's distance and records the transition |
| PathFinder.Search | src/main.rs:534-602 | the search finds a path exactly when one exists, and the path it returns is a shortest one |
| PathFinder.FindPath | src/main.rs:532-603 | `None` when unloaded. Otherwise `Some` exactly when a revealed path exists, and the returned transitions chain from `src` to `dst` with the minimum hop count |
| PathFinder.UnknownSourceHasNoPath | src/main.rs:537-552 | an unknown start room has no path, so the search returns `None` |
| PathFinder.SelfPathEmpty | src/main.rs:553-567 | from a known room to itself, the shortest path is empty |
| Layout.Elapsed | src/main.rs:305-307 | `saturating_duration_since` is the time since the last change, or 0 if the clock is behind it |
| Layout.RoughFactor | src/main.rs:304-311 | the factor lies in [0, 1]. It is 1 at half a second and 0 from one and a half seconds on |
| Layout.RoughFactorPeak | src/main.rs:304-311 | the factor rises up to half a second and falls after |
| Layout.Ramp | src/main.rs:376-377 | a ramp factor lies in [0, 0.5]. It is 0 within the threshold distance and 0.5 from 1.5 times it |
| Layout.Gates | src/main.rs:371-402 | each gate is in [0, 0.5] or exactly 2.0. For a facing pair the perpendicular axis gets 2.0, and the gated axis gets 2.0 exactly on the wrong side and 0 within 200. Any other pair gets at most 0.5 on both axes, and 0 within 400 |
| Layout.AlignOffsetAligns | src/main.rs:365-369 | moving the room by `(dx, dy)` lines the two transitions up exactly |
| Layout.AlignPull | src/main.rs:361-405 | each axis of an alignment term points the way of `(dx, dy)` and is at most 0.81 of it, so it never overshoots |
| Layout.AlignTermToward | src/main.rs:333-407 | a transition's alignment term is non-zero only when the transition is revealed and its resolved destination is a transition of another room that has a position; it then pulls each axis toward lining the two transitions up, by at most 0.81 of the gap |
| Layout.PullAxis | src/main.rs:404-405 | `d * strength * gate` has the sign of `d` and at most 0.81 of its size |
| Layout.UnrevealedNoPull | src/main.rs:333-407 | the summed alignment pull (`AlignSum`, the loop over the room's transitions) is zero when none of them is revealed, whatever the iteration order |
| Layout.OverlapVanishesAtPeak | src/main.rs:415-478 | at rough factor 1 every overlap push is multiplied by 0, so the overlap sum is zero |
| Layout.MoveAtPeak | src/main.rs:333-478 | at rough factor 1 a room's move is its alignment pull alone, and a room with no revealed transition does not move |
| Layout.Settle | src/main.rs:480-482 | the new coordinate lies in [-1000, 1000]. From a position in range it moved at most 100 and in the direction of the move, and exactly by the move when that stays in range |
| Layout.StepKey | src/main.rs:316-483 | one loop step changes only the position of its key: the current room goes to (0, 0), a dragged selected room or a room unknown to the map stays, and any other room ends in range, within 100 per axis of a start in range |
| Layout.TickKeys | src/main.rs:314-484 | the loop over the key snapshot changes only room positions, keeps the key set, and leaves keys outside the snapshot alone |
| Layout.TickOutcome | src/main.rs:314-484 | every key of a duplicate-free snapshot ends as its own step dictates, measured from its position before the tick, although later keys read updated positions |
| Layout.UpdateRoomPositions | src/main.rs:302-486 | a no-op when unloaded. When loaded, only room positions change, no key is added or removed, and every key ends as its step dictates |
| Layout.PinnedAndDragged | src/main.rs:317-322 | after a tick, the current room (when it has a position) is at (0, 0), and a dragged selected room has not moved |
| Layout.RegisterRendered | src/main.rs:693-704 | every rendered room of the map without a position gets one at the origin, existing positions stay, and nothing else is added |
| Layout.RegisterAbsorbs | src/main.rs:693-704 | registering a larger set of rooms first absorbs any later registration of a subset, so registering twice is registering once |

## Left out

- JSON decoding (`load_mapdata`, the `TryFrom<&JsonValue>` impls, field
  extraction with `expect`) goes through a foreign crate. The model takes
  decoded `MapData`, `SaveData` and `Message` values.
- The websocket thread, its channels and shutdown are I/O and concurrency.
- The `asset` message, with its base64 and image decoding, is foreign
  library code. It is modelled as a message that leaves the state alone; the
  asset cache is not modelled.
- `getItem`, unknown message types and the missing-type case only print. They
  are modelled as no-ops.
- The `hk_ver` read and every `println!` are logging.
- Rendering (`Room::draw`, the rest of `MainState::draw`, colour helpers,
  `Into<DrawParam>`) is the graphics API.
- Mouse handlers, egui and settings are input plumbing. The render `depth` is
  a parameter.
- `get_room_at_window_position` depends on the window size and on the hash-map
  iteration order of the draw pass.
- `MainState::update` composes `on_message`, `update_room_positions` and
  `LoadedState::update`. Its parts are modelled, but the composition is not:
  the layout's key snapshot is an iteration order of the positions after the
  message, and it is a parameter here.
- `Layout.OverlapSum`: the overlap geometry uses the graphics library's
  `Rect::overlaps` and `Rect::center`, which are not part of this model. The
  close and wide overlap pushes of two placed rooms are an arbitrary function
  parameter `push`. The model keeps the `(1 - rough)` factor, the rooms it
  ranges over (every other room with a position) and the in-place reads.
- `Layout.UpdateRoomPositions`: no convergence is claimed. The layout
  oscillates, and the properties are per-tick bounds.
- IEEE `f32` rounding, NaN, the trigonometry of `rotate` (a rotation is given
  by its cosine and sine) and the integer casts of `transform_int` are not
  modelled.
- `TransformStacks.InvTransform` computes the inverse of the 2-D affine part.
  Besides that part, the top holds only a z scale (1, or 0 after `scale`), so
  a zero determinant stands exactly for `try_inverse` failing.
- `PathFinder.FindPath` proves the length of the returned path minimal, but
  not which of several shortest paths is returned. That choice depends on
  the rooms' iteration order.
