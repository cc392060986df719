/** Loading a save and the state-changing messages of the websocket feed.
    The JSON payloads are taken as already decoded: the transition placements
    and the visited-transition pairs as sequences of string pairs in document
    order. */
module Session {
  import opened Basics
  import opened TransitionId
  import opened Rooms
  import opened Data
  import opened GameStates

  /** The value the last pair with source `q` carries, if any. */
  function LastValue(pairs: seq<(string, string)>, q: string): (r: Option<string>)
    ensures r.None? <==> forall i :: 0 <= i < |pairs| ==> pairs[i].0 != q
    ensures r.Some? ==> (q, r.value) in pairs
    decreases |pairs|
  {
    if |pairs| == 0 then None
    else if pairs[|pairs| - 1].0 == q then Some(pairs[|pairs| - 1].1)
    else
      var r := LastValue(pairs[..|pairs| - 1], q);
      assert forall i :: 0 <= i < |pairs| - 1 ==> pairs[..|pairs| - 1][i] == pairs[i];
      r
  }

  /** The last pair with source `q` is the one whose value counts. */
  lemma {:induction false} LastValueLast(pairs: seq<(string, string)>, i: nat)
    requires i < |pairs|
    requires forall j :: i < j < |pairs| ==> pairs[j].0 != pairs[i].0
    ensures LastValue(pairs, pairs[i].0) == Some(pairs[i].1)
    decreases |pairs|
  {
    if i < |pairs| - 1 {
      var front := pairs[..|pairs| - 1];
      assert front[i] == pairs[i];
      LastValueLast(front, i);
    }
  }

  /** `HashMap::insert` for every pair in order: later pairs win. */
  function InsertAll(m: map<string, string>, pairs: seq<(string, string)>): (r: map<string, string>)
    ensures forall q :: q in r <==> q in m || LastValue(pairs, q).Some?
    ensures forall q :: q in r ==> r[q] == (if LastValue(pairs, q).Some? then LastValue(pairs, q).value else m[q])
    decreases |pairs|
  {
    if |pairs| == 0 then m
    else InsertAll(m, pairs[..|pairs| - 1])[pairs[|pairs| - 1].0 := pairs[|pairs| - 1].1]
  }

  /** Room `id` has a transition `k` whose vanilla destination is `to`. */
  ghost predicate IsVanilla(rooms: map<string, Room>, id: string, k: string, to: string)
  {
    id in rooms && k in rooms[id].transitions && rooms[id].transitions[k].to == Some(to)
  }

  /** The vanilla `(room[tr], to)` entries of one room, in `order`. */
  function RoomVanilla(rooms: map<string, Room>, id: string, order: seq<string>): (r: seq<(string, string)>)
    requires id in rooms
    ensures forall e :: e in r ==> exists k :: IsVanilla(rooms, id, k, e.1) && e.0 == Qualify(id, k)
    ensures forall k :: k in order && k in rooms[id].transitions && rooms[id].transitions[k].to.Some? ==>
      (Qualify(id, k), rooms[id].transitions[k].to.value) in r
    decreases |order|
  {
    if |order| == 0 then []
    else
      var k := order[0];
      var rest := RoomVanilla(rooms, id, order[1..]);
      assert forall k' :: k' in order && k' != k ==> k' in order[1..];
      var trs := rooms[id].transitions;
      if k in trs && trs[k].to.Some? then
        assert IsVanilla(rooms, id, k, trs[k].to.value);
        [(Qualify(id, k), trs[k].to.value)] + rest
      else rest
  }

  /** The vanilla entries of every room, rooms in `order`. */
  function WorldVanilla(rooms: map<string, Room>, order: seq<string>): (r: seq<(string, string)>)
    requires forall id :: id in rooms ==> rooms[id].Valid()
    ensures forall e :: e in r ==> exists id, k :: IsVanilla(rooms, id, k, e.1) && e.0 == Qualify(id, k)
    ensures forall id, k, to :: id in order && IsVanilla(rooms, id, k, to) ==> (Qualify(id, k), to) in r
    decreases |order|
  {
    if |order| == 0 then []
    else
      var id := order[0];
      var rest := WorldVanilla(rooms, order[1..]);
      assert forall id' :: id' in order && id' != id ==> id' in order[1..];
      if id in rooms then
        var here := RoomVanilla(rooms, id, rooms[id].transitionOrder);
        assert forall e :: e in here + rest ==> e in here || e in rest;
        here + rest
      else rest
  }

  /** Every end of every pair, and nothing else. */
  function VisitedSet(pairs: seq<(string, string)>): (r: set<string>)
    ensures forall s :: s in r <==> exists i :: 0 <= i < |pairs| && (pairs[i].0 == s || pairs[i].1 == s)
    decreases |pairs|
  {
    if |pairs| == 0 then {}
    else
      var r := VisitedSet(pairs[..|pairs| - 1]) + {pairs[|pairs| - 1].0, pairs[|pairs| - 1].1};
      assert forall i :: 0 <= i < |pairs| - 1 ==> pairs[..|pairs| - 1][i] == pairs[i];
      r
  }

  /** The decoded save: `transitionPlacements` as (source, target) names,
      `TrackerData.visitedTransitions` as (key, value) entries, and the start
      scene. */
  datatype SaveData = SaveData(
    placements: seq<(string, string)>,
    visitedPairs: seq<(string, string)>,
    startScene: string)

  /** The transition table of a save: vanilla destinations overlaid with the
      randomizer placements. */
  function TransitionTable(world: MapData, save: SaveData): (r: map<string, string>)
    requires world.Valid()
    ensures forall q :: q in r ==>
      (q, r[q]) in save.placements || (q, r[q]) in WorldVanilla(world.rooms, world.roomOrder)
    ensures forall j :: 0 <= j < |save.placements| ==> save.placements[j].0 in r
  {
    InsertAll(InsertAll(map[], WorldVanilla(world.rooms, world.roomOrder)), save.placements)
  }

  /** `load_save`: the loaded state of a fresh save. */
  function LoadSave(world: MapData, save: SaveData): (st: LoadedState)
    requires world.Valid()
    ensures st.currentRoom == save.startScene
    ensures st.playerX == 0.0 && st.playerY == 0.0
    ensures st.randoData.roomPositions == map[]
    ensures st.camera == Camera(0.0, 0.0, Player)
    ensures st.hoveredRoom.None? && st.selectedRoom.None? && !st.draggingRoom
    ensures forall i :: 0 <= i < |save.visitedPairs| ==>
      save.visitedPairs[i].0 in st.randoData.visitedTransitions &&
      save.visitedPairs[i].1 in st.randoData.visitedTransitions
    ensures forall s :: s in st.randoData.visitedTransitions ==>
      exists i :: 0 <= i < |save.visitedPairs| && (save.visitedPairs[i].0 == s || save.visitedPairs[i].1 == s)
  {
    LoadedState(
      save.startScene, 0.0, 0.0,
      RandoData(TransitionTable(world, save), VisitedSet(save.visitedPairs), map[]),
      Camera(0.0, 0.0, Player), None, None, false)
  }

  /** A placement is the final word for its source: the last placement of a
      source id is its destination, whatever the vanilla table said. */
  lemma PlacementOverridesVanilla(world: MapData, save: SaveData, i: nat)
    requires world.Valid()
    requires i < |save.placements|
    requires forall j :: i < j < |save.placements| ==> save.placements[j].0 != save.placements[i].0
    ensures var tm := LoadSave(world, save).randoData.transitionMap;
      save.placements[i].0 in tm && tm[save.placements[i].0] == save.placements[i].1
  {
    LastValueLast(save.placements, i);
  }

  /** A transition that no placement mentions keeps its vanilla destination. */
  lemma VanillaSurvives(world: MapData, save: SaveData, id: string, k: string, to: string)
    requires world.Valid()
    requires IsVanilla(world.rooms, id, k, to)
    requires forall j :: 0 <= j < |save.placements| ==> save.placements[j].0 != Qualify(id, k)
    ensures var tm := LoadSave(world, save).randoData.transitionMap;
      Qualify(id, k) in tm && tm[Qualify(id, k)] == to
  {
    VanillaValue(world, id, k, to);
    assert LastValue(save.placements, Qualify(id, k)).None?;
  }

  /** The vanilla table maps a qualified transition to its vanilla destination. */
  lemma VanillaValue(world: MapData, id: string, k: string, to: string)
    requires world.Valid()
    requires IsVanilla(world.rooms, id, k, to)
    ensures LastValue(WorldVanilla(world.rooms, world.roomOrder), Qualify(id, k)) == Some(to)
  {
    var q := Qualify(id, k);
    var van := WorldVanilla(world.rooms, world.roomOrder);
    forall e | e in van && e.0 == q
      ensures e.1 == to
    {
      var id', k' :| IsVanilla(world.rooms, id', k', e.1) && e.0 == Qualify(id', k');
      QualifyInjective(id, k, id', k');
    }
    LastValueOfKeyed(van, q, to);
  }

  /** When every pair with source `q` carries `v`, and one does, the last one does. */
  lemma LastValueOfKeyed(pairs: seq<(string, string)>, q: string, v: string)
    requires (q, v) in pairs
    requires forall e :: e in pairs && e.0 == q ==> e.1 == v
    ensures LastValue(pairs, q) == Some(v)
  {
    var n :| 0 <= n < |pairs| && pairs[n] == (q, v);
  }

  /** A vanilla entry exists for `q` exactly when `q` names a transition with
      a vanilla destination. */
  lemma VanillaKeys(world: MapData, q: string)
    requires world.Valid()
    ensures LastValue(WorldVanilla(world.rooms, world.roomOrder), q).Some? <==>
      exists id, k, to :: IsVanilla(world.rooms, id, k, to) && q == Qualify(id, k)
  {
    var van := WorldVanilla(world.rooms, world.roomOrder);
    if exists id, k, to :: IsVanilla(world.rooms, id, k, to) && q == Qualify(id, k) {
      var id, k, to :| IsVanilla(world.rooms, id, k, to) && q == Qualify(id, k);
      VanillaValue(world, id, k, to);
    }
  }

  /** The table's keys are exactly the qualified vanilla transitions that have
      a destination and the placement sources. */
  lemma TableKeys(world: MapData, save: SaveData, q: string)
    requires world.Valid()
    ensures q in LoadSave(world, save).randoData.transitionMap <==>
      (exists id, k, to :: IsVanilla(world.rooms, id, k, to) && q == Qualify(id, k)) ||
      (exists j :: 0 <= j < |save.placements| && save.placements[j].0 == q)
  {
    VanillaKeys(world, q);
  }

  /** The feed's messages that reach the state, decoded. Field-extraction
      failures are outside the model. */
  datatype Message =
    | LoadSaveMsg(save: SaveData)
    | UnloadSave
    | PlayerMove(newRoom: string, x: real, y: real)
    | PlayerPos(x: real, y: real)
    | RevealTransition(to: string)
    | GetItem(item: string, location: string)
    | Asset(name: string)
    | Unimplemented(kind: string)
    | MissingType

  /** The viewer's state: the game state and the instant (in seconds) of the
      last room change. */
  datatype Viewer = Viewer(game: GameState, lastTransitionTime: real)

  /** `revealTransition`: mark `to` and, when it is mapped, its destination. */
  function Reveal(game: GameState, to: string): (r: GameState)
    ensures game.Unloaded? ==> r == game
    ensures game.Loaded? ==> (
      && r.Loaded?
      && r.state == game.state.(randoData := r.state.randoData)
      && r.state.randoData.transitionMap == game.state.randoData.transitionMap
      && r.state.randoData.roomPositions == game.state.randoData.roomPositions
      && game.state.randoData.visitedTransitions <= r.state.randoData.visitedTransitions
      && (forall s :: s in r.state.randoData.visitedTransitions <==>
            || s in game.state.randoData.visitedTransitions
            || s == to
            || (to in game.state.randoData.transitionMap && s == game.state.randoData.transitionMap[to])))
  {
    match game
    case Unloaded => Unloaded
    case Loaded(st) =>
      var rd := st.randoData;
      var seen := rd.visitedTransitions + {to};
      var seen' := if to in rd.transitionMap then seen + {rd.transitionMap[to]} else seen;
      Loaded(st.(randoData := rd.(visitedTransitions := seen')))
  }

  /** `on_message`, for the branches that touch the state. `now` is the clock
      reading taken by `playerMove`. */
  function OnMessage(world: MapData, v: Viewer, msg: Message, now: real): (r: Viewer)
    requires world.Valid()
    ensures msg.LoadSaveMsg? ==>
      r.game.Loaded? && r.game.state.currentRoom == msg.save.startScene && r.game.state.randoData.roomPositions == map[]
    ensures msg.UnloadSave? ==> r.game.Unloaded?
    ensures (msg.GetItem? || msg.Asset? || msg.Unimplemented? || msg.MissingType?) ==> r == v
    ensures v.game.Unloaded? && !msg.LoadSaveMsg? ==> r == v
    ensures r.lastTransitionTime != v.lastTransitionTime ==>
      msg.PlayerMove? && v.game.Loaded? && r.lastTransitionTime == now
    ensures msg.PlayerPos? && v.game.Loaded? ==>
      && r.game.Loaded? && r.game.state.playerX == msg.x && r.game.state.playerY == msg.y
      && r.game.state.(playerX := v.game.state.playerX, playerY := v.game.state.playerY) == v.game.state
    ensures msg.RevealTransition? ==> r.game.Unloaded? == v.game.Unloaded?
  {
    match msg
    case LoadSaveMsg(save) => Viewer(Loaded(LoadSave(world, save)), v.lastTransitionTime)
    case UnloadSave => Viewer(Unloaded, v.lastTransitionTime)
    case PlayerMove(room, x, y) =>
      if v.game.Loaded? then
        var st := v.game.state;
        Viewer(Loaded(st.(currentRoom := room, playerX := x, playerY := y,
                          randoData := st.randoData.(roomPositions := map[]))), now)
      else v
    case PlayerPos(x, y) =>
      if v.game.Loaded? then Viewer(Loaded(v.game.state.(playerX := x, playerY := y)), v.lastTransitionTime)
      else v
    case RevealTransition(to) => v.(game := Reveal(v.game, to))
    case GetItem(_, _) => v
    case Asset(_) => v
    case Unimplemented(_) => v
    case MissingType => v
  }

  /** While no save is loaded, only `loadSave` has any effect. */
  lemma UnloadedIgnores(world: MapData, v: Viewer, msg: Message, now: real)
    requires world.Valid()
    requires v.game.Unloaded?
    ensures OnMessage(world, v, msg, now) == v <==> !msg.LoadSaveMsg?
  {
  }

  /** A room change records the new room and position, forgets every room
      position and restarts the transition clock; the transition table and
      visited set are kept. */
  lemma PlayerMoveEffect(world: MapData, v: Viewer, room: string, x: real, y: real, now: real)
    requires world.Valid()
    requires v.game.Loaded?
    ensures var r := OnMessage(world, v, PlayerMove(room, x, y), now);
      && r.game.Loaded?
      && r.game.state.currentRoom == room
      && r.game.state.playerX == x && r.game.state.playerY == y
      && r.game.state.randoData.roomPositions == map[]
      && r.game.state.randoData.transitionMap == v.game.state.randoData.transitionMap
      && r.game.state.randoData.visitedTransitions == v.game.state.randoData.visitedTransitions
      && r.game.state.(currentRoom := v.game.state.currentRoom, playerX := v.game.state.playerX,
                       playerY := v.game.state.playerY, randoData := v.game.state.randoData) == v.game.state
      && r.lastTransitionTime == now
  {
  }

  /** Revealing twice is revealing once. */
  lemma RevealIdempotent(game: GameState, to: string)
    ensures Reveal(Reveal(game, to), to) == Reveal(game, to)
  {
    if game.Loaded? {
      var a := Reveal(game, to).state.randoData.visitedTransitions;
      var b := Reveal(Reveal(game, to), to).state.randoData.visitedTransitions;
      assert a == b;
    }
  }

  /** The order of two reveals does not matter. */
  lemma RevealCommutes(game: GameState, a: string, b: string)
    ensures Reveal(Reveal(game, a), b) == Reveal(Reveal(game, b), a)
  {
    if game.Loaded? {
      var x := Reveal(Reveal(game, a), b).state.randoData.visitedTransitions;
      var y := Reveal(Reveal(game, b), a).state.randoData.visitedTransitions;
      assert x == y;
    }
  }

  /** Loading a save and revealing a visited pair's key adds nothing new. */
  lemma RevealVisitedKeepsSet(world: MapData, save: SaveData, i: nat)
    requires world.Valid()
    requires i < |save.visitedPairs|
    requires save.visitedPairs[i].0 !in TransitionTable(world, save) ||
      TransitionTable(world, save)[save.visitedPairs[i].0] in VisitedSet(save.visitedPairs)
    ensures Reveal(Loaded(LoadSave(world, save)), save.visitedPairs[i].0) == Loaded(LoadSave(world, save))
  {
    var st := LoadSave(world, save);
    var r := Reveal(Loaded(st), save.visitedPairs[i].0).state.randoData.visitedTransitions;
    assert r == st.randoData.visitedTransitions;
  }
}
