/** The session state of a loaded save and the camera that follows the
    player, a room or a fixed point. */
module GameStates {
  import opened Basics
  import opened Rooms
  import opened Data

  datatype CameraTarget = PointTarget(px: real, py: real) | RoomTarget(room: string) | Player | PlayerRoom

  datatype Camera = Camera(x: real, y: real, target: CameraTarget)

  datatype LoadedState = LoadedState(
    currentRoom: string,
    playerX: real,
    playerY: real,
    randoData: RandoData,
    camera: Camera,
    hoveredRoom: Option<string>,
    selectedRoom: Option<string>,
    draggingRoom: bool)

  datatype GameState = Unloaded | Loaded(state: LoadedState)

  /** The point the camera heads for this frame, and its next target. A room
      target without a recorded position falls back to following the player's
      room. */
  function Aim(world: MapData, rd: RandoData, playerX: real, playerY: real,
               currentRoom: string, target: CameraTarget): (r: (Vec2, CameraTarget))
    requires world.Valid()
    ensures r.1 == target || (target.RoomTarget? && target.room !in rd.roomPositions && r == (Origin, PlayerRoom))
    ensures target.PointTarget? ==> r.0 == Vec2(target.px, target.py)
  {
    match target
    case PointTarget(x, y) => (Vec2(x, y), target)
    case RoomTarget(room) =>
      if room in rd.roomPositions then (rd.roomPositions[room], target)
      else (Origin, PlayerRoom)
    case Player =>
      if currentRoom in rd.roomPositions then
        var pos := rd.roomPositions[currentRoom];
        if currentRoom in world.rooms then
          var bounds := CalcBounds(world.rooms[currentRoom]);
          (Vec2(pos.x + playerX, pos.y - playerY + bounds.h), target)
        else
          (Vec2(pos.x + playerX, pos.y - playerY), target)
      else
        (Vec2(playerX, playerY), target)
    case PlayerRoom =>
      if currentRoom in rd.roomPositions then (rd.roomPositions[currentRoom], target)
      else (Origin, target)
  }

  /** One axis of the camera's approach: 1/8 of the remaining distance. */
  function Approach(cur: real, aim: real): (r: real)
    ensures r - cur == (aim - cur) / 8.0
    ensures cur <= aim ==> cur <= r <= aim
    ensures aim <= cur ==> aim <= r <= cur
    ensures r == cur <==> cur == aim
  {
    cur + (aim - cur) * 0.125
  }

  /** `Camera::update`. */
  function UpdateCamera(cam: Camera, world: MapData, rd: RandoData, playerX: real, playerY: real,
                        currentRoom: string): (r: Camera)
    requires world.Valid()
    ensures var (aim, next) := Aim(world, rd, playerX, playerY, currentRoom, cam.target);
      && r.target == next
      && r.x - cam.x == (aim.x - cam.x) / 8.0
      && r.y - cam.y == (aim.y - cam.y) / 8.0
  {
    var (aim, next) := Aim(world, rd, playerX, playerY, currentRoom, cam.target);
    Camera(Approach(cam.x, aim.x), Approach(cam.y, aim.y), next)
  }

  /** `LoadedState::update`: only the camera changes. */
  function UpdateLoaded(world: MapData, st: LoadedState): (r: LoadedState)
    requires world.Valid()
    ensures r.(camera := st.camera) == st
    ensures r.camera == UpdateCamera(st.camera, world, st.randoData, st.playerX, st.playerY, st.currentRoom)
  {
    st.(camera := UpdateCamera(st.camera, world, st.randoData, st.playerX, st.playerY, st.currentRoom))
  }

  /** The target changes only when a room target has no recorded position, and
      then it becomes `PlayerRoom` aimed at the origin. */
  lemma TargetChangesOnlyOnMissingRoom(world: MapData, rd: RandoData, playerX: real, playerY: real,
                                       currentRoom: string, target: CameraTarget)
    requires world.Valid()
    ensures var (aim, next) := Aim(world, rd, playerX, playerY, currentRoom, target);
      next != target <==> target.RoomTarget? && target.room !in rd.roomPositions
    ensures target.RoomTarget? && target.room !in rd.roomPositions ==>
      Aim(world, rd, playerX, playerY, currentRoom, target) == (Origin, PlayerRoom)
    ensures target.RoomTarget? && target.room in rd.roomPositions ==>
      Aim(world, rd, playerX, playerY, currentRoom, target) == (rd.roomPositions[target.room], target)
  {
  }

  /** What the `Player` target aims at in each case. */
  lemma PlayerAim(world: MapData, rd: RandoData, playerX: real, playerY: real, currentRoom: string)
    requires world.Valid()
    ensures var aim := Aim(world, rd, playerX, playerY, currentRoom, Player).0;
      && (currentRoom !in rd.roomPositions ==> aim == Vec2(playerX, playerY))
      && (currentRoom in rd.roomPositions && currentRoom !in world.rooms ==>
            aim == Vec2(rd.roomPositions[currentRoom].x + playerX, rd.roomPositions[currentRoom].y - playerY))
      && (currentRoom in rd.roomPositions && currentRoom in world.rooms ==>
            aim == Vec2(rd.roomPositions[currentRoom].x + playerX,
                        rd.roomPositions[currentRoom].y - playerY + CalcBounds(world.rooms[currentRoom]).h))
  {
  }

  /** The `PlayerRoom` target aims at the current room's position, else the origin. */
  lemma PlayerRoomAim(world: MapData, rd: RandoData, playerX: real, playerY: real, currentRoom: string)
    requires world.Valid()
    ensures Aim(world, rd, playerX, playerY, currentRoom, PlayerRoom).0 ==
      (if currentRoom in rd.roomPositions then rd.roomPositions[currentRoom] else Origin)
  {
  }

  function Pow78(n: nat): real
  {
    if n == 0 then 1.0 else Pow78(n - 1) * 0.875
  }

  /** `n` approach steps toward a fixed aim. */
  function ApproachN(cur: real, aim: real, n: nat): real
  {
    if n == 0 then cur else Approach(ApproachN(cur, aim, n - 1), aim)
  }

  /** With a fixed aim the remaining distance shrinks by the factor 7/8 per
      frame. */
  lemma {:induction false} ApproachGeometric(cur: real, aim: real, n: nat)
    ensures aim - ApproachN(cur, aim, n) == (aim - cur) * Pow78(n)
  {
    if n > 0 {
      ApproachGeometric(cur, aim, n - 1);
      var prev := ApproachN(cur, aim, n - 1);
      assert aim - Approach(prev, aim) == (aim - prev) * 0.875;
      assert (aim - cur) * Pow78(n - 1) * 0.875 == (aim - cur) * (Pow78(n - 1) * 0.875);
    }
  }
}
