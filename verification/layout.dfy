/** `update_room_positions`: one tick of the force layout that places the
    rooms of the map. Each room is pulled so that its revealed transitions
    line up with their destinations and pushed away from overlapping rooms;
    the current room is pinned to the origin and a room being dragged stays
    where it is. */
module Layout {
  import opened Basics
  import opened TransitionId
  import opened Geometry
  import opened Rooms
  import opened Data
  import opened GameStates
  import opened Graph

  function Add(a: Vec2, b: Vec2): Vec2
  {
    Vec2(a.x + b.x, a.y + b.y)
  }

  function Scale(a: Vec2, f: real): Vec2
  {
    Vec2(a.x * f, a.y * f)
  }

  /** `Instant::saturating_duration_since`, in seconds. */
  function Elapsed(now: real, last: real): (r: real)
    ensures r >= 0.0
    ensures last <= now ==> r == now - last
    ensures now <= last ==> r == 0.0
  {
    if now >= last then now - last else 0.0
  }

  /** How "rough" the layout is `elapsed` seconds after the last room change:
      one at half a second, falling off quadratically to zero one second
      either side of that peak. */
  function RoughFactor(elapsed: real): (r: real)
    ensures 0.0 <= r <= 1.0
    ensures elapsed == 0.5 ==> r == 1.0
    ensures elapsed <= -0.5 || 1.5 <= elapsed ==> r == 0.0
  {
    1.0 - Clamp((elapsed - 0.5) * (elapsed - 0.5), 0.0, 1.0)
  }

  /** The factor rises until half a second has passed and falls after. */
  lemma RoughFactorPeak(a: real, b: real)
    requires a <= b
    ensures b <= 0.5 ==> RoughFactor(a) <= RoughFactor(b)
    ensures 0.5 <= a ==> RoughFactor(b) <= RoughFactor(a)
  {
    var p := a - 0.5;
    var q := b - 0.5;
    if q <= 0.0 {
      SquareMonotone(-q, -p);
      assert q * q <= p * p;
    }
    if 0.0 <= p {
      SquareMonotone(p, q);
    }
  }

  lemma MulLe(x: real, y: real, z: real)
    requires x <= y && 0.0 <= z
    ensures x * z <= y * z
  {
  }

  lemma MulLt(x: real, y: real, z: real)
    requires x < y && 0.0 < z
    ensures x * z < y * z
  {
  }

  lemma SquareMonotone(a: real, b: real)
    requires 0.0 <= a <= b
    ensures a * a <= b * b
  {
    MulLe(a, b, a);
    MulLe(a, b, b);
  }

  /** Sign facts about `a / s` for positive `s`. */
  lemma DivBounds(a: real, s: real)
    requires s > 0.0
    ensures a <= 0.0 ==> a / s <= 0.0
    ensures a >= 0.5 * s ==> a / s >= 0.5
  {
    var q := a / s;
    var half := 0.5;
    assert q * s == a;
    if a <= 0.0 && q > 0.0 {
      MulLt(0.0, q, s);
      assert false;
    }
    if a >= half * s && q < half {
      MulLt(q, half, s);
      assert false;
    }
  }

  /** A gate factor of the alignment pull: a ramp in [0, 0.5] or the full 2.0. */
  predicate GateValue(g: real)
  {
    0.0 <= g <= 0.5 || g == 2.0
  }

  /** The ramp `((|d| - s) / s).clamp(0, 0.5)`: nothing within `s`, half
      strength from `1.5 s` on. */
  function Ramp(d: real, s: real): (r: real)
    requires s > 0.0
    ensures 0.0 <= r <= 0.5
    ensures Abs(d) <= s ==> r == 0.0
    ensures 1.5 * s <= Abs(d) ==> r == 0.5
  {
    DivBounds(Abs(d) - s, s);
    Clamp((Abs(d) - s) / s, 0.0, 0.5)
  }

  /** The two transitions face each other left/right. */
  predicate Horizontal(k: string, toK: string)
  {
    (StartsWith(k, "right") && StartsWith(toK, "left")) || (StartsWith(k, "left") && StartsWith(toK, "right"))
  }

  /** The two transitions face each other top/bottom. */
  predicate Vertical(k: string, toK: string)
  {
    (StartsWith(k, "top") && StartsWith(toK, "bot")) || (StartsWith(k, "bot") && StartsWith(toK, "top"))
  }

  /** The destination lies on the wrong side of a horizontal transition. */
  predicate WrongSideX(k: string, dx: real)
  {
    (StartsWith(k, "right") && dx < 0.0) || (StartsWith(k, "left") && dx > 0.0)
  }

  /** The destination lies on the wrong side of a vertical transition. */
  predicate WrongSideY(k: string, dy: real)
  {
    (StartsWith(k, "top") && dy > 0.0) || (StartsWith(k, "bot") && dy < 0.0)
  }

  /** The per-axis gate factors of the alignment pull through transition `k`
      of this room to transition `toK` of the destination. */
  function Gates(k: string, toK: string, dx: real, dy: real): (r: (real, real))
    ensures GateValue(r.0) && GateValue(r.1)
    ensures Horizontal(k, toK) ==> r.1 == 2.0
    ensures Horizontal(k, toK) ==> (r.0 == 2.0 <==> WrongSideX(k, dx))
    ensures Horizontal(k, toK) && !WrongSideX(k, dx) && Abs(dx) <= 200.0 ==> r.0 == 0.0
    ensures !Horizontal(k, toK) && Vertical(k, toK) ==> r.0 == 2.0
    ensures !Horizontal(k, toK) && Vertical(k, toK) ==> (r.1 == 2.0 <==> WrongSideY(k, dy))
    ensures !Horizontal(k, toK) && Vertical(k, toK) && !WrongSideY(k, dy) && Abs(dy) <= 200.0 ==> r.1 == 0.0
    ensures !Horizontal(k, toK) && !Vertical(k, toK) ==> r.0 <= 0.5 && r.1 <= 0.5
    ensures !Horizontal(k, toK) && !Vertical(k, toK) ==>
      (Abs(dx) <= 400.0 ==> r.0 == 0.0) && (Abs(dy) <= 400.0 ==> r.1 == 0.0)
  {
    if Horizontal(k, toK) then
      (if WrongSideX(k, dx) then 2.0 else Ramp(dx, 200.0), 2.0)
    else if Vertical(k, toK) then
      (2.0, if WrongSideY(k, dy) then 2.0 else Ramp(dy, 200.0))
    else
      (Ramp(dx, 400.0), Ramp(dy, 400.0))
  }

  /** The shift of this room (at `here`) that would put the point of its
      transition `tr` onto the point of the destination transition `toTr` of
      the room at `there`. Transition `y` is measured up from the bottom of
      the room's bounds. */
  function AlignOffset(here: Vec2, there: Vec2, bounds: Rect, toBounds: Rect,
                       tr: Transition, toTr: Transition): Vec2
  {
    Vec2((-tr.x + toTr.x) - here.x + there.x,
         (-(bounds.h - tr.y) + (toBounds.h - toTr.y)) - here.y + there.y)
  }

  /** Shifting this room by the offset lines the two transitions up exactly. */
  lemma AlignOffsetAligns(here: Vec2, there: Vec2, bounds: Rect, toBounds: Rect,
                          tr: Transition, toTr: Transition)
    ensures AlignOffset(Add(here, AlignOffset(here, there, bounds, toBounds, tr, toTr)),
                        there, bounds, toBounds, tr, toTr) == Origin
  {
  }

  /** Each axis of `v` points the way `off` does and is at most 0.81 of it. */
  predicate PullsToward(v: Vec2, off: Vec2)
  {
    && v.x * off.x >= 0.0 && Abs(v.x) <= 0.81 * Abs(off.x)
    && v.y * off.y >= 0.0 && Abs(v.y) <= 0.81 * Abs(off.y)
  }

  /** One alignment term: the offset, scaled per axis by the strength
      `0.005 + 0.4 * rough` and the gate factor. */
  function AlignPull(here: Vec2, there: Vec2, bounds: Rect, toBounds: Rect,
                     tr: Transition, toTr: Transition, k: string, toK: string, rough: real): (r: Vec2)
    requires 0.0 <= rough <= 1.0
    ensures PullsToward(r, AlignOffset(here, there, bounds, toBounds, tr, toTr))
  {
    var strength := 0.005 + 0.4 * rough;
    assert 0.0 <= 0.4 * rough <= 0.4;
    var off := AlignOffset(here, there, bounds, toBounds, tr, toTr);
    var gates := Gates(k, toK, off.x, off.y);
    Vec2(PullAxis(off.x, strength, gates.0), PullAxis(off.y, strength, gates.1))
  }

  /** One axis of the pull, `d * strength * gate`: it points the way `d`
      does and never overshoots. */
  function PullAxis(d: real, strength: real, gate: real): (r: real)
    requires 0.005 <= strength <= 0.405 && 0.0 <= gate <= 2.0
    ensures r * d >= 0.0
    ensures Abs(r) <= 0.81 * Abs(d)
  {
    PullBound(d, strength, gate);
    d * strength * gate
  }

  /** `d * s * g` has the sign of `d` and at most 0.81 of its size. */
  lemma PullBound(d: real, s: real, g: real)
    requires 0.005 <= s <= 0.405 && 0.0 <= g <= 2.0
    ensures d * s * g * d >= 0.0
    ensures Abs(d * s * g) <= 0.81 * Abs(d)
  {
    var c := s * g;
    GateProduct(s, g, c);
    var p := d * s * g;
    Regroup(d, s, g, c, p);
    SignOfScaled(d, c, p);
    AbsOfScaled(d, c, p);
  }

  /** Strength times gate lies in `[0, 0.81]`. */
  lemma GateProduct(s: real, g: real, c: real)
    requires 0.005 <= s <= 0.405 && 0.0 <= g <= 2.0
    requires c == s * g
    ensures 0.0 <= c <= 0.81
  {
    MulLe(s, 0.405, g);
    assert c <= 0.405 * g;
    assert 0.405 * g <= 0.81;
    MulLe(0.0, s, g);
  }

  lemma Regroup(d: real, s: real, g: real, c: real, p: real)
    requires c == s * g && p == d * s * g
    ensures p == d * c
  {
  }

  /** Scaling by a non-negative factor keeps the sign. */
  lemma SignOfScaled(d: real, c: real, p: real)
    requires 0.0 <= c && p == d * c
    ensures p * d >= 0.0
  {
    if d >= 0.0 {
      MulLe(0.0, d, c);
      MulLe(0.0, p, d);
    } else {
      MulLe(d, 0.0, c);
      MulLe(0.0, -p, -d);
      assert (-p) * (-d) == p * d;
    }
  }

  /** Scaling by a factor of at most 0.81 shrinks to at most 0.81 of the size. */
  lemma AbsOfScaled(d: real, c: real, p: real)
    requires 0.0 <= c <= 0.81 && p == d * c
    ensures Abs(p) <= 0.81 * Abs(d)
  {
    if d >= 0.0 {
      ScaledBelow(c, d, p);
    } else {
      ScaledBelow(c, -d, -p);
    }
  }

  lemma ScaledBelow(c: real, e: real, q: real)
    requires 0.0 <= c <= 0.81 && 0.0 <= e && q == c * e
    ensures 0.0 <= q <= 0.81 * e
  {
    MulLe(c, 0.81, e);
    assert q <= 0.81 * e;
    MulLe(0.0, c, e);
    assert 0.0 * e == 0.0;
  }

  /** The alignment term through transition `k` of room `key` (at `here`):
      zero unless the transition is revealed, its resolved destination names
      another room that has a position, and that room has the named
      transition. Positions are read from `rd` as it is now. */
  function AlignTerm(world: MapData, rd: RandoData, key: string, here: Vec2, bounds: Rect,
                     k: string, rough: real): Vec2
    requires world.Valid() && key in world.rooms && k in world.rooms[key].transitions
    requires 0.0 <= rough <= 1.0
  {
    var t := Qualify(key, k);
    if t !in rd.visitedTransitions then Origin
    else
      match GetTransitionInfo(Resolve(rd, t))
      case None => Origin
      case Some((toRoom, toK)) =>
        if toRoom in rd.roomPositions && toRoom in world.rooms && toRoom != key
           && toK in world.rooms[toRoom].transitions
        then
          AlignPull(here, rd.roomPositions[toRoom], bounds, CalcBounds(world.rooms[toRoom]),
                    world.rooms[key].transitions[k], world.rooms[toRoom].transitions[toK], k, toK, rough)
        else Origin
  }

  /** An alignment term is non-zero only through a revealed transition whose
      resolved destination is a transition of another room that has a
      position, and it then pulls toward lining the two transitions up. */
  lemma AlignTermToward(world: MapData, rd: RandoData, key: string, here: Vec2, bounds: Rect,
                        k: string, rough: real)
    requires world.Valid() && key in world.rooms && k in world.rooms[key].transitions
    requires 0.0 <= rough <= 1.0
    ensures var r := AlignTerm(world, rd, key, here, bounds, k, rough);
      r != Origin ==>
      && Qualify(key, k) in rd.visitedTransitions
      && GetTransitionInfo(Resolve(rd, Qualify(key, k))).Some?
      && var (toRoom, toK) := GetTransitionInfo(Resolve(rd, Qualify(key, k))).value;
      && toRoom in rd.roomPositions && toRoom in world.rooms && toRoom != key
      && toK in world.rooms[toRoom].transitions
      && PullsToward(r, AlignOffset(here, rd.roomPositions[toRoom], bounds, CalcBounds(world.rooms[toRoom]),
                                    world.rooms[key].transitions[k], world.rooms[toRoom].transitions[toK]))
  {
  }

  /** The alignment terms of the transitions in `order`, summed. */
  function AlignSum(world: MapData, rd: RandoData, key: string, here: Vec2, bounds: Rect,
                    order: seq<string>, rough: real): Vec2
    requires world.Valid() && key in world.rooms
    requires forall k :: k in order ==> k in world.rooms[key].transitions
    requires 0.0 <= rough <= 1.0
    decreases |order|
  {
    if order == [] then Origin
    else Add(AlignTerm(world, rd, key, here, bounds, order[0], rough),
             AlignSum(world, rd, key, here, bounds, order[1..], rough))
  }

  /** A room none of whose transitions is revealed feels no alignment pull. */
  lemma {:induction false} UnrevealedNoPull(world: MapData, rd: RandoData, key: string, here: Vec2, bounds: Rect,
                                            order: seq<string>, rough: real)
    requires world.Valid() && key in world.rooms
    requires forall k :: k in order ==> k in world.rooms[key].transitions
    requires 0.0 <= rough <= 1.0
    requires forall k :: k in order ==> Qualify(key, k) !in rd.visitedTransitions
    ensures AlignSum(world, rd, key, here, bounds, order, rough) == Origin
    decreases |order|
  {
    if order != [] {
      assert order[0] in order;
      assert AlignTerm(world, rd, key, here, bounds, order[0], rough) == Origin;
      UnrevealedNoPull(world, rd, key, here, bounds, order[1..], rough);
    }
  }

  /** `bounds` translated by `[pos.x, pos.y + bounds.h]`: where the room is
      drawn. */
  function Placed(bounds: Rect, pos: Vec2): (r: Rect)
    ensures r.w == bounds.w && r.h == bounds.h
    ensures r.x - bounds.x == pos.x && r.y - bounds.y == pos.y + bounds.h
  {
    Rect(bounds.x + pos.x, bounds.y + pos.y + bounds.h, bounds.w, bounds.h)
  }

  /** The overlap terms against the rooms of `order` other than `key` that
      have a position. `push(mine, other)` is the close and the wide overlap
      push of the two placed rectangles together, before the factor
      `1 - rough`. */
  function OverlapSum(world: MapData, rd: RandoData, key: string, mine: Rect, order: seq<string>,
                      rough: real, push: (Rect, Rect) -> Vec2): Vec2
    requires world.Valid()
    requires forall k :: k in order ==> k in world.rooms
    decreases |order|
  {
    if order == [] then Origin
    else
      var k := order[0];
      var term := if k != key && k in rd.roomPositions
        then Scale(push(mine, Placed(CalcBounds(world.rooms[k]), rd.roomPositions[k])), 1.0 - rough)
        else Origin;
      Add(term, OverlapSum(world, rd, key, mine, order[1..], rough, push))
  }

  /** At the peak of the rough factor the overlap push vanishes. */
  lemma {:induction false} OverlapVanishesAtPeak(world: MapData, rd: RandoData, key: string, mine: Rect,
                                                 order: seq<string>, push: (Rect, Rect) -> Vec2)
    requires world.Valid()
    requires forall k :: k in order ==> k in world.rooms
    ensures OverlapSum(world, rd, key, mine, order, 1.0, push) == Origin
    decreases |order|
  {
    if order != [] {
      OverlapVanishesAtPeak(world, rd, key, mine, order[1..], push);
    }
  }

  /** The total move of room `key` at `here` this tick. */
  function Move(world: MapData, rd: RandoData, key: string, here: Vec2, rough: real,
                push: (Rect, Rect) -> Vec2): Vec2
    requires world.Valid() && key in world.rooms
    requires 0.0 <= rough <= 1.0
  {
    var room := world.rooms[key];
    var bounds := CalcBounds(room);
    Add(AlignSum(world, rd, key, here, bounds, room.transitionOrder, rough),
        OverlapSum(world, rd, key, Placed(bounds, here), world.roomOrder, rough, push))
  }

  /** Right after a room change (rough factor 1) only the alignment pull moves
      a room, so a room with no revealed transition stays put. */
  lemma MoveAtPeak(world: MapData, rd: RandoData, key: string, here: Vec2, push: (Rect, Rect) -> Vec2)
    requires world.Valid() && key in world.rooms
    ensures Move(world, rd, key, here, 1.0, push) ==
      AlignSum(world, rd, key, here, CalcBounds(world.rooms[key]), world.rooms[key].transitionOrder, 1.0)
    ensures (forall k :: k in world.rooms[key].transitions ==> Qualify(key, k) !in rd.visitedTransitions) ==>
      Move(world, rd, key, here, 1.0, push) == Origin
  {
    var room := world.rooms[key];
    var bounds := CalcBounds(room);
    assert room.Valid();
    OverlapVanishesAtPeak(world, rd, key, Placed(bounds, here), world.roomOrder, push);
    if forall k :: k in room.transitions ==> Qualify(key, k) !in rd.visitedTransitions {
      UnrevealedNoPull(world, rd, key, here, bounds, room.transitionOrder, 1.0);
    }
  }

  predicate InRange(v: real)
  {
    -1000.0 <= v <= 1000.0
  }

  /** One coordinate after the move: the move limited to 100, the result to
      the square of side 2000 around the origin. */
  function Settle(prior: real, move: real): (r: real)
    ensures InRange(r)
    ensures InRange(prior) ==> Abs(r - prior) <= 100.0
    ensures InRange(prior) && move >= 0.0 ==> prior <= r
    ensures InRange(prior) && move <= 0.0 ==> r <= prior
    ensures -100.0 <= move <= 100.0 && InRange(prior + move) ==> r == prior + move
  {
    Clamp(prior + Clamp(move, -100.0, 100.0), -1000.0, 1000.0)
  }

  /** The room is the selected one and is being dragged. */
  predicate Dragged(st: LoadedState, key: string)
  {
    st.selectedRoom == Some(key) && st.draggingRoom
  }

  /** What the tick does to the position of `key`, from `prior` to `next`. */
  predicate KeyOutcome(world: MapData, st: LoadedState, key: string, prior: Vec2, next: Vec2)
  {
    && (key == st.currentRoom ==> next == Origin)
    && (key != st.currentRoom && Dragged(st, key) ==> next == prior)
    && (key != st.currentRoom && !Dragged(st, key) && key !in world.rooms ==> next == prior)
    && (key != st.currentRoom && !Dragged(st, key) && key in world.rooms ==>
          && InRange(next.x) && InRange(next.y)
          && (InRange(prior.x) ==> Abs(next.x - prior.x) <= 100.0)
          && (InRange(prior.y) ==> Abs(next.y - prior.y) <= 100.0))
  }

  /** The body of the tick loop for one key: every position but `key`'s is
      left alone, and `key`'s changes as `KeyOutcome` says. */
  function StepKey(world: MapData, st: LoadedState, key: string, rough: real,
                   push: (Rect, Rect) -> Vec2): (r: LoadedState)
    requires world.Valid() && key in st.randoData.roomPositions
    requires 0.0 <= rough <= 1.0
    ensures key in r.randoData.roomPositions
    ensures r == st.(randoData := st.randoData.(roomPositions := st.randoData.roomPositions[key := r.randoData.roomPositions[key]]))
    ensures KeyOutcome(world, st, key, st.randoData.roomPositions[key], r.randoData.roomPositions[key])
  {
    var positions := st.randoData.roomPositions;
    if key == st.currentRoom then
      st.(randoData := st.randoData.(roomPositions := positions[key := Origin]))
    else if Dragged(st, key) then
      assert positions[key := positions[key]] == positions;
      st
    else if key in world.rooms then
      var here := positions[key];
      var m := Move(world, st.randoData, key, here, rough, push);
      var next := Vec2(Settle(here.x, m.x), Settle(here.y, m.y));
      st.(randoData := st.randoData.(roomPositions := positions[key := next]))
    else
      assert positions[key := positions[key]] == positions;
      st
  }

  /** The tick loop over a snapshot `keys` of the position keys, updating in
      place: a later key sees the positions the earlier ones left. */
  function TickKeys(world: MapData, st: LoadedState, keys: seq<string>, rough: real,
                    push: (Rect, Rect) -> Vec2): (r: LoadedState)
    requires world.Valid()
    requires forall k :: k in keys ==> k in st.randoData.roomPositions
    requires 0.0 <= rough <= 1.0
    ensures r == st.(randoData := st.randoData.(roomPositions := r.randoData.roomPositions))
    ensures r.randoData.roomPositions.Keys == st.randoData.roomPositions.Keys
    ensures forall k :: k in st.randoData.roomPositions && k !in keys ==>
      r.randoData.roomPositions[k] == st.randoData.roomPositions[k]
    decreases |keys|
  {
    if keys == [] then st
    else TickKeys(world, StepKey(world, st, keys[0], rough, push), keys[1..], rough, push)
  }

  /** Each key of the snapshot ends as `KeyOutcome` says, measured from the
      position it had before the tick. */
  lemma {:induction false} TickOutcome(world: MapData, st: LoadedState, keys: seq<string>, rough: real,
                                       push: (Rect, Rect) -> Vec2, key: string)
    requires world.Valid()
    requires forall k :: k in keys ==> k in st.randoData.roomPositions
    requires 0.0 <= rough <= 1.0
    requires Distinct(keys) && key in keys
    ensures KeyOutcome(world, st, key, st.randoData.roomPositions[key],
                       TickKeys(world, st, keys, rough, push).randoData.roomPositions[key])
    decreases |keys|
  {
    var st' := StepKey(world, st, keys[0], rough, push);
    var rest := keys[1..];
    if key == keys[0] {
      assert key !in rest by {
        forall j | 0 <= j < |rest|
          ensures rest[j] != key
        {
          assert rest[j] == keys[j + 1];
        }
      }
    } else {
      assert key in rest;
      assert Distinct(rest) by {
        forall a, b | 0 <= a < b < |rest|
          ensures rest[a] != rest[b]
        {
          assert rest[a] == keys[a + 1] && rest[b] == keys[b + 1];
        }
      }
      TickOutcome(world, st', rest, rough, push, key);
    }
  }

  /** `update_room_positions`. `elapsed` is the time since the last room
      change; `keys` is the snapshot of the position keys, in the map's
      iteration order; `push` is the overlap force. */
  function UpdateRoomPositions(world: MapData, game: GameState, elapsed: real, keys: seq<string>,
                               push: (Rect, Rect) -> Vec2): (r: GameState)
    requires world.Valid()
    requires game.Loaded? ==> Enumerates(keys, game.state.randoData.roomPositions)
    ensures game.Unloaded? ==> r == game
    ensures game.Loaded? ==>
      && r.Loaded?
      && r.state == game.state.(randoData := game.state.randoData.(roomPositions := r.state.randoData.roomPositions))
      && r.state.randoData.roomPositions.Keys == game.state.randoData.roomPositions.Keys
      && forall k :: k in game.state.randoData.roomPositions ==>
           KeyOutcome(world, game.state, k, game.state.randoData.roomPositions[k], r.state.randoData.roomPositions[k])
  {
    if game.Unloaded? then game
    else
      var st := game.state;
      var r := TickKeys(world, st, keys, RoughFactor(elapsed), push);
      assert forall k :: k in st.randoData.roomPositions ==>
        KeyOutcome(world, st, k, st.randoData.roomPositions[k], r.randoData.roomPositions[k]) by {
        forall k | k in st.randoData.roomPositions
          ensures KeyOutcome(world, st, k, st.randoData.roomPositions[k], r.randoData.roomPositions[k])
        {
          TickOutcome(world, st, keys, RoughFactor(elapsed), push, k);
        }
      }
      Loaded(r)
  }

  /** After a tick the current room, when it has a position, sits at the
      origin, and a dragged room has not moved. */
  lemma PinnedAndDragged(world: MapData, game: GameState, elapsed: real, keys: seq<string>,
                         push: (Rect, Rect) -> Vec2)
    requires world.Valid() && game.Loaded?
    requires Enumerates(keys, game.state.randoData.roomPositions)
    ensures var r := UpdateRoomPositions(world, game, elapsed, keys, push).state.randoData.roomPositions;
      && (game.state.currentRoom in r ==> r[game.state.currentRoom] == Origin)
      && (forall k :: k in r && k != game.state.currentRoom && Dragged(game.state, k) ==>
            r[k] == game.state.randoData.roomPositions[k])
  {
  }

  /** The `or_insert_with` of the draw pass: every rendered room of the world
      without a position gets one at the origin; nothing else changes. */
  function RegisterRendered(world: MapData, positions: map<string, Vec2>, render: set<string>): (r: map<string, Vec2>)
    ensures r.Keys == positions.Keys + (render * world.rooms.Keys)
    ensures forall k :: k in positions ==> r[k] == positions[k]
    ensures forall k :: k in r && k !in positions ==> r[k] == Origin
  {
    map k | k in positions.Keys + (render * world.rooms.Keys) :: if k in positions then positions[k] else Origin
  }

  /** Registering twice is registering once, and registering a larger set
      first absorbs a smaller one. */
  lemma RegisterAbsorbs(world: MapData, positions: map<string, Vec2>, big: set<string>, small: set<string>)
    requires small <= big
    ensures RegisterRendered(world, RegisterRendered(world, positions, big), small)
         == RegisterRendered(world, positions, big)
  {
  }
}
