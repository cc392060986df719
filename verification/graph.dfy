/** The graph of revealed transitions, and the depth-bounded set of rooms the
    map draws around the player's room. */
module Graph {
  import opened Basics
  import opened TransitionId
  import opened Rooms
  import opened Data

  /** Where a transition leads: its mapped destination, or the transition
      itself when the table has no entry for it. */
  function Resolve(rd: RandoData, t: string): (r: string)
    ensures t in rd.transitionMap ==> r == rd.transitionMap[t]
    ensures t !in rd.transitionMap ==> r == t
  {
    if t in rd.transitionMap then rd.transitionMap[t] else t
  }

  /** The room part of the resolved destination, when it has one: the first
      component of `get_transition_info` applied to it. */
  function TargetRoom(rd: RandoData, t: string): Option<string>
  {
    RoomPart(Resolve(rd, t))
  }

  /** A destination without `[` names no room; otherwise the room is the text
      before its first `[`, as `get_transition_info` parses it. */
  lemma TargetRoomSpec(rd: RandoData, t: string)
    ensures TargetRoom(rd, t).None? <==> '[' !in Resolve(rd, t)
    ensures TargetRoom(rd, t).Some? ==>
      && TargetRoom(rd, t).value == GetTransitionInfo(Resolve(rd, t)).value.0
      && '[' !in TargetRoom(rd, t).value
      && StartsWith(Resolve(rd, t), TargetRoom(rd, t).value + "[")
  {
    var s := Resolve(rd, t);
    RoomPartAgrees(s);
    if TargetRoom(rd, t).Some? {
      var room := TargetRoom(rd, t).value;
      assert s[..|room| + 1] == room + "[";
    }
  }

  /** Room `a` has a revealed transition whose destination lies in room `b`. */
  ghost predicate Edge(world: MapData, rd: RandoData, a: string, b: string)
  {
    a in world.rooms &&
    exists k :: k in world.rooms[a].transitions && Qualify(a, k) in rd.visitedTransitions
      && TargetRoom(rd, Qualify(a, k)) == Some(b)
  }

  /** Every revealed hop `(from room, to room)` of the map. */
  function Edges(world: MapData, rd: RandoData): (r: set<(string, string)>)
    ensures forall a, b :: (a, b) in r <==> Edge(world, rd, a, b)
  {
    var r := set a, k | a in world.rooms && k in world.rooms[a].transitions
                        && Qualify(a, k) in rd.visitedTransitions && TargetRoom(rd, Qualify(a, k)).Some?
                      :: (a, TargetRoom(rd, Qualify(a, k)).value);
    assert forall a, b :: Edge(world, rd, a, b) ==> (a, b) in r by {
      forall a, b | Edge(world, rd, a, b)
        ensures (a, b) in r
      {
        var k :| k in world.rooms[a].transitions && Qualify(a, k) in rd.visitedTransitions
          && TargetRoom(rd, Qualify(a, k)) == Some(b);
      }
    }
    r
  }

  /** The rooms one hop of `edges` away from a room of `s`. */
  function Successors(edges: set<(string, string)>, s: set<string>): set<string>
  {
    set e | e in edges && e.0 in s :: e.1
  }

  /** `b` is a successor exactly when some room of `s` has a hop to it. */
  lemma SuccessorsMember(edges: set<(string, string)>, s: set<string>, b: string)
    ensures b in Successors(edges, s) <==> exists a :: a in s && (a, b) in edges
  {
    if exists a :: a in s && (a, b) in edges {
      var a :| a in s && (a, b) in edges;
      assert (a, b).1 == b;
    }
  }

  /** One round of the render expansion: the set and everything one hop away. */
  function Expand(edges: set<(string, string)>, s: set<string>): (r: set<string>)
    ensures s <= r
  {
    s + Successors(edges, s)
  }

  /** `depth` rounds of expansion from `{current}`, each over a snapshot of
      the set. */
  function Rounds(edges: set<(string, string)>, current: string, depth: nat): (r: set<string>)
    ensures current in r
  {
    if depth == 0 then {current} else Expand(edges, Rounds(edges, current, depth - 1))
  }

  /** The rooms drawn at the given depth around `current`. */
  function RenderRooms(world: MapData, rd: RandoData, current: string, depth: nat): (r: set<string>)
    ensures current in r
    ensures depth == 0 ==> r == {current}
  {
    Rounds(Edges(world, rd), current, depth)
  }

  /** Consecutive rooms of `w` are joined by hops of `edges`. */
  ghost predicate IsWalk(edges: set<(string, string)>, w: seq<string>)
  {
    forall i :: 0 <= i < |w| - 1 ==> (w[i], w[i + 1]) in edges
  }

  /** `x` can be reached from `from` in at most `n` hops of `edges`. */
  ghost predicate Reachable(edges: set<(string, string)>, from: string, x: string, n: nat)
  {
    exists w {:trigger IsWalk(edges, w)} :: 1 <= |w| <= n + 1 && w[0] == from && w[|w| - 1] == x && IsWalk(edges, w)
  }

  /** A walk extended by one hop is a walk. */
  lemma WalkExtend(edges: set<(string, string)>, w: seq<string>, x: string)
    requires |w| >= 1 && IsWalk(edges, w) && (w[|w| - 1], x) in edges
    ensures IsWalk(edges, w + [x])
  {
    var w' := w + [x];
    forall i | 0 <= i < |w'| - 1
      ensures (w'[i], w'[i + 1]) in edges
    {
      if i < |w| - 1 {
        assert w'[i] == w[i] && w'[i + 1] == w[i + 1];
      } else {
        assert w'[i] == w[|w| - 1] && w'[i + 1] == x;
      }
    }
  }

  /** Dropping the last room of a walk leaves a walk. */
  lemma WalkPrefix(edges: set<(string, string)>, w: seq<string>)
    requires |w| >= 2 && IsWalk(edges, w)
    ensures IsWalk(edges, w[..|w| - 1])
    ensures (w[|w| - 2], w[|w| - 1]) in edges
  {
    var w0 := w[..|w| - 1];
    forall i | 0 <= i < |w0| - 1
      ensures (w0[i], w0[i + 1]) in edges
    {
      assert w0[i] == w[i] && w0[i + 1] == w[i + 1];
    }
  }

  /** The start room is reachable in no hops. */
  lemma ReachSelf(edges: set<(string, string)>, current: string, n: nat)
    ensures Reachable(edges, current, current, n)
  {
    var w := [current];
    assert IsWalk(edges, w);
    assert w[0] == current && w[|w| - 1] == current;
  }

  /** A bound on the hop count may be relaxed. */
  lemma ReachWeaken(edges: set<(string, string)>, current: string, n: nat, x: string)
    requires Reachable(edges, current, x, n)
    ensures Reachable(edges, current, x, n + 1)
  {
    var w :| 1 <= |w| <= n + 1 && w[0] == current && w[|w| - 1] == x && IsWalk(edges, w);
    assert 1 <= |w| <= n + 2;
  }

  /** One more hop costs one more round. */
  lemma ReachStep(edges: set<(string, string)>, current: string, n: nat, a: string, x: string)
    requires Reachable(edges, current, a, n)
    requires (a, x) in edges
    ensures Reachable(edges, current, x, n + 1)
  {
    var w :| 1 <= |w| <= n + 1 && w[0] == current && w[|w| - 1] == a && IsWalk(edges, w);
    WalkExtend(edges, w, x);
    var w' := w + [x];
    assert w'[0] == current && w'[|w'| - 1] == x && 1 <= |w'| <= n + 2;
  }

  /** A room reachable in `n + 1` hops is reachable in `n`, or one hop past a
      room reachable in `n`. */
  lemma ReachBack(edges: set<(string, string)>, current: string, n: nat, x: string)
    requires Reachable(edges, current, x, n + 1)
    ensures Reachable(edges, current, x, n) ||
      exists a :: Reachable(edges, current, a, n) && (a, x) in edges
  {
    var w :| 1 <= |w| <= n + 2 && w[0] == current && w[|w| - 1] == x && IsWalk(edges, w);
    if |w| == n + 2 {
      WalkPrefix(edges, w);
      var w0 := w[..|w| - 1];
      var a := w[|w| - 2];
      assert w0[0] == current && w0[|w0| - 1] == a && 1 <= |w0| <= n + 1;
      assert Reachable(edges, current, a, n);
    }
  }

  /** Every room of the rounds is reachable within `depth` hops. */
  lemma {:induction false} RoundsSound(edges: set<(string, string)>, current: string, depth: nat, x: string)
    requires x in Rounds(edges, current, depth)
    ensures Reachable(edges, current, x, depth)
  {
    if depth == 0 {
      ReachSelf(edges, current, 0);
    } else {
      var prevSet := Rounds(edges, current, depth - 1);
      if x in prevSet {
        RoundsSound(edges, current, depth - 1, x);
        ReachWeaken(edges, current, depth - 1, x);
      } else {
        SuccessorsMember(edges, prevSet, x);
        var a :| a in prevSet && (a, x) in edges;
        RoundsSound(edges, current, depth - 1, a);
        ReachStep(edges, current, depth - 1, a, x);
      }
    }
  }

  /** Every room reachable within `depth` hops is in the rounds. */
  lemma {:induction false} RoundsComplete(edges: set<(string, string)>, current: string, depth: nat, x: string)
    requires Reachable(edges, current, x, depth)
    ensures x in Rounds(edges, current, depth)
  {
    if depth == 0 {
      var w :| 1 <= |w| <= 1 && w[0] == current && w[|w| - 1] == x && IsWalk(edges, w);
    } else {
      var prevSet := Rounds(edges, current, depth - 1);
      ReachBack(edges, current, depth - 1, x);
      if Reachable(edges, current, x, depth - 1) {
        RoundsComplete(edges, current, depth - 1, x);
      } else {
        var a :| Reachable(edges, current, a, depth - 1) && (a, x) in edges;
        RoundsComplete(edges, current, depth - 1, a);
        SuccessorsMember(edges, prevSet, x);
      }
    }
  }

  /** The render set after `depth` rounds is exactly the set of rooms
      reachable from the current room in at most `depth` revealed hops. */
  lemma RenderIsReach(world: MapData, rd: RandoData, current: string, depth: nat, x: string)
    ensures x in RenderRooms(world, rd, current, depth) <==> Reachable(Edges(world, rd), current, x, depth)
  {
    var edges := Edges(world, rd);
    if x in Rounds(edges, current, depth) {
      RoundsSound(edges, current, depth, x);
    }
    if Reachable(edges, current, x, depth) {
      RoundsComplete(edges, current, depth, x);
    }
  }

  /** More rounds never lose a room. */
  lemma {:induction false} RoundsMonotone(edges: set<(string, string)>, current: string, d1: nat, d2: nat)
    requires d1 <= d2
    ensures Rounds(edges, current, d1) <= Rounds(edges, current, d2)
    decreases d2
  {
    if d1 < d2 {
      RoundsMonotone(edges, current, d1, d2 - 1);
    }
  }

  /** Once every room one hop from a round is already in it, no later round
      adds anything: a larger depth draws nothing new after the revealed
      component is exhausted. */
  lemma {:induction false} RoundsStable(edges: set<(string, string)>, current: string, d: nat, k: nat)
    requires Successors(edges, Rounds(edges, current, d)) <= Rounds(edges, current, d)
    ensures Rounds(edges, current, d + k) == Rounds(edges, current, d)
    decreases k
  {
    if k > 0 {
      RoundsStable(edges, current, d, k - 1);
      StableStep(edges, Rounds(edges, current, d), Rounds(edges, current, d + k - 1), Rounds(edges, current, d + k));
    }
  }

  /** Expanding a closed set gives the set back. */
  lemma StableStep(edges: set<(string, string)>, s: set<string>, prior: set<string>, next: set<string>)
    requires Successors(edges, s) <= s
    requires prior == s && next == Expand(edges, prior)
    ensures next == s
  {
  }
}
