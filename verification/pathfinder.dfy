/** `find_path`: the fewest revealed transitions leading from one room to
    another. Unit-cost Dijkstra with a linear scan for the nearest unvisited
    room, as in the viewer. */
module PathFinder {
  import opened Basics
  import opened TransitionId
  import opened Rooms
  import opened Data
  import opened GameStates
  import opened Graph

  /** Taking transition `t` out of room `a` lands in room `b`: `t` is one of
      `a`'s own transitions, it has been revealed, and its resolved
      destination lies in the known room `b`. */
  ghost predicate Hop(world: MapData, rd: RandoData, a: string, t: string, b: string)
  {
    && a in world.rooms
    && (exists k :: k in world.rooms[a].transitions && t == Qualify(a, k))
    && t in rd.visitedTransitions
    && TargetRoom(rd, t) == Some(b)
    && b in world.rooms
  }

  /** Every hop of the map, as `(from room, transition, to room)`. */
  function Hops(world: MapData, rd: RandoData): (r: set<(string, string, string)>)
    ensures forall a, t, b :: (a, t, b) in r <==> Hop(world, rd, a, t, b)
  {
    var r := set a, k | a in world.rooms && k in world.rooms[a].transitions
                        && Qualify(a, k) in rd.visitedTransitions
                        && TargetRoom(rd, Qualify(a, k)).Some? && TargetRoom(rd, Qualify(a, k)).value in world.rooms
                      :: (a, Qualify(a, k), TargetRoom(rd, Qualify(a, k)).value);
    assert forall a, t, b :: Hop(world, rd, a, t, b) ==> (a, t, b) in r by {
      forall a, t, b | Hop(world, rd, a, t, b)
        ensures (a, t, b) in r
      {
        var k :| k in world.rooms[a].transitions && t == Qualify(a, k);
      }
    }
    r
  }

  /** `p` is a sequence of hops of `hops` leading from room `a` to room `z`
      of `rooms`. */
  ghost predicate PathIn(hops: set<(string, string, string)>, rooms: set<string>, a: string, z: string, p: seq<string>)
    decreases |p|
  {
    && a in rooms
    && if |p| == 0 then a == z
       else exists b :: (a, p[0], b) in hops && PathIn(hops, rooms, b, z, p[1..])
  }

  /** `p` is a sequence of revealed transitions leading from room `a` to room
      `z`. */
  ghost predicate IsPath(world: MapData, rd: RandoData, a: string, z: string, p: seq<string>)
  {
    PathIn(Hops(world, rd), world.rooms.Keys, a, z, p)
  }

  /** A path starts in a known room: the first hop leaves from one. */
  lemma PathStartsInRoom(world: MapData, rd: RandoData, a: string, z: string, p: seq<string>)
    requires IsPath(world, rd, a, z, p)
    ensures a in world.rooms
  {
  }

  /** The first room of `unvisited` that has a distance no larger than any
      other's (`Iterator::min_by` keeps the first of equal minima). */
  method SelectNearest(unvisited: seq<string>, dist: map<string, nat>) returns (r: Option<nat>)
    ensures r.None? <==> forall j :: 0 <= j < |unvisited| ==> unvisited[j] !in dist
    ensures r.Some? ==> r.value < |unvisited| && unvisited[r.value] in dist
    ensures r.Some? ==> forall j :: 0 <= j < |unvisited| && unvisited[j] in dist ==>
      dist[unvisited[r.value]] <= dist[unvisited[j]]
    ensures r.Some? ==> forall j :: 0 <= j < r.value && unvisited[j] in dist ==>
      dist[unvisited[r.value]] < dist[unvisited[j]]
  {
    r := None;
    var i := 0;
    while i < |unvisited|
      invariant 0 <= i <= |unvisited|
      invariant r.None? <==> forall j :: 0 <= j < i ==> unvisited[j] !in dist
      invariant r.Some? ==> r.value < i && unvisited[r.value] in dist
      invariant r.Some? ==> forall j :: 0 <= j < i && unvisited[j] in dist ==>
        dist[unvisited[r.value]] <= dist[unvisited[j]]
      invariant r.Some? ==> forall j :: 0 <= j < r.value && unvisited[j] in dist ==>
        dist[unvisited[r.value]] < dist[unvisited[j]]
    {
      var x := unvisited[i];
      if x in dist && (r.None? || dist[x] < dist[unvisited[r.value]]) {
        r := Some(i);
      }
      i := i + 1;
    }
  }

  /** `Vec::remove`: the remaining rooms, still without duplicates. */
  function RemoveAt(s: seq<string>, i: nat): (s': seq<string>)
    requires i < |s| && Distinct(s)
    ensures Distinct(s')
    ensures |s'| == |s| - 1
    ensures forall x :: x in s' <==> x in s && x != s[i]
  {
    var s' := s[..i] + s[i + 1..];
    assert forall j :: 0 <= j < |s'| ==> s'[j] == (if j < i then s[j] else s[j + 1]);
    s'
  }

  /** A room already taken off the unvisited list. */
  ghost predicate Done(world: MapData, unvisited: seq<string>, x: string)
  {
    x in world.rooms && x !in unvisited
  }

  /** `prev[y] == t` records a hop into `y` from a room one step nearer. */
  ghost predicate Link(hops: set<(string, string, string)>, dist: map<string, nat>, t: string, y: string)
  {
    && y in dist
    && RoomPart(t).Some?
    && RoomPart(t).value in dist
    && (RoomPart(t).value, t, y) in hops
    && dist[y] == dist[RoomPart(t).value] + 1
  }

  /** Hops leave from and lead to known rooms. */
  ghost predicate HopsInRooms(world: MapData, hops: set<(string, string, string)>)
  {
    forall a, t, b :: (a, t, b) in hops ==> a in world.rooms && b in world.rooms
  }

  /** Following the recorded hops back from `dst` reaches `src`; the hops,
      in forward order, are a path of exactly `dist[dst]` transitions. */
  method Reconstruct(world: MapData, ghost hops: set<(string, string, string)>, src: string, dst: string,
                     dist: map<string, nat>, prev: map<string, string>) returns (path: seq<string>)
    requires HopsInRooms(world, hops)
    requires dst in dist && dst in world.rooms
    requires src in dist && dist[src] == 0
    requires forall y :: y in prev ==> Link(hops, dist, prev[y], y)
    requires forall y :: y in dist && y != src ==> y in prev
    ensures PathIn(hops, world.rooms.Keys, src, dst, path)
    ensures |path| == dist[dst]
  {
    path := [];
    var cur := dst;
    while cur in prev
      invariant cur in dist
      invariant PathIn(hops, world.rooms.Keys, cur, dst, path)
      invariant |path| + dist[cur] == dist[dst]
      decreases dist[cur]
    {
      var t := prev[cur];
      assert Link(hops, dist, t, cur);
      var x := RoomPart(t).value;
      var path' := [t] + path;
      assert path'[0] == t && path'[1..] == path;
      assert PathIn(hops, world.rooms.Keys, x, dst, path');
      path := path';
      cur := x;
    }
  }

  /** Walking a path whose start has been settled meets either a settled end
      within the path's length or an unsettled room whose tentative distance
      is within it. */
  lemma {:induction false} Frontier(hops: set<(string, string, string)>, world: MapData, unvisited: seq<string>,
                                    dist: map<string, nat>, a: string, z: string, p: seq<string>)
    requires forall x :: Done(world, unvisited, x) ==> x in dist
    requires forall x, t, y :: Done(world, unvisited, x) && (x, t, y) in hops ==>
      y in dist && dist[y] <= dist[x] + 1
    requires Done(world, unvisited, a)
    requires PathIn(hops, world.rooms.Keys, a, z, p)
    ensures (Done(world, unvisited, z) && dist[z] <= dist[a] + |p|) ||
      (exists y :: y in unvisited && y in dist && dist[y] <= dist[a] + |p|)
    decreases |p|
  {
    if |p| > 0 {
      var b :| (a, p[0], b) in hops && PathIn(hops, world.rooms.Keys, b, z, p[1..]);
      if b !in unvisited {
        Frontier(hops, world, unvisited, dist, b, z, p[1..]);
      }
    }
  }

  /** The invariant of the search loop. Settled rooms (`Done`) have final
      distances no larger than any tentative one, every hop out of a settled
      room has been relaxed, and `prev` records a hop from a settled room one
      step nearer for every reached room but `src`. */
  ghost predicate SearchInv(world: MapData, hops: set<(string, string, string)>, src: string, dst: string,
                            unvisited: seq<string>, dist: map<string, nat>, prev: map<string, string>)
  {
    && Distinct(unvisited) && (forall x :: x in unvisited ==> x in world.rooms)
    && src in dist && dist[src] == 0
    && (forall x :: Done(world, unvisited, x) ==> x in dist)
    && (forall x, t, y :: Done(world, unvisited, x) && (x, t, y) in hops ==> y in dist && dist[y] <= dist[x] + 1)
    && (forall x, y :: Done(world, unvisited, x) && y in unvisited && y in dist ==> dist[x] <= dist[y])
    && (forall y :: y in prev ==> Link(hops, dist, prev[y], y) && Done(world, unvisited, RoomPart(prev[y]).value))
    && (forall y :: y in dist && y != src ==> y in prev)
    && !Done(world, unvisited, dst)
  }

  /** `idx` is where `SelectNearest` found the nearest reached unvisited room. */
  ghost predicate Nearest(unvisited: seq<string>, dist: map<string, nat>, idx: nat)
  {
    && idx < |unvisited| && unvisited[idx] in dist
    && forall j :: 0 <= j < |unvisited| && unvisited[j] in dist ==> dist[unvisited[idx]] <= dist[unvisited[j]]
  }

  /** When no unvisited room has been reached, `dst` is unreachable. */
  lemma Exhausted(world: MapData, hops: set<(string, string, string)>, src: string, dst: string,
                  unvisited: seq<string>, dist: map<string, nat>, prev: map<string, string>)
    requires SearchInv(world, hops, src, dst, unvisited, dist, prev)
    requires forall y :: y in unvisited ==> y !in dist
    ensures forall p :: !PathIn(hops, world.rooms.Keys, src, dst, p)
  {
    forall p | PathIn(hops, world.rooms.Keys, src, dst, p)
      ensures false
    {
      if src !in unvisited {
        Frontier(hops, world, unvisited, dist, src, dst, p);
      }
      assert false;
    }
  }

  /** When `dst` is the nearest reached room its distance is the length of a
      shortest path. */
  lemma SettledIsShortest(world: MapData, hops: set<(string, string, string)>, src: string, dst: string,
                          unvisited: seq<string>, dist: map<string, nat>, prev: map<string, string>, idx: nat)
    requires SearchInv(world, hops, src, dst, unvisited, dist, prev)
    requires Nearest(unvisited, dist, idx) && unvisited[idx] == dst
    ensures forall p :: PathIn(hops, world.rooms.Keys, src, dst, p) ==> dist[dst] <= |p|
  {
    forall p | PathIn(hops, world.rooms.Keys, src, dst, p)
      ensures dist[dst] <= |p|
    {
      if src in unvisited {
        var j :| 0 <= j < |unvisited| && unvisited[j] == src;
      } else {
        Frontier(hops, world, unvisited, dist, src, dst, p);
        var y :| y in unvisited && y in dist && dist[y] <= |p|;
        var j :| 0 <= j < |unvisited| && unvisited[j] == y;
      }
    }
  }

  /** The invariant while the hops out of the newly settled room `u` are
      relaxed: those through the first `i` transitions of `order` are done. */
  ghost predicate RelaxInv(world: MapData, hops: set<(string, string, string)>, src: string, dst: string,
                           unvisited: seq<string>, dist: map<string, nat>, prev: map<string, string>,
                           u: string, d: nat, order: seq<string>, i: nat)
  {
    && Distinct(unvisited) && (forall x :: x in unvisited ==> x in world.rooms)
    && i <= |order|
    && u in dist && dist[u] == d && Done(world, unvisited, u)
    && src in dist && dist[src] == 0
    && SettledWithin(world, unvisited, dist, d)
    && OthersRelaxed(world, hops, unvisited, dist, u)
    && PrefixRelaxed(hops, dist, u, d, order, i)
    && SettledFirst(world, unvisited, dist)
    && LinksValid(world, hops, unvisited, dist, prev)
    && (forall y :: y in dist && y != src ==> y in prev)
    && !Done(world, unvisited, dst)
  }

  /** Every settled room is reached within `d`. */
  ghost predicate SettledWithin(world: MapData, unvisited: seq<string>, dist: map<string, nat>, d: nat)
  {
    forall x :: Done(world, unvisited, x) ==> x in dist && dist[x] <= d
  }

  /** Every hop out of a settled room other than `u` has been relaxed. */
  ghost predicate OthersRelaxed(world: MapData, hops: set<(string, string, string)>, unvisited: seq<string>,
                                dist: map<string, nat>, u: string)
  {
    forall x, t, y :: Done(world, unvisited, x) && x in dist && x != u && (x, t, y) in hops ==>
      y in dist && dist[y] <= dist[x] + 1
  }

  /** The hops of `u` through the first `i` transitions of `order` have been relaxed. */
  ghost predicate PrefixRelaxed(hops: set<(string, string, string)>, dist: map<string, nat>,
                                u: string, d: nat, order: seq<string>, i: nat)
  {
    forall j, y :: 0 <= j < i && j < |order| && (u, Qualify(u, order[j]), y) in hops ==>
      y in dist && dist[y] <= d + 1
  }

  /** No settled room is farther than a reached unsettled one. */
  ghost predicate SettledFirst(world: MapData, unvisited: seq<string>, dist: map<string, nat>)
  {
    forall x, y :: Done(world, unvisited, x) && x in dist && y in unvisited && y in dist ==> dist[x] <= dist[y]
  }

  /** Every recorded hop is a link from a settled room. */
  ghost predicate LinksValid(world: MapData, hops: set<(string, string, string)>, unvisited: seq<string>,
                             dist: map<string, nat>, prev: map<string, string>)
  {
    forall y :: y in prev ==> Link(hops, dist, prev[y], y) && Done(world, unvisited, RoomPart(prev[y]).value)
  }

  /** Taking the nearest room off the list starts its relaxation. */
  lemma SettleNearest(world: MapData, hops: set<(string, string, string)>, src: string, dst: string,
                      unvisited: seq<string>, dist: map<string, nat>, prev: map<string, string>, idx: nat,
                      order: seq<string>)
    requires SearchInv(world, hops, src, dst, unvisited, dist, prev)
    requires Nearest(unvisited, dist, idx) && unvisited[idx] != dst
    ensures RelaxInv(world, hops, src, dst, RemoveAt(unvisited, idx), dist, prev,
                     unvisited[idx], dist[unvisited[idx]], order, 0)
  {
    var u := unvisited[idx];
    var rest := RemoveAt(unvisited, idx);
    forall x | Done(world, rest, x)
      ensures x in dist && dist[x] <= dist[u]
    {
      if x != u {
        assert Done(world, unvisited, x);
      }
    }
    forall x, y | Done(world, rest, x) && y in rest && y in dist
      ensures dist[x] <= dist[y]
    {
      var j :| 0 <= j < |unvisited| && unvisited[j] == y;
      if x != u {
        assert Done(world, unvisited, x);
      }
    }
    forall y | y in prev
      ensures Done(world, rest, RoomPart(prev[y]).value)
    {
      assert Done(world, unvisited, RoomPart(prev[y]).value);
    }
  }

  /** Once every transition of `u` is relaxed the search invariant holds again. */
  lemma RelaxFinished(world: MapData, rd: RandoData, hops: set<(string, string, string)>, src: string, dst: string,
                      unvisited: seq<string>, dist: map<string, nat>, prev: map<string, string>,
                      u: string, d: nat)
    requires world.Valid()
    requires forall a, t, b :: (a, t, b) in hops <==> Hop(world, rd, a, t, b)
    requires u in world.rooms
    requires RelaxInv(world, hops, src, dst, unvisited, dist, prev, u, d,
                      world.rooms[u].transitionOrder, |world.rooms[u].transitionOrder|)
    ensures SearchInv(world, hops, src, dst, unvisited, dist, prev)
  {
    assert world.rooms[u].Valid();
    HopsOfRelaxed(world, rd, hops, dist, u, d);
    RelaxedAll(world, hops, src, dst, unvisited, dist, prev, u, d, world.rooms[u].transitionOrder);
  }

  /** Once every transition of `u` in its iteration order is relaxed, every hop
      out of `u` leads within `d + 1`. */
  lemma HopsOfRelaxed(world: MapData, rd: RandoData, hops: set<(string, string, string)>,
                      dist: map<string, nat>, u: string, d: nat)
    requires u in world.rooms && world.rooms[u].Valid()
    requires forall a, t, b :: (a, t, b) in hops <==> Hop(world, rd, a, t, b)
    requires PrefixRelaxed(hops, dist, u, d, world.rooms[u].transitionOrder, |world.rooms[u].transitionOrder|)
    ensures forall t, y :: (u, t, y) in hops ==> y in dist && dist[y] <= d + 1
  {
    var order := world.rooms[u].transitionOrder;
    forall t, y | (u, t, y) in hops
      ensures y in dist && dist[y] <= d + 1
    {
      assert Hop(world, rd, u, t, y);
      var k :| k in world.rooms[u].transitions && t == Qualify(u, k);
      assert k in order;
      var j :| 0 <= j < |order| && order[j] == k;
      assert (u, Qualify(u, order[j]), y) in hops;
    }
  }

  /** The relaxation invariant with every hop of `u` done is the search invariant. */
  lemma RelaxedAll(world: MapData, hops: set<(string, string, string)>, src: string, dst: string,
                   unvisited: seq<string>, dist: map<string, nat>, prev: map<string, string>,
                   u: string, d: nat, order: seq<string>)
    requires RelaxInv(world, hops, src, dst, unvisited, dist, prev, u, d, order, |order|)
    requires forall t, y :: (u, t, y) in hops ==> y in dist && dist[y] <= d + 1
    ensures SearchInv(world, hops, src, dst, unvisited, dist, prev)
  {
  }

  /** A relaxation that changes nothing keeps the invariant when every hop
      through `order[i]` already leads within `d + 1`. */
  lemma RelaxKeep(hops: set<(string, string, string)>, dist: map<string, nat>,
                  u: string, d: nat, order: seq<string>, i: nat)
    requires i < |order|
    requires PrefixRelaxed(hops, dist, u, d, order, i)
    requires forall y :: (u, Qualify(u, order[i]), y) in hops ==> y in dist && dist[y] <= d + 1
    ensures PrefixRelaxed(hops, dist, u, d, order, i + 1)
  {
  }

  /** A relaxation that lowers (or sets) the distance of `toRoom` to `d + 1`
      and records the hop keeps the invariant. */
  lemma RelaxUpdate(world: MapData, hops: set<(string, string, string)>, src: string, dst: string,
                    unvisited: seq<string>, dist: map<string, nat>, prev: map<string, string>,
                    u: string, d: nat, order: seq<string>, i: nat, toRoom: string)
    requires i < |order|
    requires forall y :: (u, Qualify(u, order[i]), y) in hops ==> y == toRoom
    requires RelaxInv(world, hops, src, dst, unvisited, dist, prev, u, d, order, i)
    requires toRoom in unvisited && (toRoom !in dist || d + 1 < dist[toRoom])
    requires (u, Qualify(u, order[i]), toRoom) in hops
    requires RoomPart(Qualify(u, order[i])) == Some(u)
    ensures RelaxInv(world, hops, src, dst, unvisited, dist[toRoom := d + 1], prev[toRoom := Qualify(u, order[i])],
                     u, d, order, i + 1)
  {
    var t := Qualify(u, order[i]);
    var dist' := dist[toRoom := d + 1];
    var prev' := prev[toRoom := t];
    assert u != toRoom;
    LowerKeepsSettled(world, hops, unvisited, dist, toRoom, d + 1, u, d);
    LowerKeepsPrefix(hops, dist, toRoom, u, d, order, i);
    assert Link(hops, dist', t, toRoom);
    LinksKept(world, hops, unvisited, dist, prev, toRoom, d + 1, t, dist', prev');
  }

  /** Lowering the distance of an unsettled room to `v > d` keeps the facts
      about settled rooms. */
  lemma LowerKeepsSettled(world: MapData, hops: set<(string, string, string)>, unvisited: seq<string>,
                          dist: map<string, nat>, y0: string, v: nat, u: string, d: nat)
    requires y0 in unvisited && (y0 !in dist || v < dist[y0]) && d < v
    requires SettledWithin(world, unvisited, dist, d)
    requires OthersRelaxed(world, hops, unvisited, dist, u)
    requires SettledFirst(world, unvisited, dist)
    ensures SettledWithin(world, unvisited, dist[y0 := v], d)
    ensures OthersRelaxed(world, hops, unvisited, dist[y0 := v], u)
    ensures SettledFirst(world, unvisited, dist[y0 := v])
  {
    var dist' := dist[y0 := v];
    forall x | Done(world, unvisited, x)
      ensures x in dist' && dist'[x] <= d
    {
      assert x != y0;
    }
    forall x, t, y | Done(world, unvisited, x) && x != u && (x, t, y) in hops
      ensures y in dist' && dist'[y] <= dist'[x] + 1
    {
      assert x != y0;
    }
    forall x, y | Done(world, unvisited, x) && y in unvisited && y in dist'
      ensures dist'[x] <= dist'[y]
    {
      assert x != y0;
    }
  }

  /** Relaxing the hop through `order[i]`, whose only target is `y0`, to
      `d + 1` extends the relaxed prefix by one. */
  lemma LowerKeepsPrefix(hops: set<(string, string, string)>, dist: map<string, nat>, y0: string,
                         u: string, d: nat, order: seq<string>, i: nat)
    requires i < |order|
    requires forall y :: (u, Qualify(u, order[i]), y) in hops ==> y == y0
    requires y0 !in dist || d + 1 < dist[y0]
    requires PrefixRelaxed(hops, dist, u, d, order, i)
    ensures PrefixRelaxed(hops, dist[y0 := d + 1], u, d, order, i + 1)
  {
  }

  /** A transition leads to one room only. */
  lemma HopTargetUnique(world: MapData, rd: RandoData, hops: set<(string, string, string)>,
                        a: string, t: string, b1: string, b2: string)
    requires forall a, t, b :: (a, t, b) in hops <==> Hop(world, rd, a, t, b)
    requires (a, t, b1) in hops && (a, t, b2) in hops
    ensures b1 == b2
  {
    assert Hop(world, rd, a, t, b1) && Hop(world, rd, a, t, b2);
  }

  /** Recording a hop into an unsettled room leaves every other record valid. */
  lemma LinksKept(world: MapData, hops: set<(string, string, string)>, unvisited: seq<string>,
                  dist: map<string, nat>, prev: map<string, string>, y0: string, v: nat, t: string,
                  dist': map<string, nat>, prev': map<string, string>)
    requires y0 in unvisited
    requires dist' == dist[y0 := v] && prev' == prev[y0 := t]
    requires LinksValid(world, hops, unvisited, dist, prev)
    requires Link(hops, dist', t, y0) && Done(world, unvisited, RoomPart(t).value)
    ensures LinksValid(world, hops, unvisited, dist', prev')
  {
    forall y | y in prev'
      ensures Link(hops, dist', prev'[y], y) && Done(world, unvisited, RoomPart(prev'[y]).value)
    {
      if y != y0 {
        assert Link(hops, dist, prev[y], y) && Done(world, unvisited, RoomPart(prev[y]).value);
        assert RoomPart(prev[y]).value != y0;
      }
    }
  }

  /** One relaxation step: the hop through transition `order[i]` of `u`. */
  lemma RelaxStep(world: MapData, rd: RandoData, hops: set<(string, string, string)>, src: string, dst: string,
                  unvisited: seq<string>, dist: map<string, nat>, prev: map<string, string>,
                  u: string, d: nat, i: nat)
    requires world.Valid()
    requires forall a, t, b :: (a, t, b) in hops <==> Hop(world, rd, a, t, b)
    requires u in world.rooms
    requires i < |world.rooms[u].transitionOrder|
    requires RelaxInv(world, hops, src, dst, unvisited, dist, prev, u, d, world.rooms[u].transitionOrder, i)
    ensures var (dist', prev') := Relax(rd, unvisited, dist, prev, u, d, world.rooms[u].transitionOrder[i]);
      RelaxInv(world, hops, src, dst, unvisited, dist', prev', u, d, world.rooms[u].transitionOrder, i + 1)
  {
    var order := world.rooms[u].transitionOrder;
    var k := order[i];
    var t := Qualify(u, k);
    var r := Relax(rd, unvisited, dist, prev, u, d, k);
    if r == (dist, prev) {
      forall y | (u, t, y) in hops
        ensures y in dist && dist[y] <= d + 1
      {
        assert Hop(world, rd, u, t, y);
        if y !in unvisited {
          assert Done(world, unvisited, y);
        }
      }
      RelaxKeep(hops, dist, u, d, order, i);
    } else {
      var toRoom := TargetRoom(rd, t).value;
      assert world.rooms[u].Valid();
      assert k in world.rooms[u].transitions;
      RoomPartOfQualify(u, k);
      assert Hop(world, rd, u, t, toRoom);
      forall y | (u, t, y) in hops
        ensures y == toRoom
      {
        HopTargetUnique(world, rd, hops, u, t, y, toRoom);
      }
      RelaxUpdate(world, hops, src, dst, unvisited, dist, prev, u, d, order, i, toRoom);
    }
  }

  /** The body of the inner loop of `find_path`: relax the hop through
      transition `k` of the settled room `u` at distance `d`. */
  function Relax(rd: RandoData, unvisited: seq<string>, dist: map<string, nat>, prev: map<string, string>,
                 u: string, d: nat, k: string): (r: (map<string, nat>, map<string, string>))
    ensures r.0.Keys >= dist.Keys
    ensures r != (dist, prev) ==>
      && Qualify(u, k) in rd.visitedTransitions
      && TargetRoom(rd, Qualify(u, k)).Some? && TargetRoom(rd, Qualify(u, k)).value in unvisited
      && var y := TargetRoom(rd, Qualify(u, k)).value;
      && (y !in dist || d + 1 < dist[y])
      && r == (dist[y := d + 1], prev[y := Qualify(u, k)])
    ensures (Qualify(u, k) in rd.visitedTransitions
             && TargetRoom(rd, Qualify(u, k)).Some? && TargetRoom(rd, Qualify(u, k)).value in unvisited) ==>
      var y := TargetRoom(rd, Qualify(u, k)).value;
      (y !in dist || d + 1 < dist[y]) ==> r == (dist[y := d + 1], prev[y := Qualify(u, k)])
  {
    var t := Qualify(u, k);
    if t in rd.visitedTransitions then
      var target := TargetRoom(rd, t);
      if target.Some? && target.value in unvisited then
        var toRoom := target.value;
        if toRoom !in dist || d + 1 < dist[toRoom] then
          (dist[toRoom := d + 1], prev[toRoom := t])
        else (dist, prev)
      else (dist, prev)
    else (dist, prev)
  }

  /** The search proper, over a hop set that characterises the revealed
      transitions of `rd`. */
  method Search(world: MapData, rd: RandoData, ghost hops: set<(string, string, string)>, src: string, dst: string)
    returns (path: Option<seq<string>>)
    requires world.Valid()
    requires forall a, t, b :: (a, t, b) in hops <==> Hop(world, rd, a, t, b)
    ensures path.Some? <==> exists p :: PathIn(hops, world.rooms.Keys, src, dst, p)
    ensures path.Some? ==> PathIn(hops, world.rooms.Keys, src, dst, path.value)
    ensures path.Some? ==> forall p :: PathIn(hops, world.rooms.Keys, src, dst, p) ==> |path.value| <= |p|
  {
    var dist: map<string, nat> := map[src := 0];
    var prev: map<string, string> := map[];
    var unvisited := world.roomOrder;
    assert HopsInRooms(world, hops) by {
      forall a, t, b | (a, t, b) in hops
        ensures a in world.rooms && b in world.rooms
      {
        assert Hop(world, rd, a, t, b);
      }
    }

    while true
      invariant SearchInv(world, hops, src, dst, unvisited, dist, prev)
      decreases |unvisited|
    {
      var sel := SelectNearest(unvisited, dist);
      if sel.None? {
        assert forall y :: y in unvisited ==> y !in dist;
        Exhausted(world, hops, src, dst, unvisited, dist, prev);
        return None;
      }
      var idx := sel.value;
      var u := unvisited[idx];
      var d := dist[u];
      assert Nearest(unvisited, dist, idx);

      if u == dst {
        SettledIsShortest(world, hops, src, dst, unvisited, dist, prev, idx);
        var p0 := Reconstruct(world, hops, src, dst, dist, prev);
        assert PathIn(hops, world.rooms.Keys, src, dst, p0);
        return Some(p0);
      }

      var order := world.rooms[u].transitionOrder;
      SettleNearest(world, hops, src, dst, unvisited, dist, prev, idx, order);
      unvisited := RemoveAt(unvisited, idx);
      var i := 0;
      while i < |order|
        invariant RelaxInv(world, hops, src, dst, unvisited, dist, prev, u, d, order, i)
        decreases |order| - i
      {
        RelaxStep(world, rd, hops, src, dst, unvisited, dist, prev, u, d, i);
        dist, prev := Relax(rd, unvisited, dist, prev, u, d, order[i]).0,
                      Relax(rd, unvisited, dist, prev, u, d, order[i]).1;
        i := i + 1;
      }
      RelaxFinished(world, rd, hops, src, dst, unvisited, dist, prev, u, d);
    }
  }

  /** `find_path`. `None` when no save is loaded or `dst` is never reached
      from `src`; otherwise the transitions of a shortest path. */
  method FindPath(world: MapData, game: GameState, src: string, dst: string) returns (path: Option<seq<string>>)
    requires world.Valid()
    ensures game.Unloaded? ==> path.None?
    ensures game.Loaded? ==>
      (path.Some? <==> exists p :: IsPath(world, game.state.randoData, src, dst, p))
    ensures path.Some? ==> game.Loaded? && IsPath(world, game.state.randoData, src, dst, path.value)
    ensures path.Some? ==> forall p :: IsPath(world, game.state.randoData, src, dst, p) ==> |path.value| <= |p|
  {
    if game.Unloaded? {
      return None;
    }
    var rd := game.state.randoData;
    path := Search(world, rd, Hops(world, rd), src, dst);
    if path.Some? {
      assert IsPath(world, rd, src, dst, path.value);
    } else {
      forall p
        ensures !IsPath(world, rd, src, dst, p)
      {
        assert !PathIn(Hops(world, rd), world.rooms.Keys, src, dst, p);
      }
    }
  }

  /** An unknown start room has no path, so `find_path` gives `None`. */
  lemma UnknownSourceHasNoPath(world: MapData, rd: RandoData, src: string, dst: string, p: seq<string>)
    requires src !in world.rooms
    ensures !IsPath(world, rd, src, dst, p)
  {
  }

  /** From a known room to itself the shortest path is empty. */
  lemma SelfPathEmpty(world: MapData, rd: RandoData, r: string, path: seq<string>)
    requires r in world.rooms
    requires IsPath(world, rd, r, r, path)
    requires forall p :: IsPath(world, rd, r, r, p) ==> |path| <= |p|
    ensures path == []
  {
    assert IsPath(world, rd, r, r, []);
  }
}
