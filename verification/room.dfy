/** Rooms of the static world and `Room::calc_bounds`, the bounding box of a
    room's points of interest (benches, items, transitions). Stored `y` grows
    upward, so it is negated before comparison. */
module Rooms {
  import opened Basics
  import opened Geometry

  datatype Item = Item(x: real, y: real, randPool: string)

  /** `to` is the vanilla destination, a qualified transition id. */
  datatype Transition = Transition(to: Option<string>, x: real, y: real)

  /** The two `HashMap` fields come with the order in which the map is
      iterated (`itemOrder`, `transitionOrder`); see `Valid`. */
  datatype Room = Room(
    area: Option<string>,
    benches: seq<Vec2>,
    items: map<string, Item>,
    itemOrder: seq<string>,
    name: Option<string>,
    randomizerArea: Option<string>,
    splitRoom: Option<seq<seq<string>>>,
    transitions: map<string, Transition>,
    transitionOrder: seq<string>)
  {
    ghost predicate Valid()
    {
      Enumerates(itemOrder, items) && Enumerates(transitionOrder, transitions)
    }
  }

  /** Running `(min_x, max_x, min_y, max_y)`; also the box of one point of interest. */
  datatype Box = Box(minX: real, maxX: real, minY: real, maxY: real)

  /** The initial values of calc_bounds: an "inverted" box that any point
      of interest overrides. */
  const Start: Box := Box(10000.0, -10000.0, 10000.0, -10000.0)

  function Min(a: real, b: real): real { if a <= b then a else b }

  function Max(a: real, b: real): real { if a >= b then a else b }

  /** Benches and items are squares of half-extent 5 around `(x, -y)`. */
  function SquareAt(x: real, y: real): (b: Box)
    ensures b.maxX - b.minX == 10.0 && b.maxY - b.minY == 10.0
    ensures (b.minX + b.maxX) / 2.0 == x && (b.minY + b.maxY) / 2.0 == -y
  {
    Box(x - 5.0, x + 5.0, -y - 5.0, -y + 5.0)
  }

  /** Transitions are the single point `(x, -y)`. */
  function PointAt(x: real, y: real): (b: Box)
    ensures b.minX == b.maxX == x && b.minY == b.maxY == -y
  {
    Box(x, x, -y, -y)
  }

  /** `outer` reaches at least as far as `inner` on both axes. */
  predicate Covers(outer: Box, inner: Box)
  {
    outer.minX <= inner.minX && inner.maxX <= outer.maxX
    && outer.minY <= inner.minY && inner.maxY <= outer.maxY
  }

  /** One loop step: `min_x = min_x.min(..)` and so on. */
  function Grow(e: Box, b: Box): (r: Box)
    ensures Covers(r, e) && Covers(r, b)
    ensures forall o :: Covers(o, e) && Covers(o, b) ==> Covers(o, r)
  {
    Box(Min(e.minX, b.minX), Max(e.maxX, b.maxX), Min(e.minY, b.minY), Max(e.maxY, b.maxY))
  }

  /** The loop over a sequence of points of interest, in order. */
  function Envelope(e: Box, boxes: seq<Box>): Box
    decreases |boxes|
  {
    if |boxes| == 0 then e else Envelope(Grow(e, boxes[0]), boxes[1..])
  }

  function BenchBoxes(benches: seq<Vec2>): (s: seq<Box>)
    ensures |s| == |benches|
    ensures forall i :: 0 <= i < |s| ==> s[i] == SquareAt(benches[i].x, benches[i].y)
  {
    if |benches| == 0 then [] else [SquareAt(benches[0].x, benches[0].y)] + BenchBoxes(benches[1..])
  }

  function ItemBoxes(items: map<string, Item>, order: seq<string>): (s: seq<Box>)
    requires forall i :: 0 <= i < |order| ==> order[i] in items
    ensures |s| == |order|
    ensures forall i :: 0 <= i < |s| ==> s[i] == SquareAt(items[order[i]].x, items[order[i]].y)
  {
    if |order| == 0 then []
    else [SquareAt(items[order[0]].x, items[order[0]].y)] + ItemBoxes(items, order[1..])
  }

  function TransitionPoints(trs: map<string, Transition>, order: seq<string>): (s: seq<Box>)
    requires forall i :: 0 <= i < |order| ==> order[i] in trs
    ensures |s| == |order|
    ensures forall i :: 0 <= i < |s| ==> s[i] == PointAt(trs[order[i]].x, trs[order[i]].y)
  {
    if |order| == 0 then []
    else [PointAt(trs[order[0]].x, trs[order[0]].y)] + TransitionPoints(trs, order[1..])
  }

  /** The envelope after the three loops of calc_bounds, before padding. */
  function RawEnvelope(room: Room): Box
    requires room.Valid()
  {
    var afterBenches := Envelope(Start, BenchBoxes(room.benches));
    var afterItems := Envelope(afterBenches, ItemBoxes(room.items, room.itemOrder));
    Envelope(afterItems, TransitionPoints(room.transitions, room.transitionOrder))
  }

  /** The padding step of one axis. It is sequential: `hi` is widened using the
      already-lowered `lo`, so a span `w < 20` ends at `20 - (20 - w) / 4`. */
  function PadAxis(lo: real, hi: real): (r: (real, real))
    ensures hi - lo >= 20.0 ==> r == (lo, hi)
    ensures hi - lo < 20.0 ==> r.0 == lo - (20.0 - (hi - lo)) / 2.0
    ensures hi - lo < 20.0 ==> r.1 - r.0 == 20.0 - (20.0 - (hi - lo)) / 4.0
    ensures hi - lo < 20.0 ==> hi - lo < r.1 - r.0 < 20.0
  {
    if hi - lo < 20.0 then
      var lo' := lo - (20.0 - (hi - lo)) / 2.0;
      var hi' := hi + (20.0 - (hi - lo')) / 2.0;
      (lo', hi')
    else
      (lo, hi)
  }

  /** Whether calc_bounds returns its fixed 20×20 rectangle. */
  predicate TakesFallback(room: Room)
    requires room.Valid()
  {
    PadAxis(RawEnvelope(room).minX, RawEnvelope(room).maxX).0 == 10000.0
  }

  /** `Room::calc_bounds`. The 20×20 fallback tests the padded `min_x`. */
  function CalcBounds(room: Room): (r: Rect)
    requires room.Valid()
    ensures TakesFallback(room) ==> r == Rect(-10.0, -10.0, 20.0, 20.0)
    ensures !TakesFallback(room) ==>
      var e := RawEnvelope(room);
      && r.x <= e.minX && e.maxX <= r.x + r.w
      && r.y <= e.minY && e.maxY <= r.y + r.h
      && (e.maxX - e.minX >= 20.0 ==> r.x == e.minX && r.w == e.maxX - e.minX)
      && (e.maxY - e.minY >= 20.0 ==> r.y == e.minY && r.h == e.maxY - e.minY)
      && (e.maxX - e.minX < 20.0 ==> e.maxX - e.minX < r.w < 20.0)
      && (e.maxY - e.minY < 20.0 ==> e.maxY - e.minY < r.h < 20.0)
  {
    var e := RawEnvelope(room);
    var (x0, x1) := PadAxis(e.minX, e.maxX);
    var (y0, y1) := PadAxis(e.minY, e.maxY);
    if x0 == 10000.0 then Rect(-10.0, -10.0, 20.0, 20.0)
    else Rect(x0, y0, x1 - x0, y1 - y0)
  }

  // ----- envelope facts -----

  lemma {:induction false} EnvelopeCovers(e: Box, s: seq<Box>)
    ensures Covers(Envelope(e, s), e)
    ensures forall i :: 0 <= i < |s| ==> Covers(Envelope(e, s), s[i])
    decreases |s|
  {
    if |s| > 0 {
      EnvelopeCovers(Grow(e, s[0]), s[1..]);
      assert forall i :: 1 <= i < |s| ==> s[i] == s[1..][i - 1];
    }
  }

  lemma {:induction false} EnvelopeLeast(e: Box, s: seq<Box>, o: Box)
    requires Covers(o, e)
    requires forall i :: 0 <= i < |s| ==> Covers(o, s[i])
    ensures Covers(o, Envelope(e, s))
    decreases |s|
  {
    if |s| > 0 {
      assert Covers(o, s[0]);
      EnvelopeLeast(Grow(e, s[0]), s[1..], o);
    }
  }

  /** Folding more boxes never yields a smaller envelope. */
  lemma EnvelopeMonotone(e: Box, a: seq<Box>, b: seq<Box>)
    requires forall i :: 0 <= i < |a| ==> a[i] in b
    ensures Covers(Envelope(e, b), Envelope(e, a))
  {
    EnvelopeCovers(e, b);
    EnvelopeLeast(e, a, Envelope(e, b));
  }

  lemma {:induction false} EnvelopeAppend(e: Box, a: seq<Box>, b: seq<Box>)
    ensures Envelope(e, a + b) == Envelope(Envelope(e, a), b)
    decreases |a|
  {
    if |a| > 0 {
      assert (a + b)[1..] == a[1..] + b;
      EnvelopeAppend(Grow(e, a[0]), a[1..], b);
    } else {
      assert a + b == b;
    }
  }

  /** All points of interest of a room, in iteration order. */
  function Pois(room: Room): seq<Box>
    requires room.Valid()
  {
    BenchBoxes(room.benches) + ItemBoxes(room.items, room.itemOrder)
      + TransitionPoints(room.transitions, room.transitionOrder)
  }

  lemma RawIsEnvelopeOfPois(room: Room)
    requires room.Valid()
    ensures RawEnvelope(room) == Envelope(Start, Pois(room))
  {
    var bb := BenchBoxes(room.benches);
    var ib := ItemBoxes(room.items, room.itemOrder);
    var tp := TransitionPoints(room.transitions, room.transitionOrder);
    EnvelopeAppend(Start, bb + ib, tp);
    EnvelopeAppend(Start, bb, ib);
  }

  /** The raw envelope is the tightest box over `Start` and every bench and
      item square and transition point of the room. */
  lemma RawEnvelopeIsHull(room: Room)
    requires room.Valid()
    ensures Covers(RawEnvelope(room), Start)
    ensures forall b :: b in room.benches ==> Covers(RawEnvelope(room), SquareAt(b.x, b.y))
    ensures forall k :: k in room.items ==>
              Covers(RawEnvelope(room), SquareAt(room.items[k].x, room.items[k].y))
    ensures forall k :: k in room.transitions ==>
              Covers(RawEnvelope(room), PointAt(room.transitions[k].x, room.transitions[k].y))
    ensures forall o :: Covers(o, Start) && (forall i :: 0 <= i < |Pois(room)| ==> Covers(o, Pois(room)[i]))
              ==> Covers(o, RawEnvelope(room))
  {
    PoisCovered(room);
    HullParts(room, RawEnvelope(room));
    forall o | Covers(o, Start) && (forall i :: 0 <= i < |Pois(room)| ==> Covers(o, Pois(room)[i]))
      ensures Covers(o, RawEnvelope(room))
    {
      RawIsEnvelopeOfPois(room);
      EnvelopeLeast(Start, Pois(room), o);
    }
  }

  /** A box covering every point of interest covers each bench square, item
      square and transition point of the room. */
  lemma HullParts(room: Room, e: Box)
    requires room.Valid()
    requires forall i :: 0 <= i < |Pois(room)| ==> Covers(e, Pois(room)[i])
    ensures forall b :: b in room.benches ==> Covers(e, SquareAt(b.x, b.y))
    ensures forall k :: k in room.items ==> Covers(e, SquareAt(room.items[k].x, room.items[k].y))
    ensures forall k :: k in room.transitions ==> Covers(e, PointAt(room.transitions[k].x, room.transitions[k].y))
  {
    var bb := BenchBoxes(room.benches);
    var ib := ItemBoxes(room.items, room.itemOrder);
    var tp := TransitionPoints(room.transitions, room.transitionOrder);
    CoveredMembers(e, Pois(room));
    assert Pois(room) == bb + ib + tp;
    BenchesCovered(e, room.benches);
    ItemsCovered(e, room.items, room.itemOrder);
    TransitionsCovered(e, room.transitions, room.transitionOrder);
  }

  lemma CoveredMembers(e: Box, p: seq<Box>)
    requires forall i :: 0 <= i < |p| ==> Covers(e, p[i])
    ensures forall x :: x in p ==> Covers(e, x)
  {
  }

  lemma BenchesCovered(e: Box, benches: seq<Vec2>)
    requires forall x :: x in BenchBoxes(benches) ==> Covers(e, x)
    ensures forall b :: b in benches ==> Covers(e, SquareAt(b.x, b.y))
  {
    var bb := BenchBoxes(benches);
    forall b | b in benches
      ensures Covers(e, SquareAt(b.x, b.y))
    {
      var i :| 0 <= i < |benches| && benches[i] == b;
      assert bb[i] in bb;
    }
  }

  lemma ItemsCovered(e: Box, items: map<string, Item>, order: seq<string>)
    requires forall i :: 0 <= i < |order| ==> order[i] in items
    requires forall k :: k in items ==> k in order
    requires forall x :: x in ItemBoxes(items, order) ==> Covers(e, x)
    ensures forall k :: k in items ==> Covers(e, SquareAt(items[k].x, items[k].y))
  {
    var ib := ItemBoxes(items, order);
    forall k | k in items
      ensures Covers(e, SquareAt(items[k].x, items[k].y))
    {
      var i :| 0 <= i < |order| && order[i] == k;
      assert ib[i] in ib;
    }
  }

  lemma TransitionsCovered(e: Box, trs: map<string, Transition>, order: seq<string>)
    requires forall i :: 0 <= i < |order| ==> order[i] in trs
    requires forall k :: k in trs ==> k in order
    requires forall x :: x in TransitionPoints(trs, order) ==> Covers(e, x)
    ensures forall k :: k in trs ==> Covers(e, PointAt(trs[k].x, trs[k].y))
  {
    var tp := TransitionPoints(trs, order);
    forall k | k in trs
      ensures Covers(e, PointAt(trs[k].x, trs[k].y))
    {
      var i :| 0 <= i < |order| && order[i] == k;
      assert tp[i] in tp;
    }
  }

  /** The raw envelope covers the start box and every point of interest. */
  lemma PoisCovered(room: Room)
    requires room.Valid()
    ensures Covers(RawEnvelope(room), Start)
    ensures forall i :: 0 <= i < |Pois(room)| ==> Covers(RawEnvelope(room), Pois(room)[i])
  {
    RawIsEnvelopeOfPois(room);
    EnvelopeCovers(Start, Pois(room));
  }

  /** The two rooms have the same points of interest, only the `HashMap`
      iteration orders may differ. */
  predicate SameContents(r1: Room, r2: Room)
  {
    && r1.benches == r2.benches
    && r1.items == r2.items
    && r1.transitions == r2.transitions
  }

  lemma ItemBoxesIncluded(m1: map<string, Item>, o1: seq<string>, m2: map<string, Item>, o2: seq<string>)
    requires Enumerates(o1, m1) && Enumerates(o2, m2)
    requires forall k :: k in m1 ==> k in m2 && m2[k] == m1[k]
    ensures forall i :: 0 <= i < |o1| ==> ItemBoxes(m1, o1)[i] in ItemBoxes(m2, o2)
  {
    var s1, s2 := ItemBoxes(m1, o1), ItemBoxes(m2, o2);
    forall i | 0 <= i < |o1|
      ensures s1[i] in s2
    {
      var k := o1[i];
      assert k in m1;
      assert k in o2;
      var j :| 0 <= j < |o2| && o2[j] == k;
      assert s2[j] == s1[i];
    }
  }

  lemma TransitionPointsIncluded(m1: map<string, Transition>, o1: seq<string>,
                                 m2: map<string, Transition>, o2: seq<string>)
    requires Enumerates(o1, m1) && Enumerates(o2, m2)
    requires forall k :: k in m1 ==> k in m2 && m2[k] == m1[k]
    ensures forall i :: 0 <= i < |o1| ==> TransitionPoints(m1, o1)[i] in TransitionPoints(m2, o2)
  {
    var s1, s2 := TransitionPoints(m1, o1), TransitionPoints(m2, o2);
    forall i | 0 <= i < |o1|
      ensures s1[i] in s2
    {
      var k := o1[i];
      assert k in m1;
      assert k in o2;
      var j :| 0 <= j < |o2| && o2[j] == k;
      assert s2[j] == s1[i];
    }
  }

  lemma BenchBoxesIncluded(b1: seq<Vec2>, b2: seq<Vec2>)
    requires forall i :: 0 <= i < |b1| ==> b1[i] in b2
    ensures forall i :: 0 <= i < |b1| ==> BenchBoxes(b1)[i] in BenchBoxes(b2)
  {
    forall i | 0 <= i < |b1|
      ensures BenchBoxes(b1)[i] in BenchBoxes(b2)
    {
      var j :| 0 <= j < |b2| && b2[j] == b1[i];
      assert BenchBoxes(b2)[j] == BenchBoxes(b1)[i];
    }
  }

  lemma ConcatIncluded(a1: seq<Box>, b1: seq<Box>, c1: seq<Box>, a2: seq<Box>, b2: seq<Box>, c2: seq<Box>)
    requires forall i :: 0 <= i < |a1| ==> a1[i] in a2
    requires forall i :: 0 <= i < |b1| ==> b1[i] in b2
    requires forall i :: 0 <= i < |c1| ==> c1[i] in c2
    ensures forall i :: 0 <= i < |a1 + b1 + c1| ==> (a1 + b1 + c1)[i] in a2 + b2 + c2
  {
    forall i | 0 <= i < |a1 + b1 + c1|
      ensures (a1 + b1 + c1)[i] in a2 + b2 + c2
    {
      if i < |a1| {
        assert (a1 + b1 + c1)[i] == a1[i];
      } else if i < |a1| + |b1| {
        assert (a1 + b1 + c1)[i] == b1[i - |a1|];
      } else {
        assert (a1 + b1 + c1)[i] == c1[i - |a1| - |b1|];
      }
    }
  }

  /** Every point of interest of `r1` is one of `r2` when `r2` has at least
      `r1`'s benches, items and transitions. */
  lemma PoisIncluded(r1: Room, r2: Room)
    requires r1.Valid() && r2.Valid()
    requires forall i :: 0 <= i < |r1.benches| ==> r1.benches[i] in r2.benches
    requires forall k :: k in r1.items ==> k in r2.items && r2.items[k] == r1.items[k]
    requires forall k :: k in r1.transitions ==> k in r2.transitions && r2.transitions[k] == r1.transitions[k]
    ensures forall i :: 0 <= i < |Pois(r1)| ==> Pois(r1)[i] in Pois(r2)
  {
    BenchBoxesIncluded(r1.benches, r2.benches);
    ItemBoxesIncluded(r1.items, r1.itemOrder, r2.items, r2.itemOrder);
    TransitionPointsIncluded(r1.transitions, r1.transitionOrder, r2.transitions, r2.transitionOrder);
    ConcatIncluded(BenchBoxes(r1.benches), ItemBoxes(r1.items, r1.itemOrder),
                   TransitionPoints(r1.transitions, r1.transitionOrder),
                   BenchBoxes(r2.benches), ItemBoxes(r2.items, r2.itemOrder),
                   TransitionPoints(r2.transitions, r2.transitionOrder));
  }

  /** calc_bounds does not depend on the iteration order of `items` or
      `transitions`. */
  lemma CalcBoundsOrderIndependent(r1: Room, r2: Room)
    requires r1.Valid() && r2.Valid() && SameContents(r1, r2)
    ensures RawEnvelope(r1) == RawEnvelope(r2)
    ensures CalcBounds(r1) == CalcBounds(r2)
  {
    RawIsEnvelopeOfPois(r1);
    RawIsEnvelopeOfPois(r2);
    PoisIncluded(r1, r2);
    PoisIncluded(r2, r1);
    EnvelopeMonotone(Start, Pois(r1), Pois(r2));
    EnvelopeMonotone(Start, Pois(r2), Pois(r1));
  }

  /** calc_bounds does not depend on the order of `benches` either. */
  lemma CalcBoundsBenchOrderIndependent(r1: Room, r2: Room)
    requires r1.Valid() && r2.Valid()
    requires r1.items == r2.items && r1.transitions == r2.transitions
    requires multiset(r1.benches) == multiset(r2.benches)
    ensures CalcBounds(r1) == CalcBounds(r2)
  {
    forall i | 0 <= i < |r1.benches|
      ensures r1.benches[i] in r2.benches
    {
      assert r1.benches[i] in multiset(r2.benches);
    }
    forall i | 0 <= i < |r2.benches|
      ensures r2.benches[i] in r1.benches
    {
      assert r2.benches[i] in multiset(r1.benches);
    }
    RawIsEnvelopeOfPois(r1);
    RawIsEnvelopeOfPois(r2);
    PoisIncluded(r1, r2);
    PoisIncluded(r2, r1);
    EnvelopeMonotone(Start, Pois(r1), Pois(r2));
    EnvelopeMonotone(Start, Pois(r2), Pois(r1));
  }

  /** Adding a bench never shrinks the raw envelope. */
  lemma AddBenchGrows(room: Room, b: Vec2)
    requires room.Valid()
    ensures Covers(RawEnvelope(room.(benches := room.benches + [b])), RawEnvelope(room))
  {
    var r2 := room.(benches := room.benches + [b]);
    assert forall i :: 0 <= i < |room.benches| ==> r2.benches[i] == room.benches[i];
    PoisIncluded(room, r2);
    RawIsEnvelopeOfPois(room);
    RawIsEnvelopeOfPois(r2);
    EnvelopeMonotone(Start, Pois(room), Pois(r2));
  }

  /** Inserting a fresh key anywhere into an iteration order gives an
      iteration order of the extended map. */
  lemma InsertEnumerates<V>(o: seq<string>, m: map<string, V>, k: string, v: V, pos: nat)
    requires Enumerates(o, m) && k !in m && pos <= |o|
    ensures Enumerates(o[..pos] + [k] + o[pos..], m[k := v])
  {
    var o2 := o[..pos] + [k] + o[pos..];
    assert forall i :: 0 <= i < |o2| ==> o2[i] == (if i < pos then o[i] else if i == pos then k else o[i - 1]);
    forall q | q in m[k := v]
      ensures q in o2
    {
      if q != k {
        var i :| 0 <= i < |o| && o[i] == q;
        if i < pos { assert o2[i] == q; } else { assert o2[i + 1] == q; }
      } else {
        assert o2[pos] == k;
      }
    }
  }

  /** Adding an item under a fresh key never shrinks the raw envelope,
      wherever the key lands in the iteration order. */
  lemma AddItemGrows(room: Room, k: string, it: Item, pos: nat)
    requires room.Valid() && k !in room.items && pos <= |room.itemOrder|
    ensures room.(items := room.items[k := it],
                  itemOrder := room.itemOrder[..pos] + [k] + room.itemOrder[pos..]).Valid()
    ensures Covers(RawEnvelope(room.(items := room.items[k := it],
                                     itemOrder := room.itemOrder[..pos] + [k] + room.itemOrder[pos..])),
                   RawEnvelope(room))
  {
    InsertEnumerates(room.itemOrder, room.items, k, it, pos);
    var r2 := room.(items := room.items[k := it],
                    itemOrder := room.itemOrder[..pos] + [k] + room.itemOrder[pos..]);
    PoisIncluded(room, r2);
    RawIsEnvelopeOfPois(room);
    RawIsEnvelopeOfPois(r2);
    EnvelopeMonotone(Start, Pois(room), Pois(r2));
  }

  // ----- padding and the final rectangle -----

  /** An axis whose raw span is at least 20 is reported exactly. */
  lemma WideAxisExact(room: Room)
    requires room.Valid() && !TakesFallback(room)
    ensures var e := RawEnvelope(room);
      && (e.maxX - e.minX >= 20.0 ==> CalcBounds(room).x == e.minX && CalcBounds(room).w == e.maxX - e.minX)
      && (e.maxY - e.minY >= 20.0 ==> CalcBounds(room).y == e.minY && CalcBounds(room).h == e.maxY - e.minY)
  {
  }

  /** An axis whose raw span `w` is below 20 ends with span `20 - (20 - w) / 4`,
      strictly between `w` and 20. */
  lemma NarrowAxisPadded(room: Room)
    requires room.Valid() && !TakesFallback(room)
    ensures var e := RawEnvelope(room); var w := e.maxX - e.minX;
      w < 20.0 ==> CalcBounds(room).w == 20.0 - (20.0 - w) / 4.0 && w < CalcBounds(room).w < 20.0
    ensures var e := RawEnvelope(room); var h := e.maxY - e.minY;
      h < 20.0 ==> CalcBounds(room).h == 20.0 - (20.0 - h) / 4.0 && h < CalcBounds(room).h < 20.0
  {
  }

  /** A room with no points of interest: padding has already moved `min_x`
      from 10000 to -10 when the fallback condition is evaluated, so the fallback is not
      taken and the result has negative size. */
  lemma EmptyRoomBounds(room: Room)
    requires room.Valid()
    requires room.benches == [] && room.items == map[] && room.transitions == map[]
    ensures !TakesFallback(room)
    ensures CalcBounds(room) == Rect(-10.0, -10.0, -4985.0, -4985.0)
  {
    assert RawEnvelope(room) == Start;
  }

  /** The fallback is reached only when the padded `min_x` is exactly 10000,
      for instance by transitions at `x = 10000` and `x = 10050`. */
  lemma FallbackExample()
    ensures var room := Room(None, [], map[], [], None, None, None,
                             map["a" := Transition(None, 10000.0, 0.0), "b" := Transition(None, 10050.0, 0.0)],
                             ["a", "b"]);
      room.Valid() && TakesFallback(room) && CalcBounds(room) == Rect(-10.0, -10.0, 20.0, 20.0)
  {
    var room := Room(None, [], map[], [], None, None, None,
                     map["a" := Transition(None, 10000.0, 0.0), "b" := Transition(None, 10050.0, 0.0)],
                     ["a", "b"]);
    assert room.Valid();
    var tp := TransitionPoints(room.transitions, room.transitionOrder);
    assert tp == [PointAt(10000.0, 0.0), PointAt(10050.0, 0.0)];
    assert RawEnvelope(room) == Envelope(Start, tp);
    assert RawEnvelope(room) == Box(10000.0, 10050.0, 0.0, 0.0);
  }
}
