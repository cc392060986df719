/** Qualified transition ids `"Room[name]"`: the parser
    `Transition::get_transition_info` and the `format!("{id}[{tr_id}]")`
    pattern that builds them. */
module TransitionId {
  import opened Basics

  /** Position of the first `c` in `s`, or `|s|` when `s` has none. */
  function FirstIndex(s: string, c: char): (i: nat)
    ensures i <= |s|
    ensures i < |s| ==> s[i] == c
    ensures forall j :: 0 <= j < i ==> s[j] != c
  {
    if |s| == 0 then 0
    else if s[0] == c then 0
    else 1 + FirstIndex(s[1..], c)
  }

  /** `str::split_once(c)`: the text before and after the first `c`. */
  function SplitOnce(s: string, c: char): (r: Option<(string, string)>)
    ensures r.None? <==> c !in s
    ensures r.Some? ==> s == r.value.0 + [c] + r.value.1 && c !in r.value.0
  {
    var i := FirstIndex(s, c);
    if i == |s| then None
    else
      assert s == s[..i] + [c] + s[i + 1..];
      Some((s[..i], s[i + 1..]))
  }

  /** A run of `k` closing brackets. */
  function Closers(k: nat): (r: string)
    ensures |r| == k
    ensures forall j :: 0 <= j < k ==> r[j] == ']'
  {
    if k == 0 then "" else Closers(k - 1) + "]"
  }

  predicate EndsWithCloser(s: string)
  {
    |s| > 0 && s[|s| - 1] == ']'
  }

  /** `str::trim_end_matches("]")`: every trailing `]` is removed, not just one. */
  function TrimClosers(s: string): (r: string)
    ensures !EndsWithCloser(r)
    ensures |r| <= |s|
    ensures s == r + Closers(|s| - |r|)
    decreases |s|
  {
    if EndsWithCloser(s) then
      var r := TrimClosers(s[..|s| - 1]);
      assert s[..|s| - 1] == r + Closers(|s| - 1 - |r|);
      r
    else
      s
  }

  /** `Transition::get_transition_info`: the room part before the first `[`
      and the transition name after it with trailing `]` trimmed. */
  function GetTransitionInfo(id: string): (r: Option<(string, string)>)
    ensures r.None? <==> '[' !in id
    ensures r.Some? ==> '[' !in r.value.0 && !EndsWithCloser(r.value.1)
    ensures r.Some? ==> |r.value.0| + 1 + |r.value.1| <= |id|
    ensures r.Some? ==> id == r.value.0 + "[" + r.value.1 + Closers(|id| - |r.value.0| - 1 - |r.value.1|)
  {
    match SplitOnce(id, '[')
    case None => None
    case Some((room, rest)) =>
      var name := TrimClosers(rest);
      assert rest == name + Closers(|rest| - |name|);
      assert id == room + "[" + name + Closers(|rest| - |name|);
      Some((room, name))
  }

  /** The room part alone: the text before the first `[`, when there is one.
      This is the first component `get_transition_info` returns, which is all
      the search and the render expansion use. */
  function RoomPart(id: string): Option<string>
  {
    var i := FirstIndex(id, '[');
    if i == |id| then None else Some(id[..i])
  }

  /** `RoomPart` agrees with the first component of `GetTransitionInfo`. */
  lemma RoomPartAgrees(id: string)
    ensures RoomPart(id).None? <==> GetTransitionInfo(id).None?
    ensures RoomPart(id).Some? ==> RoomPart(id).value == GetTransitionInfo(id).value.0
  {
  }

  /** The qualified id of transition `name` of room `room`. */
  function Qualify(room: string, name: string): string
  {
    room + "[" + name + "]"
  }

  /** The room part is recovered from any qualified id whose room has no `[`. */
  lemma RoomOfQualify(room: string, name: string)
    requires '[' !in room
    ensures GetTransitionInfo(Qualify(room, name)).Some?
    ensures GetTransitionInfo(Qualify(room, name)).value.0 == room
  {
    var s := Qualify(room, name);
    assert s[|room|] == '[';
    assert s[..|room|] == room;
  }

  /** The room part of a qualified id whose room has no `[` is that room. */
  lemma RoomPartOfQualify(room: string, name: string)
    requires '[' !in room
    ensures RoomPart(Qualify(room, name)) == Some(room)
  {
    RoomOfQualify(room, name);
    RoomPartAgrees(Qualify(room, name));
  }

  /** Round trip: parsing `room[name]` gives back `(room, name)` when the room
      has no `[` and the name does not end in `]`. */
  lemma RoundTrip(room: string, name: string)
    requires '[' !in room
    requires !EndsWithCloser(name)
    ensures GetTransitionInfo(Qualify(room, name)) == Some((room, name))
  {
    var rest := name + "]";
    assert Qualify(room, name) == room + "[" + rest;
    SplitAtFirst(room, rest);
    assert rest[..|rest| - 1] == name;
    assert TrimClosers(rest) == TrimClosers(name) == name;
  }

  /** Splitting `room + "[" + rest` at the first `[` gives `room` and `rest`
      when `room` has no `[`. */
  lemma SplitAtFirst(room: string, rest: string)
    requires '[' !in room
    ensures SplitOnce(room + "[" + rest, '[') == Some((room, rest))
  {
    var s := room + "[" + rest;
    var i := FirstIndex(s, '[');
    assert s[|room|] == '[';
    assert forall j :: 0 <= j < |room| ==> s[j] == room[j] && s[j] != '[';
    assert i == |room|;
    assert s[..i] == room && s[i + 1..] == rest;
  }

  /** Two rooms without `[` never share a qualified id unless room and name agree. */
  lemma QualifyInjective(r1: string, n1: string, r2: string, n2: string)
    requires '[' !in r1 && '[' !in r2
    ensures Qualify(r1, n1) == Qualify(r2, n2) <==> r1 == r2 && n1 == n2
  {
    if Qualify(r1, n1) == Qualify(r2, n2) {
      RoomOfQualify(r1, n1);
      RoomOfQualify(r2, n2);
      assert r1 == r2;
      assert Qualify(r1, n1)[|r1| + 1..|Qualify(r1, n1)| - 1] == n1;
      assert Qualify(r2, n2)[|r2| + 1..|Qualify(r2, n2)| - 1] == n2;
    }
  }
}
