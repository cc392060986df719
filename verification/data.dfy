/** `MapData` (the static world, loaded once) and `RandoData` (the per-save
    transition table, revealed transitions and live room positions). */
module Data {
  import opened Basics
  import opened Rooms

  /** `roomOrder` is the fixed iteration order of the immutable `rooms` map. */
  datatype MapData = MapData(areas: map<string, string>, rooms: map<string, Room>, roomOrder: seq<string>)
  {
    /** Well-formed world: the order enumerates the rooms, every room is
        well-formed, and no room id contains `[` (qualified transition ids are
        re-parsed at the first `[`). */
    ghost predicate Valid()
    {
      && Enumerates(roomOrder, rooms)
      && (forall id :: id in rooms ==> '[' !in id && rooms[id].Valid())
    }
  }

  datatype RandoData = RandoData(
    transitionMap: map<string, string>,
    visitedTransitions: set<string>,
    roomPositions: map<string, Vec2>)
}
