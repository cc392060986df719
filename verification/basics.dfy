/** Small shared vocabulary: optional values, 2-D points, clamping, string
    prefixes and the "iteration order of a hash map" notion used throughout. */
module Basics {

  /** Rust's `Option`. Where the source calls `unwrap()` on a value that may be
      absent, the model returns `None` in place of the panic. */
  datatype Option<+T> = None | Some(value: T)

  /** An `(f32, f32)` pair of the source, over the reals. */
  datatype Vec2 = Vec2(x: real, y: real)

  const Origin: Vec2 := Vec2(0.0, 0.0)

  /** Rust's `f32::clamp(lo, hi)` (NaN is not modelled). */
  function Clamp(v: real, lo: real, hi: real): (r: real)
    requires lo <= hi
    ensures lo <= r <= hi
    ensures lo <= v <= hi ==> r == v
    ensures v < lo ==> r == lo
    ensures hi < v ==> r == hi
  {
    if v < lo then lo else if v > hi then hi else v
  }

  function Abs(v: real): (r: real)
    ensures r >= 0.0
    ensures r == v || r == -v
  {
    if v < 0.0 then -v else v
  }

  /** `str::starts_with`. */
  predicate StartsWith(s: string, prefix: string)
  {
    |prefix| <= |s| && s[..|prefix|] == prefix
  }

  /** No key occurs twice in the sequence. */
  predicate Distinct<K(==)>(keys: seq<K>)
  {
    forall i, j :: 0 <= i < j < |keys| ==> keys[i] != keys[j]
  }

  /** `keys` is one iteration order of the map `m`: every key exactly once.
      A Rust `HashMap` is iterated in such an order, fixed but unspecified. */
  ghost predicate Enumerates<V>(keys: seq<string>, m: map<string, V>)
  {
    && Distinct(keys)
    && (forall k :: k in m <==> k in keys)
  }

  /** Same notion for a set (a snapshot of `HashMap::keys()`). */
  ghost predicate EnumeratesSet(keys: seq<string>, s: set<string>)
  {
    && Distinct(keys)
    && (forall k :: k in s <==> k in keys)
  }
}
