/** `GetSplit::split` and `SplitWrapper`: take one entry out of a map, hand
    out its value together with the rest of the map, and put the value back
    under the same key when the wrapper is dropped. Modelled as pure map
    operations: the wrapper holds the rest of the map by value. */
module SplitMap {
  import opened Basics

  /** `key` and `inner` mirror the two `Option` fields of the source, which
      `drop` unwraps. */
  datatype SplitWrapper<K, V> = SplitWrapper(key: Option<K>, inner: Option<(V, map<K, V>)>)
  {
    /** Both fields are present, so the unwraps in `drop` and `deref` succeed. */
    predicate Live()
    {
      key.Some? && inner.Some?
    }
  }

  /** `HashMap::split`: `None` when the key is absent. */
  function Split<K, V>(m: map<K, V>, k: K): (r: Option<SplitWrapper<K, V>>)
    ensures r.None? <==> k !in m
    ensures r.Some? ==> r.value.Live()
    ensures r.Some? ==> r.value.key.value == k && r.value.inner.value.0 == m[k]
    ensures r.Some? ==> r.value.inner.value.1 == m - {k} && k !in r.value.inner.value.1
  {
    if k in m then Some(SplitWrapper(Some(k), Some((m[k], m - {k})))) else None
  }

  /** `Deref`: the held value. */
  function Held<K, V>(w: SplitWrapper<K, V>): V
    requires w.Live()
  {
    w.inner.value.0
  }

  /** `Deref`: the rest of the map. */
  function Rest<K, V>(w: SplitWrapper<K, V>): map<K, V>
    requires w.Live()
  {
    w.inner.value.1
  }

  /** `DerefMut` on the held value. */
  function SetHeld<K, V>(w: SplitWrapper<K, V>, v: V): (w': SplitWrapper<K, V>)
    requires w.Live()
    ensures w'.Live() && Held(w') == v && Rest(w') == Rest(w) && w'.key == w.key
  {
    w.(inner := Some((v, w.inner.value.1)))
  }

  /** `DerefMut` on the rest of the map (any edit, given as the new map). */
  function SetRest<K, V>(w: SplitWrapper<K, V>, rest: map<K, V>): (w': SplitWrapper<K, V>)
    requires w.Live()
    ensures w'.Live() && Held(w') == Held(w) && Rest(w') == rest && w'.key == w.key
  {
    w.(inner := Some((w.inner.value.0, rest)))
  }

  /** `Drop`: reinsert the held value under the key, overwriting any entry the
      rest may have gained for that key meanwhile. */
  function Drop<K, V>(w: SplitWrapper<K, V>): (m: map<K, V>)
    requires w.Live()
    ensures m.Keys == Rest(w).Keys + {w.key.value}
    ensures m[w.key.value] == Held(w)
    ensures forall k :: k in Rest(w) && k != w.key.value ==> m[k] == Rest(w)[k]
  {
    w.inner.value.1[w.key.value := w.inner.value.0]
  }

  /** Dropping an untouched wrapper restores the original map exactly. */
  lemma DropRestores<K, V>(m: map<K, V>, k: K)
    requires k in m
    ensures Drop(Split(m, k).value) == m
  {
    var d := Drop(Split(m, k).value);
    assert d.Keys == m.Keys;
  }

  /** An edit of the held value through `DerefMut` persists after drop, and
      nothing else changes. */
  lemma EditPersists<K, V>(m: map<K, V>, k: K, v: V)
    requires k in m
    ensures Drop(SetHeld(Split(m, k).value, v)) == m[k := v]
  {
    var d := Drop(SetHeld(Split(m, k).value, v));
    assert d.Keys == m[k := v].Keys;
  }

  /** A value inserted under the split key into the rest is overwritten on drop. */
  lemma DropOverwritesKey<K, V>(m: map<K, V>, k: K, v: V)
    requires k in m
    ensures var w := Split(m, k).value;
      Drop(SetRest(w, Rest(w)[k := v])) == m
  {
    var w := Split(m, k).value;
    var d := Drop(SetRest(w, Rest(w)[k := v]));
    assert d.Keys == m.Keys;
  }
}
