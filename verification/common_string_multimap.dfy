/**
 * The `io.kvarto.http.common.StringMultiMap` companion and its extensions
 * (common/StringMultiMap.kt), over the client implementation. The
 * interface's `plus(list)` and `entries()` are the implementation's
 * `addAll(list)` and `values()`. A Kotlin `Map` argument is given as its
 * entry list in iteration order, which is what `toList()` yields.
 */
module CommonStringMultiMap {
  import opened Wrappers
  import opened Text
  import opened ClientStringMultiMapImpl

  /** `m + params`. */
  function Plus(m: StringMultiMap, params: seq<Pair>): (r: StringMultiMap)
    ensures Values(r) == Values(m) + params
  {
    AddAll(m, params)
  }

  /** `StringMultiMap.of(values)`: exactly the given pairs, in order. */
  function Of(values: seq<Pair>): (r: StringMultiMap)
    ensures Values(r) == values
  {
    Plus(Empty, values)
  }

  /** `m + map`: the map's entries appended in iteration order. */
  function PlusMap(m: StringMultiMap, mapEntries: seq<Pair>): (r: StringMultiMap)
    ensures Values(r) == Values(m) + mapEntries
  {
    Plus(m, mapEntries)
  }

  /** `map.toMultiMap()`: the map's entries, in iteration order. */
  function ToMultiMap(mapEntries: seq<Pair>): (r: StringMultiMap)
    ensures Values(r) == mapEntries
  {
    PlusMap(Empty, mapEntries)
  }

  /** `m + other`: the other multimap's entries appended in order. */
  function PlusMultiMap(m: StringMultiMap, other: StringMultiMap): (r: StringMultiMap)
    ensures Values(r) == Values(m) + Values(other)
  {
    Plus(m, Values(other))
  }

  /** `key in m`: some entry's name equals `key` ignoring case. */
  function Contains(m: StringMultiMap, key: string): (r: bool)
    ensures r <==> exists i :: 0 <= i < |Values(m)| && EqualsIgnoreCase(Values(m)[i].0, key)
  {
    Get(m, key).Some?
  }

  /** The three ways of appending agree: `m + map` is `m + map.toList()`, `m + other` is `m + other.entries()`, and `toMultiMap` is `of`. */
  lemma PlusVariantsAgree(m: StringMultiMap, mapEntries: seq<Pair>, other: StringMultiMap)
    ensures PlusMap(m, mapEntries) == Plus(m, mapEntries)
    ensures PlusMultiMap(m, other) == Plus(m, Values(other))
    ensures ToMultiMap(mapEntries) == Of(mapEntries)
  {
  }

  /** After appending pairs a key is contained when it was before or some appended pair carries it. */
  lemma ContainsAfterPlus(m: StringMultiMap, params: seq<Pair>, key: string)
    ensures Contains(Plus(m, params), key)
            <==> Contains(m, key) || exists j :: 0 <= j < |params| && EqualsIgnoreCase(params[j].0, key)
  {
    var all := Values(Plus(m, params));
    assert all == Values(m) + params;
    if exists j :: 0 <= j < |params| && EqualsIgnoreCase(params[j].0, key) {
      var j :| 0 <= j < |params| && EqualsIgnoreCase(params[j].0, key);
      assert all[|Values(m)| + j] == params[j];
    }
    if Contains(m, key) {
      var i :| 0 <= i < |Values(m)| && EqualsIgnoreCase(Values(m)[i].0, key);
      assert all[i] == Values(m)[i];
    }
    if Contains(Plus(m, params), key) {
      var i :| 0 <= i < |all| && EqualsIgnoreCase(all[i].0, key);
      if i >= |Values(m)| {
        assert all[i] == params[i - |Values(m)|];
      } else {
        assert all[i] == Values(m)[i];
      }
    }
  }
}
