/**
 * The legacy `io.kvarto.http.impl.StringMultiMapImpl`
 * (http/impl/StringMultiMapImpl.kt): the same immutable wrapper over a
 * Vert.x case-insensitive multimap, with `addAll` taking a list, a map or
 * another multimap. A `Map` argument is given as its entry list in
 * iteration order, the order in which Vert.x adds it.
 */
module LegacyStringMultiMapImpl {
  import opened Wrappers
  import opened Text
  import VM = VertxMultiMap

  type Pair = VM.Pair

  datatype StringMultiMap = StringMultiMap(impl: VM.MultiMap)

  /** `StringMultiMap.EMPTY`. */
  const Empty: StringMultiMap := StringMultiMap(VM.Empty)

  /** `values()`: the entries in insertion order; `getAll` finds each under its own name. */
  function Values(m: StringMultiMap): (r: seq<Pair>)
    ensures forall i {:trigger VM.GetAll(m.impl, r[i].0)} :: 0 <= i < |r| ==> r[i].1 in VM.GetAll(m.impl, r[i].0)
  {
    var r := m.impl.entries;
    forall i | 0 <= i < |r| ensures r[i].1 in VM.GetAll(m.impl, r[i].0) {
      Text.EqualsIgnoreCaseIsEquivalence(r[i].0, r[i].0, r[i].0);
      VM.ValuesNamedMembers(r, r[i].0, r[i].1);
    }
    r
  }

  /** `get(name)`: the first value `getAll(name)` lists, or null. */
  function Get(m: StringMultiMap, name: string): (r: Option<string>)
    ensures r == (if |GetAll(m, name)| == 0 then None else Some(GetAll(m, name)[0]))
  {
    VM.GetIsFirstOfGetAll(m.impl, name);
    VM.Get(m.impl, name)
  }

  /** `getAll(name)`: every value under a name equal to `name` ignoring case, in insertion order. */
  function GetAll(m: StringMultiMap, name: string): (r: seq<string>)
    ensures forall v :: v in r <==> exists i :: 0 <= i < |Values(m)| && EqualsIgnoreCase(Values(m)[i].0, name) && Values(m)[i].1 == v
  {
    assert Values(m) == m.impl.entries;
    forall v ensures v in VM.GetAll(m.impl, name) <==> exists i :: 0 <= i < |Values(m)| && EqualsIgnoreCase(Values(m)[i].0, name) && Values(m)[i].1 == v {
      VM.ValuesNamedMembers(m.impl.entries, name, v);
    }
    VM.GetAll(m.impl, name)
  }

  /** `add(name, value)`: a copy of the receiver's entries followed by (name, value). */
  function Add(m: StringMultiMap, name: string, value: string): (r: StringMultiMap)
    ensures Values(r) == Values(m) + [(name, value)]
  {
    var copy := VM.AddAll(VM.Empty, m.impl.entries);
    assert copy.entries == m.impl.entries;
    StringMultiMap(VM.Add(copy, name, value))
  }

  /** `addAll(list)`: a copy of the receiver's entries followed by the pairs, each added in list order. */
  function AddAllList(m: StringMultiMap, params: seq<Pair>): (r: StringMultiMap)
    ensures Values(r) == Values(m) + params
  {
    var copy := VM.AddAll(VM.Empty, m.impl.entries);
    assert copy.entries == m.impl.entries;
    StringMultiMap(VM.AddEach(copy, params))
  }

  /** `addAll(map)`: a copy of the receiver's entries followed by the map's entries in one bulk `addAll`. */
  function AddAllMap(m: StringMultiMap, params: seq<Pair>): (r: StringMultiMap)
    ensures Values(r) == Values(m) + params
  {
    var copy := VM.AddAll(VM.Empty, m.impl.entries);
    assert copy.entries == m.impl.entries;
    StringMultiMap(VM.AddAll(copy, params))
  }

  /** `addAll(other)`: `addAll(other.values())`. */
  function AddAllMultiMap(m: StringMultiMap, other: StringMultiMap): (r: StringMultiMap)
    ensures Values(r) == Values(m) + Values(other)
  {
    AddAllList(m, Values(other))
  }

  /** Adding a map or a list of the same pairs gives the same multimap. */
  lemma AddAllMapIsAddAllList(m: StringMultiMap, params: seq<Pair>)
    ensures AddAllMap(m, params) == AddAllList(m, params)
  {
  }

  /** After `addAll`, `getAll` lists the old values first, then those of the matching added pairs in order. */
  lemma GetAllAfterAddAll(m: StringMultiMap, params: seq<Pair>, q: string)
    ensures GetAll(AddAllList(m, params), q) == GetAll(m, q) + VM.ValuesNamed(params, q)
  {
    VM.ValuesNamedAppend(m.impl.entries, params, q);
  }

  /** Names are matched ignoring case by both `get` and `getAll`. */
  lemma LookupIgnoresCase(m: StringMultiMap, a: string, b: string)
    requires EqualsIgnoreCase(a, b)
    ensures GetAll(m, a) == GetAll(m, b)
    ensures Get(m, a) == Get(m, b)
  {
    ValuesNamedIgnoresCase(m.impl.entries, a, b);
  }

  lemma {:induction false} ValuesNamedIgnoresCase(entries: seq<Pair>, a: string, b: string)
    requires EqualsIgnoreCase(a, b)
    ensures VM.ValuesNamed(entries, a) == VM.ValuesNamed(entries, b)
    decreases |entries|
  {
    if |entries| > 0 {
      ValuesNamedIgnoresCase(entries[..|entries| - 1], a, b);
    }
  }
}
