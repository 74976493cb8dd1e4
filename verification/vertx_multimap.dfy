/**
 * Vert.x `MultiMap.caseInsensitiveMultiMap()`, as both StringMultiMapImpl
 * classes use it: an ordered list of (name, value) entries kept in
 * insertion order, names compared ignoring ASCII case. `get` answers the
 * first value under a name, `getAll` every value under it in insertion
 * order, and iteration yields the entries as they were added.
 */
module VertxMultiMap {
  import opened Wrappers
  import opened Text

  type Pair = (string, string)

  datatype MultiMap = MultiMap(entries: seq<Pair>)

  const Empty: MultiMap := MultiMap([])

  /** The values of the entries whose name equals `name` ignoring case, in order. */
  function ValuesNamed(entries: seq<Pair>, name: string): seq<string>
  {
    if |entries| == 0 then []
    else ValuesNamed(entries[..|entries| - 1], name)
         + (if EqualsIgnoreCase(entries[|entries| - 1].0, name) then [entries[|entries| - 1].1] else [])
  }

  lemma {:induction false} ValuesNamedAppend(a: seq<Pair>, b: seq<Pair>, name: string)
    ensures ValuesNamed(a + b, name) == ValuesNamed(a, name) + ValuesNamed(b, name)
    decreases |b|
  {
    if |b| == 0 {
      assert a + b == a;
    } else {
      assert (a + b)[..|a + b| - 1] == a + b[..|b| - 1];
      ValuesNamedAppend(a, b[..|b| - 1], name);
    }
  }

  /** A value is listed under `name` exactly when some entry carries it under that name. */
  lemma {:induction false} ValuesNamedMembers(entries: seq<Pair>, name: string, v: string)
    ensures v in ValuesNamed(entries, name)
            <==> exists i :: 0 <= i < |entries| && EqualsIgnoreCase(entries[i].0, name) && entries[i].1 == v
  {
    if |entries| > 0 {
      var init := entries[..|entries| - 1];
      ValuesNamedMembers(init, name, v);
      if exists i :: 0 <= i < |init| && EqualsIgnoreCase(init[i].0, name) && init[i].1 == v {
        var i :| 0 <= i < |init| && EqualsIgnoreCase(init[i].0, name) && init[i].1 == v;
        assert entries[i] == init[i];
      }
    }
  }

  /** `getAll(name)`. */
  function GetAll(m: MultiMap, name: string): (r: seq<string>)
    ensures |r| <= |m.entries|
  {
    ValuesNamedBound(m.entries, name);
    ValuesNamed(m.entries, name)
  }

  lemma {:induction false} ValuesNamedBound(entries: seq<Pair>, name: string)
    ensures |ValuesNamed(entries, name)| <= |entries|
  {
    if |entries| > 0 {
      ValuesNamedBound(entries[..|entries| - 1], name);
    }
  }

  /** `get(name)`: the first entry under `name`, or null. */
  function Get(m: MultiMap, name: string): (r: Option<string>)
    ensures r.None? <==> forall i :: 0 <= i < |m.entries| ==> !EqualsIgnoreCase(m.entries[i].0, name)
    ensures r.Some? ==> exists i :: 0 <= i < |m.entries| && EqualsIgnoreCase(m.entries[i].0, name)
                                    && m.entries[i].1 == r.value
                                    && forall j :: 0 <= j < i ==> !EqualsIgnoreCase(m.entries[j].0, name)
    decreases |m.entries|
  {
    if |m.entries| == 0 then None
    else if EqualsIgnoreCase(m.entries[0].0, name) then Some(m.entries[0].1)
    else
      var r := Get(MultiMap(m.entries[1..]), name);
      assert forall i :: 1 <= i < |m.entries| ==> m.entries[i] == m.entries[1..][i - 1];
      if r.Some? then
        var i :| 0 <= i < |m.entries[1..]| && EqualsIgnoreCase(m.entries[1..][i].0, name)
                 && m.entries[1..][i].1 == r.value
                 && forall j :: 0 <= j < i ==> !EqualsIgnoreCase(m.entries[1..][j].0, name);
        assert EqualsIgnoreCase(m.entries[i + 1].0, name) && m.entries[i + 1].1 == r.value;
        assert forall j :: 0 <= j < i + 1 ==> !EqualsIgnoreCase(m.entries[j].0, name) by {
          forall j | 0 <= j < i + 1 ensures !EqualsIgnoreCase(m.entries[j].0, name) {
            if j > 0 {
              assert m.entries[j] == m.entries[1..][j - 1];
            }
          }
        }
        r
      else
        r
  }

  /** `get` answers the first value `getAll` lists, and null when it lists none. */
  lemma {:induction false} GetIsFirstOfGetAll(m: MultiMap, name: string)
    ensures Get(m, name) == (if |GetAll(m, name)| == 0 then None else Some(GetAll(m, name)[0]))
    decreases |m.entries|
  {
    if |m.entries| > 0 {
      var tail := MultiMap(m.entries[1..]);
      assert m.entries == [m.entries[0]] + tail.entries;
      ValuesNamedAppend([m.entries[0]], tail.entries, name);
      assert ValuesNamed([m.entries[0]], name)
             == (if EqualsIgnoreCase(m.entries[0].0, name) then [m.entries[0].1] else []) by {
        assert [m.entries[0]][..0] == [];
      }
      GetIsFirstOfGetAll(tail, name);
    }
  }

  /** `add(name, value)`: a new entry after all existing ones. */
  function Add(m: MultiMap, name: string, value: string): (r: MultiMap)
    ensures |r.entries| == |m.entries| + 1 && r.entries[..|m.entries|] == m.entries
    ensures r.entries[|m.entries|] == (name, value)
  {
    MultiMap(m.entries + [(name, value)])
  }

  /** `addAll(...)` of a list, map or multimap: its entries, in iteration order, after the existing ones. */
  function AddAll(m: MultiMap, pairs: seq<Pair>): (r: MultiMap)
    ensures |r.entries| == |m.entries| + |pairs|
    ensures r.entries[..|m.entries|] == m.entries && r.entries[|m.entries|..] == pairs
  {
    MultiMap(m.entries + pairs)
  }

  /** Adding one value extends what `getAll` lists under a matching name, and only there. */
  lemma GetAllAfterAdd(m: MultiMap, name: string, value: string, query: string)
    ensures GetAll(Add(m, name, value), query)
            == GetAll(m, query) + (if EqualsIgnoreCase(name, query) then [value] else [])
  {
    assert Add(m, name, value).entries[..|m.entries|] == m.entries;
  }

  /** Adding several pairs extends `getAll` by the values of the matching pairs, in order. */
  lemma GetAllAfterAddAll(m: MultiMap, pairs: seq<Pair>, query: string)
    ensures GetAll(AddAll(m, pairs), query) == GetAll(m, query) + ValuesNamed(pairs, query)
  {
    ValuesNamedAppend(m.entries, pairs, query);
  }

  /** Adding the pairs one `add(name, value)` at a time, as a `for` loop over a list does. */
  function AddEach(m: MultiMap, pairs: seq<Pair>): (r: MultiMap)
    ensures r == AddAll(m, pairs)
    decreases |pairs|
  {
    if |pairs| == 0 then
      assert m.entries + pairs == m.entries;
      m
    else
      var init := pairs[..|pairs| - 1];
      var last := pairs[|pairs| - 1];
      assert (m.entries + init) + [last] == m.entries + pairs;
      Add(AddEach(m, init), last.0, last.1)
  }
}
