/**
 * `io.kvarto.http.client.impl.StringMultiMapImpl`
 * (client/impl/StringMultiMapImpl.kt): an immutable wrapper over a Vert.x
 * case-insensitive multimap. Every `add` builds a fresh multimap holding a
 * copy of the receiver's entries followed by the new ones, so the receiver
 * never changes. `toString` renders the entries as `{"name": "value", ...}`.
 */
module ClientStringMultiMapImpl {
  import opened Wrappers
  import opened Text
  import VM = VertxMultiMap

  type Pair = VM.Pair

  datatype StringMultiMap = StringMultiMap(impl: VM.MultiMap)

  /** `StringMultiMapImpl()`: an empty multimap. */
  const Empty: StringMultiMap := StringMultiMap(VM.Empty)

  /** `values()`: the entries in insertion order; `getAll` finds each under its own name. */
  function Values(m: StringMultiMap): (r: seq<Pair>)
    ensures forall i {:trigger VM.GetAll(m.impl, r[i].0)} :: 0 <= i < |r| ==> r[i].1 in VM.GetAll(m.impl, r[i].0)
  {
    var r := m.impl.entries;
    forall i | 0 <= i < |r| ensures r[i].1 in VM.GetAll(m.impl, r[i].0) {
      Text.EqualsIgnoreCaseIsEquivalence(r[i].0, r[i].0, r[i].0);
      VM.ValuesNamedMembers(r, r[i].0, r[i].1);
    }
    r
  }

  /** `get(name)`: the first value under a name equal to `name` ignoring case, or null. */
  function Get(m: StringMultiMap, name: string): (r: Option<string>)
    ensures r.None? <==> forall i :: 0 <= i < |Values(m)| ==> !EqualsIgnoreCase(Values(m)[i].0, name)
    ensures r == (if |GetAll(m, name)| == 0 then None else Some(GetAll(m, name)[0]))
  {
    assert Values(m) == m.impl.entries;
    VM.GetIsFirstOfGetAll(m.impl, name);
    VM.Get(m.impl, name)
  }

  /** `getAll(name)`: every value under a name equal to `name` ignoring case, in insertion order. */
  function GetAll(m: StringMultiMap, name: string): (r: seq<string>)
    ensures forall v :: v in r <==> exists i :: 0 <= i < |Values(m)| && EqualsIgnoreCase(Values(m)[i].0, name) && Values(m)[i].1 == v
  {
    assert Values(m) == m.impl.entries;
    forall v ensures v in VM.GetAll(m.impl, name) <==> exists i :: 0 <= i < |Values(m)| && EqualsIgnoreCase(Values(m)[i].0, name) && Values(m)[i].1 == v {
      VM.ValuesNamedMembers(m.impl.entries, name, v);
    }
    VM.GetAll(m.impl, name)
  }

  /** `add(name, value)`: a new multimap with the receiver's entries followed by (name, value). */
  function Add(m: StringMultiMap, name: string, value: string): (r: StringMultiMap)
    ensures Values(r) == Values(m) + [(name, value)]
  {
    var copy := VM.AddAll(VM.Empty, m.impl.entries);
    assert copy.entries == m.impl.entries;
    StringMultiMap(VM.Add(copy, name, value))
  }

  /** `addAll(params)`: a new multimap with the receiver's entries followed by each pair, in list order. */
  function AddAll(m: StringMultiMap, params: seq<Pair>): (r: StringMultiMap)
    ensures Values(r) == Values(m) + params
  {
    var copy := VM.AddAll(VM.Empty, m.impl.entries);
    assert copy.entries == m.impl.entries;
    StringMultiMap(VM.AddEach(copy, params))
  }

  /** After `add`, `getAll` lists the new value last under every matching name, and `get` of a new name answers it. */
  lemma LookupAfterAdd(m: StringMultiMap, name: string, value: string, q: string)
    ensures GetAll(Add(m, name, value), q) == GetAll(m, q) + (if EqualsIgnoreCase(name, q) then [value] else [])
    ensures Get(m, q).None? && EqualsIgnoreCase(name, q) ==> Get(Add(m, name, value), q) == Some(value)
    ensures Get(m, q).Some? ==> Get(Add(m, name, value), q) == Get(m, q)
  {
    VM.GetAllAfterAdd(m.impl, name, value, q);
    VM.GetIsFirstOfGetAll(m.impl, q);
    VM.GetIsFirstOfGetAll(Add(m, name, value).impl, q);
    assert Add(m, name, value).impl == VM.Add(m.impl, name, value);
    Text.EqualsIgnoreCaseIsEquivalence(name, q, q);
  }

  /** One entry rendered: `"name": "value"`. */
  function RenderEntry(e: Pair): string
  {
    "\"" + e.0 + "\": \"" + e.1 + "\""
  }

  /** The entries rendered in order and joined by ", ", with no separator after the last. */
  function Render(entries: seq<Pair>): string
  {
    if |entries| == 0 then ""
    else if |entries| == 1 then RenderEntry(entries[0])
    else Render(entries[..|entries| - 1]) + ", " + RenderEntry(entries[|entries| - 1])
  }

  /** `toString()`: `{`, then each entry followed by ", " unless it is the last, then `}`. */
  method ToString(m: StringMultiMap) returns (s: string)
    ensures s == "{" + Render(Values(m)) + "}"
  {
    var values := Values(m);
    s := "{";
    for i := 0 to |values|
      invariant s == "{" + Render(values[..i]) + (if 0 < i < |values| then ", " else "")
    {
      assert values[..i + 1][..i] == values[..i];
      s := s + RenderEntry(values[i]);
      if i < |values| - 1 {
        s := s + ", ";
      }
    }
    assert values[..|values|] == values;
    s := s + "}";
  }

  /** Rendering two runs of entries joins their renderings with one separator. */
  lemma {:induction false} RenderAppend(a: seq<Pair>, b: seq<Pair>)
    requires |a| > 0 && |b| > 0
    ensures Render(a + b) == Render(a) + ", " + Render(b)
    decreases |b|
  {
    var ab := a + b;
    assert ab[..|ab| - 1] == a + b[..|b| - 1];
    if |b| > 1 {
      RenderAppend(a, b[..|b| - 1]);
    } else {
      assert b[..|b| - 1] + [] == [];
      assert a + b[..|b| - 1] == a;
    }
  }

  /** The empty multimap renders as `{}`; one entry as `{"n": "v"}`. */
  lemma RenderExamples(n: string, v: string)
    ensures "{" + Render(Values(Empty)) + "}" == "{}"
    ensures "{" + Render(Values(Add(Empty, n, v))) + "}" == "{\"" + n + "\": \"" + v + "\"}"
  {
  }
}
