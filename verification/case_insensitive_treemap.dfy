/**
 * `TreeMap<String, String>(String.CASE_INSENSITIVE_ORDER)` as the legacy
 * header code uses it: entries kept sorted by the case-insensitive order,
 * so no two keys are equal ignoring case. `put` on a key equal (ignoring
 * case) to a stored one replaces the value and keeps the stored spelling of
 * the key; lookups compare ignoring case.
 */
module CaseInsensitiveTreeMap {
  import opened Wrappers
  import opened Text

  type Pair = (string, string)

  /** Strictly increasing keys in the case-insensitive order. */
  predicate Sorted(entries: seq<Pair>)
  {
    forall i, j :: 0 <= i < j < |entries| ==> LessIgnoreCase(entries[i].0, entries[j].0)
  }

  type TreeMap = entries: seq<Pair> | Sorted(entries) witness []

  /** The keys as stored. */
  function Keys(entries: seq<Pair>): set<string>
  {
    set i | 0 <= i < |entries| :: entries[i].0
  }

  predicate HasKey(entries: seq<Pair>, key: string)
  {
    exists i :: 0 <= i < |entries| && EqualsIgnoreCase(entries[i].0, key)
  }

  /** `get(key)`: the value stored under a key equal to `key` ignoring case, or null. */
  function Get(entries: seq<Pair>, key: string): Option<string>
    decreases |entries|
  {
    if |entries| == 0 then None
    else if EqualsIgnoreCase(entries[0].0, key) then Some(entries[0].1)
    else Get(entries[1..], key)
  }

  /** `get` finds a value exactly when some stored key equals `key` ignoring case, and then it is that entry's value. */
  lemma {:induction false} GetFindsStoredEntry(entries: seq<Pair>, key: string)
    ensures Get(entries, key).None? <==> !HasKey(entries, key)
    ensures Get(entries, key).Some? ==>
      exists i :: 0 <= i < |entries| && EqualsIgnoreCase(entries[i].0, key) && entries[i].1 == Get(entries, key).value
    decreases |entries|
  {
    if |entries| > 0 {
      var tail := entries[1..];
      assert entries == [entries[0]] + tail;
      GetFindsStoredEntry(tail, key);
      HasKeyCons(entries[0], tail, key);
      if !EqualsIgnoreCase(entries[0].0, key) && Get(tail, key).Some? {
        var i :| 0 <= i < |tail| && EqualsIgnoreCase(tail[i].0, key) && tail[i].1 == Get(tail, key).value;
        assert entries[i + 1] == tail[i];
      }
    }
  }

  /** Keys that are equal ignoring case find the same entry. */
  lemma {:induction false} GetIgnoresCase(entries: seq<Pair>, a: string, b: string)
    requires EqualsIgnoreCase(a, b)
    ensures Get(entries, a) == Get(entries, b)
    decreases |entries|
  {
    if |entries| > 0 {
      GetIgnoresCase(entries[1..], a, b);
    }
  }

  /** In a sorted map no two stored keys are equal ignoring case. */
  lemma SortedKeysDistinct(m: TreeMap)
    ensures forall i, j :: 0 <= i < j < |m| ==> !EqualsIgnoreCase(m[i].0, m[j].0)
  {
    forall i, j | 0 <= i < j < |m| ensures !EqualsIgnoreCase(m[i].0, m[j].0) {
      LessIgnoreCaseIsStrictOrder(m[i].0, m[j].0, m[j].0);
    }
  }

  /** What `put(key, value)` promises of the map `r` it leaves behind. */
  ghost predicate PutsValue(m: seq<Pair>, key: string, value: string, r: seq<Pair>)
  {
    && Get(r, key) == Some(value)
    && (forall q :: !EqualsIgnoreCase(q, key) ==> Get(r, q) == Get(m, q))
    && (HasKey(m, key) ==> Keys(r) == Keys(m) && |r| == |m|)
    && (!HasKey(m, key) ==> Keys(r) == Keys(m) + {key} && |r| == |m| + 1)
  }

  /**
   * `put(key, value)`: walk the sorted entries to the place of `key`, and
   * either replace the value of the stored key equal to it (keeping the
   * stored spelling) or insert a new entry there.
   */
  function Put(m: TreeMap, key: string, value: string): (r: TreeMap)
    ensures Keys(r) <= Keys(m) + {key}
    ensures |m| <= |r| <= |m| + 1
    decreases |m|
  {
    if |m| == 0 then
      assert Keys([(key, value)]) == {key} by {
        assert [(key, value)][0].0 == key;
      }
      [(key, value)]
    else if EqualsIgnoreCase(m[0].0, key) then
      SortedReplaceFirst(m, value);
      [(m[0].0, value)] + m[1..]
    else if LessIgnoreCase(key, m[0].0) then
      SortedInsertFirst(m, key, value);
      [(key, value)] + m
    else
      var rest := Put(m[1..], key, value);
      SortedInsertLater(m, key, rest);
      [m[0]] + rest
  }

  lemma SortedReplaceFirst(m: TreeMap, value: string)
    requires |m| > 0
    ensures Sorted([(m[0].0, value)] + m[1..])
    ensures Keys([(m[0].0, value)] + m[1..]) == Keys(m)
  {
    var r := [(m[0].0, value)] + m[1..];
    assert forall i :: 0 <= i < |m| ==> r[i].0 == m[i].0;
    SameKeys(r, m);
  }

  lemma SortedInsertFirst(m: TreeMap, key: string, value: string)
    requires |m| > 0 && LessIgnoreCase(key, m[0].0)
    ensures Sorted([(key, value)] + m)
    ensures Keys([(key, value)] + m) == {key} + Keys(m)
  {
    var r := [(key, value)] + m;
    forall j | 1 <= j < |r| ensures LessIgnoreCase(key, r[j].0) {
      assert r[j] == m[j - 1];
      if j > 1 {
        LessIgnoreCaseIsStrictOrder(key, m[0].0, m[j - 1].0);
      }
    }
    KeysCons((key, value), m);
  }

  lemma SortedInsertLater(m: TreeMap, key: string, rest: TreeMap)
    requires |m| > 0 && !EqualsIgnoreCase(m[0].0, key) && !LessIgnoreCase(key, m[0].0)
    requires Keys(rest) <= Keys(m[1..]) + {key}
    ensures Sorted([m[0]] + rest)
    ensures Keys([m[0]] + rest) <= Keys(m) + {key}
  {
    LessIgnoreCaseIsStrictOrder(m[0].0, key, key);
    HeadBelowRest(m);
    SortedCons(m[0], rest);
    KeysCons(m[0], rest);
    KeysCons(m[0], m[1..]);
    assert m == [m[0]] + m[1..];
  }

  /**
   * After `put(key, value)` the key finds the value, every key not equal to
   * it ignoring case finds what it found before, and the map grows by one
   * entry exactly when no stored key equalled `key`.
   */
  lemma {:induction false} PutSpec(m: TreeMap, key: string, value: string)
    ensures Get(Put(m, key, value), key) == Some(value)
    ensures forall q :: !EqualsIgnoreCase(q, key) ==> Get(Put(m, key, value), q) == Get(m, q)
    ensures HasKey(m, key) ==> Keys(Put(m, key, value)) == Keys(m) && |Put(m, key, value)| == |m|
    ensures !HasKey(m, key) ==> Keys(Put(m, key, value)) == Keys(m) + {key} && |Put(m, key, value)| == |m| + 1
    decreases |m|
  {
    if |m| == 0 {
      assert Keys([(key, value)]) == {key} by {
        assert [(key, value)][0].0 == key;
      }
      assert !HasKey(m, key);
    } else if EqualsIgnoreCase(m[0].0, key) {
      ReplaceFirst(m, key, value);
    } else if LessIgnoreCase(key, m[0].0) {
      InsertFirst(m, key, value);
    } else {
      PutSpec(m[1..], key, value);
      InsertLater(m, key, value, Put(m[1..], key, value));
    }
  }

  /** The stored key equal to `key` comes first: its value is replaced, its spelling kept. */
  lemma ReplaceFirst(m: TreeMap, key: string, value: string)
    requires |m| > 0 && EqualsIgnoreCase(m[0].0, key)
    ensures PutsValue(m, key, value, [(m[0].0, value)] + m[1..])
  {
    var r := [(m[0].0, value)] + m[1..];
    SortedReplaceFirst(m, value);
    assert forall i :: 0 < i < |m| ==> r[i] == m[i];
    assert r[1..] == m[1..];
    assert HasKey(m, key) by {
      assert EqualsIgnoreCase(m[0].0, key);
    }
  }

  /** `key` sorts before every stored key: a new first entry. */
  lemma InsertFirst(m: TreeMap, key: string, value: string)
    requires |m| > 0 && LessIgnoreCase(key, m[0].0)
    ensures PutsValue(m, key, value, [(key, value)] + m)
  {
    var r := [(key, value)] + m;
    assert r[1..] == m;
    SortedInsertFirst(m, key, value);
    assert !HasKey(m, key) by {
      forall i | 0 <= i < |m| ensures !EqualsIgnoreCase(m[i].0, key) {
        if i > 0 {
          LessIgnoreCaseIsStrictOrder(key, m[0].0, m[i].0);
        }
        LessIgnoreCaseIsStrictOrder(key, m[i].0, m[i].0);
      }
    }
  }

  /** `key` sorts after the first stored key: the first entry stays and `key` is put into the rest. */
  lemma InsertLater(m: TreeMap, key: string, value: string, rest: TreeMap)
    requires |m| > 0 && !EqualsIgnoreCase(m[0].0, key) && !LessIgnoreCase(key, m[0].0)
    requires PutsValue(m[1..], key, value, rest)
    ensures PutsValue(m, key, value, [m[0]] + rest)
  {
    var tail: TreeMap := m[1..];
    var r := [m[0]] + rest;
    assert m == [m[0]] + tail;
    KeysCons(m[0], rest);
    KeysCons(m[0], tail);
    HeadBelowRest(m);
    LessIgnoreCaseIsStrictOrder(m[0].0, key, key);
    HasKeyCons(m[0], tail, key);
    forall q | !EqualsIgnoreCase(q, key) ensures Get(r, q) == Get(m, q) {
      GetCons(m[0], rest, q);
      GetCons(m[0], tail, q);
    }
    GetCons(m[0], rest, key);
  }

  lemma GetCons(head: Pair, tail: seq<Pair>, key: string)
    ensures Get([head] + tail, key) == if EqualsIgnoreCase(head.0, key) then Some(head.1) else Get(tail, key)
  {
    assert ([head] + tail)[1..] == tail;
  }

  lemma KeysCons(head: Pair, tail: seq<Pair>)
    ensures Keys([head] + tail) == {head.0} + Keys(tail)
  {
    var r := [head] + tail;
    assert r[0] == head;
    forall k | k in Keys(tail) ensures k in Keys(r) {
      var i :| 0 <= i < |tail| && tail[i].0 == k;
      assert r[i + 1] == tail[i];
    }
    forall k | k in Keys(r) ensures k in {head.0} + Keys(tail) {
      var i :| 0 <= i < |r| && r[i].0 == k;
      if i > 0 {
        assert r[i] == tail[i - 1];
      }
    }
  }

  lemma HasKeyCons(head: Pair, tail: seq<Pair>, key: string)
    ensures HasKey([head] + tail, key) <==> EqualsIgnoreCase(head.0, key) || HasKey(tail, key)
  {
    var r := [head] + tail;
    assert r[0] == head;
    if HasKey(tail, key) {
      var i :| 0 <= i < |tail| && EqualsIgnoreCase(tail[i].0, key);
      assert r[i + 1] == tail[i];
    }
    if HasKey(r, key) {
      var i :| 0 <= i < |r| && EqualsIgnoreCase(r[i].0, key);
      if i > 0 {
        assert r[i] == tail[i - 1];
      }
    }
  }

  /** The first key of a sorted map sorts before every other stored key. */
  lemma HeadBelowRest(m: TreeMap)
    requires |m| > 0
    ensures forall k :: k in Keys(m[1..]) ==> LessIgnoreCase(m[0].0, k)
  {
    forall k | k in Keys(m[1..]) ensures LessIgnoreCase(m[0].0, k) {
      var i :| 0 <= i < |m[1..]| && m[1..][i].0 == k;
      assert m[1..][i] == m[i + 1];
    }
  }

  lemma SortedCons(head: Pair, tail: TreeMap)
    requires forall k :: k in Keys(tail) ==> LessIgnoreCase(head.0, k)
    ensures Sorted([head] + tail)
  {
    var r := [head] + tail;
    forall i, j | 0 <= i < j < |r| ensures LessIgnoreCase(r[i].0, r[j].0) {
      assert r[j] == tail[j - 1];
      if i == 0 {
        assert tail[j - 1].0 in Keys(tail);
      } else {
        assert r[i] == tail[i - 1];
      }
    }
  }

  lemma SameKeys(a: seq<Pair>, b: seq<Pair>)
    requires |a| == |b| && forall i :: 0 <= i < |a| ==> a[i].0 == b[i].0
    ensures Keys(a) == Keys(b)
  {
    forall k | k in Keys(a) ensures k in Keys(b) {
      var i :| 0 <= i < |a| && a[i].0 == k;
      assert b[i].0 == k;
    }
    forall k | k in Keys(b) ensures k in Keys(a) {
      var i :| 0 <= i < |b| && b[i].0 == k;
      assert a[i].0 == k;
    }
  }

  /** The value the last pair for `key` (ignoring case) carries, if any pair does. */
  function LastValueFor(pairs: seq<Pair>, key: string): Option<string>
  {
    if |pairs| == 0 then None
    else if EqualsIgnoreCase(pairs[|pairs| - 1].0, key) then Some(pairs[|pairs| - 1].1)
    else LastValueFor(pairs[..|pairs| - 1], key)
  }

  /** The keys the pairs carry. */
  function PairKeys(pairs: seq<Pair>): set<string>
  {
    set i | 0 <= i < |pairs| :: pairs[i].0
  }

  /** `putAll(pairs)`: every pair put in iteration order. */
  function PutAll(m: TreeMap, pairs: seq<Pair>): (r: TreeMap)
    ensures |r| <= |m| + |pairs|
    ensures Keys(r) <= Keys(m) + PairKeys(pairs)
    decreases |pairs|
  {
    if |pairs| == 0 then m
    else
      var init := pairs[..|pairs| - 1];
      assert PairKeys(init) <= PairKeys(pairs) by {
        assert forall i :: 0 <= i < |init| ==> init[i] == pairs[i];
      }
      Put(PutAll(m, init), pairs[|pairs| - 1].0, pairs[|pairs| - 1].1)
  }

  /** After `putAll`, a key finds the last pair put under it, or what the map held before. */
  lemma {:induction false} GetAfterPutAll(m: TreeMap, pairs: seq<Pair>, q: string)
    ensures Get(PutAll(m, pairs), q) == (if LastValueFor(pairs, q).Some? then LastValueFor(pairs, q) else Get(m, q))
    decreases |pairs|
  {
    if |pairs| > 0 {
      var init := pairs[..|pairs| - 1];
      var last := pairs[|pairs| - 1];
      GetAfterPutAll(m, init, q);
      PutAllUnfold(m, pairs);
      PutSpec(PutAll(m, init), last.0, last.1);
      if EqualsIgnoreCase(last.0, q) {
        GetIgnoresCase(PutAll(m, pairs), q, last.0);
      }
    }
  }

  /** A key that sorts after every stored key is put at the end. */
  lemma {:induction false} PutAbove(m: TreeMap, key: string, value: string)
    requires forall i :: 0 <= i < |m| ==> LessIgnoreCase(m[i].0, key)
    ensures Put(m, key, value) == m + [(key, value)]
    decreases |m|
  {
    if |m| > 0 {
      PutPastHead(m, key, value);
      PutAbove(m[1..], key, value);
      ConsAppend(m[0], m[1..], (key, value));
    }
  }

  lemma ConsAppend(head: Pair, tail: seq<Pair>, last: Pair)
    ensures [head] + (tail + [last]) == ([head] + tail) + [last]
    ensures |tail| > 0 ==> ([head] + tail)[1..] == tail
  {
  }

  /** A key above the first stored key is put into the rest of the map, which it is also above. */
  lemma PutPastHead(m: TreeMap, key: string, value: string)
    requires |m| > 0 && forall i :: 0 <= i < |m| ==> LessIgnoreCase(m[i].0, key)
    ensures Put(m, key, value) == [m[0]] + Put(m[1..], key, value)
    ensures forall i :: 0 <= i < |m[1..]| ==> LessIgnoreCase(m[1..][i].0, key)
  {
    LessIgnoreCaseIsStrictOrder(m[0].0, key, key);
  }

  /** A non-empty sorted map is its sorted prefix followed by an entry above all of it. */
  lemma SortedSplit(m: TreeMap)
    requires |m| > 0
    ensures Sorted(m[..|m| - 1])
    ensures forall i :: 0 <= i < |m| - 1 ==> LessIgnoreCase(m[i].0, m[|m| - 1].0)
    ensures m[..|m| - 1] + [m[|m| - 1]] == m
  {
  }

  /** `putAll` puts the last pair after all the others. */
  lemma PutAllUnfold(m: TreeMap, pairs: seq<Pair>)
    requires |pairs| > 0
    ensures PutAll(m, pairs) == Put(PutAll(m, pairs[..|pairs| - 1]), pairs[|pairs| - 1].0, pairs[|pairs| - 1].1)
  {
  }

  /** Putting the entries of a sorted map, in order, into an empty map rebuilds it. */
  lemma {:induction false} PutAllOfSorted(m: TreeMap)
    ensures PutAll([], m) == m
    decreases |m|
  {
    if |m| > 0 {
      var n := |m| - 1;
      SortedSplit(m);
      var init: TreeMap := m[..n];
      PutAllOfSorted(init);
      PutAllUnfold([], m);
      PutAbove(init, m[n].0, m[n].1);
    }
  }

  /** The last pair under `key` (ignoring case) decides: `LastValueFor` finds a value exactly when some pair matches, and no later pair matches. */
  lemma {:induction false} LastValueForFinds(pairs: seq<Pair>, key: string)
    ensures LastValueFor(pairs, key).None? <==> !HasKey(pairs, key)
    ensures LastValueFor(pairs, key).Some? ==>
      exists i :: 0 <= i < |pairs| && EqualsIgnoreCase(pairs[i].0, key) && pairs[i].1 == LastValueFor(pairs, key).value
                  && forall j :: i < j < |pairs| ==> !EqualsIgnoreCase(pairs[j].0, key)
    decreases |pairs|
  {
    if |pairs| > 0 {
      var n := |pairs| - 1;
      var init := pairs[..n];
      LastValueForFinds(init, key);
      assert forall i :: 0 <= i < n ==> init[i] == pairs[i];
      if !EqualsIgnoreCase(pairs[n].0, key) && LastValueFor(init, key).Some? {
        var i :| 0 <= i < n && EqualsIgnoreCase(init[i].0, key) && init[i].1 == LastValueFor(init, key).value
                 && forall j :: i < j < n ==> !EqualsIgnoreCase(init[j].0, key);
        assert pairs[i] == init[i];
      }
      if HasKey(pairs, key) && !EqualsIgnoreCase(pairs[n].0, key) {
        var i :| 0 <= i < |pairs| && EqualsIgnoreCase(pairs[i].0, key);
        assert init[i] == pairs[i];
      }
    }
  }
}
