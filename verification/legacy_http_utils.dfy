/**
 * `Map<String, String>.toCaseInsensitiveMap()` of package `io.kvarto.http`
 * (http/utils.kt): a fresh case-insensitive `TreeMap` into which every
 * entry is put in iteration order. The source map is given as its entry
 * list, so a later entry whose key equals an earlier one ignoring case
 * overwrites the earlier value and keeps the earlier spelling.
 */
module LegacyHttpUtils {
  import opened Wrappers
  import opened Text
  import opened CaseInsensitiveTreeMap

  /** `toCaseInsensitiveMap()`. */
  function ToCaseInsensitiveMap(pairs: seq<Pair>): (r: TreeMap)
    ensures |r| <= |pairs|
    ensures Keys(r) <= PairKeys(pairs)
    ensures forall i, j :: 0 <= i < j < |r| ==> !EqualsIgnoreCase(r[i].0, r[j].0)
  {
    var r := PutAll([], pairs);
    SortedKeysDistinct(r);
    r
  }

  /** A lookup in the result answers the value of the last input pair whose key equals the query ignoring case. */
  lemma GetIsLastValue(pairs: seq<Pair>, q: string)
    ensures Get(ToCaseInsensitiveMap(pairs), q) == LastValueFor(pairs, q)
  {
    GetAfterPutAll([], pairs, q);
  }

  /** Lookups ignore case. */
  lemma LookupIgnoresCase(pairs: seq<Pair>, a: string, b: string)
    requires EqualsIgnoreCase(a, b)
    ensures Get(ToCaseInsensitiveMap(pairs), a) == Get(ToCaseInsensitiveMap(pairs), b)
  {
    GetIgnoresCase(ToCaseInsensitiveMap(pairs), a, b);
  }

  /**
   * Every input key is found, and a key no other input key equals ignoring
   * case finds its own value.
   */
  lemma FindsEveryInputKey(pairs: seq<Pair>, i: int)
    requires 0 <= i < |pairs|
    ensures Get(ToCaseInsensitiveMap(pairs), pairs[i].0).Some?
    ensures (forall j :: 0 <= j < |pairs| && j != i ==> !EqualsIgnoreCase(pairs[j].0, pairs[i].0))
            ==> Get(ToCaseInsensitiveMap(pairs), pairs[i].0) == Some(pairs[i].1)
  {
    var key := pairs[i].0;
    GetIsLastValue(pairs, key);
    LastValueForFinds(pairs, key);
    assert HasKey(pairs, key) by {
      EqualsIgnoreCaseIsEquivalence(key, key, key);
    }
  }

  /** Copying a case-insensitive map into a fresh one gives the same map. */
  lemma CopyIsIdentity(m: TreeMap)
    ensures ToCaseInsensitiveMap(m) == m
  {
    PutAllOfSorted(m);
  }
}
