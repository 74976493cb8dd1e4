/**
 * Name choice in the mock generator (mock/MockGenerator.kt): `findName`
 * takes the first of `name`, `name1`, `name2`, ... that is not taken, and
 * `generateMock` picks one parameter name per member function, each time
 * adding the chosen name to the taken set. The reflection, code rendering
 * and printing around them are not part of this model.
 */
module MockGenerator {
  import opened Text

  /** The `k`-th name tried: the original name, then the name followed by `k` in decimal. */
  function Candidate(originalName: string, k: nat): string
  {
    if k == 0 then originalName else originalName + NatToString(k)
  }

  /** Different attempts try different names. */
  lemma CandidatesDistinct(originalName: string, j: nat, k: nat)
    requires j != k
    ensures Candidate(originalName, j) != Candidate(originalName, k)
  {
    if j != 0 && k != 0 && Candidate(originalName, j) == Candidate(originalName, k) {
      var cj := Candidate(originalName, j);
      assert cj[|originalName|..] == NatToString(j);
      assert Candidate(originalName, k)[|originalName|..] == NatToString(k);
      NatToStringInjective(j, k);
    }
  }

  /** The names the first `k` attempts try. */
  function TriedNames(originalName: string, k: nat): set<string>
  {
    if k == 0 then {} else TriedNames(originalName, k - 1) + {Candidate(originalName, k - 1)}
  }

  lemma {:induction false} TriedNamesMembers(originalName: string, k: nat, x: string)
    ensures x in TriedNames(originalName, k) <==> exists j :: 0 <= j < k && x == Candidate(originalName, j)
  {
    if k > 0 {
      TriedNamesMembers(originalName, k - 1, x);
    }
  }

  /** The first `k` attempts try `k` distinct names. */
  lemma {:induction false} CandidateCount(originalName: string, k: nat)
    ensures |TriedNames(originalName, k)| == k
  {
    if k > 0 {
      CandidateCount(originalName, k - 1);
      var last := Candidate(originalName, k - 1);
      TriedNamesMembers(originalName, k - 1, last);
      if last in TriedNames(originalName, k - 1) {
        var j :| 0 <= j < k - 1 && last == Candidate(originalName, j);
        CandidatesDistinct(originalName, j, k - 1);
      }
    }
  }

  lemma {:induction false} SubsetCardinality(a: set<string>, b: set<string>)
    requires a <= b
    ensures |a| <= |b|
    decreases |a|
  {
    if a != {} {
      var x :| x in a;
      SubsetCardinality(a - {x}, b - {x});
    }
  }

  /**
   * `findName(originalName, existingNames)`. The `k`-th attempt runs only
   * when the `k` earlier names are all taken, so `k` never exceeds the
   * number of taken names and the search stops.
   */
  method FindName(originalName: string, existingNames: set<string>) returns (name: string)
    ensures name !in existingNames
    ensures originalName !in existingNames ==> name == originalName
    ensures exists k :: 0 <= k <= |existingNames| && name == Candidate(originalName, k)
                        && forall j :: 0 <= j < k ==> Candidate(originalName, j) in existingNames
    ensures |originalName| <= |name| && name[..|originalName|] == originalName
  {
    var k: nat := 0;
    while Candidate(originalName, k) in existingNames
      invariant k <= |existingNames|
      invariant originalName !in existingNames ==> k == 0
      invariant forall j :: 0 <= j < k ==> Candidate(originalName, j) in existingNames
      decreases |existingNames| - k
    {
      CandidateCount(originalName, k + 1);
      forall x | x in TriedNames(originalName, k + 1) ensures x in existingNames {
        TriedNamesMembers(originalName, k + 1, x);
      }
      SubsetCardinality(TriedNames(originalName, k + 1), existingNames);
      k := k + 1;
    }
    name := Candidate(originalName, k);
  }

  /** Member `a` gets its own name unless an earlier member already took it. */
  predicate KeepsOwnName(names: seq<string>, memberNames: seq<string>, a: int)
    requires 0 <= a < |names| && a < |memberNames|
  {
    (forall b :: 0 <= b < a ==> names[b] != memberNames[a]) ==> names[a] == memberNames[a]
  }

  lemma KeepsOwnNameFrame(names: seq<string>, extra: seq<string>, memberNames: seq<string>, a: int)
    requires 0 <= a < |names| && a < |memberNames|
    requires KeepsOwnName(names, memberNames, a)
    ensures KeepsOwnName(names + extra, memberNames, a)
  {
    assert forall b :: 0 <= b <= a ==> (names + extra)[b] == names[b];
  }

  /**
   * The naming loop of `generateMock`: one name per member function, in
   * order, each chosen against the names already chosen and then added to
   * them.
   */
  method ChooseParamNames(memberNames: seq<string>) returns (names: seq<string>)
    ensures |names| == |memberNames|
    ensures forall a, b :: 0 <= a < b < |names| ==> names[a] != names[b]
    ensures forall i :: 0 <= i < |names| ==> |memberNames[i]| <= |names[i]| && names[i][..|memberNames[i]|] == memberNames[i]
    ensures forall i :: 0 <= i < |names| ==> KeepsOwnName(names, memberNames, i)
  {
    var paramNames: set<string> := {};
    names := [];
    for i := 0 to |memberNames|
      invariant |names| == i
      invariant forall x :: x in paramNames <==> x in names
      invariant forall a, b :: 0 <= a < b < i ==> names[a] != names[b]
      invariant forall a :: 0 <= a < i ==> |memberNames[a]| <= |names[a]| && names[a][..|memberNames[a]|] == memberNames[a]
      invariant forall a :: 0 <= a < i ==> KeepsOwnName(names, memberNames, a)
    {
      var name := FindName(memberNames[i], paramNames);
      forall a | 0 <= a < i ensures KeepsOwnName(names + [name], memberNames, a) {
        KeepsOwnNameFrame(names, [name], memberNames, a);
      }
      names := names + [name];
      paramNames := paramNames + {name};
    }
  }
}
