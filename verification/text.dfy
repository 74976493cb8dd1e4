/**
 * String helpers the JVM libraries provide to the core: ASCII case folding
 * (the case-insensitive comparisons of Vert.x multimaps and of
 * `String.CASE_INSENSITIVE_ORDER`, restricted to ASCII letters), substring
 * search (`CharSequence.contains`) and the decimal rendering of a
 * non-negative `Int` (`Int.toString`).
 */
module Text {

  /** Lower-cases an ASCII upper-case letter and leaves every other character alone. */
  function FoldChar(c: char): char
  {
    if 'A' <= c <= 'Z' then (c as int + 32) as char else c
  }

  function Fold(s: string): (r: string)
    ensures |r| == |s|
    ensures forall i :: 0 <= i < |s| ==> r[i] == FoldChar(s[i])
  {
    seq(|s|, i requires 0 <= i < |s| => FoldChar(s[i]))
  }

  /** Two names are the same header/parameter name when they agree after folding. */
  predicate EqualsIgnoreCase(a: string, b: string)
  {
    Fold(a) == Fold(b)
  }

  lemma EqualsIgnoreCaseIsEquivalence(a: string, b: string, c: string)
    ensures EqualsIgnoreCase(a, a)
    ensures EqualsIgnoreCase(a, b) ==> EqualsIgnoreCase(b, a)
    ensures EqualsIgnoreCase(a, b) && EqualsIgnoreCase(b, c) ==> EqualsIgnoreCase(a, c)
  {
  }

  /** Lexicographic order on code points, a proper prefix coming first. */
  predicate LexLess(a: string, b: string)
    decreases |a|
  {
    |b| > 0 && (|a| == 0 || a[0] < b[0] || (a[0] == b[0] && LexLess(a[1..], b[1..])))
  }

  lemma {:induction false} LexLessIrreflexive(a: string)
    ensures !LexLess(a, a)
    decreases |a|
  {
    if |a| > 0 {
      LexLessIrreflexive(a[1..]);
    }
  }

  lemma {:induction false} LexLessTransitive(a: string, b: string, c: string)
    requires LexLess(a, b) && LexLess(b, c)
    ensures LexLess(a, c)
    decreases |a|
  {
    if |a| > 0 && a[0] == b[0] && b[0] == c[0] {
      LexLessTransitive(a[1..], b[1..], c[1..]);
    }
  }

  lemma {:induction false} LexLessTrichotomy(a: string, b: string)
    ensures a == b || LexLess(a, b) || LexLess(b, a)
    decreases |a|
  {
    if |a| > 0 && |b| > 0 && a[0] == b[0] {
      LexLessTrichotomy(a[1..], b[1..]);
      if a[1..] == b[1..] {
        assert a == [a[0]] + a[1..] && b == [b[0]] + b[1..];
      }
    }
  }

  /**
   * The order `String.CASE_INSENSITIVE_ORDER` imposes, on ASCII folding: the
   * first differing position decides by the lower-cased characters, and a
   * proper prefix sorts first.
   */
  predicate LessIgnoreCase(a: string, b: string)
  {
    LexLess(Fold(a), Fold(b))
  }

  /** The case-insensitive order is a strict total order up to case folding. */
  lemma LessIgnoreCaseIsStrictOrder(a: string, b: string, c: string)
    ensures !LessIgnoreCase(a, a)
    ensures LessIgnoreCase(a, b) ==> !EqualsIgnoreCase(a, b) && !LessIgnoreCase(b, a)
    ensures LessIgnoreCase(a, b) && LessIgnoreCase(b, c) ==> LessIgnoreCase(a, c)
    ensures EqualsIgnoreCase(a, b) || LessIgnoreCase(a, b) || LessIgnoreCase(b, a)
  {
    LexLessIrreflexive(Fold(a));
    LexLessTrichotomy(Fold(a), Fold(b));
    if LessIgnoreCase(a, b) && LessIgnoreCase(b, a) {
      LexLessTransitive(Fold(a), Fold(b), Fold(a));
    }
    if LessIgnoreCase(a, b) && LessIgnoreCase(b, c) {
      LexLessTransitive(Fold(a), Fold(b), Fold(c));
    }
  }

  /** `sub` occurs in `s` starting at index `i`. */
  predicate OccursAt(s: string, sub: string, i: int)
  {
    0 <= i && i + |sub| <= |s| && s[i..i + |sub|] == sub
  }

  /** Kotlin's `sub in s`: a case-sensitive substring search from the left. */
  function ContainsSubstring(s: string, sub: string): (r: bool)
    ensures r <==> exists i :: OccursAt(s, sub, i)
    decreases |s|
  {
    if |sub| > |s| then false
    else if s[..|sub|] == sub then
      assert OccursAt(s, sub, 0);
      true
    else
      var r := ContainsSubstring(s[1..], sub);
      assert forall i :: OccursAt(s[1..], sub, i) <==> OccursAt(s, sub, i + 1) by {
        forall i ensures OccursAt(s[1..], sub, i) <==> OccursAt(s, sub, i + 1) {
          if 0 <= i && i + |sub| <= |s[1..]| {
            assert s[1..][i..i + |sub|] == s[i + 1..i + 1 + |sub|];
          }
        }
      }
      assert forall i :: OccursAt(s, sub, i) ==> i > 0 && OccursAt(s[1..], sub, i - 1);
      r
  }

  function DigitChar(d: nat): char
    requires d < 10
  {
    "0123456789"[d]
  }

  function DigitValue(c: char): nat
    requires IsDigit(c)
  {
    c as int - '0' as int
  }

  predicate IsDigit(c: char)
  {
    '0' <= c <= '9'
  }

  /** `Int.toString` of a non-negative number: decimal digits, no sign, no leading zero. */
  function NatToString(n: nat): (r: string)
    ensures |r| > 0
    ensures forall i :: 0 <= i < |r| ==> IsDigit(r[i])
    decreases n
  {
    if n < 10 then [DigitChar(n)] else NatToString(n / 10) + [DigitChar(n % 10)]
  }

  /** Reads a string of decimal digits back as a number. */
  function ParseDecimal(s: string): nat
    requires forall i :: 0 <= i < |s| ==> IsDigit(s[i])
    decreases |s|
  {
    if |s| == 0 then 0
    else ParseDecimal(s[..|s| - 1]) * 10 + DigitValue(s[|s| - 1])
  }

  /** Reading back a rendered number gives the number. */
  lemma {:induction false} ParseDecimalInvertsNatToString(n: nat)
    ensures ParseDecimal(NatToString(n)) == n
    decreases n
  {
    var s := NatToString(n);
    if n >= 10 {
      ParseDecimalInvertsNatToString(n / 10);
      assert s[..|s| - 1] == NatToString(n / 10);
    }
  }

  /** Distinct numbers render to distinct strings. */
  lemma NatToStringInjective(m: nat, n: nat)
    requires NatToString(m) == NatToString(n)
    ensures m == n
  {
    ParseDecimalInvertsNatToString(m);
    ParseDecimalInvertsNatToString(n);
  }
}
