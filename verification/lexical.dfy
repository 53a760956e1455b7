/** Python's ordering of `str` values: code point by code point, a proper
    prefix sorting before the longer string. The calculator sorts the
    contribution days by this order on their date strings. */
module Lexical {

  predicate LexLe(a: string, b: string)
    decreases |a|
  {
    |a| == 0 || (|b| > 0 && (a[0] < b[0] || (a[0] == b[0] && LexLe(a[1..], b[1..]))))
  }

  lemma {:induction false} LexLeReflexive(a: string)
    ensures LexLe(a, a)
    decreases |a|
  {
    if |a| > 0 {
      LexLeReflexive(a[1..]);
    }
  }

  /** Any two strings are comparable; with reflexivity, transitivity and
      antisymmetry below, this makes the order a total order. */
  lemma {:induction false} LexLeTotal(a: string, b: string)
    ensures LexLe(a, b) || LexLe(b, a)
    decreases |a|
  {
    if |a| > 0 && |b| > 0 && a[0] == b[0] {
      LexLeTotal(a[1..], b[1..]);
    }
  }

  lemma {:induction false} LexLeTransitive(a: string, b: string, c: string)
    requires LexLe(a, b) && LexLe(b, c)
    ensures LexLe(a, c)
    decreases |a|
  {
    if |a| > 0 && a[0] == b[0] && b[0] == c[0] {
      LexLeTransitive(a[1..], b[1..], c[1..]);
    }
  }

  lemma {:induction false} LexLeAntisymmetric(a: string, b: string)
    requires LexLe(a, b) && LexLe(b, a)
    ensures a == b
    decreases |a|
  {
    if |a| > 0 {
      LexLeAntisymmetric(a[1..], b[1..]);
      assert a == [a[0]] + a[1..] && b == [b[0]] + b[1..];
    }
  }

  /** Two distinct strings of equal length are ordered by the first position
      at which they differ. */
  lemma {:induction false} LexLeFirstDifference(a: string, b: string) returns (i: nat)
    requires |a| == |b|
    requires LexLe(a, b) && a != b
    ensures i < |a| && a[i] < b[i]
    ensures forall k :: 0 <= k < i ==> a[k] == b[k]
    decreases |a|
  {
    if a[0] < b[0] {
      i := 0;
    } else {
      assert a[0] == b[0];
      assert a[1..] != b[1..];
      var j := LexLeFirstDifference(a[1..], b[1..]);
      i := j + 1;
      forall k | 0 <= k < i
        ensures a[k] == b[k]
      {
        if k > 0 {
          assert a[1..][k - 1] == b[1..][k - 1];
        }
      }
    }
  }
}
