/** String facts the application relies on implicitly: the order dates are
    sorted in, the comma-joined form templates are compared in, and the
    decimal form of the index in generated interview ids. */
module Strings {

  /** Lexicographic order by character code, the order `localeCompare` gives
      on the ISO `YYYY-MM-DD` dates the application stores. */
  predicate LexLe(a: string, b: string) {
    if |a| == 0 then true
    else if |b| == 0 then false
    else if a[0] != b[0] then a[0] < b[0]
    else LexLe(a[1..], b[1..])
  }

  lemma {:induction false} LexLeReflexive(a: string)
    ensures LexLe(a, a)
  {
    if |a| > 0 {
      LexLeReflexive(a[1..]);
    }
  }

  lemma {:induction false} LexLeTotal(a: string, b: string)
    ensures LexLe(a, b) || LexLe(b, a)
  {
    if |a| > 0 && |b| > 0 && a[0] == b[0] {
      LexLeTotal(a[1..], b[1..]);
    }
  }

  lemma {:induction false} LexLeAntisymmetric(a: string, b: string)
    requires LexLe(a, b) && LexLe(b, a)
    ensures a == b
  {
    if |a| > 0 && |b| > 0 {
      LexLeAntisymmetric(a[1..], b[1..]);
      assert a == [a[0]] + a[1..];
      assert b == [b[0]] + b[1..];
    }
  }

  lemma {:induction false} LexLeTransitive(a: string, b: string, c: string)
    requires LexLe(a, b) && LexLe(b, c)
    ensures LexLe(a, c)
  {
    if |a| > 0 && |b| > 0 && |c| > 0 && a[0] == b[0] == c[0] {
      LexLeTransitive(a[1..], b[1..], c[1..]);
    }
  }

  /** `parts.join(",")`. */
  function Join(parts: seq<string>): string {
    if |parts| == 0 then ""
    else if |parts| == 1 then parts[0]
    else parts[0] + "," + Join(parts[1..])
  }

  predicate CommaFree(s: string) {
    ',' !in s
  }

  predicate AllCommaFree(parts: seq<string>) {
    forall i :: 0 <= i < |parts| ==> CommaFree(parts[i])
  }

  /** Joining comma-free parts puts a comma exactly between each two. */
  lemma {:induction false} JoinCommas(parts: seq<string>)
    requires |parts| > 0 && AllCommaFree(parts)
    ensures |parts| == 1 <==> CommaFree(Join(parts))
    ensures |parts| > 1 ==> |parts[0]| < |Join(parts)| && Join(parts)[|parts[0]|] == ','
                            && Join(parts)[..|parts[0]|] == parts[0]
                            && Join(parts)[|parts[0]| + 1..] == Join(parts[1..])
  {
    if |parts| > 1 {
      var j := Join(parts);
      assert j[|parts[0]|] == ',';
      assert j[..|parts[0]|] == parts[0];
      assert j[|parts[0]| + 1..] == Join(parts[1..]);
    }
  }

  /** Among non-empty lists of comma-free parts, the joined string determines
      the list: comparing joins is then the same as comparing the lists. */
  lemma {:induction false} JoinInjective(a: seq<string>, b: seq<string>)
    requires |a| > 0 && |b| > 0 && AllCommaFree(a) && AllCommaFree(b)
    requires Join(a) == Join(b)
    ensures a == b
  {
    JoinCommas(a);
    JoinCommas(b);
    if |a| > 1 && |b| > 1 {
      FirstCommaAt(Join(a), |a[0]|, |b[0]|, a[0], b[0]);
      assert a[0] == b[0];
      JoinInjective(a[1..], b[1..]);
      assert a == [a[0]] + a[1..];
      assert b == [b[0]] + b[1..];
    }
  }

  /** A string has only one first comma. */
  lemma {:induction false} FirstCommaAt(s: string, i: nat, j: nat, x: string, y: string)
    requires i < |s| && j < |s| && s[i] == ',' && s[j] == ','
    requires s[..i] == x && CommaFree(x) && s[..j] == y && CommaFree(y)
    ensures x == y
  {
    assert forall k :: 0 <= k < i ==> s[k] == x[k];
    assert forall k :: 0 <= k < j ==> s[k] == y[k];
  }

  function Digit(d: nat): char
    requires d < 10
  {
    "0123456789"[d]
  }

  /** The decimal form of `n`, as a template literal prints a number index. */
  function NatToString(n: nat): (r: string)
    ensures |r| > 0
    ensures |r| == 1 <==> n < 10
  {
    if n < 10 then [Digit(n)] else NatToString(n / 10) + [Digit(n % 10)]
  }

  /** Distinct numbers print differently. */
  lemma {:induction false} NatToStringInjective(m: nat, n: nat)
    requires NatToString(m) == NatToString(n)
    ensures m == n
  {
    var sm, sn := NatToString(m), NatToString(n);
    if m >= 10 && n >= 10 {
      assert sm[|sm| - 1] == Digit(m % 10) && sn[|sn| - 1] == Digit(n % 10);
      assert sm[..|sm| - 1] == NatToString(m / 10);
      assert sn[..|sn| - 1] == NatToString(n / 10);
      NatToStringInjective(m / 10, n / 10);
    } else {
      assert sm[0] == sn[0];
    }
  }
}
