// Lexicographic order, as Go and Python compare strings.

module Lexicographic {

  predicate LexLess(a: seq<int>, b: seq<int>) {
    if b == [] then false
    else if a == [] then true
    else a[0] < b[0] || (a[0] == b[0] && LexLess(a[1..], b[1..]))
  }

  lemma {:induction false} LexTotal(a: seq<int>, b: seq<int>)
    ensures LexLess(a, b) || a == b || LexLess(b, a)
    ensures !(LexLess(a, b) && LexLess(b, a))
    ensures a == b ==> !LexLess(a, b)
  {
    if a != [] && b != [] {
      LexTotal(a[1..], b[1..]);
      assert a == [a[0]] + a[1..] && b == [b[0]] + b[1..];
    }
  }

  lemma {:induction false} LexTransitive(a: seq<int>, b: seq<int>, c: seq<int>)
    requires LexLess(a, b) && LexLess(b, c)
    ensures LexLess(a, c)
  {
    if a != [] && a[0] == b[0] == c[0] {
      LexTransitive(a[1..], b[1..], c[1..]);
    }
  }

  predicate DiffersAt(a: seq<int>, b: seq<int>, k: int) {
    0 <= k < |a| && k < |b| && a[..k] == b[..k] && a[k] < b[k]
  }

  /** The first difference decides, and a proper prefix comes first. */
  lemma {:induction false} LexLessIff(a: seq<int>, b: seq<int>)
    ensures LexLess(a, b) <==> a < b || exists k :: DiffersAt(a, b, k)
  {
    if a != [] && b != [] {
      LexLessIff(a[1..], b[1..]);
      if a[0] == b[0] {
        assert a < b <==> a[1..] < b[1..] by {
          assert a == [a[0]] + a[1..] && b == [b[0]] + b[1..];
        }
        if k :| DiffersAt(a[1..], b[1..], k) {
          assert a[..k + 1] == [a[0]] + a[1..][..k] && b[..k + 1] == [b[0]] + b[1..][..k];
          assert DiffersAt(a, b, k + 1);
        }
        if k :| DiffersAt(a, b, k) {
          assert k > 0;
          assert a[1..][..k - 1] == a[..k][1..] && b[1..][..k - 1] == b[..k][1..];
          assert DiffersAt(a[1..], b[1..], k - 1);
        }
      } else {
        assert DiffersAt(a, b, 0) <==> a[0] < b[0];
        assert forall k :: k > 0 && DiffersAt(a, b, k) ==> a[..k][0] == b[..k][0];
      }
    }
  }

  // ----------------------------------------------------------------- strings

  function Codes(s: string): (r: seq<int>)
    ensures |r| == |s| && forall i :: 0 <= i < |s| ==> r[i] == s[i] as int
  {
    seq(|s|, i requires 0 <= i < |s| => s[i] as int)
  }

  /** Go's < on strings. */
  predicate Before(a: string, b: string) {
    LexLess(Codes(a), Codes(b))
  }

  predicate AtMost(a: string, b: string) {
    !Before(b, a)
  }

  lemma AtMostTotal(a: string, b: string)
    ensures AtMost(a, b) || AtMost(b, a)
    ensures AtMost(a, b) && AtMost(b, a) ==> a == b
    ensures AtMost(a, a)
    ensures Before(a, b) ==> AtMost(a, b) && a != b
  {
    LexTotal(Codes(a), Codes(b));
    LexTotal(Codes(a), Codes(a));
    if Codes(a) == Codes(b) {
      assert forall i :: 0 <= i < |a| ==> Codes(a)[i] == Codes(b)[i];
      assert forall i :: 0 <= i < |a| ==> a[i] == b[i];
    }
  }

  lemma AtMostTransitive(a: string, b: string, c: string)
    requires AtMost(a, b) && AtMost(b, c)
    ensures AtMost(a, c)
  {
    AtMostTotal(a, b);
    AtMostTotal(b, c);
    LexTotal(Codes(a), Codes(b));
    LexTotal(Codes(b), Codes(c));
    LexTotal(Codes(a), Codes(c));
    if LexLess(Codes(a), Codes(b)) && LexLess(Codes(b), Codes(c)) {
      LexTransitive(Codes(a), Codes(b), Codes(c));
    }
  }

  /** Strings are in dictionary order, character by character. */
  lemma BeforeIff(a: string, b: string)
    ensures Before(a, b) <==>
              || (|a| < |b| && b[..|a|] == a)
              || exists k :: 0 <= k < |a| && k < |b| && a[..k] == b[..k] && a[k] < b[k]
  {
    var x, y := Codes(a), Codes(b);
    LexLessIff(x, y);
    if x < y {
      assert b[..|a|] == a by {
        assert forall i :: 0 <= i < |a| ==> x[i] == y[i];
      }
    }
    if |a| < |b| && b[..|a|] == a {
      assert forall i :: 0 <= i < |a| ==> b[..|a|][i] == a[i];
      assert y[..|x|] == x;
    }
    if k :| DiffersAt(x, y, k) {
      assert forall i :: 0 <= i < k ==> x[..k][i] == y[..k][i];
      assert forall i :: 0 <= i < k ==> x[i] == y[i];
      assert a[..k] == b[..k];
    }
    if k :| 0 <= k < |a| && k < |b| && a[..k] == b[..k] && a[k] < b[k] {
      assert forall i :: 0 <= i < k ==> a[..k][i] == b[..k][i];
      assert x[..k] == y[..k];
      assert DiffersAt(x, y, k);
    }
  }
}
