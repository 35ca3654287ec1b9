// Stream names: Python strings on the writer's side, UTF-16 code units on the
// reader's side, and the two orders that the directory tree depends on.

module CfbNames {
  import opened Bytes
  import opened CfbReader
  import opened Lexicographic

  /** A Unicode scalar value: what a Python string that encodes to UTF-16 holds. */
  type CodePoint = x: int | 0 <= x < 0x11_0000 && !(0xD800 <= x < 0xE000)

  type Name = seq<CodePoint>

  // ------------------------------------------------------------------ UTF-16

  function UnitsOf(c: CodePoint): (u: seq<Unit>)
    ensures |u| == if c < 0x1_0000 then 1 else 2
  {
    if c < 0x1_0000 then [c]
    else [0xD800 + (c - 0x1_0000) / 0x400, 0xDC00 + (c - 0x1_0000) % 0x400]
  }

  function Utf16(name: Name): (u: seq<Unit>)
    ensures |name| <= |u| <= 2 * |name|
  {
    if name == [] then [] else UnitsOf(name[0]) + Utf16(name[1..])
  }

  /** Section 2.2 of RFC 2781: decoding; None for an unpaired surrogate. */
  function FromUtf16(u: seq<Unit>): Option<Name> {
    if u == [] then Some([])
    else if u[0] < 0xD800 || u[0] > 0xDFFF then
      var rest :- FromUtf16(u[1..]);
      Some([u[0]] + rest)
    else if u[0] > 0xDBFF || |u| == 1 || !(0xDC00 <= u[1] <= 0xDFFF) then None
    else
      var high: int, low: int := u[0], u[1];
      var rest :- FromUtf16(u[2..]);
      Some([0x1_0000 + 1024 * (high - 0xD800) + (low - 0xDC00)] + rest)
  }

  /** The units of a name are its encoding in UTF-16. */
  lemma {:induction false} Utf16Decodes(name: Name)
    ensures FromUtf16(Utf16(name)) == Some(name)
  {
    if name != [] {
      var u, k := Utf16(name), |UnitsOf(name[0])|;
      assert u[..k] == UnitsOf(name[0]) && u[k..] == Utf16(name[1..]);
      assert u[0] == UnitsOf(name[0])[0] && (k == 2 ==> u[1] == UnitsOf(name[0])[1]);
      Utf16Decodes(name[1..]);
      assert name == [name[0]] + name[1..];
    }
  }

  lemma {:induction false} Utf16Injective(a: Name, b: Name)
    requires Utf16(a) == Utf16(b)
    ensures a == b
  {
    if a != [] && b != [] {
      var u, v := Utf16(a), Utf16(b);
      assert u[0] == UnitsOf(a[0])[0] && v[0] == UnitsOf(b[0])[0];
      if a[0] >= 0x1_0000 || b[0] >= 0x1_0000 {
        assert a[0] >= 0x1_0000 && b[0] >= 0x1_0000;
        assert u[1] == UnitsOf(a[0])[1] && v[1] == UnitsOf(b[0])[1];
      }
      assert a[0] == b[0];
      assert u[|UnitsOf(a[0])|..] == Utf16(a[1..]);
      assert v[|UnitsOf(b[0])|..] == Utf16(b[1..]);
      Utf16Injective(a[1..], b[1..]);
    }
  }

  /** Every character lies in the Basic Multilingual Plane. */
  predicate Basic(name: Name) {
    forall i :: 0 <= i < |name| ==> name[i] < 0x1_0000
  }

  lemma {:induction false} Utf16Basic(name: Name)
    ensures Basic(name) <==> |Utf16(name)| == |name|
    ensures Basic(name) ==> Utf16(name) == name
  {
    if name != [] {
      Utf16Basic(name[1..]);
      assert name == [name[0]] + name[1..];
    }
  }

  // -------------------------------------------------------------- writer's key

  /** The writer sorts by (len(name), name.upper()); upper is any map of
      strings, since full upper-casing may change a string's length. */
  predicate KeyLess(upper: Name -> Name, a: Name, b: Name) {
    |a| < |b| || (|a| == |b| && LexLess(upper(a), upper(b)))
  }

  predicate SameKey(upper: Name -> Name, a: Name, b: Name) {
    |a| == |b| && upper(a) == upper(b)
  }

  lemma KeyTotal(upper: Name -> Name, a: Name, b: Name)
    ensures KeyLess(upper, a, b) || SameKey(upper, a, b) || KeyLess(upper, b, a)
    ensures SameKey(upper, a, b) ==> !KeyLess(upper, a, b) && !KeyLess(upper, b, a)
    ensures !(KeyLess(upper, a, b) && KeyLess(upper, b, a))
  {
    LexTotal(upper(a), upper(b));
  }

  /** "b does not come before a" is transitive. */
  lemma KeyNotLessTransitive(upper: Name -> Name, a: Name, b: Name, c: Name)
    requires !KeyLess(upper, b, a) && !KeyLess(upper, c, b)
    ensures !KeyLess(upper, c, a)
    ensures KeyLess(upper, a, b) || KeyLess(upper, b, c) ==> KeyLess(upper, a, c)
  {
    KeyTotal(upper, a, b);
    KeyTotal(upper, b, c);
    KeyTotal(upper, a, c);
    if |a| == |b| == |c| {
      if LexLess(upper(a), upper(b)) && LexLess(upper(b), upper(c)) {
        LexTransitive(upper(a), upper(b), upper(c));
      }
    }
  }

  // -------------------------------------------------------------------- sort

  predicate Sorted(upper: Name -> Name, names: seq<Name>) {
    forall i, j :: 0 <= i < j < |names| ==> !KeyLess(upper, names[j], names[i])
  }

  /** names with n added after every name that does not come after it. */
  function Insert(upper: Name -> Name, names: seq<Name>, n: Name): (r: seq<Name>)
    ensures |r| == |names| + 1
    ensures multiset(r) == multiset(names) + multiset{n}
  {
    if names == [] then [n]
    else if KeyLess(upper, n, names[0]) then [n] + names
    else
      assert names == [names[0]] + names[1..];
      [names[0]] + Insert(upper, names[1..], n)
  }

  /** Python's sorted(): a stable sort by key. */
  function SortNames(upper: Name -> Name, names: seq<Name>): (r: seq<Name>)
    ensures |r| == |names|
    ensures multiset(r) == multiset(names)
  {
    if names == [] then []
    else
      assert names == names[..|names| - 1] + [names[|names| - 1]];
      Insert(upper, SortNames(upper, names[..|names| - 1]), names[|names| - 1])
  }

  lemma {:induction false} InsertSorted(upper: Name -> Name, names: seq<Name>, n: Name)
    requires Sorted(upper, names)
    ensures Sorted(upper, Insert(upper, names, n))
  {
    var r := Insert(upper, names, n);
    if names == [] {
    } else if KeyLess(upper, n, names[0]) {
      forall i, j | 0 <= i < j < |r| ensures !KeyLess(upper, r[j], r[i]) {
        if i == 0 {
          KeyTotal(upper, n, names[0]);
          if j > 1 {
            KeyNotLessTransitive(upper, n, names[0], names[j - 1]);
          }
        }
      }
    } else {
      var rest := Insert(upper, names[1..], n);
      InsertSorted(upper, names[1..], n);
      forall i, j | 0 <= i < j < |r| ensures !KeyLess(upper, r[j], r[i]) {
        if i == 0 {
          assert r[j] == rest[j - 1];
          assert rest[j - 1] in multiset(rest);
          assert r[j] == n || r[j] in names[1..];
        } else {
          assert r[j] == rest[j - 1] && r[i] == rest[i - 1];
        }
      }
    }
  }

  lemma {:induction false} SortSorted(upper: Name -> Name, names: seq<Name>)
    ensures Sorted(upper, SortNames(upper, names))
  {
    if names != [] {
      SortSorted(upper, names[..|names| - 1]);
      InsertSorted(upper, SortNames(upper, names[..|names| - 1]), names[|names| - 1]);
    }
  }

  predicate DistinctNames(names: seq<Name>) {
    forall i, j :: 0 <= i < j < |names| ==> names[i] != names[j]
  }

  predicate DistinctKeys(upper: Name -> Name, names: seq<Name>) {
    forall i, j :: 0 <= i < j < |names| ==> !SameKey(upper, names[i], names[j])
  }

  predicate StrictlySorted(upper: Name -> Name, names: seq<Name>) {
    forall i, j :: 0 <= i < j < |names| ==> KeyLess(upper, names[i], names[j])
  }

  lemma {:induction false} MembersOfSort(upper: Name -> Name, names: seq<Name>, n: Name)
    ensures n in SortNames(upper, names) <==> n in names
  {
    assert n in SortNames(upper, names) <==> n in multiset(SortNames(upper, names));
    assert n in names <==> n in multiset(names);
  }

  /** No name occurs twice exactly when every multiplicity is at most one. */
  lemma {:induction false} DistinctMultiset(names: seq<Name>)
    ensures DistinctNames(names) <==> forall n :: n in names ==> multiset(names)[n] == 1
  {
    if names != [] {
      var rest := names[1..];
      assert names == [names[0]] + rest;
      assert multiset(names) == multiset{names[0]} + multiset(rest);
      DistinctMultiset(rest);
      if DistinctNames(names) {
        assert DistinctNames(rest) by {
          forall i, j | 0 <= i < j < |rest| ensures rest[i] != rest[j] {
            assert rest[i] == names[i + 1] && rest[j] == names[j + 1];
          }
        }
        assert names[0] !in rest;
      }
      if forall n :: n in names ==> multiset(names)[n] == 1 {
        assert names[0] !in rest by {
          assert names[0] in names;
          assert multiset(names)[names[0]] == 1;
        }
        forall n | n in rest ensures multiset(rest)[n] == 1 {
          assert n in names;
        }
        forall i, j | 0 <= i < j < |names| ensures names[i] != names[j] {
          if i == 0 {
            assert names[j] == rest[j - 1];
          } else {
            assert names[i] == rest[i - 1] && names[j] == rest[j - 1];
          }
        }
      }
    }
  }

  /** Sorting keeps the names distinct, and puts them in strictly increasing
      key order exactly when their keys are pairwise distinct. */
  lemma SortOfDistinct(upper: Name -> Name, names: seq<Name>)
    requires DistinctNames(names)
    ensures DistinctNames(SortNames(upper, names))
    ensures DistinctKeys(upper, names) <==> StrictlySorted(upper, SortNames(upper, names))
  {
    var r := SortNames(upper, names);
    DistinctMultiset(names);
    DistinctMultiset(r);
    SortSorted(upper, names);
    forall n ensures n in r <==> n in names { MembersOfSort(upper, names, n); }
    if DistinctKeys(upper, names) {
      forall i, j | 0 <= i < j < |r| ensures KeyLess(upper, r[i], r[j]) {
        assert r[i] in names && r[j] in names;
        var p :| 0 <= p < |names| && names[p] == r[i];
        var q :| 0 <= q < |names| && names[q] == r[j];
        assert p != q;
        assert !SameKey(upper, names[if p < q then p else q], names[if p < q then q else p]);
        KeyTotal(upper, r[i], r[j]);
      }
    }
    if StrictlySorted(upper, r) {
      forall i, j | 0 <= i < j < |names| ensures !SameKey(upper, names[i], names[j]) {
        assert names[i] in r && names[j] in r;
        var p :| 0 <= p < |r| && r[p] == names[i];
        var q :| 0 <= q < |r| && r[q] == names[j];
        assert p != q;
        KeyTotal(upper, names[i], names[j]);
      }
    }
  }

  /** Where a stable sort by key must put names[i] and names[j]: the smaller key
      first, and names of one key in the order they had. */
  predicate ComesFirst(upper: Name -> Name, names: seq<Name>, i: nat, j: nat)
    requires i < |names| && j < |names|
  {
    KeyLess(upper, names[i], names[j]) || (SameKey(upper, names[i], names[j]) && i < j)
  }

  /** r is rest with n inserted at k, behind everything that n is not less than. */
  ghost predicate Inserted(upper: Name -> Name, rest: seq<Name>, n: Name, k: nat, r: seq<Name>) {
    && k <= |rest| == |r| - 1 && r[k] == n
    && (forall x :: 0 <= x < k ==> r[x] == rest[x] && !KeyLess(upper, n, rest[x]))
    && (forall x :: k <= x < |rest| ==> r[x + 1] == rest[x] && KeyLess(upper, n, rest[x]))
  }

  lemma InsertedHere(upper: Name -> Name, names: seq<Name>, n: Name)
    requires Sorted(upper, names) && names != [] && KeyLess(upper, n, names[0])
    ensures Inserted(upper, names, n, 0, [n] + names)
  {
    hide KeyLess;
    forall x | 0 <= x < |names| ensures KeyLess(upper, n, names[x]) {
      if x > 0 {
        KeyTotal(upper, n, names[0]);
        KeyNotLessTransitive(upper, n, names[0], names[x]);
      }
    }
  }

  lemma InsertedLater(upper: Name -> Name, names: seq<Name>, n: Name, k: nat, r: seq<Name>)
    requires names != [] && !KeyLess(upper, n, names[0]) && Inserted(upper, names[1..], n, k, r)
    ensures Inserted(upper, names, n, k + 1, [names[0]] + r)
  {
    hide KeyLess;
    var s, rest := [names[0]] + r, names[1..];
    forall x | 0 <= x < k + 1 ensures s[x] == names[x] && !KeyLess(upper, n, names[x]) {
      if x > 0 {
        assert r[x - 1] == rest[x - 1];
      }
    }
    forall x | k + 1 <= x < |names| ensures s[x + 1] == names[x] && KeyLess(upper, n, names[x]) {
      assert r[x] == rest[x - 1];
    }
  }

  lemma {:induction false} InsertPlace(upper: Name -> Name, names: seq<Name>, n: Name) returns (k: nat)
    requires Sorted(upper, names)
    ensures Inserted(upper, names, n, k, Insert(upper, names, n))
  {
    hide KeyLess;
    if names == [] {
      k := 0;
    } else if KeyLess(upper, n, names[0]) {
      InsertedHere(upper, names, n);
      k := 0;
    } else {
      var rest := InsertPlace(upper, names[1..], n);
      InsertedLater(upper, names, n, rest, Insert(upper, names[1..], n));
      k := rest + 1;
    }
  }

  lemma OnlyPlace(names: seq<Name>, p: nat, q: nat)
    requires DistinctNames(names) && p < |names| && q < |names| && names[p] == names[q]
    ensures p == q
  {
  }

  lemma KeyFacts(upper: Name -> Name, a: Name)
    ensures SameKey(upper, a, a) && !KeyLess(upper, a, a)
  {
    KeyTotal(upper, a, a);
  }

  /** The last name goes behind the others of its key. */
  lemma LastIsStable(upper: Name -> Name, rest: seq<Name>, n: Name, k: nat, r: seq<Name>, x: nat)
    requires Inserted(upper, rest, n, k, r) && x < |r| && x != k
    ensures x < k <==> !KeyLess(upper, n, r[x])
    ensures x < k <==> KeyLess(upper, r[x], n) || SameKey(upper, r[x], n)
  {
    hide KeyLess;
    assert r[x] == if x < k then rest[x] else rest[x - 1];
    KeyTotal(upper, n, r[x]);
  }

  lemma LastPlace(names: seq<Name>, r: seq<Name>, i: nat, p: nat, k: nat)
    requires DistinctNames(r) && DistinctNames(names) && |r| == |names|
    requires i < |names| && p < |r| && k < |r| && r[p] == names[i] && r[k] == names[|names| - 1]
    ensures p == k <==> i == |names| - 1
  {
    hide DistinctNames;
    if p == k {
      OnlyPlace(names, i, |names| - 1);
    } else if i == |names| - 1 {
      OnlyPlace(r, p, k);
    }
  }

  lemma SortLast(upper: Name -> Name, names: seq<Name>)
    requires names != []
    ensures SortNames(upper, names) == Insert(upper, SortNames(upper, names[..|names| - 1]), names[|names| - 1])
  {
  }

  /** One more name, when the others are in stable order. */
  lemma StableStep(upper: Name -> Name, names: seq<Name>, rest: seq<Name>, k: nat, r: seq<Name>, i: nat, j: nat, p: nat, q: nat)
    requires names != [] && DistinctNames(names) && DistinctNames(r) && |r| == |names|
    requires Inserted(upper, rest, names[|names| - 1], k, r)
    requires i < |names| && j < |names| && p < |r| && q < |r| && r[p] == names[i] && r[q] == names[j]
    requires i == |names| - 1 || j == |names| - 1
    ensures p < q <==> ComesFirst(upper, names, i, j)
  {
    var n := |names| - 1;
    assert k < |r| && r[k] == names[n];
    LastPlace(names, r, i, p, k);
    LastPlace(names, r, j, q, k);
    hide KeyLess, SameKey, DistinctNames, Inserted;
    KeyFacts(upper, names[n]);
    KeyTotal(upper, names[i], names[j]);
    if j != n {
      LastIsStable(upper, rest, names[n], k, r, q);
    } else if i != n {
      LastIsStable(upper, rest, names[n], k, r, p);
    }
  }

  lemma AmongOthers(upper: Name -> Name, rest: seq<Name>, n: Name, k: nat, r: seq<Name>, p: nat)
    requires Inserted(upper, rest, n, k, r) && p < |r| && p != k
    ensures if p < k then r[p] == rest[p] else r[p] == rest[p - 1]
  {
    if p > k {
      assert r[(p - 1) + 1] == rest[p - 1];
    }
  }

  /** Everything about the last insertion of a sort. */
  lemma LastInsertion(upper: Name -> Name, names: seq<Name>) returns (k: nat)
    requires names != [] && DistinctNames(names)
    ensures var n := |names| - 1;
            && Inserted(upper, SortNames(upper, names[..n]), names[n], k, SortNames(upper, names))
            && DistinctNames(names[..n]) && DistinctNames(SortNames(upper, names))
  {
    SortOfDistinct(upper, names);
    SortSorted(upper, names[..|names| - 1]);
    SortLast(upper, names);
    hide SortNames, Sorted, Insert, Inserted;
    k := InsertPlace(upper, SortNames(upper, names[..|names| - 1]), names[|names| - 1]);
  }

  /** The sort is stable: names[i] ends up before names[j] exactly when it must. */
  lemma {:induction false} SortStable(upper: Name -> Name, names: seq<Name>, i: nat, j: nat, p: nat, q: nat)
    requires DistinctNames(names) && i < |names| && j < |names| && p < |names| && q < |names|
    requires SortNames(upper, names)[p] == names[i] && SortNames(upper, names)[q] == names[j]
    ensures p < q <==> ComesFirst(upper, names, i, j)
    decreases |names|
  {
    hide DistinctNames, SortNames, ComesFirst, Inserted;
    var n := |names| - 1;
    var front := names[..n];
    var rest, r := SortNames(upper, front), SortNames(upper, names);
    var k := LastInsertion(upper, names);
    InsertedAt(upper, rest, names[n], k, r);
    if i == n || j == n {
      StableStep(upper, names, rest, k, r, i, j, p, q);
    } else {
      LastPlace(names, r, i, p, k);
      LastPlace(names, r, j, q, k);
      AmongOthers(upper, rest, names[n], k, r, p);
      AmongOthers(upper, rest, names[n], k, r, q);
      SortStable(upper, front, i, j, if p < k then p else p - 1, if q < k then q else q - 1);
      SameAmongFirst(upper, names, n, i, j);
    }
  }

  lemma InsertedAt(upper: Name -> Name, rest: seq<Name>, n: Name, k: nat, r: seq<Name>)
    requires Inserted(upper, rest, n, k, r)
    ensures k < |r| == |rest| + 1 && r[k] == n
  {
  }

  lemma SameAmongFirst(upper: Name -> Name, names: seq<Name>, n: nat, i: nat, j: nat)
    requires n <= |names| && i < n && j < n
    ensures ComesFirst(upper, names[..n], i, j) <==> ComesFirst(upper, names, i, j)
  {
    hide KeyLess, SameKey;
  }

  // -------------------------------------------------------- the standard's order

  function UpperUnits(up: Unit -> Unit, u: seq<Unit>): (r: seq<Unit>)
    ensures |r| == |u|
    ensures forall i :: 0 <= i < |u| ==> r[i] == up(u[i])
  {
    if u == [] then [] else [up(u[0])] + UpperUnits(up, u[1..])
  }

  /** [MS-CFB] section 2.6.4: shorter names first, then unit by unit after
      upper-casing each unit on its own. */
  predicate StandardLess(up: Unit -> Unit, a: seq<Unit>, b: seq<Unit>) {
    |a| < |b| || (|a| == |b| && LexLess(UpperUnits(up, a), UpperUnits(up, b)))
  }

  /** For this name the string upper-casing works unit by unit, as the standard's
      does. It does not for every name: Python turns one sharp s into two letters. */
  predicate CaseAgrees(upper: Name -> Name, up: Unit -> Unit, n: Name) {
    upper(n) == UpperUnits(up, Utf16(n))
  }

  lemma OrdersAgree(upper: Name -> Name, up: Unit -> Unit, a: Name, b: Name)
    requires Basic(a) && Basic(b) && CaseAgrees(upper, up, a) && CaseAgrees(upper, up, b)
    ensures KeyLess(upper, a, b) <==> StandardLess(up, Utf16(a), Utf16(b))
  {
    Utf16Basic(a);
    Utf16Basic(b);
  }

  lemma {:induction false} ZerosAreLeast(z: seq<int>, u: seq<int>)
    requires |z| == |u|
    requires forall i :: 0 <= i < |z| ==> z[i] == 0
    requires forall i :: 0 <= i < |u| ==> u[i] >= 0
    requires exists i :: 0 <= i < |u| && u[i] > 0
    ensures LexLess(z, u)
  {
    if u[0] == 0 {
      assert exists i :: 0 <= i < |u[1..]| && u[1..][i] > 0 by {
        var i :| 0 <= i < |u| && u[i] > 0;
        assert u[1..][i - 1] > 0;
      }
      ZerosAreLeast(z[1..], u[1..]);
    }
  }

  lemma {:induction false} SurrogateInside(name: Name)
    requires !Basic(name)
    ensures exists i :: 0 <= i < |Utf16(name)| && 0xD800 <= Utf16(name)[i] < 0xDC00
  {
    var u := Utf16(name);
    if name[0] >= 0x1_0000 {
      assert 0xD800 <= u[0] < 0xDC00;
    } else {
      SurrogateInside(name[1..]);
      var i :| 0 <= i < |Utf16(name[1..])| && 0xD800 <= Utf16(name[1..])[i] < 0xDC00;
      assert u[i + 1] == Utf16(name[1..])[i];
    }
  }

  lemma ZerosBeforeSurrogates(up: Unit -> Unit, z: seq<Unit>, u: seq<Unit>, k: nat)
    requires |z| == |u| && forall i :: 0 <= i < |z| ==> z[i] == 0
    requires k < |u| && 0xD800 <= u[k] && up(u[k]) == u[k] && up(0) == 0
    ensures LexLess(UpperUnits(up, z), UpperUnits(up, u))
    ensures !StandardLess(up, u, z)
  {
    var zu, uu := UpperUnits(up, z), UpperUnits(up, u);
    assert uu[k] > 0;
    ZerosAreLeast(zu, uu);
    LexTotal(zu, uu);
  }

  /** The name of |Utf16(n)| NUL characters sorts after n in the writer's
      order and not after it in the standard's, if n is not Basic. */
  lemma Misordered(upper: Name -> Name, up: Unit -> Unit, n: Name, m: Name)
    requires !Basic(n) && |m| == |Utf16(n)|
    requires forall i :: 0 <= i < |m| ==> m[i] == 0
    requires up(0) == 0 && forall u: Unit :: 0xD800 <= u < 0xE000 ==> up(u) == u
    ensures Basic(m)
    ensures KeyLess(upper, n, m) && !StandardLess(up, Utf16(n), Utf16(m))
  {
    Utf16Basic(n);
    Utf16Basic(m);
    SurrogateInside(n);
    var k :| 0 <= k < |Utf16(n)| && 0xD800 <= Utf16(n)[k] < 0xDC00;
    ZerosBeforeSurrogates(up, Utf16(m), Utf16(n), k);
  }

  /** The name of k NUL characters. */
  function Nuls(k: nat): Name {
    seq(k, _ => 0)
  }

  /** A name is ordered as the standard orders it against all Basic names whose
      case agrees, exactly when the name itself is Basic: len() counts code points
      while the standard counts UTF-16 units. NUL has no case. */
  lemma OrderedAsStandard(upper: Name -> Name, up: Unit -> Unit, n: Name)
    requires Basic(n) ==> CaseAgrees(upper, up, n)
    requires up(0) == 0 && (forall u: Unit :: 0xD800 <= u < 0xE000 ==> up(u) == u) && forall k: nat :: upper(Nuls(k)) == Nuls(k)
    ensures Basic(n) <==>
            forall m: Name :: Basic(m) && CaseAgrees(upper, up, m) ==>
              (KeyLess(upper, n, m) <==> StandardLess(up, Utf16(n), Utf16(m)))
  {
    hide CaseAgrees, KeyLess, StandardLess;
    if Basic(n) {
      forall m: Name | Basic(m) && CaseAgrees(upper, up, m)
        ensures KeyLess(upper, n, m) <==> StandardLess(up, Utf16(n), Utf16(m))
      {
        OrdersAgree(upper, up, n, m);
      }
    } else {
      var m := Nuls(|Utf16(n)|);
      NulsAgree(upper, up, |Utf16(n)|);
      Misordered(upper, up, n, m);
    }
  }

  lemma NulsAgree(upper: Name -> Name, up: Unit -> Unit, k: nat)
    requires up(0) == 0 && upper(Nuls(k)) == Nuls(k)
    ensures CaseAgrees(upper, up, Nuls(k))
  {
    Utf16Basic(Nuls(k));
  }
}
