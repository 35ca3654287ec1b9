// Finding streams by name: exactly when a reader that searches the directory tree
// in the order of [MS-CFB] section 2.6.4 reaches a stream's own entry, for any
// upper-casing of the script and of the standard, and two dicts for which it does
// not: one with a name outside the Basic Multilingual Plane, one with a sharp s.

module CfbSearch {
  import opened Bytes
  import opened CfbReader
  import opened CfbNames
  import opened Lexicographic
  import opened CfbLayout
  import opened CfbChains
  import opened CfbDirectory
  import opened CfbRoundTrip

  function Standard(up: Unit -> Unit): (seq<Unit>, seq<Unit>) -> bool {
    (a: seq<Unit>, b: seq<Unit>) => StandardLess(up, a, b)
  }

  lemma StandardIsStrictOrder(up: Unit -> Unit)
    ensures StrictOrder(Standard(up))
  {
    forall a, b ensures !(Standard(up)(a, b) && Standard(up)(b, a)) {
      LexTotal(UpperUnits(up, a), UpperUnits(up, b));
    }
    forall a, b, c | Standard(up)(a, b) && Standard(up)(b, c) ensures Standard(up)(a, c) {
      if |a| == |b| == |c| {
        LexTransitive(UpperUnits(up, a), UpperUnits(up, b), UpperUnits(up, c));
      }
    }
  }

  /** The search for stream i's name ends at the entry that holds it. */
  ghost predicate Reached(upper: Name -> Name, up: Unit -> Unit, ss: seq<Stream>, i: nat)
    requires i < |ss|
  {
    exists id :: 1 <= id <= |ss| && ReachedAt(upper, up, ss, i, id)
  }

  ghost predicate ReachedAt(upper: Name -> Name, up: Unit -> Unit, ss: seq<Stream>, i: nat, id: nat)
    requires i < |ss| && 1 <= id <= |ss|
  {
    && Order(upper, ss)[id - 1] == ss[i].name
    && Search(EntriesOf(upper, ss), 1, Utf16(ss[i].name), Standard(up), |EntriesOf(upper, ss)|) == Some(id)
  }

  ghost predicate AllFound(upper: Name -> Name, up: Unit -> Unit, ss: seq<Stream>) {
    forall i :: 0 <= i < |ss| ==> Reached(upper, up, ss, i)
  }

  /** The script puts stream j before stream i. */
  predicate Precedes(upper: Name -> Name, ss: seq<Stream>, j: nat, i: nat)
    requires i < |ss| && j < |ss|
  {
    ComesFirst(upper, NamesOf(ss), j, i)
  }

  /** So does the standard. */
  predicate StandardToo(up: Unit -> Unit, ss: seq<Stream>, j: nat, i: nat)
    requires i < |ss| && j < |ss|
  {
    StandardLess(up, Utf16(ss[j].name), Utf16(ss[i].name))
  }

  lemma NameOfEntry(upper: Name -> Name, ss: seq<Stream>, id: nat)
    requires 1 <= id <= |ss|
    ensures EntriesOf(upper, ss)[id].name == Utf16(Order(upper, ss)[id - 1])
  {
  }

  /** The streams before stream i in the directory are those that precede it. */
  lemma EarlierEntries(upper: Name -> Name, ss: seq<Stream>, i: nat, j: nat, p: nat, q: nat)
    requires IsDict(ss) && i < |ss| && j < |ss| && p < |ss| && q < |ss|
    requires Order(upper, ss)[p] == ss[i].name && Order(upper, ss)[q] == ss[j].name
    ensures q < p <==> Precedes(upper, ss, j, i)
  {
    hide SortNames, ComesFirst, DistinctNames;
    SortStable(upper, NamesOf(ss), j, i, q, p);
  }

  /** Where stream i's name stands in sorted order. */
  lemma PlaceOf(upper: Name -> Name, ss: seq<Stream>, i: nat) returns (k: nat)
    requires i < |ss|
    ensures k < |ss| && Order(upper, ss)[k] == ss[i].name
    ensures EntriesOf(upper, ss)[k + 1].name == Utf16(ss[i].name)
  {
    hide Order, EntryOf, EntriesOf;
    assert NamesOf(ss)[i] == ss[i].name;
    assert ss[i].name in Order(upper, ss);
    k :| 0 <= k < |ss| && Order(upper, ss)[k] == ss[i].name;
    NameOfEntry(upper, ss, k + 1);
  }

  /** Whose name stands at place k. */
  lemma StreamAt(upper: Name -> Name, ss: seq<Stream>, k: nat) returns (i: nat)
    requires k < |ss|
    ensures i < |ss| && Order(upper, ss)[k] == ss[i].name
    ensures EntriesOf(upper, ss)[k + 1].name == Utf16(ss[i].name)
  {
    hide Order, EntryOf, EntriesOf;
    assert Order(upper, ss)[k] in NamesOf(ss);
    i := IndexOf(ss, Order(upper, ss)[k]);
    NameOfEntry(upper, ss, k + 1);
  }

  /** The entries before place p are less exactly when the streams that precede
      stream i are. */
  lemma EarlierAreLess(upper: Name -> Name, up: Unit -> Unit, ss: seq<Stream>, i: nat, p: nat)
    requires IsDict(ss) && i < |ss| && p < |ss| && Order(upper, ss)[p] == ss[i].name
    ensures (forall id :: 1 <= id < p + 1 ==> Standard(up)(EntriesOf(upper, ss)[id].name, EntriesOf(upper, ss)[p + 1].name))
       <==> (forall j :: 0 <= j < |ss| && Precedes(upper, ss, j, i) ==> StandardToo(up, ss, j, i))
  {
    hide Order, EntryOf, EntriesOf, StandardLess, Precedes, IsDict;
    var es := EntriesOf(upper, ss);
    NameOfEntry(upper, ss, p + 1);
    if forall id :: 1 <= id < p + 1 ==> Standard(up)(es[id].name, es[p + 1].name) {
      forall j | 0 <= j < |ss| && Precedes(upper, ss, j, i) ensures StandardToo(up, ss, j, i) {
        var q := PlaceOf(upper, ss, j);
        EarlierEntries(upper, ss, i, j, p, q);
        assert Standard(up)(es[q + 1].name, es[p + 1].name);
      }
    }
    if forall j :: 0 <= j < |ss| && Precedes(upper, ss, j, i) ==> StandardToo(up, ss, j, i) {
      forall id | 1 <= id < p + 1 ensures Standard(up)(es[id].name, es[p + 1].name) {
        var j := StreamAt(upper, ss, id - 1);
        EarlierEntries(upper, ss, i, j, p, id - 1);
        assert StandardToo(up, ss, j, i);
      }
    }
  }

  /** A stream is found by its name exactly when every stream that the script puts
      before it comes before it in the standard's order too. Nothing is asked of
      the names or of the two upper-casings. */
  lemma ReachedIff(upper: Name -> Name, up: Unit -> Unit, ss: seq<Stream>, i: nat)
    requires NextFree(ss) <= 128 && IsDict(ss) && i < |ss|
    ensures Reached(upper, up, ss, i)
       <==> (forall j :: 0 <= j < |ss| && Precedes(upper, ss, j, i) ==> StandardToo(up, ss, j, i))
  {
    hide Order, EntryOf, EntriesOf, StandardLess, Precedes, IsDict, NextFree, Search, StandardToo, Standard;
    var es := EntriesOf(upper, ss);
    var p := PlaceOf(upper, ss, i);
    TreeOf(upper, ss);
    StandardIsStrictOrder(up);
    SearchEntry(es, |ss|, p + 1, Standard(up));
    EarlierAreLess(upper, up, ss, i, p);
    if Reached(upper, up, ss, i) {
      var id :| 1 <= id <= |ss| && ReachedAt(upper, up, ss, i, id);
      SamePlace(upper, ss, id - 1, p);
    } else {
      assert !ReachedAt(upper, up, ss, i, p + 1);
    }
  }

  lemma SamePlace(upper: Name -> Name, ss: seq<Stream>, p: nat, q: nat)
    requires IsDict(ss) && p < |ss| && q < |ss| && Order(upper, ss)[p] == Order(upper, ss)[q]
    ensures p == q
  {
    hide SortNames;
    SortOfDistinct(upper, NamesOf(ss));
    OnlyPlace(Order(upper, ss), p, q);
  }

  /** All streams are found exactly when the standard orders any two of them as the
      script does. */
  lemma AllFoundIff(upper: Name -> Name, up: Unit -> Unit, ss: seq<Stream>)
    requires NextFree(ss) <= 128 && IsDict(ss)
    ensures AllFound(upper, up, ss)
       <==> (forall i, j :: 0 <= i < |ss| && 0 <= j < |ss| && Precedes(upper, ss, j, i) ==> StandardToo(up, ss, j, i))
  {
    hide Reached, Precedes, StandardToo, NextFree, IsDict;
    forall i | 0 <= i < |ss|
      ensures Reached(upper, up, ss, i) <==> forall j :: 0 <= j < |ss| && Precedes(upper, ss, j, i) ==> StandardToo(up, ss, j, i)
    {
      ReachedIff(upper, up, ss, i);
    }
    if AllFound(upper, up, ss) {
      forall i, j | 0 <= i < |ss| && 0 <= j < |ss| && Precedes(upper, ss, j, i) ensures StandardToo(up, ss, j, i) {
        assert Reached(upper, up, ss, i);
      }
    }
  }

  /** With distinct sort keys: exactly when every pair of names that the script's
      key puts in order is in the standard's order. */
  lemma AllFoundIffOrdersAgree(upper: Name -> Name, up: Unit -> Unit, ss: seq<Stream>)
    requires NextFree(ss) <= 128 && IsDict(ss) && DistinctKeys(upper, NamesOf(ss))
    ensures AllFound(upper, up, ss)
       <==> (forall a, b :: a in NamesOf(ss) && b in NamesOf(ss) && KeyLess(upper, a, b) ==> StandardLess(up, Utf16(a), Utf16(b)))
  {
    hide NextFree, IsDict, AllFound, KeyLess, StandardLess, DistinctKeys;
    AllFoundIff(upper, up, ss);
    var names := NamesOf(ss);
    forall i, j | 0 <= i < |ss| && 0 <= j < |ss| ensures Precedes(upper, ss, j, i) <==> KeyLess(upper, names[j], names[i]) {
      PrecedesByKey(upper, ss, j, i);
    }
    if forall a, b :: a in names && b in names && KeyLess(upper, a, b) ==> StandardLess(up, Utf16(a), Utf16(b)) {
      forall i, j | 0 <= i < |ss| && 0 <= j < |ss| && Precedes(upper, ss, j, i) ensures StandardToo(up, ss, j, i) {
        assert names[j] in names && names[i] in names;
      }
    }
    if forall i, j :: 0 <= i < |ss| && 0 <= j < |ss| && Precedes(upper, ss, j, i) ==> StandardToo(up, ss, j, i) {
      forall a, b | a in names && b in names && KeyLess(upper, a, b) ensures StandardLess(up, Utf16(a), Utf16(b)) {
        var j :| 0 <= j < |names| && names[j] == a;
        var i :| 0 <= i < |names| && names[i] == b;
        assert StandardToo(up, ss, j, i);
      }
    }
  }

  lemma PrecedesByKey(upper: Name -> Name, ss: seq<Stream>, j: nat, i: nat)
    requires DistinctKeys(upper, NamesOf(ss)) && i < |ss| && j < |ss|
    ensures Precedes(upper, ss, j, i) <==> KeyLess(upper, NamesOf(ss)[j], NamesOf(ss)[i])
  {
    hide SameKey, KeyLess;
  }

  lemma LookupReads(upper: Name -> Name, ss: seq<Stream>, name: seq<Unit>, less: (seq<Unit>, seq<Unit>) -> bool, id: nat, i: nat)
    requires Build(upper, ss).Image? && 1 <= id <= |ss| && i < |ss|
    requires Order(upper, ss)[id - 1] == ss[i].name && IsDict(ss)
    requires Search(EntriesOf(upper, ss), 1, name, less, |EntriesOf(upper, ss)|) == Some(id)
    ensures Lookup(Build(upper, ss).file, name, less) == Some(ss[i].data)
  {
    hide ReadStream, Open, Fat, MiniContent, MiniFatOf, Laid, StartOf, Search, NextFree, Build;
    var j := IndexOf(ss, ss[i].name);
    assert NamesOf(ss)[j] == NamesOf(ss)[i];
    assert j == i;
    Opens(upper, ss);
    FitsFrom(upper, ss);
    RootChild(upper, ss);
    StreamReads(Build(upper, ss).file, upper, ss, i, EntryOf(upper, ss, id));
  }

  lemma FitsFrom(upper: Name -> Name, ss: seq<Stream>)
    requires Build(upper, ss).Image?
    ensures NextFree(ss) <= 128 && NamesFit(ss) && Laid(Build(upper, ss).file, upper, ss)
  {
    ImageIsLaid(upper, ss);
  }

  /** Lookup: when every stream that the script puts before stream i comes before
      it in the standard's order too, searching the image for stream i's name
      returns stream i's bytes. */
  lemma LookupFinds(upper: Name -> Name, up: Unit -> Unit, ss: seq<Stream>, i: nat)
    requires Build(upper, ss).Image? && IsDict(ss) && i < |ss|
    requires forall j :: 0 <= j < |ss| && Precedes(upper, ss, j, i) ==> StandardToo(up, ss, j, i)
    ensures Lookup(Build(upper, ss).file, Utf16(ss[i].name), Standard(up)) == Some(ss[i].data)
  {
    hide Build, Search, Lookup, Order, EntriesOf, EntryOf, NextFree, NamesFit, Utf16, IsDict, Precedes, StandardToo, Standard;
    FitsFrom(upper, ss);
    ReachedIff(upper, up, ss, i);
    var id :| 1 <= id <= |ss| && ReachedAt(upper, up, ss, i, id);
    LookupReads(upper, ss, Utf16(ss[i].name), Standard(up), id, i);
  }

  /** This is so for Basic names of distinct keys on which the script's upper-casing
      works unit by unit, as it does on plain letters. */
  lemma LookupFindsPlainNames(upper: Name -> Name, up: Unit -> Unit, ss: seq<Stream>, i: nat)
    requires Build(upper, ss).Image? && IsDict(ss) && i < |ss| && DistinctKeys(upper, NamesOf(ss))
    requires forall j :: 0 <= j < |ss| ==> Basic(ss[j].name) && CaseAgrees(upper, up, ss[j].name)
    ensures Lookup(Build(upper, ss).file, Utf16(ss[i].name), Standard(up)) == Some(ss[i].data)
  {
    hide Build, Lookup, Utf16, IsDict, Standard, KeyLess, CaseAgrees, Basic, StandardLess, Precedes, DistinctKeys;
    forall j | 0 <= j < |ss| && Precedes(upper, ss, j, i) ensures StandardToo(up, ss, j, i) {
      PrecedesByKey(upper, ss, j, i);
      OrdersAgree(upper, up, ss[j].name, ss[i].name);
    }
    LookupFinds(upper, up, ss, i);
  }

  // ----------------------------------------------------------- counterexamples

  /** Two empty streams. */
  function Pair(a: Name, b: Name): seq<Stream> {
    [Stream(a, []), Stream(b, [])]
  }

  lemma PairFits(a: Name, b: Name)
    requires NameFits(Utf16(a)) && NameFits(Utf16(b))
    ensures NextFree(Pair(a, b)) <= 128 && NamesFit(Pair(a, b))
  {
    hide Utf16;
    var ss := Pair(a, b);
    assert ss[..1] == [ss[0]] && ss[..1][..0] == [];
    assert NextMini(ss[..1]) == 1;
    assert NextMini(ss) == 2;
    assert FullTotal(ss[..1]) == 0;
    assert FullTotal(ss) == 0;
  }

  lemma PairSorts(upper: Name -> Name, a: Name, b: Name)
    requires KeyLess(upper, a, b)
    ensures SortNames(upper, [a, b]) == [a, b]
  {
    KeyTotal(upper, a, b);
    hide KeyLess;
    assert [a, b][..1] == [a] && [a][..0] == [];
    assert SortNames(upper, [a]) == Insert(upper, [], a) == [a];
    assert [a][1..] == [];
    assert Insert(upper, [a], b) == [a] + Insert(upper, [], b);
  }

  lemma FirstOfPair(upper: Name -> Name, a: Name, b: Name)
    requires KeyLess(upper, a, b)
    ensures EntriesOf(upper, Pair(a, b))[1].name == Utf16(a)
  {
    PairSorts(upper, a, b);
    hide EntriesOf, EntryOf, SortNames, Utf16, KeyLess;
    assert NamesOf(Pair(a, b)) == [a, b];
    NameOfEntry(upper, Pair(a, b), 1);
  }

  /** A search that goes left at the first entry finds nothing. */
  lemma LostAtFirst(upper: Name -> Name, up: Unit -> Unit, ss: seq<Stream>, name: seq<Unit>)
    requires Build(upper, ss).Image? && ss != []
    requires StandardLess(up, name, EntriesOf(upper, ss)[1].name)
    ensures Lookup(Build(upper, ss).file, name, Standard(up)) == None
  {
    hide Build, Open, Fat, MiniContent, MiniFatOf, EntryOf, StandardLess, NextFree, ReadStream, EntriesOf, NamesFit, Laid;
    var es := EntriesOf(upper, ss);
    FitsFrom(upper, ss);
    Opens(upper, ss);
    RootChild(upper, ss);
    TreeOf(upper, ss);
    assert Search(es, 1, name, Standard(up), |es|) == Search(es, NOSTREAM, name, Standard(up), |es| - 1);
  }

  lemma PairIsAccepted(upper: Name -> Name, a: Name, b: Name)
    requires NameFits(Utf16(a)) && NameFits(Utf16(b))
    ensures Build(upper, Pair(a, b)).Image?
  {
    hide NextFree, NamesFit, HeaderFor, Fat, DirBlob, MiniFatBlob, MiniBlob, FullContent, Utf16;
    PairFits(a, b);
  }

  /** When the script and the standard order two names differently, the writer
      accepts the pair and the search for the later one finds nothing. */
  lemma LaterIsLost(upper: Name -> Name, up: Unit -> Unit, a: Name, b: Name)
    requires NameFits(Utf16(a)) && NameFits(Utf16(b))
    requires KeyLess(upper, a, b) && StandardLess(up, Utf16(b), Utf16(a))
    ensures Build(upper, Pair(a, b)).Image?
    ensures Lookup(Build(upper, Pair(a, b)).file, Utf16(b), Standard(up)) == None
  {
    hide Build, EntriesOf, EntryOf, Utf16, StandardLess, Lookup, Order, KeyLess;
    PairIsAccepted(upper, a, b);
    FirstOfPair(upper, a, b);
    LostAtFirst(upper, up, Pair(a, b), Utf16(b));
  }

  /** U+10000 and "AA": one and two characters, but two UTF-16 units each. */
  const SURROGATE: Name := [0x1_0000]
  const AA: Name := [65, 65]

  lemma PairUnits()
    ensures Utf16(SURROGATE) == [0xD800, 0xDC00] && Utf16(AA) == [65, 65]
  {
    var a: Name, b: Name := [0x1_0000], [65, 65];
    assert a[1..] == [] && b[1..] == [65] && b[1..][1..] == [];
    assert Utf16(b[1..]) == [65] + Utf16([]);
  }

  /** The property fails beyond the Basic plane, for every upper-casing of the
      script and every case map of the standard that leaves the surrogate after the
      letter: the search for "AA" finds nothing. */
  lemma SurrogateNameIsLost(upper: Name -> Name, up: Unit -> Unit)
    requires up(65) < up(0xD800)
    ensures Build(upper, Pair(SURROGATE, AA)).Image?
    ensures Lookup(Build(upper, Pair(SURROGATE, AA)).file, Utf16(AA), Standard(up)) == None
  {
    hide Build, Lookup, Standard, Utf16;
    PairUnits();
    LessByFirst(up, [65, 65], [0xD800, 0xDC00]);
    LaterIsLost(upper, up, SURROGATE, AA);
  }

  lemma LessByFirst(up: Unit -> Unit, x: seq<Unit>, y: seq<Unit>)
    requires |x| == |y| > 0 && up(x[0]) < up(y[0])
    ensures StandardLess(up, x, y)
  {
  }

  /** A sharp s and "T". */
  const SHARP_S: Name := [0xDF]
  const T: Name := [84]

  lemma SharpUnits()
    ensures Utf16(SHARP_S) == [0xDF] && Utf16(T) == [84] && Basic(SHARP_S) && Basic(T)
  {
    Utf16Basic(SHARP_S);
    Utf16Basic(T);
  }

  /** It fails within the Basic plane too, with distinct keys: Python upper-cases a
      sharp s to "SS", which is before "T", while the standard's unit by unit map
      leaves both as they are, with "T" first. The search for "T" finds nothing. */
  lemma SharpSPairIsLost(upper: Name -> Name, up: Unit -> Unit)
    requires upper(SHARP_S) == [83, 83] && upper(T) == T && up(84) < up(0xDF)
    ensures Build(upper, Pair(SHARP_S, T)).Image? && Basic(SHARP_S) && Basic(T)
    ensures DistinctKeys(upper, NamesOf(Pair(SHARP_S, T)))
    ensures Lookup(Build(upper, Pair(SHARP_S, T)).file, Utf16(T), Standard(up)) == None
  {
    hide Build, Lookup, Standard, Utf16;
    SharpUnits();
    LessByFirst(up, [84], [0xDF]);
    assert KeyLess(upper, SHARP_S, T);
    LaterIsLost(upper, up, SHARP_S, T);
    assert NamesOf(Pair(SHARP_S, T)) == [SHARP_S, T];
    KeyTotal(upper, SHARP_S, T);
  }
}
