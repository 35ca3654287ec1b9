// Directory entries of the image: each 128-byte block parses back to the entry
// that was written, and the right-leaning tree lists and finds every entry.

module CfbDirectory {
  import opened Bytes
  import opened CfbReader
  import opened CfbNames
  import opened CfbLayout

  // ----------------------------------------------------------------- entries

  lemma {:induction false} UnitsOfBytes(u: seq<Unit>)
    ensures Units(UnitBytes(u)) == u
  {
    if u != [] {
      UnitsOfBytes(u[1..]);
      assert UnitBytes(u)[2..] == UnitBytes(u[1..]);
      assert u == [u[0]] + u[1..];
    }
  }

  /** What a reader sees of an entry with these fields. */
  function Parsed(u: seq<Unit>, kind: byte, start: nat, size: nat, right: nat, child: nat): Entry {
    Entry(u, kind, NOSTREAM, right, child, start, size)
  }

  lemma FieldAfterPatch(s: bytes, at: nat, b: bytes, o: nat, n: nat)
    requires at + |b| <= |s| && o + n <= |s|
    requires o + n <= at || at + |b| <= o
    ensures Field(Patch(s, at, b), o, n) == Field(s, o, n)
  {
    PatchOther(s, at, b, o, n);
  }

  /** The bytes before the sibling links: name, its length, kind and colour. */
  function FrontPart(u: seq<Unit>, kind: byte): (b: bytes)
    requires NameFits(u)
    ensures |b| == 128
  {
    var e1 := Patch(Patch(Zeros(128), 0, UnitBytes(u) + [0, 0]), 0x40, Le(2 * |u| + 2, 2));
    Patch(Patch(e1, 0x42, [kind]), 0x43, [1])
  }

  lemma PatchKeepsPrefix(s: bytes, at: nat, b: bytes, n: nat)
    requires at + |b| <= |s| && n <= at
    ensures Patch(s, at, b)[..n] == s[..n]
  {
  }

  lemma PatchStart(s: bytes, b: bytes, n: nat)
    requires n <= |b| <= |s|
    ensures Patch(s, 0, b)[..n] == b[..n]
  {
    assert Patch(s, 0, b) == b + s[|b|..];
  }

  lemma NamePart(u: seq<Unit>, e0: bytes)
    requires NameFits(u) && e0 == Patch(Zeros(128), 0, UnitBytes(u) + [0, 0])
    ensures e0[..2 * |u|] == UnitBytes(u)
  {
    PatchStart(Zeros(128), UnitBytes(u) + [0, 0], 2 * |u|);
  }

  /** A byte written at 0x42 and then one at 0x43 leave the earlier bytes. */
  lemma KindPart(e1: bytes, kind: byte, n: nat)
    requires |e1| == 128 && n <= 0x40
    ensures var b := Patch(Patch(e1, 0x42, [kind]), 0x43, [1]);
            Field(b, 0x40, 2) == Field(e1, 0x40, 2) && b[..n] == e1[..n] && b[0x42] == kind
  {
    var e2 := Patch(e1, 0x42, [kind]);
    assert e2[0x42] == kind;
    FieldAfterPatch(e1, 0x42, [kind], 0x40, 2);
    PatchKeepsPrefix(e1, 0x42, [kind], n);
    FieldAfterPatch(e2, 0x43, [1], 0x40, 2);
    PatchKeepsPrefix(e2, 0x43, [1], n);
  }

  lemma FrontFields(u: seq<Unit>, kind: byte)
    requires NameFits(u)
    ensures var b := FrontPart(u, kind);
            Field(b, 0x40, 2) == 2 * |u| + 2 && b[..2 * |u|] == UnitBytes(u) && b[0x42] == kind
  {
    var e0 := Patch(Zeros(128), 0, UnitBytes(u) + [0, 0]);
    NamePart(u, e0);
    Pow256Values();
    PatchSame(e0, 0x40, 2 * |u| + 2, 2);
    PatchKeepsPrefix(e0, 0x40, Le(2 * |u| + 2, 2), 2 * |u|);
    KindPart(Patch(e0, 0x40, Le(2 * |u| + 2, 2)), kind, 2 * |u|);
  }

  /** The name's own fields survive the writes that follow them. */
  lemma NameFields(u: seq<Unit>, kind: byte, start: nat, size: nat, right: nat, child: nat)
    requires NameFits(u)
    ensures var b := DirEntry(u, kind, start, size, right, child);
            Field(b, 0x40, 2) == 2 * |u| + 2 && b[..2 * |u|] == UnitBytes(u) && b[0x42] == kind
  {
    FrontFields(u, kind);
    var e3 := FrontPart(u, kind);
    var e4 := Patch(e3, 0x44, Le(FAT_FREE, 4));
    var e5 := Patch(e4, 0x48, Le(right, 4));
    var e6 := Patch(e5, 0x4C, Le(child, 4));
    var e7 := Patch(e6, 0x74, Le(start, 4));
    var e8 := Patch(e7, 0x78, Le(size, 8));
    PatchKeepsPrefix(e3, 0x44, Le(FAT_FREE, 4), 0x44);
    PatchKeepsPrefix(e4, 0x48, Le(right, 4), 0x44);
    PatchKeepsPrefix(e5, 0x4C, Le(child, 4), 0x44);
    PatchKeepsPrefix(e6, 0x74, Le(start, 4), 0x44);
    PatchKeepsPrefix(e7, 0x78, Le(size, 8), 0x44);
    SamePrefix(e8, e3, 2 * |u|);
  }

  lemma SamePrefix(x: bytes, y: bytes, n: nat)
    requires |x| == |y| == 128 && x[..0x44] == y[..0x44] && n <= 0x44
    ensures Field(x, 0x40, 2) == Field(y, 0x40, 2) && x[..n] == y[..n] && x[0x42] == y[0x42]
  {
    assert x[0x40..0x42] == x[..0x44][0x40..0x42];
    assert y[0x40..0x42] == y[..0x44][0x40..0x42];
    assert x[0x42] == x[..0x44][0x42];
    assert y[0x42] == y[..0x44][0x42];
    assert x[..n] == x[..0x44][..n];
    assert y[..n] == y[..0x44][..n];
  }

  lemma LinkFields(u: seq<Unit>, kind: byte, start: nat, size: nat, right: nat, child: nat)
    requires NameFits(u)
    requires start < 0x1_0000_0000 && right < 0x1_0000_0000 && child < 0x1_0000_0000
    requires size < 0x1_0000_0000_0000_0000
    ensures var b := DirEntry(u, kind, start, size, right, child);
            && Field(b, 0x44, 4) == NOSTREAM && Field(b, 0x48, 4) == right && Field(b, 0x4C, 4) == child
            && Field(b, 0x74, 4) == start && Field(b, 0x78, 8) == size
  {
    Pow256Values();
    var e1 := Patch(Patch(Zeros(128), 0, UnitBytes(u) + [0, 0]), 0x40, Le(2 * |u| + 2, 2));
    var e3 := Patch(Patch(e1, 0x42, [kind]), 0x43, [1]);
    var e4 := Patch(e3, 0x44, Le(FAT_FREE, 4));
    var e5 := Patch(e4, 0x48, Le(right, 4));
    var e6 := Patch(e5, 0x4C, Le(child, 4));
    var e7 := Patch(e6, 0x74, Le(start, 4));
    PatchSame(e3, 0x44, FAT_FREE, 4);
    PatchSame(e4, 0x48, right, 4);
    PatchSame(e5, 0x4C, child, 4);
    PatchSame(e6, 0x74, start, 4);
    PatchSame(e7, 0x78, size, 8);
    FieldAfterPatch(e4, 0x48, Le(right, 4), 0x44, 4);
    FieldAfterPatch(e5, 0x4C, Le(child, 4), 0x44, 4);
    FieldAfterPatch(e5, 0x4C, Le(child, 4), 0x48, 4);
    FieldAfterPatch(e6, 0x74, Le(start, 4), 0x44, 4);
    FieldAfterPatch(e6, 0x74, Le(start, 4), 0x48, 4);
    FieldAfterPatch(e6, 0x74, Le(start, 4), 0x4C, 4);
    FieldAfterPatch(e7, 0x78, Le(size, 8), 0x44, 4);
    FieldAfterPatch(e7, 0x78, Le(size, 8), 0x48, 4);
    FieldAfterPatch(e7, 0x78, Le(size, 8), 0x4C, 4);
    FieldAfterPatch(e7, 0x78, Le(size, 8), 0x74, 4);
  }

  /** The bytes of an entry that no field covers: the rest of the name's 64 bytes,
      class id, state bits and times are zero, and the node is black. */
  predicate EntryRest(b: bytes, n: nat)
    requires |b| == 128 && n <= 64
  {
    b[n..0x40] == Zeros(64 - n) && b[0x43] == 1 && b[0x50..0x74] == Zeros(36)
  }

  lemma LinksKeep(e: bytes, start: nat, size: nat, right: nat, child: nat, o: nat, n: nat)
    requires |e| == 128 && o + n <= 128 && (o + n <= 0x44 || (0x50 <= o && o + n <= 0x74))
    ensures var e5 := Patch(Patch(Patch(e, 0x44, Le(FAT_FREE, 4)), 0x48, Le(right, 4)), 0x4C, Le(child, 4));
            Patch(Patch(e5, 0x74, Le(start, 4)), 0x78, Le(size, 8))[o..o + n] == e[o..o + n]
  {
    hide Patch, Le;
    var e3 := Patch(e, 0x44, Le(FAT_FREE, 4));
    var e4 := Patch(e3, 0x48, Le(right, 4));
    var e5 := Patch(e4, 0x4C, Le(child, 4));
    PatchOther(e, 0x44, Le(FAT_FREE, 4), o, n);
    PatchOther(e3, 0x48, Le(right, 4), o, n);
    PatchOther(e4, 0x4C, Le(child, 4), o, n);
    PatchOther(e5, 0x74, Le(start, 4), o, n);
    PatchOther(Patch(e5, 0x74, Le(start, 4)), 0x78, Le(size, 8), o, n);
  }

  lemma FrontRest(u: seq<Unit>, kind: byte)
    requires NameFits(u)
    ensures EntryRest(FrontPart(u, kind), 2 * |u|)
  {
    hide Le;
    var z, n := Zeros(128), 2 * |u|;
    var e0 := Patch(z, 0, UnitBytes(u) + [0, 0]);
    assert e0[n..0x40] == Zeros(64 - n) && e0[0x50..0x74] == Zeros(36);
    var e1 := Patch(e0, 0x40, Le(2 * |u| + 2, 2));
    PatchOther(e0, 0x40, Le(2 * |u| + 2, 2), n, 64 - n);
    PatchOther(e0, 0x40, Le(2 * |u| + 2, 2), 0x50, 36);
    var e2 := Patch(e1, 0x42, [kind]);
    PatchOther(e1, 0x42, [kind], n, 64 - n);
    PatchOther(e1, 0x42, [kind], 0x50, 36);
    PatchOther(e2, 0x43, [1], n, 64 - n);
    PatchOther(e2, 0x43, [1], 0x50, 36);
  }

  /** Sections 2.6.1 and 2.6.4: what an entry holds besides its fields. */
  lemma EntryIsPadded(u: seq<Unit>, kind: byte, start: nat, size: nat, right: nat, child: nat)
    requires NameFits(u)
    ensures EntryRest(DirEntry(u, kind, start, size, right, child), 2 * |u|)
  {
    var e, b, n := FrontPart(u, kind), DirEntry(u, kind, start, size, right, child), 2 * |u|;
    FrontRest(u, kind);
    hide Patch, Le, FrontPart, DirEntry;
    assert b == Patch(Patch(Patch(Patch(Patch(e, 0x44, Le(FAT_FREE, 4)), 0x48, Le(right, 4)), 0x4C, Le(child, 4)), 0x74, Le(start, 4)), 0x78, Le(size, 8))
      by { IsFrontThenLinks(u, kind, start, size, right, child); }
    LinksKeep(e, start, size, right, child, n, 64 - n);
    LinksKeep(e, start, size, right, child, 0x43, 1);
    LinksKeep(e, start, size, right, child, 0x50, 36);
    assert b[0x43..0x44][0] == b[0x43] && e[0x43..0x44][0] == e[0x43];
  }

  lemma IsFrontThenLinks(u: seq<Unit>, kind: byte, start: nat, size: nat, right: nat, child: nat)
    requires NameFits(u)
    ensures var e := FrontPart(u, kind);
            DirEntry(u, kind, start, size, right, child) ==
            Patch(Patch(Patch(Patch(Patch(e, 0x44, Le(FAT_FREE, 4)), 0x48, Le(right, 4)), 0x4C, Le(child, 4)), 0x74, Le(start, 4)), 0x78, Le(size, 8))
  {
    hide Patch, Le;
  }

  /** Section 2.6.1: an entry's fields are read back from their offsets. */
  lemma EntryRoundTrip(u: seq<Unit>, kind: byte, start: nat, size: nat, right: nat, child: nat)
    requires NameFits(u)
    requires start < 0x1_0000_0000 && right < 0x1_0000_0000 && child < 0x1_0000_0000
    requires size < 0x1_0000_0000_0000_0000
    ensures ParseEntry(DirEntry(u, kind, start, size, right, child)) == Some(Parsed(u, kind, start, size, right, child))
  {
    NameFields(u, kind, start, size, right, child);
    LinkFields(u, kind, start, size, right, child);
    UnitsOfBytes(u);
  }

  lemma {:induction false} UnLeZeros(n: nat)
    ensures UnLe(Zeros(n)) == 0
  {
    if n > 0 {
      UnLeZeros(n - 1);
      assert Zeros(n)[1..] == Zeros(n - 1);
    }
  }

  /** An unused entry: no name, kind 0, no links; all its other bytes are zero. */
  lemma UnusedEntry()
    ensures ParseEntry(EmptyEntry()) == Some(Entry([], 0, NOSTREAM, NOSTREAM, NOSTREAM, 0, 0))
    ensures EmptyEntry()[..0x44] == Zeros(0x44) && EmptyEntry()[0x50..] == Zeros(0x30)
  {
    hide Patch, Le, UnLe, Pow256;
    Pow256Values();
    var z, b := Zeros(128), EmptyEntry();
    var e1 := Patch(z, 0x44, Le(FAT_FREE, 4));
    var e2 := Patch(e1, 0x48, Le(FAT_FREE, 4));
    UnusedKeeps(0, 0x44);
    UnusedKeeps(0x50, 0x30);
    assert b[0..0x44] == b[..0x44] && b[0x50..0x50 + 0x30] == b[0x50..];
    PatchSame(z, 0x44, FAT_FREE, 4);
    FieldAfterPatch(e1, 0x48, Le(FAT_FREE, 4), 0x44, 4);
    FieldAfterPatch(e2, 0x4C, Le(FAT_FREE, 4), 0x44, 4);
    PatchSame(e1, 0x48, FAT_FREE, 4);
    FieldAfterPatch(e2, 0x4C, Le(FAT_FREE, 4), 0x48, 4);
    PatchSame(e2, 0x4C, FAT_FREE, 4);
    assert b[0x40..0x42] == b[..0x44][0x40..0x42] == Zeros(2) && b[0x42] == b[..0x44][0x42];
    assert b[0x74..0x78] == b[0x50..][0x24..0x28] == Zeros(4) && b[0x78..0x80] == b[0x50..][0x28..0x30] == Zeros(8);
    UnLeZeros(2);
    UnLeZeros(4);
    UnLeZeros(8);
  }

  lemma UnusedKeeps(o: nat, n: nat)
    requires o + n <= 128 && (o + n <= 0x44 || 0x50 <= o)
    ensures EmptyEntry()[o..o + n] == Zeros(n)
  {
    hide Patch, Le;
    var z := Zeros(128);
    var e1 := Patch(z, 0x44, Le(FAT_FREE, 4));
    var e2 := Patch(e1, 0x48, Le(FAT_FREE, 4));
    PatchOther(z, 0x44, Le(FAT_FREE, 4), o, n);
    PatchOther(e1, 0x48, Le(FAT_FREE, 4), o, n);
    PatchOther(e2, 0x4C, Le(FAT_FREE, 4), o, n);
    assert z[o..o + n] == Zeros(n);
  }

  lemma EmptyParses()
    ensures ParseEntry(EmptyEntry()).Some?
  {
    var z := Zeros(128);
    var e1 := Patch(z, 0x44, Le(FAT_FREE, 4));
    var e2 := Patch(e1, 0x48, Le(FAT_FREE, 4));
    FieldAfterPatch(z, 0x44, Le(FAT_FREE, 4), 0x40, 2);
    FieldAfterPatch(e1, 0x48, Le(FAT_FREE, 4), 0x40, 2);
    FieldAfterPatch(e2, 0x4C, Le(FAT_FREE, 4), 0x40, 2);
    assert z[0x40..0x42] == Zeros(2);
    UnLeZeros(2);
  }

  /** Every block parses, so the directory parses block by block. */
  lemma {:induction false} EntriesRoundTrip(blocks: seq<bytes>, es: seq<Entry>)
    requires |blocks| == |es|
    requires forall i :: 0 <= i < |blocks| ==> |blocks[i]| == 128
    requires forall i :: 0 <= i < |blocks| ==> ParseEntry(blocks[i]) == Some(es[i])
    ensures ParseEntries(Join(blocks)) == Some(es)
  {
    hide ParseEntry;
    if blocks != [] {
      assert Join(blocks)[..128] == blocks[0];
      assert Join(blocks)[128..] == Join(blocks[1..]);
      forall i | 0 <= i < |blocks[1..]| ensures ParseEntry(blocks[1..][i]) == Some(es[1..][i]) {
        assert blocks[1..][i] == blocks[i + 1];
      }
      EntriesRoundTrip(blocks[1..], es[1..]);
      assert es == [es[0]] + es[1..];
    }
  }

  // -------------------------------------------------------------------- tree

  /** Entries 1..n form a right-leaning chain. */
  ghost predicate RightChain(es: seq<Entry>, n: nat) {
    && n < |es| < NOSTREAM
    && (forall i :: 1 <= i <= n ==> es[i].left == NOSTREAM)
    && (forall i :: 1 <= i < n ==> es[i].right == i + 1)
    && (n > 0 ==> es[n].right == NOSTREAM)
  }

  function IdsFrom(i: nat, n: nat): (r: seq<nat>)
    requires i <= n + 1
    ensures |r| == n + 1 - i && forall k :: 0 <= k < |r| ==> r[k] == i + k
  {
    seq(n + 1 - i, k requires 0 <= k => i + k)
  }

  /** The in-order walk lists each of the n entries once, in order. */
  lemma {:induction false} InOrderOfChain(es: seq<Entry>, n: nat, i: nat, fuel: nat)
    requires RightChain(es, n) && 1 <= i <= n && n - i < fuel
    ensures InOrder(es, i, fuel) == Some(IdsFrom(i, n))
    decreases n - i
  {
    assert InOrder(es, es[i].left, fuel - 1) == Some([]);
    if i < n {
      InOrderOfChain(es, n, i + 1, fuel - 1);
      assert [] + [i] + IdsFrom(i + 1, n) == IdsFrom(i, n);
    } else {
      assert InOrder(es, es[i].right, fuel - 1) == Some([]);
      assert [] + [i] + [] == IdsFrom(i, n);
    }
  }

  ghost predicate StrictOrder(less: (seq<Unit>, seq<Unit>) -> bool) {
    && (forall a, b :: !(less(a, b) && less(b, a)))
    && (forall a, b, c :: less(a, b) && less(b, c) ==> less(a, c))
  }

  /** From node i, where nothing sends the search left before id, the search
      for the name of entry id stops at id. */
  lemma {:induction false} SearchForward(es: seq<Entry>, n: nat, i: nat, id: nat, less: (seq<Unit>, seq<Unit>) -> bool, fuel: nat)
    requires RightChain(es, n) && 1 <= i <= id <= n && id - i < fuel
    requires forall j :: i <= j < id ==> less(es[j].name, es[id].name) && !less(es[id].name, es[j].name)
    requires !less(es[id].name, es[id].name)
    ensures Search(es, i, es[id].name, less, fuel) == Some(id)
    decreases id - i
  {
    if i < id {
      SearchForward(es, n, i + 1, id, less, fuel - 1);
    }
  }

  /** Conversely a search can only reach id by going right at every earlier
      node. */
  lemma {:induction false} SearchBackward(es: seq<Entry>, n: nat, i: nat, id: nat, less: (seq<Unit>, seq<Unit>) -> bool, fuel: nat)
    requires RightChain(es, n) && 1 <= i <= id <= n
    requires Search(es, i, es[id].name, less, fuel) == Some(id)
    ensures forall j :: i <= j < id ==> less(es[j].name, es[id].name) && !less(es[id].name, es[j].name)
    decreases id - i
  {
    if i < id {
      assert es[i].left >= |es|;
      assert !less(es[id].name, es[i].name);
      SearchBackward(es, n, i + 1, id, less, fuel - 1);
    }
  }

  /** Section 2.6.4: on a right-leaning chain an entry is found by a search for
      its name exactly when the names of all entries before it are less. */
  lemma SearchEntry(es: seq<Entry>, n: nat, id: nat, less: (seq<Unit>, seq<Unit>) -> bool)
    requires RightChain(es, n) && StrictOrder(less) && 1 <= id <= n
    ensures Search(es, 1, es[id].name, less, |es|) == Some(id)
       <==> (forall j :: 1 <= j < id ==> less(es[j].name, es[id].name))
  {
    if forall j :: 1 <= j < id ==> less(es[j].name, es[id].name) {
      SearchForward(es, n, 1, id, less, |es|);
    }
    if Search(es, 1, es[id].name, less, |es|) == Some(id) {
      SearchBackward(es, n, 1, id, less, |es|);
    }
  }

  /** So all entries are found exactly when the names increase along the chain. */
  lemma SearchTree(es: seq<Entry>, n: nat, less: (seq<Unit>, seq<Unit>) -> bool)
    requires RightChain(es, n) && StrictOrder(less)
    ensures (forall id :: 1 <= id <= n ==> Search(es, 1, es[id].name, less, |es|) == Some(id))
       <==> (forall i, j :: 1 <= i < j <= n ==> less(es[i].name, es[j].name))
  {
    forall id | 1 <= id <= n
      ensures Search(es, 1, es[id].name, less, |es|) == Some(id) <==> forall j :: 1 <= j < id ==> less(es[j].name, es[id].name)
    {
      SearchEntry(es, n, id, less);
    }
  }
}
