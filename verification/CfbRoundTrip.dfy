// The reader applied to the writer's image: the header and the FAT are read
// back, the directory lists every stream in key order, and every stream's bytes
// are returned exactly.

module CfbRoundTrip {
  import opened Bytes
  import opened CfbReader
  import opened CfbNames
  import opened CfbLayout
  import opened CfbChains
  import opened CfbDirectory

  // ------------------------------------------------------------------ header

  lemma {:induction false} DifatKeeps(h: bytes, i: nat, o: nat, n: nat)
    requires |h| == 512 && 1 <= i <= 109 && o + n <= 0x50
    ensures DifatFrom(h, i)[o..o + n] == h[o..o + n]
    decreases 109 - i
  {
    if i < 109 {
      var h' := Patch(h, 0x4C + 4 * i, Le(FAT_FREE, 4));
      DifatKeeps(h', i + 1, o, n);
      PatchOther(h, 0x4C + 4 * i, Le(FAT_FREE, 4), o, n);
    }
  }


  /** Everything up to offset k is the same. */
  predicate SameBelow(h: bytes, h': bytes, k: nat) {
    |h| == |h'| == 512 && k <= 512 && h'[..k] == h[..k]
  }

  lemma SameBelowField(h: bytes, h': bytes, k: nat, o: nat, n: nat)
    requires SameBelow(h, h', k) && o + n <= k
    ensures Field(h', o, n) == Field(h, o, n) && h'[o..o + n] == h[o..o + n]
  {
    assert h'[o..o + n] == h'[..k][o..o + n];
    assert h[o..o + n] == h[..k][o..o + n];
  }

  lemma PatchBelow(h: bytes, at: nat, b: bytes, k: nat)
    requires |h| == 512 && k <= at && at + |b| <= 512
    ensures SameBelow(h, Patch(h, at, b), k)
  {
  }

  lemma PrefixFields()
    ensures var h := HeaderPrefix();
            && h[..8] == MAGIC && Field(h, 0x1A, 2) == 3 && Field(h, 0x1C, 2) == 0xFFFE
            && Field(h, 0x1E, 2) == 9 && Field(h, 0x20, 2) == 6
  {
    hide Patch, UnLe, Le, Pow256, Zeros;
    Pow256Values();
    var h0 := Patch(Zeros(512), 0, MAGIC);
    PatchStart(Zeros(512), SIGNATURE, 8);
    var h1 := Patch(h0, 0x18, Le(0x3E, 2));
    var h2 := Patch(h1, 0x1A, Le(3, 2));
    var h3 := Patch(h2, 0x1C, Le(0xFFFE, 2));
    var h4 := Patch(h3, 0x1E, Le(9, 2));
    var h5 := Patch(h4, 0x20, Le(6, 2));
    PatchSame(h1, 0x1A, 3, 2);
    PatchSame(h2, 0x1C, 0xFFFE, 2);
    PatchSame(h3, 0x1E, 9, 2);
    PatchSame(h4, 0x20, 6, 2);
    PatchBelow(h0, 0x18, Le(0x3E, 2), 8);
    PatchBelow(h1, 0x1A, Le(3, 2), 8);
    PatchBelow(h2, 0x1C, Le(0xFFFE, 2), 0x1C);
    PatchBelow(h3, 0x1E, Le(9, 2), 0x1E);
    PatchBelow(h4, 0x20, Le(6, 2), 0x20);
    SameBelowField(h2, h3, 0x1C, 0x1A, 2);
    SameBelowField(h3, h4, 0x1E, 0x1A, 2);
    SameBelowField(h3, h4, 0x1E, 0x1C, 2);
    SameBelowField(h4, h5, 0x20, 0x1A, 2);
    SameBelowField(h4, h5, 0x20, 0x1C, 2);
    SameBelowField(h4, h5, 0x20, 0x1E, 2);
    SameBelowField(h2, h3, 0x1C, 0, 8);
    SameBelowField(h3, h4, 0x1E, 0, 8);
    SameBelowField(h4, h5, 0x20, 0, 8);
  }

  lemma ThenPatch(h: bytes, h': bytes, k: nat, at: nat, b: bytes)
    requires SameBelow(h, h', k) && k <= at && at + |b| <= 512
    ensures SameBelow(h, Patch(h', at, b), k)
  {
    PatchBelow(h', at, b, k);
  }

  /** The header after the fields up to the mini FAT reference. */
  function MiddleHeader(ref: nat): (h: bytes)
    ensures |h| == 512
  {
    var h1 := Patch(Patch(HeaderPrefix(), 0x28, Le(0, 4)), 0x2C, Le(1, 4));
    var h2 := Patch(Patch(Patch(h1, 0x30, Le(1, 4)), 0x34, Le(0, 4)), 0x38, Le(CUTOFF, 4));
    Patch(h2, 0x3C, Le(ref, 4))
  }

  lemma MiddleFields(ref: nat)
    requires ref < 0x1_0000_0000
    ensures var h := MiddleHeader(ref);
            && Field(h, 0x2C, 4) == 1 && Field(h, 0x30, 4) == 1 && Field(h, 0x38, 4) == 0x1000
            && Field(h, 0x3C, 4) == ref && SameBelow(HeaderPrefix(), h, 0x28)
  {
    hide Patch, UnLe, Le, Pow256, HeaderPrefix;
    Pow256Values();
    var p := HeaderPrefix();
    var a := Patch(p, 0x28, Le(0, 4));
    var b := Patch(a, 0x2C, Le(1, 4));
    var c := Patch(b, 0x30, Le(1, 4));
    var d := Patch(c, 0x34, Le(0, 4));
    var e := Patch(d, 0x38, Le(CUTOFF, 4));
    PatchSame(a, 0x2C, 1, 4);
    PatchSame(b, 0x30, 1, 4);
    PatchSame(d, 0x38, CUTOFF, 4);
    PatchSame(e, 0x3C, ref, 4);
    PatchBelow(p, 0x28, Le(0, 4), 0x28);
    ThenPatch(p, a, 0x28, 0x2C, Le(1, 4));
    ThenPatch(p, b, 0x28, 0x30, Le(1, 4));
    ThenPatch(p, c, 0x28, 0x34, Le(0, 4));
    ThenPatch(p, d, 0x28, 0x38, Le(CUTOFF, 4));
    ThenPatch(p, e, 0x28, 0x3C, Le(ref, 4));
    PatchBelow(b, 0x30, Le(1, 4), 0x30);
    ThenPatch(b, c, 0x30, 0x34, Le(0, 4));
    ThenPatch(b, d, 0x30, 0x38, Le(CUTOFF, 4));
    ThenPatch(b, e, 0x30, 0x3C, Le(ref, 4));
    SameBelowField(b, MiddleHeader(ref), 0x30, 0x2C, 4);
    PatchBelow(c, 0x34, Le(0, 4), 0x34);
    ThenPatch(c, d, 0x34, 0x38, Le(CUTOFF, 4));
    ThenPatch(c, e, 0x34, 0x3C, Le(ref, 4));
    SameBelowField(c, MiddleHeader(ref), 0x34, 0x30, 4);
    PatchBelow(e, 0x3C, Le(ref, 4), 0x3C);
    SameBelowField(e, MiddleHeader(ref), 0x3C, 0x38, 4);
  }

  lemma LastFields(m: bytes, count: nat)
    requires |m| == 512 && count < 0x1_0000_0000
    ensures var h0 := Patch(m, 0x40, Le(count, 4));
            var h := DifatFrom(Patch(Patch(Patch(h0, 0x44, Le(FAT_END, 4)), 0x48, Le(0, 4)), 0x4C, Le(0, 4)), 1);
            && Field(h, 0x40, 4) == count && Field(h, 0x48, 4) == 0 && Field(h, 0x4C, 4) == 0
            && SameBelow(m, h, 0x40)
  {
    hide Patch, UnLe, Le, Pow256;
    Pow256Values();
    var a := Patch(m, 0x40, Le(count, 4));
    var b := Patch(a, 0x44, Le(FAT_END, 4));
    var c := Patch(b, 0x48, Le(0, 4));
    var d := Patch(c, 0x4C, Le(0, 4));
    PatchSame(m, 0x40, count, 4);
    PatchSame(b, 0x48, 0, 4);
    PatchSame(c, 0x4C, 0, 4);
    PatchBelow(m, 0x40, Le(count, 4), 0x40);
    ThenPatch(m, a, 0x40, 0x44, Le(FAT_END, 4));
    ThenPatch(m, b, 0x40, 0x48, Le(0, 4));
    ThenPatch(m, c, 0x40, 0x4C, Le(0, 4));
    PatchBelow(a, 0x44, Le(FAT_END, 4), 0x44);
    ThenPatch(a, b, 0x44, 0x48, Le(0, 4));
    ThenPatch(a, c, 0x44, 0x4C, Le(0, 4));
    SameBelowField(a, d, 0x44, 0x40, 4);
    PatchBelow(c, 0x4C, Le(0, 4), 0x4C);
    SameBelowField(c, d, 0x4C, 0x48, 4);
    DifatKeeps(d, 1, 0x40, 4);
    DifatKeeps(d, 1, 0x48, 4);
    DifatKeeps(d, 1, 0x4C, 4);
    DifatKeeps(d, 1, 0, 0x40);
  }

  lemma SameBelowTwice(p: bytes, m: bytes, h: bytes)
    requires SameBelow(p, m, 0x28) && SameBelow(m, h, 0x40)
    ensures SameBelow(p, h, 0x28)
  {
    assert h[..0x28] == h[..0x40][..0x28];
    assert m[..0x28] == m[..0x40][..0x28];
  }

  lemma MiddleOfHeader(ref: nat, count: nat)
    requires ref < 0x1_0000_0000 && count < 0x1_0000_0000
    ensures var h := Header(ref, count);
            && Field(h, 0x2C, 4) == 1 && Field(h, 0x30, 4) == 1 && Field(h, 0x38, 4) == 0x1000
            && Field(h, 0x3C, 4) == ref && Field(h, 0x40, 4) == count && Field(h, 0x48, 4) == 0 && Field(h, 0x4C, 4) == 0
            && SameBelow(HeaderPrefix(), h, 0x28)
  {
    var m, h := MiddleHeader(ref), Header(ref, count);
    MiddleFields(ref);
    LastFields(m, count);
    SameBelowTwice(HeaderPrefix(), m, h);
    SameBelowField(m, h, 0x40, 0x2C, 4);
    SameBelowField(m, h, 0x40, 0x30, 4);
    SameBelowField(m, h, 0x40, 0x38, 4);
    SameBelowField(m, h, 0x40, 0x3C, 4);
  }

  /** Section 2.2: what a reader takes from a header. */
  predicate HeaderHas(h: bytes, ref: nat, count: nat) {
    && HeaderOk(h) && Field(h, 0x2C, 4) == 1 && Field(h, 0x30, 4) == 1 && Field(h, 0x38, 4) == 0x1000
    && Field(h, 0x3C, 4) == ref && Field(h, 0x40, 4) == count && Field(h, 0x4C, 4) == 0
  }

  lemma JoinHeaderFields(p: bytes, h: bytes, ref: nat, count: nat)
    requires SameBelow(p, h, 0x28)
    requires && p[..8] == MAGIC && Field(p, 0x1A, 2) == 3 && Field(p, 0x1C, 2) == 0xFFFE
             && Field(p, 0x1E, 2) == 9 && Field(p, 0x20, 2) == 6
    requires && Field(h, 0x2C, 4) == 1 && Field(h, 0x30, 4) == 1 && Field(h, 0x38, 4) == 0x1000
             && Field(h, 0x3C, 4) == ref && Field(h, 0x40, 4) == count && Field(h, 0x48, 4) == 0 && Field(h, 0x4C, 4) == 0
    ensures HeaderHas(h, ref, count)
  {
    hide UnLe;
    SameBelowField(p, h, 0x28, 0, 8);
    SameBelowField(p, h, 0x28, 0x1A, 2);
    SameBelowField(p, h, 0x28, 0x1C, 2);
    SameBelowField(p, h, 0x28, 0x1E, 2);
    SameBelowField(p, h, 0x28, 0x20, 2);
  }

  lemma HeaderIsUsable(ref: nat, count: nat)
    requires ref < 0x1_0000_0000 && count < 0x1_0000_0000
    ensures HeaderHas(Header(ref, count), ref, count)
  {
    MiddleOfHeader(ref, count);
    PrefixFields();
    JoinHeaderFields(HeaderPrefix(), Header(ref, count), ref, count);
  }

  /** The fields that a reader of version 3 skips: minor version, class id and
      reserved bytes, directory sector count, transaction signature, first DIFAT
      sector, and the free slots of the DIFAT. */
  predicate HeaderRest(h: bytes)
    requires |h| == 512
  {
    && Field(h, 0x18, 2) == 0x3E && h[0x08..0x18] == Zeros(16) && h[0x22..0x28] == Zeros(6)
    && Field(h, 0x28, 4) == 0 && Field(h, 0x34, 4) == 0 && Field(h, 0x44, 4) == ENDOFCHAIN
    && forall k :: 1 <= k < 109 ==> DifatFree(h, k)
  }

  predicate DifatFree(h: bytes, k: nat)
    requires |h| == 512 && k < 109
  {
    Field(h, 0x4C + 4 * k, 4) == FREESECT
  }

  lemma PrefixRest()
    ensures var h := HeaderPrefix(); Field(h, 0x18, 2) == 0x3E && h[0x08..0x18] == Zeros(16) && h[0x22..0x28] == Zeros(6)
  {
    hide Patch, UnLe, Le, Pow256, Zeros;
    Pow256Values();
    var h0 := Patch(Zeros(512), 0, MAGIC);
    var h1 := Patch(h0, 0x18, Le(0x3E, 2));
    var h2 := Patch(h1, 0x1A, Le(3, 2));
    var h3 := Patch(h2, 0x1C, Le(0xFFFE, 2));
    var h4 := Patch(h3, 0x1E, Le(9, 2));
    PatchSame(h0, 0x18, 0x3E, 2);
    FieldAfterPatch(h1, 0x1A, Le(3, 2), 0x18, 2);
    FieldAfterPatch(h2, 0x1C, Le(0xFFFE, 2), 0x18, 2);
    FieldAfterPatch(h3, 0x1E, Le(9, 2), 0x18, 2);
    FieldAfterPatch(h4, 0x20, Le(6, 2), 0x18, 2);
    PrefixGap(0x08, 16);
    PrefixGap(0x22, 6);
  }

  /** Bytes that no field of the prefix covers are zero. */
  lemma PrefixGap(o: nat, n: nat)
    requires o + n <= 512 && 8 <= o && (o + n <= 0x18 || 0x22 <= o)
    ensures HeaderPrefix()[o..o + n] == Zeros(n)
  {
    hide Patch, Le;
    var h0 := Patch(Zeros(512), 0, MAGIC);
    var h1 := Patch(h0, 0x18, Le(0x3E, 2));
    var h2 := Patch(h1, 0x1A, Le(3, 2));
    var h3 := Patch(h2, 0x1C, Le(0xFFFE, 2));
    var h4 := Patch(h3, 0x1E, Le(9, 2));
    PatchOther(Zeros(512), 0, SIGNATURE, o, n);
    PatchOther(h0, 0x18, Le(0x3E, 2), o, n);
    PatchOther(h1, 0x1A, Le(3, 2), o, n);
    PatchOther(h2, 0x1C, Le(0xFFFE, 2), o, n);
    PatchOther(h3, 0x1E, Le(9, 2), o, n);
    PatchOther(h4, 0x20, Le(6, 2), o, n);
    assert Zeros(512)[o..o + n] == Zeros(n);
  }

  lemma MiddleRest(ref: nat)
    requires ref < 0x1_0000_0000
    ensures Field(MiddleHeader(ref), 0x28, 4) == 0 && Field(MiddleHeader(ref), 0x34, 4) == 0
  {
    hide Patch, UnLe, Le, Pow256, HeaderPrefix;
    Pow256Values();
    var p := HeaderPrefix();
    var a := Patch(p, 0x28, Le(0, 4));
    var b := Patch(a, 0x2C, Le(1, 4));
    var c := Patch(b, 0x30, Le(1, 4));
    var d := Patch(c, 0x34, Le(0, 4));
    var e := Patch(d, 0x38, Le(CUTOFF, 4));
    PatchSame(p, 0x28, 0, 4);
    FieldAfterPatch(a, 0x2C, Le(1, 4), 0x28, 4);
    FieldAfterPatch(b, 0x30, Le(1, 4), 0x28, 4);
    FieldAfterPatch(c, 0x34, Le(0, 4), 0x28, 4);
    FieldAfterPatch(d, 0x38, Le(CUTOFF, 4), 0x28, 4);
    FieldAfterPatch(e, 0x3C, Le(ref, 4), 0x28, 4);
    PatchSame(c, 0x34, 0, 4);
    FieldAfterPatch(d, 0x38, Le(CUTOFF, 4), 0x34, 4);
    FieldAfterPatch(e, 0x3C, Le(ref, 4), 0x34, 4);
  }

  lemma LastRest(m: bytes, count: nat)
    requires |m| == 512 && count < 0x1_0000_0000
    ensures var h0 := Patch(m, 0x40, Le(count, 4));
            var h4 := Patch(Patch(Patch(h0, 0x44, Le(FAT_END, 4)), 0x48, Le(0, 4)), 0x4C, Le(0, 4));
            Field(DifatFrom(h4, 1), 0x44, 4) == ENDOFCHAIN
  {
    hide Patch, UnLe, Le, Pow256;
    Pow256Values();
    var a := Patch(m, 0x40, Le(count, 4));
    var b := Patch(a, 0x44, Le(FAT_END, 4));
    var c := Patch(b, 0x48, Le(0, 4));
    var d := Patch(c, 0x4C, Le(0, 4));
    PatchSame(a, 0x44, FAT_END, 4);
    FieldAfterPatch(b, 0x48, Le(0, 4), 0x44, 4);
    FieldAfterPatch(c, 0x4C, Le(0, 4), 0x44, 4);
    DifatKeeps(d, 1, 0x44, 4);
  }

  /** Slot k of the DIFAT is written in its turn and then left alone. */
  lemma {:induction false} DifatIsFree(h: bytes, i: nat, k: nat)
    requires |h| == 512 && 1 <= i <= 109 && k < 109 && (k >= i || DifatFree(h, k))
    ensures DifatFree(DifatFrom(h, i), k)
    decreases 109 - i
  {
    hide Patch, Le, UnLe, Pow256;
    if i < 109 {
      Pow256Values();
      var h' := Patch(h, 0x4C + 4 * i, Le(FAT_FREE, 4));
      if k == i {
        PatchSame(h, 0x4C + 4 * i, FAT_FREE, 4);
      } else if k < i {
        FieldAfterPatch(h, 0x4C + 4 * i, Le(FAT_FREE, 4), 0x4C + 4 * k, 4);
      }
      DifatIsFree(h', i + 1, k);
    }
  }

  lemma RestOfHeader(ref: nat, count: nat)
    requires ref < 0x1_0000_0000 && count < 0x1_0000_0000
    ensures HeaderRest(Header(ref, count))
  {
    hide Patch, Le, UnLe, Zeros, HeaderPrefix, DifatFree;
    var p, m, h := HeaderPrefix(), MiddleHeader(ref), Header(ref, count);
    PrefixRest();
    MiddleRest(ref);
    MiddleOfHeader(ref, count);
    SameBelowField(p, h, 0x28, 0x18, 2);
    SameBelowField(p, h, 0x28, 0x08, 16);
    SameBelowField(p, h, 0x28, 0x22, 6);
    LastRest(m, count);
    LastFields(m, count);
    SameBelowField(m, h, 0x40, 0x28, 4);
    SameBelowField(m, h, 0x40, 0x34, 4);
    var h0 := Patch(m, 0x40, Le(count, 4));
    var h4 := Patch(Patch(Patch(h0, 0x44, Le(FAT_END, 4)), 0x48, Le(0, 4)), 0x4C, Le(0, 4));
    forall k | 1 <= k < 109 ensures DifatFree(h, k) {
      DifatIsFree(h4, 1, k);
    }
  }

  /** The fixed fields, byte by byte: signature, versions, byte order, sector shifts
      and the cutoff of 4096. */
  predicate FixedBytes(h: bytes)
    requires |h| == 512
  {
    && h[..8] == [0xD0, 0xCF, 0x11, 0xE0, 0xA1, 0xB1, 0x1A, 0xE1]
    && h[0x18..0x22] == [0x3E, 0, 3, 0, 0xFE, 0xFF, 9, 0, 6, 0]
    && h[0x38..0x3C] == [0, 0x10, 0, 0]
  }

  lemma TwoBytes(h: bytes, o: nat, low: byte, high: byte)
    requires o + 2 <= |h| && Field(h, o, 2) == low + 256 * high
    ensures h[o] == low && h[o + 1] == high
  {
    UnLeBytes(h[o..o + 2]);
  }

  lemma FixedFields(h: bytes)
    requires |h| == 512 && HeaderOk(h) && Field(h, 0x18, 2) == 0x3E
    ensures FixedBytes(h)
  {
    TwoBytes(h, 0x18, 0x3E, 0);
    TwoBytes(h, 0x1A, 3, 0);
    TwoBytes(h, 0x1C, 0xFE, 0xFF);
    TwoBytes(h, 0x1E, 9, 0);
    TwoBytes(h, 0x20, 6, 0);
    UnLeBytes(h[0x38..0x3C]);
  }

  /** Every byte of the header means what section 2.2 wants it to mean. */
  lemma HeaderFields(ref: nat, count: nat)
    requires ref < 0x1_0000_0000 && count < 0x1_0000_0000
    ensures HeaderHas(Header(ref, count), ref, count) && Field(Header(ref, count), 0x48, 4) == 0
    ensures HeaderRest(Header(ref, count)) && FixedBytes(Header(ref, count))
  {
    hide Header;
    HeaderIsUsable(ref, count);
    RestOfHeader(ref, count);
    FixedFields(Header(ref, count));
  }

  // ------------------------------------------------------------------ volume

  function EmptyParsed(): Entry {
    EmptyParses();
    ParseEntry(EmptyEntry()).value
  }

  /** The directory entry with the given id, as a reader sees it. */
  function EntryOf(upper: Name -> Name, ss: seq<Stream>, id: nat): Entry {
    if id == 0 then
      Parsed(Utf16(ROOT), 5, RootStart(ss), 64 * NextMini(ss), NOSTREAM, if ss == [] then NOSTREAM else 1)
    else if id <= |ss| then
      var name := Order(upper, ss)[id - 1];
      var i := IndexOf(ss, name);
      Parsed(Utf16(name), 2, StartOf(ss, i), |ss[i].data|, if id < |ss| then id + 1 else NOSTREAM, NOSTREAM)
    else EmptyParsed()
  }

  function EntriesOf(upper: Name -> Name, ss: seq<Stream>): (es: seq<Entry>)
    ensures |es| == 4 * DirSectors(ss) > |ss|
    ensures forall id :: 0 <= id < |es| ==> es[id] == EntryOf(upper, ss, id)
  {
    seq(4 * DirSectors(ss), id requires 0 <= id => EntryOf(upper, ss, id))
  }

  function MiniFatOf(ss: seq<Stream>): seq<nat> {
    if NextMini(ss) == 0 then [] else PadTable(MiniTable(ss))
  }

  function VolumeOf(upper: Name -> Name, ss: seq<Stream>): Volume
    requires NextFree(ss) <= 128
  {
    Volume(Fat(ss), EntriesOf(upper, ss), MiniFatOf(ss), MiniContent(ss))
  }

  lemma MiniBound(ss: seq<Stream>)
    requires NextFree(ss) <= 128
    ensures NextMini(ss) <= 1024
  {
    assert MiniStreamSectors(ss) <= 128;
  }

  lemma StreamBounds(ss: seq<Stream>, i: nat)
    requires NextFree(ss) <= 128 && i < |ss|
    ensures StartOf(ss, i) < 0x1_0000 && |ss[i].data| <= 0x1_0000
  {
    MiniBound(ss);
    if IsMini(ss[i]) {
      MiniTableShare(ss, i);
    } else {
      FullTableShare(ss, FullStart(ss), i);
    }
  }

  lemma BlockParses(upper: Name -> Name, ss: seq<Stream>, id: nat)
    requires NextFree(ss) <= 128 && EntryFits(upper, ss, id)
    ensures ParseEntry(DirBlock(upper, ss, id)) == Some(EntryOf(upper, ss, id))
  {
    if id == 0 {
      MiniBound(ss);
      assert |Utf16(ROOT)| <= 2 * |ROOT|;
      EntryRoundTrip(Utf16(ROOT), 5, RootStart(ss), 64 * NextMini(ss), FREESECT, if ss == [] then FREESECT else 1);
    } else if id <= |ss| {
      var name := Order(upper, ss)[id - 1];
      var i := IndexOf(ss, name);
      StreamBounds(ss, i);
      EntryRoundTrip(Utf16(name), 2, StartOf(ss, i), |ss[i].data|, if id < |ss| then id + 1 else FREESECT, FREESECT);
    } else {
      EmptyParses();
    }
  }

  lemma DirectoryParses(upper: Name -> Name, ss: seq<Stream>)
    requires NextFree(ss) <= 128 && NamesFit(ss)
    ensures ParseEntries(DirBlob(upper, ss)) == Some(EntriesOf(upper, ss))
  {
    var blocks := DirBlocks(upper, ss);
    forall id | 0 <= id < |blocks| ensures ParseEntry(blocks[id]) == Some(EntriesOf(upper, ss)[id]) {
      BlockParses(upper, ss, id);
    }
    EntriesRoundTrip(blocks, EntriesOf(upper, ss));
  }

  /** The file is these six parts, cut at these offsets. */
  predicate CutsInto(f: bytes, a: bytes, b: bytes, c: bytes, d: bytes, e: bytes, g: bytes, i: nat, j: nat, k: nat, l: nat, m: nat) {
    i <= j <= k <= l <= m <= |f| && |f| == m + |g| &&
    f[..i] == a && f[i..j] == b && f[j..k] == c && f[k..l] == d && f[l..m] == e && f[m..] == g
  }

  lemma Slices(a: bytes, b: bytes, c: bytes, d: bytes, e: bytes, g: bytes, i: nat, j: nat, k: nat, l: nat, m: nat)
    requires i == |a| && j == i + |b| && k == j + |c| && l == k + |d| && m == l + |e|
    ensures CutsInto(a + b + c + d + e + g, a, b, c, d, e, g, i, j, k, l, m)
  {
    var ab := a + b;
    var abc := ab + c;
    var abcd := abc + d;
    var abcde := abcd + e;
    var f := abcde + g;
    assert ab <= abc <= abcd <= abcde <= f && a <= ab;
    PrefixSlice(f, a, 0, i);
    PrefixSlice(f, ab, i, |b|);
    PrefixSlice(f, abc, j, |c|);
    PrefixSlice(f, abcd, k, |d|);
    PrefixSlice(f, abcde, l, |e|);
  }

  /** The image cut at the allocated boundaries. */
  ghost predicate Laid(f: bytes, upper: Name -> Name, ss: seq<Stream>)
    requires NextFree(ss) <= 128 && NamesFit(ss)
  {
    CutsInto(f, HeaderFor(ss), Pack32(Fat(ss)), DirBlob(upper, ss), MiniFatBlob(ss), MiniBlob(ss), FullContent(ss),
             512, 1024, 512 * MiniFatStart(ss) + 512, 512 * MiniStreamStart(ss) + 512, 512 * FullStart(ss) + 512)
  }

  lemma ImageIsLaid(upper: Name -> Name, ss: seq<Stream>)
    requires NextFree(ss) <= 128 && NamesFit(ss)
    ensures Build(upper, ss).Image? && Laid(Build(upper, ss).file, upper, ss)
  {
    hide Pack32, Fat, DirBlob, MiniFatBlob, MiniBlob, FullContent, HeaderFor, CutsInto, NamesFit, DirSectors, MiniFatSectors, MiniStreamSectors, FullTotal;
    Slices(HeaderFor(ss), Pack32(Fat(ss)), DirBlob(upper, ss), MiniFatBlob(ss), MiniBlob(ss), FullContent(ss),
           512, 1024, 512 * MiniFatStart(ss) + 512, 512 * MiniStreamStart(ss) + 512, 512 * FullStart(ss) + 512);
  }

  lemma HeaderField(f: bytes, h: bytes, o: nat, n: nat)
    requires |f| >= 512 == |h| && f[..512] == h && o + n <= 512
    ensures Field(f, o, n) == Field(h, o, n) && f[o..o + n] == h[o..o + n]
  {
    assert f[o..o + n] == f[..512][o..o + n];
  }

  /** A file that starts with a header has the header's fields. */
  lemma HeaderIsRead(f: bytes, h: bytes, ref: nat, count: nat)
    requires |f| >= 512 == |h| && f[..512] == h && HeaderHas(h, ref, count)
    ensures HeaderHas(f, ref, count)
  {
    hide UnLe;
    HeaderField(f, h, 0, 8);
    HeaderField(f, h, 0x1A, 2);
    HeaderField(f, h, 0x1C, 2);
    HeaderField(f, h, 0x1E, 2);
    HeaderField(f, h, 0x20, 2);
    HeaderField(f, h, 0x2C, 4);
    HeaderField(f, h, 0x30, 4);
    HeaderField(f, h, 0x38, 4);
    HeaderField(f, h, 0x3C, 4);
    HeaderField(f, h, 0x40, 4);
    HeaderField(f, h, 0x48, 4);
    HeaderField(f, h, 0x4C, 4);
  }

  /** Section 2.3: with one DIFAT entry naming sector 0, the FAT is sector 0. */
  lemma FatIsRead(f: bytes, fat: bytes)
    requires |f| >= 1024 && f[512..1024] == fat && Field(f, 0x4C, 4) == 0
    ensures ReadFat(f, 0, 1) == Some(fat)
  {
    assert Sector(f, 0) == Some(fat);
    assert ReadFat(f, 1, 1) == Some([]);
    assert fat + [] == fat;
  }

  lemma FatFitsIn32(ss: seq<Stream>)
    requires NextFree(ss) <= 128
    ensures Unpack32(Pack32(Fat(ss))) == Fat(ss)
  {
    ExtentsTile(ss);
    forall s | 0 <= s < 128 ensures Fat(ss)[s] < 0x1_0000_0000 {
      if 0 < s < NextFree(ss) {
        TilesPartition(Extents(ss), 0, NextFree(ss), s);
        var i :| 0 <= i < |Extents(ss)| && Covers(Extents(ss)[i], s);
        SlotBound(ss, i, s);
      }
    }
    UnpackPack32(Fat(ss));
  }

  lemma SlotBound(ss: seq<Stream>, i: nat, s: nat)
    requires NextFree(ss) <= 128 && 0 < s < NextFree(ss)
    requires i < |Extents(ss)| && Covers(Extents(ss)[i], s)
    ensures Fat(ss)[s] < 0x1_0000_0000
  {
    assert Extents(ss)[0] == Extent(0, 1);
    ExtentIsRun(ss, i);
    var a, n := Extents(ss)[i].start, Extents(ss)[i].count;
    assert Fat(ss)[s] == Fat(ss)[a..a + n][s - a] == RunEntries(a, n)[s - a];
  }

  // ----------------------------------------------------------------- opening

  /** A chain of the FAT, or none at all, is read as its slice of the file. */
  lemma PartIsRead(f: bytes, t: seq<nat>, ref: nat, a: nat, n: nat, part: bytes)
    requires IsRun(t, a, n) && 512 * (a + n + 1) <= |f|
    requires f[512 * a + 512..512 * (a + n) + 512] == part
    requires ref == if n == 0 then ENDOFCHAIN else a
    ensures ReadChain(f, t, ref) == Some(part)
  {
    if n > 0 {
      ReadRun(f, t, a, n);
    } else {
      assert part == [];
      assert Chain(t, ref, |t|) == Some([]);
    }
  }

  function RefTo(start: nat, count: nat): nat {
    if count == 0 then ENDOFCHAIN else start
  }

  lemma PartsAreRead(f: bytes, t: seq<nat>, h: bytes, p: bytes, d: bytes, mf: bytes, ms: bytes, g: bytes, nd: nat, nm: nat, ns: nat)
    requires CutsInto(f, h, p, d, mf, ms, g,
                      512, 1024, 512 * (1 + nd) + 512, 512 * (1 + nd + nm) + 512, 512 * (1 + nd + nm + ns) + 512)
    requires nd > 0 && IsRun(t, 1, nd) && IsRun(t, 1 + nd, nm) && IsRun(t, 1 + nd + nm, ns)
    ensures ReadChain(f, t, 1) == Some(d)
    ensures ReadChain(f, t, RefTo(1 + nd, nm)) == Some(mf) && |mf| == 512 * nm
    ensures ReadChain(f, t, RefTo(1 + nd + nm, ns)) == Some(ms)
  {
    hide ReadChain, IsRun;
    PartIsRead(f, t, 1, 1, nd, d);
    PartIsRead(f, t, RefTo(1 + nd, nm), 1 + nd, nm, mf);
    PartIsRead(f, t, RefTo(1 + nd + nm, ns), 1 + nd + nm, ns, ms);
  }

  lemma OpenIsOpenWith(f: bytes, t: seq<nat>, p: bytes, ref: nat, nm: nat)
    requires HeaderHas(f, ref, nm) && ReadFat(f, 0, 1) == Some(p) && |p| % 4 == 0 && Unpack32(p) == t
    ensures Open(f) == OpenWith(f, t, 1, ref, nm)
  {
    hide Unpack32, ReadFat, OpenWith;
  }

  /** The volume v, read out of the file's three chains. */
  predicate Assembled(f: bytes, t: seq<nat>, d: bytes, mf: bytes, ms: bytes, ref: nat, nm: nat, es: seq<Entry>, v: Volume) {
    && |mf| == 512 * nm && es != [] && es[0].kind == 5 && es[0].name == ROOT_NAME && es[0].size <= |ms|
    && v == Volume(t, es, Unpack32(mf), ms[..es[0].size])
    && ReadChain(f, t, 1) == Some(d) && ReadChain(f, t, ref) == Some(mf) && ReadChain(f, t, es[0].start) == Some(ms)
    && ParseEntries(d) == Some(es)
  }

  /** What opening a file comes to when its chains are read. */
  lemma OpensFromParts(f: bytes, t: seq<nat>, d: bytes, mf: bytes, ms: bytes, ref: nat, nm: nat, es: seq<Entry>, v: Volume)
    requires Assembled(f, t, d, mf, ms, ref, nm, es, v)
    ensures OpenWith(f, t, 1, ref, nm) == Some(v)
  {
    hide ParseEntries, Unpack32, ReadChain;
  }

  lemma MiniFatUnpacks(ss: seq<Stream>)
    requires NextFree(ss) <= 128
    ensures Unpack32(MiniFatBlob(ss)) == MiniFatOf(ss)
  {
    if NextMini(ss) > 0 {
      MiniBound(ss);
      MiniTableBound(ss);
      UnpackPack32(PadTable(MiniTable(ss)));
    }
  }

  lemma {:induction false} MiniTableBound(ss: seq<Stream>)
    ensures forall k :: 0 <= k < |MiniTable(ss)| ==> MiniTable(ss)[k] == ENDOFCHAIN || MiniTable(ss)[k] <= NextMini(ss)
  {
    if ss != [] {
      MiniTableBound(ss[..|ss| - 1]);
    }
  }

  lemma HeaderAndFatOfImage(f: bytes, upper: Name -> Name, ss: seq<Stream>)
    requires NextFree(ss) <= 128 && NamesFit(ss) && Laid(f, upper, ss)
    ensures HeaderHas(f, MiniFatRef(ss), MiniFatSectors(ss))
    ensures ReadFat(f, 0, 1) == Some(Pack32(Fat(ss)))
  {
    hide Field, HeaderOk, Pack32, Fat, Header, ReadFat, DirBlob, MiniFatBlob, MiniBlob, FullContent;
    HeaderIsUsable(MiniFatRef(ss), MiniFatSectors(ss));
    HeaderIsRead(f, HeaderFor(ss), MiniFatRef(ss), MiniFatSectors(ss));
    FatIsRead(f, Pack32(Fat(ss)));
  }

  lemma ChainsOfImage(f: bytes, upper: Name -> Name, ss: seq<Stream>)
    requires NextFree(ss) <= 128 && NamesFit(ss) && Laid(f, upper, ss)
    ensures ReadChain(f, Fat(ss), 1) == Some(DirBlob(upper, ss))
    ensures ReadChain(f, Fat(ss), MiniFatRef(ss)) == Some(MiniFatBlob(ss))
    ensures ReadChain(f, Fat(ss), RootStart(ss)) == Some(MiniBlob(ss))
  {
    hide Pack32, Fat, HeaderFor, ReadChain, DirBlob, MiniFatBlob, MiniBlob, FullContent, IsRun, CutsInto;
    DirRun(ss);
    MiniFatRun(ss);
    MiniStreamRun(ss);
    PartsAreRead(f, Fat(ss), HeaderFor(ss), Pack32(Fat(ss)), DirBlob(upper, ss), MiniFatBlob(ss), MiniBlob(ss), FullContent(ss),
                 DirSectors(ss), MiniFatSectors(ss), MiniStreamSectors(ss));
  }

  /** The reader opens the image and sees the FAT, the directory, the mini FAT
      and the mini stream that the writer planned. */
  lemma Opens(upper: Name -> Name, ss: seq<Stream>)
    requires Build(upper, ss).Image?
    ensures Open(Build(upper, ss).file) == Some(VolumeOf(upper, ss))
    ensures |Build(upper, ss).file| == 512 * (1 + NextFree(ss))
  {
    ImageIsLaid(upper, ss);
    LaidOpens(Build(upper, ss).file, upper, ss);
  }

  lemma RootIsRead(upper: Name -> Name, ss: seq<Stream>)
    requires NextFree(ss) <= 128
    ensures var es := EntriesOf(upper, ss);
            && es != [] && es[0].kind == 5 && es[0].name == ROOT_NAME && es[0].start == RootStart(ss) && es[0].size <= |MiniBlob(ss)|
            && MiniBlob(ss)[..es[0].size] == MiniContent(ss)
    ensures |MiniFatBlob(ss)| == 512 * MiniFatSectors(ss)
  {
    hide MiniTable;
    assert EntriesOf(upper, ss)[0] == EntryOf(upper, ss, 0);
    RootName();
  }

  lemma RootName()
    ensures Utf16(ROOT) == ROOT_NAME
  {
    Utf16Basic(ROOT);
  }

  lemma ImageAssembles(f: bytes, upper: Name -> Name, ss: seq<Stream>)
    requires NextFree(ss) <= 128 && NamesFit(ss) && Laid(f, upper, ss)
    ensures Assembled(f, Fat(ss), DirBlob(upper, ss), MiniFatBlob(ss), MiniBlob(ss), MiniFatRef(ss), MiniFatSectors(ss),
                      EntriesOf(upper, ss), VolumeOf(upper, ss))
  {
    hide ParseEntries, Unpack32, Pack32, Fat, DirBlob, MiniBlob, MiniFatBlob, MiniContent, MiniFatOf, EntriesOf, RootStart, ReadChain, Laid;
    ChainsOfImage(f, upper, ss);
    DirectoryParses(upper, ss);
    MiniFatUnpacks(ss);
    RootIsRead(upper, ss);
  }

  lemma LaidOpens(f: bytes, upper: Name -> Name, ss: seq<Stream>)
    requires NextFree(ss) <= 128 && NamesFit(ss) && Laid(f, upper, ss)
    ensures Open(f) == Some(VolumeOf(upper, ss))
    ensures |f| == 512 * (1 + NextFree(ss))
  {
    hide Field, HeaderOk, ParseEntries, Unpack32, Pack32, Fat, DirBlob, Header, MiniFatOf, EntriesOf, Open, OpenWith, ReadChain, ReadFat;
    var t, es := Fat(ss), EntriesOf(upper, ss);
    HeaderAndFatOfImage(f, upper, ss);
    FatFitsIn32(ss);
    OpenIsOpenWith(f, t, Pack32(t), MiniFatRef(ss), MiniFatSectors(ss));
    ImageAssembles(f, upper, ss);
    hide Assembled;
    OpensFromParts(f, t, DirBlob(upper, ss), MiniFatBlob(ss), MiniBlob(ss), MiniFatRef(ss), MiniFatSectors(ss), es, VolumeOf(upper, ss));
  }

  // ----------------------------------------------------------------- streams

  lemma ReadsMini(f: bytes, v: Volume, e: Entry, d: bytes, a: nat, n: nat)
    requires e.start == a && e.size == |d| < 4096 && 0 < n && |d| <= 64 * n
    requires IsRun(v.miniFat, a, n) && 64 * (a + n) <= |v.mini|
    requires v.mini[64 * a..64 * (a + n)] == Pad(d, 64 * n)
    ensures ReadStream(f, v, e) == Some(d)
  {
    ChainOfRun(v.miniFat, a, n);
    ReadMiniRange(v.mini, a, n);
  }

  lemma ReadsFull(f: bytes, v: Volume, e: Entry, d: bytes, a: nat, n: nat)
    requires e.start == a && e.size == |d| >= 4096 && 0 < n && |d| <= 512 * n
    requires IsRun(v.fat, a, n) && 512 * (a + n) + 512 <= |f|
    requires f[512 * a + 512..512 * (a + n) + 512] == Pad(d, 512 * n)
    ensures ReadStream(f, v, e) == Some(d)
  {
    ReadRun(f, v.fat, a, n);
  }

  lemma FullSlice(f: bytes, upper: Name -> Name, ss: seq<Stream>, i: nat)
    requires NextFree(ss) <= 128 && NamesFit(ss) && Laid(f, upper, ss)
    requires i < |ss| && !IsMini(ss[i])
    ensures var a, n := StartOf(ss, i), FullCount(ss[i].data);
            512 * (a + n) + 512 <= |f| && f[512 * a + 512..512 * (a + n) + 512] == Pad(ss[i].data, 512 * n)
  {
    hide Fat, HeaderFor, DirBlob, MiniFatBlob, MiniBlob, FullContent, Pack32, FullStart;
    FullContentShare(ss, i);
    var at, t, n := 512 * FullStart(ss) + 512, FullTotal(ss[..i]), FullCount(ss[i].data);
    SuffixSlice(f, at, 512 * t, 512 * n);
  }

  lemma SuffixSlice(f: bytes, at: nat, x: nat, n: nat)
    requires at + x + n <= |f|
    ensures f[at + x..at + x + n] == f[at..][x..x + n]
  {
  }

  /** The reader returns stream i's bytes from the entry that records where it
      starts and how long it is. */
  lemma StreamReads(f: bytes, upper: Name -> Name, ss: seq<Stream>, i: nat, e: Entry)
    requires NextFree(ss) <= 128 && NamesFit(ss) && Laid(f, upper, ss) && i < |ss|
    requires e.start == StartOf(ss, i) && e.size == |ss[i].data|
    ensures ReadStream(f, VolumeOf(upper, ss), e) == Some(ss[i].data)
  {
    hide ReadStream, EntriesOf, Fat, IsRun, PadTable, MiniTable, MiniContent, Laid;
    var d := ss[i].data;
    if IsMini(ss[i]) {
      MiniBound(ss);
      MiniContentShare(ss, i);
      MiniRun(ss, i);
      ReadsMini(f, VolumeOf(upper, ss), e, d, NextMini(ss[..i]), MiniCount(d));
    } else {
      FullRun(ss, i);
      FullSlice(f, upper, ss, i);
      ReadsFull(f, VolumeOf(upper, ss), e, d, StartOf(ss, i), FullCount(d));
    }
  }

  // ----------------------------------------------------------------- listing

  /** Stream k in key order, as a reader should see it. */
  function FileAt(upper: Name -> Name, ss: seq<Stream>, k: nat): File
    requires k < |ss|
  {
    var name := Order(upper, ss)[k];
    File(Utf16(name), ss[IndexOf(ss, name)].data)
  }

  function Files(upper: Name -> Name, ss: seq<Stream>): (r: seq<File>)
    ensures |r| == |ss|
    ensures forall k :: 0 <= k < |r| ==> r[k] == FileAt(upper, ss, k)
  {
    seq(|ss|, k requires 0 <= k < |ss| => FileAt(upper, ss, k))
  }

  lemma TreeOf(upper: Name -> Name, ss: seq<Stream>)
    requires NextFree(ss) <= 128
    ensures RightChain(EntriesOf(upper, ss), |ss|)
  {
  }

  lemma FileReads(f: bytes, upper: Name -> Name, ss: seq<Stream>, k: nat)
    requires NextFree(ss) <= 128 && NamesFit(ss) && Laid(f, upper, ss) && k < |ss|
    ensures var e := EntriesOf(upper, ss)[k + 1];
            && e.kind == 2 && e.name == FileAt(upper, ss, k).name
            && ReadStream(f, VolumeOf(upper, ss), e) == Some(FileAt(upper, ss, k).data)
  {
    hide ReadStream, Fat, Laid, MiniContent, MiniFatOf;
    var name := Order(upper, ss)[k];
    var e := EntryOf(upper, ss, k + 1);
    StreamReads(f, upper, ss, IndexOf(ss, name), e);
  }

  /** Entry id is a stream entry with this file's name and data. */
  predicate HoldsFile(f: bytes, v: Volume, id: nat, file: File) {
    id < |v.entries| && v.entries[id].kind == 2 && v.entries[id].name == file.name
    && ReadStream(f, v, v.entries[id]) == Some(file.data)
  }

  lemma {:induction false} FilesRead(f: bytes, v: Volume, files: seq<File>, k: nat)
    requires k <= |files| < |v.entries|
    requires forall j :: 0 <= j < |files| ==> HoldsFile(f, v, j + 1, files[j])
    ensures ReadFiles(f, v, IdsFrom(k + 1, |files|)) == Some(files[k..])
    decreases |files| - k
  {
    hide ReadStream;
    if k < |files| {
      assert HoldsFile(f, v, k + 1, files[k]);
      FilesRead(f, v, files, k + 1);
      assert IdsFrom(k + 1, |files|)[1..] == IdsFrom(k + 2, |files|);
      assert files[k] == File(v.entries[k + 1].name, files[k].data);
      assert files[k..] == [files[k]] + files[k + 1..];
    }
  }

  // ------------------------------------------------------------ main theorems

  /** The tree below the root lists ids 1..n in order. */
  lemma TreeListing(upper: Name -> Name, ss: seq<Stream>)
    requires NextFree(ss) <= 128
    ensures var es := EntriesOf(upper, ss); InOrder(es, es[0].child, |es|) == Some(IdsFrom(1, |ss|))
  {
    hide EntryOf, DirSectors;
    var es := EntriesOf(upper, ss);
    TreeOf(upper, ss);
    RootChild(upper, ss);
    if ss == [] {
      assert InOrder(es, NOSTREAM, |es|) == Some([]);
      assert IdsFrom(1, 0) == [];
    } else {
      InOrderOfChain(es, |ss|, 1, |es|);
    }
  }

  lemma AllFilesRead(f: bytes, upper: Name -> Name, ss: seq<Stream>)
    requires NextFree(ss) <= 128 && NamesFit(ss) && Laid(f, upper, ss)
    ensures ReadFiles(f, VolumeOf(upper, ss), IdsFrom(1, |ss|)) == Some(Files(upper, ss))
  {
    hide ReadFiles, ReadStream, Fat, EntryOf, FileAt, MiniContent, MiniFatOf, Laid;
    forall j | 0 <= j < |ss|
      ensures HoldsFile(f, VolumeOf(upper, ss), j + 1, Files(upper, ss)[j])
    {
      FileReads(f, upper, ss, j);
    }
    FilesRead(f, VolumeOf(upper, ss), Files(upper, ss), 0);
    assert Files(upper, ss)[0..] == Files(upper, ss);
  }

  /** Round trip: for every set of streams that the writer accepts, a reader
      written from [MS-CFB] extracts from its image exactly those streams, each
      with its exact bytes, in the writer's key order. */
  lemma RoundTrip(upper: Name -> Name, ss: seq<Stream>)
    requires Build(upper, ss).Image?
    ensures Extract(Build(upper, ss).file) == Some(Files(upper, ss))
  {
    hide ReadFiles, InOrder, Open, Fat, EntryOf, FileAt, MiniContent, MiniFatOf, Laid;
    Opens(upper, ss);
    ImageIsLaid(upper, ss);
    TreeListing(upper, ss);
    AllFilesRead(Build(upper, ss).file, upper, ss);
  }

  lemma RootChild(upper: Name -> Name, ss: seq<Stream>)
    ensures EntriesOf(upper, ss)[0].child == if ss == [] then NOSTREAM else 1
  {
  }

  /** Nothing is lost: every stream of the dict is in the listing. */
  lemma EveryStreamListed(upper: Name -> Name, ss: seq<Stream>, i: nat)
    requires IsDict(ss) && i < |ss|
    ensures exists k :: 0 <= k < |ss| && FileAt(upper, ss, k) == File(Utf16(ss[i].name), ss[i].data)
  {
    assert NamesOf(ss)[i] == ss[i].name;
    assert ss[i].name in NamesOf(ss);
    var k :| 0 <= k < |ss| && Order(upper, ss)[k] == ss[i].name;
    var j := IndexOf(ss, ss[i].name);
    assert NamesOf(ss)[j] == ss[j].name;
    assert j == i;
    assert FileAt(upper, ss, k) == File(Utf16(ss[i].name), ss[i].data);
  }
}
