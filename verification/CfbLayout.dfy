// The image that _build_cfb (scripts/gen-fixtures.py) produces, as a function
// of the streams: which sectors each part gets, what the FAT and the mini FAT
// hold, the directory entries, and the bytes of the whole file.

module CfbLayout {
  import opened Bytes
  import opened CfbReader
  import opened CfbNames

  /** One item of the dict of streams; a seq keeps the dict's insertion order. */
  datatype Stream = Stream(name: Name, data: bytes)

  function NamesOf(ss: seq<Stream>): (names: seq<Name>)
    ensures |names| == |ss|
    ensures forall i :: 0 <= i < |ss| ==> names[i] == ss[i].name
  {
    seq(|ss|, i requires 0 <= i < |ss| => ss[i].name)
  }

  /** A dict has every key once. */
  predicate IsDict(ss: seq<Stream>) {
    DistinctNames(NamesOf(ss))
  }

  /** The script's own constants. */
  const CUTOFF: nat := 4096
  const FAT_FREE: nat := 0xFFFF_FFFF
  const FAT_END: nat := 0xFFFF_FFFE
  const FAT_FAT: nat := 0xFFFF_FFFD
  const SIGNATURE: bytes := [0xD0, 0xCF, 0x11, 0xE0, 0xA1, 0xB1, 0x1A, 0xE1]

  predicate IsMini(s: Stream) {
    |s.data| < CUTOFF
  }

  function Max(a: nat, b: nat): nat {
    if a < b then b else a
  }

  function MiniCount(d: bytes): nat {
    Max(1, (|d| + 63) / 64)
  }

  function FullCount(d: bytes): nat {
    Max(1, (|d| + 511) / 512)
  }

  /** The entries of a chain of n consecutive sectors from start. */
  function RunEntries(start: nat, n: nat): (r: seq<nat>)
    ensures |r| == n
  {
    seq(n, i => if i == n - 1 then FAT_END else start + i + 1)
  }

  function Pad(d: bytes, size: nat): (r: bytes)
    requires |d| <= size
    ensures |r| == size && r[..|d|] == d && r[|d|..] == Zeros(size - |d|)
  {
    d + Zeros(size - |d|)
  }

  // ------------------------------------------------------------- mini stream

  /** The mini sectors used by the streams of ss, and so the next free one. */
  function NextMini(ss: seq<Stream>): nat {
    if ss == [] then 0
    else
      var last := ss[|ss| - 1];
      NextMini(ss[..|ss| - 1]) + if IsMini(last) then MiniCount(last.data) else 0
  }

  function MiniContent(ss: seq<Stream>): (b: bytes)
    ensures |b| == 64 * NextMini(ss)
  {
    if ss == [] then []
    else
      var last := ss[|ss| - 1];
      MiniContent(ss[..|ss| - 1]) + if IsMini(last) then Pad(last.data, 64 * MiniCount(last.data)) else []
  }

  function MiniTable(ss: seq<Stream>): (t: seq<nat>)
    ensures |t| == NextMini(ss)
  {
    if ss == [] then []
    else
      var last := ss[|ss| - 1];
      MiniTable(ss[..|ss| - 1]) + if IsMini(last) then RunEntries(NextMini(ss[..|ss| - 1]), MiniCount(last.data)) else []
  }

  /** t filled with free entries to a positive multiple of 128. */
  function PadTable(t: seq<nat>): (r: seq<nat>)
    ensures |r| == 128 * Max(1, (|t| + 127) / 128)
    ensures r[..|t|] == t
  {
    t + seq(128 * Max(1, (|t| + 127) / 128) - |t|, _ => FAT_FREE)
  }

  // ------------------------------------------------------------ full streams

  /** The full sectors used by the streams of ss. */
  function FullTotal(ss: seq<Stream>): nat {
    if ss == [] then 0
    else
      var last := ss[|ss| - 1];
      FullTotal(ss[..|ss| - 1]) + if IsMini(last) then 0 else FullCount(last.data)
  }

  function FullContent(ss: seq<Stream>): (b: bytes)
    ensures |b| == 512 * FullTotal(ss)
  {
    if ss == [] then []
    else
      var last := ss[|ss| - 1];
      FullContent(ss[..|ss| - 1]) + if IsMini(last) then [] else Pad(last.data, 512 * FullCount(last.data))
  }

  function FullTable(ss: seq<Stream>, base: nat): (t: seq<nat>)
    ensures |t| == FullTotal(ss)
  {
    if ss == [] then []
    else
      var last := ss[|ss| - 1];
      FullTable(ss[..|ss| - 1], base) +
      if IsMini(last) then [] else RunEntries(base + FullTotal(ss[..|ss| - 1]), FullCount(last.data))
  }

  // -------------------------------------------------------------- allocation

  function DirSectors(ss: seq<Stream>): nat {
    Max(1, (1 + |ss| + 3) / 4)
  }

  function MiniFatSectors(ss: seq<Stream>): nat {
    if NextMini(ss) == 0 then 0 else Max(1, (NextMini(ss) + 127) / 128)
  }

  function MiniStreamSectors(ss: seq<Stream>): nat {
    (64 * NextMini(ss) + 511) / 512
  }

  function MiniFatStart(ss: seq<Stream>): nat {
    1 + DirSectors(ss)
  }

  function MiniStreamStart(ss: seq<Stream>): nat {
    MiniFatStart(ss) + MiniFatSectors(ss)
  }

  function FullStart(ss: seq<Stream>): nat {
    MiniStreamStart(ss) + MiniStreamSectors(ss)
  }

  function NextFree(ss: seq<Stream>): nat {
    FullStart(ss) + FullTotal(ss)
  }

  function UsedFat(ss: seq<Stream>): (t: seq<nat>)
    ensures |t| == NextFree(ss)
  {
    [FAT_FAT]
    + RunEntries(1, DirSectors(ss))
    + RunEntries(MiniFatStart(ss), MiniFatSectors(ss))
    + RunEntries(MiniStreamStart(ss), MiniStreamSectors(ss))
    + FullTable(ss, FullStart(ss))
  }

  function Fat(ss: seq<Stream>): (t: seq<nat>)
    requires NextFree(ss) <= 128
    ensures |t| == 128
  {
    UsedFat(ss) + seq(128 - NextFree(ss), _ => FAT_FREE)
  }

  // --------------------------------------------------------------- directory

  /** The UTF-16LE bytes of a name, without the terminator. */
  function UnitBytes(u: seq<Unit>): (b: bytes)
    ensures |b| == 2 * |u|
  {
    if u == [] then [] else [u[0] % 256, u[0] / 256] + UnitBytes(u[1..])
  }

  predicate NameFits(u: seq<Unit>) {
    2 * |u| + 2 <= 64
  }

  /** A 128-byte directory entry: the fields at their offsets over zeros. */
  function DirEntry(u: seq<Unit>, kind: byte, start: nat, size: nat, right: nat, child: nat): (b: bytes)
    requires NameFits(u)
    ensures |b| == 128
  {
    var e0 := Patch(Zeros(128), 0, UnitBytes(u) + [0, 0]);
    var e1 := Patch(e0, 0x40, Le(2 * |u| + 2, 2));
    var e2 := Patch(Patch(e1, 0x42, [kind]), 0x43, [1]);
    var e3 := Patch(e2, 0x44, Le(FAT_FREE, 4));
    var e4 := Patch(e3, 0x48, Le(right, 4));
    var e5 := Patch(e4, 0x4C, Le(child, 4));
    Patch(Patch(e5, 0x74, Le(start, 4)), 0x78, Le(size, 8))
  }

  function EmptyEntry(): (b: bytes)
    ensures |b| == 128
  {
    Patch(Patch(Patch(Zeros(128), 0x44, Le(FAT_FREE, 4)), 0x48, Le(FAT_FREE, 4)), 0x4C, Le(FAT_FREE, 4))
  }

  /** "Root Entry" */
  const ROOT: Name := [82, 111, 111, 116, 32, 69, 110, 116, 114, 121]

  function IndexOf(ss: seq<Stream>, name: Name): (i: nat)
    requires name in NamesOf(ss)
    ensures i < |ss| && ss[i].name == name
  {
    if ss[0].name == name then 0
    else
      assert name in NamesOf(ss[1..]) by {
        var k :| 0 <= k < |ss| && NamesOf(ss)[k] == name;
        assert NamesOf(ss[1..])[k - 1] == name;
      }
      1 + IndexOf(ss[1..], name)
  }

  /** Where stream i starts: a mini sector or a full sector. */
  function StartOf(ss: seq<Stream>, i: nat): nat
    requires i < |ss|
  {
    if IsMini(ss[i]) then NextMini(ss[..i]) else FullStart(ss) + FullTotal(ss[..i])
  }

  predicate NamesFit(ss: seq<Stream>) {
    forall i :: 0 <= i < |ss| ==> NameFits(Utf16(ss[i].name))
  }

  function Order(upper: Name -> Name, ss: seq<Stream>): (names: seq<Name>)
    ensures |names| == |ss|
    ensures forall n :: n in names <==> n in NamesOf(ss)
  {
    var names := SortNames(upper, NamesOf(ss));
    assert forall n :: n in names <==> n in NamesOf(ss) by {
      forall n ensures n in names <==> n in NamesOf(ss) { MembersOfSort(upper, NamesOf(ss), n); }
    }
    names
  }

  function RootStart(ss: seq<Stream>): nat {
    if MiniStreamSectors(ss) == 0 then FAT_END else MiniStreamStart(ss)
  }

  function RootEntry(ss: seq<Stream>): (b: bytes)
    ensures |b| == 128
  {
    assert |Utf16(ROOT)| <= 2 * |ROOT|;
    DirEntry(Utf16(ROOT), 5, RootStart(ss), 64 * NextMini(ss), FAT_FREE, if ss == [] then FAT_FREE else 1)
  }

  /** The name with directory id `id`, if any, fits its field. */
  predicate EntryFits(upper: Name -> Name, ss: seq<Stream>, id: nat) {
    1 <= id <= |ss| ==> NameFits(Utf16(Order(upper, ss)[id - 1]))
  }

  lemma AllEntriesFit(upper: Name -> Name, ss: seq<Stream>)
    ensures NamesFit(ss) <==> forall id :: 0 <= id ==> EntryFits(upper, ss, id)
  {
    if NamesFit(ss) {
      forall id | 1 <= id <= |ss| ensures EntryFits(upper, ss, id) {
        var i := IndexOf(ss, Order(upper, ss)[id - 1]);
        assert NameFits(Utf16(ss[i].name));
      }
    }
    if forall id :: 0 <= id ==> EntryFits(upper, ss, id) {
      forall i | 0 <= i < |ss| ensures NameFits(Utf16(ss[i].name)) {
        assert NamesOf(ss)[i] == ss[i].name;
        assert ss[i].name in Order(upper, ss);
        var k :| 0 <= k < |ss| && Order(upper, ss)[k] == ss[i].name;
        assert EntryFits(upper, ss, k + 1);
      }
    }
  }

  /** The entry of the k-th name in sorted order; its id is k + 1 and its right
      sibling is the next name's id. */
  function StreamEntry(upper: Name -> Name, ss: seq<Stream>, k: nat): (b: bytes)
    requires k < |ss| && EntryFits(upper, ss, k + 1)
    ensures |b| == 128
  {
    var name := Order(upper, ss)[k];
    var i := IndexOf(ss, name);
    DirEntry(Utf16(name), 2, StartOf(ss, i), |ss[i].data|, if k + 1 < |ss| then k + 2 else FAT_FREE, FAT_FREE)
  }

  function DirBlock(upper: Name -> Name, ss: seq<Stream>, id: nat): (b: bytes)
    requires EntryFits(upper, ss, id)
    ensures |b| == 128
  {
    if id == 0 then RootEntry(ss)
    else if id <= |ss| then StreamEntry(upper, ss, id - 1)
    else EmptyEntry()
  }

  function DirBlocks(upper: Name -> Name, ss: seq<Stream>): (d: seq<bytes>)
    requires NamesFit(ss)
    ensures |d| == 4 * DirSectors(ss)
    ensures forall i :: 0 <= i < |d| ==> EntryFits(upper, ss, i) && d[i] == DirBlock(upper, ss, i)
  {
    AllEntriesFit(upper, ss);
    seq(4 * DirSectors(ss), id requires 0 <= id && EntryFits(upper, ss, id) => DirBlock(upper, ss, id))
  }

  // -------------------------------------------------------------------- file

  function DifatFrom(h: bytes, i: nat): (r: bytes)
    requires |h| == 512 && 1 <= i <= 109
    ensures |r| == 512
    decreases 109 - i
  {
    if i == 109 then h else DifatFrom(Patch(h, 0x4C + 4 * i, Le(FAT_FREE, 4)), i + 1)
  }

  function HeaderPrefix(): (h: bytes)
    ensures |h| == 512
  {
    var h0 := Patch(Zeros(512), 0, SIGNATURE);
    var h1 := Patch(Patch(h0, 0x18, Le(0x3E, 2)), 0x1A, Le(3, 2));
    Patch(Patch(Patch(h1, 0x1C, Le(0xFFFE, 2)), 0x1E, Le(9, 2)), 0x20, Le(6, 2))
  }

  function MiniFatRef(ss: seq<Stream>): nat {
    if MiniFatSectors(ss) == 0 then FAT_END else MiniFatStart(ss)
  }

  /** The header, given where the mini FAT starts and how many sectors it has. */
  function Header(miniFatRef: nat, miniFatCount: nat): (h: bytes)
    ensures |h| == 512
  {
    var h1 := Patch(Patch(HeaderPrefix(), 0x28, Le(0, 4)), 0x2C, Le(1, 4));
    var h2 := Patch(Patch(Patch(h1, 0x30, Le(1, 4)), 0x34, Le(0, 4)), 0x38, Le(CUTOFF, 4));
    var h3 := Patch(Patch(h2, 0x3C, Le(miniFatRef, 4)), 0x40, Le(miniFatCount, 4));
    var h4 := Patch(Patch(Patch(h3, 0x44, Le(FAT_END, 4)), 0x48, Le(0, 4)), 0x4C, Le(0, 4));
    DifatFrom(h4, 1)
  }

  function HeaderFor(ss: seq<Stream>): (h: bytes)
    ensures |h| == 512
  {
    Header(MiniFatRef(ss), MiniFatSectors(ss))
  }

  function MiniFatBlob(ss: seq<Stream>): (b: bytes)
    ensures |b| == 512 * MiniFatSectors(ss)
  {
    if NextMini(ss) == 0 then [] else Pack32(PadTable(MiniTable(ss)))
  }

  function MiniBlob(ss: seq<Stream>): (b: bytes)
    ensures |b| == 512 * MiniStreamSectors(ss)
  {
    Pad(MiniContent(ss), 512 * MiniStreamSectors(ss))
  }

  function DirBlob(upper: Name -> Name, ss: seq<Stream>): (b: bytes)
    requires NamesFit(ss)
    ensures |b| == 512 * DirSectors(ss)
  {
    JoinLength(DirBlocks(upper, ss), 128);
    Join(DirBlocks(upper, ss))
  }

  /** What the script does: a file, the IndexError of a FAT that is too small,
      or the ValueError of a name that is too long. */
  datatype Outcome = Image(file: bytes) | FatOverflow | NameTooLong

  function Build(upper: Name -> Name, ss: seq<Stream>): Outcome {
    if NextFree(ss) > 128 then FatOverflow
    else if !NamesFit(ss) then NameTooLong
    else Image(HeaderFor(ss) + Pack32(Fat(ss)) + DirBlob(upper, ss) + MiniFatBlob(ss) + MiniBlob(ss) + FullContent(ss))
  }
}
