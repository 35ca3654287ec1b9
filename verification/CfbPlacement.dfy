// Where the image keeps each stream, in the standard's own numbers: below 4096
// bytes in the mini stream, otherwise in sectors, and never more of either than
// the bytes need.

module CfbPlacement {
  import opened Bytes
  import opened CfbReader
  import opened CfbNames
  import opened CfbLayout
  import opened CfbChains
  import opened CfbDirectory
  import opened CfbRoundTrip

  // ----------------------------------------------------------------- placement

  lemma SmallIsPlaced(ss: seq<Stream>, i: nat)
    requires NextFree(ss) <= 128 && i < |ss| && |ss[i].data| < 4096
    ensures NextMini(ss) > 0
    ensures Chain(MiniFatOf(ss), StartOf(ss, i), |MiniFatOf(ss)|) == Some(Range(StartOf(ss, i), MiniCount(ss[i].data)))
    ensures StartOf(ss, i) + MiniCount(ss[i].data) <= NextMini(ss)
  {
    MiniBound(ss);
    MiniTableShare(ss, i);
    MiniRun(ss, i);
    hide NextMini, MiniTable, PadTable, IsRun, RunEntries;
    ChainOfRun(PadTable(MiniTable(ss)), StartOf(ss, i), MiniCount(ss[i].data));
  }

  lemma LargeIsPlaced(ss: seq<Stream>, i: nat)
    requires NextFree(ss) <= 128 && i < |ss| && |ss[i].data| >= 4096
    ensures Chain(Fat(ss), StartOf(ss, i), |Fat(ss)|) == Some(Range(StartOf(ss, i), FullCount(ss[i].data)))
    ensures StartOf(ss, i) >= FullStart(ss)
  {
    FullRun(ss, i);
    hide Fat, IsRun, RunEntries;
    ChainOfRun(Fat(ss), StartOf(ss, i), FullCount(ss[i].data));
  }

  /** In every image: the entry of a stream begins a chain of the mini FAT, inside the
      mini stream, when the stream has fewer than 4096 bytes, and otherwise a chain of
      the FAT, beyond the directory, the mini FAT and the mini stream. */
  lemma PlacedByLength(upper: Name -> Name, ss: seq<Stream>, k: nat)
    requires Build(upper, ss).Image? && k < |ss|
    ensures NextFree(ss) <= 128 && Open(Build(upper, ss).file).Some?
    ensures var v := Open(Build(upper, ss).file).value;
            var name := Order(upper, ss)[k];
            var d := ss[IndexOf(ss, name)].data;
            && k + 1 < |v.entries| && v.entries[k + 1].name == Utf16(name) && v.entries[k + 1].size == |d|
            && var start := v.entries[k + 1].start;
               if |d| < 4096 then
                 Chain(v.miniFat, start, |v.miniFat|) == Some(Range(start, MiniCount(d))) && 64 * (start + MiniCount(d)) <= |v.mini|
               else
                 Chain(v.fat, start, |v.fat|) == Some(Range(start, FullCount(d))) && start >= FullStart(ss)
  {
    Opens(upper, ss);
    var i := IndexOf(ss, Order(upper, ss)[k]);
    hide Open, Build, Order, Fat, MiniFatOf, MiniContent, StartOf, NextMini, FullStart, FullCount, MiniCount;
    assert EntriesOf(upper, ss)[k + 1] == EntryOf(upper, ss, k + 1);
    if |ss[i].data| < 4096 {
      SmallIsPlaced(ss, i);
    } else {
      LargeIsPlaced(ss, i);
    }
  }

  // ------------------------------------------------------------ least numbers

  /** A chain has as many sectors as the bytes need, and at least one. */
  lemma ChainsAreLeast(d: bytes, n: nat)
    requires n >= 1
    ensures |d| <= 64 * n <==> MiniCount(d) <= n
    ensures |d| <= 512 * n <==> FullCount(d) <= n
  {
  }

  /** So have the directory, four entries a sector; the mini FAT, 128 entries a
      sector; and the mini stream, eight mini sectors a sector. */
  lemma PartsAreLeast(ss: seq<Stream>, n: nat)
    ensures 1 + |ss| <= 4 * n <==> DirSectors(ss) <= n
    ensures NextMini(ss) <= 128 * n <==> MiniFatSectors(ss) <= n
    ensures NextMini(ss) <= 8 * n <==> MiniStreamSectors(ss) <= n
  {
    hide NextMini;
  }

  /** The image: the header, the FAT sector and these parts, in this order. */
  lemma ImageIsItsParts(upper: Name -> Name, ss: seq<Stream>)
    requires Build(upper, ss).Image?
    ensures |Build(upper, ss).file| ==
            512 * (2 + DirSectors(ss) + MiniFatSectors(ss) + MiniStreamSectors(ss) + FullTotal(ss))
  {
    Opens(upper, ss);
  }

  /** The names that a reader decodes, and the bytes under them: those of the dict. */
  lemma NamesDecode(upper: Name -> Name, ss: seq<Stream>, k: nat)
    requires Build(upper, ss).Image? && k < |ss|
    ensures Extract(Build(upper, ss).file).Some? && |Extract(Build(upper, ss).file).value| == |ss|
    ensures var file := Extract(Build(upper, ss).file).value[k];
            exists i :: 0 <= i < |ss| && FromUtf16(file.name) == Some(ss[i].name) && file.data == ss[i].data
  {
    RoundTrip(upper, ss);
    hide Build, Extract;
    var name := Order(upper, ss)[k];
    assert Files(upper, ss)[k] == FileAt(upper, ss, k);
    Utf16Decodes(name);
    var i := IndexOf(ss, name);
    assert FromUtf16(FileAt(upper, ss, k).name) == Some(ss[i].name);
  }
}
