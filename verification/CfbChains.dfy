// Sector chains of the image: every chain that the writer allocates is read
// back as the run of consecutive sectors it was given, and the runs tile the
// allocated sectors.

module CfbChains {
  import opened Bytes
  import opened CfbReader
  import opened CfbNames
  import opened CfbLayout

  function Range(a: nat, n: nat): (r: seq<nat>)
    ensures |r| == n && forall i :: 0 <= i < n ==> r[i] == a + i
  {
    seq(n, i requires 0 <= i => a + i)
  }

  /** Slots a..a+n of the table hold one chain of consecutive sectors. */
  ghost predicate IsRun(t: seq<nat>, a: nat, n: nat) {
    a + n <= |t| < ENDOFCHAIN && t[a..a + n] == RunEntries(a, n)
  }

  lemma {:induction false} ChainFrom(t: seq<nat>, a: nat, n: nat, i: nat, fuel: nat)
    requires IsRun(t, a, n) && i < n && n - i <= fuel
    ensures Chain(t, a + i, fuel) == Some(Range(a + i, n - i))
    decreases n - i
  {
    assert t[a + i] == t[a..a + n][i] == RunEntries(a, n)[i];
    if i == n - 1 {
      assert Chain(t, t[a + i], fuel - 1) == Some([]);
      assert [a + i] + [] == Range(a + i, 1);
    } else {
      ChainFrom(t, a, n, i + 1, fuel - 1);
      assert [a + i] + Range(a + i + 1, n - i - 1) == Range(a + i, n - i);
    }
  }

  /** Section 2.3: a run is followed to its end, in exactly n steps. */
  lemma ChainOfRun(t: seq<nat>, a: nat, n: nat)
    requires IsRun(t, a, n) && n > 0
    ensures Chain(t, a, |t|) == Some(Range(a, n))
  {
    ChainFrom(t, a, n, 0, |t|);
  }

  lemma {:induction false} ReadRange(f: bytes, a: nat, n: nat)
    requires 512 * (a + n + 1) <= |f|
    ensures ReadSectors(f, Range(a, n)) == Some(f[512 * a + 512..512 * (a + n) + 512])
    decreases n
  {
    if n == 0 {
      assert f[512 * a + 512..512 * a + 512] == [];
    } else {
      ReadRange(f, a + 1, n - 1);
      assert Range(a, n)[1..] == Range(a + 1, n - 1);
      assert f[512 * a + 512..512 * a + 1024] + f[512 * (a + 1) + 512..512 * (a + n) + 512]
          == f[512 * a + 512..512 * (a + n) + 512];
    }
  }

  /** The bytes read through a run are one slice of the file. */
  lemma ReadRun(f: bytes, t: seq<nat>, a: nat, n: nat)
    requires IsRun(t, a, n) && n > 0 && 512 * (a + n + 1) <= |f|
    ensures ReadChain(f, t, a) == Some(f[512 * a + 512..512 * (a + n) + 512])
  {
    ChainOfRun(t, a, n);
    ReadRange(f, a, n);
  }

  lemma {:induction false} ReadMiniRange(mini: bytes, a: nat, n: nat)
    requires 64 * (a + n) <= |mini|
    ensures ReadMiniSectors(mini, Range(a, n)) == Some(mini[64 * a..64 * (a + n)])
    decreases n
  {
    if n == 0 {
      assert mini[64 * a..64 * a] == [];
    } else {
      ReadMiniRange(mini, a + 1, n - 1);
      assert Range(a, n)[1..] == Range(a + 1, n - 1);
      assert mini[64 * a..64 * a + 64] + mini[64 * (a + 1)..64 * (a + n)] == mini[64 * a..64 * (a + n)];
    }
  }

  // ------------------------------------------------------- one stream's share

  lemma PrefixSlice<T>(s: seq<T>, t: seq<T>, a: nat, n: nat)
    requires t <= s && a + n <= |t|
    ensures s[a..a + n] == t[a..a + n]
  {
    assert s[a..a + n] == s[..|t|][a..a + n];
  }

  /** x stands in s from place a. */
  predicate At<T(==)>(s: seq<T>, a: nat, x: seq<T>) {
    a + |x| <= |s| && s[a..a + |x|] == x
  }

  lemma AtEnd<T>(whole: seq<T>, init: seq<T>, last: seq<T>)
    requires whole == init + last
    ensures At(whole, |init|, last)
  {
  }

  lemma AtBefore<T>(whole: seq<T>, init: seq<T>, a: nat, x: seq<T>)
    requires init <= whole && At(init, a, x)
    ensures At(whole, a, x)
  {
    PrefixSlice(whole, init, a, |x|);
  }

  lemma InitOf<T>(s: seq<T>, i: nat)
    requires i < |s| - 1
    ensures s[..|s| - 1][..i] == s[..i] && s[..|s| - 1][i] == s[i]
  {
  }

  lemma MiniTableStep(ss: seq<Stream>)
    requires ss != []
    ensures var init, last := ss[..|ss| - 1], ss[|ss| - 1];
            && NextMini(ss) == NextMini(init) + (if IsMini(last) then MiniCount(last.data) else 0)
            && MiniTable(ss) == MiniTable(init) + (if IsMini(last) then RunEntries(NextMini(init), MiniCount(last.data)) else [])
  {
    hide RunEntries;
  }

  lemma {:induction false} MiniTableShare(ss: seq<Stream>, i: nat)
    requires i < |ss| && IsMini(ss[i])
    ensures NextMini(ss[..i]) + MiniCount(ss[i].data) <= NextMini(ss)
    ensures At(MiniTable(ss), NextMini(ss[..i]), RunEntries(NextMini(ss[..i]), MiniCount(ss[i].data)))
  {
    var init, last := ss[..|ss| - 1], ss[|ss| - 1];
    MiniTableStep(ss);
    hide MiniTable, NextMini, IsMini, At, RunEntries, MiniCount;
    if i == |ss| - 1 {
      AtEnd(MiniTable(ss), MiniTable(init), RunEntries(NextMini(init), MiniCount(last.data)));
    } else {
      InitOf(ss, i);
      MiniTableShare(init, i);
      AtBefore(MiniTable(ss), MiniTable(init), NextMini(ss[..i]), RunEntries(NextMini(ss[..i]), MiniCount(ss[i].data)));
    }
  }

  lemma MiniContentStep(ss: seq<Stream>)
    requires ss != []
    ensures var init, last := ss[..|ss| - 1], ss[|ss| - 1];
            && NextMini(ss) == NextMini(init) + (if IsMini(last) then MiniCount(last.data) else 0)
            && MiniContent(ss) == MiniContent(init) + (if IsMini(last) then Pad(last.data, 64 * MiniCount(last.data)) else [])
  {
    hide IsMini;
  }

  lemma {:induction false} MiniContentShare(ss: seq<Stream>, i: nat)
    requires i < |ss| && IsMini(ss[i])
    ensures NextMini(ss[..i]) + MiniCount(ss[i].data) <= NextMini(ss)
    ensures At(MiniContent(ss), 64 * NextMini(ss[..i]), Pad(ss[i].data, 64 * MiniCount(ss[i].data)))
  {
    var init, last := ss[..|ss| - 1], ss[|ss| - 1];
    MiniContentStep(ss);
    hide MiniContent, NextMini, IsMini, At, Pad;
    if i == |ss| - 1 {
      AtEnd(MiniContent(ss), MiniContent(init), Pad(last.data, 64 * MiniCount(last.data)));
    } else {
      InitOf(ss, i);
      MiniContentShare(init, i);
      AtBefore(MiniContent(ss), MiniContent(init), 64 * NextMini(ss[..i]), Pad(ss[i].data, 64 * MiniCount(ss[i].data)));
    }
  }

  lemma FullTableStep(ss: seq<Stream>, base: nat)
    requires ss != []
    ensures var init, last := ss[..|ss| - 1], ss[|ss| - 1];
            && FullTotal(ss) == FullTotal(init) + (if !IsMini(last) then FullCount(last.data) else 0)
            && FullTable(ss, base) == FullTable(init, base) + (if !IsMini(last) then RunEntries(base + FullTotal(init), FullCount(last.data)) else [])
  {
    hide RunEntries;
  }

  lemma FullTableLast(ss: seq<Stream>, base: nat)
    requires ss != [] && !IsMini(ss[|ss| - 1])
    ensures var a := FullTotal(ss[..|ss| - 1]); At(FullTable(ss, base), a, RunEntries(base + a, FullCount(ss[|ss| - 1].data)))
  {
    hide FullTable, FullTotal, RunEntries, FullCount, At, IsMini;
    var init := ss[..|ss| - 1];
    FullTableStep(ss, base);
    EndIsRun(FullTable(ss, base), FullTable(init, base), base + FullTotal(init), FullCount(ss[|ss| - 1].data));
  }

  lemma EndIsRun(whole: seq<nat>, init: seq<nat>, start: nat, n: nat)
    requires whole == init + RunEntries(start, n)
    ensures At(whole, |init|, RunEntries(start, n))
  {
    hide RunEntries;
    AtEnd(whole, init, RunEntries(start, n));
  }

  lemma FullTableEarlier(ss: seq<Stream>, base: nat, a: nat, x: seq<nat>)
    requires ss != [] && At(FullTable(ss[..|ss| - 1], base), a, x)
    ensures At(FullTable(ss, base), a, x)
  {
    FullTableStep(ss, base);
    hide FullTable, FullTotal, RunEntries, FullCount, At;
    AtBefore(FullTable(ss, base), FullTable(ss[..|ss| - 1], base), a, x);
  }

  lemma {:induction false} FullTableShare(ss: seq<Stream>, base: nat, i: nat)
    requires i < |ss| && !IsMini(ss[i])
    ensures var a := FullTotal(ss[..i]); At(FullTable(ss, base), a, RunEntries(base + a, FullCount(ss[i].data)))
  {
    hide FullTable, FullTotal, RunEntries, FullCount, At;
    if i == |ss| - 1 {
      FullTableLast(ss, base);
    } else {
      InitOf(ss, i);
      FullTableShare(ss[..|ss| - 1], base, i);
      var a := FullTotal(ss[..i]);
      FullTableEarlier(ss, base, a, RunEntries(base + a, FullCount(ss[i].data)));
    }
  }

  lemma FullContentStep(ss: seq<Stream>)
    requires ss != []
    ensures var init, last := ss[..|ss| - 1], ss[|ss| - 1];
            && FullTotal(ss) == FullTotal(init) + (if !IsMini(last) then FullCount(last.data) else 0)
            && FullContent(ss) == FullContent(init) + (if !IsMini(last) then Pad(last.data, 512 * FullCount(last.data)) else [])
  {
    hide IsMini;
  }

  lemma {:induction false} FullContentShare(ss: seq<Stream>, i: nat)
    requires i < |ss| && !IsMini(ss[i])
    ensures FullTotal(ss[..i]) + FullCount(ss[i].data) <= FullTotal(ss)
    ensures At(FullContent(ss), 512 * FullTotal(ss[..i]), Pad(ss[i].data, 512 * FullCount(ss[i].data)))
  {
    var init, last := ss[..|ss| - 1], ss[|ss| - 1];
    FullContentStep(ss);
    hide FullContent, FullTotal, IsMini, At, Pad;
    if i == |ss| - 1 {
      AtEnd(FullContent(ss), FullContent(init), Pad(last.data, 512 * FullCount(last.data)));
    } else {
      InitOf(ss, i);
      FullContentShare(init, i);
      AtBefore(FullContent(ss), FullContent(init), 512 * FullTotal(ss[..i]), Pad(ss[i].data, 512 * FullCount(ss[i].data)));
    }
  }

  // ------------------------------------------------------------ runs of the FAT

  lemma DirRun(ss: seq<Stream>)
    requires NextFree(ss) <= 128
    ensures IsRun(Fat(ss), 1, DirSectors(ss))
  {
  }

  lemma MiniFatRun(ss: seq<Stream>)
    requires NextFree(ss) <= 128
    ensures IsRun(Fat(ss), MiniFatStart(ss), MiniFatSectors(ss))
  {
  }

  lemma MiniStreamRun(ss: seq<Stream>)
    requires NextFree(ss) <= 128
    ensures IsRun(Fat(ss), MiniStreamStart(ss), MiniStreamSectors(ss))
  {
  }

  lemma FatTail(ss: seq<Stream>)
    requires NextFree(ss) <= 128
    ensures Fat(ss)[FullStart(ss)..NextFree(ss)] == FullTable(ss, FullStart(ss))
  {
    hide RunEntries, FullTable, DirSectors, MiniFatSectors, MiniStreamSectors, FullTotal;
    assert UsedFat(ss)[FullStart(ss)..] == FullTable(ss, FullStart(ss));
    PrefixSlice(Fat(ss), UsedFat(ss), FullStart(ss), FullTotal(ss));
  }

  /** A run inside a part of the table is a run of the table. */
  lemma RunInside(t: seq<nat>, from: nat, to: nat, a: nat, n: nat)
    requires from <= to <= |t| < ENDOFCHAIN && a + n <= to - from
    requires t[from..to][a..a + n] == RunEntries(from + a, n)
    ensures IsRun(t, from + a, n)
  {
    hide RunEntries;
    SliceOfSlice(t, from, to, a, n);
  }

  lemma FullRun(ss: seq<Stream>, i: nat)
    requires NextFree(ss) <= 128 && i < |ss| && !IsMini(ss[i])
    ensures IsRun(Fat(ss), StartOf(ss, i), FullCount(ss[i].data))
  {
    hide RunEntries, FullTable, FullTotal, FullCount, Fat, FullStart, IsRun;
    FullTableShare(ss, FullStart(ss), i);
    FatTail(ss);
    RunInside(Fat(ss), FullStart(ss), NextFree(ss), FullTotal(ss[..i]), FullCount(ss[i].data));
  }

  lemma SliceOfSlice(t: seq<nat>, from: nat, to: nat, a: nat, n: nat)
    requires from <= to <= |t| && a + n <= to - from
    ensures t[from..to][a..a + n] == t[from + a..from + a + n]
  {
    var l, r := t[from..to][a..a + n], t[from + a..from + a + n];
    assert forall k :: 0 <= k < n ==> l[k] == r[k];
  }

  lemma PadTableLength(n: nat)
    ensures n <= 128 * Max(1, (n + 127) / 128) <= n + 128
  {
  }

  lemma PadTableIsSmall(t: seq<nat>)
    requires |t| <= 0x1_0000
    ensures |PadTable(t)| < ENDOFCHAIN && t <= PadTable(t)
  {
    PadTableLength(|t|);
  }

  lemma AtIsRun(t: seq<nat>, a: nat, n: nat)
    requires |t| < ENDOFCHAIN && At(t, a, RunEntries(a, n))
    ensures IsRun(t, a, n)
  {
    hide RunEntries;
  }

  lemma MiniRun(ss: seq<Stream>, i: nat)
    requires i < |ss| && IsMini(ss[i]) && NextMini(ss) <= 0x1_0000
    ensures IsRun(PadTable(MiniTable(ss)), StartOf(ss, i), MiniCount(ss[i].data))
  {
    hide MiniTable, PadTable, NextMini, MiniCount, RunEntries, At;
    var t, a, n := MiniTable(ss), NextMini(ss[..i]), MiniCount(ss[i].data);
    MiniTableShare(ss, i);
    PadTableIsSmall(t);
    AtBefore(PadTable(t), t, a, RunEntries(a, n));
    AtIsRun(PadTable(t), a, n);
  }

  // ---------------------------------------------------------------- partition

  /** One chain of the image, as the reader follows it. */
  datatype Extent = Extent(start: nat, count: nat)

  function FullExtents(ss: seq<Stream>, base: nat): seq<Extent> {
    if ss == [] then []
    else
      var init, last := ss[..|ss| - 1], ss[|ss| - 1];
      FullExtents(init, base) + if IsMini(last) then [] else [Extent(base + FullTotal(init), FullCount(last.data))]
  }

  /** The FAT sector and the chains, in file order. */
  function Extents(ss: seq<Stream>): seq<Extent> {
    [Extent(0, 1), Extent(1, DirSectors(ss)), Extent(MiniFatStart(ss), MiniFatSectors(ss)),
     Extent(MiniStreamStart(ss), MiniStreamSectors(ss))]
    + FullExtents(ss, FullStart(ss))
  }

  predicate Covers(e: Extent, s: nat) {
    e.start <= s < e.start + e.count
  }

  predicate Owned(es: seq<Extent>, s: nat) {
    exists i :: 0 <= i < |es| && Covers(es[i], s)
  }

  /** Each extent begins where the one before it ends. */
  predicate Tiles(es: seq<Extent>, from: nat, to: nat) {
    if es == [] then from == to
    else es[0].start == from && Tiles(es[1..], from + es[0].count, to)
  }

  lemma {:induction false} TilesAppend(a: seq<Extent>, b: seq<Extent>, x: nat, y: nat, z: nat)
    requires Tiles(a, x, y) && Tiles(b, y, z)
    ensures Tiles(a + b, x, z)
  {
    if a == [] {
      assert a + b == b;
    } else {
      TilesAppend(a[1..], b, x + a[0].count, y, z);
      assert (a + b)[1..] == a[1..] + b;
    }
  }

  lemma {:induction false} FullTiles(ss: seq<Stream>, base: nat)
    ensures Tiles(FullExtents(ss, base), base, base + FullTotal(ss))
  {
    if ss != [] {
      var init, last := ss[..|ss| - 1], ss[|ss| - 1];
      FullTiles(init, base);
      if !IsMini(last) {
        var e := Extent(base + FullTotal(init), FullCount(last.data));
        assert [e][1..] == [];
        assert Tiles([e], base + FullTotal(init), base + FullTotal(ss));
        TilesAppend(FullExtents(init, base), [e], base, base + FullTotal(init), base + FullTotal(ss));
      } else {
        assert FullExtents(ss, base) == FullExtents(init, base);
      }
    }
  }

  ghost predicate IsFullExtent(ss: seq<Stream>, base: nat, e: Extent, i: nat) {
    i < |ss| && !IsMini(ss[i]) && e == Extent(base + FullTotal(ss[..i]), FullCount(ss[i].data))
  }

  lemma {:induction false} FullExtentsOfStreams(ss: seq<Stream>, base: nat, k: nat) returns (i: nat)
    requires k < |FullExtents(ss, base)|
    ensures IsFullExtent(ss, base, FullExtents(ss, base)[k], i)
  {
    var init := ss[..|ss| - 1];
    i := |ss| - 1;
    if k < |FullExtents(init, base)| {
      i := FullExtentsOfStreams(init, base, k);
      assert init[..i] == ss[..i];
    }
  }

  /** A tiling gives every sector of the range to exactly one extent. */
  lemma {:induction false} TilesPartition(es: seq<Extent>, from: nat, to: nat, s: nat)
    requires Tiles(es, from, to)
    ensures from <= to
    ensures forall i :: 0 <= i < |es| ==> from <= es[i].start && es[i].start + es[i].count <= to
    ensures from <= s < to ==> Owned(es, s)
    ensures forall i, j :: 0 <= i < j < |es| ==> es[i].start + es[i].count <= es[j].start
  {
    if es != [] {
      TilesPartition(es[1..], from + es[0].count, to, s);
      if from <= s < from + es[0].count {
        assert Covers(es[0], s);
      }
      if from + es[0].count <= s < to {
        var i :| 0 <= i < |es[1..]| && Covers(es[1..][i], s);
        assert Covers(es[i + 1], s);
      }
      forall i, j | 0 <= i < j < |es| ensures es[i].start + es[i].count <= es[j].start {
        assert es[j] == es[1..][j - 1];
        if i > 0 { assert es[i] == es[1..][i - 1]; }
      }
      forall i | 0 <= i < |es| ensures from <= es[i].start && es[i].start + es[i].count <= to {
        if i > 0 { assert es[i] == es[1..][i - 1]; }
      }
    }
  }

  lemma ExtentsTile(ss: seq<Stream>)
    ensures Tiles(Extents(ss), 0, NextFree(ss))
  {
    FullTiles(ss, FullStart(ss));
    var head := [Extent(0, 1), Extent(1, DirSectors(ss)), Extent(MiniFatStart(ss), MiniFatSectors(ss)),
                 Extent(MiniStreamStart(ss), MiniStreamSectors(ss))];
    assert head[1..][1..][1..][1..] == [];
    assert Tiles(head[1..][1..][1..], MiniStreamStart(ss), FullStart(ss));
    assert Tiles(head[1..][1..], MiniFatStart(ss), FullStart(ss));
    assert Tiles(head[1..], 1, FullStart(ss));
    TilesAppend(head, FullExtents(ss, FullStart(ss)), 0, FullStart(ss), NextFree(ss));
  }

  lemma ExtentIsRun(ss: seq<Stream>, i: nat)
    requires NextFree(ss) <= 128 && 0 < i < |Extents(ss)|
    ensures IsRun(Fat(ss), Extents(ss)[i].start, Extents(ss)[i].count)
  {
    DirRun(ss);
    MiniFatRun(ss);
    MiniStreamRun(ss);
    if i >= 4 {
      var k := FullExtentsOfStreams(ss, FullStart(ss), i - 4);
      FullRun(ss, k);
    }
  }

  /** What a table and a list of extents must satisfy together: the first nextFree
      slots are shared out among the extents without overlap, all others are free, and
      from the fixed-th on each extent is a chain that the reader follows to its end in
      exactly its allotted number of steps. */
  ghost predicate Allocated(t: seq<nat>, es: seq<Extent>, fixed: nat, nextFree: nat) {
    && nextFree <= |t|
    && (forall s :: 0 <= s < |t| ==> (t[s] == FREESECT <==> nextFree <= s))
    && (forall s :: 0 <= s < nextFree ==> Owned(es, s))
    && (forall i, j :: 0 <= i < j < |es| ==> es[i].start + es[i].count <= es[j].start)
    && (forall i :: fixed <= i < |es| && es[i].count > 0 ==>
         Chain(t, es[i].start, |t|) == Some(Range(es[i].start, es[i].count)))
  }

  /** The extents are runs of the table, but for the first ones, which are merely
      used. */
  ghost predicate AllRuns(t: seq<nat>, es: seq<Extent>, fixed: nat) {
    && (forall i :: fixed <= i < |es| ==> IsRun(t, es[i].start, es[i].count))
    && (forall i, s :: 0 <= i < fixed && i < |es| && 0 <= s < |t| && Covers(es[i], s) ==> t[s] != FREESECT)
  }

  lemma UsedSlot(t: seq<nat>, es: seq<Extent>, fixed: nat, nextFree: nat, s: nat)
    requires Tiles(es, 0, nextFree) && s < nextFree <= |t| && AllRuns(t, es, fixed)
    ensures t[s] != FREESECT
    ensures Owned(es, s)
  {
    TilesPartition(es, 0, nextFree, s);
    var i :| 0 <= i < |es| && Covers(es[i], s);
    if i >= fixed {
      hide Tiles, Owned;
      InRun(t, es[i].start, es[i].count, s);
    }
  }

  lemma InRun(t: seq<nat>, a: nat, n: nat, s: nat)
    requires IsRun(t, a, n) && a <= s < a + n
    ensures s < |t| && t[s] != FREESECT
  {
    assert t[s] == t[a..a + n][s - a] == RunEntries(a, n)[s - a];
  }

  lemma TiledRunsAreAllocated(t: seq<nat>, es: seq<Extent>, fixed: nat, nextFree: nat)
    requires Tiles(es, 0, nextFree) && nextFree <= |t| && AllRuns(t, es, fixed)
    requires forall s :: nextFree <= s < |t| ==> t[s] == FREESECT
    ensures Allocated(t, es, fixed, nextFree)
  {
    TilesPartition(es, 0, nextFree, 0);
    forall s | 0 <= s < nextFree
      ensures t[s] != FREESECT && Owned(es, s)
    {
      UsedSlot(t, es, fixed, nextFree, s);
    }
    forall i | fixed <= i < |es| && es[i].count > 0
      ensures Chain(t, es[i].start, |t|) == Some(Range(es[i].start, es[i].count))
    {
      ChainOfRun(t, es[i].start, es[i].count);
    }
  }

  /** Allocation: sectors 0..NextFree-1 are shared out among the FAT sector and
      the chains; the FAT sector marks itself; every other slot is free. */
  lemma Allocation(ss: seq<Stream>)
    requires NextFree(ss) <= 128
    ensures |Fat(ss)| == 128 && Extents(ss)[0] == Extent(0, 1) && Fat(ss)[0] == FATSECT
    ensures Allocated(Fat(ss), Extents(ss), 1, NextFree(ss))
  {
    ExtentsTile(ss);
    forall i | 0 < i < |Extents(ss)| ensures IsRun(Fat(ss), Extents(ss)[i].start, Extents(ss)[i].count) {
      ExtentIsRun(ss, i);
    }
    TiledRunsAreAllocated(Fat(ss), Extents(ss), 1, NextFree(ss));
  }

  // ----------------------------------------------------- the mini FAT's chains

  /** The mini chains, in the order of the small streams. */
  function MiniExtents(ss: seq<Stream>): seq<Extent> {
    if ss == [] then []
    else
      var init, last := ss[..|ss| - 1], ss[|ss| - 1];
      MiniExtents(init) + if IsMini(last) then [Extent(NextMini(init), MiniCount(last.data))] else []
  }

  ghost predicate IsMiniExtent(ss: seq<Stream>, e: Extent, i: nat) {
    i < |ss| && IsMini(ss[i]) && e == Extent(NextMini(ss[..i]), MiniCount(ss[i].data))
  }

  lemma {:induction false} MiniTiles(ss: seq<Stream>)
    ensures Tiles(MiniExtents(ss), 0, NextMini(ss))
  {
    if ss != [] {
      var init, last := ss[..|ss| - 1], ss[|ss| - 1];
      MiniTiles(init);
      if IsMini(last) {
        var e := Extent(NextMini(init), MiniCount(last.data));
        assert [e][1..] == [];
        assert Tiles([e], NextMini(init), NextMini(ss));
        TilesAppend(MiniExtents(init), [e], 0, NextMini(init), NextMini(ss));
      } else {
        assert MiniExtents(ss) == MiniExtents(init);
      }
    }
  }

  lemma {:induction false} MiniExtentsOfStreams(ss: seq<Stream>, k: nat) returns (i: nat)
    requires k < |MiniExtents(ss)|
    ensures IsMiniExtent(ss, MiniExtents(ss)[k], i)
  {
    var init := ss[..|ss| - 1];
    i := |ss| - 1;
    if k < |MiniExtents(init)| {
      i := MiniExtentsOfStreams(init, k);
      assert init[..i] == ss[..i];
    }
  }

  /** The same of the mini FAT: its slots 0..NextMini-1 are shared out among the chains
      of the small streams, and the others, up to a multiple of 128, are free. */
  lemma MiniAllocation(ss: seq<Stream>)
    requires NextFree(ss) <= 128
    ensures |PadTable(MiniTable(ss))| % 128 == 0
    ensures Allocated(PadTable(MiniTable(ss)), MiniExtents(ss), 0, NextMini(ss))
  {
    assert MiniStreamSectors(ss) <= 128;
    var t, es := PadTable(MiniTable(ss)), MiniExtents(ss);
    MiniTiles(ss);
    PadTableTail(MiniTable(ss));
    hide PadTable, MiniTable, MiniExtents, NextMini, MiniCount, IsRun;
    MiniAllRuns(ss);
    TiledRunsAreAllocated(t, es, 0, NextMini(ss));
  }

  lemma PadTableTail(t: seq<nat>)
    ensures forall s :: |t| <= s < |PadTable(t)| ==> PadTable(t)[s] == FREESECT
    ensures |t| <= |PadTable(t)| && |PadTable(t)| % 128 == 0
  {
    PadTableLength(|t|);
  }

  lemma MiniAllRuns(ss: seq<Stream>)
    requires NextMini(ss) <= 0x1_0000
    ensures AllRuns(PadTable(MiniTable(ss)), MiniExtents(ss), 0)
  {
    hide PadTable, MiniTable, MiniExtents, NextMini, MiniCount, IsRun;
    forall k | 0 <= k < |MiniExtents(ss)|
      ensures IsRun(PadTable(MiniTable(ss)), MiniExtents(ss)[k].start, MiniExtents(ss)[k].count)
    {
      var i := MiniExtentsOfStreams(ss, k);
      MiniRun(ss, i);
    }
  }
}
