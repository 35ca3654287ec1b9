// _build_cfb (scripts/gen-fixtures.py) step by step: byte arrays written in
// place, lists that grow, a FAT filled by chains, sectors assigned by number.
// Each method is proved against the layout functions, so the image it returns
// is the one the round-trip theorems speak about.

module CfbWriter {
  import opened Bytes
  import opened CfbReader
  import opened CfbNames
  import opened CfbLayout
  import opened CfbChains
  import opened CfbRoundTrip

  // ------------------------------------------------------------ byte buffers

  method WriteBytes(a: array<byte>, off: nat, b: bytes)
    requires off + |b| <= a.Length
    modifies a
    ensures a[..] == Patch(old(a[..]), off, b)
  {
    for i := 0 to |b|
      invariant forall k :: 0 <= k < a.Length && !(off <= k < off + i) ==> a[k] == old(a[k])
      invariant forall k :: off <= k < off + i ==> a[k] == b[k - off]
    {
      a[off + i] := b[i];
    }
  }

  /** struct.pack_into: the number must fit the field. */
  method PackInto(a: array<byte>, off: nat, v: nat, n: nat)
    requires off + n <= a.Length && v < Pow256(n)
    modifies a
    ensures a[..] == Patch(old(a[..]), off, Le(v, n))
  {
    WriteBytes(a, off, Le(v, n));
  }

  method StartHeader() returns (h: array<byte>)
    ensures fresh(h) && h[..] == HeaderPrefix()
  {
    hide Patch;
    Pow256Values();
    h := new byte[512](_ => 0);
    assert h[..] == Zeros(512);
    WriteBytes(h, 0, SIGNATURE);
    PackInto(h, 0x18, 0x3E, 2);
    PackInto(h, 0x1A, 3, 2);
    PackInto(h, 0x1C, 0xFFFE, 2);
    PackInto(h, 0x1E, 9, 2);
    PackInto(h, 0x20, 6, 2);
  }

  method FinishHeader(h: array<byte>, miniFatRef: nat, miniFatCount: nat)
    requires h[..] == HeaderPrefix()
    requires miniFatRef < 0x1_0000_0000 && miniFatCount < 0x1_0000_0000
    modifies h
    ensures h[..] == Header(miniFatRef, miniFatCount)
  {
    hide Patch, Le, HeaderPrefix, Pow256;
    Pow256Values();
    PackInto(h, 0x28, 0, 4);
    PackInto(h, 0x2C, 1, 4);
    PackInto(h, 0x30, 1, 4);
    PackInto(h, 0x34, 0, 4);
    PackInto(h, 0x38, CUTOFF, 4);
    PackInto(h, 0x3C, miniFatRef, 4);
    PackInto(h, 0x40, miniFatCount, 4);
    PackInto(h, 0x44, FAT_END, 4);
    PackInto(h, 0x48, 0, 4);
    PackInto(h, 0x4C, 0, 4);
    ghost var h4 := h[..];
    assert DifatFrom(h4, 1) == Header(miniFatRef, miniFatCount);
    for i := 1 to 109
      invariant |h[..]| == 512 && DifatFrom(h[..], i) == DifatFrom(h4, 1)
    {
      PackInto(h, 0x4C + i * 4, FAT_FREE, 4);
    }
  }

  // --------------------------------------------------------------- directory

  /** dir_entry: the sibling links are left free; None is its ValueError. */
  method MakeEntry(name: Name, kind: byte, start: nat, size: nat, child: nat) returns (r: Option<array<byte>>)
    requires start < 0x1_0000_0000 && child < 0x1_0000_0000 && size < 0x1_0000_0000_0000_0000
    ensures r.Some? <==> NameFits(Utf16(name))
    ensures r.Some? ==> fresh(r.value) && r.value[..] == DirEntry(Utf16(name), kind, start, size, FAT_FREE, child)
  {
    hide Patch, Le, Pow256;
    Pow256Values();
    var e := new byte[128](_ => 0);
    assert e[..] == Zeros(128);
    var nb := UnitBytes(Utf16(name)) + [0, 0];
    if |nb| > 64 {
      return None;
    }
    WriteBytes(e, 0, nb);
    PackInto(e, 0x40, |nb|, 2);
    WriteBytes(e, 0x42, [kind]);
    WriteBytes(e, 0x43, [1]);
    PackInto(e, 0x44, FAT_FREE, 4);
    PackInto(e, 0x48, FAT_FREE, 4);
    PackInto(e, 0x4C, child, 4);
    PackInto(e, 0x74, start, 4);
    PackInto(e, 0x78, size, 8);
    r := Some(e);
  }

  lemma PatchCommutes(s: bytes, a: nat, x: bytes, b: nat, y: bytes)
    requires a + |x| <= b && b + |y| <= |s|
    ensures Patch(Patch(s, a, x), b, y) == Patch(Patch(s, b, y), a, x)
  {
    var l, r := Patch(Patch(s, a, x), b, y), Patch(Patch(s, b, y), a, x);
    assert l == s[..a] + x + s[a + |x|..b] + y + s[b + |y|..];
    assert r == s[..a] + x + s[a + |x|..b] + y + s[b + |y|..];
  }

  lemma PatchTwice(s: bytes, a: nat, x: bytes, y: bytes)
    requires a + |x| <= |s| && |x| == |y|
    ensures Patch(Patch(s, a, x), a, y) == Patch(s, a, y)
  {
  }

  /** Writing the right sibling last is the same as writing it in its place. */
  lemma SetRight(u: seq<Unit>, kind: byte, start: nat, size: nat, right: nat, child: nat)
    requires NameFits(u)
    ensures Patch(DirEntry(u, kind, start, size, FAT_FREE, child), 0x48, Le(right, 4)) == DirEntry(u, kind, start, size, right, child)
  {
    hide Patch, Le;
    var e1 := Patch(Patch(Zeros(128), 0, UnitBytes(u) + [0, 0]), 0x40, Le(2 * |u| + 2, 2));
    var e3 := Patch(Patch(Patch(e1, 0x42, [kind]), 0x43, [1]), 0x44, Le(FAT_FREE, 4));
    var e4 := Patch(e3, 0x48, Le(FAT_FREE, 4));
    var e5 := Patch(e4, 0x4C, Le(child, 4));
    var e6 := Patch(e5, 0x74, Le(start, 4));
    PatchCommutes(e6, 0x48, Le(right, 4), 0x78, Le(size, 8));
    PatchCommutes(e5, 0x48, Le(right, 4), 0x74, Le(start, 4));
    PatchCommutes(e4, 0x48, Le(right, 4), 0x4C, Le(child, 4));
    PatchTwice(e3, 0x48, Le(FAT_FREE, 4), Le(right, 4));
  }

  // ------------------------------------------------------------- mini stream

  /** name belongs to one of the first n streams that is mini. */
  ghost predicate MiniName(ss: seq<Stream>, n: nat, name: Name)
    requires n <= |ss|
  {
    exists i :: 0 <= i < n && IsMini(ss[i]) && ss[i].name == name
  }

  /** starts records where each mini stream among the first n begins. */
  ghost predicate RecordsMini(starts: map<Name, nat>, ss: seq<Stream>, n: nat)
    requires n <= |ss|
  {
    && (forall i :: 0 <= i < n && IsMini(ss[i]) ==> ss[i].name in starts && starts[ss[i].name] == NextMini(ss[..i]))
    && (forall name :: name in starts ==> MiniName(ss, n, name))
  }

  /** Likewise for the full streams. */
  ghost predicate RecordsFull(starts: map<Name, nat>, ss: seq<Stream>, n: nat, base: nat)
    requires n <= |ss|
  {
    forall i :: 0 <= i < n && !IsMini(ss[i]) ==> ss[i].name in starts && starts[ss[i].name] == base + FullTotal(ss[..i])
  }

  lemma DictPrefix(ss: seq<Stream>, i: nat, j: nat)
    requires IsDict(ss) && i < |ss| && j < |ss|
    ensures ss[i].name == ss[j].name ==> i == j
  {
    assert NamesOf(ss)[i] == ss[i].name && NamesOf(ss)[j] == ss[j].name;
  }

  lemma RecordMini(starts: map<Name, nat>, ss: seq<Stream>, i: nat)
    requires IsDict(ss) && i < |ss| && RecordsMini(starts, ss, i)
    ensures RecordsMini(if IsMini(ss[i]) then starts[ss[i].name := NextMini(ss[..i])] else starts, ss, i + 1)
  {
    hide NextMini, IsDict, IsMini;
    var starts' := if IsMini(ss[i]) then starts[ss[i].name := NextMini(ss[..i])] else starts;
    forall j | 0 <= j < i + 1 && IsMini(ss[j]) ensures ss[j].name in starts' && starts'[ss[j].name] == NextMini(ss[..j]) {
      DictPrefix(ss, i, j);
    }
    forall name | name in starts' ensures MiniName(ss, i + 1, name) {
      if name in starts {
        var j :| 0 <= j < i && IsMini(ss[j]) && ss[j].name == name;
      }
    }
  }

  lemma RecordFull(starts: map<Name, nat>, ss: seq<Stream>, i: nat, base: nat)
    requires IsDict(ss) && i < |ss| && RecordsFull(starts, ss, i, base)
    ensures RecordsFull(if IsMini(ss[i]) then starts else starts[ss[i].name := base + FullTotal(ss[..i])], ss, i + 1, base)
  {
    forall j | 0 <= j < i ensures ss[j].name != ss[i].name {
      DictPrefix(ss, i, j);
    }
  }

  method AppendMiniChain(table0: seq<nat>, next: nat, n: nat) returns (table: seq<nat>)
    ensures table == table0 + RunEntries(next, n)
  {
    table := table0;
    for k := 0 to n
      invariant table == table0 + RunEntries(next, n)[..k]
    {
      table := table + [if k == n - 1 then FAT_END else next + k + 1];
    }
  }

  lemma MiniOneMore(ss: seq<Stream>, i: nat)
    requires i < |ss|
    ensures var front, more, n := ss[..i], ss[..i + 1], MiniCount(ss[i].data);
            if IsMini(ss[i]) then
              && NextMini(more) == NextMini(front) + n
              && MiniContent(more) == MiniContent(front) + Pad(ss[i].data, 64 * n)
              && MiniTable(more) == MiniTable(front) + RunEntries(NextMini(front), n)
            else NextMini(more) == NextMini(front) && MiniContent(more) == MiniContent(front) && MiniTable(more) == MiniTable(front)
  {
    hide RunEntries, Pad, MiniCount;
    assert ss[..i + 1][..i] == ss[..i];
  }

  method PackMini(ss: seq<Stream>) returns (content: bytes, table: seq<nat>, starts: map<Name, nat>, next: nat)
    requires IsDict(ss)
    ensures content == MiniContent(ss) && table == MiniTable(ss) && next == NextMini(ss)
    ensures RecordsMini(starts, ss, |ss|)
  {
    hide RecordsMini, RunEntries, IsDict, MiniContent, MiniTable, NextMini;
    content, table, starts, next := [], [], map[], 0;
    NothingRecorded(ss);
    NothingPacked();
    assert ss[..0] == [];
    for i := 0 to |ss|
      invariant content == MiniContent(ss[..i]) && table == MiniTable(ss[..i]) && next == NextMini(ss[..i])
      invariant RecordsMini(starts, ss, i)
    {
      MiniOneMore(ss, i);
      RecordMini(starts, ss, i);
      var name, data := ss[i].name, ss[i].data;
      if |data| < CUTOFF {
        var n := Max(1, (|data| + 63) / 64);
        starts := starts[name := next];
        content := content + (data + Zeros(n * 64 - |data|));
        table := AppendMiniChain(table, next, n);
        next := next + n;
      }
    }
    assert ss[..|ss|] == ss;
  }

  lemma NothingPacked()
    ensures MiniContent([]) == [] && MiniTable([]) == [] && NextMini([]) == 0
  {
  }

  lemma NothingRecorded(ss: seq<Stream>)
    ensures RecordsMini(map[], ss, 0)
  {
  }

  /** The padding loop of the mini FAT. */
  method PadMiniFat(t: seq<nat>) returns (r: seq<nat>)
    ensures r == PadTable(t)
  {
    r := t;
    ghost var size := 128 * Max(1, (|t| + 127) / 128);
    while |r| % 128 != 0 || |r| == 0
      invariant |t| <= |r| <= size && r == t + seq(|r| - |t|, _ => FAT_FREE)
      decreases size - |r|
    {
      r := r + [FAT_FREE];
    }
    assert |r| == size;
  }

  // ------------------------------------------------------------ full streams

  /** The chains of the full streams in dict order. */
  function FullChains(ss: seq<Stream>, base: nat): seq<seq<nat>> {
    if ss == [] then []
    else
      var init, last := ss[..|ss| - 1], ss[|ss| - 1];
      FullChains(init, base) + if IsMini(last) then [] else [Range(base + FullTotal(init), FullCount(last.data))]
  }

  /** Sector k of the full region, as the dict of payloads holds it. */
  ghost predicate Payloads(sectors: seq<(nat, bytes)>, base: nat, blob: bytes) {
    && |blob| == 512 * |sectors|
    && (forall k :: 0 <= k < |sectors| ==> sectors[k].0 == base + k && sectors[k].1 == blob[512 * k..512 * k + 512])
  }

  lemma PayloadsAppend(a: seq<(nat, bytes)>, x: (nat, bytes), base: nat, blob: bytes)
    requires Payloads(a, base, blob) && x.0 == base + |a| && |x.1| == 512
    ensures Payloads(a + [x], base, blob + x.1)
  {
    var b := blob + x.1;
    forall k | 0 <= k < |a| + 1 ensures (a + [x])[k].0 == base + k && (a + [x])[k].1 == b[512 * k..512 * k + 512] {
      if k < |a| {
        assert b[512 * k..512 * k + 512] == blob[512 * k..512 * k + 512];
      }
    }
  }

  /** Sector i of a stream: its slice, padded with zeros. */
  method SectorChunk(data: bytes, i: nat) returns (chunk: bytes)
    requires 512 * i < |data|
    ensures |chunk| == 512
    ensures chunk == Pad(data, 512 * FullCount(data))[512 * i..512 * i + 512]
  {
    var end := if (i + 1) * 512 <= |data| then (i + 1) * 512 else |data|;
    chunk := data[i * 512..end];
    chunk := chunk + Zeros(512 - |chunk|);
  }

  /** One stream's sectors, added to the dict of payloads. */
  method AddPayloads(sectors0: seq<(nat, bytes)>, chain: seq<nat>, data: bytes, ghost base0: nat, ghost blob: bytes)
    returns (sectors: seq<(nat, bytes)>)
    requires Payloads(sectors0, base0, blob) && |data| > 0
    requires chain == Range(base0 + |sectors0|, FullCount(data))
    ensures Payloads(sectors, base0, blob + Pad(data, 512 * FullCount(data)))
  {
    hide Payloads, Pad;
    sectors := sectors0;
    ghost var padded := Pad(data, 512 * FullCount(data));
    assert blob + padded[..0] == blob;
    for k := 0 to |chain|
      invariant |sectors| == |sectors0| + k
      invariant Payloads(sectors, base0, blob + padded[..512 * k])
    {
      var chunk := SectorChunk(data, k);
      PayloadsAppend(sectors, (chain[k], chunk), base0, blob + padded[..512 * k]);
      assert blob + padded[..512 * k] + chunk == blob + padded[..512 * (k + 1)];
      sectors := sectors + [(chain[k], chunk)];
    }
    assert padded[..512 * |chain|] == padded;
  }

  lemma PayloadCount(sectors: seq<(nat, bytes)>, base: nat, ss: seq<Stream>)
    requires Payloads(sectors, base, FullContent(ss))
    ensures |sectors| == FullTotal(ss)
  {
  }

  lemma FullStep(ss: seq<Stream>, i: nat, base: nat)
    requires i < |ss|
    ensures IsMini(ss[i]) ==>
              && FullTotal(ss[..i + 1]) == FullTotal(ss[..i]) && FullChains(ss[..i + 1], base) == FullChains(ss[..i], base)
              && FullContent(ss[..i + 1]) == FullContent(ss[..i])
    ensures !IsMini(ss[i]) ==>
              && FullTotal(ss[..i + 1]) == FullTotal(ss[..i]) + FullCount(ss[i].data)
              && FullChains(ss[..i + 1], base) == FullChains(ss[..i], base) + [Range(base + FullTotal(ss[..i]), FullCount(ss[i].data))]
              && FullContent(ss[..i + 1]) == FullContent(ss[..i]) + Pad(ss[i].data, 512 * FullCount(ss[i].data))
  {
    hide Pad;
    assert ss[..i + 1][..i] == ss[..i];
  }

  method AllocateFull(ss: seq<Stream>, base0: nat)
    returns (starts: map<Name, nat>, chains: seq<seq<nat>>, sectors: seq<(nat, bytes)>, base: nat)
    requires IsDict(ss)
    ensures base == base0 + FullTotal(ss) && chains == FullChains(ss, base0)
    ensures RecordsFull(starts, ss, |ss|, base0)
    ensures Payloads(sectors, base0, FullContent(ss))
  {
    starts, chains, sectors, base := map[], [], [], base0;
    NoneFull(ss, base0);
    hide RecordsFull, IsDict, Payloads, FullTotal, FullChains, FullContent, Pad, NamesOf;
    for i := 0 to |ss|
      invariant base == base0 + FullTotal(ss[..i]) && chains == FullChains(ss[..i], base0)
      invariant RecordsFull(starts, ss, i, base0)
      invariant Payloads(sectors, base0, FullContent(ss[..i]))
    {
      FullStep(ss, i, base0);
      RecordFull(starts, ss, i, base0);
      PayloadCount(sectors, base0, ss[..i]);
      var name, data := ss[i].name, ss[i].data;
      if |data| >= CUTOFF {
        var n := Max(1, (|data| + 511) / 512);
        var chain := Range(base, n);
        base := base + n;
        starts := starts[name := chain[0]];
        chains := chains + [chain];
        sectors := AddPayloads(sectors, chain, data, base0, FullContent(ss[..i]));
      }
    }
    assert ss[..|ss|] == ss;
  }

  lemma NoneFull(ss: seq<Stream>, base: nat)
    ensures RecordsFull(map[], ss, 0, base) && Payloads([], base, FullContent(ss[..0]))
    ensures FullTotal(ss[..0]) == 0 && FullChains(ss[..0], base) == []
  {
  }

  // --------------------------------------------------------------------- FAT

  /** A FAT whose first |used| slots are set and whose others are free. */
  function FatWith(used: seq<nat>): (t: seq<nat>)
    requires |used| <= 128
    ensures |t| == 128
  {
    used + seq(128 - |used|, _ => FAT_FREE)
  }

  /** Links one chain into the FAT; false is the IndexError of a sector number
      beyond the FAT. */
  method WriteChain(fat: array<nat>, chain: seq<nat>, ghost used: seq<nat>) returns (ok: bool)
    requires |used| <= 128 && fat[..] == FatWith(used) && chain == Range(|used|, |chain|)
    modifies fat
    ensures ok <==> |used| + |chain| <= 128
    ensures ok ==> fat[..] == FatWith(used + RunEntries(|used|, |chain|))
  {
    ghost var run := RunEntries(|used|, |chain|);
    assert used + run[..0] == used;
    for i := 0 to |chain|
      invariant |used| + i <= 128 && fat[..] == FatWith(used + run[..i])
    {
      var s := chain[i];
      if s >= fat.Length {
        return false;
      }
      fat[s] := if i == |chain| - 1 then FAT_END else chain[i + 1];
      assert run[..i + 1] == run[..i] + [run[i]];
    }
    assert run[..|chain|] == run;
    ok := true;
  }

  /** The entries of the first chains, one chain after another. */
  function ChainEntries(chains: seq<seq<nat>>): seq<nat> {
    if chains == [] then []
    else
      var last := chains[|chains| - 1];
      ChainEntries(chains[..|chains| - 1]) + RunEntries(if last == [] then 0 else last[0], |last|)
  }

  /** Each chain starts where the entries before it end. */
  ghost predicate Consecutive(chains: seq<seq<nat>>, base: nat) {
    forall c :: 0 <= c < |chains| ==> Follows(chains[..c], chains[c], base)
  }

  ghost predicate Follows(before: seq<seq<nat>>, chain: seq<nat>, base: nat) {
    chain != [] && chain == Range(base + |ChainEntries(before)|, |chain|)
  }

  lemma AppendConsecutive(before: seq<seq<nat>>, chain: seq<nat>, base: nat)
    requires Consecutive(before, base) && Follows(before, chain, base)
    ensures Consecutive(before + [chain], base)
  {
    hide Follows;
    var all := before + [chain];
    assert all[..|before|] == before;
    forall c | 0 <= c < |all| ensures Follows(all[..c], all[c], base) {
      if c < |before| {
        assert all[..c] == before[..c];
      }
    }
  }

  lemma EntriesOfAppend(before: seq<seq<nat>>, chain: seq<nat>)
    requires chain != []
    ensures ChainEntries(before + [chain]) == ChainEntries(before) + RunEntries(chain[0], |chain|)
  {
    var all := before + [chain];
    assert all[..|all| - 1] == before;
  }

  lemma FullTableStep(ss: seq<Stream>, base: nat)
    requires ss != []
    ensures var init, last := ss[..|ss| - 1], ss[|ss| - 1];
            FullTable(ss, base) == FullTable(init, base) +
            if IsMini(last) then [] else RunEntries(base + FullTotal(init), FullCount(last.data))
  {
  }

  lemma {:induction false} ChainsOfFull(ss: seq<Stream>, base: nat)
    ensures ChainEntries(FullChains(ss, base)) == FullTable(ss, base)
    ensures Consecutive(FullChains(ss, base), base)
  {
    if ss != [] {
      var n := |ss| - 1;
      ChainsOfFull(ss[..n], base);
      ChainsExtend(ss, n, base);
    }
  }

  lemma ChainsExtend(ss: seq<Stream>, n: nat, base: nat)
    requires |ss| == n + 1
    requires ChainEntries(FullChains(ss[..n], base)) == FullTable(ss[..n], base)
    requires Consecutive(FullChains(ss[..n], base), base)
    ensures ChainEntries(FullChains(ss, base)) == FullTable(ss, base)
    ensures Consecutive(FullChains(ss, base), base)
  {
    hide FullChains, FullTable, FullTotal, FullContent, ChainEntries, Consecutive, RunEntries;
    FullStep(ss, n, base);
    FullTableStep(ss, base);
    assert ss[..n + 1] == ss;
    if !IsMini(ss[n]) {
      var before, chain := FullChains(ss[..n], base), Range(base + FullTotal(ss[..n]), FullCount(ss[n].data));
      AppendConsecutive(before, chain, base);
      EntriesOfAppend(before, chain);
    }
  }

  lemma {:induction false} ChainEntriesGrow(chains: seq<seq<nat>>, c: nat)
    requires c <= |chains|
    ensures |ChainEntries(chains[..c])| <= |ChainEntries(chains)|
    decreases |chains| - c
  {
    if c == |chains| {
      assert chains[..c] == chains;
    } else {
      assert chains[..c + 1][..c] == chains[..c];
      ChainEntriesGrow(chains, c + 1);
    }
  }

  /** Every FullChains chain in turn. */
  method WriteChains(fat: array<nat>, chains: seq<seq<nat>>, ghost used: seq<nat>) returns (ok: bool)
    requires |used| <= 128 && fat[..] == FatWith(used) && Consecutive(chains, |used|)
    modifies fat
    ensures ok <==> |used| + |ChainEntries(chains)| <= 128
    ensures ok ==> fat[..] == FatWith(used + ChainEntries(chains))
  {
    hide FatWith, Consecutive;
    assert used + ChainEntries(chains[..0]) == used;
    for c := 0 to |chains|
      invariant |used| + |ChainEntries(chains[..c])| <= 128
      invariant fat[..] == FatWith(used + ChainEntries(chains[..c]))
    {
      ChainEntriesGrow(chains, c + 1);
      assert chains[..c + 1][..c] == chains[..c];
      ghost var now := used + ChainEntries(chains[..c]);
      ConsecutiveAt(chains, |used|, c);
      ok := WriteChain(fat, chains[c], now);
      if !ok {
        return;
      }
      assert now + RunEntries(|now|, |chains[c]|) == used + ChainEntries(chains[..c + 1]);
    }
    assert chains[..|chains|] == chains;
    ok := true;
  }

  lemma ConsecutiveAt(chains: seq<seq<nat>>, base: nat, c: nat)
    requires Consecutive(chains, base) && c < |chains|
    ensures chains[c] == Range(base + |ChainEntries(chains[..c])|, |chains[c]|) && |chains[c]| > 0
    ensures chains[c][0] == base + |ChainEntries(chains[..c])|
  {
  }

  /** The whole FAT, or None for its IndexError. */
  method FillFat(dir: seq<nat>, miniFat: seq<nat>, mini: seq<nat>, chains: seq<seq<nat>>, ghost used: seq<nat>)
    returns (r: Option<array<nat>>)
    requires dir == Range(1, |dir|) && miniFat == Range(1 + |dir|, |miniFat|)
    requires mini == Range(1 + |dir| + |miniFat|, |mini|) && Consecutive(chains, 1 + |dir| + |miniFat| + |mini|)
    requires used == [FAT_FAT] + RunEntries(1, |dir|) + RunEntries(1 + |dir|, |miniFat|)
                     + RunEntries(1 + |dir| + |miniFat|, |mini|) + ChainEntries(chains)
    ensures r.Some? <==> |used| <= 128
    ensures r.Some? ==> fresh(r.value) && r.value[..] == FatWith(used)
  {
    var fat := new nat[128](_ => FAT_FREE);
    fat[0] := FAT_FAT;
    ghost var u0 := [FAT_FAT];
    assert fat[..] == FatWith(u0);
    ghost var u1 := u0 + RunEntries(1, |dir|);
    ghost var u2 := u1 + RunEntries(1 + |dir|, |miniFat|);
    ghost var u3 := u2 + RunEntries(1 + |dir| + |miniFat|, |mini|);
    hide FatWith, RunEntries, ChainEntries, Consecutive;
    var ok := WriteChain(fat, dir, u0);
    if !ok { return None; }
    ok := WriteChain(fat, miniFat, u1);
    if !ok { return None; }
    ok := WriteChain(fat, mini, u2);
    if !ok { return None; }
    ok := WriteChains(fat, chains, u3);
    if !ok { return None; }
    r := Some(fat);
  }

  /** The entries written for these chains are the planned FAT. */
  lemma FatIsFatWith(ss: seq<Stream>)
    ensures Consecutive(FullChains(ss, FullStart(ss)), FullStart(ss))
    ensures UsedFat(ss) == [FAT_FAT] + RunEntries(1, DirSectors(ss)) + RunEntries(MiniFatStart(ss), MiniFatSectors(ss))
                           + RunEntries(MiniStreamStart(ss), MiniStreamSectors(ss)) + ChainEntries(FullChains(ss, FullStart(ss)))
    ensures |UsedFat(ss)| == NextFree(ss)
    ensures NextFree(ss) <= 128 ==> Fat(ss) == FatWith(UsedFat(ss))
  {
    ChainsOfFull(ss, FullStart(ss));
  }

  // --------------------------------------------------------------- directory

  /** dir_id: the names numbered from 1 in sorted order. */
  method NumberNames(names: seq<Name>) returns (ids: map<Name, nat>)
    requires DistinctNames(names)
    ensures forall k :: 0 <= k < |names| ==> names[k] in ids && ids[names[k]] == k + 1
  {
    ids := map[];
    for i := 0 to |names|
      invariant forall k :: 0 <= k < i ==> names[k] in ids && ids[names[k]] == k + 1
    {
      ids := ids[names[i] := i + 1];
    }
  }

  /** The recorded start of a stream is the planned one. */
  lemma StartIsRecorded(ss: seq<Stream>, miniStarts: map<Name, nat>, fullStarts: map<Name, nat>, i: nat)
    requires IsDict(ss) && i < |ss|
    requires RecordsMini(miniStarts, ss, |ss|) && RecordsFull(fullStarts, ss, |ss|, FullStart(ss))
    ensures ss[i].name in miniStarts <==> IsMini(ss[i])
    ensures IsMini(ss[i]) ==> miniStarts[ss[i].name] == StartOf(ss, i)
    ensures !IsMini(ss[i]) ==> ss[i].name in fullStarts && fullStarts[ss[i].name] == StartOf(ss, i)
  {
    if ss[i].name in miniStarts {
      assert MiniName(ss, |ss|, ss[i].name);
      var j :| 0 <= j < |ss| && IsMini(ss[j]) && ss[j].name == ss[i].name;
      DictPrefix(ss, i, j);
    }
  }

  /** One stream's directory entry, with its right sibling when it has one;
      None is the ValueError of dir_entry. */
  method MakeStreamEntry(upper: Name -> Name, ss: seq<Stream>, names: seq<Name>, ids: map<Name, nat>, k: nat,
                         miniStarts: map<Name, nat>, fullStarts: map<Name, nat>)
    returns (r: Option<bytes>)
    requires IsDict(ss) && NextFree(ss) <= 128 && names == Order(upper, ss) && k < |names|
    requires forall j :: 0 <= j < |names| ==> names[j] in ids && ids[names[j]] == j + 1
    requires RecordsMini(miniStarts, ss, |ss|) && RecordsFull(fullStarts, ss, |ss|, FullStart(ss))
    ensures r.Some? <==> EntryFits(upper, ss, k + 1)
    ensures r.Some? ==> r.value == StreamEntry(upper, ss, k)
  {
    hide RecordsMini, RecordsFull, StartOf, NextFree, DirEntry, FullStart, Order, IsDict, NamesOf;
    var name := names[k];
    var i := IndexOf(ss, name);
    StartIsRecorded(ss, miniStarts, fullStarts, i);
    StreamBounds(ss, i);
    IdBound(ss);
    var start := if name in miniStarts then miniStarts[name] else fullStarts[name];
    var e := MakeEntry(name, 2, start, |ss[i].data|, FAT_FREE);
    if e.None? {
      return None;
    }
    if k < |names| - 1 {
      Pow256Values();
      SetRight(Utf16(name), 2, start, |ss[i].data|, k + 2, FAT_FREE);
      PackInto(e.value, 0x48, ids[names[k + 1]], 4);
    }
    r := Some(e.value[..]);
  }

  /** The directory fits in 127 sectors, so ids are small. */
  lemma IdBound(ss: seq<Stream>)
    requires NextFree(ss) <= 128
    ensures |ss| <= 512
  {
    assert DirSectors(ss) <= 128;
  }

  /** entries are the blocks of ids 0..|entries|. */
  ghost predicate FirstBlocks(entries: seq<bytes>, upper: Name -> Name, ss: seq<Stream>) {
    forall id :: 0 <= id < |entries| ==> EntryFits(upper, ss, id) && entries[id] == DirBlock(upper, ss, id)
  }

  lemma NextBlock(entries: seq<bytes>, upper: Name -> Name, ss: seq<Stream>, e: bytes)
    requires FirstBlocks(entries, upper, ss)
    requires EntryFits(upper, ss, |entries|) && e == DirBlock(upper, ss, |entries|)
    ensures FirstBlocks(entries + [e], upper, ss)
  {
    hide DirBlock, EntryFits;
  }

  method MakeRootEntry(ss: seq<Stream>, rootStart: nat, miniSize: nat, firstId: nat) returns (e: bytes)
    requires NextFree(ss) <= 128 && rootStart == RootStart(ss) && miniSize == 64 * NextMini(ss)
    requires firstId == if ss == [] then FAT_FREE else 1
    ensures e == RootEntry(ss)
  {
    hide DirEntry, NextFree, RootStart;
    MiniBound(ss);
    RootBound(ss);
    assert |Utf16(ROOT)| <= 2 * |ROOT|;
    var root := MakeEntry(ROOT, 5, rootStart, miniSize, firstId);
    e := root.value[..];
  }

  method AddStreamEntries(upper: Name -> Name, ss: seq<Stream>, root: bytes, names: seq<Name>, ids: map<Name, nat>,
                          miniStarts: map<Name, nat>, fullStarts: map<Name, nat>)
    returns (r: Option<seq<bytes>>)
    requires IsDict(ss) && NextFree(ss) <= 128 && names == Order(upper, ss) && root == RootEntry(ss)
    requires forall j :: 0 <= j < |names| ==> names[j] in ids && ids[names[j]] == j + 1
    requires RecordsMini(miniStarts, ss, |ss|) && RecordsFull(fullStarts, ss, |ss|, FullStart(ss))
    ensures r.Some? <==> NamesFit(ss)
    ensures r.Some? ==> |r.value| == |ss| + 1 && FirstBlocks(r.value, upper, ss)
  {
    hide RecordsMini, RecordsFull, NextFree, RootEntry, StreamEntry, EmptyEntry, FullStart, IsDict, Order, NamesFit;
    var entries := [root];
    FitsTrivially(upper, ss);
    AllEntriesFit(upper, ss);
    hide EntryFits, FirstBlocks;
    assert FirstBlocks(entries, upper, ss) by { RootBlock(root, upper, ss); }
    for i := 0 to |names|
      invariant |entries| == i + 1 && FirstBlocks(entries, upper, ss)
      invariant forall id :: 1 <= id <= i ==> EntryFits(upper, ss, id)
    {
      var e := MakeStreamEntry(upper, ss, names, ids, i, miniStarts, fullStarts);
      if e.None? {
        return None;
      }
      NextBlock(entries, upper, ss, e.value);
      entries := entries + [e.value];
    }
    r := Some(entries);
  }

  lemma RootBlock(root: bytes, upper: Name -> Name, ss: seq<Stream>)
    requires root == RootEntry(ss)
    ensures FirstBlocks([root], upper, ss)
  {
  }

  method MakeDirectory(upper: Name -> Name, ss: seq<Stream>, miniStarts: map<Name, nat>, fullStarts: map<Name, nat>,
                       rootStart: nat, miniSize: nat, nDir: nat)
    returns (r: Option<seq<bytes>>)
    requires IsDict(ss) && NextFree(ss) <= 128
    requires RecordsMini(miniStarts, ss, |ss|) && RecordsFull(fullStarts, ss, |ss|, FullStart(ss))
    requires rootStart == RootStart(ss) && miniSize == 64 * NextMini(ss) && nDir == DirSectors(ss)
    ensures r.Some? <==> NamesFit(ss)
    ensures r.Some? ==> r.value == DirBlocks(upper, ss)
  {
    hide RecordsMini, RecordsFull, NextFree, RootEntry, StreamEntry, EmptyEntry, FullStart, DistinctNames, IsDict, NamesFit, RootStart;
    OrderIsDistinct(upper, ss);
    RootBound(ss);
    FitsTrivially(upper, ss);
    hide Order, EntryFits, FirstBlocks, DirSectors;
    var names := Order(upper, ss);
    var ids := NumberNames(names);
    var firstId := if |names| > 0 then ids[names[0]] else FAT_FREE;
    var root := MakeRootEntry(ss, rootStart, miniSize, firstId);
    r := AddStreamEntries(upper, ss, root, names, ids, miniStarts, fullStarts);
    if r.None? {
      return;
    }
    var entries := r.value;
    while |entries| < nDir * 4
      invariant |ss| + 1 <= |entries| <= nDir * 4 && FirstBlocks(entries, upper, ss)
    {
      var e := MakeEmptyEntry();
      NextBlock(entries, upper, ss, e);
      entries := entries + [e];
    }
    AreAllBlocks(entries, upper, ss);
    r := Some(entries);
  }

  lemma AreAllBlocks(entries: seq<bytes>, upper: Name -> Name, ss: seq<Stream>)
    requires NamesFit(ss) && FirstBlocks(entries, upper, ss) && |entries| == 4 * DirSectors(ss)
    ensures entries == DirBlocks(upper, ss)
  {
    hide DirBlock, EntryFits;
  }

  lemma FitsTrivially(upper: Name -> Name, ss: seq<Stream>)
    ensures EntryFits(upper, ss, 0)
    ensures forall id :: id > |ss| ==> EntryFits(upper, ss, id)
  {
  }

  lemma RootBound(ss: seq<Stream>)
    requires NextFree(ss) <= 128
    ensures RootStart(ss) < 0x1_0000_0000 && |ss| + 1 <= 4 * DirSectors(ss)
  {
  }

  lemma OrderIsDistinct(upper: Name -> Name, ss: seq<Stream>)
    requires IsDict(ss)
    ensures DistinctNames(Order(upper, ss))
  {
    SortOfDistinct(upper, NamesOf(ss));
  }

  method MakeEmptyEntry() returns (e: bytes)
    ensures e == EmptyEntry()
  {
    hide Patch, Le;
    Pow256Values();
    var a := new byte[128](_ => 0);
    assert a[..] == Zeros(128);
    PackInto(a, 0x44, FAT_FREE, 4);
    PackInto(a, 0x48, FAT_FREE, 4);
    PackInto(a, 0x4C, FAT_FREE, 4);
    e := a[..];
  }

  // -------------------------------------------------------------------- body

  /** body_sectors with these parts written and the rest still zero. */
  function BodyWith(parts: seq<bytes>, n: nat): (b: seq<bytes>)
    requires |parts| <= n
    ensures |b| == n
  {
    parts + seq(n - |parts|, _ => Zeros(512))
  }

  /** body_sectors[s] = blob[i*512:(i+1)*512] for the i-th sector s of a part. */
  method PlacePart(body: array<bytes>, sectors: seq<nat>, blob: bytes, ghost parts: seq<bytes>)
    requires |parts| + |sectors| <= body.Length && body[..] == BodyWith(parts, body.Length)
    requires sectors == Range(|parts|, |sectors|) && |blob| == 512 * |sectors|
    modifies body
    ensures body[..] == BodyWith(parts + Cut(blob, 512, |sectors|), body.Length)
  {
    ghost var n := |sectors|;
    ghost var cut := Cut(blob, 512, n);
    assert parts + cut[..0] == parts;
    for i := 0 to |sectors|
      invariant body[..] == BodyWith(parts + cut[..i], body.Length)
    {
      CutBlock(blob, 512, n, i, 512 * i);
      body[sectors[i]] := blob[i * 512..(i + 1) * 512];
      assert cut[..i + 1] == cut[..i] + [cut[i]];
    }
    assert cut[..n] == cut;
  }

  /** body_sectors[idx] = payload for every item of the dict of payloads. */
  method PlacePayloads(body: array<bytes>, sectors: seq<(nat, bytes)>, ghost blob: bytes, ghost parts: seq<bytes>)
    requires |parts| + |sectors| <= body.Length && body[..] == BodyWith(parts, body.Length)
    requires Payloads(sectors, |parts|, blob)
    modifies body
    ensures body[..] == BodyWith(parts + Cut(blob, 512, |sectors|), body.Length)
  {
    ghost var n := |sectors|;
    ghost var cut := Cut(blob, 512, n);
    assert parts + cut[..0] == parts;
    for i := 0 to |sectors|
      invariant body[..] == BodyWith(parts + cut[..i], body.Length)
    {
      CutBlock(blob, 512, n, i, 512 * i);
      body[sectors[i].0] := sectors[i].1;
      assert cut[..i + 1] == cut[..i] + [cut[i]];
    }
    assert cut[..n] == cut;
  }

  lemma JoinParts(fat: bytes, d: bytes, mf: bytes, ms: bytes, g: bytes, nd: nat, nm: nat, ns: nat, nf: nat)
    requires |d| == 512 * nd && |mf| == 512 * nm && |ms| == 512 * ns && |g| == 512 * nf
    ensures Join([fat] + Cut(d, 512, nd) + Cut(mf, 512, nm) + Cut(ms, 512, ns) + Cut(g, 512, nf)) == fat + d + mf + ms + g
  {
    hide Cut, Join;
    var a := [fat] + Cut(d, 512, nd);
    var b := a + Cut(mf, 512, nm);
    var c := b + Cut(ms, 512, ns);
    JoinAppend(c, Cut(g, 512, nf));
    JoinAppend(b, Cut(ms, 512, ns));
    JoinAppend(a, Cut(mf, 512, nm));
    JoinAppend([fat], Cut(d, 512, nd));
    JoinOne(fat);
    JoinCut(d, 512, nd);
    JoinCut(mf, 512, nm);
    JoinCut(ms, 512, ns);
    JoinCut(g, 512, nf);
  }

  lemma JoinOne(b: bytes)
    ensures Join([b]) == b
  {
    assert Join([b]) == b + Join([]);
  }

  /** The sectors of the file, assembled by number and joined. */
  method Assemble(fat: bytes, dir: seq<nat>, dirBlob: bytes, miniFat: seq<nat>, miniFatBlob: bytes,
                  mini: seq<nat>, miniBlob: bytes, sectors: seq<(nat, bytes)>, nextFree: nat, ghost full: bytes)
    returns (file: bytes)
    requires dir == Range(1, |dir|) && miniFat == Range(1 + |dir|, |miniFat|) && mini == Range(1 + |dir| + |miniFat|, |mini|)
    requires |dirBlob| == 512 * |dir| && |miniFatBlob| == 512 * |miniFat| && |miniBlob| == 512 * |mini|
    requires Payloads(sectors, 1 + |dir| + |miniFat| + |mini|, full)
    requires nextFree == 1 + |dir| + |miniFat| + |mini| + |sectors|
    ensures file == fat + dirBlob + miniFatBlob + miniBlob + full
  {
    hide Cut;
    var body := new bytes[nextFree](_ => Zeros(512));
    body[0] := fat;
    ghost var p0 := [fat];
    assert body[..] == BodyWith(p0, body.Length);
    hide BodyWith, Payloads;
    assert |full| == 512 * |sectors| by { PayloadBytes(sectors, 1 + |dir| + |miniFat| + |mini|, full); }
    PlacePart(body, dir, dirBlob, p0);
    ghost var p1 := p0 + Cut(dirBlob, 512, |dir|);
    PlacePart(body, miniFat, miniFatBlob, p1);
    ghost var p2 := p1 + Cut(miniFatBlob, 512, |miniFat|);
    PlacePart(body, mini, miniBlob, p2);
    ghost var p3 := p2 + Cut(miniBlob, 512, |mini|);
    PlacePayloads(body, sectors, full, p3);
    AllPlaced(p3 + Cut(full, 512, |sectors|), body.Length);
    JoinParts(fat, dirBlob, miniFatBlob, miniBlob, full, |dir|, |miniFat|, |mini|, |sectors|);
    file := Join(body[..]);
  }

  lemma PayloadBytes(sectors: seq<(nat, bytes)>, base: nat, blob: bytes)
    requires Payloads(sectors, base, blob)
    ensures |blob| == 512 * |sectors|
  {
  }

  lemma AllPlaced(parts: seq<bytes>, n: nat)
    requires |parts| == n
    ensures BodyWith(parts, n) == parts
  {
  }

  // ------------------------------------------------------------------ writer

  /** The mini FAT as bytes: struct.pack per entry. */
  method PackTable(table: seq<nat>) returns (blob: bytes)
    ensures blob == Pack32(table)
  {
    blob := [];
    for i := 0 to |table|
      invariant blob == Pack32(table[..i])
    {
      assert table[..i + 1] == table[..i] + [table[i]];
      Pack32Append(table[..i], [table[i]]);
      PackOne(table[i]);
      blob := blob + Le(table[i], 4);
    }
    assert table[..|table|] == table;
  }

  lemma PackOne(v: nat)
    ensures Pack32([v]) == Le(v, 4)
  {
    assert Pack32([v]) == Le(v, 4) + Pack32([]);
  }

  /** The sizes that the script computes are the planned ones. */
  lemma SizesArePlanned(ss: seq<Stream>, next: nat, padded: seq<nat>, nMiniFat: nat, nMini: nat)
    requires next == NextMini(ss) && padded == PadTable(MiniTable(ss))
    requires nMiniFat == if next > 0 then Max(1, |padded| / 128) else 0
    requires nMini == if next > 0 then (next * 64 + 511) / 512 else 0
    ensures nMiniFat == MiniFatSectors(ss) && nMini == MiniStreamSectors(ss)
    ensures |MiniContent(ss)| <= nMini * 512
    ensures MiniBlob(ss) == if next > 0 then MiniContent(ss) + Zeros(nMini * 512 - |MiniContent(ss)|) else MiniContent(ss)
    ensures MiniFatBlob(ss) == if next > 0 then Pack32(padded) else []
    ensures next > 0 ==> |Pack32(padded)| == 512 * nMiniFat
  {
    if next == 0 {
      assert MiniContent(ss) + Zeros(0) == MiniContent(ss);
    }
  }

  lemma PlanFacts(ss: seq<Stream>)
    ensures MiniFatRef(ss) == if MiniFatSectors(ss) > 0 then MiniFatStart(ss) else FAT_END
    ensures RootStart(ss) == if MiniStreamSectors(ss) > 0 then MiniStreamStart(ss) else FAT_END
    ensures MiniFatStart(ss) == 1 + DirSectors(ss) && MiniStreamStart(ss) == MiniFatStart(ss) + MiniFatSectors(ss)
    ensures FullStart(ss) == MiniStreamStart(ss) + MiniStreamSectors(ss) && NextFree(ss) == FullStart(ss) + FullTotal(ss)
    ensures DirSectors(ss) == Max(1, (1 + |ss| + 3) / 4) > 0
    ensures NextFree(ss) <= 128 ==> MiniFatRef(ss) < 0x1_0000_0000 && MiniFatSectors(ss) <= 128
  {
  }

  lemma Regroup(h: bytes, a: bytes, b: bytes, c: bytes, d: bytes, e: bytes)
    ensures h + (a + b + c + d + e) == h + a + b + c + d + e
  {
  }

  lemma FileOfParts(upper: Name -> Name, ss: seq<Stream>, h: bytes, rest: bytes)
    requires NextFree(ss) <= 128 && NamesFit(ss) && h == HeaderFor(ss)
    requires rest == Pack32(Fat(ss)) + DirBlob(upper, ss) + MiniFatBlob(ss) + MiniBlob(ss) + FullContent(ss)
    ensures Build(upper, ss) == Image(h + rest)
  {
    hide HeaderFor, Pack32, Fat, DirBlob, MiniFatBlob, MiniBlob, FullContent, NextFree, NamesFit;
    Regroup(h, Pack32(Fat(ss)), DirBlob(upper, ss), MiniFatBlob(ss), MiniBlob(ss), FullContent(ss));
  }

  /** The tables, the directory and the data, laid out as sectors. */
  method WriteSectors(ss: seq<Stream>, fat: array<nat>, dir: seq<nat>, dirBlob: bytes, miniFat: seq<nat>, miniFatBlob: bytes,
                      mini: seq<nat>, miniBlob: bytes, sectors: seq<(nat, bytes)>, nextFree: nat, ghost upper: Name -> Name)
    returns (rest: bytes)
    requires NextFree(ss) <= 128 && NamesFit(ss) && fat[..] == Fat(ss) && nextFree == NextFree(ss)
    requires dir == Range(1, DirSectors(ss)) && miniFat == Range(MiniFatStart(ss), MiniFatSectors(ss))
    requires mini == Range(MiniStreamStart(ss), MiniStreamSectors(ss))
    requires dirBlob == DirBlob(upper, ss) && miniFatBlob == MiniFatBlob(ss) && miniBlob == MiniBlob(ss)
    requires Payloads(sectors, FullStart(ss), FullContent(ss))
    ensures rest == Pack32(Fat(ss)) + DirBlob(upper, ss) + MiniFatBlob(ss) + MiniBlob(ss) + FullContent(ss)
  {
    hide Payloads, Pack32, Fat, DirBlob, MiniFatBlob, MiniBlob, FullContent, NextFree, NamesFit, FullStart, MiniFatStart, MiniStreamStart,
         MiniFatSectors, MiniStreamSectors, DirSectors, FullTotal;
    PlanFacts(ss);
    PayloadCount(sectors, FullStart(ss), ss);
    var fatSector := PackTable(fat[..]);
    rest := Assemble(fatSector, dir, dirBlob, miniFat, miniFatBlob, mini, miniBlob, sectors, nextFree, FullContent(ss));
  }

  /** The mini stream and the mini FAT, padded to whole sectors. */
  method PlanMini(ss: seq<Stream>)
    returns (blob: bytes, table: seq<nat>, starts: map<Name, nat>, next: nat, nMiniFat: nat, nMini: nat)
    requires IsDict(ss)
    ensures blob == MiniBlob(ss) && table == PadTable(MiniTable(ss)) && next == NextMini(ss)
    ensures RecordsMini(starts, ss, |ss|) && nMiniFat == MiniFatSectors(ss) && nMini == MiniStreamSectors(ss)
    ensures MiniFatBlob(ss) == if next > 0 then Pack32(table) else []
  {
    hide RecordsMini, IsDict, MiniContent, MiniTable, NextMini, PadTable, Pack32, MiniBlob, MiniFatBlob, MiniFatSectors, MiniStreamSectors;
    var content, entries;
    content, entries, starts, next := PackMini(ss);
    table := PadMiniFat(entries);
    nMiniFat := if next > 0 then Max(1, |table| / 128) else 0;
    nMini := if next > 0 then (next * 64 + 511) / 512 else 0;
    SizesArePlanned(ss, next, table, nMiniFat, nMini);
    blob := if next > 0 then content + Zeros(nMini * 512 - |content|) else content;
  }

  /** The FAT of the planned chains, or None for its IndexError. */
  method FatOf(ss: seq<Stream>, dir: seq<nat>, miniFat: seq<nat>, mini: seq<nat>, chains: seq<seq<nat>>) returns (r: Option<array<nat>>)
    requires dir == Range(1, DirSectors(ss)) && miniFat == Range(MiniFatStart(ss), MiniFatSectors(ss))
    requires mini == Range(MiniStreamStart(ss), MiniStreamSectors(ss)) && chains == FullChains(ss, FullStart(ss))
    ensures r.Some? <==> NextFree(ss) <= 128
    ensures r.Some? ==> fresh(r.value) && r.value[..] == Fat(ss)
  {
    hide Consecutive, Fat, UsedFat, RunEntries, FatWith, FullChains, ChainEntries, DirSectors, MiniFatSectors, MiniStreamSectors,
         MiniFatStart, MiniStreamStart, FullStart, NextFree;
    PlanFacts(ss);
    FatIsFatWith(ss);
    r := FillFat(dir, miniFat, mini, chains, UsedFat(ss));
  }

  /** The last lines of the script: header, then sectors. */
  method WriteImage(upper: Name -> Name, ss: seq<Stream>, header: bytes, fat: array<nat>, dir: seq<nat>, blocks: seq<bytes>,
                    miniFat: seq<nat>, miniFatBlob: bytes, mini: seq<nat>, miniBlob: bytes, sectors: seq<(nat, bytes)>, nextFree: nat)
    returns (r: Outcome)
    requires NextFree(ss) <= 128 && NamesFit(ss) && header == HeaderFor(ss) && fat[..] == Fat(ss) && nextFree == NextFree(ss)
    requires dir == Range(1, DirSectors(ss)) && miniFat == Range(MiniFatStart(ss), MiniFatSectors(ss))
    requires mini == Range(MiniStreamStart(ss), MiniStreamSectors(ss)) && blocks == DirBlocks(upper, ss)
    requires miniFatBlob == MiniFatBlob(ss) && miniBlob == MiniBlob(ss) && Payloads(sectors, FullStart(ss), FullContent(ss))
    ensures r == Build(upper, ss)
  {
    hide Payloads, DirBlocks, Fat, FullContent, HeaderFor, Pack32, MiniFatBlob, MiniBlob, DirSectors, MiniFatSectors, MiniStreamSectors,
         MiniFatStart, MiniStreamStart, FullStart, NextFree, NamesFit, Build;
    var rest := WriteSectors(ss, fat, dir, Join(blocks), miniFat, miniFatBlob, mini, miniBlob, sectors, nextFree, upper);
    FileOfParts(upper, ss, header, rest);
    r := Image(header + rest);
  }

  lemma BuildFails(upper: Name -> Name, ss: seq<Stream>)
    ensures NextFree(ss) > 128 ==> Build(upper, ss) == FatOverflow
    ensures NextFree(ss) <= 128 && !NamesFit(ss) ==> Build(upper, ss) == NameTooLong
    ensures NextFree(ss) <= 128 && NamesFit(ss) ==> Build(upper, ss).Image?
    ensures NamesFit(ss) <==> !exists i :: 0 <= i < |ss| && |Utf16(ss[i].name)| > 31
  {
    assert NamesFit(ss) <==> !exists i :: 0 <= i < |ss| && |Utf16(ss[i].name)| > 31;
    hide NextFree, NamesFit, HeaderFor, Pack32, Fat, DirBlob, MiniFatBlob, MiniBlob, FullContent;
  }

  /** _build_cfb: the image, or the exception the script would raise. Whatever
      the streams, the image is the planned one and reads back as the streams; and
      the loops fail exactly when the sectors are more than one FAT sector can list,
      or else when a name takes more than 31 UTF-16 units. */
  method BuildCfb(upper: Name -> Name, ss: seq<Stream>) returns (r: Outcome)
    requires IsDict(ss)
    ensures r == Build(upper, ss)
    ensures r.Image? ==> Extract(r.file) == Some(Files(upper, ss)) && |r.file| == 512 * (1 + NextFree(ss))
    ensures r.FatOverflow? <==> NextFree(ss) > 128
    ensures r.NameTooLong? <==> NextFree(ss) <= 128 && exists i :: 0 <= i < |ss| && |Utf16(ss[i].name)| > 31
  {
    hide RecordsMini, RecordsFull, Payloads, IsDict, DirBlocks, Fat, FullContent, NextMini, FullTotal, Header, Extract, Files, NamesFit,
         FullChains, Pack32, PadTable, MiniTable, HeaderPrefix, MiniFatBlob, MiniBlob, DirSectors, MiniFatSectors, MiniStreamSectors,
         MiniFatStart, MiniStreamStart, FullStart, NextFree, MiniFatRef, RootStart, Build, Utf16, Open;
    BuildFails(upper, ss);
    var h := StartHeader();
    var blob, table, miniStarts, next, nMiniFat, nMini := PlanMini(ss);
    PlanFacts(ss);
    var nDir := Max(1, (1 + |ss| + 3) / 4);
    var dir, miniFat, mini := Range(1, nDir), Range(1 + nDir, nMiniFat), Range(1 + nDir + nMiniFat, nMini);
    var fullStarts, chains, sectors, nextFree := AllocateFull(ss, 1 + nDir + nMiniFat + nMini);
    var fat := FatOf(ss, dir, miniFat, mini, chains);
    if fat.None? {
      return FatOverflow;
    }
    FinishHeader(h, if |miniFat| > 0 then miniFat[0] else FAT_END, nMiniFat);
    var blocks := MakeDirectory(upper, ss, miniStarts, fullStarts, if |mini| > 0 then mini[0] else FAT_END, next * 64, nDir);
    if blocks.None? {
      return NameTooLong;
    }
    var miniFatBlob := PackTable(table);
    r := WriteImage(upper, ss, h[..], fat.value, dir, blocks.value, miniFat, if next > 0 then miniFatBlob else [],
                    mini, blob, sectors, nextFree);
    RoundTrip(upper, ss);
    Opens(upper, ss);
  }
}
