// A reader for version 3 compound files, written from [MS-CFB] sections 2.2
// (header), 2.3 (FAT), 2.4 (mini FAT), 2.6 (directory) and 2.6.4 (the order of
// the directory tree). It shares no definition with the writer: it follows
// sector chains, parses 128-byte directory entries and walks the tree, and
// answers None for an image that is not well formed.

module CfbReader {
  import opened Bytes

  /** Section 2.1: special sector numbers. */
  const FREESECT: nat := 0xFFFF_FFFF
  const ENDOFCHAIN: nat := 0xFFFF_FFFE
  const FATSECT: nat := 0xFFFF_FFFD
  const NOSTREAM: nat := 0xFFFF_FFFF

  const MAGIC: bytes := [0xD0, 0xCF, 0x11, 0xE0, 0xA1, 0xB1, 0x1A, 0xE1]

  /** "Root Entry", section 2.6.2. */
  const ROOT_NAME: seq<Unit> := [0x52, 0x6F, 0x6F, 0x74, 0x20, 0x45, 0x6E, 0x74, 0x72, 0x79]

  /** A UTF-16 code unit. */
  type Unit = x: int | 0 <= x < 0x1_0000

  /** Section 2.6.1: the fields of a directory entry that a reader uses. */
  datatype Entry = Entry(name: seq<Unit>, kind: nat, left: nat, right: nat, child: nat, start: nat, size: nat)

  datatype Volume = Volume(fat: seq<nat>, entries: seq<Entry>, miniFat: seq<nat>, mini: bytes)

  // ------------------------------------------------------------------ chains

  function Sector(f: bytes, s: nat): (r: Option<bytes>)
    ensures r.Some? ==> |r.value| == 512
  {
    if 512 * s + 1024 <= |f| then Some(f[512 * s + 512..512 * s + 1024]) else None
  }

  /** The sectors of the chain that starts at s; None when the chain leaves
      the table or is longer than fuel, that is, when it runs in a cycle. */
  function Chain(next: seq<nat>, s: nat, fuel: nat): Option<seq<nat>>
    decreases fuel
  {
    if s == ENDOFCHAIN then Some([])
    else if s >= |next| || fuel == 0 then None
    else
      var rest :- Chain(next, next[s], fuel - 1);
      Some([s] + rest)
  }

  function ReadSectors(f: bytes, chain: seq<nat>): (r: Option<bytes>)
    ensures r.Some? ==> |r.value| == 512 * |chain|
  {
    if chain == [] then Some([])
    else
      var first :- Sector(f, chain[0]);
      var rest :- ReadSectors(f, chain[1..]);
      Some(first + rest)
  }

  function ReadChain(f: bytes, fat: seq<nat>, s: nat): (r: Option<bytes>)
    ensures r.Some? ==> |r.value| % 512 == 0 && |r.value| % 4 == 0
  {
    var chain :- Chain(fat, s, |fat|);
    ReadSectors(f, chain)
  }

  function ReadMiniSectors(mini: bytes, chain: seq<nat>): Option<bytes> {
    if chain == [] then Some([])
    else if 64 * chain[0] + 64 > |mini| then None
    else
      var rest :- ReadMiniSectors(mini, chain[1..]);
      Some(mini[64 * chain[0]..64 * chain[0] + 64] + rest)
  }

  /** Sections 2.2 and 2.3: the FAT sectors that the header's DIFAT names. */
  function ReadFat(f: bytes, i: nat, count: nat): (r: Option<bytes>)
    requires 512 <= |f| && i <= count <= 109
    ensures r.Some? ==> |r.value| % 4 == 0
    decreases count - i
  {
    if i == count then Some([])
    else
      var first :- Sector(f, Field(f, 0x4C + 4 * i, 4));
      var rest :- ReadFat(f, i + 1, count);
      Some(first + rest)
  }

  // --------------------------------------------------------------- directory

  function UnLe2(low: byte, high: byte): Unit {
    var l: int, h: int := low, high;
    l + 256 * h
  }

  function Units(b: bytes): (u: seq<Unit>)
    requires |b| % 2 == 0
  {
    if b == [] then [] else [UnLe2(b[0], b[1])] + Units(b[2..])
  }

  function ParseEntry(b: bytes): Option<Entry>
    requires |b| == 128
  {
    var n := Field(b, 0x40, 2);
    if n % 2 != 0 || n > 64 then None
    else
      var name := if n < 2 then [] else Units(b[..n - 2]);
      Some(Entry(name, b[0x42], Field(b, 0x44, 4), Field(b, 0x48, 4), Field(b, 0x4C, 4), Field(b, 0x74, 4), Field(b, 0x78, 8)))
  }

  function ParseEntries(dir: bytes): Option<seq<Entry>> {
    if |dir| < 128 then Some([])
    else
      var first :- ParseEntry(dir[..128]);
      var rest :- ParseEntries(dir[128..]);
      Some([first] + rest)
  }

  // ----------------------------------------------------------------- volumes

  /** Section 2.2: the fixed fields of a header that a version 3 reader checks. */
  predicate HeaderOk(f: bytes) {
    && |f| >= 512
    && f[..8] == MAGIC
    && Field(f, 0x1A, 2) == 3
    && Field(f, 0x1C, 2) == 0xFFFE
    && Field(f, 0x1E, 2) == 9
    && Field(f, 0x20, 2) == 6
    && Field(f, 0x2C, 4) <= 109
    && Field(f, 0x38, 4) == 0x1000
    && Field(f, 0x48, 4) == 0
  }

  function OpenWith(f: bytes, fat: seq<nat>, dirStart: nat, miniFatStart: nat, miniFatCount: nat): Option<Volume> {
    var dir :- ReadChain(f, fat, dirStart);
    var entries :- ParseEntries(dir);
    if entries == [] || entries[0].kind != 5 || entries[0].name != ROOT_NAME then None
    else
      var miniFat :- ReadChain(f, fat, miniFatStart);
      var mini :- ReadChain(f, fat, entries[0].start);
      if |miniFat| != 512 * miniFatCount || entries[0].size > |mini| then None
      else Some(Volume(fat, entries, Unpack32(miniFat), mini[..entries[0].size]))
  }

  function Open(f: bytes): Option<Volume> {
    if !HeaderOk(f) then None
    else
      var fat :- ReadFat(f, 0, Field(f, 0x2C, 4));
      OpenWith(f, Unpack32(fat), Field(f, 0x30, 4), Field(f, 0x3C, 4), Field(f, 0x40, 4))
  }

  /** The user data of one stream: below 4096 bytes it lives in the mini stream,
      otherwise in sectors of its own. */
  function ReadStream(f: bytes, v: Volume, e: Entry): Option<bytes> {
    if e.size < 4096 then
      var chain :- Chain(v.miniFat, e.start, |v.miniFat|);
      var blob :- ReadMiniSectors(v.mini, chain);
      if e.size > |blob| then None else Some(blob[..e.size])
    else
      var blob :- ReadChain(f, v.fat, e.start);
      if e.size > |blob| then None else Some(blob[..e.size])
  }

  // -------------------------------------------------------------------- tree

  /** The ids below id in tree order; fuel bounds the depth. */
  function InOrder(entries: seq<Entry>, id: nat, fuel: nat): Option<seq<nat>>
    decreases fuel
  {
    if id == NOSTREAM then Some([])
    else if id >= |entries| || fuel == 0 then None
    else
      var before :- InOrder(entries, entries[id].left, fuel - 1);
      var after :- InOrder(entries, entries[id].right, fuel - 1);
      Some(before + [id] + after)
  }

  /** Binary search for a name under the given order. */
  function Search(entries: seq<Entry>, id: nat, name: seq<Unit>, less: (seq<Unit>, seq<Unit>) -> bool, fuel: nat): Option<nat>
    decreases fuel
  {
    if id >= |entries| || fuel == 0 then None
    else if less(name, entries[id].name) then Search(entries, entries[id].left, name, less, fuel - 1)
    else if less(entries[id].name, name) then Search(entries, entries[id].right, name, less, fuel - 1)
    else Some(id)
  }

  /** The stream that a search for name reaches. */
  function Lookup(f: bytes, name: seq<Unit>, less: (seq<Unit>, seq<Unit>) -> bool): Option<bytes> {
    var v :- Open(f);
    if v.entries == [] then None
    else
      var id :- Search(v.entries, v.entries[0].child, name, less, |v.entries|);
      if id >= |v.entries| then None else ReadStream(f, v, v.entries[id])
  }

  datatype File = File(name: seq<Unit>, data: bytes)

  function ReadFiles(f: bytes, v: Volume, ids: seq<nat>): Option<seq<File>> {
    if ids == [] then Some([])
    else if ids[0] >= |v.entries| || v.entries[ids[0]].kind != 2 then None
    else
      var data :- ReadStream(f, v, v.entries[ids[0]]);
      var rest :- ReadFiles(f, v, ids[1..]);
      Some([File(v.entries[ids[0]].name, data)] + rest)
  }

  /** Every stream of the image, in tree order. */
  function Extract(f: bytes): Option<seq<File>> {
    var v :- Open(f);
    if v.entries == [] then None
    else
      var ids :- InOrder(v.entries, v.entries[0].child, |v.entries|);
      ReadFiles(f, v, ids)
  }
}
