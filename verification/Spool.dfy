// Staging an upload (internal/spool): a source of unknown length, read in
// chunks of any size, is kept in memory up to a threshold and in a temporary
// file beyond it, under an optional cap, behind one reader that can be rewound.

module Spool {
  import opened Bytes

  const THRESHOLD_DEFAULT: nat := 8388608

  function Min(a: nat, b: nat): nat {
    if a < b then a else b
  }

  function MaxOf(a: int, b: int): int {
    if a < b then b else a
  }

  // ------------------------------------------------------------------ source

  datatype ReadStatus = Ok | Eof | Broken

  /** An io.Reader: its n-th Read offers chunk(n) bytes (at least one), and at
      offset failAt, if any, it breaks. */
  class Source {
    const data: bytes
    const chunk: nat -> nat
    const failAt: Option<nat>
    var pos: nat
    var turns: nat

    constructor (data: bytes, chunk: nat -> nat, failAt: Option<nat>)
      ensures this.data == data && this.chunk == chunk && this.failAt == failAt && pos == 0
    {
      this.data, this.chunk, this.failAt := data, chunk, failAt;
      pos, turns := 0, 0;
    }

    /** What is left to read. */
    function Rest(): bytes
      reads this
      requires pos <= |data|
    {
      data[pos..]
    }

    method Read(limit: nat) returns (b: bytes, status: ReadStatus)
      requires pos <= |data| && limit > 0
      modifies this
      ensures old(pos) <= pos <= |data| && b == data[old(pos)..pos] && |b| <= limit
      ensures status == Ok ==> |b| > 0
      ensures status == Eof <==> old(pos) == |data| && failAt != Some(old(pos))
      ensures status != Ok ==> b == []
      ensures status == Broken ==> failAt == Some(pos)
    {
      if failAt == Some(pos) {
        return [], Broken;
      }
      if pos == |data| {
        return [], Eof;
      }
      var want := if chunk(turns) == 0 then 1 else chunk(turns);
      var n := Min(Min(limit, want), |data| - pos);
      if failAt.Some? && pos < failAt.value {
        n := Min(n, failAt.value - pos);
      }
      b, status := data[pos..pos + n], Ok;
      pos, turns := pos + n, turns + 1;
    }
  }

  /** io.Copy of an io.LimitedReader into a buffer: up to n bytes, or all. */
  method CopyUpTo(r: Source, n: int) returns (b: bytes, broken: bool)
    requires r.pos <= |r.data|
    modifies r
    ensures old(r.pos) <= r.pos <= |r.data| && b == r.data[old(r.pos)..r.pos]
    ensures |b| <= MaxOf(n, 0)
    ensures !broken ==> |b| == MaxOf(n, 0) || r.pos == |r.data|
    ensures r.failAt == None ==> !broken
  {
    b, broken := [], false;
    while |b| < n
      invariant old(r.pos) <= r.pos <= |r.data| && b == r.data[old(r.pos)..r.pos] && |b| <= MaxOf(n, 0)
      decreases n - |b|
    {
      var p, status := r.Read(n - |b|);
      if status == Eof {
        return;
      }
      if status == Broken {
        return b, true;
      }
      b := b + p;
    }
  }

  /** io.Copy without a limit. */
  method CopyAll(r: Source) returns (b: bytes, broken: bool)
    requires r.pos <= |r.data|
    modifies r
    ensures old(r.pos) <= r.pos <= |r.data| && b == r.data[old(r.pos)..r.pos]
    ensures !broken ==> r.pos == |r.data|
    ensures r.failAt == None ==> !broken
  {
    b, broken := CopyUpTo(r, |r.data| - r.pos + 1);
  }

  // -------------------------------------------------------------------- disk

  /** A temporary file; its n-th operation fails if faults(n) says so. */
  class TempFile {
    const faults: nat -> bool
    var data: bytes
    var pos: nat
    var ops: nat

    constructor (faults: nat -> bool)
      ensures data == [] && pos == 0 && this.faults == faults && ops == 0
    {
      this.faults := faults;
      data, pos, ops := [], 0, 0;
    }

    /** Appends b; a failing write keeps only half of it. */
    method Write(b: bytes) returns (ok: bool)
      requires pos == |data|
      modifies this
      ensures pos == |data|
      ensures ok ==> data == old(data) + b
      ensures (forall n :: !faults(n)) ==> ok
    {
      ok := !faults(ops);
      ops := ops + 1;
      data := data + if ok then b else b[..|b| / 2];
      pos := |data|;
    }

    method Seek(to: nat) returns (ok: bool)
      modifies this`pos, this`ops
      ensures ok ==> pos == to
      ensures !ok ==> pos == old(pos)
      ensures (forall n :: !faults(n)) ==> ok
    {
      ok := !faults(ops);
      ops := ops + 1;
      if ok {
        pos := to;
      }
    }
  }

  /** The operating system's view: open handles and directory entries. */
  class Disk {
    const canOpen: bool
    const anonymous: bool
    const faults: nat -> bool
    var open: set<TempFile>
    var linked: set<TempFile>

    /** No operation fails. */
    ghost predicate Healthy()
    {
      canOpen && forall n :: !faults(n)
    }

    constructor (canOpen: bool, anonymous: bool, faults: nat -> bool)
      ensures this.canOpen == canOpen && this.anonymous == anonymous && this.faults == faults && open == {} && linked == {}
    {
      this.canOpen, this.anonymous, this.faults := canOpen, anonymous, faults;
      open, linked := {}, {};
    }

    /** openSpoolFile: an anonymous file, or one with a directory entry. */
    method OpenSpoolFile() returns (f: TempFile?)
      modifies this
      ensures f == null <==> !canOpen
      ensures f == null ==> open == old(open) && linked == old(linked)
      ensures f != null ==> fresh(f) && f.data == [] && f.pos == 0 && f.faults == faults
      ensures f != null ==> open == old(open) + {f} && linked == old(linked) + if anonymous then {} else {f}
    {
      if !canOpen {
        return null;
      }
      f := new TempFile(faults);
      open := open + {f};
      if !anonymous {
        linked := linked + {f};
      }
    }

    /** Close the handle and, for a file with a path, remove the entry. */
    method Release(f: TempFile, hasPath: bool)
      modifies this
      ensures open == old(open) - {f}
      ensures linked == old(linked) - if hasPath then {f} else {}
    {
      open := open - {f};
      if hasPath {
        linked := linked - {f};
      }
    }
  }

  // ------------------------------------------------------------------ reader

  datatype Whence = Start | Current | End

  /** The union reader: in memory, or over a temporary file. */
  class Reader {
    var memBuf: Option<bytes>
    var memPos: nat
    var file: TempFile?
    const hasPath: bool
    const size: nat
    const disk: Disk
    var closed: bool

    ghost predicate Valid()
      reads this
    {
      !closed ==> (memBuf.Some? <==> file == null)
    }

    ghost function Repr(): set<object>
      reads this
    {
      if file == null then {this} else {this, file}
    }

    /** Everything the reader holds. */
    function Contents(): bytes
      reads this, file
      requires Valid() && !closed
    {
      if memBuf.Some? then memBuf.value else file.data
    }

    /** Where the next Read starts. */
    function Offset(): nat
      reads this, file
      requires Valid() && !closed
    {
      if memBuf.Some? then memPos else file.pos
    }

    constructor InMemory(b: bytes, disk: Disk)
      ensures Valid() && !closed && file == null && Contents() == b && Offset() == 0 && size == |b| && this.disk == disk
    {
      memBuf, memPos, file, hasPath, size, this.disk, closed := Some(b), 0, null, false, |b|, disk, false;
    }

    constructor OnDisk(f: TempFile, hasPath: bool, size: nat, disk: Disk)
      ensures Valid() && !closed && file == f && memBuf == None && this.hasPath == hasPath && this.size == size && this.disk == disk
    {
      memBuf, memPos, file, this.hasPath, this.size, this.disk, closed := None, 0, f, hasPath, size, disk, false;
    }

    /** The next k bytes, or fewer at the end; None after Close. */
    method Read(k: nat) returns (b: Option<bytes>)
      requires Valid()
      modifies Repr()
      ensures Valid() && file == old(file) && closed == old(closed)
      ensures b == None <==> closed
      ensures !closed ==> Contents() == old(Contents()) && memBuf == old(memBuf)
      ensures !closed && old(Offset()) <= |Contents()| ==>
                Offset() == Min(old(Offset()) + k, |Contents()|) && b.value == Contents()[old(Offset())..Offset()]
      ensures !closed && old(Offset()) > |Contents()| ==> Offset() == old(Offset()) && b.value == []
    {
      if closed {
        return None;
      }
      var c, at := Contents(), Offset();
      if at >= |c| {
        return Some([]);
      }
      var to := Min(at + k, |c|);
      if memBuf.Some? {
        memPos := to;
      } else {
        file.pos := to;
      }
      b := Some(c[at..to]);
    }

    /** Moves the offset; false after Close, to a negative place, or when the
        file system refuses. */
    method Seek(offset: int, whence: Whence) returns (ok: bool)
      requires Valid()
      modifies Repr()
      ensures Valid() && file == old(file) && closed == old(closed)
      ensures closed ==> !ok
      ensures !closed ==> Contents() == old(Contents()) && memBuf == old(memBuf)
      ensures !closed ==>
                var base := match whence case Start => 0 case Current => old(Offset()) case End => |Contents()|;
                && (ok ==> base + offset >= 0 && Offset() == base + offset)
                && (!ok ==> Offset() == old(Offset()))
                && (base + offset >= 0 && (file == null || forall n :: !file.faults(n)) ==> ok)
    {
      if closed {
        return false;
      }
      var base := match whence case Start => 0 case Current => Offset() case End => |Contents()|;
      if base + offset < 0 {
        return false;
      }
      if memBuf.Some? {
        memPos := base + offset;
        ok := true;
      } else {
        ok := file.Seek(base + offset);
      }
    }

    /** Releases the file once; later calls do nothing. */
    method Close()
      requires Valid()
      modifies this, disk
      ensures Valid() && closed
      ensures old(closed) ==> disk.open == old(disk.open) && disk.linked == old(disk.linked)
      ensures !old(closed) && old(file) == null ==> disk.open == old(disk.open) && disk.linked == old(disk.linked)
      ensures !old(closed) && old(file) != null ==>
                disk.open == old(disk.open) - {old(file)} && disk.linked == old(disk.linked) - if hasPath then {old(file)} else {}
    {
      if closed {
        return;
      }
      closed := true;
      if memBuf.Some? {
        memBuf := None;
        return;
      }
      if file == null {
        return;
      }
      disk.Release(file, hasPath);
      file := null;
    }
  }

  // -------------------------------------------------------------------- part

  datatype Staged = Staged(reader: Reader) | TooLarge | IoError

  function Threshold(threshold: int): nat {
    if threshold <= 0 then THRESHOLD_DEFAULT else threshold
  }

  /** Part: exact, bounded and without leaks. When nothing fails, the answer is
      TooLarge exactly when there is a cap and the source is longer; otherwise
      the reader holds exactly the source, at offset 0, in memory exactly up to
      the threshold. Under a cap at most max(threshold, cap) + 1 bytes are
      consumed. Whatever fails, an error leaves no handle and no entry behind. */
  method Part(r: Source, threshold: int, maxBytes: int, disk: Disk) returns (res: Staged)
    requires r.pos <= |r.data|
    modifies r, disk
    ensures r.pos <= |r.data|
    ensures r.failAt == None && disk.Healthy() ==>
              (res.TooLarge? <==> maxBytes > 0 && |old(r.Rest())| > maxBytes) && !res.IoError?
    ensures res.Staged? ==>
              && fresh(res.reader.Repr()) && res.reader.Valid() && !res.reader.closed && res.reader.disk == disk
              && res.reader.Contents() == old(r.Rest()) && res.reader.size == |old(r.Rest())| && res.reader.Offset() == 0
              && (res.reader.file == null <==> |old(r.Rest())| <= if threshold <= 0 then 8388608 else threshold)
              && (maxBytes > 0 ==> res.reader.size <= maxBytes)
              && (res.reader.file != null ==> res.reader.file.faults == disk.faults)
    ensures maxBytes > 0 ==>
              var limit := if threshold <= 0 then 8388608 else threshold;
              r.pos - old(r.pos) <= limit + 1 || r.pos - old(r.pos) <= maxBytes + 1
    ensures !res.Staged? || res.reader.file == null ==> disk.open == old(disk.open) && disk.linked == old(disk.linked)
    ensures res.Staged? && res.reader.file != null ==>
              && disk.open == old(disk.open) + {res.reader.file}
              && disk.linked == old(disk.linked) + if res.reader.hasPath then {res.reader.file} else {}
  {
    var limit := Threshold(threshold);
    var buf, broken := CopyUpTo(r, limit + 1);
    if broken {
      return IoError;
    }
    if |buf| < limit + 1 {
      if maxBytes > 0 && |buf| > maxBytes {
        return TooLarge;
      }
      var mem := new Reader.InMemory(buf, disk);
      return Staged(mem);
    }
    var f := disk.OpenSpoolFile();
    if f == null {
      return IoError;
    }
    var hasPath := !disk.anonymous;
    var wrote := f.Write(buf);
    if !wrote {
      disk.Release(f, hasPath);
      return IoError;
    }
    var more;
    if maxBytes > 0 {
      more, broken := CopyUpTo(r, maxBytes - |buf| + 1);
    } else {
      more, broken := CopyAll(r);
    }
    wrote := f.Write(more);
    if broken || !wrote {
      disk.Release(f, hasPath);
      return IoError;
    }
    var total := |buf| + |more|;
    if maxBytes > 0 && total > maxBytes {
      disk.Release(f, hasPath);
      return TooLarge;
    }
    var ok := f.Seek(0);
    if !ok {
      disk.Release(f, hasPath);
      return IoError;
    }
    var spilled := new Reader.OnDisk(f, hasPath, total, disk);
    res := Staged(spilled);
  }
}
