// Byte strings, little-endian integers and fixed-size blocks: the vocabulary
// that the Compound File writer and its reader share.

module Bytes {

  type byte = x: int | 0 <= x < 256

  type bytes = seq<byte>

  /** A value or its absence; `:-` returns the absence to the caller. */
  datatype Option<+T> = None | Some(value: T) {

    predicate IsFailure() {
      None?
    }

    function PropagateFailure<U>(): Option<U>
      requires None?
    {
      None
    }

    function Extract(): T
      requires Some?
    {
      value
    }
  }

  function Zeros(n: nat): (b: bytes)
    ensures |b| == n
  {
    seq(n, _ => 0)
  }

  // ---------------------------------------------------------------- integers

  function Pow256(n: nat): nat {
    if n == 0 then 1 else 256 * Pow256(n - 1)
  }

  /** The n low-order bytes of v, least significant first. */
  function Le(v: nat, n: nat): (b: bytes)
    ensures |b| == n
  {
    if n == 0 then [] else [v % 256] + Le(v / 256, n - 1)
  }

  /** The number whose little-endian digits are b. */
  function UnLe(b: bytes): nat {
    if b == [] then 0 else b[0] + 256 * UnLe(b[1..])
  }

  lemma {:induction false} UnLeLe(v: nat, n: nat)
    requires v < Pow256(n)
    ensures UnLe(Le(v, n)) == v
  {
    if n != 0 {
      UnLeLe(v / 256, n - 1);
      assert Le(v, n)[1..] == Le(v / 256, n - 1);
    }
  }

  lemma Pow256Values()
    ensures Pow256(2) == 0x1_0000
    ensures Pow256(4) == 0x1_0000_0000
    ensures Pow256(8) == 0x1_0000_0000_0000_0000
  {
    assert Pow256(1) == 256 * Pow256(0) == 256;
    assert Pow256(2) == 256 * Pow256(1);
    assert Pow256(3) == 256 * Pow256(2);
    assert Pow256(4) == 256 * Pow256(3);
    assert Pow256(5) == 256 * Pow256(4);
    assert Pow256(6) == 256 * Pow256(5);
    assert Pow256(7) == 256 * Pow256(6);
    assert Pow256(8) == 256 * Pow256(7);
  }

  /** The n-byte little-endian field at offset off. */
  function Field(s: bytes, off: nat, n: nat): nat
    requires off + n <= |s|
  {
    UnLe(s[off..off + n])
  }

  /** Little-endian: the least significant byte comes first. */
  lemma UnLeBytes(b: bytes)
    ensures var x: seq<int> := b;
            && (|x| == 2 ==> UnLe(b) == x[0] + 256 * x[1])
            && (|x| == 4 ==> UnLe(b) == x[0] + 256 * x[1] + 65536 * x[2] + 16777216 * x[3])
  {
    if |b| > 1 {
      assert b[1..][1..] == b[2..];
    }
    if |b| > 2 {
      assert b[2..][1..] == b[3..];
    }
    if |b| > 3 {
      assert b[3..][1..] == b[4..];
    }
  }

  // ----------------------------------------------------------------- patches

  /** s with b written over it at offset off. */
  function Patch(s: bytes, off: nat, b: bytes): (r: bytes)
    requires off + |b| <= |s|
    ensures |r| == |s|
  {
    s[..off] + b + s[off + |b|..]
  }

  lemma PatchSame(s: bytes, off: nat, v: nat, n: nat)
    requires off + n <= |s| && v < Pow256(n)
    ensures Field(Patch(s, off, Le(v, n)), off, n) == v
  {
    assert Patch(s, off, Le(v, n))[off..off + n] == Le(v, n);
    UnLeLe(v, n);
  }

  lemma PatchOther(s: bytes, off: nat, b: bytes, o: nat, n: nat)
    requires off + |b| <= |s| && o + n <= |s|
    requires o + n <= off || off + |b| <= o
    ensures Patch(s, off, b)[o..o + n] == s[o..o + n]
  {
  }

  // ------------------------------------------------------------------ blocks

  /** Every block has the same size. */
  ghost predicate Uniform(blocks: seq<bytes>, size: nat) {
    forall i :: 0 <= i < |blocks| ==> |blocks[i]| == size
  }

  function Join(blocks: seq<bytes>): bytes {
    if blocks == [] then [] else blocks[0] + Join(blocks[1..])
  }

  /** The blob cut into n blocks of the given size. */
  function Cut(blob: bytes, size: nat, n: nat): (r: seq<bytes>)
    requires n * size <= |blob|
    ensures |r| == n
  {
    if n == 0 then [] else [blob[..size]] + Cut(blob[size..], size, n - 1)
  }

  lemma {:induction false} JoinLength(blocks: seq<bytes>, size: nat)
    requires Uniform(blocks, size)
    ensures |Join(blocks)| == |blocks| * size
  {
    if blocks != [] {
      JoinLength(blocks[1..], size);
      assert |blocks| * size == size + (|blocks| - 1) * size;
    }
  }

  lemma ConcatAssociative(a: bytes, b: bytes, c: bytes)
    ensures a + b + c == a + (b + c)
  {
  }

  lemma JoinStep(a: seq<bytes>)
    requires a != []
    ensures Join(a) == a[0] + Join(a[1..])
  {
  }

  lemma {:induction false} JoinAppend(a: seq<bytes>, b: seq<bytes>)
    ensures Join(a + b) == Join(a) + Join(b)
  {
    if a == [] {
      assert a + b == b;
    } else {
      var ab := a + b;
      JoinStep(a);
      JoinStep(ab);
      hide Join;
      assert ab[0] == a[0] && ab[1..] == a[1..] + b;
      JoinAppend(a[1..], b);
      ConcatAssociative(a[0], Join(a[1..]), Join(b));
    }
  }

  lemma {:induction false} MulStep(k: nat, n: nat, size: nat)
    requires k < n
    ensures (k + 1) * size == k * size + size
    ensures 0 <= k * size && k * size + size <= n * size
    decreases n
  {
    if k + 1 < n {
      MulStep(k, n - 1, size);
      assert n * size == (n - 1) * size + size;
    }
  }

  lemma {:induction false} CutBlock(blob: bytes, size: nat, n: nat, k: nat, at: nat)
    requires n * size <= |blob| && k < n && at == k * size
    ensures at + size <= |blob|
    ensures Cut(blob, size, n)[k] == blob[at..at + size]
    decreases n
  {
    MulStep(k, n, size);
    if k > 0 {
      MulStep(n - 1, n, size);
      MulStep(k - 1, n, size);
      CutBlock(blob[size..], size, n - 1, k - 1, at - size);
      assert blob[size..][at - size..at] == blob[at..at + size];
    }
  }

  lemma {:induction false} JoinCut(blob: bytes, size: nat, n: nat)
    requires |blob| == n * size
    ensures Join(Cut(blob, size, n)) == blob
  {
    if n != 0 {
      assert n * size == size + (n - 1) * size;
      JoinCut(blob[size..], size, n - 1);
    }
  }

  // -------------------------------------------------------- tables of numbers

  /** A table of 32-bit entries as it is laid out on disk. */
  function Pack32(table: seq<nat>): (b: bytes)
    ensures |b| == 4 * |table|
  {
    if table == [] then [] else Le(table[0], 4) + Pack32(table[1..])
  }

  /** The 32-bit entries of a blob whose length is a multiple of four. */
  function Unpack32(b: bytes): (table: seq<nat>)
    requires |b| % 4 == 0
    ensures |table| == |b| / 4
  {
    if b == [] then [] else [UnLe(b[..4])] + Unpack32(b[4..])
  }

  lemma {:induction false} UnpackPack32(table: seq<nat>)
    requires forall i :: 0 <= i < |table| ==> table[i] < 0x1_0000_0000
    ensures Unpack32(Pack32(table)) == table
  {
    if table != [] {
      Pow256Values();
      UnLeLe(table[0], 4);
      UnpackPack32(table[1..]);
      assert Pack32(table)[..4] == Le(table[0], 4);
      assert Pack32(table)[4..] == Pack32(table[1..]);
    }
  }

  lemma Pack32Step(table: seq<nat>)
    requires table != []
    ensures Pack32(table) == Le(table[0], 4) + Pack32(table[1..])
  {
  }

  lemma {:induction false} Pack32Append(a: seq<nat>, b: seq<nat>)
    ensures Pack32(a + b) == Pack32(a) + Pack32(b)
  {
    if a == [] {
      assert a + b == b;
    } else {
      var ab := a + b;
      Pack32Step(a);
      Pack32Step(ab);
      hide Pack32, Le;
      assert ab[0] == a[0] && ab[1..] == a[1..] + b;
      Pack32Append(a[1..], b);
      ConcatAssociative(Le(a[0], 4), Pack32(a[1..]), Pack32(b));
    }
  }
}
