// The parts of a multipart upload, as both the synchronous and the asynchronous
// handlers see them: files, and form fields.

module Uploads {
  import opened Bytes
  import opened Spool

  const MAX_FORM_FIELD_BYTES: nat := 1048576

  /** A part of a multipart body; a part with a file name is a file. */
  datatype FormPart = FilePart(filename: string, declared: string, body: Source) | Field(name: string, body: Source)

  /** What a request says of a file, besides its body. */
  datatype BlobRef = BlobRef(filename: string, contentType: string, size: nat)

  /** What an engine is handed besides the bodies. */
  datatype Request = Request(options: map<string, bytes>, files: seq<BlobRef>)

  function FilesOf(parts: seq<FormPart>): (fs: seq<FormPart>)
    ensures |fs| <= |parts| && forall i :: 0 <= i < |fs| ==> fs[i].FilePart?
  {
    if parts == [] then [] else
      var before, last := FilesOf(parts[..|parts| - 1]), parts[|parts| - 1];
      if last.FilePart? then before + [last] else before
  }

  /** Later fields replace earlier ones. */
  function OptionsOf(parts: seq<FormPart>): map<string, bytes> {
    if parts == [] then map[] else
      var before, last := OptionsOf(parts[..|parts| - 1]), parts[|parts| - 1];
      if last.Field? then before[last.name := last.body.data] else before
  }

  function DataOf(files: seq<FormPart>): (ds: seq<bytes>)
    ensures |ds| == |files| && forall i :: 0 <= i < |files| ==> ds[i] == files[i].body.data
  {
    seq(|files|, i requires 0 <= i < |files| => files[i].body.data)
  }

  function SourcesOf(files: seq<FormPart>): (ss: seq<Source>)
    ensures |ss| == |files| && forall i :: 0 <= i < |files| ==> ss[i] == files[i].body
  {
    seq(|files|, i requires 0 <= i < |files| => files[i].body)
  }

  predicate Fits(data: bytes, maxBytes: int) {
    maxBytes <= 0 || |data| <= maxBytes
  }

  /** Within its cap: the given one for a file, a mebibyte for a field. */
  predicate PartFits(p: FormPart, maxBlob: int) {
    if p.FilePart? then Fits(p.body.data, maxBlob) else |p.body.data| <= MAX_FORM_FIELD_BYTES
  }

  /** Neither the source nor the disk fails. */
  ghost predicate Sound(part: Source, disk: Disk) {
    part.failAt == None && disk.Healthy()
  }

  ghost predicate AllSound(parts: seq<FormPart>, disk: Disk) {
    forall i :: 0 <= i < |parts| ==> Sound(parts[i].body, disk)
  }

  ghost predicate AllFit(parts: seq<FormPart>, maxBytes: int) {
    forall i :: 0 <= i < |parts| ==> PartFits(parts[i], maxBytes)
  }

  /** The first n parts fit, if nothing fails. */
  ghost predicate FitSoFar(parts: seq<FormPart>, disk: Disk, n: nat, maxBytes: int)
    requires n <= |parts|
  {
    AllSound(parts, disk) ==> forall i :: 0 <= i < n ==> PartFits(parts[i], maxBytes)
  }

  lemma OneMoreFits(parts: seq<FormPart>, disk: Disk, n: nat, maxBytes: int, ok: bool)
    requires n < |parts| && FitSoFar(parts, disk, n, maxBytes)
    requires Sound(parts[n].body, disk) ==> (ok <==> PartFits(parts[n], maxBytes))
    ensures ok ==> FitSoFar(parts, disk, n + 1, maxBytes)
    ensures !ok && AllSound(parts, disk) ==> !AllFit(parts, maxBytes)
  {
    hide PartFits, Sound;
  }

  ghost function Bodies(parts: seq<FormPart>): set<Source> {
    set i | 0 <= i < |parts| :: parts[i].body
  }

  /** The parts have bodies of their own, and from n on nothing has been read. */
  ghost predicate Untouched(parts: seq<FormPart>, n: nat)
    requires n <= |parts|
    reads Bodies(parts)
  {
    && (forall i, j :: 0 <= i < j < |parts| ==> parts[i].body != parts[j].body)
    && (forall i :: n <= i < |parts| ==> parts[i].body.pos == 0)
  }

  /** The files among the first n parts are the first files. */
  lemma {:induction false} FilesPrefix(parts: seq<FormPart>, n: nat)
    requires n <= |parts|
    ensures FilesOf(parts[..n]) <= FilesOf(parts)
    decreases |parts| - n
  {
    if n == |parts| {
      assert parts[..n] == parts;
    } else {
      FilesPrefix(parts, n + 1);
      FilesStep(parts, n);
    }
  }

  lemma FilesStep(parts: seq<FormPart>, n: nat)
    requires n < |parts|
    ensures FilesOf(parts[..n + 1]) == FilesOf(parts[..n]) + if parts[n].FilePart? then [parts[n]] else []
    ensures OptionsOf(parts[..n + 1]) ==
              if parts[n].Field? then OptionsOf(parts[..n])[parts[n].name := parts[n].body.data] else OptionsOf(parts[..n])
  {
    assert parts[..n + 1][..n] == parts[..n];
  }

  /** Part n, when it is a file, is the next file. */
  lemma NextFile(parts: seq<FormPart>, n: nat)
    requires n < |parts| && parts[n].FilePart?
    ensures |FilesOf(parts[..n])| < |FilesOf(parts)| && FilesOf(parts)[|FilesOf(parts[..n])|] == parts[n]
  {
    FilesStep(parts, n);
    FilesPrefix(parts, n + 1);
  }

  /** A form field, whole, or None when it is over its cap or breaks. */
  method ReadField(body: Source) returns (data: Option<bytes>)
    requires body.pos == 0
    modifies body
    ensures data.Some? ==> data.value == body.data && |body.data| <= 1048576
    ensures body.failAt == None ==> (data.Some? <==> |body.data| <= 1048576)
  {
    var b, broken := CopyUpTo(body, MAX_FORM_FIELD_BYTES + 1);
    data := if broken || |b| > MAX_FORM_FIELD_BYTES then None else Some(b);
  }

  // ----------------------------------------------- what the collections mean

  /** The number of files in a list of parts. */
  function FileCount(parts: seq<FormPart>): nat {
    if parts == [] then 0 else (if parts[0].FilePart? then 1 else 0) + FileCount(parts[1..])
  }

  lemma {:induction false} FileCountGrows(parts: seq<FormPart>, n: nat)
    requires n < |parts|
    ensures FileCount(parts[..n + 1]) == FileCount(parts[..n]) + if parts[n].FilePart? then 1 else 0
  {
    if n > 0 {
      FileCountGrows(parts[1..], n - 1);
      assert parts[1..][..n] == parts[..n + 1][1..] && parts[1..][..n - 1] == parts[..n][1..];
    }
  }

  lemma {:induction false} CountOfFiles(parts: seq<FormPart>, n: nat)
    requires n <= |parts|
    ensures |FilesOf(parts[..n])| == FileCount(parts[..n])
  {
    if n > 0 {
      CountOfFiles(parts, n - 1);
      FileCountGrows(parts, n - 1);
      FilesStep(parts, n - 1);
    }
  }

  /** The files are the file parts, each as often as it occurs and in the order of the
      request: part n is the file whose number is the count of files before it. */
  lemma FilesInOrder(parts: seq<FormPart>, n: nat)
    requires n < |parts|
    ensures |FilesOf(parts)| == FileCount(parts)
    ensures parts[n].FilePart? ==> FileCount(parts[..n]) < |FilesOf(parts)| && FilesOf(parts)[FileCount(parts[..n])] == parts[n]
  {
    CountOfFiles(parts, |parts|);
    assert parts[..|parts|] == parts;
    CountOfFiles(parts, n);
    if parts[n].FilePart? {
      NextFile(parts, n);
    }
  }

  predicate IsLastField(parts: seq<FormPart>, name: string, n: int) {
    && 0 <= n < |parts| && parts[n].Field? && parts[n].name == name
    && forall m :: n < m < |parts| ==> !(parts[m].Field? && parts[m].name == name)
  }

  /** A name is an option exactly when some field has it, and its value is the data of
      the last one that has. */
  lemma {:induction false} OptionsAreLast(parts: seq<FormPart>, name: string)
    ensures name in OptionsOf(parts) <==> exists n :: 0 <= n < |parts| && parts[n].Field? && parts[n].name == name
    ensures name in OptionsOf(parts) ==> exists n :: IsLastField(parts, name, n) && OptionsOf(parts)[name] == parts[n].body.data
  {
    if parts != [] {
      var k := |parts| - 1;
      var init := parts[..k];
      OptionsAreLast(init, name);
      if parts[k].Field? && parts[k].name == name {
        assert IsLastField(parts, name, k);
      } else {
        if name in OptionsOf(init) {
          var n :| IsLastField(init, name, n) && OptionsOf(init)[name] == init[n].body.data;
          assert IsLastField(parts, name, n) && parts[n] == init[n];
        }
        if n :| 0 <= n < |parts| && parts[n].Field? && parts[n].name == name {
          assert init[n] == parts[n];
        }
      }
    }
  }
}
