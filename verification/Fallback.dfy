// Dispatching a conversion (handle in internal/transport/http/handlers/
// convert.go, with fallback.go and mime_resolve.go): the head of every body is
// peeked and the body rewound; a primary engine may consume any part of any
// body and fail; a retry on the default engine starts with whole bodies.

module Fallback {
  import opened Bytes
  import opened Spool
  import opened Uploads

  const SNIFF_HEAD_BYTES: nat := 512

  // ---------------------------------------------------------------- requests

  /** The files under a request's bodies; null for a body in memory. */
  type Files = seq<TempFile?>

  ghost function NonNull(files: Files): (r: set<object>)
    ensures forall o :: o in r ==> o is TempFile
  {
    set i | 0 <= i < |files| && files[i] != null :: files[i] as object
  }

  ghost predicate HealthyFile(f: TempFile?) {
    f != null ==> forall n :: !f.faults(n)
  }

  ghost predicate HealthyFiles(files: Files) {
    forall i :: 0 <= i < |files| ==> HealthyFile(files[i])
  }

  /** The bodies are open readers over these files that share no state, and hold
      these contents. */
  ghost predicate Holds(bodies: seq<Reader>, files: Files, contents: seq<bytes>)
    reads bodies, NonNull(files)
  {
    && |files| == |contents| == |bodies|
    && (forall i, j :: 0 <= i < j < |bodies| ==> bodies[i] != bodies[j] && (files[i] != null ==> files[i] != files[j]))
    && (forall i :: 0 <= i < |bodies| ==> HoldsOne(bodies[i], files[i], contents[i]))
  }

  ghost predicate HoldsOne(r: Reader, f: TempFile?, content: bytes)
    reads r, f
  {
    r.Valid() && !r.closed && r.file == f && r.Contents() == content
  }

  ghost function OffsetOf(r: Reader, f: TempFile?): nat
    reads r, f
  {
    if r.memBuf.Some? then r.memPos else if f != null then f.pos else 0
  }

  /** Where the bodies stand. */
  ghost function Offsets(bodies: seq<Reader>, files: Files): (r: seq<nat>)
    requires |files| == |bodies|
    reads bodies, NonNull(files)
    ensures |r| == |bodies| && forall i :: 0 <= i < |bodies| ==> r[i] == OffsetOf(bodies[i], files[i])
  {
    seq(|bodies|, i requires 0 <= i < |bodies| reads bodies, NonNull(files) => OffsetOf(bodies[i], files[i]))
  }

  /** peekAndResolveMIME: reads up to 512 bytes (in pieces, as io.ReadFull may)
      and rewinds; None when the rewind is refused. */
  method PeekHead(r: Reader) returns (head: Option<bytes>)
    requires r.Valid() && !r.closed && r.Offset() == 0
    modifies r.Repr()
    ensures r.Valid() && !r.closed && r.file == old(r.file) && r.Contents() == old(r.Contents())
    ensures head.Some? ==>
              && r.Offset() == 0 && head.value <= r.Contents()
              && |head.value| == if |r.Contents()| < 512 then |r.Contents()| else 512
    ensures r.file == null || (forall n :: !r.file.faults(n)) ==> head.Some?
  {
    var b := [];
    while |b| < SNIFF_HEAD_BYTES
      invariant r.Valid() && !r.closed && r.file == old(r.file) && r.Contents() == old(r.Contents())
      invariant r.Offset() == |b| <= |r.Contents()| && |b| <= SNIFF_HEAD_BYTES && b == r.Contents()[..|b|]
      decreases SNIFF_HEAD_BYTES - |b|
    {
      var p := r.Read(SNIFF_HEAD_BYTES - |b|);
      if p.value == [] {
        break;
      }
      b := b + p.value;
    }
    var ok := r.Seek(0, Start);
    head := if ok then Some(b) else None;
  }

  // ----------------------------------------------------------------- engines

  /** What an engine answers: nothing but an error, or a response. */
  datatype Reply = Fails | Status(code: nat, body: bytes)

  class Response {
    const code: nat
    const body: bytes
    /** How much of the body has been read. */
    var at: nat
    var open: bool

    constructor (code: nat, body: bytes)
      ensures this.code == code && this.body == body && at == 0 && open
    {
      this.code, this.body, at, open := code, body, 0, true;
    }

    /** Open, with all of the reply's body still to be read. */
    ghost predicate Untouched(reply: Reply)
      reads this
    {
      reply == Status(code, body) && at == 0 && open
    }

    /** io.Copy to the client: what has not been read. */
    method Copy() returns (sent: bytes)
      requires open && at <= |body|
      modifies this`at
      ensures sent == body[old(at)..] && at == |body|
    {
      sent := body[at..];
      at := |body|;
    }

    method Close()
      modifies this`open
      ensures !open
    {
      open := false;
    }
  }

  /** An engine call: the request, where the bodies stood when it began, and what they
      held. */
  datatype Call = Call(engine: Engine, request: Request, handed: seq<nat>, held: seq<bytes>)

  /** One body is read or moved; the others stand where they stood. */
  method ReadOne(bodies: seq<Reader>, i: nat, k: nat, ghost files: Files, ghost contents: seq<bytes>)
    requires Holds(bodies, files, contents) && i < |bodies|
    modifies bodies, NonNull(files)
    ensures Holds(bodies, files, contents)
  {
    assert HoldsOne(bodies[i], files[i], contents[i]);
    var _ := bodies[i].Read(k);
  }

  /** An engine, as one request sees it: how far it reads into each body before it
      stops, and its reply. No request calls an engine twice. */
  class Engine {
    const appetite: nat -> nat
    const reply: Reply

    constructor (appetite: nat -> nat, reply: Reply)
      ensures this.appetite == appetite && this.reply == reply
    {
      this.appetite, this.reply := appetite, reply;
    }

    /** Convert: reads appetite(i) bytes of body i, then answers. */
    method Convert(request: Request, bodies: seq<Reader>, ghost files: Files, ghost contents: seq<bytes>)
      returns (resp: Response?, ghost call: Call)
      requires Holds(bodies, files, contents)
      modifies bodies, NonNull(files)
      ensures Holds(bodies, files, contents)
      ensures call == Call(this, request, old(Offsets(bodies, files)), contents)
      ensures resp == null <==> reply.Fails?
      ensures resp != null ==> fresh(resp) && resp.Untouched(reply)
    {
      call := Call(this, request, Offsets(bodies, files), contents);
      for i := 0 to |bodies|
        invariant Holds(bodies, files, contents)
      {
        ReadOne(bodies, i, appetite(i), files, contents);
      }
      if reply.Fails? {
        resp := null;
      } else {
        resp := new Response(reply.code, reply.body);
      }
    }
  }

  // ---------------------------------------------------------------- fallback

  /** What the client is sent for a reply: the status, and the body unless the handler
      writes an error text of its own. */
  datatype Sent = Sent(status: nat, body: Option<bytes>)

  function SentFor(reply: Reply): Sent {
    if reply.Fails? then Sent(502, None) else Sent(reply.code, Some(reply.body))
  }

  /** The end of a handler: an error, or a copy of the response, which is then closed. */
  method Send(response: Response?, ghost reply: Reply) returns (sent: Sent)
    requires response == null <==> reply.Fails?
    requires response != null ==> response.Untouched(reply)
    modifies if response == null then {} else {response}
    ensures reply.Fails? ==> sent == Sent(502, None)
    ensures reply.Status? ==> sent == Sent(reply.code, Some(reply.body)) && !response.open
  {
    if response == null {
      sent := Sent(502, None);
    } else {
      var body := response.Copy();
      sent := Sent(response.code, Some(body));
      response.Close();
    }
  }

  /** fallbackEligible: a transport error, or a status of 500 or more. */
  predicate Eligible(reply: Reply) {
    reply.Fails? || reply.code >= 500
  }

  /** rewindFiles: seeks every body to its start, until one refuses. */
  method RewindFiles(bodies: seq<Reader>, ghost files: Files, ghost contents: seq<bytes>) returns (ok: bool)
    requires Holds(bodies, files, contents)
    modifies bodies, NonNull(files)
    ensures Holds(bodies, files, contents)
    ensures ok ==> forall i :: 0 <= i < |bodies| ==> Offsets(bodies, files)[i] == 0
    ensures HealthyFiles(files) ==> ok
  {
    for i := 0 to |bodies|
      invariant Holds(bodies, files, contents)
      invariant forall k :: 0 <= k < i ==> OffsetOf(bodies[k], files[k]) == 0
    {
      ok := SeekOne(bodies, i, files, contents);
      if !ok {
        return;
      }
    }
    ok := true;
  }

  method SeekOne(bodies: seq<Reader>, i: nat, ghost files: Files, ghost contents: seq<bytes>) returns (ok: bool)
    requires Holds(bodies, files, contents) && i < |bodies|
    modifies bodies, NonNull(files)
    ensures Holds(bodies, files, contents)
    ensures ok ==> OffsetOf(bodies[i], files[i]) == 0
    ensures forall k :: 0 <= k < |bodies| && k != i ==> OffsetOf(bodies[k], files[k]) == old(OffsetOf(bodies[k], files[k]))
    ensures HealthyFile(files[i]) ==> ok
  {
    assert HoldsOne(bodies[i], files[i], contents[i]);
    ok := bodies[i].Seek(0, Start);
  }

  /** handle from the first Convert to the answer: a single retry on the default
      engine, when it is enabled, the first answer warrants it, the primary is
      another engine and every body rewinds. calls lists the engine calls; first is
      the primary's response. The response that is returned is open and unread,
      be it the second, or the first because nothing warrants a retry or because
      some body does not rewind; a first one that gives way is closed. */
  method Dispatch(primary: Engine, default: Engine, fallback: bool, request: Request,
                  bodies: seq<Reader>, ghost files: Files, ghost contents: seq<bytes>)
    returns (response: Response?, first: Response?, ghost calls: seq<Call>)
    requires Holds(bodies, files, contents)
    requires forall i :: 0 <= i < |bodies| ==> Offsets(bodies, files)[i] == 0
    modifies bodies, NonNull(files)
    ensures Holds(bodies, files, contents)
    ensures 1 <= |calls| <= 2 && calls[0].engine == primary
    ensures forall c :: 0 <= c < |calls| ==> calls[c] == Call(calls[c].engine, request, seq(|bodies|, _ => 0), contents)
    ensures |calls| == 2 ==>
              && fallback && primary != default && calls[1].engine == default
              && (primary.reply.Fails? || primary.reply.code >= 500)
    ensures fallback && primary != default && (primary.reply.Fails? || primary.reply.code >= 500) && HealthyFiles(files) ==> |calls| == 2
    ensures first == null <==> primary.reply.Fails?
    ensures (first != null ==> fresh(first)) && (response != null ==> fresh(response))
    ensures |calls| == 1 ==> response == first
    ensures |calls| == 2 && first != null ==> first != response && !first.open && first.at == 0
    ensures response == null <==> calls[|calls| - 1].engine.reply.Fails?
    ensures response != null ==> response.Untouched(calls[|calls| - 1].engine.reply)
  {
    ghost var call;
    first, call := primary.Convert(request, bodies, files, contents);
    assert call.handed == seq(|bodies|, _ => 0);
    response, calls := first, [call];
    if fallback && (first == null || first.code >= 500) && primary != default {
      var rewound := RewindFiles(bodies, files, contents);
      if rewound {
        if first != null {
          first.Close();
        }
        response, call := default.Convert(request, bodies, files, contents);
        assert call.handed == seq(|bodies|, _ => 0);
        calls := calls + [call];
      }
    }
  }

  // -------------------------------------------------------- building requests

  ghost function FileSet(files: Files): set<TempFile> {
    set i | 0 <= i < |files| && files[i] != null :: files[i]
  }

  /** The files among the first n that have a directory entry. */
  ghost function LinkedSet(bodies: seq<Reader>, files: Files): (r: set<TempFile>)
    requires |files| == |bodies|
    ensures r <= FileSet(files)
  {
    set i | 0 <= i < |files| && files[i] != null && bodies[i].hasPath :: files[i]
  }

  /** The cleanup callback: every reader made so far is closed. */
  method CloseAll(bodies: seq<Reader>, disk: Disk, ghost files: Files, ghost contents: seq<bytes>)
    requires Holds(bodies, files, contents) && forall i :: 0 <= i < |bodies| ==> bodies[i].disk == disk
    modifies bodies, disk
    ensures disk.open == old(disk.open) - FileSet(files)
    ensures disk.linked == old(disk.linked) - LinkedSet(bodies, files)
  {
    for i := 0 to |bodies|
      invariant forall k :: i <= k < |bodies| ==> bodies[k].Valid() && !bodies[k].closed && bodies[k].file == files[k]
      invariant disk.open == old(disk.open) - FileSet(files[..i])
      invariant disk.linked == old(disk.linked) - LinkedSet(bodies[..i], files[..i])
    {
      bodies[i].Close();
      OneMoreFile(bodies, files, i);
    }
    assert files[..|bodies|] == files && bodies[..|bodies|] == bodies;
  }

  lemma OneMoreFile(bodies: seq<Reader>, files: Files, i: nat)
    requires i < |bodies| == |files|
    ensures FileSet(files[..i + 1]) == FileSet(files[..i]) + if files[i] == null then {} else {files[i]}
    ensures LinkedSet(bodies[..i + 1], files[..i + 1])
         == LinkedSet(bodies[..i], files[..i]) + if files[i] == null || !bodies[i].hasPath then {} else {files[i]}
  {
    var fs, bs := files[..i + 1], bodies[..i + 1];
    assert forall k :: 0 <= k < i ==> fs[k] == files[..i][k] == files[k];
    assert forall k :: 0 <= k < i ==> bs[k] == bodies[..i][k] == bodies[k];
    assert fs[i] == files[i] && bs[i] == bodies[i];
  }

  /** The head of a body, as it is handed to MIME resolution. */
  function Head(content: bytes): (r: bytes)
    ensures r <= content && |r| == if |content| <= 512 then |content| else 512
  {
    content[..Min(SNIFF_HEAD_BYTES, |content|)]
  }

  /** Everything that the request builder keeps true about the bodies so far. */
  ghost predicate Built(bodies: seq<Reader>, files: Files, contents: seq<bytes>, heads: seq<bytes>, parts: seq<Source>, disk: Disk)
    reads bodies, NonNull(files)
  {
    && Holds(bodies, files, contents) && |bodies| == |heads| <= |parts|
    && (forall i :: 0 <= i < |bodies| ==>
         && bodies[i].disk == disk && contents[i] == parts[i].data && heads[i] == Head(contents[i]) && bodies[i].size == |contents[i]|
         && (files[i] != null ==> files[i].faults == disk.faults)
         && OffsetOf(bodies[i], files[i]) == 0)
  }

  lemma BuiltOneMore(bodies: seq<Reader>, files: Files, contents: seq<bytes>, heads: seq<bytes>, parts: seq<Source>, disk: Disk,
                     r: Reader, f: TempFile?, content: bytes, head: bytes)
    requires Built(bodies, files, contents, heads, parts, disk) && |bodies| < |parts|
    requires r !in bodies && (f != null ==> f !in files)
    requires HoldsOne(r, f, content) && r.disk == disk && content == parts[|bodies|].data && head == Head(content) && OffsetOf(r, f) == 0
    requires r.size == |content| && (f != null ==> f.faults == disk.faults)
    ensures Built(bodies + [r], files + [f], contents + [content], heads + [head], parts, disk)
  {
    var bs, fs, cs, hs := bodies + [r], files + [f], contents + [content], heads + [head];
    forall i | 0 <= i < |bs| ensures HoldsOne(bs[i], fs[i], cs[i]) && bs[i].disk == disk && cs[i] == parts[i].data && hs[i] == Head(cs[i])
        && bs[i].size == |cs[i]| && (fs[i] != null ==> fs[i].faults == disk.faults) && OffsetOf(bs[i], fs[i]) == 0 {
      if i < |bodies| {
        assert HoldsOne(bodies[i], files[i], contents[i]);
      }
    }
  }

  /** One file part: spooled, peeked and rewound. When either fails, nothing of
      this part stays open (the builder's cleanup has the reader among its
      closers by then). */
  method StageOne(part: Source, disk: Disk, maxBytes: int) returns (r: Reader?, head: bytes)
    requires part.pos == 0
    modifies part, disk
    ensures Sound(part, disk) ==> (r != null <==> Fits(part.data, maxBytes))
    ensures r == null ==> disk.open == old(disk.open) && disk.linked == old(disk.linked)
    ensures r != null ==>
              && fresh(r) && (r.file != null ==> fresh(r.file) && r.file.faults == disk.faults)
              && HoldsOne(r, r.file, part.data) && r.disk == disk && r.size == |part.data| && head == Head(part.data) && OffsetOf(r, r.file) == 0
              && disk.open == old(disk.open) + (if r.file == null then {} else {r.file})
              && disk.linked == old(disk.linked) + (if r.file == null || !r.hasPath then {} else {r.file})
  {
    assert part.Rest() == part.data;
    var staged := Part(part, THRESHOLD_DEFAULT, maxBytes, disk);
    if !staged.Staged? {
      return null, [];
    }
    r := staged.reader;
    var peeked := PeekHead(r);
    if peeked.None? {
      r.Close();
      return null, [];
    }
    head := peeked.value;
  }

  /** disk has exactly these files open and linked beyond what it had. */
  ghost predicate Opened(disk: Disk, open0: set<TempFile>, linked0: set<TempFile>, bodies: seq<Reader>, files: Files)
    requires |files| == |bodies|
    reads disk
  {
    disk.open == open0 + FileSet(files) && disk.linked == linked0 + LinkedSet(bodies, files)
  }

  lemma OpenedOneMore(bodies: seq<Reader>, files: Files, r: Reader, f: TempFile?)
    requires |files| == |bodies|
    ensures FileSet(files + [f]) == FileSet(files) + if f == null then {} else {f}
    ensures LinkedSet(bodies + [r], files + [f]) == LinkedSet(bodies, files) + if f == null || !r.hasPath then {} else {f}
  {
    hide FileSet, LinkedSet;
    var n := |bodies|;
    OneMoreFile(bodies + [r], files + [f], n);
    assert (files + [f])[..n + 1] == files + [f] && (bodies + [r])[..n + 1] == bodies + [r];
    assert (files + [f])[..n] == files && (bodies + [r])[..n] == bodies;
  }

  lemma BuiltIsHealthy(bodies: seq<Reader>, files: Files, contents: seq<bytes>, heads: seq<bytes>, parts: seq<Source>, disk: Disk)
    requires Built(bodies, files, contents, heads, parts, disk)
    ensures disk.Healthy() ==> HealthyFiles(files)
  {
  }

  lemma BuiltHolds(bodies: seq<Reader>, files: Files, contents: seq<bytes>, heads: seq<bytes>, parts: seq<Source>, disk: Disk)
    requires Built(bodies, files, contents, heads, parts, disk)
    ensures Holds(bodies, files, contents) && forall i :: 0 <= i < |bodies| ==> bodies[i].disk == disk
  {
  }

  /** One iteration of the loop over the parts; on failure the cleanup runs. */
  method AddPart(parts: seq<Source>, disk: Disk, maxBytes: int, bodies: seq<Reader>, heads: seq<bytes>,
                 ghost files: Files, ghost contents: seq<bytes>, ghost open0: set<TempFile>, ghost linked0: set<TempFile>)
    returns (r: Reader?, head: bytes, ghost f: TempFile?)
    requires Built(bodies, files, contents, heads, parts, disk) && |bodies| == |files| < |parts| && parts[|bodies|].pos == 0
    requires Opened(disk, open0, linked0, bodies, files) && open0 !! FileSet(files) && linked0 !! FileSet(files)
    modifies parts[|bodies|], disk, bodies
    ensures Sound(parts[|bodies|], disk) ==> (r != null <==> Fits(parts[|bodies|].data, maxBytes))
    ensures r == null ==> disk.open == open0 && disk.linked == linked0
    ensures r != null ==> fresh(r) && (f != null ==> fresh(f)) && Opened(disk, open0, linked0, bodies + [r], files + [f])
    ensures r != null ==>
              Built(bodies + [r], files + [f], contents + [parts[|bodies|].data], heads + [head], parts, disk)
  {
    hide FileSet, LinkedSet, HoldsOne, OffsetOf;
    f := null;
    r, head := StageOne(parts[|bodies|], disk, maxBytes);
    if r == null {
      BuiltHolds(bodies, files, contents, heads, parts, disk);
      CloseAll(bodies, disk, files, contents);
      return;
    }
    f := r.file;
    BuiltOneMore(bodies, files, contents, heads, parts, disk, r, f, parts[|bodies|].data, head);
    OpenedOneMore(bodies, files, r, f);
  }

  lemma NonNullMore(files: Files, f: TempFile?)
    ensures NonNull(files + [f]) == NonNull(files) + if f == null then {} else {f as object}
  {
    var fs := files + [f];
    assert fs[|files|] == f;
    assert forall k :: 0 <= k < |files| ==> fs[k] == files[k];
  }

  lemma FileSetObjects(files: Files, before: set<TempFile>)
    requires forall g :: g in before ==> (g as object) !in NonNull(files)
    ensures before !! FileSet(files)
  {
  }

  /** Where the request builder stands after n parts. */
  ghost predicate Ready(parts: seq<FormPart>, n: nat, disk: Disk, open0: set<TempFile>, linked0: set<TempFile>,
                        bodies: seq<Reader>, heads: seq<bytes>, options: map<string, bytes>, files: Files, contents: seq<bytes>)
    requires n <= |parts|
    reads bodies, NonNull(files), disk
  {
    && Built(bodies, files, contents, heads, SourcesOf(FilesOf(parts)), disk)
    && |bodies| == |files| == |FilesOf(parts[..n])| && options == OptionsOf(parts[..n])
    && Opened(disk, open0, linked0, bodies, files)
  }

  lemma ReadyForFile(parts: seq<FormPart>, n: nat, bodies: seq<Reader>)
    requires n < |parts| && parts[n].FilePart? && |bodies| == |FilesOf(parts[..n])|
    ensures |bodies| < |SourcesOf(FilesOf(parts))| && SourcesOf(FilesOf(parts))[|bodies|] == parts[n].body
  {
    NextFile(parts, n);
  }

  /** A file part: staged and added, or everything released. */
  method TakeFile(parts: seq<FormPart>, n: nat, disk: Disk, maxBytes: int, bodies: seq<Reader>, heads: seq<bytes>, options: map<string, bytes>,
                  ghost files: Files, ghost contents: seq<bytes>, ghost open0: set<TempFile>, ghost linked0: set<TempFile>)
    returns (r: Reader?, head: bytes, ghost f: TempFile?)
    requires n < |parts| && parts[n].FilePart? && parts[n].body.pos == 0
    requires Ready(parts, n, disk, open0, linked0, bodies, heads, options, files, contents)
    requires open0 !! FileSet(files) && linked0 !! FileSet(files)
    modifies parts[n].body, disk, bodies
    ensures Sound(parts[n].body, disk) ==> (r != null <==> PartFits(parts[n], maxBytes))
    ensures r == null ==> disk.open == open0 && disk.linked == linked0
    ensures r != null ==>
              && fresh(r) && (f != null ==> fresh(f))
              && Ready(parts, n + 1, disk, open0, linked0, bodies + [r], heads + [head], options, files + [f], contents + [parts[n].body.data])
  {
    hide Built, Opened, FileSet, LinkedSet, NonNull, Sound, Fits;
    ReadyForFile(parts, n, bodies);
    FilesStep(parts, n);
    r, head, f := AddPart(SourcesOf(FilesOf(parts)), disk, maxBytes, bodies, heads, files, contents, open0, linked0);
  }

  /** A form field: read, or everything released. */
  method TakeField(parts: seq<FormPart>, n: nat, disk: Disk, bodies: seq<Reader>, heads: seq<bytes>, options: map<string, bytes>,
                   ghost files: Files, ghost contents: seq<bytes>, ghost open0: set<TempFile>, ghost linked0: set<TempFile>)
    returns (data: Option<bytes>)
    requires n < |parts| && parts[n].Field? && parts[n].body.pos == 0
    requires Ready(parts, n, disk, open0, linked0, bodies, heads, options, files, contents)
    requires open0 !! FileSet(files) && linked0 !! FileSet(files)
    modifies parts[n].body, disk, bodies
    ensures parts[n].body.failAt == None ==> (data.Some? <==> |parts[n].body.data| <= MAX_FORM_FIELD_BYTES)
    ensures data.None? ==> disk.open == open0 && disk.linked == linked0
    ensures data.Some? ==>
              Ready(parts, n + 1, disk, open0, linked0, bodies, heads, options[parts[n].name := data.value], files, contents)
  {
    hide FileSet, LinkedSet, HoldsOne, OffsetOf;
    FilesStep(parts, n);
    data := ReadField(parts[n].body);
    if data.None? {
      BuiltHolds(bodies, files, contents, heads, SourcesOf(FilesOf(parts)), disk);
      CloseAll(bodies, disk, files, contents);
    }
  }

  lemma NothingReady(parts: seq<FormPart>, disk: Disk)
    ensures Ready(parts, 0, disk, disk.open, disk.linked, [], [], map[], [], [])
  {
  }

  /** One iteration of the loop over the parts. */
  method TakePart(parts: seq<FormPart>, n: nat, disk: Disk, maxBytes: int, bodies0: seq<Reader>, heads0: seq<bytes>, options0: map<string, bytes>,
                  ghost files0: Files, ghost contents0: seq<bytes>, ghost open0: set<TempFile>, ghost linked0: set<TempFile>)
    returns (bodies: seq<Reader>, heads: seq<bytes>, options: map<string, bytes>, ok: bool, ghost files: Files, ghost contents: seq<bytes>)
    requires n < |parts| && parts[n].body.pos == 0
    requires Ready(parts, n, disk, open0, linked0, bodies0, heads0, options0, files0, contents0)
    requires open0 !! FileSet(files0) && linked0 !! FileSet(files0)
    modifies parts[n].body, disk, bodies0
    ensures Sound(parts[n].body, disk) ==> (ok <==> PartFits(parts[n], maxBytes))
    ensures !ok ==> disk.open == open0 && disk.linked == linked0
    ensures ok ==> Ready(parts, n + 1, disk, open0, linked0, bodies, heads, options, files, contents)
    ensures ok ==> |bodies0| <= |bodies| && forall i :: 0 <= i < |bodies| ==> if i < |bodies0| then bodies[i] == bodies0[i] else fresh(bodies[i])
    ensures ok ==> fresh(NonNull(files) - NonNull(files0))
  {
    hide Ready, FileSet, NonNull, Fits;
    bodies, heads, options, files, contents := bodies0, heads0, options0, files0, contents0;
    if parts[n].FilePart? {
      ghost var f;
      var r, head;
      r, head, f := TakeFile(parts, n, disk, maxBytes, bodies, heads, options, files, contents, open0, linked0);
      ok := r != null;
      if ok {
        NonNullMore(files, f);
        bodies, heads, files, contents := bodies + [r], heads + [head], files + [f], contents + [parts[n].body.data];
      }
    } else {
      var data := TakeField(parts, n, disk, bodies, heads, options, files, contents, open0, linked0);
      ok := data.Some?;
      if ok {
        options := options[parts[n].name := data.value];
      }
    }
  }

  /** buildFileRequest: on success every file body is whole, rewound and apart from
      the others, and the options are the last of each field; on failure everything
      opened has been released. */
  method BuildFileRequest(parts: seq<FormPart>, disk: Disk, maxBytes: int)
    returns (bodies: seq<Reader>, heads: seq<bytes>, options: map<string, bytes>, ok: bool, ghost files: Files, ghost contents: seq<bytes>)
    requires Untouched(parts, 0)
    modifies Bodies(parts), disk
    ensures AllSound(parts, disk) ==> (ok <==> AllFit(parts, maxBytes))
    ensures !ok ==> disk.open == old(disk.open) && disk.linked == old(disk.linked)
    ensures ok ==> fresh(bodies) && fresh(NonNull(files))
    ensures ok ==> Ready(parts, |parts|, disk, old(disk.open), old(disk.linked), bodies, heads, options, files, contents)
  {
    bodies, heads, options, files, contents := [], [], map[], [], [];
    NothingReady(parts, disk);
    for n := 0 to |parts|
      invariant Untouched(parts, n)
      invariant FitSoFar(parts, disk, n, maxBytes)
      invariant Ready(parts, n, disk, old(disk.open), old(disk.linked), bodies, heads, options, files, contents)
      invariant forall i :: 0 <= i < |bodies| ==> fresh(bodies[i])
      invariant fresh(NonNull(files))
    {
      hide Ready, FileSet, NonNull, PartFits, Sound, FitSoFar, AllFit, AllSound;
      FileSetObjects(files, old(disk.open));
      FileSetObjects(files, old(disk.linked));
      bodies, heads, options, ok, files, contents :=
        TakePart(parts, n, disk, maxBytes, bodies, heads, options, files, contents, old(disk.open), old(disk.linked));
      OneMoreFits(parts, disk, n, maxBytes, ok);
      if !ok {
        return;
      }
    }
    ok := true;
  }
}
