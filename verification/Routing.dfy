// One upload, two ways in: the synchronous handlers (internal/transport/http/
// handlers/convert.go, external.go) and the asynchronous submitters (async.go,
// with internal/tasks/payload.go) stage, sniff and route it. Both are methods
// over the same staging code; both meet one specification of the route.

module Routing {
  import opened Bytes
  import opened Text
  import opened Mime
  import opened Spool
  import opened Uploads
  import F = Fallback
  import R = Registry

  // --------------------------------------------------------------- file names

  predicate Hex(c: char) {
    '0' <= c <= '9' || 'a' <= c <= 'f' || 'A' <= c <= 'F'
  }

  function HexValue(c: char): (v: nat)
    requires Hex(c)
    ensures v < 16
  {
    if c <= '9' then (c - '0') as nat else if c <= 'F' then (c - 'A') as nat + 10 else (c - 'a') as nat + 10
  }

  /** url.QueryUnescape. */
  function Unescape(s: string): Option<string> {
    if s == "" then Some("")
    else if s[0] == '%' then
      if |s| < 3 || !Hex(s[1]) || !Hex(s[2]) then None
      else
        var rest :- Unescape(s[3..]);
        Some([(16 * HexValue(s[1]) + HexValue(s[2])) as char] + rest)
    else
      var rest :- Unescape(s[1..]);
      Some([if s[0] == '+' then ' ' else s[0]] + rest)
  }

  lemma UnescapeNonEmpty(s: string)
    requires s != ""
    ensures Unescape(s) != Some("")
  {
  }

  predicate Printable(s: string) {
    forall i :: 0 <= i < |s| ==> ' ' <= s[i] <= '~'
  }

  const UPPER_HEX := "0123456789ABCDEF"
  const LOWER_HEX := "0123456789abcdef"

  /** A percent sign and the two hexadecimal digits of c, each in either case. */
  predicate IsEscape(e: string, c: char) {
    && c < 256 as char && |e| == 3 && e[0] == '%'
    && (e[1] == UPPER_HEX[c as int / 16] || e[1] == LOWER_HEX[c as int / 16])
    && (e[2] == UPPER_HEX[c as int % 16] || e[2] == LOWER_HEX[c as int % 16])
  }

  /** raw is an encoding of the name: each character as itself, other than a percent
      sign or a plus; or as an escape; or a blank as a plus. */
  predicate Encodes(raw: string, name: string) {
    if name == "" || raw == "" then raw == name
    else
      || (raw[0] == name[0] && raw[0] != '%' && raw[0] != '+' && Encodes(raw[1..], name[1..]))
      || (raw[0] == '+' && name[0] == ' ' && Encodes(raw[1..], name[1..]))
      || (|raw| >= 3 && IsEscape(raw[..3], name[0]) && Encodes(raw[3..], name[1..]))
  }

  lemma EscapeValue(e: string, c: char)
    requires IsEscape(e, c)
    ensures Hex(e[1]) && Hex(e[2]) && 16 * HexValue(e[1]) + HexValue(e[2]) == c as int
  {
    DigitValue(c as int / 16);
    DigitValue(c as int % 16);
  }

  lemma DigitValue(d: nat)
    requires d < 16
    ensures Hex(UPPER_HEX[d]) && HexValue(UPPER_HEX[d]) == d && Hex(LOWER_HEX[d]) && HexValue(LOWER_HEX[d]) == d
  {
    if d >= 10 {
      assert UPPER_HEX[d] == "ABCDEF"[d - 10] && LOWER_HEX[d] == "abcdef"[d - 10];
    }
  }

  /** Every encoding of a name decodes to it. */
  lemma {:induction false} UnescapeDecodes(raw: string, name: string)
    requires Encodes(raw, name)
    ensures Unescape(raw) == Some(name)
  {
    if name != "" && raw != "" {
      assert name == [name[0]] + name[1..];
      if raw[0] != '%' {
        UnescapeDecodes(raw[1..], name[1..]);
      } else {
        EscapeValue(raw[..3], name[0]);
        UnescapeDecodes(raw[3..], name[1..]);
      }
    }
  }

  /** So every encoding of a printable name, in the header, stands for that name; and
      what does not decode to one stands for "upload". */
  lemma NameIsDecoded(raw: string, name: string)
    ensures Encodes(raw, name) && name != "" && Printable(name) ==> NameOf(raw) == name
    ensures Unescape(raw).None? || Unescape(raw).value == "" || !Printable(Unescape(raw).value) ==> NameOf(raw) == "upload"
  {
    if Encodes(raw, name) {
      UnescapeDecodes(raw, name);
    }
  }

  /** The name that an X-Filename header stands for. */
  function NameOf(raw: string): string {
    match Unescape(raw)
    case Some(name) => if name != "" && Printable(name) then name else "upload"
    case None => "upload"
  }

  /** decodeFilename: never empty, and nothing but printable ASCII. */
  method DecodeFilename(raw: string) returns (name: string)
    ensures name == NameOf(raw) && name != "" && Printable(name)
  {
    if raw == "" {
      return "upload";
    }
    UnescapeNonEmpty(raw);
    var dec := Unescape(raw);
    if dec.None? {
      return "upload";
    }
    for i := 0 to |dec.value|
      invariant forall k :: 0 <= k < i ==> ' ' <= dec.value[k] <= '~'
    {
      if dec.value[i] < ' ' || dec.value[i] > '~' {
        return "upload";
      }
    }
    name := dec.value;
  }

  // ------------------------------------------------------------ resolved types

  /** The injected resolver, or none in a handler that was not given one. */
  type Injected = Option<Resolver>

  /** peekAndResolveMIME: without a resolver, the built-in table. */
  function SyncType(r: Injected, detect: bytes -> string, declared: string, head: bytes, name: string): string {
    Resolve(if r.Some? then r.value else Resolver(Builtin()), detect, declared, head, name).mime
  }

  /** The submit path: without a resolver, what the client declared. */
  function AsyncType(r: Injected, detect: bytes -> string, declared: string, head: bytes, name: string): string {
    if r.Some? then Resolve(r.value, detect, declared, head, name).mime else declared
  }

  lemma BuiltinNamesSomething(k: string)
    requires k in Builtin()
    ensures !IsGeneric(Builtin()[k])
  {
    assert OCTET_STREAM[12] == 'o' && |OCTET_STREAM| == 24 && |"binary/octet-stream"| == 19;
    OoxmlIsLong();
  }

  lemma OoxmlIsLong()
    ensures |OOXML| > 24
  {
  }

  /** Without a resolver the two paths see one type, after the canonicalisation that
      routing does, exactly when the declared type says something, or is the octet
      stream and neither the body nor the name says more. The strings are equal when
      the declared type is canonical besides. */
  lemma NoResolverAgreesIff(detect: bytes -> string, declared: string, head: bytes, name: string)
    ensures var sync, asyncType := SyncType(None, detect, declared, head, name), AsyncType(None, detect, declared, head, name);
            var silent := Canonical(declared) == OCTET_STREAM && IsGeneric(Sniff(detect, head)) && Lookup(Resolver(Builtin()), name) == "";
            && (Canonical(asyncType) == sync <==> !IsGeneric(Canonical(declared)) || silent)
            && (asyncType == sync <==> (!IsGeneric(Canonical(declared)) || silent) && Canonical(declared) == declared)
  {
    hide Canonical, Sniff, Builtin, IsCfb, Extension, ToLower;
    var named := Lookup(Resolver(Builtin()), name);
    if named != "" {
      BuiltinNamesSomething(ToLower(Extension(name)));
    }
    CfbIsSomething(Sniff(detect, head));
    CanonicalIsCanonical(declared);
    BuiltinIsClean();
    ResolvedIsCanonical(Resolver(Builtin()), detect, declared, head, name);
  }

  lemma CfbIsSomething(s: string)
    ensures IsCfb(s) ==> !IsGeneric(s)
  {
  }

  // ------------------------------------------------------------------- reading

  /** io.Copy of a staged reader into a buffer. */
  method Drain(r: Reader) returns (b: bytes)
    requires r.Valid() && !r.closed && r.Offset() == 0
    modifies r.Repr()
    ensures r.Valid() && !r.closed && r.file == old(r.file) && r.Contents() == old(r.Contents())
    ensures b == r.Contents()
  {
    b := [];
    while true
      invariant r.Valid() && !r.closed && r.file == old(r.file) && r.Contents() == old(r.Contents())
      invariant r.Offset() == |b| <= |r.Contents()| && b == r.Contents()[..|b|]
      decreases |r.Contents()| - |b|
    {
      var p := r.Read(32768);
      if p.value == [] {
        break;
      }
      b := b + p.value;
    }
  }

  datatype Stage = Held(data: bytes) | Oversize | Unreadable

  /** Spool, drain and close: the submit path's way to hold a body. Nothing stays
      open, whatever happens. */
  method Buffer(body: Source, disk: Disk, maxBytes: int) returns (s: Stage)
    requires body.pos == 0
    modifies body, disk
    ensures disk.open == old(disk.open) && disk.linked == old(disk.linked)
    ensures s.Held? ==> s.data == body.data
    ensures Sound(body, disk) ==> s == if Fits(body.data, maxBytes) then Held(body.data) else Oversize
  {
    assert body.Rest() == body.data;
    var staged := Part(body, THRESHOLD_DEFAULT, maxBytes, disk);
    if staged.TooLarge? {
      return Oversize;
    }
    if staged.IoError? {
      return Unreadable;
    }
    var b := Drain(staged.reader);
    staged.reader.Close();
    s := Held(b);
  }

  // ----------------------------------------------------------------- adapters

  /** The running adapter of every registered engine. */
  type Adapters = map<R.Engine, F.Engine>

  predicate HasAdapters(t: R.Table, adapters: Adapters) {
    t.default in adapters && forall i :: 0 <= i < |t.pickOrder| ==> t.pickOrder[i].engine in adapters
  }

  lemma {:induction false} ScanHasAdapter(t: R.Table, adapters: Adapters, k: nat, facade: R.Facade, phase: R.Phase, mime: string, ext: string)
    requires HasAdapters(t, adapters) && k <= |t.pickOrder|
    ensures var found := R.Scan(t.pickOrder[k..], facade, phase, mime, ext); found.Some? ==> found.value in adapters
    decreases |t.pickOrder| - k
  {
    if k < |t.pickOrder| {
      ScanHasAdapter(t, adapters, k + 1, facade, phase, mime, ext);
      assert t.pickOrder[k..][1..] == t.pickOrder[k + 1..];
    }
  }

  lemma {:induction false} PickHasAdapter(t: R.Table, adapters: Adapters, phases: seq<R.Phase>, facade: R.Facade, mime: string, ext: string)
    requires HasAdapters(t, adapters)
    ensures var o := R.PickIn(t, phases, facade, mime, ext); o.Picked? ==> o.engine in adapters
  {
    if phases != [] {
      ScanHasAdapter(t, adapters, 0, facade, phases[0], mime, ext);
      assert t.pickOrder[0..] == t.pickOrder;
      PickHasAdapter(t, adapters, phases[1..], facade, mime, ext);
    }
  }

  lemma PickedHasAdapter(t: R.Table, adapters: Adapters, facade: R.Facade, hint: R.Hint)
    requires HasAdapters(t, adapters)
    ensures R.Pick(t, facade, hint).Picked? ==> R.Pick(t, facade, hint).engine in adapters
  {
    hide Canonical, ToLower, Extension;
    PickHasAdapter(t, adapters, t.phases, facade, Canonical(hint.mime), ToLower(Extension(hint.filename)));
  }

  // ---------------------------------------------------------- external facade

  datatype Answer = Refused(status: nat) | Routed(name: string, mime: string, engine: R.Engine, source: R.Source)

  /** Where a PUT of these bytes goes; oversize is the status for a body over the
      cap. */
  function ExternalRoute(t: R.Table, r: Injected, detect: bytes -> string, declared: string, raw: string, data: bytes,
                         maxBytes: int, oversize: nat): Answer
  {
    if declared == "" then Refused(400)
    else if !Fits(data, maxBytes) then Refused(oversize)
    else
      var name := NameOf(raw);
      var mime := SyncType(r, detect, declared, F.Head(data), name);
      match R.Pick(t, R.ExternalFacade, R.Hint(mime, name))
      case Picked(engine, source) => Routed(name, mime, engine, source)
      case NoEngineForFacade => Refused(501)
  }

  /** External.Process: the route, and the engine call with the whole body; then the
      body is released. */
  method Process(t: R.Table, r: Injected, detect: bytes -> string, adapters: Adapters, declared: string, raw: string,
                 body: Source, disk: Disk, maxBytes: int)
    returns (a: Answer, sent: F.Sent, ghost calls: seq<F.Call>)
    requires body.pos == 0 && HasAdapters(t, adapters)
    modifies body, disk
    ensures Sound(body, disk) ==> a == ExternalRoute(t, r, detect, declared, raw, body.data, maxBytes, 413)
    ensures disk.open == old(disk.open) && disk.linked == old(disk.linked)
    ensures a.Refused? ==> calls == [] && sent == F.Sent(a.status, None)
    ensures a.Routed? ==> a.engine in adapters && calls == [F.Call(adapters[a.engine], Request(map[], [BlobRef(a.name, a.mime, |body.data|)]), [0], [body.data])]
    ensures a.Routed? && adapters[a.engine].reply.Status? ==>
              sent.status == adapters[a.engine].reply.code && sent.body == Some(adapters[a.engine].reply.body)
    ensures a.Routed? && adapters[a.engine].reply.Fails? ==> sent.status == 502 && sent.body == None
    ensures declared == "" ==> sent.status == 400
    ensures declared != "" && Sound(body, disk) ==> (a == Refused(413) <==> maxBytes > 0 && |body.data| > maxBytes)
    ensures a.Refused? && Sound(body, disk) && declared != "" && (maxBytes <= 0 || |body.data| <= maxBytes) ==> sent.status == 501
  {
    hide Resolve, Builtin, R.Pick, NameOf, Printable;
    calls := [];
    if declared == "" {
      return Refused(400), F.Sent(400, None), [];
    }
    var name := DecodeFilename(raw);
    assert body.Rest() == body.data;
    var staged := Part(body, THRESHOLD_DEFAULT, maxBytes, disk);
    if staged.TooLarge? {
      return Refused(413), F.Sent(413, None), [];
    }
    if staged.IoError? {
      return Refused(400), F.Sent(400, None), [];
    }
    var reader := staged.reader;
    var head := F.PeekHead(reader);
    if head.None? {
      reader.Close();
      return Refused(400), F.Sent(400, None), [];
    }
    assert head.value == F.Head(body.data);
    var mime := SyncType(r, detect, declared, head.value, name);
    var o := R.PickRouteVerbose(t, R.ExternalFacade, R.Hint(mime, name));
    if o.NoEngineForFacade? {
      reader.Close();
      return Refused(501), F.Sent(501, None), [];
    }
    PickedHasAdapter(t, adapters, R.ExternalFacade, R.Hint(mime, name));
    a := Routed(name, mime, o.engine, o.source);
    sent, calls := CallOne(adapters[o.engine], Request(map[], [BlobRef(name, mime, reader.size)]), reader);
    reader.Close();
  }

  /** One engine call on one body that stands at its start, and its answer sent. */
  method CallOne(engine: F.Engine, request: Request, reader: Reader) returns (sent: F.Sent, ghost calls: seq<F.Call>)
    requires reader.Valid() && !reader.closed && reader.Offset() == 0
    modifies reader.Repr()
    ensures reader.Valid() && !reader.closed && reader.file == old(reader.file)
    ensures calls == [F.Call(engine, request, [0], [old(reader.Contents())])] && sent == F.SentFor(engine.reply)
  {
    ghost var files: F.Files, contents := [reader.file], [reader.Contents()];
    assert F.HoldsOne(reader, files[0], contents[0]);
    assert forall o :: o in F.NonNull(files) ==> o == reader.file;
    assert F.Holds([reader], files, contents);
    assert F.OffsetOf(reader, reader.file) == 0;
    ghost var call;
    var resp;
    resp, call := engine.Convert(request, [reader], files, contents);
    assert F.HoldsOne([reader][0], files[0], contents[0]);
    assert call.handed == [0];
    calls := [call];
    sent := F.Send(resp, engine.reply);
  }

  /** Async.SubmitProcess with PayloadFromExternalRequest, up to the enqueueing. */
  method SubmitProcess(t: R.Table, r: Injected, detect: bytes -> string, declared: string, raw: string, body: Source, disk: Disk, maxBytes: int)
    returns (a: Answer)
    requires body.pos == 0
    modifies body, disk
    ensures Sound(body, disk) && r.Some? ==> a == ExternalRoute(t, r, detect, declared, raw, body.data, maxBytes, 400)
    ensures disk.open == old(disk.open) && disk.linked == old(disk.linked)
  {
    hide Resolve, Builtin, R.Pick, NameOf, Printable;
    var name := DecodeFilename(raw);
    if declared == "" {
      return Refused(400);
    }
    if name == "" {
      name := "upload";
    }
    var staged := Buffer(body, disk, maxBytes);
    if !staged.Held? {
      return Refused(400);
    }
    var mime := AsyncType(r, detect, declared, F.Head(staged.data), name);
    var o := R.PickRouteVerbose(t, R.ExternalFacade, R.Hint(mime, name));
    if o.NoEngineForFacade? {
      return Refused(501);
    }
    a := Routed(name, mime, o.engine, o.source);
  }

  // ----------------------------------------------------------- docling facade

  datatype Payload = Payload(blobs: seq<BlobRef>, buffers: seq<bytes>, options: map<string, bytes>)

  /** What both paths hand on about a file. */
  function BlobOf(r: Injected, detect: bytes -> string, p: FormPart): BlobRef
    requires p.FilePart?
  {
    BlobRef(p.filename, AsyncType(r, detect, p.declared, F.Head(p.body.data), p.filename), |p.body.data|)
  }

  function BlobsOf(r: Injected, detect: bytes -> string, files: seq<FormPart>): (bs: seq<BlobRef>)
    requires forall i :: 0 <= i < |files| ==> files[i].FilePart?
    ensures |bs| == |files| && forall i :: 0 <= i < |files| ==> bs[i] == BlobOf(r, detect, files[i])
  {
    seq(|files|, i requires 0 <= i < |files| => BlobOf(r, detect, files[i]))
  }

  /** payloadFromMultipart: the buffers and the references stay index-aligned, in
      the order of the upload. */
  method PayloadFromMultipart(r: Injected, detect: bytes -> string, parts: seq<FormPart>, disk: Disk, maxBlob: int) returns (p: Option<Payload>)
    requires Untouched(parts, 0)
    modifies Bodies(parts), disk
    ensures AllSound(parts, disk) ==> (p.Some? <==> AllFit(parts, maxBlob))
    ensures p.Some? ==> p.value == PayloadOf(r, detect, parts)
    ensures disk.open == old(disk.open) && disk.linked == old(disk.linked)
  {
    var blobs, buffers, options: map<string, bytes> := [], [], map[];
    for n := 0 to |parts|
      invariant Untouched(parts, n)
      invariant AllSound(parts, disk) ==> forall i :: 0 <= i < n ==> PartFits(parts[i], maxBlob)
      invariant Payload(blobs, buffers, options) == PayloadOf(r, detect, parts[..n])
      invariant disk.open == old(disk.open) && disk.linked == old(disk.linked)
    {
      hide PartFits, Sound, PayloadOf;
      var part := parts[n];
      PayloadOneMore(r, detect, parts, n);
      var data := ReadPart(part, disk, maxBlob);
      if data.None? {
        return None;
      }
      if part.FilePart? {
        buffers := buffers + [data.value];
        blobs := blobs + [BlobRef(part.filename, AsyncType(r, detect, part.declared, F.Head(data.value), part.filename), |data.value|)];
      } else {
        options := options[part.name := data.value];
      }
    }
    assert parts[..|parts|] == parts;
    p := Some(Payload(blobs, buffers, options));
  }

  function PayloadOf(r: Injected, detect: bytes -> string, parts: seq<FormPart>): Payload {
    Payload(BlobsOf(r, detect, FilesOf(parts)), DataOf(FilesOf(parts)), OptionsOf(parts))
  }

  lemma PayloadOneMore(r: Injected, detect: bytes -> string, parts: seq<FormPart>, n: nat)
    requires n < |parts|
    ensures var p, q, part := PayloadOf(r, detect, parts[..n]), PayloadOf(r, detect, parts[..n + 1]), parts[n];
            match part
            case FilePart(filename, declared, body) =>
              q == p.(blobs := p.blobs + [BlobRef(filename, AsyncType(r, detect, declared, F.Head(body.data), filename), |body.data|)],
                      buffers := p.buffers + [body.data])
            case Field(name, body) => q == p.(options := p.options[name := body.data])
  {
    hide AsyncType, F.Head;
    assert parts[..n + 1][..n] == parts[..n];
  }

  /** One part, whole, or nothing when it is over its cap or fails. */
  method ReadPart(part: FormPart, disk: Disk, maxBlob: int) returns (data: Option<bytes>)
    requires part.body.pos == 0
    modifies part.body, disk
    ensures disk.open == old(disk.open) && disk.linked == old(disk.linked)
    ensures data.Some? ==> data.value == part.body.data
    ensures Sound(part.body, disk) ==> (data.Some? <==> PartFits(part, maxBlob))
  {
    if part.FilePart? {
      var staged := Buffer(part.body, disk, maxBlob);
      data := if staged.Held? then Some(staged.data) else None;
    } else {
      data := ReadField(part.body);
    }
  }

  /** The engine for a list of files: the first file decides; without files, or
      when no engine answers, the default. */
  function DoclingRoute(t: R.Table, blobs: seq<BlobRef>): (R.Engine, R.Source) {
    if blobs == [] then (t.default, R.ByDefault)
    else match R.Pick(t, R.DoclingFacade, R.Hint(blobs[0].contentType, blobs[0].filename))
         case Picked(engine, source) => (engine, source)
         case NoEngineForFacade => (t.default, R.ByDefault)
  }

  /** The engine is fixed by the bare declared type, the first bytes and the lowered
      extension of the first file: nothing else about an upload moves it, with a
      resolver or without. */
  lemma RouteDependsOnlyOn(t: R.Table, r: Injected, detect: bytes -> string, us: seq<FormPart>, vs: seq<FormPart>)
    requires (forall i :: 0 <= i < |us| ==> us[i].FilePart?) && (forall i :: 0 <= i < |vs| ==> vs[i].FilePart?)
    requires us != [] && vs != []
    requires Canonical(us[0].declared) == Canonical(vs[0].declared) && F.Head(us[0].body.data) == F.Head(vs[0].body.data)
    requires ToLower(Extension(us[0].filename)) == ToLower(Extension(vs[0].filename))
    ensures DoclingRoute(t, BlobsOf(r, detect, us)) == DoclingRoute(t, BlobsOf(r, detect, vs))
  {
    hide Canonical, Extension, ToLower, Resolve, F.Head, R.PickIn;
    var u, v := us[0], vs[0];
    if r.Some? {
      ResolveDependsOnlyOn(r.value, detect, u.declared, v.declared, F.Head(u.body.data), u.filename, v.filename);
    }
    assert R.Pick(t, R.DoclingFacade, R.Hint(BlobOf(r, detect, u).contentType, u.filename))
        == R.Pick(t, R.DoclingFacade, R.Hint(BlobOf(r, detect, v).contentType, v.filename));
  }

  method RouteFirst(t: R.Table, blobs: seq<BlobRef>) returns (engine: R.Engine, source: R.Source)
    ensures (engine, source) == DoclingRoute(t, blobs)
  {
    engine, source := t.default, R.ByDefault;
    if |blobs| > 0 {
      var o := R.PickRouteVerbose(t, R.DoclingFacade, R.Hint(blobs[0].contentType, blobs[0].filename));
      if o.Picked? {
        engine, source := o.engine, o.source;
      }
    }
  }

  /** Async.submit for an upload, up to the enqueueing. */
  method Submit(t: R.Table, r: Injected, detect: bytes -> string, parts: seq<FormPart>, disk: Disk, maxBlob: int)
    returns (ok: bool, blobs: seq<BlobRef>, engine: R.Engine, source: R.Source)
    requires Untouched(parts, 0)
    modifies Bodies(parts), disk
    ensures ok ==> blobs == BlobsOf(r, detect, FilesOf(parts)) && (engine, source) == DoclingRoute(t, blobs)
    ensures AllSound(parts, disk) ==> (ok <==> AllFit(parts, maxBlob))
    ensures disk.open == old(disk.open) && disk.linked == old(disk.linked)
  {
    blobs, engine, source := [], t.default, R.ByDefault;
    var p := PayloadFromMultipart(r, detect, parts, disk, maxBlob);
    ok := p.Some?;
    if ok {
      blobs := p.value.blobs;
      engine, source := RouteFirst(t, blobs);
    }
  }

  datatype Served = BadRequest | Answered(sent: F.Sent)

  /** The engine calls of one request: at most two, each with all of it and on the
      whole files from their start; the first on the picked engine, the second on the
      default. */
  ghost predicate Dispatched(calls: seq<F.Call>, primary: F.Engine, default: F.Engine, fallback: bool,
                             request: Request, files: seq<FormPart>) {
    && 1 <= |calls| <= 2 && calls[0].engine == primary && (|calls| == 2 ==> calls[1].engine == default)
    && (forall c :: 0 <= c < |calls| ==> calls[c] == F.Call(calls[c].engine, request, seq(|files|, _ => 0), DataOf(files)))
    && (|calls| == 2 ==> fallback && (primary.reply.Fails? || primary.reply.code >= 500) && primary != default)
  }

  /** What the client is sent: the last call's answer, and the first one's when there
      is no reason to retry. */
  lemma AnswerIsLast(calls: seq<F.Call>, primary: F.Engine, default: F.Engine, fallback: bool,
                     request: Request, files: seq<FormPart>, sent: F.Sent)
    requires Dispatched(calls, primary, default, fallback, request, files) && sent == F.SentFor(calls[|calls| - 1].engine.reply)
    ensures |calls| >= 1
    ensures var last := calls[|calls| - 1].engine.reply;
            && (last.Status? ==> sent.status == last.code && sent.body == Some(last.body))
            && (last.Fails? ==> sent.status == 502 && sent.body == None)
    ensures primary.reply.Status? && primary.reply.code < 500 ==>
              |calls| == 1 && sent.status == primary.reply.code && sent.body == Some(primary.reply.body)
  {
  }

  /** Convert.handle for an upload, from the body of the request to what the client
      is sent, with everything released at the end. */
  method Handle(t: R.Table, r: Injected, detect: bytes -> string, adapters: Adapters, fallback: bool,
                parts: seq<FormPart>, disk: Disk, maxBytes: int)
    returns (served: Served, blobs: seq<BlobRef>, engine: R.Engine, source: R.Source, ghost calls: seq<F.Call>)
    requires Untouched(parts, 0) && HasAdapters(t, adapters)
    modifies Bodies(parts), disk
    ensures AllSound(parts, disk) ==> (served.Answered? <==> AllFit(parts, maxBytes))
    ensures disk.open == old(disk.open) && disk.linked == old(disk.linked)
    ensures served.BadRequest? ==> calls == []
    ensures served.Answered? && r.Some? ==> blobs == BlobsOf(r, detect, FilesOf(parts)) && (engine, source) == DoclingRoute(t, blobs)
    ensures served.Answered? ==>
              && engine in adapters && t.default in adapters
              && Dispatched(calls, adapters[engine], adapters[t.default], fallback, Request(OptionsOf(parts), blobs), FilesOf(parts))
              && (calls[|calls| - 1].engine.reply.Status? ==>
                   && served.sent.status == calls[|calls| - 1].engine.reply.code
                   && served.sent.body == Some(calls[|calls| - 1].engine.reply.body))
              && (calls[|calls| - 1].engine.reply.Fails? ==> served.sent.status == 502 && served.sent.body == None)
    ensures served.Answered? && adapters[engine].reply.Status? && adapters[engine].reply.code < 500 ==>
              && |calls| == 1 && served.sent.status == adapters[engine].reply.code && served.sent.body == Some(adapters[engine].reply.body)
    ensures served.Answered? && disk.Healthy() && fallback && adapters[engine] != adapters[t.default] ==>
              adapters[engine].reply.Fails? || adapters[engine].reply.code >= 500 ==> |calls| == 2
  {
    hide DoclingRoute, BlobsOf, AllFit, AllSound, F.Ready, F.Holds, F.Opened, F.FileSet, F.HealthyFile, F.OffsetOf, HasAdapters, FilesOf,
         Dispatched, F.SentFor, Staged;
    blobs, engine, source, calls := [], t.default, R.ByDefault, [];
    var bodies, heads, options, ok;
    ghost var files, contents;
    bodies, heads, options, ok, files, contents := F.BuildFileRequest(parts, disk, maxBytes);
    if !ok {
      return BadRequest, blobs, engine, source, calls;
    }
    F.FileSetObjects(files, old(disk.open));
    F.FileSetObjects(files, old(disk.linked));
    ReadyFacts(parts, disk, old(disk.open), old(disk.linked), bodies, heads, options, files, contents);
    var sent;
    sent, blobs, engine, source, calls :=
      Respond(t, r, detect, adapters, fallback, options, FilesOf(parts), bodies, heads, disk, files, contents, old(disk.open), old(disk.linked));
    AnswerIsLast(calls, adapters[engine], adapters[t.default], fallback, Request(options, blobs), FilesOf(parts), sent);
    served := Answered(sent);
  }

  /** The bodies of these uploads are held whole, rewound and apart, with their heads. */
  ghost predicate Staged(uploads: seq<FormPart>, bodies: seq<Reader>, heads: seq<bytes>, disk: Disk,
                         files: F.Files, contents: seq<bytes>, open0: set<TempFile>, linked0: set<TempFile>)
    reads bodies, F.NonNull(files), disk
  {
    && |bodies| == |heads| == |files| == |uploads| && contents == DataOf(uploads)
    && F.Holds(bodies, files, contents) && F.Opened(disk, open0, linked0, bodies, files)
    && open0 !! F.FileSet(files) && linked0 !! F.FileSet(files)
    && (forall i :: 0 <= i < |bodies| ==> bodies[i].disk == disk && F.OffsetOf(bodies[i], files[i]) == 0)
    && (forall i :: 0 <= i < |bodies| ==> heads[i] == F.Head(uploads[i].body.data) && bodies[i].size == |uploads[i].body.data|)
  }

  /** Convert.handle once the request is built. */
  method Respond(t: R.Table, r: Injected, detect: bytes -> string, adapters: Adapters, fallback: bool,
                 options: map<string, bytes>, uploads: seq<FormPart>, bodies: seq<Reader>, heads: seq<bytes>, disk: Disk,
                 ghost files: F.Files, ghost contents: seq<bytes>, ghost open0: set<TempFile>, ghost linked0: set<TempFile>)
    returns (sent: F.Sent, blobs: seq<BlobRef>, engine: R.Engine, source: R.Source, ghost calls: seq<F.Call>)
    requires HasAdapters(t, adapters) && (forall i :: 0 <= i < |uploads| ==> uploads[i].FilePart?)
    requires Staged(uploads, bodies, heads, disk, files, contents, open0, linked0)
    modifies bodies, F.NonNull(files), disk
    ensures disk.open == open0 && disk.linked == linked0
    ensures r.Some? ==> blobs == BlobsOf(r, detect, uploads) && (engine, source) == DoclingRoute(t, blobs)
    ensures engine in adapters && t.default in adapters
    ensures Dispatched(calls, adapters[engine], adapters[t.default], fallback, Request(options, blobs), uploads)
    ensures sent == F.SentFor(calls[|calls| - 1].engine.reply)
    ensures F.HealthyFiles(files) && fallback && adapters[engine] != adapters[t.default] ==>
              adapters[engine].reply.Fails? || adapters[engine].reply.code >= 500 ==> |calls| == 2
  {
    hide DoclingRoute, BlobsOf, F.HoldsOne, F.Opened, F.FileSet, F.HealthyFile, HasAdapters;
    blobs := Describe(r, detect, uploads, heads, bodies);
    engine, source := RouteFirst(t, blobs);
    RouteHasAdapter(t, adapters, blobs);
    sent, calls := DispatchAndRelease(adapters[engine], adapters[t.default], fallback, Request(options, blobs), bodies, disk, files, contents, open0, linked0);
  }

  lemma ReadyFacts(parts: seq<FormPart>, disk: Disk, open0: set<TempFile>, linked0: set<TempFile>,
                   bodies: seq<Reader>, heads: seq<bytes>, options: map<string, bytes>, files: F.Files, contents: seq<bytes>)
    requires F.Ready(parts, |parts|, disk, open0, linked0, bodies, heads, options, files, contents)
    requires open0 !! F.FileSet(files) && linked0 !! F.FileSet(files)
    ensures options == OptionsOf(parts) && Staged(FilesOf(parts), bodies, heads, disk, files, contents, open0, linked0)
    ensures disk.Healthy() ==> F.HealthyFiles(files)
  {
    hide F.Holds, F.Opened, F.Head, F.FileSet, F.OffsetOf, F.HealthyFile, FilesOf;
    ReadyParts(parts, disk, open0, linked0, bodies, heads, options, files, contents);
    hide F.Ready;
    F.BuiltIsHealthy(bodies, files, contents, heads, SourcesOf(FilesOf(parts)), disk);
    AllStaged(FilesOf(parts), bodies, heads, disk, files, contents, open0, linked0);
  }

  lemma ReadyParts(parts: seq<FormPart>, disk: Disk, open0: set<TempFile>, linked0: set<TempFile>,
                   bodies: seq<Reader>, heads: seq<bytes>, options: map<string, bytes>, files: F.Files, contents: seq<bytes>)
    requires F.Ready(parts, |parts|, disk, open0, linked0, bodies, heads, options, files, contents)
    ensures options == OptionsOf(parts) && |bodies| == |files| == |FilesOf(parts)|
    ensures F.Built(bodies, files, contents, heads, SourcesOf(FilesOf(parts)), disk) && F.Opened(disk, open0, linked0, bodies, files)
  {
    hide F.Built, F.Opened;
    assert parts[..|parts|] == parts;
  }

  lemma AllStaged(uploads: seq<FormPart>, bodies: seq<Reader>, heads: seq<bytes>, disk: Disk,
                  files: F.Files, contents: seq<bytes>, open0: set<TempFile>, linked0: set<TempFile>)
    requires |bodies| == |files| == |uploads| && F.Built(bodies, files, contents, heads, SourcesOf(uploads), disk)
    requires F.Opened(disk, open0, linked0, bodies, files) && open0 !! F.FileSet(files) && linked0 !! F.FileSet(files)
    ensures Staged(uploads, bodies, heads, disk, files, contents, open0, linked0)
  {
    hide F.HoldsOne, F.Opened, F.FileSet, F.OffsetOf, F.Head;
    assert contents == DataOf(uploads);
  }

  lemma RouteHasAdapter(t: R.Table, adapters: Adapters, blobs: seq<BlobRef>)
    requires HasAdapters(t, adapters)
    ensures DoclingRoute(t, blobs).0 in adapters && t.default in adapters
  {
    hide R.Pick;
    if blobs != [] {
      PickedHasAdapter(t, adapters, R.DoclingFacade, R.Hint(blobs[0].contentType, blobs[0].filename));
    }
  }

  /** The calls, the answer, and the deferred cleanup. */
  method DispatchAndRelease(primary: F.Engine, default: F.Engine, fallback: bool, request: Request, bodies: seq<Reader>, disk: Disk,
                            ghost files: F.Files, ghost contents: seq<bytes>, ghost open0: set<TempFile>, ghost linked0: set<TempFile>)
    returns (sent: F.Sent, ghost calls: seq<F.Call>)
    requires F.Holds(bodies, files, contents) && F.Opened(disk, open0, linked0, bodies, files)
    requires forall i :: 0 <= i < |bodies| ==> bodies[i].disk == disk && F.OffsetOf(bodies[i], files[i]) == 0
    requires open0 !! F.FileSet(files) && linked0 !! F.FileSet(files)
    modifies bodies, F.NonNull(files), disk
    ensures disk.open == open0 && disk.linked == linked0
    ensures 1 <= |calls| <= 2 && calls[0].engine == primary && (|calls| == 2 ==> calls[1].engine == default)
    ensures forall c :: 0 <= c < |calls| ==> calls[c] == F.Call(calls[c].engine, request, seq(|bodies|, _ => 0), contents)
    ensures |calls| == 2 ==> fallback && F.Eligible(primary.reply) && primary != default
    ensures fallback && F.Eligible(primary.reply) && primary != default && F.HealthyFiles(files) ==> |calls| == 2
    ensures sent == F.SentFor(calls[|calls| - 1].engine.reply)
  {
    hide F.FileSet, F.LinkedSet, F.HealthyFile, F.HoldsOne;
    var response, first;
    response, first, calls := F.Dispatch(primary, default, fallback, request, bodies, files, contents);
    sent := F.Send(response, calls[|calls| - 1].engine.reply);
    F.CloseAll(bodies, disk, files, contents);
  }

  /** The engine.FileBlob of every file, without its body. */
  method Describe(r: Injected, detect: bytes -> string, files: seq<FormPart>, heads: seq<bytes>, bodies: seq<Reader>) returns (blobs: seq<BlobRef>)
    requires |heads| == |bodies| == |files|
    requires forall i :: 0 <= i < |files| ==> files[i].FilePart?
    requires forall i :: 0 <= i < |files| ==> heads[i] == F.Head(files[i].body.data) && bodies[i].size == |files[i].body.data|
    ensures r.Some? ==> blobs == BlobsOf(r, detect, files)
  {
    hide Resolve, Builtin, F.Head;
    blobs := [];
    for n := 0 to |files|
      invariant |blobs| == n
      invariant r.Some? ==> forall i :: 0 <= i < n ==> blobs[i] == BlobOf(r, detect, files[i])
    {
      blobs := blobs + [BlobRef(files[n].filename, SyncType(r, detect, files[n].declared, heads[n], files[n].filename), bodies[n].size)];
    }
  }

  // -------------------------------------------------------------- the worker

  /** buildRegistry registers every adapter under its own name. */
  predicate NamedByKey(entries: R.Entries) {
    forall n :: n in entries ==> entries[n].engine.name == n
  }

  lemma {:induction false} ScanIsRegistered(t: R.Table, entries: R.Entries, default: string, phases: seq<R.Phase>, k: nat,
                                            facade: R.Facade, phase: R.Phase, mime: string, ext: string)
    requires default in entries && R.IsTable(t, entries, default, phases) && k <= |t.pickOrder|
    ensures var found := R.Scan(t.pickOrder[k..], facade, phase, mime, ext);
            found.Some? ==> exists n :: n in entries && entries[n].engine == found.value
    decreases |t.pickOrder| - k
  {
    if k < |t.pickOrder| {
      ScanIsRegistered(t, entries, default, phases, k + 1, facade, phase, mime, ext);
      assert t.pickOrder[k..][1..] == t.pickOrder[k + 1..];
      assert t.pickOrder[k].engine == entries[t.order[..|t.pickOrder|][k]].engine;
    }
  }

  lemma {:induction false} PickedIsRegistered(t: R.Table, entries: R.Entries, default: string, all: seq<R.Phase>, phases: seq<R.Phase>,
                                              facade: R.Facade, mime: string, ext: string)
    requires default in entries && R.IsTable(t, entries, default, all)
    ensures var o := R.PickIn(t, phases, facade, mime, ext); o.Picked? ==> exists n :: n in entries && entries[n].engine == o.engine
  {
    if phases != [] {
      ScanIsRegistered(t, entries, default, all, 0, facade, phases[0], mime, ext);
      assert t.pickOrder[0..] == t.pickOrder;
      PickedIsRegistered(t, entries, default, all, phases[1..], facade, mime, ext);
    }
  }

  /** A task carries only the engine's name; the worker's Get finds by it the very
      engine that the submitter, and so the synchronous handler, picked. */
  lemma WorkerRunsPickedEngine(t: R.Table, entries: R.Entries, default: string, phases: seq<R.Phase>, blobs: seq<BlobRef>)
    requires default in entries && R.IsTable(t, entries, default, phases) && NamedByKey(entries)
    ensures var e := DoclingRoute(t, blobs).0; e.name in t.engines && t.engines[e.name] == e
  {
    if blobs != [] {
      var hint := R.Hint(blobs[0].contentType, blobs[0].filename);
      PickedIsRegistered(t, entries, default, phases, t.phases, R.DoclingFacade, Canonical(hint.mime), ToLower(Extension(hint.filename)));
    }
  }
}
