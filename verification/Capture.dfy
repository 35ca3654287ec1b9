// Looking at bodies without disturbing them: the request peek and the response
// copy of the audit middleware (internal/transport/http/middleware/
// full_capture.go), and the snippet of a failed upstream response (internal/
// transport/http/handlers/upstream_log.go).

module Capture {
  import opened Bytes
  import opened Text
  import opened Spool

  // ------------------------------------------------------- peek and restore

  /** io.MultiReader of bytes already read and the body they came from. */
  class Stream {
    const prefix: bytes
    const tail: Source
    var at: nat

    ghost predicate Valid()
      reads this, tail
    {
      at <= |prefix| && tail.pos <= |tail.data|
    }

    /** What is still to be read. */
    ghost function Rest(): bytes
      reads this, tail
      requires Valid()
    {
      prefix[at..] + tail.Rest()
    }

    constructor (prefix: bytes, tail: Source)
      requires tail.pos <= |tail.data|
      ensures Valid() && Rest() == prefix + tail.Rest() && this.tail == tail && at == 0 && this.prefix == prefix
    {
      this.prefix, this.tail, at := prefix, tail, 0;
    }

    /** Delivers the next bytes; it ends, or breaks, where the body does. */
    method Read(limit: nat) returns (b: bytes, status: ReadStatus)
      requires Valid() && limit > 0
      modifies this, tail
      ensures Valid() && |b| <= limit && b + Rest() == old(Rest())
      ensures status == Ok <==> b != []
      ensures status == Eof ==> Rest() == []
      ensures status == Broken ==> at == |prefix| && tail.failAt == Some(tail.pos)
    {
      if at < |prefix| {
        var n := Min(limit, |prefix| - at);
        b, status := prefix[at..at + n], Ok;
        at := at + n;
        assert b + prefix[at..] == prefix[old(at)..];
      } else {
        b, status := tail.Read(limit);
        assert b + tail.Rest() == old(tail.Rest());
      }
    }
  }

  function Flatten(bs: seq<bytes>): bytes {
    if bs == [] then [] else Flatten(bs[..|bs| - 1]) + bs[|bs| - 1]
  }

  /** Any sequence of reads of any sizes. */
  method ReadSome(s: Stream, limits: seq<nat>) returns (bs: seq<bytes>)
    requires s.Valid() && forall i :: 0 <= i < |limits| ==> limits[i] > 0
    modifies s, s.tail
    ensures s.Valid() && |bs| == |limits| && Flatten(bs) + s.Rest() == old(s.Rest())
    ensures forall i :: 0 <= i < |bs| ==> |bs[i]| <= limits[i]
  {
    bs := [];
    for i := 0 to |limits|
      invariant s.Valid() && |bs| == i && Flatten(bs) + s.Rest() == old(s.Rest())
      invariant forall k :: 0 <= k < i ==> |bs[k]| <= limits[k]
    {
      hide Flatten;
      var b, status := s.Read(limits[i]);
      FlattenMore(bs, b, s.Rest());
      bs := bs + [b];
    }
  }

  lemma FlattenMore(bs: seq<bytes>, b: bytes, rest: bytes)
    ensures Flatten(bs + [b]) + rest == Flatten(bs) + (b + rest)
  {
    assert (bs + [b])[..|bs|] == bs;
    assert (Flatten(bs) + b) + rest == Flatten(bs) + (b + rest);
  }

  /** peekBody: the first n bytes, or all, and a stream that still delivers the
      whole body; for every body, even one that breaks. */
  method PeekBody(body: Source, n: nat) returns (head: bytes, restored: Stream)
    requires body.pos <= |body.data|
    modifies body
    ensures fresh(restored) && restored.Valid() && restored.tail == body
    ensures restored.Rest() == old(body.Rest())
    ensures head <= old(body.Rest()) && |head| <= n
    ensures body.failAt == None ==> |head| == Min(n, |old(body.Rest())|)
  {
    var b, _ := CopyUpTo(body, n);
    restored := new Stream(b, body);
    head := b;
    assert b + body.Rest() == old(body.Rest());
  }

  /** An upstream response on its way to the client. */
  datatype Body = Raw(source: Source) | Prefixed(stream: Stream)

  datatype UpstreamLog = UpstreamLog(enabled: bool, snippetBytes: nat)

  ghost predicate Readable(b: Body)
    reads if b.Raw? then {b.source} else {b.stream, b.stream.tail}
  {
    match b
    case Raw(source) => source.pos <= |source.data|
    case Prefixed(stream) => stream.Valid()
  }

  ghost function BodyRest(b: Body): bytes
    reads if b.Raw? then {b.source} else {b.stream, b.stream.tail}
    requires Readable(b)
  {
    match b
    case Raw(source) => source.Rest()
    case Prefixed(stream) => stream.Rest()
  }

  /** logUpstreamStatus: only a logged failure is peeked into, and whether it is or
      not, what is left of the body is what was left. */
  method LogUpstreamStatus(code: nat, body: Source, cfg: UpstreamLog) returns (snippet: Option<bytes>, out: Body)
    requires body.pos <= |body.data|
    modifies body
    ensures Readable(out) && BodyRest(out) == old(body.Rest())
    ensures snippet.Some? <==> cfg.enabled && code >= 400
    ensures snippet.Some? ==> snippet.value <= old(body.Rest()) && |snippet.value| <= cfg.snippetBytes
    ensures snippet.None? || cfg.snippetBytes == 0 ==> out == Raw(body) && body.pos == old(body.pos)
  {
    if !cfg.enabled || code < 400 {
      return None, Raw(body);
    }
    if cfg.snippetBytes == 0 {
      return Some([]), Raw(body);
    }
    var head, restored := PeekBody(body, cfg.snippetBytes);
    snippet, out := Some(head), Prefixed(restored);
  }

  // --------------------------------------------------------- response capture

  /** The server's response writer: a write may fail after part of it. */
  class Client {
    const faults: nat -> bool
    var received: bytes
    var turns: nat

    constructor (faults: nat -> bool)
      ensures received == [] && turns == 0 && this.faults == faults
    {
      this.faults, received, turns := faults, [], 0;
    }

    method Write(p: bytes) returns (n: nat, ok: bool)
      modifies this
      ensures n <= |p| && received == old(received) + p[..n] && (ok ==> n == |p|)
      ensures (forall k :: !faults(k)) ==> ok
    {
      ok := !faults(turns);
      n := if ok then |p| else |p| / 2;
      received := received + p[..n];
      turns := turns + 1;
    }
  }

  function Head(b: bytes, cap: int): (r: bytes)
    ensures r <= b && |r| == if cap <= 0 then 0 else if |b| <= cap then |b| else cap
  {
    if cap <= 0 then [] else b[..Min(cap, |b|)]
  }

  /** captureResponseWriter. offered is everything the handler has written. */
  class CaptureWriter {
    const client: Client
    const bodyCap: int
    var status: nat
    var totalBytes: nat
    var body: bytes
    ghost var offered: bytes
    ghost var failed: bool

    ghost predicate Valid()
      reads this, client
    {
      && body == Head(offered, bodyCap)
      && totalBytes == |client.received|
      && (!failed ==> client.received == offered)
      && (offered != [] ==> status != 0)
    }

    constructor (client: Client, bodyCap: int)
      requires client.received == []
      ensures Valid() && offered == [] && !failed && this.client == client && this.bodyCap == bodyCap && status == 0
    {
      this.client, this.bodyCap := client, bodyCap;
      status, totalBytes, body, offered, failed := 0, 0, [], [], false;
    }

    method Write(p: bytes) returns (n: nat, ok: bool)
      requires Valid()
      modifies this, client
      ensures Valid() && offered == old(offered) + p && failed == (old(failed) || !ok)
      ensures status == if old(status) == 0 then 200 else old(status)
      ensures totalBytes == old(totalBytes) + n && (ok ==> n == |p|) && ((forall k :: !client.faults(k)) ==> ok)
    {
      if status == 0 {
        status := 200;
      }
      if bodyCap > 0 && |body| < bodyCap {
        var remaining := bodyCap - |body|;
        if remaining > |p| {
          remaining := |p|;
        }
        body := body + p[..remaining];
      }
      n, ok := client.Write(p);
      totalBytes := totalBytes + n;
      offered := offered + p;
      failed := failed || !ok;
    }

    /** Any sequence of writes to a client that takes everything: the client has
        all of it, the copy has its first bodyCap bytes, and the count is right. */
    method WriteMany(ps: seq<bytes>)
      requires Valid() && !failed && forall k :: !client.faults(k)
      modifies this, client
      ensures Valid() && !failed
      ensures client.received == old(client.received) + Flatten(ps)
      ensures body == Head(old(client.received) + Flatten(ps), bodyCap) && totalBytes == |old(client.received) + Flatten(ps)|
    {
      for i := 0 to |ps|
        invariant Valid() && !failed && offered == old(client.received) + Flatten(ps[..i])
      {
        var _, _ := Write(ps[i]);
        assert ps[..i + 1][..i] == ps[..i];
      }
      assert ps[..|ps|] == ps;
    }
  }

  // -------------------------------------------------------------------- itoa

  const MIN_INT: int := -0x8000_0000_0000_0000

  /** A Go int. */
  type Int = x: int | MIN_INT <= x <= 0x7FFF_FFFF_FFFF_FFFF

  /** Negation wraps: the least int is its own negative. */
  function Negate(n: Int): Int {
    if n == MIN_INT then n else -n
  }

  /** strconv.Itoa. */
  function Signed(n: int): string {
    if n < 0 then "-" + Decimal(-n) else Decimal(n)
  }

  function Pow10(k: nat): nat {
    if k == 0 then 1 else 10 * Pow10(k - 1)
  }

  /** The digits of a positive number, and nothing for the others. */
  function Lead(n: int): string {
    if n <= 0 then "" else Decimal(n)
  }

  lemma LeadStep(n: nat, tail: string)
    requires n > 0
    ensures Lead(n) + tail == Lead(n / 10) + ([Digit(n % 10)] + tail)
  {
  }

  /** The digit loop: from the back of the array, until nothing is left. */
  method FillDigits(digits: array<char>, m: Int) returns (i: nat)
    requires digits.Length == 20 && m < Pow10(19)
    modifies digits
    ensures 1 <= i <= 20 && digits[i..] == Lead(m)
  {
    hide Digit, Lead;
    i := 20;
    var n: Int := m;
    assert Lead(m) + digits[20..] == Lead(m);
    while n > 0
      invariant 1 <= i <= 20 && n < Pow10(i - 1) && Lead(n) + digits[i..] == Lead(m)
      decreases n
    {
      ghost var before := digits[i..];
      LeadStep(n, before);
      i := i - 1;
      digits[i] := Digit(n % 10);
      assert digits[i..] == [Digit(n % 10)] + before;
      n := n / 10;
    }
    LeadNothing(n);
  }

  lemma LeadNothing(n: int)
    requires n <= 0
    ensures Lead(n) == ""
  {
  }

  /** itoa fills twenty bytes from the back. It is strconv.Itoa for every int but
      the least one, which comes out as a bare minus sign; so for every other int it
      is digits that denote the number, after a minus sign for a negative one. */
  method Itoa(n: Int) returns (s: string)
    ensures s == if n == MIN_INT then "-" else Signed(n)
    ensures n >= 0 ==> s != "" && AllDigits(s) && Value(s) == n
    ensures MIN_INT < n < 0 ==> s[..1] == "-" && s[1..] != "" && AllDigits(s[1..]) && Value(s[1..]) == -n
  {
    if n == 0 {
      ValueDecimal(0);
      return "0";
    }
    hide Decimal, Pow10;
    if MIN_INT < n {
      ValueDecimal(if n < 0 then -n else n);
    }
    Pow10Of19();
    var digits := new char[20];
    var neg := n < 0;
    var i := FillDigits(digits, if neg then Negate(n) else n);
    if neg {
      ghost var before := digits[i..];
      i := i - 1;
      digits[i] := '-';
      assert digits[i..] == "-" + before;
    }
    s := digits[i..];
  }

  lemma Pow10Of19()
    ensures Pow10(19) > 0x7FFF_FFFF_FFFF_FFFF
  {
    assert Pow10(5) == 100000;
    assert Pow10(10) == 10000000000;
    assert Pow10(15) == 1000000000000000;
  }
}
