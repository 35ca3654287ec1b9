// The passthrough mount of an engine (internal/transport/http/reverseproxy/
// proxy.go): the Rewrite step, which addresses the outgoing request, strips what
// the caller must not send, stamps the engine's credentials and records where the
// request came from.

module ReverseProxy {
  import opened Bytes
  import opened Pinning
  import P = Paths
  import opened AuthStamps
  import opened Enumerations
  import opened Text

  function HopByHop(): seq<string> {
    ["Connection", "Proxy-Connection", "Keep-Alive", "Proxy-Authenticate", "Proxy-Authorization", "Te", "Trailer",
     "Transfer-Encoding", "Upgrade"]
  }

  function Forwarded(): seq<string> {
    ["X-Forwarded-For", "X-Forwarded-Host", "X-Forwarded-Proto", "X-Forwarded-Port", "X-Real-Ip", "Forwarded"]
  }

  /** Everything but these headers. */
  function Without(h: Headers, names: seq<string>): Headers {
    h - (set n | n in names :: CanonicalKey(n))
  }

  /** What is left of the caller's headers. */
  function Sanitized(h: Headers, trusted: bool): Headers {
    Without(if trusted then h else Without(h, Forwarded()), HopByHop() + ["Authorization"])
  }

  method DelAll(h: Header, names: seq<string>)
    modifies h
    ensures h.fields == Without(old(h.fields), names)
  {
    hide CanonicalKey;
    for i := 0 to |names|
      invariant h.fields == Without(old(h.fields), names[..i])
    {
      h.Del(names[i]);
      assert names[..i + 1] == names[..i] + [names[i]];
      WithoutOneMore(old(h.fields), names[..i], names[i]);
    }
    assert names[..|names|] == names;
  }

  lemma WithoutOneMore(h: Headers, names: seq<string>, n: string)
    ensures Without(h, names + [n]) == Without(h, names) - {CanonicalKey(n)}
  {
    hide CanonicalKey;
    var one, more := set m | m in names :: CanonicalKey(m), set m | m in names + [n] :: CanonicalKey(m);
    assert n in names + [n];
    assert more == one + {CanonicalKey(n)};
  }

  class Outgoing {
    var scheme: string
    var host: string
    var path: string
    var rawPath: string
    var header: Header

    constructor (header: Header)
      ensures this.header == header
    {
      scheme, host, path, rawPath, this.header := "", "", "", "", header;
    }
  }

  /** Who sent a request: the text of its address, when it has one that splits, and
      the address that it parses to. */
  datatype Remote = Remote(text: Option<string>, ip: Option<Ip>)

  /** isTrusted: the caller's address lies in some trusted network. */
  ghost predicate Trusted(remote: Remote, networks: seq<Cidr>) {
    remote.ip.Some? && InSome(networks, remote.ip.value)
  }

  method IsTrusted(remote: Remote, networks: seq<Cidr>) returns (r: bool)
    ensures r <==> Trusted(remote, networks)
    ensures r <==> remote.ip.Some? && exists i :: 0 <= i < |networks| && Contains(networks[i], remote.ip.value)
  {
    hide Contains;
    if |networks| == 0 || remote.ip.None? {
      return false;
    }
    for i := 0 to |networks|
      invariant forall k :: 0 <= k < i ==> !Contains(networks[k], remote.ip.value)
    {
      if Contains(networks[i], remote.ip.value) {
        return true;
      }
    }
    r := false;
  }

  function JoinComma(values: seq<string>): string {
    if values == [] then "" else if |values| == 1 then values[0] else values[0] + ", " + JoinComma(values[1..])
  }

  const FOR := "X-Forwarded-For"
  const HOST := "X-Forwarded-Host"
  const PROTO := "X-Forwarded-Proto"

  /** ProxyRequest.SetXForwarded of the Go standard library. */
  function WithForwarded(h: Headers, remote: Remote, host: string, tls: bool): Headers {
    var k := CanonicalKey(FOR);
    var f :=
      match remote.text
      case Some(client) => h[k := [if k in h && h[k] != [] then JoinComma(h[k]) + ", " + client else client]]
      case None => h - {k};
    f[CanonicalKey(HOST) := [host]][CanonicalKey(PROTO) := [if tls then "https" else "http"]]
  }

  method SetXForwarded(h: Header, remote: Remote, host: string, tls: bool)
    modifies h
    ensures h.fields == WithForwarded(old(h.fields), remote, host, tls)
  {
    hide CanonicalKey, JoinComma;
    if remote.text.Some? {
      var client := remote.text.value;
      var k := CanonicalKey(FOR);
      if k in h.fields && |h.fields[k]| > 0 {
        client := JoinComma(h.fields[k]) + ", " + client;
      }
      h.Set(FOR, client);
    } else {
      h.Del(FOR);
    }
    h.Set(HOST, host);
    if tls {
      h.Set(PROTO, "https");
    } else {
      h.Set(PROTO, "http");
    }
  }

  /** One engine's mount: the parsed base URL, the prefix, the stamps and the trusted
      networks. */
  class Proxy {
    const scheme: string
    const host: string
    const base: string
    const prefix: string
    const stamps: map<string, string>
    const networks: seq<Cidr>

    constructor (scheme: string, host: string, base: string, prefix: string, stamps: map<string, string>, networks: seq<Cidr>)
      ensures this.scheme == scheme && this.host == host && this.base == base && this.prefix == prefix
      ensures this.stamps == stamps && this.networks == networks
    {
      this.scheme, this.host, this.base, this.prefix, this.stamps, this.networks := scheme, host, base, prefix, stamps, networks;
    }

    /** Rewrite. */
    method Rewrite(out: Outgoing, inPath: string, inHost: string, inHeaders: Headers, remote: Remote, tls: bool)
      returns (ghost order: seq<string>)
      modifies out
      ensures out.scheme == scheme && out.host == host
      ensures out.path == P.Outbound(base, prefix, inPath) && out.rawPath == ""
      ensures fresh(out.header) && Order(order, stamps)
      ensures out.header.fields ==
                WithForwarded(StampAlong(Sanitized(inHeaders, Trusted(remote, networks)), stamps, order), remote, inHost, tls)
    {
      hide IsOverlay, CanonicalKey, Without, HopByHop, Forwarded, P.Clean, Trusted, WithForwarded, Order;
      out.scheme, out.host := scheme, host;
      var p := P.TrimPrefix(inPath, prefix);
      if !P.Rooted(p) {
        p := "/" + p;
      }
      out.path, out.rawPath := P.SingleJoin(base, p), "";
      var cloned := new Header(inHeaders);
      var trusted := IsTrusted(remote, networks);
      if !trusted {
        DelAll(cloned, Forwarded());
      }
      DelAll(cloned, HopByHop() + ["Authorization"]);
      order := StampAll(cloned, stamps);
      SetXForwarded(cloned, remote, inHost, tls);
      out.header := cloned;
    }
  }

  /** Whose a header of the outgoing request is: a stamp's, when a stamp names it,
      whatever the caller sent; else the caller's, when it is not stripped. */
  lemma StampsWin(h: Headers, trusted: bool, stamps: map<string, string>, order: seq<string>, k: string)
    requires Order(order, stamps)
    ensures var after := StampAlong(Sanitized(h, trusted), stamps, order);
            && ((exists n :: Sets(stamps, n, k)) ==> k in after && exists n :: Sets(stamps, n, k) && after[k] == [stamps[n]])
            && ((forall n :: !Sets(stamps, n, k)) ==>
                 (k in after <==> k in Sanitized(h, trusted)) && (k in after ==> k in h && after[k] == h[k]))
  {
    hide CanonicalKey, HopByHop, Forwarded, StampAlong, Enumerates;
    var before, after := Sanitized(h, trusted), StampAlong(Sanitized(h, trusted), stamps, order);
    AlongIsOverlay(before, stamps, order);
    if k in after {
      assert AuthStamps.ComesFrom(before, after[k], k, stamps);
    }
  }

  /** Nothing that the caller sends under a stripped name reaches the engine. */
  lemma CallerCannotSupply(h: Headers, trusted: bool, stamps: map<string, string>, order: seq<string>, name: string)
    requires Order(order, stamps)
    requires name in HopByHop() + ["Authorization"] || (!trusted && name in Forwarded())
    requires CanonicalKey(name) in StampAlong(Sanitized(h, trusted), stamps, order)
    ensures exists n :: Sets(stamps, n, CanonicalKey(name)) && StampAlong(Sanitized(h, trusted), stamps, order)[CanonicalKey(name)] == [stamps[n]]
  {
    hide CanonicalKey, HopByHop, Forwarded, StampAlong, Order, Sets;
    StampsWin(h, trusted, stamps, order, CanonicalKey(name));
    StrippedIsGone(h, trusted, name);
  }

  lemma StrippedIsGone(h: Headers, trusted: bool, name: string)
    requires name in HopByHop() + ["Authorization"] || (!trusted && name in Forwarded())
    ensures CanonicalKey(name) !in Sanitized(h, trusted)
  {
    hide CanonicalKey, HopByHop, Forwarded;
  }

  /** No other header that the proxy touches has the length of X-Forwarded-For. */
  lemma ForStandsApart()
    ensures forall n :: n in HopByHop() + ["Authorization"] ==> CanonicalKey(n) != CanonicalKey(FOR)
    ensures CanonicalKey(FOR) != CanonicalKey(HOST) && CanonicalKey(FOR) != CanonicalKey(PROTO)
  {
    hide CanonicalKey;
    assert |FOR| == 15 && |HOST| == 16 && |PROTO| == 17;
    var names := HopByHop() + ["Authorization"];
    assert |names| == 10;
    forall i | 0 <= i < 10 ensures |names[i]| != 15 {
    }
  }

  /** An untrusted caller cannot forge where a request came from: unless a stamp
      sets it, X-Forwarded-For is exactly the address the connection came from,
      whatever the caller sent. A trusted caller's chain is kept and extended. */
  lemma ForwardedForIsGenuine(h: Headers, trusted: bool, stamps: map<string, string>, order: seq<string>, remote: Remote, host: string, tls: bool)
    requires Order(order, stamps) && remote.text.Some? && forall n :: !Sets(stamps, n, CanonicalKey(FOR))
    ensures var k := CanonicalKey(FOR);
            var after := WithForwarded(StampAlong(Sanitized(h, trusted), stamps, order), remote, host, tls);
            && k in after
            && after[k] == [if trusted && k in h && h[k] != [] then JoinComma(h[k]) + ", " + remote.text.value else remote.text.value]
  {
    hide CanonicalKey, HopByHop, StampAlong, Order, Sets, JoinComma;
    var k := CanonicalKey(FOR);
    ForStandsApart();
    StampsWin(h, trusted, stamps, order, k);
    if !trusted {
      assert FOR in Forwarded();
      StrippedIsGone(h, trusted, FOR);
    } else {
      assert k in Sanitized(h, trusted) <==> k in h;
    }
  }

  /** For a validated configuration the passthrough mount stamps, in every order,
      exactly what an adapter would: ApplyMulti on the stripped headers. */
  lemma MountStampsLikeAdapter(h: Headers, trusted: bool, c: EngineConfig, order: seq<string>)
    requires ValidAuth(c) && Order(order, FormattedOf(EffectiveAuthSpecs(c)))
    ensures StampAlong(Sanitized(h, trusted), FormattedOf(EffectiveAuthSpecs(c)), order)
         == Stamped(Sanitized(h, trusted), EffectiveAuthSpecs(c))
  {
    hide ValidAuth, Order, StampAlong, Stamped, FormattedOf, EffectiveAuthSpecs, Sanitized;
    ValidRoutesCoincide(Sanitized(h, trusted), c, order);
  }

  // ------------------------------------------------ which headers, by their names

  /** The lower-case names of the headers that never pass. */
  predicate NeverPasses(l: string) {
    || l == "connection" || l == "proxy-connection" || l == "keep-alive" || l == "proxy-authenticate"
    || l == "proxy-authorization" || l == "te" || l == "trailer" || l == "transfer-encoding" || l == "upgrade"
    || l == "authorization"
  }

  /** And of those that pass from trusted callers only. */
  predicate NeedsTrust(l: string) {
    || l == "x-forwarded-for" || l == "x-forwarded-host" || l == "x-forwarded-proto" || l == "x-forwarded-port"
    || l == "x-real-ip" || l == "forwarded"
  }

  ghost predicate LowersInto(names: seq<string>, l: string) {
    exists i :: 0 <= i < |names| && ToLower(names[i]) == l
  }

  lemma LowerIs(a: string, b: string)
    requires |a| == |b| && forall i :: 0 <= i < |a| ==> LowerChar(a[i]) == b[i]
    ensures ToLower(a) == b
  {
  }

  lemma HopLower()
    ensures ToLower("Connection") == "connection" && ToLower("Proxy-Connection") == "proxy-connection"
    ensures ToLower("Keep-Alive") == "keep-alive" && ToLower("Proxy-Authenticate") == "proxy-authenticate"
    ensures ToLower("Proxy-Authorization") == "proxy-authorization" && ToLower("Te") == "te"
    ensures ToLower("Trailer") == "trailer" && ToLower("Transfer-Encoding") == "transfer-encoding"
    ensures ToLower("Upgrade") == "upgrade" && ToLower("Authorization") == "authorization"
  {
    hide ToLower;
    LowerIs("Connection", "connection");
    LowerIs("Proxy-Connection", "proxy-connection");
    LowerIs("Keep-Alive", "keep-alive");
    LowerIs("Proxy-Authenticate", "proxy-authenticate");
    LowerIs("Proxy-Authorization", "proxy-authorization");
    LowerIs("Te", "te");
    LowerIs("Trailer", "trailer");
    LowerIs("Transfer-Encoding", "transfer-encoding");
    LowerIs("Upgrade", "upgrade");
    LowerIs("Authorization", "authorization");
  }

  lemma HopNames(l: string)
    ensures LowersInto(HopByHop() + ["Authorization"], l) <==> NeverPasses(l)
  {
    HopLower();
    var names := HopByHop() + ["Authorization"];
    assert |names| == 10;
    assert names[0] == "Connection" && names[1] == "Proxy-Connection" && names[2] == "Keep-Alive" && names[3] == "Proxy-Authenticate";
    assert names[4] == "Proxy-Authorization" && names[5] == "Te" && names[6] == "Trailer" && names[7] == "Transfer-Encoding";
    assert names[8] == "Upgrade" && names[9] == "Authorization";
    hide ToLower, HopByHop;
    TenNames(names, l);
    hide LowersInto;
  }

  lemma TenNames(names: seq<string>, l: string)
    requires |names| == 10
    ensures LowersInto(names, l) <==>
              || ToLower(names[0]) == l || ToLower(names[1]) == l || ToLower(names[2]) == l || ToLower(names[3]) == l
              || ToLower(names[4]) == l || ToLower(names[5]) == l || ToLower(names[6]) == l || ToLower(names[7]) == l
              || ToLower(names[8]) == l || ToLower(names[9]) == l
  {
    hide ToLower;
  }

  lemma ForwardedLower()
    ensures ToLower("X-Forwarded-For") == "x-forwarded-for" && ToLower("X-Forwarded-Host") == "x-forwarded-host"
    ensures ToLower("X-Forwarded-Proto") == "x-forwarded-proto" && ToLower("X-Forwarded-Port") == "x-forwarded-port"
    ensures ToLower("X-Real-Ip") == "x-real-ip" && ToLower("Forwarded") == "forwarded"
  {
    hide ToLower;
    LowerIs("X-Forwarded-For", "x-forwarded-for");
    LowerIs("X-Forwarded-Host", "x-forwarded-host");
    LowerIs("X-Forwarded-Proto", "x-forwarded-proto");
    LowerIs("X-Forwarded-Port", "x-forwarded-port");
    LowerIs("X-Real-Ip", "x-real-ip");
    LowerIs("Forwarded", "forwarded");
  }

  lemma ForwardedNames(l: string)
    ensures LowersInto(Forwarded(), l) <==> NeedsTrust(l)
  {
    ForwardedLower();
    var names := Forwarded();
    assert |names| == 6;
    assert names[0] == "X-Forwarded-For" && names[1] == "X-Forwarded-Host" && names[2] == "X-Forwarded-Proto";
    assert names[3] == "X-Forwarded-Port" && names[4] == "X-Real-Ip" && names[5] == "Forwarded";
    hide ToLower, Forwarded;
    SixNames(names, l);
    hide LowersInto;
  }

  lemma SixNames(names: seq<string>, l: string)
    requires |names| == 6
    ensures LowersInto(names, l) <==>
              || ToLower(names[0]) == l || ToLower(names[1]) == l || ToLower(names[2]) == l
              || ToLower(names[3]) == l || ToLower(names[4]) == l || ToLower(names[5]) == l
  {
    hide ToLower;
  }

  lemma WithoutIff(h: Headers, names: seq<string>, n: string)
    ensures var k := CanonicalKey(n);
            && (k in Without(h, names) <==> k in h && !LowersInto(names, ToLower(n)))
            && (k in Without(h, names) ==> Without(h, names)[k] == h[k])
  {
    hide CanonicalKey;
    if LowersInto(names, ToLower(n)) {
      var i :| 0 <= i < |names| && ToLower(names[i]) == ToLower(n);
      SameHeaderIff(names[i], n);
      assert CanonicalKey(n) in set m | m in names :: CanonicalKey(m);
    } else {
      forall m | m in names ensures CanonicalKey(m) != CanonicalKey(n) {
        SameHeaderIff(m, n);
      }
    }
  }

  /** What the caller's headers are reduced to: all but these, whatever their case, and
      from an untrusted caller all but these others too; with their values. */
  lemma SanitizedIff(h: Headers, trusted: bool, n: string)
    ensures var k, l := CanonicalKey(n), ToLower(n);
            && (k in Sanitized(h, trusted) <==> k in h && !NeverPasses(l) && (trusted || !NeedsTrust(l)))
            && (k in Sanitized(h, trusted) ==> Sanitized(h, trusted)[k] == h[k])
  {
    hide CanonicalKey, Without, HopByHop, Forwarded, LowersInto, NeverPasses, NeedsTrust;
    HopNames(ToLower(n));
    ForwardedNames(ToLower(n));
    WithoutIff(h, Forwarded(), n);
    WithoutIff(if trusted then h else Without(h, Forwarded()), HopByHop() + ["Authorization"], n);
  }

  /** The values of a header, one after the other, with commas between. */
  lemma {:induction false} JoinCommaOf(a: seq<string>, b: seq<string>)
    requires a != [] && b != []
    ensures JoinComma(a + b) == JoinComma(a) + ", " + JoinComma(b)
    ensures |a| == 1 ==> JoinComma(a) == a[0]
  {
    if |a| == 1 {
      assert (a + b)[1..] == b;
    } else {
      JoinCommaOf(a[1..], b);
      assert (a + b)[1..] == a[1..] + b;
    }
  }

  /** The forwarding headers of every outgoing request: the caller's address after any
      earlier ones, or none when it has no address; the host it asked for; and the
      scheme it used. All others are as they were. */
  lemma ForwardingIsSet(h: Headers, remote: Remote, host: string, tls: bool, n: string)
    ensures var after := WithForwarded(h, remote, host, tls);
            var f, o, p := CanonicalKey("X-Forwarded-For"), CanonicalKey("X-Forwarded-Host"), CanonicalKey("X-Forwarded-Proto");
            && o in after && after[o] == [host]
            && p in after && after[p] == [if tls then "https" else "http"]
            && (remote.text.None? ==> f !in after)
            && (remote.text.Some? && (f !in h || h[f] == []) ==> f in after && after[f] == [remote.text.value])
            && (remote.text.Some? && f in h && h[f] != [] ==> f in after && after[f] == [JoinComma(h[f]) + ", " + remote.text.value])
            && (CanonicalKey(n) != f && CanonicalKey(n) != o && CanonicalKey(n) != p ==>
                 (CanonicalKey(n) in after <==> CanonicalKey(n) in h) && (CanonicalKey(n) in h ==> after[CanonicalKey(n)] == h[CanonicalKey(n)]))
  {
    hide CanonicalKey, JoinComma;
    assert |"X-Forwarded-For"| == 15 && |"X-Forwarded-Host"| == 16 && |"X-Forwarded-Proto"| == 17;
  }
}
