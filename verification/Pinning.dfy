// The SSRF policy (internal/transport/http/handlers/ssrf.go) and the rewriting of
// remote sources to the addresses it vetted (validateSources in convert.go).

module Pinning {
  import opened Bytes

  // ------------------------------------------------------------------- addresses

  /** A net.IP: four bytes, sixteen bytes, or none. */
  type Ip = bytes

  const MAPPED_PREFIX: bytes := [0, 0, 0, 0, 0, 0, 0, 0, 0, 0, 255, 255]

  predicate IsV4(ip: Ip) {
    |ip| == 4 || (|ip| == 16 && ip[..12] == MAPPED_PREFIX)
  }

  /** The sixteen-byte form of a four-byte address. */
  function Mapped(ip: Ip): (m: Ip)
    requires |ip| == 4
    ensures |m| == 16
  {
    MAPPED_PREFIX + ip
  }

  /** net.IP.To4. */
  function To4(ip: Ip): (r: Ip)
    requires IsV4(ip)
    ensures |r| == 4
  {
    if |ip| == 4 then ip else ip[12..]
  }

  const LOOPBACK_V6: bytes := [0, 0, 0, 0, 0, 0, 0, 0, 0, 0, 0, 0, 0, 0, 0, 1]

  predicate IsUnspecified(ip: Ip) {
    if IsV4(ip) then To4(ip) == [0, 0, 0, 0] else ip == Zeros(16)
  }

  predicate IsLoopback(ip: Ip) {
    if IsV4(ip) then To4(ip)[0] == 127 else ip == LOOPBACK_V6
  }

  predicate IsLinkLocalUnicast(ip: Ip) {
    if IsV4(ip) then To4(ip)[0] == 169 && To4(ip)[1] == 254 else |ip| == 16 && ip[0] == 0xFE && ip[1] / 64 == 2
  }

  predicate IsLinkLocalMulticast(ip: Ip) {
    if IsV4(ip) then To4(ip)[0] == 224 && To4(ip)[1] == 0 && To4(ip)[2] == 0 else |ip| == 16 && ip[0] == 0xFF && ip[1] % 16 == 2
  }

  predicate IsMulticast(ip: Ip) {
    if IsV4(ip) then To4(ip)[0] / 16 == 14 else |ip| == 16 && ip[0] == 0xFF
  }

  predicate IsPrivate(ip: Ip) {
    if IsV4(ip) then
      To4(ip)[0] == 10 || (To4(ip)[0] == 172 && To4(ip)[1] / 16 == 1) || (To4(ip)[0] == 192 && To4(ip)[1] == 168)
    else |ip| == 16 && ip[0] / 2 == 126
  }

  // ---------------------------------------------------------------------- CIDRs

  datatype Cidr = Cidr(network: Ip, bits: nat)

  function Pow2(k: nat): (p: nat)
    ensures p > 0
  {
    if k == 0 then 1 else 2 * Pow2(k - 1)
  }

  /** Equal in the k highest bits; k over eight counts as eight, under zero as
      zero. */
  predicate SameBits(x: byte, y: byte, k: int) {
    if k <= 0 then true else if k >= 8 then x == y else x / Pow2(8 - k) == y / Pow2(8 - k)
  }

  /** IPNet.Contains: a four-byte or mapped address lies only in a four-byte
      network, and a sixteen-byte one only in a sixteen-byte network. */
  predicate Contains(c: Cidr, ip: Ip) {
    var x := if IsV4(ip) then To4(ip) else ip;
    |x| == |c.network| && forall i :: 0 <= i < |x| ==> SameBits(x[i], c.network[i], c.bits - 8 * i)
  }

  function BlockedV4(): seq<Cidr> {
    [Cidr([127, 0, 0, 0], 8), Cidr([10, 0, 0, 0], 8), Cidr([172, 16, 0, 0], 12), Cidr([192, 168, 0, 0], 16),
     Cidr([169, 254, 0, 0], 16), Cidr([0, 0, 0, 0], 8), Cidr([100, 64, 0, 0], 10), Cidr([192, 0, 0, 0], 24),
     Cidr([198, 18, 0, 0], 15)]
  }

  function BlockedV6(): seq<Cidr> {
    [Cidr([0xFD] + Zeros(15), 8), Cidr([0xFE, 0x80] + Zeros(14), 10), Cidr(LOOPBACK_V6, 128),
     Cidr([0xFD, 0, 0x0E, 0xC2] + Zeros(12), 64)]
  }

  // ------------------------------------------------------------------ classifyIP

  datatype Reason = Fine | Unspecified | Loopback | MetadataIp | LinkLocal | Multicast | Private | BlockedCidr

  predicate IsMetadata(ip: Ip) {
    IsV4(ip) && To4(ip) == [169, 254, 169, 254]
  }

  predicate InSome(cidrs: seq<Cidr>, ip: Ip) {
    exists i :: 0 <= i < |cidrs| && Contains(cidrs[i], ip)
  }

  function Classify(ip: Ip): Reason {
    if ip == [] then Unspecified
    else if IsUnspecified(ip) then Unspecified
    else if IsLoopback(ip) then Loopback
    else if IsLinkLocalUnicast(ip) || IsLinkLocalMulticast(ip) then (if IsMetadata(ip) then MetadataIp else LinkLocal)
    else if IsMulticast(ip) then Multicast
    else if IsPrivate(ip) then Private
    else if InSome(BlockedV4(), ip) || InSome(BlockedV6(), ip) then BlockedCidr
    else Fine
  }

  /** classifyIP: the switch, then a scan of the networks. */
  method ClassifyIP(ip: Ip) returns (r: Reason)
    ensures r == Classify(ip)
  {
    hide BlockedV4, BlockedV6, Contains, IsUnspecified, IsLoopback, IsLinkLocalUnicast, IsLinkLocalMulticast, IsMulticast, IsPrivate, IsMetadata;
    if ip == [] {
      return Unspecified;
    }
    if IsUnspecified(ip) {
      return Unspecified;
    }
    if IsLoopback(ip) {
      return Loopback;
    }
    if IsLinkLocalUnicast(ip) || IsLinkLocalMulticast(ip) {
      return if IsMetadata(ip) then MetadataIp else LinkLocal;
    }
    if IsMulticast(ip) {
      return Multicast;
    }
    if IsPrivate(ip) {
      return Private;
    }
    var blocked := BlockedV4() + BlockedV6();
    for i := 0 to |blocked|
      invariant forall k :: 0 <= k < i ==> !Contains(blocked[k], ip)
    {
      if Contains(blocked[i], ip) {
        if i < |BlockedV4()| {
          assert Contains(BlockedV4()[i], ip);
        } else {
          assert Contains(BlockedV6()[i - |BlockedV4()|], ip);
        }
        return BlockedCidr;
      }
    }
    assert forall k :: 0 <= k < |BlockedV4()| ==> blocked[k] == BlockedV4()[k];
    assert forall k :: 0 <= k < |BlockedV6()| ==> blocked[|BlockedV4()| + k] == BlockedV6()[k];
    r := Fine;
  }

  /** An IPv4 address and its mapped form are classified alike. */
  lemma MappedAlike(ip: Ip)
    requires |ip| == 4
    ensures Classify(Mapped(ip)) == Classify(ip)
  {
    hide BlockedV4, BlockedV6, SameBits;
    var m := Mapped(ip);
    assert m[..12] == MAPPED_PREFIX && m[12..] == ip;
    assert forall c: Cidr :: Contains(c, m) <==> Contains(c, ip);
    hide Contains;
    assert InSome(BlockedV4(), m) <==> InSome(BlockedV4(), ip);
    assert InSome(BlockedV6(), m) <==> InSome(BlockedV6(), ip);
  }

  /** The IPv4 addresses that may be dialled, octet by octet. */
  predicate PublicV4(a: byte, b: byte, c: byte) {
    && a != 0 && a != 10 && a != 127 && !(224 <= a <= 239)
    && !(a == 100 && 64 <= b <= 127) && !(a == 169 && b == 254) && !(a == 172 && 16 <= b <= 31)
    && !(a == 192 && b == 0 && c == 0) && !(a == 192 && b == 168) && !(a == 198 && 18 <= b <= 19)
  }

  lemma ContainsV4(c: Cidr, ip: Ip)
    requires |c.network| == 4 && |ip| == 4
    ensures Contains(c, ip) <==>
              (&& SameBits(ip[0], c.network[0], c.bits) && SameBits(ip[1], c.network[1], c.bits - 8)
               && SameBits(ip[2], c.network[2], c.bits - 16) && SameBits(ip[3], c.network[3], c.bits - 24))
  {
    hide SameBits;
  }

  lemma Powers()
    ensures Pow2(1) == 2 && Pow2(4) == 16 && Pow2(6) == 64
  {
  }

  lemma InBlockedV4(ip: Ip)
    requires |ip| == 4
    ensures var a, b, c := ip[0], ip[1], ip[2];
            InSome(BlockedV4(), ip) <==>
              (|| a == 127 || a == 10 || (a == 172 && b / 16 == 1) || (a == 192 && b == 168) || (a == 169 && b == 254) || a == 0
               || (a == 100 && b / 64 == 1) || (a == 192 && b == 0 && c == 0) || (a == 198 && b / 2 == 9))
  {
    assert |BlockedV4()| == 9;
    SomeOfNine(BlockedV4(), ip);
    hide InSome, Contains, BlockedV4;
    WholeOctets(ip);
    PartOctets(ip);
  }

  /** The networks whose prefix ends at an octet. */
  lemma WholeOctets(ip: Ip)
    requires |ip| == 4
    ensures |BlockedV4()| == 9
    ensures var l := BlockedV4();
            && (Contains(l[0], ip) <==> ip[0] == 127) && (Contains(l[1], ip) <==> ip[0] == 10)
            && (Contains(l[3], ip) <==> ip[0] == 192 && ip[1] == 168) && (Contains(l[4], ip) <==> ip[0] == 169 && ip[1] == 254)
            && (Contains(l[5], ip) <==> ip[0] == 0) && (Contains(l[7], ip) <==> ip[0] == 192 && ip[1] == 0 && ip[2] == 0)
  {
    hide Contains, Pow2;
    var l := BlockedV4();
    ContainsV4(l[0], ip);
    ContainsV4(l[1], ip);
    ContainsV4(l[3], ip);
    ContainsV4(l[4], ip);
    ContainsV4(l[5], ip);
    ContainsV4(l[7], ip);
  }

  /** Those whose prefix ends inside the second octet. */
  lemma PartOctets(ip: Ip)
    requires |ip| == 4
    ensures |BlockedV4()| == 9
    ensures var l := BlockedV4();
            && (Contains(l[2], ip) <==> ip[0] == 172 && ip[1] / 16 == 1) && (Contains(l[6], ip) <==> ip[0] == 100 && ip[1] / 64 == 1)
            && (Contains(l[8], ip) <==> ip[0] == 198 && ip[1] / 2 == 9)
  {
    Powers();
    hide Contains, Pow2;
    var l := BlockedV4();
    ContainsV4(l[2], ip);
    ContainsV4(l[6], ip);
    ContainsV4(l[8], ip);
  }

  lemma SomeOfNine(l: seq<Cidr>, ip: Ip)
    requires |l| == 9
    ensures InSome(l, ip) <==>
              (|| Contains(l[0], ip) || Contains(l[1], ip) || Contains(l[2], ip) || Contains(l[3], ip) || Contains(l[4], ip)
               || Contains(l[5], ip) || Contains(l[6], ip) || Contains(l[7], ip) || Contains(l[8], ip))
  {
    hide Contains;
  }

  lemma NotInOtherFamily(cidrs: seq<Cidr>, ip: Ip)
    requires forall i :: 0 <= i < |cidrs| ==> |cidrs[i].network| != if IsV4(ip) then 4 else |ip|
    ensures !InSome(cidrs, ip)
  {
  }

  /** Exactly these IPv4 addresses are accepted, in either form. */
  lemma FineV4Iff(ip: Ip)
    requires IsV4(ip)
    ensures Classify(ip) == Fine <==> PublicV4(To4(ip)[0], To4(ip)[1], To4(ip)[2])
  {
    var x := To4(ip);
    if |ip| == 16 {
      assert Mapped(x) == ip;
      MappedAlike(x);
    }
    assert To4(x) == x;
    InBlockedV4(x);
    NotInOtherFamily(BlockedV6(), x);
    hide InSome, BlockedV4, BlockedV6;
  }

  /** The reason for each IPv4 address, in either form, octet by octet. */
  lemma ReasonV4(ip: Ip)
    requires IsV4(ip)
    ensures var a, b, c, d := To4(ip)[0], To4(ip)[1], To4(ip)[2], To4(ip)[3];
            && (Classify(ip) == Unspecified <==> a == 0 && b == 0 && c == 0 && d == 0)
            && (Classify(ip) == Loopback <==> a == 127)
            && (Classify(ip) == MetadataIp <==> a == 169 && b == 254 && c == 169 && d == 254)
            && (Classify(ip) == LinkLocal <==>
                 (a == 169 && b == 254 && !(c == 169 && d == 254)) || (a == 224 && b == 0 && c == 0))
            && (Classify(ip) == Multicast <==> 224 <= a <= 239 && !(a == 224 && b == 0 && c == 0))
            && (Classify(ip) == Private <==> a == 10 || (a == 172 && 16 <= b <= 31) || (a == 192 && b == 168))
            && (Classify(ip) == BlockedCidr <==>
                 || (a == 0 && !(b == 0 && c == 0 && d == 0)) || (a == 100 && 64 <= b <= 127)
                 || (a == 192 && b == 0 && c == 0) || (a == 198 && 18 <= b <= 19))
  {
    var x := To4(ip);
    if |ip| == 16 {
      assert Mapped(x) == ip;
      MappedAlike(x);
    }
    assert To4(x) == x;
    InBlockedV4(x);
    NotInOtherFamily(BlockedV6(), x);
    hide InSome, BlockedV4, BlockedV6;
    assert Classify(ip) == Classify(x);
    assert x == [x[0], x[1], x[2], x[3]];
  }

  lemma SomeOfFour(l: seq<Cidr>, ip: Ip)
    requires |l| == 4
    ensures InSome(l, ip) <==> Contains(l[0], ip) || Contains(l[1], ip) || Contains(l[2], ip) || Contains(l[3], ip)
  {
    hide Contains;
  }

  lemma InBlockedV6(ip: Ip)
    requires |ip| == 16 && !IsV4(ip)
    ensures (ip[0] == 0xFE && ip[1] / 64 == 2) ==> IsLinkLocalUnicast(ip)
    ensures InSome(BlockedV6(), ip) ==> ip[0] == 0xFD || (ip[0] == 0xFE && ip[1] / 64 == 2) || ip == LOOPBACK_V6
  {
    var l := BlockedV6();
    assert l[0].network[0] == 0xFD && l[0].bits == 8;
    assert l[1].network[0] == 0xFE && l[1].network[1] == 0x80 && l[1].bits == 10;
    assert l[2].network == LOOPBACK_V6 && l[2].bits == 128;
    assert l[3].network[0] == 0xFD && l[3].bits == 64;
    SomeOfFour(l, ip);
    Powers();
    if Contains(l[0], ip) || Contains(l[3], ip) {
      assert SameBits(ip[0], 0xFD, 8);
    } else if Contains(l[1], ip) {
      assert SameBits(ip[0], 0xFE, 10) && SameBits(ip[1], 0x80, 2);
    } else if Contains(l[2], ip) {
      forall i | 0 <= i < 16 ensures ip[i] == LOOPBACK_V6[i] {
        assert SameBits(ip[i], LOOPBACK_V6[i], 128 - 8 * i);
      }
    }
  }

  /** Exactly these IPv6 addresses are accepted. */
  lemma FineV6Iff(ip: Ip)
    requires |ip| == 16 && !IsV4(ip)
    ensures Classify(ip) == Fine <==>
              (&& ip != Zeros(16) && ip != Zeros(15) + [1] && ip[0] / 2 != 126 && ip[0] != 0xFF && !(ip[0] == 0xFE && ip[1] / 64 == 2))
  {
    InBlockedV6(ip);
    NotInOtherFamily(BlockedV4(), ip);
    hide InSome, BlockedV4, BlockedV6;
    assert LOOPBACK_V6 == Zeros(15) + [1];
  }

  /** The reason for each other IPv6 address; the blocked networks are covered by the
      cases before them. */
  lemma ReasonV6(ip: Ip)
    requires |ip| == 16 && !IsV4(ip)
    ensures Classify(ip) == Unspecified <==> ip == Zeros(16)
    ensures Classify(ip) == Loopback <==> ip == Zeros(15) + [1]
    ensures Classify(ip) == LinkLocal <==> (ip[0] == 0xFE && ip[1] / 64 == 2) || (ip[0] == 0xFF && ip[1] % 16 == 2)
    ensures Classify(ip) == Multicast <==> ip[0] == 0xFF && ip[1] % 16 != 2
    ensures Classify(ip) == Private <==> ip[0] / 2 == 126
    ensures Classify(ip) != MetadataIp && Classify(ip) != BlockedCidr
  {
    InBlockedV6(ip);
    NotInOtherFamily(BlockedV4(), ip);
    hide InSome, BlockedV4, BlockedV6;
    assert LOOPBACK_V6 == Zeros(15) + [1];
    assert LOOPBACK_V6[15] != Zeros(16)[15];
  }

  // ----------------------------------------------------------------- host strings

  /** A parsed URL; rest is everything besides the scheme and the host field. */
  datatype Url = Url(scheme: string, host: string, rest: string)

  predicate Digits(s: string) {
    forall i :: 0 <= i < |s| ==> '0' <= s[i] <= '9'
  }

  /** Where the last colon is, or -1. */
  function LastColon(s: string): (i: int)
    ensures -1 <= i < |s| && (i >= 0 ==> s[i] == ':') && forall k :: i < k < |s| ==> s[k] != ':'
  {
    if s == "" then -1 else if s[|s| - 1] == ':' then |s| - 1 else LastColon(s[..|s| - 1])
  }

  predicate Bracketed(s: string) {
    |s| >= 2 && s[0] == '[' && s[|s| - 1] == ']'
  }

  function Unbracket(s: string): string {
    if Bracketed(s) then s[1..|s| - 1] else s
  }

  /** net/url's splitting of a host field: (Hostname(), Port()). */
  function SplitHost(host: string): (string, string) {
    var colon := LastColon(host);
    if colon >= 0 && Digits(host[colon + 1..]) then (Unbracket(host[..colon]), host[colon + 1..]) else (Unbracket(host), "")
  }

  /** net.IP.String, as far as it matters here: not empty, no brackets, no colon in
      an IPv4 address, and different texts for different addresses of a size. */
  ghost predicate GoodText(text: Ip -> string) {
    && (forall ip :: text(ip) != "" && '[' !in text(ip) && ']' !in text(ip) && (IsV4(ip) ==> ':' !in text(ip)))
    && (forall a, b {:trigger text(a), text(b)} :: |a| == |b| && text(a) == text(b) ==> a == b)
  }

  function PinnedHost(text: Ip -> string, ip: Ip, port: string): string {
    var literal := if IsV4(ip) then text(ip) else "[" + text(ip) + "]";
    if port != "" then literal + ":" + port else literal
  }

  lemma {:induction false} LastColonBefore(s: string, port: string)
    requires Digits(port)
    ensures LastColon(s + ":" + port) == |s|
  {
    if port != "" {
      var shorter := port[..|port| - 1];
      LastColonBefore(s, shorter);
      assert (s + ":" + port)[..|s + ":" + port| - 1] == s + ":" + shorter;
    }
  }

  /** The pinned host reads back as the literal address and the port. */
  lemma PinnedReadsBack(text: Ip -> string, ip: Ip, port: string)
    requires GoodText(text) && Digits(port) && port != ""
    ensures SplitHost(PinnedHost(text, ip, port)) == (text(ip), port)
  {
    var literal := if IsV4(ip) then text(ip) else "[" + text(ip) + "]";
    var host := PinnedHost(text, ip, port);
    LastColonBefore(literal, port);
    assert host[..|literal|] == literal && host[|literal| + 1..] == port;
    if IsV4(ip) {
      assert !Bracketed(literal) by {
        assert '[' !in literal;
        if |literal| >= 2 {
          assert literal[0] in literal;
        }
      }
    } else {
      assert literal[1..|literal| - 1] == text(ip);
    }
  }

  /** Different addresses of one family, or different ports, are pinned apart. */
  lemma PinnedIsInjective(text: Ip -> string, a: Ip, p: string, b: Ip, q: string)
    requires GoodText(text) && Digits(p) && Digits(q) && p != "" && q != ""
    requires |a| == |b| && PinnedHost(text, a, p) == PinnedHost(text, b, q)
    ensures a == b && p == q
  {
    PinnedReadsBack(text, a, p);
    PinnedReadsBack(text, b, q);
  }

  // --------------------------------------------------------------------- resolving

  /** url.Parse and its inverse; the DNS, asked for the n-th time. */
  datatype World = World(parse: string -> Option<Url>, show: Url -> string, dns: (nat, string) -> Option<seq<Ip>>, text: Ip -> string)

  /** Printing a parsed URL with a pinned host parses back. */
  ghost predicate WorldOk(w: World) {
    && GoodText(w.text)
    && forall raw, ip, port {:trigger PrintsBack(w, raw, PinnedHost(w.text, ip, port))} ::
         AllowedPort(port) ==> PrintsBack(w, raw, PinnedHost(w.text, ip, port))
  }

  ghost predicate PrintsBack(w: World, raw: string, host: string) {
    w.parse(raw).Some? && SplitHost(w.parse(raw).value.host).0 != "" ==>
      w.parse(w.show(w.parse(raw).value.(host := host))) == Some(w.parse(raw).value.(host := host))
  }

  datatype Resolved = Ok(url: Url, host: string, port: string, ip: Ip) | Rejected

  predicate AllowedPort(p: string) {
    p == "80" || p == "443"
  }

  /** The port a URL asks for. */
  function PortOf(u: Url): string {
    var p := SplitHost(u.host).1;
    if p != "" then p else if u.scheme == "http" then "80" else "443"
  }

  /** The policy accepts u when the DNS answers addrs. */
  predicate Accepts(u: Url, addrs: Option<seq<Ip>>) {
    && (u.scheme == "http" || u.scheme == "https") && SplitHost(u.host).0 != "" && AllowedPort(PortOf(u))
    && addrs.Some? && addrs.value != [] && forall i :: 0 <= i < |addrs.value| ==> Classify(addrs.value[i]) == Fine
  }

  /** Resolver.Resolve: every address must be fine, and the first is used. */
  method Resolve(w: World, n: nat, raw: string) returns (r: Resolved)
    ensures r.Ok? <==> w.parse(raw).Some? && Accepts(w.parse(raw).value, w.dns(n, SplitHost(w.parse(raw).value.host).0))
    ensures r.Ok? ==>
              && r.url == w.parse(raw).value && r.host == SplitHost(r.url.host).0 && r.port == PortOf(r.url)
              && r.ip == w.dns(n, r.host).value[0]
    ensures r.Ok? ==>
              && (r.url.scheme == "http" || r.url.scheme == "https")
              && var given := SplitHost(r.url.host).1;
                 && (given == "" || given == "80" || given == "443")
                 && r.port == if given != "" then given else if r.url.scheme == "https" then "443" else "80"
  {
    hide Classify, SplitHost;
    var parsed := w.parse(raw);
    if parsed.None? {
      return Rejected;
    }
    var u := parsed.value;
    if u.scheme != "http" && u.scheme != "https" {
      return Rejected;
    }
    var host := SplitHost(u.host).0;
    if host == "" {
      return Rejected;
    }
    var port := SplitHost(u.host).1;
    if port == "" {
      port := if u.scheme == "http" then "80" else "443";
    }
    if !AllowedPort(port) {
      return Rejected;
    }
    var addrs := w.dns(n, host);
    if addrs.None? || |addrs.value| == 0 {
      return Rejected;
    }
    for i := 0 to |addrs.value|
      invariant forall k :: 0 <= k < i ==> Classify(addrs.value[k]) == Fine
    {
      var reason := ClassifyIP(addrs.value[i]);
      if reason != Fine {
        return Rejected;
      }
    }
    r := Ok(u, host, port, addrs.value[0]);
  }

  // ------------------------------------------------------------------- validateSources

  datatype HttpSource = HttpSource(url: string, headers: Option<map<string, string>>)

  /** What pinning makes of a source, on the n-th lookup. */
  ghost predicate Pinned(w: World, n: nat, before: HttpSource, after: HttpSource) {
    && w.parse(before.url).Some?
    && var u := w.parse(before.url).value;
       var host := SplitHost(u.host).0;
       && Accepts(u, w.dns(n, host))
       && after.url == w.show(u.(host := PinnedHost(w.text, w.dns(n, host).value[0], PortOf(u))))
       && after.headers.Some?
       && var given := if before.headers.Some? then before.headers.value else map[];
          after.headers.value == if "Host" in given then given else given["Host" := host]
  }

  /** validateSources, in place: it pins the sources in order and stops at the
      first one that the policy rejects. */
  method ValidateSources(w: World, srcs: array<HttpSource>) returns (ok: bool, done: nat)
    modifies srcs
    ensures done <= srcs.Length && (ok <==> done == srcs.Length)
    ensures forall i :: 0 <= i < done ==> Pinned(w, i, old(srcs[i]), srcs[i])
    ensures forall i :: done <= i < srcs.Length ==> srcs[i] == old(srcs[i])
    ensures !ok ==>
              (var parsed := w.parse(old(srcs[done].url));
               parsed.None? || !Accepts(parsed.value, w.dns(done, SplitHost(parsed.value.host).0)))
  {
    hide Accepts, PinnedHost, SplitHost, PortOf;
    for i := 0 to srcs.Length
      invariant forall k :: 0 <= k < i ==> Pinned(w, k, old(srcs[k]), srcs[k])
      invariant forall k :: i <= k < srcs.Length ==> srcs[k] == old(srcs[k])
    {
      var s := srcs[i];
      var r := Resolve(w, i, s.url);
      if r.Rejected? {
        return false, i;
      }
      var headers := if s.headers.None? then map[] else s.headers.value;
      if "Host" !in headers {
        headers := headers["Host" := r.host];
      }
      srcs[i] := HttpSource(w.show(r.url.(host := PinnedHost(w.text, r.ip, r.port))), Some(headers));
      assert Pinned(w, i, s, srcs[i]);
    }
    return true, srcs.Length;
  }

  /** What the policy accepts, in full: http and https only; the port left out, 80 or
      443; a host; and at least one address, every one of them fine. */
  lemma AcceptsIff(u: Url, addrs: Option<seq<Ip>>)
    ensures Accepts(u, addrs) <==>
              && (u.scheme == "http" || u.scheme == "https")
              && SplitHost(u.host).0 != "" && (SplitHost(u.host).1 == "" || SplitHost(u.host).1 == "80" || SplitHost(u.host).1 == "443")
              && addrs.Some? && |addrs.value| > 0 && forall i :: 0 <= i < |addrs.value| ==> Classify(addrs.value[i]) == Fine
  {
    hide SplitHost, Classify;
  }

  /** A host name without colons and brackets, alone or with a port. */
  lemma HostAndPort(host: string, port: string)
    requires ':' !in host && '[' !in host && ']' !in host && Digits(port)
    ensures SplitHost(host) == (host, "") && SplitHost(host + ":" + port) == (host, port)
  {
    NoColon(host);
    LastColonBefore(host, port);
    var h := host + ":" + port;
    assert h[..|host|] == host && h[|host| + 1..] == port;
    if |host| >= 2 {
      assert host[0] in host;
    }
  }

  lemma {:induction false} NoColon(s: string)
    requires ':' !in s
    ensures LastColon(s) == -1
  {
    if s != "" {
      NoColon(s[..|s| - 1]);
      assert s[|s| - 1] in s;
    }
  }

  lemma AllowedIsDigits(p: string)
    requires AllowedPort(p)
    ensures Digits(p) && p != ""
  {
  }

  /** port is the given one, which is 80 or 443; or when none is given 80 for http and
      443 for https. */
  predicate DefaultsTo(port: string, given: string, scheme: string) {
    && (given == "" || given == "80" || given == "443") && (given != "" ==> port == given)
    && (given == "" && scheme == "http" ==> port == "80") && (given == "" && scheme == "https" ==> port == "443")
  }

  lemma PortDefaults(u: Url, addrs: Option<seq<Ip>>)
    requires Accepts(u, addrs)
    ensures DefaultsTo(PortOf(u), SplitHost(u.host).1, u.scheme) && (u.scheme == "http" || u.scheme == "https")
  {
    hide SplitHost, Classify;
  }

  /** A pinned source still has its scheme, path and query; its host field is the
      text of a resolved address that is fine, with an allowed port; and a Host
      header is there. */
  lemma PinningIsFaithful(w: World, n: nat, before: HttpSource, after: HttpSource)
    requires WorldOk(w) && Pinned(w, n, before, after)
    ensures w.parse(after.url).Some?
    ensures var u, v := w.parse(before.url).value, w.parse(after.url).value;
            && v.scheme == u.scheme && v.rest == u.rest
            && (exists ip, port :: Classify(ip) == Fine && SplitHost(v.host) == (w.text(ip), port) && DefaultsTo(port, SplitHost(u.host).1, u.scheme)
                               && ip in w.dns(n, SplitHost(u.host).0).value)
            && (u.scheme == "http" || u.scheme == "https")
            && after.headers.Some? && "Host" in after.headers.value
            && var given := if before.headers.Some? then before.headers.value else map[];
               && (forall k :: k in after.headers.value && k != "Host" <==> k in given && k != "Host")
               && (forall k :: k in given ==> after.headers.value[k] == given[k])
               && ("Host" !in given ==> after.headers.value["Host"] == SplitHost(u.host).0)
  {
    hide Classify, PinnedHost, SplitHost, PortOf;
    var u := w.parse(before.url).value;
    var ip, port := w.dns(n, SplitHost(u.host).0).value[0], PortOf(u);
    AllowedIsDigits(port);
    PortDefaults(u, w.dns(n, SplitHost(u.host).0));
    hide DefaultsTo;
    PinnedReadsBack(w.text, ip, port);
    var host := PinnedHost(w.text, ip, port);
    assert PrintsBack(w, before.url, host);
    assert Classify(ip) == Fine && ip in w.dns(n, SplitHost(u.host).0).value;
  }
}
