// Credentials on outgoing requests: the adapters stamp them one by one
// (ApplyMulti in internal/engine/authutil/auth.go), the passthrough proxy from a
// map that Go visits in any order (FormatHeaderValuesMulti, and the loop in
// internal/transport/http/reverseproxy/proxy.go).

module AuthStamps {
  import opened Enumerations
  import opened Text

  // ------------------------------------------------------------------- headers

  function UpperChar(c: char): char {
    if 'a' <= c <= 'z' then c - 'a' + 'A' else c
  }

  /** textproto.CanonicalMIMEHeaderKey, on names that are valid tokens. */
  function CanonicalKey(name: string): (k: string)
    ensures |k| == |name|
    ensures forall i :: 0 <= i < |name| ==> k[i] == if i == 0 || name[i - 1] == '-' then UpperChar(name[i]) else LowerChar(name[i])
  {
    seq(|name|, i requires 0 <= i < |name| => if i == 0 || name[i - 1] == '-' then UpperChar(name[i]) else LowerChar(name[i]))
  }

  lemma CaseFacts(c: char, d: char)
    ensures LowerChar(c) == LowerChar(d) <==> UpperChar(c) == UpperChar(d)
    ensures LowerChar(c) == LowerChar(d) ==> (c == '-' <==> d == '-')
  {
  }

  /** Two names are one header exactly when they differ only in case. */
  lemma SameHeaderIff(a: string, b: string)
    ensures CanonicalKey(a) == CanonicalKey(b) <==> ToLower(a) == ToLower(b)
  {
    hide LowerChar, UpperChar;
    if |a| == |b| {
      if ToLower(a) == ToLower(b) {
        forall i | 0 <= i < |a| ensures CanonicalKey(a)[i] == CanonicalKey(b)[i] {
          assert ToLower(a)[i] == ToLower(b)[i];
          CaseFacts(a[i], b[i]);
          if i > 0 {
            assert ToLower(a)[i - 1] == ToLower(b)[i - 1];
            CaseFacts(a[i - 1], b[i - 1]);
          }
        }
      } else if CanonicalKey(a) == CanonicalKey(b) {
        SameKeySameLower(a, b, |a|);
        assert false;
      }
    }
  }

  lemma {:induction false} SameKeySameLower(a: string, b: string, n: nat)
    requires n <= |a| == |b| && CanonicalKey(a) == CanonicalKey(b)
    ensures forall i :: 0 <= i < n ==> LowerChar(a[i]) == LowerChar(b[i])
    ensures n == |a| ==> ToLower(a) == ToLower(b)
  {
    hide LowerChar, UpperChar;
    if n > 0 {
      SameKeySameLower(a, b, n - 1);
      var i := n - 1;
      if i > 0 {
        CaseFacts(a[i - 1], b[i - 1]);
      }
      assert CanonicalKey(a)[i] == CanonicalKey(b)[i];
      CaseFacts(a[i], b[i]);
    }
  }

  type Headers = map<string, seq<string>>

  /** http.Header. */
  class Header {
    var fields: Headers

    constructor (fields: Headers)
      ensures this.fields == fields
    {
      this.fields := fields;
    }

    method Set(name: string, value: string)
      modifies this
      ensures fields == old(fields)[CanonicalKey(name) := [value]]
    {
      fields := fields[CanonicalKey(name) := [value]];
    }

    method Del(name: string)
      modifies this
      ensures fields == old(fields) - {CanonicalKey(name)}
    {
      fields := fields - {CanonicalKey(name)};
    }
  }

  // ------------------------------------------------------------- configuration

  datatype Scheme = Raw | Bearer

  datatype AuthSpec = AuthSpec(header: string, apiKey: string, scheme: Scheme)

  datatype EngineConfig = EngineConfig(authHeader: string, apiKey: string, scheme: Scheme, authHeaders: seq<AuthSpec>)

  /** EffectiveAuthSpecs. */
  function EffectiveAuthSpecs(c: EngineConfig): seq<AuthSpec> {
    (if c.authHeader != "" then [AuthSpec(c.authHeader, c.apiKey, c.scheme)] else []) + c.authHeaders
  }

  predicate Letter(c: char) {
    'A' <= c <= 'Z' || 'a' <= c <= 'z'
  }

  /** ^[A-Za-z][A-Za-z0-9-]{0,63}$ */
  predicate HeaderName(s: string) {
    1 <= |s| <= 64 && Letter(s[0]) && forall i :: 1 <= i < |s| ==> Letter(s[i]) || '0' <= s[i] <= '9' || s[i] == '-'
  }

  /** Well-formed names that stay distinct when case is ignored. */
  ghost predicate ValidNames(specs: seq<AuthSpec>) {
    && (forall i :: 0 <= i < |specs| ==> HeaderName(specs[i].header))
    && (forall i, j :: 0 <= i < j < |specs| ==> Differ(specs[i].header, specs[j].header))
  }

  ghost predicate ValidAuth(c: EngineConfig) {
    ValidNames(EffectiveAuthSpecs(c))
  }

  predicate Differ(a: string, b: string) {
    ToLower(a) != ToLower(b)
  }

  /** The table holds the lowered names and nothing else. */
  ghost predicate IsSeen(seen: map<string, string>, specs: seq<AuthSpec>) {
    && (forall i :: 0 <= i < |specs| ==> ToLower(specs[i].header) in seen)
    && (forall l :: l in seen ==> exists i :: 0 <= i < |specs| && ToLower(specs[i].header) == l)
  }

  lemma OneNameMore(seen: map<string, string>, specs: seq<AuthSpec>, s: AuthSpec)
    requires ValidNames(specs) && IsSeen(seen, specs)
    ensures ValidNames(specs + [s]) <==> HeaderName(s.header) && ToLower(s.header) !in seen
    ensures IsSeen(seen[ToLower(s.header) := s.header], specs + [s])
  {
    hide HeaderName, ToLower;
    var more := specs + [s];
    assert forall i :: 0 <= i < |specs| ==> more[i] == specs[i];
    assert more[|specs|] == s;
    if ToLower(s.header) in seen {
      var i :| 0 <= i < |specs| && ToLower(specs[i].header) == ToLower(s.header);
      assert !Differ(more[i].header, more[|specs|].header);
    }
    forall l | l in seen ensures exists i :: 0 <= i < |more| && ToLower(more[i].header) == l {
      var i :| 0 <= i < |specs| && ToLower(specs[i].header) == l;
      assert ToLower(more[i].header) == l;
    }
  }

  lemma PrefixIsValid(specs: seq<AuthSpec>, n: nat)
    requires n <= |specs| && ValidNames(specs)
    ensures ValidNames(specs[..n])
  {
    hide HeaderName, Differ;
  }

  /** validateAuthHeaders, for one engine: a table of the names seen so far. */
  method ValidateAuthHeaders(c: EngineConfig) returns (ok: bool)
    ensures ok <==> ValidAuth(c)
  {
    hide HeaderName, ToLower, ValidNames, IsSeen;
    ghost var specs := EffectiveAuthSpecs(c);
    ghost var k := |specs| - |c.authHeaders|;
    NothingSeen();
    var seen: map<string, string> := map[];
    if c.authHeader != "" {
      OneNameMore(map[], [], specs[0]);
      assert [] + [specs[0]] == specs[..1];
      if !HeaderName(c.authHeader) {
        NotValid(specs, 1);
        return false;
      }
      seen := seen[ToLower(c.authHeader) := c.authHeader];
    }
    for i := 0 to |c.authHeaders|
      invariant ValidNames(specs[..k + i]) && IsSeen(seen, specs[..k + i])
    {
      var name := c.authHeaders[i].header;
      OneNameMore(seen, specs[..k + i], specs[k + i]);
      assert specs[..k + i] + [specs[k + i]] == specs[..k + i + 1];
      if !HeaderName(name) || ToLower(name) in seen {
        NotValid(specs, k + i + 1);
        return false;
      }
      seen := seen[ToLower(name) := name];
    }
    assert specs[..|specs|] == specs;
    ok := true;
  }

  lemma NothingSeen()
    ensures ValidNames([]) && IsSeen(map[], [])
  {
  }

  lemma NotValid(specs: seq<AuthSpec>, n: nat)
    requires n <= |specs| && !ValidNames(specs[..n])
    ensures !ValidNames(specs)
  {
    hide ValidNames;
    if ValidNames(specs) {
      PrefixIsValid(specs, n);
    }
  }

  // ------------------------------------------------------------------- stamps

  function Wire(s: AuthSpec): string {
    if s.scheme == Bearer then "Bearer " + s.apiKey else s.apiKey
  }

  datatype Outcome = Attached | MissingKey | NoAuth

  function OutcomeOf(s: AuthSpec): Outcome {
    if s.header == "" && s.apiKey == "" then NoAuth else if s.header == "" || s.apiKey == "" then MissingKey else Attached
  }

  /** What stamping one spec after the other leaves. */
  function Stamped(h: Headers, specs: seq<AuthSpec>): Headers {
    if specs == [] then h else
      var before, s := Stamped(h, specs[..|specs| - 1]), specs[|specs| - 1];
      if s.header == "" || s.apiKey == "" then before else before[CanonicalKey(s.header) := [Wire(s)]]
  }

  /** ApplyMulti. */
  method ApplyMulti(h: Header, c: EngineConfig) returns (outcomes: seq<Outcome>)
    modifies h
    ensures h.fields == Stamped(old(h.fields), EffectiveAuthSpecs(c))
    ensures EffectiveAuthSpecs(c) == [] ==> outcomes == [NoAuth]
    ensures EffectiveAuthSpecs(c) != [] ==> |outcomes| == |EffectiveAuthSpecs(c)|
    ensures EffectiveAuthSpecs(c) != [] ==> forall i :: 0 <= i < |outcomes| ==>
              var s := EffectiveAuthSpecs(c)[i];
              && (outcomes[i] == Attached <==> s.header != "" && s.apiKey != "")
              && (outcomes[i] == NoAuth <==> s.header == "" && s.apiKey == "")
  {
    hide CanonicalKey, Wire, Stamped, EffectiveAuthSpecs;
    var specs := EffectiveAuthSpecs(c);
    if |specs| == 0 {
      StampNothing(h.fields);
      return [NoAuth];
    }
    StampNothing(h.fields);
    assert specs[..0] == [];
    outcomes := [];
    for i := 0 to |specs|
      invariant h.fields == Stamped(old(h.fields), specs[..i])
      invariant |outcomes| == i && forall k :: 0 <= k < i ==> outcomes[k] == OutcomeOf(specs[k])
    {
      StampOneMore(old(h.fields), specs, i);
      var o := ApplySpec(h, specs[i]);
      outcomes := outcomes + [o];
    }
    assert specs[..|specs|] == specs;
  }

  lemma StampNothing(h: Headers)
    ensures Stamped(h, []) == h
  {
  }

  lemma StampOneMore(h: Headers, specs: seq<AuthSpec>, i: nat)
    requires i < |specs|
    ensures var before := Stamped(h, specs[..i]);
            Stamped(h, specs[..i + 1]) ==
              if OutcomeOf(specs[i]) == Attached then before[CanonicalKey(specs[i].header) := [Wire(specs[i])]] else before
  {
    assert specs[..i + 1][..i] == specs[..i];
  }

  /** applySpec. */
  method ApplySpec(h: Header, s: AuthSpec) returns (o: Outcome)
    modifies h
    ensures o == OutcomeOf(s)
    ensures h.fields == if o == Attached then old(h.fields)[CanonicalKey(s.header) := [Wire(s)]] else old(h.fields)
  {
    if s.header == "" && s.apiKey == "" {
      return NoAuth;
    }
    if s.apiKey == "" || s.header == "" {
      return MissingKey;
    }
    h.Set(s.header, Wire(s));
    o := Attached;
  }

  function FormattedOf(specs: seq<AuthSpec>): map<string, string> {
    if specs == [] then map[] else
      var before, s := FormattedOf(specs[..|specs| - 1]), specs[|specs| - 1];
      if s.header == "" || s.apiKey == "" then before else before[s.header := Wire(s)]
  }

  /** FormatHeaderValuesMulti: keyed by the configured spelling. */
  method FormatHeaderValuesMulti(c: EngineConfig) returns (out: map<string, string>)
    ensures out == FormattedOf(EffectiveAuthSpecs(c))
  {
    var specs := EffectiveAuthSpecs(c);
    out := map[];
    for i := 0 to |specs|
      invariant out == FormattedOf(specs[..i])
    {
      assert specs[..i + 1][..i] == specs[..i];
      if specs[i].header == "" || specs[i].apiKey == "" {
        continue;
      }
      out := out[specs[i].header := Wire(specs[i])];
    }
    assert specs[..|specs|] == specs;
  }

  // -------------------------------------------------------------- any map order

  /** The entry n of the map sets header k. */
  predicate Sets(stamps: map<string, string>, n: string, k: string) {
    n in stamps && n != "" && stamps[n] != "" && CanonicalKey(n) == k
  }

  /** after is before with every stamp in place; where two spellings name one
      header, either may have been last. */
  ghost predicate IsOverlay(before: Headers, after: Headers, stamps: map<string, string>) {
    && (forall k :: k in after <==> k in before || exists n :: Sets(stamps, n, k))
    && (forall k :: k in after ==> ComesFrom(before, after[k], k, stamps))
  }

  ghost predicate ComesFrom(before: Headers, value: seq<string>, k: string, stamps: map<string, string>) {
    || (exists n :: Sets(stamps, n, k) && value == [stamps[n]])
    || (k in before && value == before[k] && forall n :: !Sets(stamps, n, k))
  }

  lemma OverlayOneMore(before: Headers, after: Headers, stamps: map<string, string>, n: string, v: string)
    requires IsOverlay(before, after, stamps) && n != "" && v != ""
    ensures IsOverlay(before, after[CanonicalKey(n) := [v]], stamps[n := v])
  {
    hide CanonicalKey;
    var after', stamps', key := after[CanonicalKey(n) := [v]], stamps[n := v], CanonicalKey(n);
    assert Sets(stamps', n, key);
    forall m, k | k != key ensures Sets(stamps', m, k) <==> Sets(stamps, m, k) {
    }
    forall k ensures k in after' <==> k in before || exists m :: Sets(stamps', m, k) {
      if k != key {
        if m :| Sets(stamps, m, k) {
          assert Sets(stamps', m, k);
        }
      }
    }
    forall k | k in after' ensures ComesFrom(before, after'[k], k, stamps') {
      if k != key {
        assert ComesFrom(before, after[k], k, stamps);
        if m :| Sets(stamps, m, k) && after[k] == [stamps[m]] {
          assert Sets(stamps', m, k) && stamps'[m] == stamps[m];
        }
      }
    }
  }

  lemma SkippedStamp(before: Headers, after: Headers, stamps: map<string, string>, n: string, v: string)
    requires IsOverlay(before, after, stamps) && (n == "" || v == "") && n !in stamps
    ensures IsOverlay(before, after, stamps[n := v])
  {
    hide CanonicalKey;
    var stamps' := stamps[n := v];
    assert forall m, k :: Sets(stamps', m, k) <==> Sets(stamps, m, k);
    forall k | k in after ensures ComesFrom(before, after[k], k, stamps') {
      assert ComesFrom(before, after[k], k, stamps);
      if m :| Sets(stamps, m, k) && after[k] == [stamps[m]] {
        assert Sets(stamps', m, k) && stamps'[m] == stamps[m];
      }
    }
    forall k ensures k in after <==> k in before || exists m :: Sets(stamps', m, k) {
      if m :| Sets(stamps, m, k) {
        assert Sets(stamps', m, k);
      }
    }
  }

  lemma NoStamps(before: Headers)
    ensures IsOverlay(before, before, map[])
  {
  }

  /** The headers after these stamps, in this order. */
  function StampAlong(before: Headers, stamps: map<string, string>, order: seq<string>): Headers
    requires forall i :: 0 <= i < |order| ==> order[i] in stamps
  {
    if order == [] then before else
      var n, h := order[|order| - 1], StampAlong(before, stamps, order[..|order| - 1]);
      if n == "" || stamps[n] == "" then h else h[CanonicalKey(n) := [stamps[n]]]
  }

  /** An order in which Go may range over the stamps. */
  ghost predicate Order(order: seq<string>, stamps: map<string, string>) {
    Enumerates(order, stamps.Keys) && forall i :: 0 <= i < |order| ==> order[i] in stamps
  }

  /** The loop of the passthrough proxy; Go visits the stamps in any order. */
  method StampAll(h: Header, stamps: map<string, string>) returns (ghost order: seq<string>)
    modifies h
    ensures Order(order, stamps) && h.fields == StampAlong(old(h.fields), stamps, order)
    ensures IsOverlay(old(h.fields), h.fields, stamps)
  {
    hide IsOverlay, CanonicalKey, Enumerates;
    NoKeys();
    var todo := stamps.Keys;
    order := [];
    assert stamps.Keys - stamps.Keys == {};
    while todo != {}
      invariant todo <= stamps.Keys && Enumerates(order, stamps.Keys - todo)
      invariant forall i :: 0 <= i < |order| ==> order[i] in stamps
      invariant h.fields == StampAlong(old(h.fields), stamps, order)
    {
      var n :| n in todo;
      OneKeyMore(order, stamps.Keys - todo, n);
      assert stamps.Keys - todo + {n} == stamps.Keys - (todo - {n});
      assert (order + [n])[..|order|] == order;
      if n != "" && stamps[n] != "" {
        h.Set(n, stamps[n]);
      }
      order := order + [n];
      todo := todo - {n};
    }
    assert stamps.Keys - {} == stamps.Keys;
    AlongIsOverlay(old(h.fields), stamps, order);
  }

  /** Some of the stamps. */
  function Only(stamps: map<string, string>, order: seq<string>): map<string, string> {
    map n | n in stamps && n in order :: stamps[n]
  }

  lemma {:induction false} AlongOverlaysPart(before: Headers, stamps: map<string, string>, order: seq<string>)
    requires forall i :: 0 <= i < |order| ==> order[i] in stamps
    requires forall i, j :: 0 <= i < j < |order| ==> order[i] != order[j]
    ensures IsOverlay(before, StampAlong(before, stamps, order), Only(stamps, order))
  {
    hide IsOverlay, CanonicalKey;
    if order == [] {
      assert Only(stamps, order) == map[];
      NoStamps(before);
    } else {
      var front, n := order[..|order| - 1], order[|order| - 1];
      AlongOverlaysPart(before, stamps, front);
      assert n !in front && order == front + [n];
      assert Only(stamps, order) == Only(stamps, front)[n := stamps[n]];
      if n != "" && stamps[n] != "" {
        OverlayOneMore(before, StampAlong(before, stamps, front), Only(stamps, front), n, stamps[n]);
      } else {
        SkippedStamp(before, StampAlong(before, stamps, front), Only(stamps, front), n, stamps[n]);
      }
    }
  }

  lemma AlongIsOverlay(before: Headers, stamps: map<string, string>, order: seq<string>)
    requires Order(order, stamps)
    ensures IsOverlay(before, StampAlong(before, stamps, order), stamps)
  {
    hide IsOverlay, CanonicalKey;
    AlongOverlaysPart(before, stamps, order);
    assert Only(stamps, order) == stamps;
  }

  // ------------------------------------------------------------ the main results

  /** The adapters' result is one that the passthrough loop can give. */
  lemma {:induction false} StampedIsOverlay(h: Headers, specs: seq<AuthSpec>)
    ensures IsOverlay(h, Stamped(h, specs), FormattedOf(specs))
  {
    hide IsOverlay, CanonicalKey;
    if specs == [] {
      NoStamps(h);
    } else {
      var front, s := specs[..|specs| - 1], specs[|specs| - 1];
      StampedIsOverlay(h, front);
      if s.header != "" && s.apiKey != "" {
        OverlayOneMore(h, Stamped(h, front), FormattedOf(front), s.header, Wire(s));
      }
    }
  }

  /** Two spellings of one header with different values. */
  ghost predicate Collide(stamps: map<string, string>, a: string, b: string) {
    Sets(stamps, a, CanonicalKey(a)) && Sets(stamps, b, CanonicalKey(a)) && stamps[a] != stamps[b]
  }

  /** In some order, stamp a has the last word on its header. */
  lemma LastWord(before: Headers, stamps: map<string, string>, a: string) returns (order: seq<string>)
    requires Sets(stamps, a, CanonicalKey(a))
    ensures Order(order, stamps)
    ensures var h := StampAlong(before, stamps, order); CanonicalKey(a) in h && h[CanonicalKey(a)] == [stamps[a]]
  {
    hide CanonicalKey;
    var rest := OrderEndingIn(stamps.Keys, a);
    order := rest + [a];
    assert order[..|order| - 1] == rest;
    forall i | 0 <= i < |order| ensures order[i] in stamps {
      assert order[i] in order;
    }
  }

  lemma SetsIsIn(stamps: map<string, string>, n: string, k: string)
    requires Sets(stamps, n, k)
    ensures n in stamps
  {
  }

  lemma OverlaysAgree(before: Headers, one: Headers, two: Headers, stamps: map<string, string>)
    requires IsOverlay(before, one, stamps) && IsOverlay(before, two, stamps) && forall a, b :: !Collide(stamps, a, b)
    ensures one == two
  {
    hide CanonicalKey;
    assert one.Keys == two.Keys;
    forall k | k in one ensures k in two && one[k] == two[k] {
      assert ComesFrom(before, one[k], k, stamps) && ComesFrom(before, two[k], k, stamps);
      if a :| Sets(stamps, a, k) && one[k] == [stamps[a]] {
        var b :| Sets(stamps, b, k) && two[k] == [stamps[b]];
        assert !Collide(stamps, a, b);
      }
    }
  }

  /** The two routes give the same header map, whatever order the passthrough loop
      takes, exactly when no two spellings of a header carry different values. */
  lemma RoutesCoincideIff(h: Headers, specs: seq<AuthSpec>)
    ensures (forall order :: Order(order, FormattedOf(specs)) ==> StampAlong(h, FormattedOf(specs), order) == Stamped(h, specs))
       <==> (forall a, b :: !Collide(FormattedOf(specs), a, b))
  {
    hide IsOverlay, CanonicalKey, Sets, Stamped, FormattedOf, StampAlong, Enumerates;
    var stamps, adapters := FormattedOf(specs), Stamped(h, specs);
    if a, b :| Collide(stamps, a, b) {
      SetsIsIn(stamps, a, CanonicalKey(a));
      SetsIsIn(stamps, b, CanonicalKey(a));
      SetsOwn(stamps, b, CanonicalKey(a));
      var x := LastWord(h, stamps, a);
      var y := LastWord(h, stamps, b);
      assert StampAlong(h, stamps, x) != StampAlong(h, stamps, y);
    } else {
      StampedIsOverlay(h, specs);
      forall order | Order(order, stamps) ensures StampAlong(h, stamps, order) == adapters {
        AlongIsOverlay(h, stamps, order);
        OverlaysAgree(h, StampAlong(h, stamps, order), adapters, stamps);
      }
    }
  }

  lemma SetsOwn(stamps: map<string, string>, n: string, k: string)
    requires Sets(stamps, n, k)
    ensures CanonicalKey(n) == k && Sets(stamps, n, CanonicalKey(n))
  {
  }

  lemma {:induction false} FormattedNames(specs: seq<AuthSpec>, n: string)
    requires n in FormattedOf(specs)
    ensures exists i :: 0 <= i < |specs| && specs[i].header == n
  {
    var front, s := specs[..|specs| - 1], specs[|specs| - 1];
    if n in FormattedOf(front) {
      FormattedNames(front, n);
      var i :| 0 <= i < |front| && front[i].header == n;
      assert specs[i].header == n;
    }
  }

  /** For every configuration that validation accepts, and every order, they
      coincide. */
  lemma ValidRoutesCoincide(h: Headers, c: EngineConfig, order: seq<string>)
    requires ValidAuth(c) && Order(order, FormattedOf(EffectiveAuthSpecs(c)))
    ensures StampAlong(h, FormattedOf(EffectiveAuthSpecs(c)), order) == Stamped(h, EffectiveAuthSpecs(c))
  {
    hide CanonicalKey, ToLower, HeaderName, Stamped, FormattedOf, EffectiveAuthSpecs, Order, StampAlong;
    var specs := EffectiveAuthSpecs(c);
    var stamps := FormattedOf(specs);
    forall a, b ensures !Collide(stamps, a, b) {
      if a in stamps && b in stamps && a != b {
        FormattedNames(specs, a);
        FormattedNames(specs, b);
        var i :| 0 <= i < |specs| && specs[i].header == a;
        var j :| 0 <= j < |specs| && specs[j].header == b;
        if i < j {
          assert Differ(specs[i].header, specs[j].header);
        } else {
          assert Differ(specs[j].header, specs[i].header);
        }
        SameHeaderIff(a, b);
      }
    }
    RoutesCoincideIff(h, specs);
  }

  // ------------------------------------------------------------ all the engines

  datatype Engine = Engine(enable: bool, auth: EngineConfig)

  /** validateAuthHeaders: every enabled engine; Go ranges over them in any order. */
  method ValidateAllAuthHeaders(engines: map<string, Engine>) returns (ok: bool)
    ensures ok <==> forall n :: n in engines && engines[n].enable ==> ValidAuth(engines[n].auth)
  {
    hide ValidAuth;
    var todo := engines.Keys;
    while todo != {}
      invariant todo <= engines.Keys
      invariant forall n :: n in engines && n !in todo && engines[n].enable ==> ValidAuth(engines[n].auth)
    {
      var n :| n in todo;
      todo := todo - {n};
      if !engines[n].enable {
        continue;
      }
      var valid := ValidateAuthHeaders(engines[n].auth);
      if !valid {
        return false;
      }
    }
    ok := true;
  }

  // -------------------------------------------------- what a configuration sends

  /** The value of the header is this key under this scheme. */
  predicate Carries(h: Headers, header: string, apiKey: string, scheme: Scheme) {
    && CanonicalKey(header) in h
    && h[CanonicalKey(header)] == [if scheme == Bearer then "Bearer " + apiKey else apiKey]
  }

  lemma {:induction false} StampedHas(h: Headers, specs: seq<AuthSpec>, i: nat)
    requires ValidNames(specs) && i < |specs|
    ensures specs[i].apiKey != "" ==> Carries(Stamped(h, specs), specs[i].header, specs[i].apiKey, specs[i].scheme)
    ensures specs[i].apiKey == "" ==>
              var k := CanonicalKey(specs[i].header);
              (k in Stamped(h, specs) <==> k in h) && (k in h ==> Stamped(h, specs)[k] == h[k])
  {
    hide CanonicalKey;
    var n := |specs| - 1;
    var init := specs[..n];
    assert ValidNames(init) by {
      assert forall k :: 0 <= k < n ==> init[k] == specs[k];
    }
    if i < n {
      StampedHas(h, init, i);
      assert Differ(specs[i].header, specs[n].header);
      SameHeaderIff(specs[i].header, specs[n].header);
    } else {
      if specs[i].apiKey == "" {
        Untouched(h, init, specs[i].header);
      }
    }
  }

  /** A header that no spec names stays as it was. */
  lemma {:induction false} Untouched(h: Headers, specs: seq<AuthSpec>, header: string)
    requires forall i :: 0 <= i < |specs| ==> Differ(specs[i].header, header)
    ensures var k := CanonicalKey(header);
            (k in Stamped(h, specs) <==> k in h) && (k in h ==> Stamped(h, specs)[k] == h[k])
  {
    hide CanonicalKey;
    if specs != [] {
      var n := |specs| - 1;
      Untouched(h, specs[..n], header);
      assert Differ(specs[n].header, header);
      SameHeaderIff(specs[n].header, header);
    }
  }

  /** For a validated configuration: its own header and each of its list carries its
      key, after "Bearer " when its scheme is bearer, unless the key is empty; and no
      other header changes. */
  lemma ConfiguredIsSent(h: Headers, c: EngineConfig, i: nat, other: string)
    requires ValidAuth(c)
    ensures var after := Stamped(h, EffectiveAuthSpecs(c));
            && (c.authHeader != "" && c.apiKey != "" ==> Carries(after, c.authHeader, c.apiKey, c.scheme))
            && (i < |c.authHeaders| && c.authHeaders[i].apiKey != "" ==>
                 Carries(after, c.authHeaders[i].header, c.authHeaders[i].apiKey, c.authHeaders[i].scheme))
            && ((c.authHeader == "" || Differ(c.authHeader, other)) && (forall j :: 0 <= j < |c.authHeaders| ==> Differ(c.authHeaders[j].header, other)) ==>
                 var k := CanonicalKey(other);
                 (k in after <==> k in h) && (k in h ==> after[k] == h[k]))
  {
    hide Carries, Stamped, ValidNames, CanonicalKey, Differ;
    var specs := EffectiveAuthSpecs(c);
    var first := if c.authHeader != "" then 1 else 0;
    if c.authHeader != "" {
      StampedHas(h, specs, 0);
    }
    if i < |c.authHeaders| {
      assert specs[first + i] == c.authHeaders[i];
      StampedHas(h, specs, first + i);
    }
    if (c.authHeader == "" || Differ(c.authHeader, other)) && (forall j :: 0 <= j < |c.authHeaders| ==> Differ(c.authHeaders[j].header, other)) {
      forall j | 0 <= j < |specs| ensures Differ(specs[j].header, other) {
        assert j >= first ==> specs[j] == c.authHeaders[j - first];
      }
      Untouched(h, specs, other);
    }
  }
}
