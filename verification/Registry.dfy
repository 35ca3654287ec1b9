// The engine registry (internal/engine/engine.go, mime.go, routing_strategy.go):
// a table of engines, compiled from an unordered map, that picks an engine for
// a facade, a media type and a file name.

module Registry {
  import opened Bytes
  import opened Text
  import opened Lexicographic
  import opened Mime

  // -------------------------------------------------------------------- data

  datatype Facade = DoclingFacade | ExternalFacade

  datatype Engine = Engine(name: string, facades: seq<Facade>)

  datatype Entry = Entry(engine: Engine, mimeTypes: seq<string>, extensions: seq<string>)

  type Entries = map<string, Entry>

  datatype Hint = Hint(mime: string, filename: string)

  datatype Source = ByMime | ByName | ByDefault

  datatype Outcome = Picked(engine: Engine, source: Source) | NoEngineForFacade

  datatype Phase = MimePhase | ExtPhase

  function SourceOf(p: Phase): Source {
    if p.MimePhase? then ByMime else ByName
  }

  // ---------------------------------------------- what an allow-list entry means

  /** A listed media type, exact or with a wildcard for its second part, covers a
      bare one. */
  predicate MimeRule(listed: string, mime: string) {
    var t := Normal(listed);
    t != "" && if EndsInWildcard(t) then t[..|t| - 1] <= mime else t == mime
  }

  predicate EndsInWildcard(t: string) {
    |t| >= 2 && t[|t| - 2..] == "/*"
  }

  /** A listed extension, with or without its dot, covers one with its dot. */
  predicate ExtRule(listed: string, ext: string) {
    var t := Normal(listed);
    t != "" && ext == if t[0] == '.' then t else "." + t
  }

  /** The entry asks for the upload in this phase. */
  ghost predicate Claims(e: Entry, facade: Facade, phase: Phase, hint: Hint) {
    && facade in e.engine.facades
    && match phase
       case MimePhase => Canonical(hint.mime) != "" && exists t :: t in e.mimeTypes && MimeRule(t, Canonical(hint.mime))
       case ExtPhase =>
         var ext := ToLower(Extension(hint.filename));
         ext != "" && exists t :: t in e.extensions && ExtRule(t, ext)
  }

  /** A non-default engine that asks for the upload in this phase. */
  ghost predicate Candidate(entries: Entries, default: string, facade: Facade, phase: Phase, hint: Hint, n: string) {
    n in entries && n != default && Claims(entries[n], facade, phase, hint)
  }

  ghost predicate Unclaimed(entries: Entries, default: string, facade: Facade, phase: Phase, hint: Hint) {
    forall n :: !Candidate(entries, default, facade, phase, hint, n)
  }

  ghost predicate First(entries: Entries, default: string, facade: Facade, phase: Phase, hint: Hint, n: string) {
    && Candidate(entries, default, facade, phase, hint, n)
    && forall m :: Candidate(entries, default, facade, phase, hint, m) ==> AtMost(n, m)
  }

  /** The rule in one sentence: the alphabetically first non-default engine that
      asks for the upload in the first phase that has one, else the default engine
      if it answers the facade, else nothing. */
  ghost predicate Rule(entries: Entries, default: string, facade: Facade, phases: seq<Phase>, hint: Hint, o: Outcome)
    requires default in entries
  {
    if phases == [] then
      o == if facade in entries[default].engine.facades then Picked(entries[default].engine, ByDefault) else NoEngineForFacade
    else if Unclaimed(entries, default, facade, phases[0], hint) then
      Rule(entries, default, facade, phases[1..], hint, o)
    else
      exists n :: First(entries, default, facade, phases[0], hint, n) && o == Picked(entries[n].engine, SourceOf(phases[0]))
  }

  /** The rule leaves no choice. */
  lemma {:induction false} RuleIsDeterministic(entries: Entries, default: string, facade: Facade, phases: seq<Phase>, hint: Hint, o: Outcome, p: Outcome)
    requires default in entries
    requires Rule(entries, default, facade, phases, hint, o) && Rule(entries, default, facade, phases, hint, p)
    ensures o == p
  {
    hide AtMost, Claims;
    if phases == [] {
    } else if Unclaimed(entries, default, facade, phases[0], hint) {
      RuleIsDeterministic(entries, default, facade, phases[1..], hint, o, p);
    } else {
      var n :| First(entries, default, facade, phases[0], hint, n) && o == Picked(entries[n].engine, SourceOf(phases[0]));
      var m :| First(entries, default, facade, phases[0], hint, m) && p == Picked(entries[m].engine, SourceOf(phases[0]));
      AtMostTotal(n, m);
    }
  }

  // ---------------------------------------------------------------- patterns

  datatype Pattern = Pattern(full: string, prefix: string)

  /** mimePattern.matches. */
  predicate Matches(p: Pattern, mime: string) {
    if p.full != "" then p.full == mime else p.prefix <= mime
  }

  ghost predicate SomePattern(ps: seq<Pattern>, mime: string) {
    exists p :: p in ps && Matches(p, mime)
  }

  ghost predicate SomeListed(listed: seq<string>, mime: string) {
    exists t :: t in listed && MimeRule(t, mime)
  }

  function PatternOf(t: string): Pattern
    requires t != ""
  {
    if EndsInWildcard(t) then Pattern("", t[..|t| - 1]) else Pattern(t, "")
  }

  function PatternsOf(listed: seq<string>): seq<Pattern> {
    if listed == [] then [] else
      var before, t := PatternsOf(listed[..|listed| - 1]), Normal(listed[|listed| - 1]);
      if t == "" then before else before + [PatternOf(t)]
  }

  /** compilePatterns. The branch for a bare wildcard pair comes after the branch
      for every "/" wildcard and is never taken. */
  method CompilePatterns(listed: seq<string>) returns (out: seq<Pattern>)
    ensures out == PatternsOf(listed)
  {
    hide Normal;
    out := [];
    for i := 0 to |listed|
      invariant out == PatternsOf(listed[..i])
    {
      var s := Normal(listed[i]);
      assert listed[..i + 1][..i] == listed[..i];
      if s == "" {
        continue;
      }
      if EndsInWildcard(s) {
        out := out + [Pattern("", s[..|s| - 1])];
        continue;
      }
      if s == "*/*" {
        out := out + [Pattern("", "")];
        continue;
      }
      out := out + [Pattern(s, "")];
    }
    assert listed[..|listed|] == listed;
  }

  lemma {:induction false} PatternsMean(listed: seq<string>, mime: string)
    ensures SomePattern(PatternsOf(listed), mime) <==> SomeListed(listed, mime)
  {
    hide Normal;
    if listed != [] {
      var n := |listed| - 1;
      PatternsMean(listed[..n], mime);
      assert listed == listed[..n] + [listed[n]];
      var before, t := PatternsOf(listed[..n]), Normal(listed[n]);
      if t != "" {
        assert Matches(PatternOf(t), mime) <==> MimeRule(listed[n], mime);
      }
    }
  }

  /** A wildcard covers the types that begin like it, up to the slash. */
  lemma WildcardRule(t: string, mime: string)
    requires Normal(t) == t && EndsInWildcard(t)
    ensures MimeRule(t, mime) <==> t[..|t| - 1] <= mime
  {
    hide Normal;
  }

  /** So a pair of wildcards does not match everything, but only the types whose
      own first part is a star. */
  lemma DoubleWildcard(mime: string)
    ensures MimeRule("*/*", mime) <==> "*/" <= mime
  {
    var t := "*/*";
    hide MimeRule, Normal, IsCanonical;
    StarsAreCanonical();
    CanonicalIsNormal(t);
    assert EndsInWildcard(t) by {
      assert t[1..] == "/*";
    }
    WildcardRule(t, mime);
    assert t[..2] == "*/";
  }

  function ExtPatternsOf(listed: seq<string>): seq<string> {
    if listed == [] then [] else
      var before, t := ExtPatternsOf(listed[..|listed| - 1]), Normal(listed[|listed| - 1]);
      if t == "" then before else before + [if t[0] == '.' then t else "." + t]
  }

  /** compileExtensions. */
  method CompileExtensions(listed: seq<string>) returns (out: seq<string>)
    ensures out == ExtPatternsOf(listed)
  {
    hide Normal;
    out := [];
    for i := 0 to |listed|
      invariant out == ExtPatternsOf(listed[..i])
    {
      var s := Normal(listed[i]);
      assert listed[..i + 1][..i] == listed[..i];
      if s == "" {
        continue;
      }
      if s[0] != '.' {
        s := "." + s;
      }
      out := out + [s];
    }
    assert listed[..|listed|] == listed;
  }

  lemma {:induction false} ExtPatternsMean(listed: seq<string>, ext: string)
    ensures ext in ExtPatternsOf(listed) <==> exists t :: t in listed && ExtRule(t, ext)
  {
    hide Normal;
    if listed != [] {
      var n := |listed| - 1;
      ExtPatternsMean(listed[..n], ext);
      assert listed == listed[..n] + [listed[n]];
      var t := Normal(listed[n]);
      if t != "" {
        assert ExtPatternsOf(listed) == ExtPatternsOf(listed[..n]) + [if t[0] == '.' then t else "." + t];
      }
      assert listed[n] in listed;
    }
  }

  // -------------------------------------------------------------------- sort

  predicate Ordered(s: seq<string>) {
    forall i, j :: 0 <= i < j < |s| ==> AtMost(s[i], s[j])
  }

  /** The first n are in order, except that what stands at j may be too far
      right. */
  predicate OrderedExcept(s: seq<string>, n: nat, j: nat) {
    && j < n <= |s|
    && (forall p, q :: 0 <= p < q < n && q != j ==> AtMost(s[p], s[q]))
  }

  lemma SwapKeepsOrder(s: seq<string>, n: nat, j: nat, t: seq<string>)
    requires 0 < j && OrderedExcept(s, n, j) && Before(s[j], s[j - 1])
    requires t == s[j := s[j - 1]][j - 1 := s[j]]
    ensures OrderedExcept(t, n, j - 1) && multiset(t) == multiset(s)
  {
    hide Before;
    AtMostTotal(s[j], s[j - 1]);
    forall p, q | 0 <= p < q < n && q != j - 1 ensures AtMost(t[p], t[q]) {
      if p == j - 1 && q > j {
        assert AtMost(s[j], s[q]);
      }
    }
  }

  lemma InOrderWhenStopped(s: seq<string>, n: nat, j: nat)
    requires OrderedExcept(s, n, j) && (j > 0 ==> !Before(s[j], s[j - 1]))
    ensures Ordered(s[..n])
  {
    hide Before;
    forall p, q | 0 <= p < q < n ensures AtMost(s[p], s[q]) {
      if q == j && p < j - 1 {
        AtMostTransitive(s[p], s[j - 1], s[j]);
      }
    }
  }

  lemma OneMoreToSort(s: seq<string>, i: nat)
    requires i < |s| && Ordered(s[..i])
    ensures OrderedExcept(s, i + 1, i)
  {
    hide AtMost;
    forall p, q | 0 <= p < q < i + 1 && q != i ensures AtMost(s[p], s[q]) {
      assert AtMost(s[..i][p], s[..i][q]);
    }
  }

  /** stringSort: insertion by swaps, in place. */
  method StringSort(a: array<string>)
    modifies a
    ensures Ordered(a[..]) && multiset(a[..]) == multiset(old(a[..]))
  {
    assert a.Length == 0 ==> Ordered(a[..]);
    assert a.Length > 0 ==> Ordered(a[..1]);
    hide AtMost, Before, Ordered;
    if a.Length == 0 {
      return;
    }
    var i := 1;
    while i < a.Length
      invariant 1 <= i <= a.Length && Ordered(a[..i])
      invariant multiset(a[..]) == multiset(old(a[..]))
    {
      Sink(a, i);
      i := i + 1;
    }
    assert a[..a.Length] == a[..];
  }

  /** The inner loop: moves a[i] left to its place. */
  method Sink(a: array<string>, i: nat)
    requires i < a.Length && Ordered(a[..i])
    modifies a
    ensures Ordered(a[..i + 1]) && multiset(a[..]) == multiset(old(a[..]))
  {
    hide AtMost, Before, Ordered, OrderedExcept;
    OneMoreToSort(a[..], i);
    var j := i;
    while j > 0 && Before(a[j], a[j - 1])
      invariant 0 <= j <= i
      invariant OrderedExcept(a[..], i + 1, j)
      invariant multiset(a[..]) == multiset(old(a[..]))
    {
      ghost var s := a[..];
      a[j - 1], a[j] := a[j], a[j - 1];
      SwapKeepsOrder(s, i + 1, j, a[..]);
      j := j - 1;
    }
    InOrderWhenStopped(a[..], i + 1, j);
  }

  lemma HeadIsLeast(s: seq<string>, x: string)
    requires Ordered(s) && x in s
    ensures AtMost(s[0], x)
  {
    hide Before;
    AtMostTotal(x, x);
  }

  lemma TailMultiset(s: seq<string>)
    requires s != []
    ensures multiset(s) == multiset{s[0]} + multiset(s[1..])
  {
    assert s == [s[0]] + s[1..];
  }

  /** There is one sorted arrangement, so any sort gives this one. */
  lemma {:induction false} SortedIsUnique(s: seq<string>, t: seq<string>)
    requires Ordered(s) && Ordered(t) && multiset(s) == multiset(t)
    ensures s == t
  {
    hide AtMost;
    assert |s| == |multiset(s)| == |multiset(t)| == |t|;
    if s != [] {
      assert s[0] in multiset(t) && t[0] in multiset(s);
      HeadIsLeast(s, t[0]);
      HeadIsLeast(t, s[0]);
      AtMostTotal(s[0], t[0]);
      TailMultiset(s);
      TailMultiset(t);
      assert multiset(s[1..]) == multiset(s) - multiset{s[0]};
      SortedIsUnique(s[1..], t[1..]);
      assert s == [s[0]] + s[1..] && t == [t[0]] + t[1..];
    }
  }

  // ---------------------------------------------------------------- registry

  datatype Route = Route(engine: Engine, mimePats: seq<Pattern>, extPats: seq<string>)

  datatype Table = Table(engines: map<string, Engine>, default: Engine, order: seq<string>, pickOrder: seq<Route>, phases: seq<Phase>)

  datatype Built = Ok(table: Table) | NoEntries | UnknownEngine

  /** ResolveStrategy. */
  function ResolveStrategy(s: string): string {
    if s == "mime" || s == "extension" || s == "mime_then_extension" || s == "extension_then_mime" then s
    else "mime_then_extension"
  }

  /** strategyPhases. */
  function Phases(strategy: string): seq<Phase> {
    if strategy == "mime" then [MimePhase]
    else if strategy == "extension" then [ExtPhase]
    else if strategy == "extension_then_mime" then [ExtPhase, MimePhase]
    else [MimePhase, ExtPhase]
  }

  function RouteOf(e: Entry): Route {
    Route(e.engine, PatternsOf(e.mimeTypes), ExtPatternsOf(e.extensions))
  }

  /** The table for a configuration, field by field. */
  ghost predicate IsTable(t: Table, entries: Entries, default: string, phases: seq<Phase>)
    requires default in entries
  {
    && t.engines == (map n | n in entries :: entries[n].engine)
    && t.default == entries[default].engine && t.phases == phases
    && |t.order| == |t.pickOrder| + 1 && t.order[|t.pickOrder|] == default
    && IsNonDefault(t.order[..|t.pickOrder|], entries, default)
    && forall i :: 0 <= i < |t.pickOrder| ==> t.pickOrder[i] == RouteOf(entries[t.order[..|t.pickOrder|][i]])
  }

  /** Every name but the default one, once, in alphabetical order. */
  ghost predicate IsNonDefault(names: seq<string>, entries: Entries, default: string) {
    && Ordered(names) && AreNames(names, entries.Keys, default)
    && forall i :: 0 <= i < |names| ==> names[i] in entries
  }

  /** The loop over the entries, which Go visits in any order. */
  method CompileEntries(entries: Entries, default: string)
    returns (engines: map<string, Engine>, mimeMap: map<string, seq<Pattern>>, extMap: map<string, seq<string>>, names: seq<string>)
    ensures engines == map n | n in entries :: entries[n].engine
    ensures mimeMap == map n | n in entries :: PatternsOf(entries[n].mimeTypes)
    ensures extMap == map n | n in entries :: ExtPatternsOf(entries[n].extensions)
    ensures AreNames(names, entries.Keys, default)
  {
    hide PatternsOf, ExtPatternsOf, AreNames;
    assert AreNames([], {}, default) by {
      NoNames(default);
    }
    assert entries.Keys - entries.Keys == {};
    engines, mimeMap, extMap, names := map[], map[], map[], [];
    var todo := entries.Keys;
    while todo != {}
      invariant todo <= entries.Keys
      invariant engines.Keys == mimeMap.Keys == extMap.Keys == entries.Keys - todo
      invariant forall n :: n in engines ==> engines[n] == entries[n].engine
      invariant forall n :: n in mimeMap ==> mimeMap[n] == PatternsOf(entries[n].mimeTypes)
      invariant forall n :: n in extMap ==> extMap[n] == ExtPatternsOf(entries[n].extensions)
      invariant AreNames(names, entries.Keys - todo, default)
    {
      var n :| n in todo;
      var e := entries[n];
      var pats := CompilePatterns(e.mimeTypes);
      var exts := CompileExtensions(e.extensions);
      engines, mimeMap, extMap := engines[n := e.engine], mimeMap[n := pats], extMap[n := exts];
      OneKeyLess(names, entries.Keys, todo, n, default);
      names := names + if n != default then [n] else [];
      todo := todo - {n};
    }
    assert entries.Keys - {} == entries.Keys;
  }

  /** names lists these keys, but not the default one, each once. */
  ghost predicate AreNames(names: seq<string>, keys: set<string>, default: string) {
    forall n :: multiset(names)[n] == if n in keys && n != default then 1 else 0
  }

  lemma NoNames(default: string)
    ensures AreNames([], {}, default)
  {
  }

  lemma OneKeyLess(names: seq<string>, keys: set<string>, todo: set<string>, n: string, default: string)
    requires todo <= keys && n in todo && AreNames(names, keys - todo, default)
    ensures AreNames(names + if n != default then [n] else [], keys - (todo - {n}), default)
  {
    var more := if n != default then [n] else [];
    assert multiset(names + more) == multiset(names) + multiset(more);
  }

  /** NewRegistry; Go ranges over the entries in any order. */
  method NewRegistry(entries: Entries, default: string, strategy: string) returns (r: Built)
    ensures r.NoEntries? <==> entries == map[]
    ensures r.UnknownEngine? <==> entries != map[] && default !in entries
    ensures r.Ok? ==> default in entries && IsTable(r.table, entries, default, Phases(ResolveStrategy(strategy)))
  {
    hide AtMost, PatternsOf, ExtPatternsOf, Phases, ResolveStrategy;
    if |entries| == 0 {
      return NoEntries;
    }
    if default !in entries {
      return UnknownEngine;
    }
    var engines, mimeMap, extMap, names := CompileEntries(entries, default);
    names := SortNames(names);
    assert AreNames(names, entries.Keys, default);
    NamesAreNonDefault(names, entries, default);
    hide AreNames, Ordered;
    assert forall i :: 0 <= i < |names| ==> names[i] in entries;
    var pickOrder := MakeRoutes(names, engines, mimeMap, extMap);
    var order := names + [default];
    assert order[..|pickOrder|] == names;
    r := Ok(Table(engines, entries[default].engine, order, pickOrder, Phases(ResolveStrategy(strategy))));
  }

  method MakeRoutes(names: seq<string>, engines: map<string, Engine>, mimeMap: map<string, seq<Pattern>>, extMap: map<string, seq<string>>)
    returns (routes: seq<Route>)
    requires forall i :: 0 <= i < |names| ==> names[i] in engines && names[i] in mimeMap && names[i] in extMap
    ensures |routes| == |names|
    ensures forall i :: 0 <= i < |names| ==> routes[i] == Route(engines[names[i]], mimeMap[names[i]], extMap[names[i]])
  {
    routes := [];
    for i := 0 to |names|
      invariant |routes| == i
      invariant forall k :: 0 <= k < i ==> routes[k] == Route(engines[names[k]], mimeMap[names[k]], extMap[names[k]])
    {
      routes := routes + [Route(engines[names[i]], mimeMap[names[i]], extMap[names[i]])];
    }
  }

  method SortNames(names: seq<string>) returns (sorted: seq<string>)
    ensures Ordered(sorted) && multiset(sorted) == multiset(names)
  {
    var a := new string[|names|](i requires 0 <= i < |names| => names[i]);
    assert a[..] == names;
    StringSort(a);
    sorted := a[..];
  }

  /** Whatever order Go visits the entries in, the table is the same. */
  lemma TableIsUnique(t: Table, u: Table, entries: Entries, default: string, phases: seq<Phase>)
    requires default in entries && IsTable(t, entries, default, phases) && IsTable(u, entries, default, phases)
    ensures t == u
  {
    hide Ordered, RouteOf;
    assert multiset(t.order[..|t.pickOrder|]) == multiset(u.order[..|u.pickOrder|]);
    SortedIsUnique(t.order[..|t.pickOrder|], u.order[..|u.pickOrder|]);
    assert t.order == t.order[..|t.pickOrder|] + [default];
    assert u.order == u.order[..|u.pickOrder|] + [default];
  }

  // -------------------------------------------------------------------- pick

  predicate RouteClaims(r: Route, facade: Facade, phase: Phase, mime: string, ext: string) {
    && facade in r.engine.facades
    && match phase
       case MimePhase => mime != "" && exists k :: 0 <= k < |r.mimePats| && Matches(r.mimePats[k], mime)
       case ExtPhase => ext != "" && ext in r.extPats
  }

  /** The first route of the table, from i on, that claims. */
  function Scan(routes: seq<Route>, facade: Facade, phase: Phase, mime: string, ext: string): Option<Engine> {
    if routes == [] then None
    else if RouteClaims(routes[0], facade, phase, mime, ext) then Some(routes[0].engine)
    else Scan(routes[1..], facade, phase, mime, ext)
  }

  function PickIn(t: Table, phases: seq<Phase>, facade: Facade, mime: string, ext: string): Outcome {
    if phases == [] then (if facade in t.default.facades then Picked(t.default, ByDefault) else NoEngineForFacade)
    else match Scan(t.pickOrder, facade, phases[0], mime, ext)
         case Some(e) => Picked(e, SourceOf(phases[0]))
         case None => PickIn(t, phases[1..], facade, mime, ext)
  }

  /** PickRouteVerbose on a built table. */
  function Pick(t: Table, facade: Facade, hint: Hint): Outcome {
    PickIn(t, t.phases, facade, Canonical(hint.mime), ToLower(Extension(hint.filename)))
  }

  lemma {:induction false} ScanDrop(routes: seq<Route>, i: nat, facade: Facade, phase: Phase, mime: string, ext: string)
    requires i <= |routes|
    requires forall k :: 0 <= k < i ==> !RouteClaims(routes[k], facade, phase, mime, ext)
    ensures Scan(routes, facade, phase, mime, ext) == Scan(routes[i..], facade, phase, mime, ext)
    decreases i
  {
    if i == 0 {
      assert routes[0..] == routes;
    } else {
      ScanDrop(routes[1..], i - 1, facade, phase, mime, ext);
      assert routes[1..][i - 1..] == routes[i..];
    }
  }

  lemma {:induction false} PickDrop(t: Table, phases: seq<Phase>, k: nat, facade: Facade, mime: string, ext: string)
    requires k < |phases| && Scan(t.pickOrder, facade, phases[k], mime, ext).None?
    ensures PickIn(t, phases[k..], facade, mime, ext) == PickIn(t, phases[k + 1..], facade, mime, ext)
  {
    assert phases[k..][1..] == phases[k + 1..];
  }

  /** PickRouteVerbose: the loops over phases, routes and patterns. */
  method PickRouteVerbose(t: Table, facade: Facade, hint: Hint) returns (o: Outcome)
    ensures o == Pick(t, facade, hint)
  {
    hide Canonical, ToLower, Scan;
    var mime := Canonical(hint.mime);
    var ext0 := FilepathExt(hint.filename);
    var ext := ToLower(ext0);
    assert t.phases[0..] == t.phases;
    for p := 0 to |t.phases|
      invariant Pick(t, facade, hint) == PickIn(t, t.phases[p..], facade, mime, ext)
    {
      var found := ScanRoutes(t.pickOrder, facade, t.phases[p], mime, ext);
      if found.Some? {
        return Picked(found.value, SourceOf(t.phases[p]));
      }
      PickDrop(t, t.phases, p, facade, mime, ext);
    }
    o := if facade in t.default.facades then Picked(t.default, ByDefault) else NoEngineForFacade;
  }

  method ScanRoutes(routes: seq<Route>, facade: Facade, phase: Phase, mime: string, ext: string) returns (e: Option<Engine>)
    ensures e == Scan(routes, facade, phase, mime, ext)
  {
    if (phase.MimePhase? && mime == "") || (phase.ExtPhase? && ext == "") {
      ScanDrop(routes, |routes|, facade, phase, mime, ext);
      return None;
    }
    for i := 0 to |routes|
      invariant forall k :: 0 <= k < i ==> !RouteClaims(routes[k], facade, phase, mime, ext)
    {
      if facade !in routes[i].engine.facades {
        continue;
      }
      var claims := false;
      if phase.MimePhase? {
        for j := 0 to |routes[i].mimePats|
          invariant forall k :: 0 <= k < j ==> !Matches(routes[i].mimePats[k], mime)
        {
          if Matches(routes[i].mimePats[j], mime) {
            claims := true;
            break;
          }
        }
      } else {
        for j := 0 to |routes[i].extPats|
          invariant forall k :: 0 <= k < j ==> routes[i].extPats[k] != ext
        {
          if routes[i].extPats[j] == ext {
            claims := true;
            break;
          }
        }
      }
      if claims {
        ScanDrop(routes, i, facade, phase, mime, ext);
        return Some(routes[i].engine);
      }
    }
    ScanDrop(routes, |routes|, facade, phase, mime, ext);
    e := None;
  }

  // ---------------------------------------------------------- the main result

  lemma RouteClaimsMeansClaims(e: Entry, facade: Facade, phase: Phase, hint: Hint)
    ensures RouteClaims(RouteOf(e), facade, phase, Canonical(hint.mime), ToLower(Extension(hint.filename)))
       <==> Claims(e, facade, phase, hint)
  {
    hide Canonical, ToLower, Extension, MimeRule, ExtRule, PatternsOf, ExtPatternsOf;
    var mime, ext := Canonical(hint.mime), ToLower(Extension(hint.filename));
    PatternsMean(e.mimeTypes, mime);
    ExtPatternsMean(e.extensions, ext);
    if phase.MimePhase? && SomePattern(PatternsOf(e.mimeTypes), mime) {
      var p :| p in PatternsOf(e.mimeTypes) && Matches(p, mime);
      var k :| 0 <= k < |PatternsOf(e.mimeTypes)| && PatternsOf(e.mimeTypes)[k] == p;
    }
  }

  ghost predicate RoutesOf(routes: seq<Route>, names: seq<string>, entries: Entries) {
    && |routes| == |names|
    && forall i :: 0 <= i < |names| ==> names[i] in entries && routes[i] == RouteOf(entries[names[i]])
  }

  /** The scan finds the first name in order that claims, or shows there is none. */
  lemma {:induction false} ScanFindsFirst(routes: seq<Route>, names: seq<string>, entries: Entries, facade: Facade, phase: Phase, hint: Hint)
    requires RoutesOf(routes, names, entries) && Ordered(names)
    ensures var found := Scan(routes, facade, phase, Canonical(hint.mime), ToLower(Extension(hint.filename)));
            && (found.None? ==> forall n :: n in names ==> !Claims(entries[n], facade, phase, hint))
            && (found.Some? ==> exists n :: n in names && Claims(entries[n], facade, phase, hint) && found.value == entries[n].engine
                                     && forall m :: m in names && Claims(entries[m], facade, phase, hint) ==> AtMost(n, m))
  {
    hide Canonical, ToLower, Extension, Claims, RouteClaims, Before;
    if names != [] {
      RouteClaimsMeansClaims(entries[names[0]], facade, phase, hint);
      AtMostTotal(names[0], names[0]);
      if Claims(entries[names[0]], facade, phase, hint) {
        assert forall m :: m in names ==> AtMost(names[0], m);
      } else {
        ScanFindsFirst(routes[1..], names[1..], entries, facade, phase, hint);
        assert names == [names[0]] + names[1..];
      }
    }
  }

  /** PickRouteVerbose over NewRegistry obeys the rule, for every configuration. */
  lemma {:induction false} PickObeysRule(t: Table, entries: Entries, default: string, all: seq<Phase>, phases: seq<Phase>, facade: Facade, hint: Hint)
    requires default in entries && IsTable(t, entries, default, all)
    ensures Rule(entries, default, facade, phases, hint, PickIn(t, phases, facade, Canonical(hint.mime), ToLower(Extension(hint.filename))))
  {
    hide Canonical, ToLower, Extension, Claims, AtMost, RouteOf, Scan;
    if phases != [] {
      var names := t.order[..|t.pickOrder|];
      ScanFindsFirst(t.pickOrder, names, entries, facade, phases[0], hint);
      NamesAreNonDefault(names, entries, default);
      PickObeysRule(t, entries, default, all, phases[1..], facade, hint);
      var found := Scan(t.pickOrder, facade, phases[0], Canonical(hint.mime), ToLower(Extension(hint.filename)));
      if found.Some? {
        var n :| n in names && Claims(entries[n], facade, phases[0], hint) && found.value == entries[n].engine
              && forall m :: m in names && Claims(entries[m], facade, phases[0], hint) ==> AtMost(n, m);
        assert First(entries, default, facade, phases[0], hint, n);
      }
    }
  }

  lemma NamesAreNonDefault(names: seq<string>, entries: Entries, default: string)
    requires AreNames(names, entries.Keys, default)
    ensures forall n :: n in names <==> n in entries && n != default
  {
    forall n ensures n in names <==> n in entries && n != default {
      assert n in names <==> multiset(names)[n] > 0;
    }
  }

  /** The answer of PickRouteVerbose is the one and only answer of the rule. */
  lemma PickIsTheRule(t: Table, entries: Entries, default: string, phases: seq<Phase>, facade: Facade, hint: Hint, o: Outcome)
    requires default in entries && IsTable(t, entries, default, phases)
    ensures Rule(entries, default, facade, phases, hint, o) <==> o == Pick(t, facade, hint)
  {
    hide Canonical, ToLower, Extension, Rule, PickIn;
    PickObeysRule(t, entries, default, phases, phases, facade, hint);
    if Rule(entries, default, facade, phases, hint, o) {
      RuleIsDeterministic(entries, default, facade, phases, hint, o, Pick(t, facade, hint));
    }
  }

  // -------------------------------------------------- strategies that coincide

  function Dotted(t: string): string
    requires t != ""
  {
    if t[0] == '.' then t else "." + t
  }

  /** A listed extension that some file name has: one segment. */
  predicate Usable(listed: string) {
    var t := Normal(listed);
    t != "" && OneSegment(Dotted(t))
  }

  predicate OneSegment(e: string) {
    e != "" && e[0] == '.' && forall j :: 1 <= j < |e| ==> e[j] != '.' && !Separator(e[j])
  }

  lemma {:induction false} ExtensionShape(name: string)
    ensures Extension(name) != "" ==> OneSegment(Extension(name))
  {
    if name != "" && !Separator(name[|name| - 1]) && name[|name| - 1] != '.' {
      ExtensionShape(name[..|name| - 1]);
    }
  }

  lemma LowerOneSegment(e: string)
    ensures OneSegment(e) ==> OneSegment(ToLower(e))
  {
  }

  lemma OneSegmentIsExtension(e: string)
    requires OneSegment(e)
    ensures Extension(e) == e
  {
    ExtensionIsFromLastDot(e);
    assert LastDot(e, 0);
  }

  lemma NormalIsLower(listed: string)
    requires Normal(listed) != ""
    ensures ToLower(Dotted(Normal(listed))) == Dotted(Normal(listed))
  {
    hide TrimSpace;
    LowerTwice(TrimSpace(listed));
    LowerStays(Dotted(Normal(listed)));
  }

  /** A non-default engine that answers some facade and lists an extension that
      files can have. */
  ghost predicate ListsExtension(entries: Entries, default: string, n: string, listed: string) {
    n in entries && n != default && entries[n].engine.facades != [] && listed in entries[n].extensions && Usable(listed)
  }

  lemma ClaimNeedsUsable(entries: Entries, default: string, facade: Facade, hint: Hint, n: string)
    requires Candidate(entries, default, facade, ExtPhase, hint, n)
    ensures exists listed :: ListsExtension(entries, default, n, listed)
  {
    hide Normal, ToLower, Extension, OneSegment;
    var ext := ToLower(Extension(hint.filename));
    ExtensionShape(hint.filename);
    LowerOneSegment(Extension(hint.filename));
    assert ToLower("") == "";
    var listed :| listed in entries[n].extensions && ExtRule(listed, ext);
    assert ListsExtension(entries, default, n, listed);
  }

  lemma UsableIsClaimed(entries: Entries, default: string, n: string, listed: string) returns (facade: Facade, hint: Hint)
    requires ListsExtension(entries, default, n, listed)
    ensures Candidate(entries, default, facade, ExtPhase, hint, n) && hint.mime == ""
  {
    hide Normal, ToLower, Extension;
    facade := entries[n].engine.facades[0];
    var e := Dotted(Normal(listed));
    hint := Hint("", e);
    OneSegmentIsExtension(e);
    NormalIsLower(listed);
    assert ExtRule(listed, e);
  }

  /** mime_then_extension and mime route every upload alike exactly when no
      non-default engine lists an extension that files can have. */
  lemma SameAsMimeIff(t: Table, u: Table, entries: Entries, default: string)
    requires default in entries
    requires IsTable(t, entries, default, [MimePhase, ExtPhase]) && IsTable(u, entries, default, [MimePhase])
    ensures (forall facade, hint :: Pick(t, facade, hint) == Pick(u, facade, hint))
       <==> (forall n, listed :: !ListsExtension(entries, default, n, listed))
  {
    hide Pick, ListsExtension, Candidate, First, IsTable;
    if n, listed :| ListsExtension(entries, default, n, listed) {
      var facade, hint := UsableIsClaimed(entries, default, n, listed);
      ExtensionMatters(t, u, entries, default, facade, hint, n);
    } else {
      forall facade, hint ensures Pick(t, facade, hint) == Pick(u, facade, hint) {
        forall n ensures !Candidate(entries, default, facade, ExtPhase, hint, n) {
          if Candidate(entries, default, facade, ExtPhase, hint, n) {
            ClaimNeedsUsable(entries, default, facade, hint, n);
            assert false;
          }
        }
        ExtensionDoesNotMatter(t, u, entries, default, facade, hint);
      }
    }
  }

  lemma ExtensionMatters(t: Table, u: Table, entries: Entries, default: string, facade: Facade, hint: Hint, n: string)
    requires default in entries
    requires IsTable(t, entries, default, [MimePhase, ExtPhase]) && IsTable(u, entries, default, [MimePhase])
    requires Candidate(entries, default, facade, ExtPhase, hint, n) && hint.mime == ""
    ensures Pick(t, facade, hint) != Pick(u, facade, hint)
  {
    hide IsTable, Pick;
    var o, p := Pick(t, facade, hint), Pick(u, facade, hint);
    PickIsTheRule(t, entries, default, [MimePhase, ExtPhase], facade, hint, o);
    PickIsTheRule(u, entries, default, [MimePhase], facade, hint, p);
    CanonicalOfNothing();
    assert Unclaimed(entries, default, facade, MimePhase, hint);
    assert !Unclaimed(entries, default, facade, ExtPhase, hint);
    hide Candidate, First;
    assert [MimePhase, ExtPhase][1..] == [ExtPhase] && [MimePhase][1..] == [];
    assert Rule(entries, default, facade, [ExtPhase], hint, o) && Rule(entries, default, facade, [], hint, p);
  }

  lemma CanonicalOfNothing()
    ensures Canonical("") == ""
  {
    CanonicalStays("");
  }

  lemma ExtensionDoesNotMatter(t: Table, u: Table, entries: Entries, default: string, facade: Facade, hint: Hint)
    requires default in entries
    requires IsTable(t, entries, default, [MimePhase, ExtPhase]) && IsTable(u, entries, default, [MimePhase])
    requires Unclaimed(entries, default, facade, ExtPhase, hint)
    ensures Pick(t, facade, hint) == Pick(u, facade, hint)
  {
    hide IsTable, Pick, Candidate, First;
    var p := Pick(u, facade, hint);
    PickIsTheRule(u, entries, default, [MimePhase], facade, hint, p);
    assert [MimePhase, ExtPhase][1..] == [ExtPhase] && [MimePhase][1..] == [] && [ExtPhase][1..] == [];
    if Unclaimed(entries, default, facade, MimePhase, hint) {
      assert Rule(entries, default, facade, [], hint, p);
      assert Rule(entries, default, facade, [ExtPhase], hint, p);
    }
    PickIsTheRule(t, entries, default, [MimePhase, ExtPhase], facade, hint, p);
  }
}
