// The media type of an upload (internal/engine/mimedetect): the declared type
// when it says something, else what the head of the body looks like, else what
// the file name's extension stands for.

module Mime {
  import opened Bytes
  import opened Enumerations
  import opened Text

  const OCTET_STREAM := "application/octet-stream"

  const OOXML := "application/vnd.openxml" + "formats-officedocument."

  predicate IsGeneric(s: string) {
    s == "" || s == OCTET_STREAM || s == "binary/octet-stream"
  }

  /** Compound File types, which cannot be told apart by their first bytes. */
  predicate IsCfb(s: string) {
    || s == "application/vnd.ms-powerpoint" || s == "application/vnd.ms-office" || s == "application/x-cfb"
    || s == "application/x-ole-storage" || s == "application/msword" || s == "application/vnd.ms-excel"
  }

  function Builtin(): map<string, string> {
    map[
      ".msg" := "application/vnd.ms-outlook",
      ".doc" := "application/msword",
      ".xls" := "application/vnd.ms-excel",
      ".ppt" := "application/vnd.ms-powerpoint",
      ".docx" := OOXML + "wordprocessingml.document",
      ".xlsx" := OOXML + "spreadsheetml.sheet",
      ".pptx" := OOXML + "presentationml.presentation",
      ".eml" := "message/rfc822",
      ".csv" := "text/csv",
      ".tsv" := "text/tab-separated-values"]
  }

  // -------------------------------------------------------------- extensions

  predicate Separator(c: char) {
    c == '/' || c == '\\'
  }

  /** What follows the last dot of the last path segment, with the dot. */
  function Extension(name: string): string {
    if name == "" || Separator(name[|name| - 1]) then ""
    else if name[|name| - 1] == '.' then "."
    else
      var e := Extension(name[..|name| - 1]);
      if e == "" then "" else e + [name[|name| - 1]]
  }

  predicate LastDot(name: string, k: nat)
    requires k < |name|
  {
    name[k] == '.' && forall j :: k < j < |name| ==> name[j] != '.' && !Separator(name[j])
  }

  lemma {:induction false} ExtensionIsFromLastDot(name: string)
    ensures forall k :: 0 <= k < |name| && LastDot(name, k) ==> Extension(name) == name[k..]
    ensures (forall k :: 0 <= k < |name| ==> !LastDot(name, k)) ==> Extension(name) == ""
  {
    if name != "" && !Separator(name[|name| - 1]) && name[|name| - 1] != '.' {
      var shorter := name[..|name| - 1];
      ExtensionIsFromLastDot(shorter);
      assert !LastDot(name, |name| - 1);
      forall k | 0 <= k < |shorter| ensures LastDot(name, k) ==> LastDot(shorter, k) && name[k..] == shorter[k..] + [name[|name| - 1]] {
      }
      if forall k :: 0 <= k < |name| ==> !LastDot(name, k) {
        forall k | 0 <= k < |shorter| ensures !LastDot(shorter, k) {
          assert !LastDot(name, k);
        }
      }
    } else if name != "" && name[|name| - 1] == '.' {
      assert LastDot(name, |name| - 1);
    }
  }

  /** filepathExt, and extOf before it lowers the result: a scan from the end. */
  method FilepathExt(name: string) returns (ext: string)
    ensures ext == Extension(name)
  {
    ExtensionIsFromLastDot(name);
    var i := |name| - 1;
    while i >= 0
      invariant -1 <= i < |name|
      invariant forall j :: i < j < |name| ==> name[j] != '.' && !Separator(name[j])
    {
      if Separator(name[i]) {
        return "";
      }
      if name[i] == '.' {
        assert LastDot(name, i);
        return name[i..];
      }
      i := i - 1;
    }
    ext := "";
  }

  // --------------------------------------------------------- canonical types

  function BeforeSemicolon(s: string): (r: string)
    ensures r <= s && ';' !in r
    ensures |r| < |s| ==> s[|r|] == ';'
  {
    if s == "" || s[0] == ';' then "" else [s[0]] + BeforeSemicolon(s[1..])
  }

  /** canonical and canonicalMIME: no parameters, no outer blanks, lower case. */
  function Canonical(ct: string): string {
    ToLower(TrimSpace(BeforeSemicolon(TrimSpace(ct))))
  }

  predicate IsCanonical(s: string) {
    && (forall i :: 0 <= i < |s| ==> s[i] != ';' && LowerChar(s[i]) == s[i])
    && (s != "" ==> !IsSpace(s[0]) && !IsSpace(s[|s| - 1]))
  }

  lemma {:induction false} TrimKeepsSubset(s: string, c: char)
    requires c !in s
    ensures c !in TrimSpace(s)
  {
    hide TrimLeft, TrimRight;
    TrimLeftIsSuffix(s);
    TrimRightIsPrefix(TrimLeft(s));
  }

  lemma LowerFacts(c: char)
    ensures LowerChar(LowerChar(c)) == LowerChar(c)
    ensures IsSpace(LowerChar(c)) <==> IsSpace(c)
    ensures LowerChar(c) == ';' <==> c == ';'
  {
  }

  lemma LowerIsCanonical(t: string)
    requires ';' !in t && (t != "" ==> !IsSpace(t[0]) && !IsSpace(t[|t| - 1]))
    ensures IsCanonical(ToLower(t))
  {
    hide LowerChar, IsSpace;
    var l := ToLower(t);
    forall i | 0 <= i < |l| ensures l[i] != ';' && LowerChar(l[i]) == l[i] {
      LowerFacts(t[i]);
    }
    if l != "" {
      LowerFacts(t[0]);
      LowerFacts(t[|t| - 1]);
    }
  }

  lemma CanonicalIsCanonical(ct: string)
    ensures IsCanonical(Canonical(ct))
  {
    hide TrimSpace, IsSpace, ToLower, IsCanonical;
    var b := BeforeSemicolon(TrimSpace(ct));
    TrimKeepsSubset(b, ';');
    LowerIsCanonical(TrimSpace(b));
  }

  lemma {:induction false} NoSemicolon(s: string)
    requires ';' !in s
    ensures BeforeSemicolon(s) == s
  {
  }

  /** A canonical type stays as it is: canonicalising twice changes nothing. */
  lemma CanonicalStays(s: string)
    requires IsCanonical(s)
    ensures Canonical(s) == s
  {
    TrimmedStays(s);
    NoSemicolon(s);
    assert forall i :: 0 <= i < |s| ==> ToLower(s)[i] == s[i];
  }

  lemma {:induction false} TrimLeftOf(s: string, t: string)
    requires exists i :: 0 <= i < |s| && !IsSpace(s[i])
    ensures TrimLeft(s + t) == TrimLeft(s) + t
  {
    hide IsSpace;
    var i :| 0 <= i < |s| && !IsSpace(s[i]);
    if IsSpace(s[0]) {
      assert (s + t)[1..] == s[1..] + t;
      assert s[1..][i - 1] == s[i];
      TrimLeftOf(s[1..], t);
    }
  }

  lemma {:induction false} TrimRightOf(s: string, t: string)
    requires s != "" && !IsSpace(s[|s| - 1])
    ensures |TrimRight(s + t)| >= |s|
  {
    if t == "" {
      assert s + t == s;
    } else if IsSpace(t[|t| - 1]) {
      assert (s + t)[..|s + t| - 1] == s + t[..|t| - 1];
      TrimRightOf(s, t[..|t| - 1]);
    }
  }

  lemma {:induction false} BeforeFirstSemicolon(s: string, t: string)
    requires ';' !in s && s + ";" <= t
    ensures BeforeSemicolon(t) == s
  {
    if s == "" {
      assert t[0] == ';';
    } else {
      assert t[0] == s[0];
      BeforeFirstSemicolon(s[1..], t[1..]);
    }
  }

  lemma {:induction false} AllBlank(s: string)
    requires forall i :: 0 <= i < |s| ==> IsSpace(s[i])
    ensures TrimLeft(s) == ""
  {
    if s != "" {
      AllBlank(s[1..]);
    }
  }

  lemma PrefixOfPrefix(a: string, b: string, whole: string)
    requires a <= whole && b <= whole && |a| <= |b|
    ensures a <= b
  {
  }

  /** Trimming leaves everything from the first visible character to a ";". */
  lemma TrimRightKeeps(l: string, parameters: string)
    ensures l + ";" <= TrimRight(l + (";" + parameters))
  {
    hide TrimRight;
    var x := l + (";" + parameters);
    TrimRightIsPrefix(x);
    assert x == (l + ";") + parameters;
    TrimRightOf(l + ";", parameters);
    PrefixOfPrefix(l + ";", TrimRight(x), x);
  }

  lemma TrimOf(t: string, parameters: string)
    ensures TrimLeft(t) + ";" <= TrimSpace(t + (";" + parameters))
  {
    hide TrimRight;
    if exists i :: 0 <= i < |t| && !IsSpace(t[i]) {
      TrimLeftOf(t, ";" + parameters);
    } else {
      BlankBeforeSemicolon(t, parameters);
      AllBlank(t);
      assert "" + (";" + parameters) == ";" + parameters;
    }
    hide TrimLeft;
    TrimRightKeeps(TrimLeft(t), parameters);
  }

  /** Parameters do not matter: "text/plain; charset=utf-8" is "text/plain". */
  lemma CanonicalDropsParameters(t: string, parameters: string)
    requires ';' !in t
    ensures Canonical(t + (";" + parameters)) == Canonical(t)
  {
    hide IsSpace, ToLower, BeforeSemicolon, TrimRight;
    var l := TrimLeft(t);
    TrimKeepsSubset(t, ';');
    NoSemicolon(TrimSpace(t));
    TrimSpaceTwice(t);
    assert ';' !in l by {
      TrimLeftIsSuffix(t);
    }
    TrimOf(t, parameters);
    BeforeFirstSemicolon(l, TrimSpace(t + (";" + parameters)));
    TrimLeftTwice(t);
  }

  lemma TrimSpaceTwice(s: string)
    ensures TrimSpace(TrimSpace(s)) == TrimSpace(s)
  {
    TrimmedStays(TrimSpace(s));
  }

  lemma TrimLeftTwice(s: string)
    ensures TrimLeft(TrimLeft(s)) == TrimLeft(s)
  {
  }

  lemma {:induction false} BlankBeforeSemicolon(t: string, parameters: string)
    requires forall i :: 0 <= i < |t| ==> IsSpace(t[i])
    ensures TrimLeft(t + (";" + parameters)) == ";" + parameters
  {
    if t == "" {
      assert t + (";" + parameters) == ";" + parameters;
    } else {
      assert (t + (";" + parameters))[1..] == t[1..] + (";" + parameters);
      BlankBeforeSemicolon(t[1..], parameters);
    }
  }

  // ---------------------------------------------------------------- resolver

  datatype Resolver = Resolver(extMap: map<string, string>)

  function Normal(s: string): string {
    ToLower(TrimSpace(s))
  }

  /** m is the base table with every override in place; where two overrides
      normalise to one key, either may have won. */
  ghost predicate IsMerge(base: map<string, string>, m: map<string, string>, overrides: map<string, string>) {
    && (forall k :: k in m <==> k in base || exists o :: o in overrides && Normal(o) == k)
    && (forall k :: k in m ==> ComesFrom(base, m[k], k, overrides))
  }

  ghost predicate ComesFrom(base: map<string, string>, value: string, k: string, overrides: map<string, string>) {
    || (exists o :: o in overrides && Normal(o) == k && value == Normal(overrides[o]))
    || (k in base && value == base[k] && forall o :: o in overrides ==> Normal(o) != k)
  }

  /** The table after these overrides, in this order. */
  function MergeAlong(base: map<string, string>, overrides: map<string, string>, order: seq<string>): map<string, string>
    requires forall i :: 0 <= i < |order| ==> order[i] in overrides
  {
    if order == [] then base else
      var k := order[|order| - 1];
      MergeAlong(base, overrides, order[..|order| - 1])[Normal(k) := Normal(overrides[k])]
  }

  /** NewResolver; Go ranges over the overrides in any order. */
  method NewResolver(overrides: map<string, string>) returns (r: Resolver, ghost order: seq<string>)
    ensures Enumerates(order, overrides.Keys) && (forall i :: 0 <= i < |order| ==> order[i] in overrides)
    ensures r.extMap == MergeAlong(Builtin(), overrides, order)
    ensures IsMerge(Builtin(), r.extMap, overrides)
  {
    hide Builtin, IsMerge, Normal, Enumerates;
    NoKeys();
    var eff := Builtin();
    var todo := overrides.Keys;
    order := [];
    assert overrides.Keys - overrides.Keys == {};
    while todo != {}
      invariant todo <= overrides.Keys && Enumerates(order, overrides.Keys - todo)
      invariant forall i :: 0 <= i < |order| ==> order[i] in overrides
      invariant eff == MergeAlong(Builtin(), overrides, order)
    {
      var k :| k in todo;
      OneKeyMore(order, overrides.Keys - todo, k);
      assert overrides.Keys - todo + {k} == overrides.Keys - (todo - {k});
      assert (order + [k])[..|order|] == order;
      eff := eff[Normal(k) := Normal(overrides[k])];
      order := order + [k];
      todo := todo - {k};
    }
    assert overrides.Keys - {} == overrides.Keys;
    AlongIsMerge(Builtin(), overrides, order);
    r := Resolver(eff);
  }

  /** Some of the overrides. */
  function Only(overrides: map<string, string>, order: seq<string>): map<string, string> {
    map o | o in overrides && o in order :: overrides[o]
  }

  lemma {:induction false} AlongMergesPart(base: map<string, string>, overrides: map<string, string>, order: seq<string>)
    requires forall i :: 0 <= i < |order| ==> order[i] in overrides
    requires forall i, j :: 0 <= i < j < |order| ==> order[i] != order[j]
    ensures IsMerge(base, MergeAlong(base, overrides, order), Only(overrides, order))
  {
    hide IsMerge, Normal;
    if order == [] {
      assert Only(overrides, order) == map[];
      BaseIsMerge(base);
    } else {
      var front, k := order[..|order| - 1], order[|order| - 1];
      AlongMergesPart(base, overrides, front);
      assert k !in front;
      assert order == front + [k];
      assert Only(overrides, order) == Only(overrides, front)[k := overrides[k]];
      MergeOneMore(base, MergeAlong(base, overrides, front), Only(overrides, front), k, overrides[k]);
    }
  }

  lemma AlongIsMerge(base: map<string, string>, overrides: map<string, string>, order: seq<string>)
    requires Enumerates(order, overrides.Keys) && forall i :: 0 <= i < |order| ==> order[i] in overrides
    ensures IsMerge(base, MergeAlong(base, overrides, order), overrides)
  {
    hide IsMerge;
    AlongMergesPart(base, overrides, order);
    assert Only(overrides, order) == overrides;
  }

  lemma MergeOneMore(base: map<string, string>, m: map<string, string>, done: map<string, string>, k: string, v: string)
    requires IsMerge(base, m, done) && k !in done
    ensures IsMerge(base, m[Normal(k) := Normal(v)], done[k := v])
  {
    hide Normal;
    var m', done' := m[Normal(k) := Normal(v)], done[k := v];
    assert k in done' && done'[k] == v;
    forall x ensures x in m' <==> x in base || exists o :: o in done' && Normal(o) == x {
      if exists o :: o in done && Normal(o) == x {
        var o :| o in done && Normal(o) == x;
        assert o in done';
      }
    }
    forall x | x in m' ensures ComesFrom(base, m'[x], x, done') {
      if x != Normal(k) {
        assert ComesFrom(base, m[x], x, done);
        if o :| o in done && Normal(o) == x && m[x] == Normal(done[o]) {
          assert o in done' && done'[o] == done[o];
        }
      }
    }
  }

  lemma BaseIsMerge(base: map<string, string>)
    ensures IsMerge(base, base, map[])
  {
  }

  /** validateMimedetect: keys like ".msg", values like "type/subtype". */
  predicate ValidOverride(k: string, v: string) {
    && 2 <= |k| <= 16 && k[0] == '.' && (forall i :: 1 <= i < |k| ==> 'a' <= k[i] <= 'z' || '0' <= k[i] <= '9')
    && v != "" && (forall i :: 0 <= i < |v| ==> !IsSpace(v[i]) && v[i] != ';')
  }

  lemma LowerStays(s: string)
    requires forall i :: 0 <= i < |s| ==> LowerChar(s[i]) == s[i]
    ensures ToLower(s) == s
  {
  }

  lemma StarsAreCanonical()
    ensures IsCanonical("*/*")
  {
  }

  lemma CanonicalIsNormal(s: string)
    requires IsCanonical(s)
    ensures Normal(s) == s
  {
    TrimmedStays(s);
    hide TrimSpace, ToLower;
    LowerStays(s);
  }

  lemma NormalOfValid(k: string, v: string)
    requires ValidOverride(k, v)
    ensures Normal(k) == k && Normal(v) == ToLower(v) && IsCanonical(ToLower(v)) && v != ""
  {
    hide TrimSpace, ToLower, IsCanonical;
    TrimmedStays(k);
    TrimmedStays(v);
    LowerIsCanonical(v);
    LowerStays(k);
  }

  /** For a validated configuration the order of the overrides is irrelevant, the
      operator's entry wins, and every other entry is the built-in one. */
  lemma ValidOverridesWin(base: map<string, string>, m: map<string, string>, overrides: map<string, string>)
    requires IsMerge(base, m, overrides) && forall k :: k in overrides ==> ValidOverride(k, overrides[k])
    ensures m.Keys == base.Keys + overrides.Keys
    ensures forall k :: k in m ==> m[k] == if k in overrides then ToLower(overrides[k]) else base[k]
  {
    hide ValidOverride, Normal, ToLower;
    forall k | k in overrides ensures Normal(k) == k && Normal(overrides[k]) == ToLower(overrides[k]) {
      NormalOfValid(k, overrides[k]);
    }
    forall k | k in m ensures m[k] == if k in overrides then ToLower(overrides[k]) else base[k] {
      assert ComesFrom(base, m[k], k, overrides);
    }
  }

  ghost predicate Collide(overrides: map<string, string>, a: string, b: string) {
    a in overrides && b in overrides && Normal(a) == Normal(b) && Normal(overrides[a]) != Normal(overrides[b])
  }

  lemma MergesAgree(base: map<string, string>, overrides: map<string, string>, m: map<string, string>, n: map<string, string>)
    requires IsMerge(base, m, overrides) && IsMerge(base, n, overrides) && forall a, b :: !Collide(overrides, a, b)
    ensures m == n
  {
    hide Normal;
    forall k | k in m ensures k in n && m[k] == n[k] {
      assert ComesFrom(base, m[k], k, overrides) && ComesFrom(base, n[k], k, overrides);
      if o :| o in overrides && Normal(o) == k && m[k] == Normal(overrides[o]) {
        var p :| p in overrides && Normal(p) == k && n[k] == Normal(overrides[p]);
        assert !Collide(overrides, o, p);
      }
    }
  }

  /** In some order, override a has the last word on its key. */
  lemma LastWord(base: map<string, string>, overrides: map<string, string>, a: string) returns (order: seq<string>)
    requires a in overrides
    ensures Order(order, overrides)
    ensures Normal(a) in MergeAlong(base, overrides, order) && MergeAlong(base, overrides, order)[Normal(a)] == Normal(overrides[a])
  {
    hide Normal;
    var rest := OrderEndingIn(overrides.Keys, a);
    order := rest + [a];
    assert order[..|order| - 1] == rest;
    forall i | 0 <= i < |order| ensures order[i] in overrides {
      assert order[i] in order;
    }
  }

  /** An order in which Go may range over the overrides. */
  ghost predicate Order(order: seq<string>, overrides: map<string, string>) {
    Enumerates(order, overrides.Keys) && forall i :: 0 <= i < |order| ==> order[i] in overrides
  }

  /** The order in which Go visits the overrides is irrelevant exactly when no two
      of them normalise to the same key with different values. */
  lemma OrderIrrelevantIff(base: map<string, string>, overrides: map<string, string>)
    ensures (forall x, y :: Order(x, overrides) && Order(y, overrides) ==> MergeAlong(base, overrides, x) == MergeAlong(base, overrides, y))
       <==> (forall a, b :: !Collide(overrides, a, b))
  {
    hide Normal, IsMerge;
    if a, b :| Collide(overrides, a, b) {
      var x := LastWord(base, overrides, a);
      var y := LastWord(base, overrides, b);
      assert MergeAlong(base, overrides, x) != MergeAlong(base, overrides, y);
    } else {
      forall x, y | Order(x, overrides) && Order(y, overrides) ensures MergeAlong(base, overrides, x) == MergeAlong(base, overrides, y) {
        AlongIsMerge(base, overrides, x);
        AlongIsMerge(base, overrides, y);
        MergesAgree(base, overrides, MergeAlong(base, overrides, x), MergeAlong(base, overrides, y));
      }
    }
  }

  // -------------------------------------------------------------- resolution

  datatype Origin = Declared | Sniffed | SniffedThenExtension | ByExtension | FellBack

  datatype Resolution = Resolution(mime: string, origin: Origin)

  /** lookupByFilename; "" stands for no entry. */
  function Lookup(r: Resolver, filename: string): string {
    var ext := ToLower(Extension(filename));
    if ext != "" && ext in r.extMap then r.extMap[ext] else ""
  }

  /** What the head of the body looks like; detect is mimetype.Detect. */
  function Sniff(detect: bytes -> string, head: bytes): string {
    if |head| > 0 then Canonical(detect(head)) else ""
  }

  /** Resolve. */
  function Resolve(r: Resolver, detect: bytes -> string, declared: string, head: bytes, filename: string): Resolution {
    var d := Canonical(declared);
    if !IsGeneric(d) then Resolution(d, Declared)
    else
      var sniff := Sniff(detect, head);
      if sniff != "" && !IsGeneric(sniff) && !IsCfb(sniff) then Resolution(sniff, Sniffed)
      else
        var named := Lookup(r, filename);
        if IsCfb(sniff) && named != "" then Resolution(named, SniffedThenExtension)
        else if named != "" && (sniff == "" || IsGeneric(sniff)) then Resolution(named, ByExtension)
        else if IsCfb(sniff) then Resolution(sniff, Sniffed)
        else Resolution(OCTET_STREAM, FellBack)
  }

  // ------------------------------------------------- properties of resolution

  predicate CleanTable(table: map<string, string>) {
    forall k :: k in table ==> table[k] != "" && IsCanonical(table[k])
  }

  predicate Plain(c: char) {
    'a' <= c <= 'z' || '0' <= c <= '9' || c == '.' || c == '/' || c == '-'
  }

  predicate AllPlain(s: string) {
    s != "" && forall i :: 0 <= i < |s| ==> Plain(s[i])
  }

  lemma PlainPlus(a: string, b: string)
    requires AllPlain(a) && AllPlain(b)
    ensures AllPlain(a + b)
  {
  }

  lemma PlainOoxml()
    ensures AllPlain(OOXML)
  {
    assert AllPlain("application/vnd.openxml");
    assert AllPlain("formats-officedocument.");
    PlainPlus("application/vnd.openxml", "formats-officedocument.");
  }

  lemma PlainOffice()
    ensures AllPlain(OOXML + "wordprocessingml.document")
    ensures AllPlain(OOXML + "spreadsheetml.sheet")
    ensures AllPlain(OOXML + "presentationml.presentation")
  {
    assert AllPlain("wordprocessingml.document");
    assert AllPlain("spreadsheetml.sheet");
    assert AllPlain("presentationml.presentation");
    hide AllPlain;
    PlainOoxml();
    PlainPlus(OOXML, "wordprocessingml.document");
    PlainPlus(OOXML, "spreadsheetml.sheet");
    PlainPlus(OOXML, "presentationml.presentation");
  }

  lemma PlainSome()
    ensures AllPlain("application/vnd.ms-outlook") && AllPlain("application/msword") && AllPlain("application/vnd.ms-excel")
  {
  }

  lemma PlainRest()
    ensures AllPlain("application/vnd.ms-powerpoint") && AllPlain("message/rfc822") && AllPlain("text/csv")
    ensures AllPlain("text/tab-separated-values")
  {
  }

  lemma PlainIsClean(s: string)
    requires AllPlain(s)
    ensures s != "" && IsCanonical(s)
  {
  }

  lemma BuiltinIsClean()
    ensures CleanTable(Builtin())
  {
    hide AllPlain, IsCanonical;
    PlainOffice();
    PlainSome();
    PlainRest();
    forall k | k in Builtin() ensures Builtin()[k] != "" && IsCanonical(Builtin()[k]) {
      PlainIsClean(Builtin()[k]);
    }
  }

  /** A validated configuration gives a table of bare types. */
  lemma MergedIsClean(m: map<string, string>, overrides: map<string, string>)
    requires IsMerge(Builtin(), m, overrides) && forall k :: k in overrides ==> ValidOverride(k, overrides[k])
    ensures CleanTable(m)
  {
    hide Builtin, IsCanonical, ValidOverride, ToLower, IsMerge;
    BuiltinIsClean();
    ValidOverridesWin(Builtin(), m, overrides);
    forall k | k in m ensures m[k] != "" && IsCanonical(m[k]) {
      if k in overrides {
        NormalOfValid(k, overrides[k]);
      }
    }
  }

  /** Whatever the client declares and whatever the body looks like, the answer is
      a bare lower-case type, so canonicalising it again for routing is the
      identity and the MIME phase always has something to match. */
  lemma ResolvedIsCanonical(r: Resolver, detect: bytes -> string, declared: string, head: bytes, filename: string)
    requires CleanTable(r.extMap)
    ensures var mime := Resolve(r, detect, declared, head, filename).mime; mime != "" && Canonical(mime) == mime
  {
    hide Canonical, IsCanonical, Extension, ToLower, IsCfb;
    assert !IsCfb("") by {
      CfbIsNotEmpty();
    }
    var mime := Resolve(r, detect, declared, head, filename).mime;
    CanonicalIsCanonical(declared);
    if |head| > 0 {
      CanonicalIsCanonical(detect(head));
    }
    OctetStreamIsCanonical();
    CanonicalStays(mime);
  }

  lemma CfbIsNotEmpty()
    ensures !IsCfb("")
  {
  }

  lemma OctetStreamIsCanonical()
    ensures IsCanonical(OCTET_STREAM)
  {
  }

  /** The extension decides exactly when the declared type says nothing, the
      extension is known, and the body looks like nothing or like any Compound
      File; it then decides alone. */
  lemma ExtensionDecidesIff(r: Resolver, detect: bytes -> string, declared: string, head: bytes, filename: string)
    ensures var res, sniff := Resolve(r, detect, declared, head, filename), Sniff(detect, head);
            && (res.origin == ByExtension || res.origin == SniffedThenExtension
                <==> IsGeneric(Canonical(declared)) && Lookup(r, filename) != "" && (IsGeneric(sniff) || IsCfb(sniff)))
            && (res.origin == ByExtension || res.origin == SniffedThenExtension ==> res.mime == Lookup(r, filename))
            && (!IsGeneric(Canonical(declared)) || !(IsGeneric(sniff) || IsCfb(sniff)) ==>
                 forall other: string :: Resolve(r, detect, declared, head, other) == res)
  {
    hide Canonical, Lookup;
    assert !(IsGeneric(Sniff(detect, head)) && IsCfb(Sniff(detect, head)));
  }

  /** What is answered for a body that looks like this when the name says nothing. */
  function Unnamed(sniff: string): string {
    if IsCfb(sniff) then sniff else OCTET_STREAM
  }

  /** Renaming an upload can change its type exactly when the declared type says
      nothing, the body looks like nothing or like any Compound File, and the table has
      for some name another type than the body gets without one. */
  lemma NameMattersIff(r: Resolver, detect: bytes -> string, declared: string, head: bytes)
    ensures var sniff := Sniff(detect, head);
            ((exists a, b :: Resolve(r, detect, declared, head, a).mime != Resolve(r, detect, declared, head, b).mime) <==>
               (&& IsGeneric(Canonical(declared)) && (IsGeneric(sniff) || IsCfb(sniff))
                && exists n :: Lookup(r, n) != "" && Lookup(r, n) != Unnamed(sniff)))
  {
    hide Canonical, Lookup, Resolve;
    var sniff := Sniff(detect, head);
    if a, b :| Resolve(r, detect, declared, head, a).mime != Resolve(r, detect, declared, head, b).mime {
      ExtensionDecidesIff(r, detect, declared, head, a);
      NamedOrNot(r, detect, declared, head, a);
      NamedOrNot(r, detect, declared, head, b);
      assert (Lookup(r, a) != "" && Lookup(r, a) != Unnamed(sniff)) || (Lookup(r, b) != "" && Lookup(r, b) != Unnamed(sniff));
    }
    if IsGeneric(Canonical(declared)) && (IsGeneric(sniff) || IsCfb(sniff)) {
      if n :| Lookup(r, n) != "" && Lookup(r, n) != Unnamed(sniff) {
        NamedOrNot(r, detect, declared, head, n);
        NamedOrNot(r, detect, declared, head, "");
        NoNameNoType(r);
        assert Resolve(r, detect, declared, head, n).mime != Resolve(r, detect, declared, head, "").mime;
      }
    }
  }

  lemma NamedOrNot(r: Resolver, detect: bytes -> string, declared: string, head: bytes, filename: string)
    ensures var sniff := Sniff(detect, head);
            IsGeneric(Canonical(declared)) && (IsGeneric(sniff) || IsCfb(sniff)) ==>
              Resolve(r, detect, declared, head, filename).mime == if Lookup(r, filename) != "" then Lookup(r, filename) else Unnamed(sniff)
  {
    hide Canonical, Lookup;
  }

  lemma NoNameNoType(r: Resolver)
    ensures Lookup(r, "") == ""
  {
  }

  /** The documented rule that ".csv" beats a text/plain sniff is not what
      happens: a text/plain sniff wins over every file name. */
  lemma TextSniffBeatsExtension(r: Resolver, detect: bytes -> string, head: bytes, filename: string, parameters: string)
    requires head != [] && detect(head) == "text/plain" + (";" + parameters)
    ensures Resolve(r, detect, "", head, filename) == Resolution("text/plain", Sniffed)
  {
    hide Canonical, Lookup;
    CanonicalDropsParameters("text/plain", parameters);
    CanonicalStays("text/plain");
    CanonicalStays("");
  }

  /** Only the bare declared type, the head of the body and the extension count. */
  lemma ResolveDependsOnlyOn(r: Resolver, detect: bytes -> string, d1: string, d2: string, head: bytes, f1: string, f2: string)
    requires Canonical(d1) == Canonical(d2) && ToLower(Extension(f1)) == ToLower(Extension(f2))
    ensures Resolve(r, detect, d1, head, f1) == Resolve(r, detect, d2, head, f2)
  {
    hide Canonical, IsGeneric, IsCfb, Extension, ToLower, Sniff;
  }
}
