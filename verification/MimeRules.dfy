// The rules of MIME resolution in their own words: which header spells which type,
// when the declared type, the first bytes or the file name decides, and on what.

module MimeRules {
  import opened Bytes
  import opened Text
  import opened Mime

  // ------------------------------------------------------- spellings of a type

  predicate Blanks(s: string) {
    forall i :: 0 <= i < |s| ==> IsSpace(s[i])
  }

  /** A type as it may stand in a header: not empty, without blanks at its ends. */
  predicate Word(v: string) {
    v != "" && ';' !in v && !IsSpace(v[0]) && !IsSpace(v[|v| - 1])
  }

  /** ct is v, in any case, between blanks and before any parameters. */
  predicate IsSpelling(ct: string, l: string, v: string, r: string, tail: string, t: string) {
    && ct == l + (v + (r + tail)) && Blanks(l) && Blanks(r) && Word(v) && ToLower(v) == t
    && (tail == "" || tail[0] == ';')
  }

  ghost predicate Spells(ct: string, t: string) {
    exists l, v, r, tail :: IsSpelling(ct, l, v, r, tail, t)
  }

  lemma {:induction false} TrimLeftBlanks(l: string, x: string)
    requires Blanks(l) && x != "" && !IsSpace(x[0])
    ensures TrimLeft(l + x) == x
  {
    if l == "" {
      assert l + x == x;
    } else {
      assert (l + x)[1..] == l[1..] + x;
      TrimLeftBlanks(l[1..], x);
    }
  }

  lemma {:induction false} TrimRightBlanks(x: string, r: string)
    requires Blanks(r) && x != "" && !IsSpace(x[|x| - 1])
    ensures TrimRight(x + r) == x
  {
    if r == "" {
      assert x + r == x;
    } else {
      assert (x + r)[..|x + r| - 1] == x + r[..|r| - 1];
      TrimRightBlanks(x, r[..|r| - 1]);
    }
  }

  lemma BareSpelling(l: string, v: string, r: string)
    requires Blanks(l) && Blanks(r) && Word(v)
    ensures Canonical(l + (v + r)) == ToLower(v)
  {
    hide IsSpace;
    TrimLeftBlanks(l, v + r);
    TrimRightBlanks(v, r);
    NoSemicolon(v);
    TrimmedStays(v);
  }

  lemma BlanksHaveNoSemicolon(s: string)
    requires Blanks(s)
    ensures ';' !in s
  {
  }

  /** Canonicalising undoes every spelling. */
  lemma SpelledTypeIsCanonical(ct: string, t: string)
    requires Spells(ct, t)
    ensures Canonical(ct) == t
  {
    var l, v, r, tail :| IsSpelling(ct, l, v, r, tail, t);
    hide Canonical, IsSpace, ToLower;
    BareSpelling(l, v, r);
    Regrouped(l, v, r, tail);
    if tail != "" {
      BlanksHaveNoSemicolon(l);
      BlanksHaveNoSemicolon(r);
      CanonicalDropsParameters(l + (v + r), tail[1..]);
    }
  }

  lemma Regrouped(l: string, v: string, r: string, tail: string)
    ensures tail == "" ==> l + (v + (r + tail)) == l + (v + r)
    ensures tail != "" && tail[0] == ';' ==> l + (v + (r + tail)) == (l + (v + r)) + (";" + tail[1..])
  {
    if tail == "" {
      assert r + tail == r;
    } else if tail[0] == ';' {
      assert tail == ";" + tail[1..];
    }
  }

  /** The types that say nothing, and the types of every Compound File. */
  predicate SaysNothing(t: string) {
    t == "" || t == "application/octet-stream" || t == "binary/octet-stream"
  }

  predicate Compound(t: string) {
    || t == "application/vnd.ms-powerpoint" || t == "application/vnd.ms-office" || t == "application/x-cfb"
    || t == "application/x-ole-storage" || t == "application/msword" || t == "application/vnd.ms-excel"
  }

  lemma Kinds(t: string)
    ensures SaysNothing(t) <==> IsGeneric(t)
    ensures Compound(t) <==> IsCfb(t)
    ensures !(SaysNothing(t) && Compound(t))
  {
  }

  /** The client declared nothing: no type, or a generic one. */
  ghost predicate Undeclared(declared: string) {
    Blanks(declared) || exists t :: SaysNothing(t) && Spells(declared, t)
  }

  lemma BlankIsEmpty(s: string)
    requires Blanks(s)
    ensures Canonical(s) == ""
  {
    AllBlank(s);
  }

  lemma UndeclaredIsGeneric(declared: string)
    requires Undeclared(declared)
    ensures IsGeneric(Canonical(declared))
  {
    hide Canonical;
    if Blanks(declared) {
      BlankIsEmpty(declared);
    } else {
      var t :| SaysNothing(t) && Spells(declared, t);
      SpelledTypeIsCanonical(declared, t);
      Kinds(t);
    }
  }

  // ------------------------------------------------------------ what decides

  /** A declared type that says something is the answer. */
  lemma DeclaredWins(r: Resolver, detect: bytes -> string, declared: string, t: string, head: bytes, filename: string)
    requires Spells(declared, t) && !SaysNothing(t)
    ensures Resolve(r, detect, declared, head, filename) == Resolution(t, Declared)
  {
    SpelledTypeIsCanonical(declared, t);
    Kinds(t);
    hide Canonical, Spells, IsGeneric, IsCfb, SaysNothing;
  }

  /** Otherwise what the first bytes look like is, whatever the file is called, unless
      that is generic or a Compound File. */
  lemma SniffWins(r: Resolver, detect: bytes -> string, declared: string, t: string, head: bytes, filename: string)
    requires Undeclared(declared) && head != [] && Spells(detect(head), t) && !SaysNothing(t) && !Compound(t)
    ensures Resolve(r, detect, declared, head, filename) == Resolution(t, Sniffed)
  {
    UndeclaredIsGeneric(declared);
    SpelledTypeIsCanonical(detect(head), t);
    Kinds(t);
    Kinds("");
    hide Canonical, Spells, Undeclared, Lookup, IsGeneric, IsCfb, SaysNothing, Compound;
  }

  /** The file name has this extension, in any case. */
  predicate HasExtension(filename: string, k: string) {
    && |k| <= |filename| && ToLower(filename[|filename| - |k|..]) == k
    && |k| > 1 && k[0] == '.' && forall j :: 1 <= j < |k| ==> k[j] != '.' && k[j] != '/' && k[j] != '\\'
  }

  lemma LookupByExtension(r: Resolver, filename: string, k: string)
    requires HasExtension(filename, k) && k in r.extMap
    ensures Lookup(r, filename) == r.extMap[k]
  {
    var n := |filename| - |k|;
    var e := filename[n..];
    forall j | 0 <= j < |k| ensures LowerChar(filename[n + j]) == k[j] {
      assert ToLower(e)[j] == LowerChar(e[j]);
    }
    assert LowerChar(filename[n]) == '.' && filename[n] == '.';
    forall j | n < j < |filename| ensures filename[j] != '.' && !Separator(filename[j]) {
      assert LowerChar(filename[j]) == k[j - n];
    }
    assert LastDot(filename, n);
    ExtensionIsFromLastDot(filename);
  }

  /** A Compound File is what its name says: the table's type for the extension. */
  lemma NameTellsCompoundFiles(r: Resolver, detect: bytes -> string, declared: string, t: string, head: bytes, filename: string, k: string)
    requires Undeclared(declared) && head != [] && Spells(detect(head), t) && Compound(t)
    requires HasExtension(filename, k) && k in r.extMap && r.extMap[k] != ""
    ensures Resolve(r, detect, declared, head, filename) == Resolution(r.extMap[k], SniffedThenExtension)
  {
    UndeclaredIsGeneric(declared);
    SpelledTypeIsCanonical(detect(head), t);
    LookupByExtension(r, filename, k);
    Kinds(t);
    hide Canonical, Spells, Undeclared, Lookup, HasExtension, IsGeneric, IsCfb, SaysNothing, Compound;
  }

  /** A body that looks like nothing is what its name says. */
  lemma NameTellsTheRest(r: Resolver, detect: bytes -> string, declared: string, head: bytes, filename: string, k: string)
    requires Undeclared(declared) && (head == [] || Undeclared(detect(head)))
    requires HasExtension(filename, k) && k in r.extMap && r.extMap[k] != ""
    ensures Resolve(r, detect, declared, head, filename) == Resolution(r.extMap[k], ByExtension)
  {
    UndeclaredIsGeneric(declared);
    if head != [] {
      UndeclaredIsGeneric(detect(head));
    }
    Kinds(Sniff(detect, head));
    GenericEmpty();
    LookupByExtension(r, filename, k);
    hide Canonical, Spells, Undeclared, Lookup, HasExtension, IsGeneric, IsCfb, SaysNothing, Compound;
  }

  /** Without a known extension a Compound File stays what it looks like, and the rest
      is an octet stream. */
  lemma NothingTells(r: Resolver, detect: bytes -> string, declared: string, t: string, head: bytes, filename: string)
    requires Undeclared(declared) && (ToLower(Extension(filename)) == "" || ToLower(Extension(filename)) !in r.extMap)
    ensures head != [] && Spells(detect(head), t) && Compound(t) ==>
              Resolve(r, detect, declared, head, filename) == Resolution(t, Sniffed)
    ensures head == [] || Undeclared(detect(head)) ==>
              Resolve(r, detect, declared, head, filename) == Resolution("application/octet-stream", FellBack)
  {
    UndeclaredIsGeneric(declared);
    Kinds(t);
    Kinds(Sniff(detect, head));
    GenericEmpty();
    if head != [] && Spells(detect(head), t) {
      SpelledTypeIsCanonical(detect(head), t);
    }
    if head != [] && Undeclared(detect(head)) {
      UndeclaredIsGeneric(detect(head));
    }
    hide Canonical, Spells, Undeclared, Extension, ToLower, IsGeneric, IsCfb, SaysNothing, Compound;
  }

  lemma GenericEmpty()
    ensures IsGeneric("") && SaysNothing("")
  {
  }

  // -------------------------------------------------------- the built-in table

  const WORD_TYPE := "application/vnd.openxml" + "formats-officedocument." + "wordprocessingml.document"
  const SHEET_TYPE := "application/vnd.openxml" + "formats-officedocument." + "spreadsheetml.sheet"
  const SLIDES_TYPE := "application/vnd.openxml" + "formats-officedocument." + "presentationml.presentation"

  /** The extensions that are known without configuration, each with its type. */
  function KnownType(k: string): string {
    if k == ".msg" then "application/vnd.ms-outlook"
    else if k == ".doc" then "application/msword"
    else if k == ".xls" then "application/vnd.ms-excel"
    else if k == ".ppt" then "application/vnd.ms-powerpoint"
    else if k == ".docx" then WORD_TYPE
    else if k == ".xlsx" then SHEET_TYPE
    else if k == ".pptx" then SLIDES_TYPE
    else if k == ".eml" then "message/rfc822"
    else if k == ".csv" then "text/csv"
    else if k == ".tsv" then "text/tab-separated-values"
    else ""
  }

  lemma OoxmlTypes()
    ensures OOXML + "wordprocessingml.document" == WORD_TYPE
    ensures OOXML + "spreadsheetml.sheet" == SHEET_TYPE
    ensures OOXML + "presentationml.presentation" == SLIDES_TYPE
  {
  }

  lemma KnownIsThere(k: string)
    ensures KnownType(k) != "" <==> k in Builtin()
  {
    OoxmlTypes();
  }

  lemma KnownIsBuiltin(k: string)
    ensures KnownType(k) != "" <==> k in Builtin()
    ensures KnownType(k) != "" ==> Builtin()[k] == KnownType(k)
  {
    KnownIsThere(k);
    OoxmlTypes();
    if k == ".msg" {
    } else if k == ".doc" {
    } else if k == ".xls" {
    } else if k == ".ppt" {
    } else if k == ".docx" {
    } else if k == ".xlsx" {
    } else if k == ".pptx" {
    } else if k == ".eml" {
    } else if k == ".csv" {
    } else if k == ".tsv" {
    }
  }

  /** With the built-in table, an undeclared Compound File or unrecognised body named
      with one of these extensions has that type. */
  lemma OfficeFilesAreTold(detect: bytes -> string, declared: string, sniff: string, head: bytes, filename: string, k: string)
    requires Undeclared(declared) && KnownType(k) != "" && HasExtension(filename, k)
    requires head == [] || Undeclared(detect(head)) || (Spells(detect(head), sniff) && Compound(sniff))
    ensures Resolve(Resolver(Builtin()), detect, declared, head, filename).mime == KnownType(k)
  {
    KnownIsBuiltin(k);
    hide KnownType, Builtin, HasExtension, Spells, Undeclared;
    if head == [] || Undeclared(detect(head)) {
      NameTellsTheRest(Resolver(Builtin()), detect, declared, head, filename, k);
    } else {
      NameTellsCompoundFiles(Resolver(Builtin()), detect, declared, sniff, head, filename, k);
    }
  }
}
