// The null normalisation of docling responses (internal/engine/compat/docling):
// a search and replace on the bytes of a JSON text, meant as an edit of the
// JSON value. Proved: on printed JSON it is exactly the edit that blanks null
// members whose name is one of the five fields or ends in a quote and one of
// them; so it is the intended edit exactly when no name of the second kind
// labels a null.

module Docling {
  import opened JsonText
  import opened Text

  // ------------------------------------------------------------- ReplaceAll

  /** bytes.ReplaceAll: non-overlapping occurrences, left to right. */
  function ReplaceAll(s: string, needle: string, repl: string): string
    requires needle != ""
    decreases |s|
  {
    if |s| < |needle| then s
    else if needle <= s then repl + ReplaceAll(s[|needle|..], needle, repl)
    else [s[0]] + ReplaceAll(s[1..], needle, repl)
  }

  /** A text with no occurrence at its start keeps its first character. */
  lemma Step(s: string, needle: string, repl: string)
    requires needle != "" && s != "" && !(needle <= s)
    ensures ReplaceAll(s, needle, repl) == [s[0]] + ReplaceAll(s[1..], needle, repl)
  {
    if |s| < |needle| {
      assert s == [s[0]] + s[1..];
    }
  }

  lemma Hit(t: string, needle: string, repl: string)
    requires needle != ""
    ensures ReplaceAll(needle + t, needle, repl) == repl + ReplaceAll(t, needle, repl)
  {
    assert (needle + t)[|needle|..] == t;
  }

  /** The needle starts with a quote, so text without quotes is copied. */
  lemma {:induction false} Copy(a: string, t: string, needle: string, repl: string)
    requires needle != "" && needle[0] == '"' && !HasQuote(a)
    ensures ReplaceAll(a + t, needle, repl) == a + ReplaceAll(t, needle, repl)
  {
    if a == "" {
      assert a + t == t;
    } else {
      assert (a + t)[0] == a[0] && (a + t)[1..] == a[1..] + t;
      Step(a + t, needle, repl);
      assert !HasQuote(a[1..]);
      Copy(a[1..], t, needle, repl);
      assert a == [a[0]] + a[1..];
    }
  }

  /** Replacing by something two characters shorter: a text of unchanged length
      is unchanged. */
  lemma {:induction false} ShorterOrSame(s: string, needle: string, repl: string)
    requires needle != "" && |repl| < |needle|
    ensures |ReplaceAll(s, needle, repl)| <= |s|
    ensures |ReplaceAll(s, needle, repl)| == |s| ==> ReplaceAll(s, needle, repl) == s
    decreases |s|
  {
    if |s| < |needle| {
    } else if needle <= s {
      ShorterOrSame(s[|needle|..], needle, repl);
    } else {
      ShorterOrSame(s[1..], needle, repl);
      assert s == [s[0]] + s[1..];
    }
  }

  // ---------------------------------------------------------- one field name

  const COLON_NULL: string := ":null"

  function Needle(field: string): (n: string)
    ensures n != "" && n[0] == '"' && |n| == |field| + 7
  {
    ['"'] + (field + (['"'] + COLON_NULL))
  }

  function Repl(field: string): (r: string)
    ensures |r| == |field| + 5
  {
    ['"'] + (field + (['"'] + ":\"\""))
  }

  function Swap(field: string, s: string): string {
    ReplaceAll(s, Needle(field), Repl(field))
  }

  /** The name ends in a quote followed by the field. */
  predicate QuotedTail(name: string, field: string) {
    |name| > |field| && name[|name| - |field| - 1..] == ['"'] + field
  }

  /** The printed name ends in the needle's first part. */
  predicate Touches(name: string, field: string) {
    name == field || QuotedTail(name, field)
  }

  /** A text that may follow a JSON value or a member name. */
  predicate Boundary(t: string) {
    t == "" || t[0] in ",]}:"
  }

  /** The field and its closing quote match inside a string only at its very
      end, and only if the string's remainder is the field itself. */
  lemma {:induction false} FieldMatch(esc: char -> string, f: string, rest: string, t: string)
    requires GoodEscaper(esc) && Plain(f)
    ensures f + (['"'] + COLON_NULL) <= EscapeAll(esc, rest) + (['"'] + t) <==> rest == f && COLON_NULL <= t
  {
    var want, have := f + (['"'] + COLON_NULL), EscapeAll(esc, rest) + (['"'] + t);
    if rest == "" {
      assert have == ['"'] + t;
      if f == "" {
        assert want == ['"'] + COLON_NULL;
      } else {
        assert want[0] == f[0] && have[0] == '"';
      }
    } else {
      var e := esc(rest[0]);
      assert have == e + (EscapeAll(esc, rest[1..]) + (['"'] + t));
      assert have[0] == e[0];
      if f == "" {
        assert want[0] == '"';
        assert e[0] != '"';
      } else {
        assert want[0] == f[0];
        assert want[1..] == f[1..] + (['"'] + COLON_NULL);
        if e == [rest[0]] {
          FieldMatch(esc, f[1..], rest[1..], t);
          assert have[1..] == EscapeAll(esc, rest[1..]) + (['"'] + t);
          ConsPrefix(want, have);
          assert rest == [rest[0]] + rest[1..] && f == [f[0]] + f[1..];
        } else {
          assert e[0] == '\\';
          assert rest[0] != f[0];
        }
      }
    }
  }

  lemma ConsPrefix(a: string, b: string)
    requires a != "" && b != ""
    ensures a <= b <==> a[0] == b[0] && a[1..] <= b[1..]
  {
    if a <= b {
      assert a[1..] == b[1..][..|a| - 1];
    }
    if a[0] == b[0] && a[1..] <= b[1..] {
      assert a == [a[0]] + a[1..] && b == [b[0]] + b[1..];
    }
  }

  lemma {:induction false} PlainEscapes(esc: char -> string, f: string)
    requires GoodEscaper(esc) && Plain(f)
    ensures EscapeAll(esc, f) == f
  {
    if f != "" {
      PlainEscapes(esc, f[1..]);
      assert f == [f[0]] + f[1..];
    }
  }

  lemma QuotedTailStep(name: string, field: string)
    requires name != "" && Plain(field)
    ensures QuotedTail(name, field) <==> (name[0] == '"' && name[1..] == field) || QuotedTail(name[1..], field)
  {
    if |name| == |field| + 1 {
      assert name == [name[0]] + name[1..];
      assert name[0..] == name;
    } else if |name| > |field| + 1 {
      assert name[|name| - |field| - 1..] == name[1..][|name| - 1 - |field| - 1..];
    }
  }

  /** Inside a string, after its opening quote: an occurrence begins only at an
      escaped quote that is followed by the field and the end of the string. */
  lemma {:induction false} SwapInside(esc: char -> string, f: string, rest: string, t: string)
    requires GoodEscaper(esc) && Plain(f) && f != "" && Boundary(t)
    ensures Swap(f, EscapeAll(esc, rest) + (['"'] + t)) ==
            EscapeAll(esc, rest) + (['"'] +
              if COLON_NULL <= t && QuotedTail(rest, f) then ":\"\"" + Swap(f, t[5..]) else Swap(f, t))
  {
    hide GoodEscaper, QuotedTail, Swap, Plain;
    if rest == "" {
      assert EscapeAll(esc, rest) + (['"'] + t) == ['"'] + t;
      EndQuote(f, t);
      EmptyTail(f);
    } else {
      SwapInside(esc, f, rest[1..], t);
      SwapInsideStep(esc, f, rest, t, Tail(f, rest[1..], t));
      QuotedTailStep(rest, f);
    }
  }

  /** What follows a string's content after the replacement pass. */
  function Tail(f: string, rest: string, t: string): string {
    ['"'] + if COLON_NULL <= t && QuotedTail(rest, f) then ":\"\"" + Swap(f, t[5..]) else Swap(f, t)
  }

  lemma SwapInsideStep(esc: char -> string, f: string, rest: string, t: string, tail: string)
    requires GoodEscaper(esc) && Plain(f) && f != "" && rest != ""
    requires Swap(f, EscapeAll(esc, rest[1..]) + (['"'] + t)) == EscapeAll(esc, rest[1..]) + tail
    ensures Swap(f, EscapeAll(esc, rest) + (['"'] + t)) ==
            EscapeAll(esc, rest) +
            if rest[0] == '"' && rest[1..] == f && COLON_NULL <= t then ['"'] + (":\"\"" + Swap(f, t[5..])) else tail
  {
    hide GoodEscaper, Swap, Plain, HasQuote, EscapeAll;
    var y := EscapeAll(esc, rest[1..]);
    UnfoldEscape(esc, rest);
    if rest[0] != '"' {
      EscapeNoQuote(esc, rest[0]);
      CopyEscape(esc(rest[0]), y + (['"'] + t), f);
      Regroup(esc(rest[0]), y, ['"'] + t, tail);
    } else {
      EscapeOfQuote(esc);
      Regroup(['\\', '"'], y, ['"'] + t, tail);
      SwapAfterQuote(esc, f, rest[1..], t, tail);
    }
  }

  /** A printed quote inside a string, and the rest of that string. */
  lemma SwapAfterQuote(esc: char -> string, f: string, rest: string, t: string, tail: string)
    requires GoodEscaper(esc) && Plain(f) && f != ""
    requires Swap(f, EscapeAll(esc, rest) + (['"'] + t)) == EscapeAll(esc, rest) + tail
    ensures var y := EscapeAll(esc, rest);
            Swap(f, ['\\', '"'] + (y + (['"'] + t))) ==
            ['\\', '"'] + y + if rest == f && COLON_NULL <= t then ['"'] + (":\"\"" + Swap(f, t[5..])) else tail
  {
    hide GoodEscaper, Swap, Plain, HasQuote, EscapeAll;
    var y := EscapeAll(esc, rest);
    var x := y + (['"'] + t);
    EscapeOfQuote(esc);
    QuoteInside(esc, f, rest, t);
    CopyEscape(['\\'], ['"'] + x, f);
    AfterBackslash(x);
    if rest == f && COLON_NULL <= t {
      PlainEscapes(esc, f);
      BackslashFirst(y, ['"'] + (":\"\"" + Swap(f, t[5..])));
    } else {
      BackslashFirst(y, tail);
    }
  }

  lemma AfterBackslash(x: string)
    ensures ['\\', '"'] + x == ['\\'] + (['"'] + x)
  {
  }

  lemma BackslashFirst(y: string, z: string)
    ensures ['\\', '"'] + y + z == ['\\'] + (['"'] + (y + z))
  {
  }

  lemma UnfoldEscape(esc: char -> string, s: string)
    requires s != ""
    ensures EscapeAll(esc, s) == esc(s[0]) + EscapeAll(esc, s[1..])
  {
  }

  lemma Regroup(a: string, b: string, c: string, d: string)
    ensures (a + b) + c == a + (b + c) && (a + b) + d == a + (b + d)
  {
  }

  lemma CopyEscape(e: string, t: string, f: string)
    requires !HasQuote(e)
    ensures Swap(f, e + t) == e + Swap(f, t)
  {
    Copy(e, t, Needle(f), Repl(f));
  }

  lemma EmptyTail(f: string)
    ensures !QuotedTail("", f)
  {
  }

  lemma EscapeNoQuote(esc: char -> string, c: char)
    requires GoodEscaper(esc) && c != '"'
    ensures !HasQuote(esc(c))
  {
  }

  lemma EscapeOfQuote(esc: char -> string)
    requires GoodEscaper(esc)
    ensures esc('"') == ['\\', '"'] && !HasQuote(['\\'])
  {
  }

  /** The closing quote of a string starts no occurrence. */
  lemma EndQuote(f: string, t: string)
    requires Plain(f) && f != "" && Boundary(t)
    ensures Swap(f, ['"'] + t) == ['"'] + Swap(f, t)
  {
    var s := ['"'] + t;
    assert s[1..] == t;
    assert Needle(f)[1] == f[0];
    assert t != "" ==> s[1] == t[0];
    Step(s, Needle(f), Repl(f));
  }

  /** A quote followed by the rest of a string: an occurrence exactly when that
      rest is the field and a null follows. */
  lemma QuoteInside(esc: char -> string, f: string, rest: string, t: string)
    requires GoodEscaper(esc) && Plain(f) && f != ""
    ensures var x := EscapeAll(esc, rest) + (['"'] + t);
            Swap(f, ['"'] + x) ==
            if rest == f && COLON_NULL <= t then ['"'] + (f + (['"'] + (":\"\"" + Swap(f, t[5..])))) else ['"'] + Swap(f, x)
  {
    hide GoodEscaper, Plain, EscapeAll, ReplaceAll;
    var x := EscapeAll(esc, rest) + (['"'] + t);
    FieldMatch(esc, f, rest, t);
    if rest == f && COLON_NULL <= t {
      PlainEscapes(esc, f);
      Matched(f, t[5..]);
      assert t == COLON_NULL + t[5..];
      assert ['"'] + x == Needle(f) + t[5..];
    } else {
      Unmatched(f, x);
    }
  }

  lemma Matched(f: string, t: string)
    ensures Swap(f, Needle(f) + t) == ['"'] + (f + (['"'] + (":\"\"" + Swap(f, t))))
  {
    Hit(t, Needle(f), Repl(f));
    assert Repl(f) + Swap(f, t) == ['"'] + (f + (['"'] + (":\"\"" + Swap(f, t))));
  }

  lemma Unmatched(f: string, x: string)
    requires !(f + (['"'] + COLON_NULL) <= x)
    ensures Swap(f, ['"'] + x) == ['"'] + Swap(f, x)
  {
    var s := ['"'] + x;
    assert s[1..] == x;
    assert Needle(f)[1..] == f + (['"'] + COLON_NULL);
    ConsPrefix(Needle(f), s);
    Step(s, Needle(f), Repl(f));
  }

  /** A whole printed string and what follows it. */
  lemma SwapQuoted(esc: char -> string, f: string, s: string, t: string)
    requires GoodEscaper(esc) && Plain(f) && f != "" && Boundary(t)
    ensures Swap(f, Quote(esc, s) + t) ==
            Quote(esc, s) + if COLON_NULL <= t && Touches(s, f) then ":\"\"" + Swap(f, t[5..]) else Swap(f, t)
  {
    hide GoodEscaper, QuotedTail, Plain, EscapeAll, Swap, Quote, Boundary;
    QuotedThenText(esc, s, t);
    QuoteInside(esc, f, s, t);
    TailIsLonger(s, f);
    QuotedThenText(esc, s, if COLON_NULL <= t && Touches(s, f) then ":\"\"" + Swap(f, t[5..]) else Swap(f, t));
    if s == f && COLON_NULL <= t {
      PlainEscapes(esc, f);
    } else {
      SwapInside(esc, f, s, t);
    }
  }

  lemma QuotedThenText(esc: char -> string, s: string, t: string)
    ensures Quote(esc, s) + t == ['"'] + (EscapeAll(esc, s) + (['"'] + t))
  {
    hide EscapeAll;
  }

  lemma TailIsLonger(name: string, f: string)
    ensures QuotedTail(name, f) ==> name != f
  {
  }

  // ------------------------------------------------------------ whole values

  function Touching(f: string): string -> bool {
    (n: string) => Touches(n, f)
  }

  /** Text after a value: the end, or a separator that is not a colon. */
  predicate AfterValue(t: string) {
    t == "" || t[0] in ",]}"
  }

  lemma NoQuoteInNumber(text: string)
    requires WellFormed(Number(text))
    ensures !HasQuote(text)
  {
  }

  /** The printed value is followed by a null exactly when it is null. */
  lemma StartsWithNull(esc: char -> string, v: Json, t: string)
    requires WellFormed(v)
    ensures COLON_NULL <= ":" + Print(esc, v) + t <==> v.Null?
  {
    var s := ":" + Print(esc, v) + t;
    match v
    case Null => assert s[..5] == COLON_NULL;
    case Bool(b) => assert s[1] == if b then 't' else 'f';
    case Number(text) => assert s[1] == text[0];
    case Str(chars) => assert s[1] == '"';
    case Arr(items) => assert s[1] == '[';
    case Obj(members) => assert s[1] == '{';
  }

  /** One replacement pass is the JSON edit, on any value in any context. */
  lemma {:induction false} SwapValue(esc: char -> string, f: string, v: Json, t: string)
    requires GoodEscaper(esc) && Plain(f) && f != "" && WellFormed(v) && AfterValue(t)
    ensures Swap(f, Print(esc, v) + t) == Print(esc, Blank(v, Touching(f))) + Swap(f, t)
    decreases v, 0
  {
    hide GoodEscaper, Swap, HasQuote, Touches;
    match v
    case Null => CopyText("null", t, f);
    case Bool(b) => CopyText(if b then "true" else "false", t, f);
    case Number(text) =>
      NoQuoteInNumber(text);
      CopyText(text, t, f);
    case Str(chars) => SwapQuoted(esc, f, chars, t);
    case Arr(items) =>
      SwapItems(esc, f, items, "]" + t);
      SwapBracketed(f, "[", PrintItems(esc, items), "]", t, PrintItems(esc, BlankItems(items, Touching(f))));
    case Obj(members) =>
      SwapMembers(esc, f, members, "}" + t);
      SwapBracketed(f, "{", PrintMembers(esc, members), "}", t, PrintMembers(esc, BlankMembers(members, Touching(f))));
  }

  lemma SwapBracketed(f: string, open: string, inner: string, close: string, t: string, inner': string)
    requires forall i :: 0 <= i < |open| ==> open[i] != '"'
    requires forall i :: 0 <= i < |close| ==> close[i] != '"'
    requires Swap(f, inner + (close + t)) == inner' + Swap(f, close + t)
    ensures Swap(f, open + (inner + close) + t) == open + (inner' + close) + Swap(f, t)
  {
    hide Swap;
    assert open + (inner + close) + t == open + (inner + (close + t));
    CopyText(open, inner + (close + t), f);
    CopyText(close, t, f);
  }

  lemma CopyText(a: string, t: string, f: string)
    requires forall i :: 0 <= i < |a| ==> a[i] != '"'
    ensures Swap(f, a + t) == a + Swap(f, t)
  {
    Copy(a, t, Needle(f), Repl(f));
  }

  lemma {:induction false} SwapItems(esc: char -> string, f: string, items: seq<Json>, t: string)
    requires GoodEscaper(esc) && Plain(f) && f != "" && AfterValue(t)
    requires forall i :: 0 <= i < |items| ==> WellFormed(items[i])
    ensures Swap(f, PrintItems(esc, items) + t) == PrintItems(esc, BlankItems(items, Touching(f))) + Swap(f, t)
    decreases items, 1
  {
    hide GoodEscaper, Swap, Print, Blank;
    var p := Touching(f);
    if items == [] {
      assert PrintItems(esc, items) + t == t;
    } else if |items| == 1 {
      SwapValue(esc, f, items[0], t);
      assert PrintItems(esc, items) == Print(esc, items[0]);
      assert PrintItems(esc, BlankItems(items, p)) == Print(esc, Blank(items[0], p));
    } else {
      var more := PrintItems(esc, items[1..]) + t;
      assert PrintItems(esc, items) + t == Print(esc, items[0]) + ("," + more);
      SwapValue(esc, f, items[0], "," + more);
      CopyText(",", more, f);
      SwapItems(esc, f, items[1..], t);
      assert BlankItems(items, p)[1..] == BlankItems(items[1..], p);
      assert PrintItems(esc, BlankItems(items, p)) == Print(esc, Blank(items[0], p)) + ("," + PrintItems(esc, BlankItems(items[1..], p)));
    }
  }

  lemma EscapeNothing(esc: char -> string)
    ensures EscapeAll(esc, "") == ""
  {
  }

  /** A null member that the field touches becomes an empty string. */
  lemma SwapTouched(esc: char -> string, f: string, name: string, t: string)
    requires GoodEscaper(esc) && Plain(f) && f != "" && AfterValue(t) && Touches(name, f)
    ensures Swap(f, PrintMember(esc, Member(name, Null)) + t) == PrintMember(esc, Member(name, Str(""))) + Swap(f, t)
  {
    hide GoodEscaper, Swap, Touches, Plain, Quote;
    var u := COLON_NULL + t;
    assert PrintMember(esc, Member(name, Null)) + t == Quote(esc, name) + u;
    SwapQuoted(esc, f, name, u);
    assert u[5..] == t;
    PrintEmpty(esc, name);
  }

  lemma PrintEmpty(esc: char -> string, name: string)
    ensures PrintMember(esc, Member(name, Str(""))) == Quote(esc, name) + ":\"\""
  {
    EscapeNothing(esc);
    assert Quote(esc, "") == "\"\"";
  }

  lemma {:induction false} SwapMember(esc: char -> string, f: string, m: Member, t: string)
    requires GoodEscaper(esc) && Plain(f) && f != "" && WellFormed(m.value) && AfterValue(t)
    ensures Swap(f, PrintMember(esc, m) + t) == PrintMember(esc, BlankMember(m, Touching(f))) + Swap(f, t)
    decreases m, 2
  {
    hide GoodEscaper, Swap, Touches, Plain, WellFormed, AfterValue, Quote, Print;
    if m.value.Null? && Touches(m.name, f) {
      assert m == Member(m.name, Null);
      SwapTouched(esc, f, m.name, t);
    } else {
      var u := ":" + (Print(esc, m.value) + t);
      assert u == ":" + Print(esc, m.value) + t;
      assert PrintMember(esc, m) + t == Quote(esc, m.name) + u;
      StartsWithNull(esc, m.value, t);
      SwapQuoted(esc, f, m.name, u);
      CopyText(":", Print(esc, m.value) + t, f);
      SwapValue(esc, f, m.value, t);
    }
  }

  lemma {:induction false} SwapMembers(esc: char -> string, f: string, members: seq<Member>, t: string)
    requires GoodEscaper(esc) && Plain(f) && f != "" && AfterValue(t)
    requires forall i :: 0 <= i < |members| ==> WellFormed(members[i].value)
    ensures Swap(f, PrintMembers(esc, members) + t) == PrintMembers(esc, BlankMembers(members, Touching(f))) + Swap(f, t)
    decreases members, 3
  {
    hide GoodEscaper, Swap, PrintMember, BlankMember;
    var p := Touching(f);
    if members == [] {
      assert PrintMembers(esc, members) + t == t;
    } else if |members| == 1 {
      SwapMember(esc, f, members[0], t);
      assert PrintMembers(esc, members) == PrintMember(esc, members[0]);
      assert PrintMembers(esc, BlankMembers(members, p)) == PrintMember(esc, BlankMember(members[0], p));
    } else {
      var more := PrintMembers(esc, members[1..]) + t;
      assert PrintMembers(esc, members) + t == PrintMember(esc, members[0]) + ("," + more);
      SwapMember(esc, f, members[0], "," + more);
      CopyText(",", more, f);
      SwapMembers(esc, f, members[1..], t);
      assert BlankMembers(members, p)[1..] == BlankMembers(members[1..], p);
      assert PrintMembers(esc, BlankMembers(members, p))
          == PrintMember(esc, BlankMember(members[0], p)) + ("," + PrintMembers(esc, BlankMembers(members[1..], p)));
    }
  }

  // --------------------------------------------------------------- all fields

  const FIELDS: seq<string> := ["md_content", "text_content", "html_content", "json_content", "doctags_content"]

  /** The passes for these fields, in order. */
  function Normalize(fields: seq<string>, raw: string): string {
    if fields == [] then raw else Normalize(fields[1..], Swap(fields[0], raw))
  }

  ghost predicate FieldNames(fields: seq<string>) {
    forall i :: 0 <= i < |fields| ==> Plain(fields[i]) && fields[i] != ""
  }

  /** The intended edit: members named by one of the fields. */
  function Named(fields: seq<string>): string -> bool {
    (n: string) => exists i :: 0 <= i < |fields| && n == fields[i]
  }

  /** Names that end in a quote and one of the fields. */
  function QuotedTails(fields: seq<string>): string -> bool {
    (n: string) => exists i :: 0 <= i < |fields| && QuotedTail(n, fields[i])
  }

  function TouchingAny(fields: seq<string>): string -> bool {
    (n: string) => exists i :: 0 <= i < |fields| && Touches(n, fields[i])
  }

  lemma {:induction false} BlankNothing(v: Json, p: string -> bool)
    requires forall n :: !p(n)
    ensures Blank(v, p) == v
    decreases v, 0
  {
    match v
    case Arr(items) => BlankNothingItems(items, p);
    case Obj(members) => BlankNothingMembers(members, p);
    case _ =>
  }

  lemma {:induction false} BlankNothingItems(items: seq<Json>, p: string -> bool)
    requires forall n :: !p(n)
    ensures BlankItems(items, p) == items
    decreases items, 1
  {
    if items != [] {
      BlankNothing(items[0], p);
      BlankNothingItems(items[1..], p);
    }
  }

  lemma {:induction false} BlankNothingMembers(members: seq<Member>, p: string -> bool)
    requires forall n :: !p(n)
    ensures BlankMembers(members, p) == members
    decreases members, 3
  {
    if members != [] {
      BlankNothing(members[0].value, p);
      BlankNothingMembers(members[1..], p);
    }
  }

  lemma TouchingCons(fields: seq<string>, n: string)
    requires fields != []
    ensures TouchingAny(fields)(n) <==> Touching(fields[0])(n) || TouchingAny(fields[1..])(n)
  {
    if TouchingAny(fields)(n) && !Touches(n, fields[0]) {
      var i :| 0 <= i < |fields| && Touches(n, fields[i]);
      assert Touches(n, fields[1..][i - 1]);
    }
    if TouchingAny(fields[1..])(n) {
      var i :| 0 <= i < |fields[1..]| && Touches(n, fields[1..][i]);
      assert Touches(n, fields[i + 1]);
    }
  }

  /** On the printed form of any JSON value, the passes for any field names are
      one JSON edit: null members touched by a field become "". */
  lemma {:induction false} NormalizePrinted(esc: char -> string, fields: seq<string>, v: Json)
    requires GoodEscaper(esc) && FieldNames(fields) && WellFormed(v)
    ensures Normalize(fields, Print(esc, v)) == Print(esc, Blank(v, TouchingAny(fields)))
    decreases |fields|
  {
    if fields == [] {
      BlankNothing(v, TouchingAny(fields));
    } else {
      hide GoodEscaper, Swap, Print, Blank, WellFormed, Touches;
      var f, p := fields[0], Touching(fields[0]);
      SwapValue(esc, f, v, "");
      SwapEmpty(f);
      assert Print(esc, v) + "" == Print(esc, v);
      assert Print(esc, Blank(v, p)) + "" == Print(esc, Blank(v, p));
      BlankWellFormed(v, p);
      NormalizePrinted(esc, fields[1..], Blank(v, p));
      forall n ensures TouchingAny(fields)(n) <==> p(n) || TouchingAny(fields[1..])(n) {
        TouchingCons(fields, n);
      }
      BlankTwice(v, p, TouchingAny(fields[1..]), TouchingAny(fields));
    }
  }

  lemma SwapEmpty(f: string)
    ensures Swap(f, "") == ""
  {
  }

  /** A name is a field or ends in a quoted field, never both. */
  lemma {:induction false} CountTouched(v: Json, p: string -> bool, q: string -> bool, r: string -> bool)
    requires forall n :: r(n) <==> p(n) || q(n)
    requires forall n :: !(p(n) && q(n))
    ensures CountBlanks(v, r) == CountBlanks(v, p) + CountBlanks(v, q)
    decreases v, 0
  {
    match v
    case Arr(items) => CountTouchedItems(items, p, q, r);
    case Obj(members) => CountTouchedMembers(members, p, q, r);
    case _ =>
  }

  lemma {:induction false} CountTouchedItems(items: seq<Json>, p: string -> bool, q: string -> bool, r: string -> bool)
    requires forall n :: r(n) <==> p(n) || q(n)
    requires forall n :: !(p(n) && q(n))
    ensures CountItems(items, r) == CountItems(items, p) + CountItems(items, q)
    decreases items, 1
  {
    if items != [] {
      CountTouched(items[0], p, q, r);
      CountTouchedItems(items[1..], p, q, r);
    }
  }

  lemma {:induction false} CountTouchedMembers(members: seq<Member>, p: string -> bool, q: string -> bool, r: string -> bool)
    requires forall n :: r(n) <==> p(n) || q(n)
    requires forall n :: !(p(n) && q(n))
    ensures CountMembers(members, r) == CountMembers(members, p) + CountMembers(members, q)
    decreases members, 3
  {
    if members != [] {
      CountTouched(members[0].value, p, q, r);
      CountTouchedMembers(members[1..], p, q, r);
    }
  }

  lemma PlainHasNoQuote(n: string)
    requires Plain(n)
    ensures !HasQuote(n)
  {
  }

  lemma TailHasQuote(n: string, f: string)
    ensures QuotedTail(n, f) ==> HasQuote(n)
  {
    if QuotedTail(n, f) {
      var k := |n| - |f| - 1;
      assert n[k] == n[k..][0];
    }
  }

  lemma TouchedIsEither(fields: seq<string>, n: string)
    requires FieldNames(fields)
    ensures TouchingAny(fields)(n) <==> Named(fields)(n) || QuotedTails(fields)(n)
    ensures !(Named(fields)(n) && QuotedTails(fields)(n))
  {
    if TouchingAny(fields)(n) {
      var i :| 0 <= i < |fields| && Touches(n, fields[i]);
      assert n == fields[i] || QuotedTail(n, fields[i]);
    }
    if Named(fields)(n) {
      var i :| 0 <= i < |fields| && n == fields[i];
      assert Touches(n, fields[i]);
      PlainHasNoQuote(n);
      forall j | 0 <= j < |fields| ensures !QuotedTail(n, fields[j]) {
        TailHasQuote(n, fields[j]);
      }
    }
    if QuotedTails(fields)(n) {
      var j :| 0 <= j < |fields| && QuotedTail(n, fields[j]);
      assert Touches(n, fields[j]);
    }
  }

  /** The normaliser is the intended JSON edit exactly when no null member, at
      any depth, has a name that ends in a quote and one of the fields. */
  lemma NormalizeIsIntended(esc: char -> string, fields: seq<string>, v: Json)
    requires GoodEscaper(esc) && FieldNames(fields) && WellFormed(v)
    ensures Normalize(fields, Print(esc, v)) == Print(esc, Blank(v, Named(fields)))
            <==> CountBlanks(v, QuotedTails(fields)) == 0
    ensures |Normalize(fields, Print(esc, v))| + 2 * (CountBlanks(v, Named(fields)) + CountBlanks(v, QuotedTails(fields)))
            == |Print(esc, v)|
  {
    hide GoodEscaper, Normalize, Print, Blank, CountBlanks, FieldNames, Named, QuotedTails, TouchingAny;
    var p, q, r := Named(fields), QuotedTails(fields), TouchingAny(fields);
    NormalizePrinted(esc, fields, v);
    forall n ensures (r(n) <==> p(n) || q(n)) && !(p(n) && q(n)) {
      TouchedIsEither(fields, n);
    }
    CountTouched(v, p, q, r);
    BlankLength(esc, v, p);
    BlankLength(esc, v, r);
    BlankSame(v, p, r);
  }

  /** Every member name, at any depth, satisfies p. */
  predicate NamesSatisfy(v: Json, p: string -> bool) {
    match v
    case Arr(items) => forall i :: 0 <= i < |items| ==> NamesSatisfy(items[i], p)
    case Obj(members) => forall i :: 0 <= i < |members| ==> p(members[i].name) && NamesSatisfy(members[i].value, p)
    case _ => true
  }

  lemma {:induction false} NoneCounted(v: Json, p: string -> bool, q: string -> bool)
    requires NamesSatisfy(v, p) && forall n :: p(n) ==> !q(n)
    ensures CountBlanks(v, q) == 0
    decreases v, 0
  {
    match v
    case Arr(items) => NoneCountedItems(items, p, q);
    case Obj(members) => NoneCountedMembers(members, p, q);
    case _ =>
  }

  lemma {:induction false} NoneCountedItems(items: seq<Json>, p: string -> bool, q: string -> bool)
    requires (forall i :: 0 <= i < |items| ==> NamesSatisfy(items[i], p)) && forall n :: p(n) ==> !q(n)
    ensures CountItems(items, q) == 0
    decreases items, 1
  {
    if items != [] {
      NoneCounted(items[0], p, q);
      NoneCountedItems(items[1..], p, q);
    }
  }

  lemma {:induction false} NoneCountedMembers(members: seq<Member>, p: string -> bool, q: string -> bool)
    requires forall i :: 0 <= i < |members| ==> p(members[i].name) && NamesSatisfy(members[i].value, p)
    requires forall n :: p(n) ==> !q(n)
    ensures CountMembers(members, q) == 0
    decreases members, 3
  {
    if members != [] {
      NoneCounted(members[0].value, p, q);
      NoneCountedMembers(members[1..], p, q);
    }
  }

  /** In particular the edit is the intended one when no name has a quote. */
  lemma IntendedWithoutQuotes(esc: char -> string, v: Json)
    requires GoodEscaper(esc) && WellFormed(v) && NamesSatisfy(v, n => !HasQuote(n))
    ensures Normalize(FIELDS, Print(esc, v)) == Print(esc, Blank(v, Named(FIELDS)))
  {
    hide GoodEscaper, Normalize, Print, Blank, CountBlanks;
    FieldsAreNames();
    forall n | !HasQuote(n) ensures !QuotedTails(FIELDS)(n) {
      forall j | 0 <= j < |FIELDS| ensures !QuotedTail(n, FIELDS[j]) {
        TailHasQuote(n, FIELDS[j]);
      }
    }
    NoneCounted(v, n => !HasQuote(n), QuotedTails(FIELDS));
    NormalizeIsIntended(esc, FIELDS, v);
  }

  lemma FieldsAreNames()
    ensures FieldNames(FIELDS)
  {
  }

  /** Normalising printed JSON twice changes nothing more. */
  lemma NormalizeTwicePrinted(esc: char -> string, fields: seq<string>, v: Json)
    requires GoodEscaper(esc) && FieldNames(fields) && WellFormed(v)
    ensures Normalize(fields, Normalize(fields, Print(esc, v))) == Normalize(fields, Print(esc, v))
  {
    hide GoodEscaper, Normalize, Print, Blank, FieldNames, WellFormed, TouchingAny;
    var p := TouchingAny(fields);
    NormalizePrinted(esc, fields, v);
    BlankWellFormed(v, p);
    NormalizePrinted(esc, fields, Blank(v, p));
    BlankTwice(v, p, p, p);
  }

  // ----------------------------------------------------------- the procedure

  lemma {:induction false} NormalizeShrinks(fields: seq<string>, raw: string)
    ensures |Normalize(fields, raw)| <= |raw|
    ensures |Normalize(fields, raw)| == |raw| ==> Normalize(fields, raw) == raw
    decreases |fields|
  {
    if fields != [] {
      ShorterOrSame(raw, Needle(fields[0]), Repl(fields[0]));
      NormalizeShrinks(fields[1..], Swap(fields[0], raw));
    }
  }

  lemma {:induction false} NormalizeSplit(fields: seq<string>, i: nat, raw: string)
    requires i < |fields|
    ensures Normalize(fields[..i + 1], raw) == Swap(fields[i], Normalize(fields[..i], raw))
    decreases i
  {
    if i == 0 {
      assert fields[..1][1..] == [] && fields[..0] == [];
    } else {
      NormalizeSplit(fields[1..], i - 1, Swap(fields[0], raw));
      assert fields[..i + 1][1..] == fields[1..][..i];
      assert fields[..i][1..] == fields[1..][..i - 1];
    }
  }

  /** normalizeNullContent: one ReplaceAll per field, on arbitrary bytes. */
  method NormalizeNullContent(raw: string) returns (out: string)
    ensures out == Normalize(FIELDS, raw)
    ensures |out| <= |raw| && (|out| == |raw| ==> out == raw)
  {
    out := raw;
    for i := 0 to |FIELDS|
      invariant out == Normalize(FIELDS[..i], raw)
    {
      NormalizeSplit(FIELDS, i, raw);
      out := ReplaceAll(out, Needle(FIELDS[i]), Repl(FIELDS[i]));
    }
    assert FIELDS[..|FIELDS|] == FIELDS;
    NormalizeShrinks(FIELDS, raw);
  }

  predicate IsJson(contentType: string) {
    "application/json" <= ToLower(TrimSpace(contentType))
  }

  const CONTENT_LENGTH := "Content-Length"

  /** An answer whose Content-Length, if it has one, is the body's length. */
  predicate LengthIsRight(headers: map<string, string>, body: string) {
    CONTENT_LENGTH in headers ==> headers[CONTENT_LENGTH] == Decimal(|body|)
  }

  datatype Answer = Answer(body: string, headers: map<string, string>) | ReadError

  /** maybeNormalize. raw is what reading the body yields; readable says whether
      that reading succeeds (only JSON bodies are read here). */
  method MaybeNormalize(contentType: string, headers: map<string, string>, raw: string, readable: bool) returns (r: Answer)
    ensures r.ReadError? <==> IsJson(contentType) && !readable
    ensures r.Answer? && !IsJson(contentType) ==> r == Answer(raw, headers)
    ensures r.Answer? && IsJson(contentType) ==> r.body == Normalize(FIELDS, raw)
    ensures r.Answer? && LengthIsRight(headers, raw) ==> LengthIsRight(r.headers, r.body)
    ensures r.Answer? && |r.body| == |raw| ==> r.headers == headers
    ensures r.Answer? && |r.body| != |raw| ==>
              && "Content-Length" in r.headers
              && AllDigits(r.headers["Content-Length"]) && Value(r.headers["Content-Length"]) == |r.body|
    ensures r.Answer? ==> forall k :: k != CONTENT_LENGTH ==> (k in r.headers <==> k in headers)
    ensures r.Answer? ==> forall k :: k != CONTENT_LENGTH && k in headers ==> r.headers[k] == headers[k]
  {
    hide Decimal, IsJson, Normalize;
    if !IsJson(contentType) {
      return Answer(raw, headers);
    }
    if !readable {
      return ReadError;
    }
    var patched := NormalizeNullContent(raw);
    var h := headers;
    if |patched| != |raw| {
      ValueDecimal(|patched|);
      h := h[CONTENT_LENGTH := Decimal(|patched|)];
    }
    r := Answer(patched, h);
  }

  // ---------------------------------------------------------- counterexamples

  /** A null labelled x"md_content is blanked although its name is not a field. */
  lemma QuotedNameIsBlanked(esc: char -> string)
    requires GoodEscaper(esc)
    ensures var v := Obj([Member("x\"md_content", Null)]);
            WellFormed(v) && Blank(v, Named(FIELDS)) == v && Normalize(FIELDS, Print(esc, v)) != Print(esc, v)
  {
    hide GoodEscaper, Normalize, Print;
    var name := "x\"md_content";
    var m := Member(name, Null);
    var v := Obj([m]);
    FieldsAreNames();
    assert name[1..] == ['"'] + FIELDS[0];
    assert QuotedTail(name, FIELDS[0]);
    assert QuotedTails(FIELDS)(name);
    TouchedIsEither(FIELDS, name);
    assert [m][1..] == [];
    assert BlankMembers([m], Named(FIELDS)) == [m];
    assert CountMembers([m], QuotedTails(FIELDS)) == 1;
    NormalizeIsIntended(esc, FIELDS, v);
  }

  /** No quote of s is followed by the first character of the field. */
  predicate NoStart(f: string, s: string)
    requires f != ""
  {
    forall i :: 0 <= i < |s| && s[i] == '"' ==> i + 1 == |s| || s[i + 1] != f[0]
  }

  lemma {:induction false} NoStartNoChange(f: string, s: string)
    requires f != "" && NoStart(f, s)
    ensures Swap(f, s) == s
    decreases |s|
  {
    if s != "" {
      assert Needle(f)[1] == f[0];
      Step(s, Needle(f), Repl(f));
      NoStartNoChange(f, s[1..]);
      assert s == [s[0]] + s[1..];
    }
  }

  lemma {:induction false} SkipAll(fields: seq<string>, s: string)
    requires forall i :: 0 <= i < |fields| ==> fields[i] != "" && NoStart(fields[i], s)
    ensures Normalize(fields, s) == s
    decreases |fields|
  {
    if fields != [] {
      NoStartNoChange(fields[0], s);
      SkipAll(fields[1..], s);
    }
  }

  /** Two texts of a first field f: the second is what one pass leaves of the
      first, and it still holds an occurrence. */
  function Before(f: string): string {
    Needle(f) + (f + (['"'] + COLON_NULL))
  }

  function After(f: string): string {
    ['"'] + (f + (['"'] + (":\"" + Needle(f))))
  }

  lemma FirstPass(f: string)
    requires Plain(f) && f != ""
    ensures Swap(f, Before(f)) == After(f)
  {
    hide Swap;
    var rest := f + (['"'] + COLON_NULL);
    CopyText(f, ['"'] + COLON_NULL, f);
    EndQuote(f, COLON_NULL);
    CopyText(COLON_NULL, "", f);
    SwapEmpty(f);
    assert COLON_NULL + "" == COLON_NULL;
    Matched(f, rest);
    assert ":\"\"" + rest == ":\"" + Needle(f);
  }

  lemma SecondPass(f: string)
    requires Plain(f) && f != ""
    ensures |Swap(f, After(f))| < |After(f)|
  {
    hide Swap;
    var n := Needle(f);
    var y := ":\"" + n;
    var x := f + (['"'] + y);
    assert x[|f| + 2] == '"' && (f + (['"'] + COLON_NULL))[|f| + 2] == 'n';
    Unmatched(f, x);
    CopyText(f, ['"'] + y, f);
    assert (f + (['"'] + COLON_NULL))[0] == f[0];
    Unmatched(f, y);
    assert y == ":" + (['"'] + n);
    CopyText(":", ['"'] + n, f);
    Unmatched(f, n);
    Matched(f, "");
    SwapEmpty(f);
    assert n + "" == n;
  }

  lemma OtherFieldsSkip()
    ensures forall i :: 0 <= i < |FIELDS[1..]| ==> NoStart(FIELDS[1..][i], After(FIELDS[0]))
  {
    hide NoStart, After;
    FieldsAreNames();
    forall i | 0 <= i < |FIELDS[1..]| ensures NoStart(FIELDS[1..][i], After(FIELDS[0])) {
      assert FIELDS[1..][i][0] in "thjd";
      OtherSkips(FIELDS[0], FIELDS[1..][i]);
    }
  }

  lemma OtherSkips(f: string, h: string)
    requires Plain(f) && Plain(h) && f != "" && h != "" && f[0] != h[0]
    ensures NoStart(h, After(f))
  {
    var n := Needle(f);
    assert n == ['"'] + (f + (['"'] + COLON_NULL));
    assert COLON_NULL[0] == ':' && NoStart(h, COLON_NULL);
    QuotedThen(h, f, COLON_NULL);
    assert NoStart(h, ":\"" + n);
    QuotedThen(h, f, ":\"" + n);
  }

  lemma PlainThen(h: string, p: string, s: string)
    requires h != "" && (forall i :: 0 <= i < |p| ==> p[i] != '"') && NoStart(h, s)
    ensures NoStart(h, p + s)
  {
  }

  lemma QuotedThen(h: string, f: string, s: string)
    requires h != "" && f != "" && f[0] != h[0] && Plain(f) && NoStart(h, s) && (s == "" || s[0] != h[0])
    ensures NoStart(h, ['"'] + (f + (['"'] + s)))
  {
    assert NoStart(h, ['"'] + s);
    PlainThen(h, f, ['"'] + s);
    assert (f + (['"'] + s))[0] == f[0];
  }

  /** On arbitrary bytes the normaliser is not idempotent: a replacement's last
      quote can begin an occurrence of a field that has had its pass. */
  lemma NotIdempotentOnBytes()
    ensures var once := Normalize(FIELDS, Before("md_content"));
            once == After("md_content") && Normalize(FIELDS, once) != once
  {
    hide Swap;
    var f, a := FIELDS[0], After("md_content");
    FirstPass(f);
    OtherFieldsSkip();
    SkipAll(FIELDS[1..], a);
    SecondPass(f);
    NormalizeShrinks(FIELDS[1..], Swap(f, a));
  }
}
