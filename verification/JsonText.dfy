// JSON values (RFC 8259) and the compact printing of them, for any serialiser
// whose string escapes are backslash escapes.

module JsonText {

  datatype Json =
    | Null
    | Bool(b: bool)
    | Number(text: string)
    | Str(chars: string)
    | Arr(items: seq<Json>)
    | Obj(members: seq<Member>)

  datatype Member = Member(name: string, value: Json)

  const NUMBER_CHARS: string := "0123456789+-.eE"

  /** Number texts consist of the characters of the number grammar. */
  predicate WellFormed(v: Json) {
    match v
    case Number(text) => text != "" && forall i :: 0 <= i < |text| ==> text[i] in NUMBER_CHARS
    case Arr(items) => forall i :: 0 <= i < |items| ==> WellFormed(items[i])
    case Obj(members) => forall i :: 0 <= i < |members| ==> WellFormed(members[i].value)
    case _ => true
  }

  // ---------------------------------------------------------------- printing

  /** Characters that every serialiser prints as themselves. */
  predicate PlainChar(c: char) {
    'a' <= c <= 'z' || c == '_'
  }

  predicate Plain(s: string) {
    forall i :: 0 <= i < |s| ==> PlainChar(s[i])
  }

  predicate HasQuote(s: string) {
    exists i :: 0 <= i < |s| && s[i] == '"'
  }

  /** How one character of a string is printed (RFC 8259 section 7): a quote as
      \", a plain character as itself, and any other character as itself or as
      an escape that starts with a backslash and has no quote in it. */
  ghost predicate GoodEscaper(esc: char -> string) {
    && esc('"') == ['\\', '"']
    && (forall c :: PlainChar(c) ==> esc(c) == [c])
    && (forall c :: c != '"' ==> !HasQuote(esc(c)) && esc(c) != "" && (esc(c) == [c] || esc(c)[0] == '\\'))
  }

  function EscapeAll(esc: char -> string, s: string): string {
    if s == "" then "" else esc(s[0]) + EscapeAll(esc, s[1..])
  }

  function Quote(esc: char -> string, s: string): string {
    ['"'] + (EscapeAll(esc, s) + ['"'])
  }

  function Print(esc: char -> string, v: Json): string
    decreases v, 0
  {
    match v
    case Null => "null"
    case Bool(b) => if b then "true" else "false"
    case Number(text) => text
    case Str(chars) => Quote(esc, chars)
    case Arr(items) => "[" + (PrintItems(esc, items) + "]")
    case Obj(members) => "{" + (PrintMembers(esc, members) + "}")
  }

  function PrintItems(esc: char -> string, items: seq<Json>): string
    decreases items, 1
  {
    if items == [] then ""
    else Print(esc, items[0]) + (if |items| == 1 then "" else "," + PrintItems(esc, items[1..]))
  }

  function PrintMember(esc: char -> string, m: Member): string
    decreases m, 2
  {
    Quote(esc, m.name) + (":" + Print(esc, m.value))
  }

  function PrintMembers(esc: char -> string, members: seq<Member>): string
    decreases members, 3
  {
    if members == [] then ""
    else PrintMember(esc, members[0]) + (if |members| == 1 then "" else "," + PrintMembers(esc, members[1..]))
  }

  // --------------------------------------------------------- blanking members

  /** v with "" for every null member, at any depth, whose name satisfies p. */
  function Blank(v: Json, p: string -> bool): Json
    decreases v, 0
  {
    match v
    case Arr(items) => Arr(BlankItems(items, p))
    case Obj(members) => Obj(BlankMembers(members, p))
    case _ => v
  }

  function BlankItems(items: seq<Json>, p: string -> bool): (r: seq<Json>)
    ensures |r| == |items|
    decreases items, 1
  {
    if items == [] then [] else [Blank(items[0], p)] + BlankItems(items[1..], p)
  }

  function BlankMember(m: Member, p: string -> bool): Member
    decreases m, 2
  {
    if m.value.Null? && p(m.name) then Member(m.name, Str("")) else Member(m.name, Blank(m.value, p))
  }

  function BlankMembers(members: seq<Member>, p: string -> bool): (r: seq<Member>)
    ensures |r| == |members|
    decreases members, 3
  {
    if members == [] then [] else [BlankMember(members[0], p)] + BlankMembers(members[1..], p)
  }

  /** The number of null members, at any depth, whose name satisfies p. */
  function CountBlanks(v: Json, p: string -> bool): nat
    decreases v, 0
  {
    match v
    case Arr(items) => CountItems(items, p)
    case Obj(members) => CountMembers(members, p)
    case _ => 0
  }

  function CountItems(items: seq<Json>, p: string -> bool): nat
    decreases items, 1
  {
    if items == [] then 0 else CountBlanks(items[0], p) + CountItems(items[1..], p)
  }

  function CountMember(m: Member, p: string -> bool): nat
    decreases m, 2
  {
    if m.value.Null? then (if p(m.name) then 1 else 0) else CountBlanks(m.value, p)
  }

  function CountMembers(members: seq<Member>, p: string -> bool): nat
    decreases members, 3
  {
    if members == [] then 0 else CountMember(members[0], p) + CountMembers(members[1..], p)
  }

  // -------------------------------------------------------- laws of blanking

  /** Blanking by p and then by q is blanking by either. */
  lemma {:induction false} BlankTwice(v: Json, p: string -> bool, q: string -> bool, r: string -> bool)
    requires forall n :: r(n) <==> p(n) || q(n)
    ensures Blank(Blank(v, p), q) == Blank(v, r)
    decreases v, 0
  {
    match v
    case Arr(items) => BlankTwiceItems(items, p, q, r);
    case Obj(members) => BlankTwiceMembers(members, p, q, r);
    case _ =>
  }

  lemma {:induction false} BlankTwiceItems(items: seq<Json>, p: string -> bool, q: string -> bool, r: string -> bool)
    requires forall n :: r(n) <==> p(n) || q(n)
    ensures BlankItems(BlankItems(items, p), q) == BlankItems(items, r)
    decreases items, 1
  {
    if items != [] {
      BlankTwice(items[0], p, q, r);
      BlankTwiceItems(items[1..], p, q, r);
      assert BlankItems(items, p)[1..] == BlankItems(items[1..], p);
    }
  }

  lemma {:induction false} BlankTwiceMembers(members: seq<Member>, p: string -> bool, q: string -> bool, r: string -> bool)
    requires forall n :: r(n) <==> p(n) || q(n)
    ensures BlankMembers(BlankMembers(members, p), q) == BlankMembers(members, r)
    decreases members, 3
  {
    if members != [] {
      BlankTwiceMember(members[0], p, q, r);
      BlankTwiceMembers(members[1..], p, q, r);
      assert BlankMembers(members, p)[1..] == BlankMembers(members[1..], p);
    }
  }

  lemma {:induction false} BlankTwiceMember(m: Member, p: string -> bool, q: string -> bool, r: string -> bool)
    requires forall n :: r(n) <==> p(n) || q(n)
    ensures BlankMember(BlankMember(m, p), q) == BlankMember(m, r)
    decreases m, 2
  {
    BlankTwice(m.value, p, q, r);
    if !(m.value.Null? && p(m.name)) {
      assert Blank(m.value, p).Null? <==> m.value.Null?;
    }
  }

  /** If p implies q and no more null members satisfy q than p, then blanking by
      either is the same. */
  lemma {:induction false} BlankSame(v: Json, p: string -> bool, q: string -> bool)
    requires forall n :: p(n) ==> q(n)
    ensures CountBlanks(v, p) <= CountBlanks(v, q)
    ensures CountBlanks(v, p) == CountBlanks(v, q) ==> Blank(v, p) == Blank(v, q)
    decreases v, 0
  {
    match v
    case Arr(items) => BlankSameItems(items, p, q);
    case Obj(members) => BlankSameMembers(members, p, q);
    case _ =>
  }

  lemma {:induction false} BlankSameItems(items: seq<Json>, p: string -> bool, q: string -> bool)
    requires forall n :: p(n) ==> q(n)
    ensures CountItems(items, p) <= CountItems(items, q)
    ensures CountItems(items, p) == CountItems(items, q) ==> BlankItems(items, p) == BlankItems(items, q)
    decreases items, 1
  {
    if items != [] {
      BlankSame(items[0], p, q);
      BlankSameItems(items[1..], p, q);
    }
  }

  lemma {:induction false} BlankSameMembers(members: seq<Member>, p: string -> bool, q: string -> bool)
    requires forall n :: p(n) ==> q(n)
    ensures CountMembers(members, p) <= CountMembers(members, q)
    ensures CountMembers(members, p) == CountMembers(members, q) ==> BlankMembers(members, p) == BlankMembers(members, q)
    decreases members, 3
  {
    if members != [] {
      BlankSame(members[0].value, p, q);
      BlankSameMembers(members[1..], p, q);
    }
  }

  /** Each blanked member makes the text two characters shorter. */
  lemma {:induction false} BlankLength(esc: char -> string, v: Json, p: string -> bool)
    ensures |Print(esc, Blank(v, p))| + 2 * CountBlanks(v, p) == |Print(esc, v)|
    decreases v, 0
  {
    match v
    case Arr(items) => BlankLengthItems(esc, items, p);
    case Obj(members) => BlankLengthMembers(esc, members, p);
    case _ =>
  }

  lemma {:induction false} BlankLengthItems(esc: char -> string, items: seq<Json>, p: string -> bool)
    ensures |PrintItems(esc, BlankItems(items, p))| + 2 * CountItems(items, p) == |PrintItems(esc, items)|
    decreases items, 1
  {
    if items != [] {
      BlankLength(esc, items[0], p);
      BlankLengthItems(esc, items[1..], p);
      assert BlankItems(items, p)[1..] == BlankItems(items[1..], p);
    }
  }

  lemma {:induction false} BlankLengthMembers(esc: char -> string, members: seq<Member>, p: string -> bool)
    ensures |PrintMembers(esc, BlankMembers(members, p))| + 2 * CountMembers(members, p) == |PrintMembers(esc, members)|
    decreases members, 3
  {
    if members != [] {
      BlankLengthMember(esc, members[0], p);
      BlankLengthMembers(esc, members[1..], p);
      assert BlankMembers(members, p)[1..] == BlankMembers(members[1..], p);
    }
  }

  lemma {:induction false} BlankLengthMember(esc: char -> string, m: Member, p: string -> bool)
    ensures |PrintMember(esc, BlankMember(m, p))| + 2 * CountMember(m, p) == |PrintMember(esc, m)|
    decreases m, 2
  {
    BlankLength(esc, m.value, p);
    if m.value.Null? && p(m.name) {
      assert EscapeAll(esc, "") == "";
      assert |Print(esc, Str(""))| == 2;
      assert |Print(esc, Null)| == 4;
    }
  }

  lemma {:induction false} BlankWellFormed(v: Json, p: string -> bool)
    requires WellFormed(v)
    ensures WellFormed(Blank(v, p))
    decreases v, 0
  {
    match v
    case Arr(items) => BlankWellFormedItems(items, p);
    case Obj(members) => BlankWellFormedMembers(members, p);
    case _ =>
  }

  lemma {:induction false} BlankWellFormedItems(items: seq<Json>, p: string -> bool)
    requires forall i :: 0 <= i < |items| ==> WellFormed(items[i])
    ensures forall i :: 0 <= i < |items| ==> WellFormed(BlankItems(items, p)[i])
    decreases items, 1
  {
    if items != [] {
      BlankWellFormed(items[0], p);
      BlankWellFormedItems(items[1..], p);
    }
  }

  lemma {:induction false} BlankWellFormedMembers(members: seq<Member>, p: string -> bool)
    requires forall i :: 0 <= i < |members| ==> WellFormed(members[i].value)
    ensures forall i :: 0 <= i < |members| ==> WellFormed(BlankMembers(members, p)[i].value)
    decreases members, 3
  {
    if members != [] {
      BlankWellFormed(members[0].value, p);
      BlankWellFormedMembers(members[1..], p);
    }
  }
}
