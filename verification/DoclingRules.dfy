// What the normalisation of docling answers applies to: which content types, and
// which members.

module DoclingRules {
  import opened Text
  import opened Mime
  import opened MimeRules
  import opened JsonText
  import opened Docling

  /** An answer is JSON exactly when its Content-Type, after any blanks and in any case,
      begins with "application/json"; parameters and what else follows are free. */
  lemma JsonIff(l: string, x: string)
    requires Blanks(l) && (x != "" ==> !IsSpace(x[0]))
    ensures IsJson(l + x) <==> |x| >= 16 && ToLower(x[..16]) == "application/json"
  {
    if x == "" {
      assert l + x == l;
      AllBlank(l);
    } else {
      TrimLeftBlanks(l, x);
      hide TrimLeft, IsSpace;
      BeginsAlike(x);
    }
  }

  lemma EndIsVisible(x: string)
    requires |x| >= 16 && ToLower(x[..16]) == "application/json"
    ensures !IsSpace(x[15])
  {
    assert LowerChar(x[15]) == ToLower(x[..16])[15] == 'n';
  }

  lemma BeginIsKept(x: string)
    requires |x| >= 16 && !IsSpace(x[15])
    ensures |TrimRight(x)| >= 16 && TrimRight(x)[..16] == x[..16]
  {
    hide TrimRight, IsSpace;
    TrimRightIsPrefix(x);
    assert x[..16] + x[16..] == x;
    TrimRightOf(x[..16], x[16..]);
  }

  /** Trimming the end keeps such a beginning, and adds none. */
  lemma BeginsAlike(x: string)
    ensures "application/json" <= ToLower(TrimRight(x)) <==> |x| >= 16 && ToLower(x[..16]) == "application/json"
  {
    hide ToLower, TrimRight, IsSpace;
    var y := TrimRight(x);
    LowerBegins(y);
    if |x| >= 16 && ToLower(x[..16]) == "application/json" {
      EndIsVisible(x);
      BeginIsKept(x);
    }
    TrimRightIsPrefix(x);
    if |y| >= 16 {
      assert y[..16] == x[..16];
    }
  }

  lemma LowerBegins(y: string)
    ensures "application/json" <= ToLower(y) <==> |y| >= 16 && ToLower(y[..16]) == "application/json"
  {
    if |y| >= 16 {
      assert ToLower(y)[..16] == ToLower(y[..16]);
    }
  }

  /** The members whose null is replaced. */
  function ContentMember(): string -> bool {
    (n: string) => n == "md_content" || n == "text_content" || n == "html_content" || n == "json_content" || n == "doctags_content"
  }

  lemma FieldsAreContent(n: string)
    ensures Named(FIELDS)(n) <==> ContentMember()(n)
  {
    assert FIELDS[0] == "md_content" && FIELDS[1] == "text_content" && FIELDS[2] == "html_content"
        && FIELDS[3] == "json_content" && FIELDS[4] == "doctags_content" && |FIELDS| == 5;
  }

  /** Printed JSON whose member names hold no quote: the null of exactly these five
      members becomes the empty string, at any depth, and nothing else changes. */
  lemma ContentIsBlanked(esc: char -> string, v: Json)
    requires GoodEscaper(esc) && WellFormed(v) && NamesSatisfy(v, n => !HasQuote(n))
    ensures Normalize(FIELDS, Print(esc, v)) == Print(esc, Blank(v, ContentMember()))
  {
    IntendedWithoutQuotes(esc, v);
    hide GoodEscaper, Normalize, Print, Blank, Named, ContentMember;
    forall n ensures Named(FIELDS)(n) <==> ContentMember()(n) {
      FieldsAreContent(n);
    }
    BlankTwice(v, ContentMember(), Nothing(), Named(FIELDS));
    BlankNothing(Blank(v, ContentMember()), Nothing());
  }

  function Nothing(): string -> bool {
    (n: string) => false
  }
}
