// The routing strategies in their own words: which signal a strategy looks at, and
// which of the two comes first.

module RoutingRules {
  import opened Text
  import opened Mime
  import opened MimeRules
  import opened Registry

  /** Some engine other than the default asks for the upload by its type, or by the
      extension of its name. */
  ghost predicate Asked(entries: Entries, default: string, facade: Facade, phase: Phase, hint: Hint) {
    exists n :: Candidate(entries, default, facade, phase, hint, n)
  }

  lemma OnePhase(entries: Entries, default: string, facade: Facade, phase: Phase, hint: Hint, o: Outcome)
    requires default in entries && Rule(entries, default, facade, [phase], hint, o)
    ensures Asked(entries, default, facade, phase, hint) ==> o.Picked? && o.source == SourceOf(phase)
    ensures !Asked(entries, default, facade, phase, hint) ==> o.Picked? ==> o.source == ByDefault
  {
    hide Candidate, First;
    assert [phase][1..] == [];
  }

  lemma TwoPhases(entries: Entries, default: string, facade: Facade, one: Phase, two: Phase, hint: Hint, o: Outcome)
    requires default in entries && Rule(entries, default, facade, [one, two], hint, o)
    ensures Asked(entries, default, facade, one, hint) ==> o.Picked? && o.source == SourceOf(one)
    ensures !Asked(entries, default, facade, one, hint) && Asked(entries, default, facade, two, hint) ==> o.Picked? && o.source == SourceOf(two)
    ensures !Asked(entries, default, facade, one, hint) && !Asked(entries, default, facade, two, hint) ==> o.Picked? ==> o.source == ByDefault
  {
    hide Candidate, First;
    assert [one, two][1..] == [two];
    if !Asked(entries, default, facade, one, hint) {
      OnePhase(entries, default, facade, two, hint, o);
    }
  }

  /** What decides under each strategy: "mime" looks at the type only and "extension" at
      the name only; of the two others each looks at its first signal first, and any
      other word means the type first. */
  lemma StrategiesMean(t: Table, entries: Entries, default: string, strategy: string, facade: Facade, hint: Hint)
    requires default in entries && IsTable(t, entries, default, Phases(ResolveStrategy(strategy)))
    ensures var byMime, byName := Asked(entries, default, facade, MimePhase, hint), Asked(entries, default, facade, ExtPhase, hint);
            var o := Pick(t, facade, hint);
            && (strategy == "mime" ==>
                 if byMime then o.Picked? && o.source == ByMime else o.Picked? ==> o.source == ByDefault)
            && (strategy == "extension" ==>
                 if byName then o.Picked? && o.source == ByName else o.Picked? ==> o.source == ByDefault)
            && (strategy == "extension_then_mime" ==>
                 if byName then o.Picked? && o.source == ByName
                 else if byMime then o.Picked? && o.source == ByMime
                 else o.Picked? ==> o.source == ByDefault)
            && (strategy != "mime" && strategy != "extension" && strategy != "extension_then_mime" ==>
                 if byMime then o.Picked? && o.source == ByMime
                 else if byName then o.Picked? && o.source == ByName
                 else o.Picked? ==> o.source == ByDefault)
  {
    var phases := Phases(ResolveStrategy(strategy));
    PickIsTheRule(t, entries, default, phases, facade, hint, Pick(t, facade, hint));
    hide Rule, Pick, Asked, IsTable;
    if strategy == "mime" {
      OnePhase(entries, default, facade, MimePhase, hint, Pick(t, facade, hint));
    } else if strategy == "extension" {
      OnePhase(entries, default, facade, ExtPhase, hint, Pick(t, facade, hint));
    } else if strategy == "extension_then_mime" {
      TwoPhases(entries, default, facade, ExtPhase, MimePhase, hint, Pick(t, facade, hint));
    } else {
      TwoPhases(entries, default, facade, MimePhase, ExtPhase, hint, Pick(t, facade, hint));
    }
  }

  lemma {:induction false} SameCandidates(entries: Entries, default: string, facade: Facade, phase: Phase, a: Hint, b: Hint, o: Outcome)
    requires default in entries && Rule(entries, default, facade, [phase], a, o)
    requires forall n :: Candidate(entries, default, facade, phase, a, n) <==> Candidate(entries, default, facade, phase, b, n)
    ensures Rule(entries, default, facade, [phase], b, o)
  {
    assert [phase][1..] == [];
    if !Unclaimed(entries, default, facade, phase, a) {
      var n :| n in entries && First(entries, default, facade, phase, a, n) && o == Picked(entries[n].engine, SourceOf(phase));
      assert First(entries, default, facade, phase, b, n);
    }
  }

  /** Under "mime" the file name has no influence, under "extension" the type has none. */
  lemma OneSignalOnly(t: Table, entries: Entries, default: string, strategy: string, facade: Facade, hint: Hint, other: Hint)
    requires default in entries && IsTable(t, entries, default, Phases(ResolveStrategy(strategy)))
    requires (strategy == "mime" && hint.mime == other.mime) || (strategy == "extension" && hint.filename == other.filename)
    ensures Pick(t, facade, hint) == Pick(t, facade, other)
  {
    var phases := Phases(ResolveStrategy(strategy));
    var phase := if strategy == "mime" then MimePhase else ExtPhase;
    var o := Pick(t, facade, hint);
    PickIsTheRule(t, entries, default, phases, facade, hint, o);
    forall n ensures Candidate(entries, default, facade, phase, hint, n) <==> Candidate(entries, default, facade, phase, other, n) {
    }
    assert phases == [phase];
    SameCandidates(entries, default, facade, phase, hint, other, o);
    PickIsTheRule(t, entries, default, phases, facade, other, o);
  }

  /** Whoever is picked answers the facade that was asked for. */
  lemma PickedAnswersFacade(t: Table, entries: Entries, default: string, strategy: string, facade: Facade, hint: Hint)
    requires default in entries && IsTable(t, entries, default, Phases(ResolveStrategy(strategy)))
    ensures Pick(t, facade, hint).Picked? ==> facade in Pick(t, facade, hint).engine.facades
  {
    PickIsTheRule(t, entries, default, Phases(ResolveStrategy(strategy)), facade, hint, Pick(t, facade, hint));
    hide Pick, IsTable, Phases;
    RuleAnswersFacade(entries, default, facade, Phases(ResolveStrategy(strategy)), hint, Pick(t, facade, hint));
  }

  lemma {:induction false} RuleAnswersFacade(entries: Entries, default: string, facade: Facade, phases: seq<Phase>, hint: Hint, o: Outcome)
    requires default in entries && Rule(entries, default, facade, phases, hint, o)
    ensures o.Picked? ==> facade in o.engine.facades
  {
    if phases != [] && Unclaimed(entries, default, facade, phases[0], hint) {
      RuleAnswersFacade(entries, default, facade, phases[1..], hint, o);
    }
  }

  lemma NormalOfSpelling(l: string, v: string, r: string)
    requires Blanks(l) && Blanks(r) && Word(v)
    ensures Normal(l + (v + r)) == ToLower(v)
  {
    hide IsSpace;
    TrimLeftBlanks(l, v + r);
    TrimRightBlanks(v, r);
  }

  /** What an entry of an engine's list of types covers, between any blanks and in any
      case: one that ends in a slash and a star the types that begin like it, up to the
      slash; any other word itself only. */
  lemma ListedTypeMeans(l: string, v: string, r: string, main: string, mime: string)
    requires Blanks(l) && Blanks(r) && Word(v)
    ensures ToLower(v) == main + "/*" ==> (MimeRule(l + (v + r), mime) <==> main + "/" <= mime)
    ensures |v| < 2 || v[|v| - 2..] != "/*" ==> (MimeRule(l + (v + r), mime) <==> mime == ToLower(v))
  {
    hide IsSpace, Normal, EndsInWildcard, ToLower, Blanks, MimeRule;
    NormalOfSpelling(l, v, r);
    RuleOfNormal(l + (v + r), ToLower(v), mime);
    LowerEndsAlike(v);
    if ToLower(v) == main + "/*" {
      MainPart(ToLower(v), main);
    }
  }

  lemma RuleOfNormal(entry: string, t: string, mime: string)
    requires Normal(entry) == t && t != ""
    ensures EndsInWildcard(t) ==> |t| >= 2 && (MimeRule(entry, mime) <==> t[..|t| - 1] <= mime)
    ensures !EndsInWildcard(t) ==> (MimeRule(entry, mime) <==> t == mime)
  {
    hide Normal;
  }

  lemma LowerEndsAlike(v: string)
    ensures EndsInWildcard(ToLower(v)) <==> |v| >= 2 && v[|v| - 2..] == "/*"
  {
    if |v| >= 2 {
      var a, b := v[|v| - 2], v[|v| - 1];
      assert v[|v| - 2..] == [a, b] && ToLower(v)[|v| - 2..] == [LowerChar(a), LowerChar(b)];
    }
  }

  lemma MainPart(t: string, main: string)
    requires t == main + "/*"
    ensures EndsInWildcard(t) && t[..|t| - 1] == main + "/"
  {
    assert t[|t| - 2..] == "/*";
  }

  /** What an entry of its list of extensions covers: that extension in lower case, with
      a dot before it whether or not the entry has one. */
  lemma ListedExtensionMeans(l: string, v: string, r: string, ext: string)
    requires Blanks(l) && Blanks(r) && Word(v)
    ensures v[0] == '.' ==> (ExtRule(l + (v + r), ext) <==> ext == ToLower(v))
    ensures v[0] != '.' ==> (ExtRule(l + (v + r), ext) <==> ext == "." + ToLower(v))
  {
    NormalOfSpelling(l, v, r);
    hide IsSpace, Normal;
  }
}
