/** How the pieces meet on one location: the language menu navigates, the
    redirect effect may replace the location, the router renders a page and
    the detection effect sets the language from the final path.

    As written, the English home is lost: the menu and the header send it
    to "/en/", the redirect effect cuts the slash, and "/en" is detected as
    French. With "/en" detected as English (`IntendedLanguage`), every
    redirect keeps the language of the path it starts from. */
module Journeys {
  import opened Text
  import opened Redirects
  import opened RedirectFacts
  import opened Header
  import opened LanguageSwitcher
  import opened App

  // ---------------------------------------------------------------------
  // As written

  lemma EnglishHomeAddress()
    ensures SwitchLanguage("/", "en").navigateTo == Some("/en/")
    ensures CreateUrl("en", "/") == "/en/"
    ensures DetectedLanguage("/en/") == "en"
  {
    assert StartsWith("/en/", "/en/");
    assert !StartsWith("/", "/en");
  }

  lemma EnglishHomeRedirected()
    ensures ResolveTarget("/en/") == Some("/en")
    ensures ResolveTarget("/en") == None
  {
    HomeTwin();
    assert "/en" + "/" == "/en/";
    EnglishIndexesStay("/en");
  }

  /** The English home ends on "/en", which renders the English home page
      but is detected as French: the detection effect switches the language
      back to French. */
  lemma EnglishHomeDetectedFrench()
    ensures var e := SwitchLanguage("/", "en").navigateTo.value;
      && e == CreateUrl("en", "/")
      && Settle(e) == "/en"
      && Render(Settle(e)) == Home
      && DetectedLanguage(Settle(e)) == "fr"
      && LanguageAfter("en", DetectedLanguage(Settle(e))) == "fr"
  {
    EnglishHomeAddress();
    EnglishHomeRedirected();
    EnglishHomeRendered("/en");
    assert !StartsWith("/en", "/en/");
  }

  // ---------------------------------------------------------------------
  // With "/en" detected as English

  /** Cutting a trailing slash keeps the intended language: the only path
      whose cut changes its detection as written is "/en/". */
  lemma TrailingSlashKeepsLanguage(p: string)
    requires HasTrailingSlash(p)
    ensures IntendedLanguage(p[..|p| - 1]) == IntendedLanguage(p)
    ensures p != "/en/" ==> DetectedLanguage(p[..|p| - 1]) == DetectedLanguage(p)
  {
    var u := p[..|p| - 1];
    if StartsWith(u, "/en/") {
      assert p[..4] == u[..4];
    }
    if StartsWith(p, "/en/") && |p| > 4 {
      assert u[..4] == p[..4];
    }
    if StartsWith(p, "/en/") && |p| == 4 {
      assert p == p[..4];
    }
  }

  /** `IntendedLanguage` letter by letter. */
  predicate EnglishLetters(s: string) {
    |s| >= 3 && s[0] == '/' && s[1] == 'e' && s[2] == 'n' && (|s| == 3 || s[3] == '/')
  }

  lemma IntendedByLetters(s: string)
    ensures IntendedLanguage(s) == "en" <==> EnglishLetters(s)
  {
    if EnglishLetters(s) && |s| > 3 {
      assert s[..4] == "/en/";
    }
    if StartsWith(s, "/en/") {
      assert s[..4] == "/en/";
      assert s[0] == s[..4][0] && s[1] == s[..4][1] && s[2] == s[..4][2] && s[3] == s[..4][3];
    }
  }

  lemma TableLetters()
    ensures forall k | k in RedirectMap :: EnglishLetters(RedirectMap[k]) == EnglishLetters(k)
  {
  }

  /** Every table entry leads to a target of its own language. */
  lemma TableKeepsLanguage(k: string)
    requires k in RedirectMap
    ensures IntendedLanguage(RedirectMap[k]) == IntendedLanguage(k)
  {
    TableLetters();
    IntendedByLetters(k);
    IntendedByLetters(RedirectMap[k]);
  }

  /** The prefix of a French family starts with "/" and a letter other than
      the 'e' of "/en". */
  lemma FamilyLetters(pre: string)
    requires FrenchFamily(pre)
    ensures |pre| >= 2 && pre[0] == '/' && pre[1] != 'e'
  {
    if StartsWith(pre, "/blog/") {
      assert pre[..6] == "/blog/";
      assert pre[0] == pre[..6][0] && pre[1] == pre[..6][1];
    }
  }

  /** A path under a French family prefix is French. */
  lemma UnderFrenchFamily(pre: string, p: string)
    requires FrenchFamily(pre) && StartsWith(p, pre)
    ensures IntendedLanguage(p) == "fr"
  {
    FamilyLetters(pre);
    assert p[1] == p[..|pre|][1];
    if |p| >= 4 { NotStartsWithAt(p, "/en/", 1); }
  }

  /** A path under "/en" and a French family prefix is English. */
  lemma UnderEnglishFamily(pre: string, p: string)
    requires FrenchFamily(pre) && StartsWith(p, "/en" + pre)
    ensures IntendedLanguage(p) == "en"
  {
    FamilyLetters(pre);
    var full := "/en" + pre;
    assert full[..4] == "/en/";
    StartsWithTransitive(p, full, "/en/");
  }

  lemma GuardTargetLanguages(t: string)
    requires t == "/blog" || t == "/a-propos"
    ensures IntendedLanguage("" + t) == "fr"
    ensures IntendedLanguage("/en" + t) == "en"
  {
    assert "" + t == t;
    NotStartsWithAt(t, "/en/", 1);
    var e := "/en" + t;
    assert e[..4] == "/en/";
  }

  /** A pattern of a French family, alone or under "/en", only matches
      paths of the language of its target. */
  lemma PatternKeepsLanguage(lang: string, pat: Pattern, t: string, p: string)
    requires FrenchFamily(pat.prefix) && (lang == "" || lang == "/en")
    requires t == "/blog" || t == "/a-propos"
    requires PatternMatches(lang, pat, p)
    ensures IntendedLanguage(lang + t) == IntendedLanguage(p)
  {
    GuardTargetLanguages(t);
    if lang == "" {
      assert lang + pat.prefix == pat.prefix;
      UnderFrenchFamily(pat.prefix, p);
    } else {
      UnderEnglishFamily(pat.prefix, p);
    }
  }

  /** A French guard only matches French paths and leads to a French
      target; its English twin only matches English paths and leads to an
      English target. */
  lemma RuleKeepsLanguage(f: Rule, lang: string, p: string)
    requires FrenchRule(f) && (lang == "" || lang == "/en")
    requires RuleMatches(f.(lang := lang), p)
    ensures IntendedLanguage(lang + f.target) == IntendedLanguage(p)
  {
    var k :| 0 <= k < |f.patterns| && PatternMatches(lang, f.patterns[k], p);
    PatternKeepsLanguage(lang, f.patterns[k], f.target, p);
  }

  /** In a paired guard list every guard keeps the language. */
  lemma {:induction false} PairedKeepLanguage(rules: seq<Rule>, j: nat, p: string)
    requires Paired(rules) && j < |rules| && RuleMatches(rules[j], p)
    ensures IntendedLanguage(rules[j].lang + rules[j].target) == IntendedLanguage(p)
  {
    var f := rules[0];
    if j == 0 {
      assert f == f.(lang := "");
      RuleKeepsLanguage(f, "", p);
    } else if j == 1 {
      RuleKeepsLanguage(f, "/en", p);
    } else {
      assert rules[j] == rules[2..][j - 2];
      PairedKeepLanguage(rules[2..], j - 2, p);
    }
  }

  lemma GuardsKeepLanguage(p: string)
    requires GuardTarget(Rules, p).Some?
    ensures IntendedLanguage(GuardTarget(Rules, p).value) == IntendedLanguage(p)
  {
    GuardTargetFirst(Rules, p);
    RulesPaired();
    var j :| FirstHolding(Rules, p, j) && GuardTarget(Rules, p).value == Rules[j].lang + Rules[j].target;
    PairedKeepLanguage(Rules, j, p);
  }

  /** Every redirect keeps the intended language of the path. */
  lemma RedirectKeepsLanguage(p: string)
    requires ResolveTarget(p).Some?
    ensures IntendedLanguage(ResolveTarget(p).value) == IntendedLanguage(p)
  {
    if HasTrailingSlash(p) {
      TrailingSlashKeepsLanguage(p);
    } else if p in RedirectMap {
      TableKeepsLanguage(p);
    } else {
      GuardsKeepLanguage(p);
    }
  }

  /** So does the whole chain of redirects up to the resting path. */
  lemma {:induction false} SettleKeepsLanguage(p: string)
    decreases if Landing(p) then 0 else 1, |p|
    ensures IntendedLanguage(Settle(p)) == IntendedLanguage(p)
  {
    match ResolveTarget(p)
    case None =>
    case Some(next) =>
      SettleStep(p);
      RedirectKeepsLanguage(p);
      SettleKeepsLanguage(next);
  }

  /** Switching to English from any French page comes to rest on an
      address detected as English. */
  lemma SwitchToEnglishStays(p: string)
    requires StartsWith(p, "/") && !StartsWith(p, "/en")
    ensures SwitchLanguage(p, "en").navigateTo.Some?
    ensures IntendedLanguage(Settle(SwitchLanguage(p, "en").navigateTo.value)) == "en"
  {
    ToEnglish(p);
    CreateUrlPrefixes("en", p);
    var e := "/en" + p;
    assert e[..4] == "/en" + p[..1];
    SettleKeepsLanguage(e);
  }
}
