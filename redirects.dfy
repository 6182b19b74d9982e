/** The legacy-URL redirect resolver (`RedirectHandler`): on every location
    change it either leaves the location alone or replaces it, once, by the
    canonical form of an old WordPress URL, keeping the query string.
    The effect's single `navigate(target + search, { replace: true })` is the
    `Some` result of `Resolve`. */
module Redirects {
  import opened Text

  /** The exact-match table `redirectMap`. */
  const RedirectMap: map<string, string> := map[
    "/feed" := "/blog", "/feed/" := "/blog",
    "/en/feed" := "/en/blog", "/en/feed/" := "/en/blog",
    "/wp-json" := "/", "/wp-json/" := "/",
    "/en/wp-json" := "/en/", "/en/wp-json/" := "/en/",
    "/comments" := "/nous-contacter", "/comments/" := "/nous-contacter",
    "/en/comments" := "/en/nous-contacter", "/en/comments/" := "/en/nous-contacter",
    "/wp-content" := "/", "/wp-content/" := "/",
    "/wp-admin" := "/", "/wp-admin/" := "/",
    "/wp-login" := "/", "/wp-login/" := "/",
    "/blog/page/1" := "/blog", "/blog/page/1/" := "/blog",
    "/en/blog/page/1" := "/en/blog", "/en/blog/page/1/" := "/en/blog",
    "/blog/category" := "/blog", "/blog/category/" := "/blog",
    "/en/blog/category" := "/en/blog", "/en/blog/category/" := "/en/blog",
    "/blog/tag" := "/blog", "/blog/tag/" := "/blog",
    "/en/blog/tag" := "/en/blog", "/en/blog/tag/" := "/en/blog"
  ]

  /** Every target a table entry or a pattern rule can produce. */
  const Targets: set<string> := {
    "/blog", "/en/blog", "/", "/en/", "/nous-contacter", "/en/nous-contacter",
    "/a-propos", "/en/a-propos"
  }

  /** The navigation the effect issues. */
  datatype Navigation = Navigation(to: string, replace: bool)

  /** Rule 1: `path.endsWith('/') && path.length > 1`. */
  predicate HasTrailingSlash(path: string) {
    EndsWith(path, "/") && |path| > 1
  }

  predicate AllDigits(t: string) {
    forall i :: 0 <= i < |t| ==> IsDigit(t[i])
  }

  /** The text a final optional `\/?` leaves to the part before it. */
  function DropOptionalSlash(t: string): string {
    if EndsWith(t, "/") then t[..|t| - 1] else t
  }

  /** `\d+\/?$` */
  predicate DigitsTail(t: string) {
    var u := DropOptionalSlash(t);
    |u| > 0 && AllDigits(u)
  }

  /** `[^/]+\/?$` */
  predicate SegmentTail(t: string) {
    var u := DropOptionalSlash(t);
    |u| > 0 && '/' !in u
  }

  /** `\d{4}\/?$` */
  predicate YearTail(t: string) {
    var u := DropOptionalSlash(t);
    |u| == 4 && AllDigits(u)
  }

  /** `\d{4}\/\d{2}\/?$` */
  predicate YearMonthTail(t: string) {
    var u := DropOptionalSlash(t);
    |u| == 7 && AllDigits(u[..4]) && u[4] == '/' && AllDigits(u[5..])
  }

  /** What a pattern demands of the text after its literal prefix. */
  datatype Tail =
    | Digits     // \d+\/?$
    | Segment    // [^/]+\/?$
    | Year       // \d{4}\/?$
    | YearMonth  // \d{4}\/\d{2}\/?$
    | AnyRest    // \/? with no end anchor: anything may follow

  predicate TailMatches(tail: Tail, rest: string) {
    match tail
    case Digits => DigitsTail(rest)
    case Segment => SegmentTail(rest)
    case Year => YearTail(rest)
    case YearMonth => YearMonthTail(rest)
    case AnyRest => true
  }

  /** An anchored regular expression `^<lang><prefix><tail>`, without its
      language part. */
  datatype Pattern = Pattern(prefix: string, tail: Tail)

  predicate PatternMatches(lang: string, p: Pattern, path: string) {
    var pre := lang + p.prefix;
    StartsWith(path, pre) && TailMatches(p.tail, path[|pre|..])
  }

  /** One `if (path.match(...) || path.match(...))` guard: its patterns and
      its target, both under the language prefix `lang` ("" or "/en"). */
  datatype Rule = Rule(lang: string, patterns: seq<Pattern>, target: string)

  predicate RuleMatches(r: Rule, path: string) {
    exists j :: 0 <= j < |r.patterns| && PatternMatches(r.lang, r.patterns[j], path)
  }

  /** The pattern guards in the order the effect tries them. */
  const Rules: seq<Rule> := [
    Rule("", [Pattern("/blog/page/", Digits)], "/blog"),
    Rule("/en", [Pattern("/blog/page/", Digits)], "/blog"),
    Rule("", [Pattern("/blog/category/", Segment)], "/blog"),
    Rule("/en", [Pattern("/blog/category/", Segment)], "/blog"),
    Rule("", [Pattern("/blog/tag/", Segment)], "/blog"),
    Rule("/en", [Pattern("/blog/tag/", Segment)], "/blog"),
    Rule("", [Pattern("/blog/", Year)], "/blog"),
    Rule("/en", [Pattern("/blog/", Year)], "/blog"),
    Rule("", [Pattern("/blog/", YearMonth)], "/blog"),
    Rule("/en", [Pattern("/blog/", YearMonth)], "/blog"),
    Rule("", [Pattern("/psantus", AnyRest), Pattern("/author/", Segment)], "/a-propos"),
    Rule("/en", [Pattern("/psantus", AnyRest), Pattern("/author/", Segment)], "/a-propos")
  ]

  /** Guard `j` is the first in `rules` that holds for `path`. */
  predicate FirstHolding(rules: seq<Rule>, path: string, j: int) {
    && 0 <= j < |rules|
    && RuleMatches(rules[j], path)
    && forall i :: 0 <= i < j ==> !RuleMatches(rules[i], path)
  }

  /** The target of the first guard in `rules` that holds for `path`, under
      the guard's language prefix (see `GuardTargetFirst`). */
  function GuardTarget(rules: seq<Rule>, path: string): Option<string> {
    if rules == [] then None
    else if RuleMatches(rules[0], path) then Some(rules[0].lang + rules[0].target)
    else GuardTarget(rules[1..], path)
  }

  /** The guards give no target exactly when none holds, and otherwise the
      target of the first that holds, under its language prefix. */
  lemma {:induction false} GuardTargetFirst(rules: seq<Rule>, path: string)
    ensures GuardTarget(rules, path).None? <==> forall j :: 0 <= j < |rules| ==> !RuleMatches(rules[j], path)
    ensures GuardTarget(rules, path).Some? ==>
      exists j :: FirstHolding(rules, path, j) && GuardTarget(rules, path).value == rules[j].lang + rules[j].target
  {
    if rules != [] && !RuleMatches(rules[0], path) {
      GuardTargetFirst(rules[1..], path);
      var r := GuardTarget(rules[1..], path);
      if r.Some? {
        var j :| FirstHolding(rules[1..], path, j) && r.value == rules[1..][j].lang + rules[1..][j].target;
        assert FirstHolding(rules, path, j + 1) by {
          forall i | 0 <= i < j + 1 ensures !RuleMatches(rules[i], path) {
            if i > 0 { assert rules[i] == rules[1..][i - 1]; }
          }
        }
      } else {
        forall j | 0 <= j < |rules| ensures !RuleMatches(rules[j], path) {
          if j > 0 { assert rules[j] == rules[1..][j - 1]; }
        }
      }
    } else if rules != [] {
      assert FirstHolding(rules, path, 0);
    }
  }

  /** The path the effect navigates to, before the query is appended:
      trailing slash first, then the table, then the pattern guards in
      order; the first that applies decides. */
  function ResolveTarget(path: string): (r: Option<string>)
    ensures HasTrailingSlash(path) ==> r == Some(path[..|path| - 1])
  {
    if HasTrailingSlash(path) then Some(path[..|path| - 1])
    else if path in RedirectMap then Some(RedirectMap[path])
    else GuardTarget(Rules, path)
  }

  /** The effect for a location `path` + `search`: at most one navigation,
      always a history replacement, to the target with the query appended
      verbatim. */
  function Resolve(path: string, search: string): (r: Option<Navigation>)
    ensures r.Some? <==> ResolveTarget(path).Some?
    ensures r.Some? ==> r.value.replace && r.value.to == ResolveTarget(path).value + search
  {
    match ResolveTarget(path)
    case None => None
    case Some(target) => Some(Navigation(target + search, true))
  }

  // ---------------------------------------------------------------------
  // The shape of the guard list

  /** A prefix of the French site under one of the three archive families:
      "/blog/...", "/psantus" or "/author/". */
  predicate FrenchFamily(pre: string) {
    StartsWith(pre, "/blog/") || pre == "/psantus" || pre == "/author/"
  }

  /** A French guard: no language part, a French target, prefixes in the
      French families. */
  predicate FrenchRule(r: Rule) {
    && r.lang == ""
    && (r.target == "/blog" || r.target == "/a-propos")
    && forall j :: 0 <= j < |r.patterns| ==> FrenchFamily(r.patterns[j].prefix)
  }

  /** Every second guard is the same guard as the one before it, under "/en". */
  predicate Twinned(rules: seq<Rule>) {
    if rules == [] then true
    else |rules| >= 2 && rules[1] == rules[0].(lang := "/en") && Twinned(rules[2..])
  }

  /** Every first guard of a pair is French. */
  predicate FrenchFirsts(rules: seq<Rule>) {
    if rules == [] then true
    else |rules| >= 2 && FrenchRule(rules[0]) && FrenchFirsts(rules[2..])
  }

  /** The guards come in pairs: a French one, then its English twin. */
  predicate Paired(rules: seq<Rule>) {
    Twinned(rules) && FrenchFirsts(rules)
  }

  lemma RulesTwinned()
    ensures Twinned(Rules)
  {
  }

  lemma RulesFrenchFirst()
    ensures FrenchFirsts(Rules)
  {
    forall j | 0 <= j < |Rules| / 2 ensures FrenchRule(Rules[2 * j]) {
      var r := Rules[2 * j];
      assert r.lang == "" && (r.target == "/blog" || r.target == "/a-propos");
      forall k | 0 <= k < |r.patterns| ensures FrenchFamily(r.patterns[k].prefix) {
        var pre := r.patterns[k].prefix;
        if j < 5 {
          assert pre[..6] == "/blog/";
        }
      }
    }
    FrenchFirstsByIndex(Rules);
  }

  /** A list of even length whose guards at even positions are French. */
  lemma {:induction false} FrenchFirstsByIndex(rules: seq<Rule>)
    requires |rules| % 2 == 0
    requires forall j :: 0 <= j < |rules| / 2 ==> FrenchRule(rules[2 * j])
    ensures FrenchFirsts(rules)
    decreases |rules|
  {
    if rules != [] {
      var rest := rules[2..];
      forall j | 0 <= j < |rest| / 2 ensures FrenchRule(rest[2 * j]) {
        assert rest[2 * j] == rules[2 * (j + 1)];
      }
      assert FrenchRule(rules[2 * 0]);
      FrenchFirstsByIndex(rest);
    }
  }

  lemma RulesPaired()
    ensures Paired(Rules)
  {
    RulesTwinned();
    RulesFrenchFirst();
  }

  /** Skipping a pair of guards that both fail. */
  lemma SkipPair(rules: seq<Rule>, path: string)
    requires |rules| >= 2 && !RuleMatches(rules[0], path) && !RuleMatches(rules[1], path)
    ensures GuardTarget(rules, path) == GuardTarget(rules[2..], path)
  {
    assert rules[1..][0] == rules[1];
    assert rules[1..][1..] == rules[2..];
  }

  /** A target a guard may produce: a French target or its English twin. */
  predicate GuardTargetName(t: string) {
    t == "/blog" || t == "/a-propos" || t == "/en/blog" || t == "/en/a-propos"
  }

  /** In a paired list every guard produces one of the four targets. */
  lemma {:induction false} PairedTargets(rules: seq<Rule>)
    requires Paired(rules)
    ensures forall j :: 0 <= j < |rules| ==> GuardTargetName(rules[j].lang + rules[j].target)
  {
    if rules != [] {
      PairedTargets(rules[2..]);
      PairNamed(rules[0]);
      assert rules[1].lang + rules[1].target == "/en" + rules[0].target;
      forall j | 2 <= j < |rules|
        ensures GuardTargetName(rules[j].lang + rules[j].target)
      {
        assert rules[j] == rules[2..][j - 2];
      }
    }
  }

  /** A French guard and its English twin both produce one of the four
      targets. */
  lemma PairNamed(f: Rule)
    requires f.lang == "" && (f.target == "/blog" || f.target == "/a-propos")
    ensures GuardTargetName(f.lang + f.target) && GuardTargetName("/en" + f.target)
  {
    assert f.lang + f.target == f.target;
    if f.target == "/blog" {
      assert "/en" + f.target == "/en/blog";
    } else {
      assert "/en" + f.target == "/en/a-propos";
    }
  }

  lemma NamesKnown(t: string)
    requires GuardTargetName(t)
    ensures t in Targets
  {
  }

  /** Every table value is one of the known targets. */
  lemma TableTargetsKnown()
    ensures forall k | k in RedirectMap :: RedirectMap[k] in Targets
  {
  }

  /** Every guard target is one of the known targets. */
  lemma GuardTargetsKnown(path: string)
    requires GuardTarget(Rules, path).Some?
    ensures GuardTarget(Rules, path).value in Targets
  {
    GuardTargetFirst(Rules, path);
    RulesPaired();
    PairedTargets(Rules);
    NamesKnown(GuardTarget(Rules, path).value);
  }

  /** Whatever the table or the guards produce is one of the known targets. */
  lemma TargetKnown(path: string)
    requires ResolveTarget(path).Some? && !HasTrailingSlash(path)
    ensures ResolveTarget(path).value in Targets
  {
    if path in RedirectMap { TableTargetsKnown(); } else { GuardTargetsKnown(path); }
  }

  /** A path without the prefix `q` has no longer prefix `p` extending it. */
  lemma NotUnder(path: string, p: string, q: string)
    requires StartsWith(p, q) && !StartsWith(path, q)
    ensures !StartsWith(path, p)
  {
    if StartsWith(path, p) {
      StartsWithTransitive(path, p, q);
    }
  }

  /** A path outside the six families. */
  predicate OutsideFamilies(path: string) {
    && !StartsWith(path, "/blog/") && !StartsWith(path, "/en/blog/")
    && !StartsWith(path, "/psantus") && !StartsWith(path, "/en/psantus")
    && !StartsWith(path, "/author/") && !StartsWith(path, "/en/author/")
  }

  lemma NoPatternApplies(lang: string, pre: string, path: string)
    requires lang == "" || lang == "/en"
    requires FrenchFamily(pre) && OutsideFamilies(path)
    ensures !StartsWith(path, lang + pre)
  {
    if lang == "" {
      assert lang + pre == pre;
      if StartsWith(pre, "/blog/") {
        NotUnder(path, pre, "/blog/");
      }
    } else if StartsWith(pre, "/blog/") {
      StartsWithBoth("/en", pre, "/blog/");
      assert "/en" + "/blog/" == "/en/blog/";
      NotUnder(path, "/en" + pre, "/en/blog/");
    } else if pre == "/psantus" {
      assert "/en" + pre == "/en/psantus";
    } else {
      assert "/en" + pre == "/en/author/";
    }
  }

  lemma {:induction false} NoGuardApplies(rules: seq<Rule>, path: string)
    requires Paired(rules) && OutsideFamilies(path)
    ensures GuardTarget(rules, path) == None
  {
    if rules != [] {
      var f := rules[0];
      forall lang, j | (lang == "" || lang == "/en") && 0 <= j < |f.patterns|
        ensures !PatternMatches(lang, f.patterns[j], path)
      {
        NoPatternApplies(lang, f.patterns[j].prefix, path);
      }
      assert rules[1].lang == "/en" && rules[1].patterns == f.patterns;
      SkipPair(rules, path);
      NoGuardApplies(rules[2..], path);
    }
  }

  /** Only paths with a trailing slash, table keys and six path families
      are ever rewritten. */
  lemma NoRuleApplies(path: string)
    requires !HasTrailingSlash(path) && path !in RedirectMap && OutsideFamilies(path)
    ensures ResolveTarget(path) == None
  {
    RulesPaired();
    NoGuardApplies(Rules, path);
  }

  /** `NoRuleApplies` for a path whose family prefixes are ruled out by the
      character at position `i` (French families) or `j` (English ones),
      or by being too short. */
  lemma StaysPut(t: string, i: nat, j: nat)
    requires !HasTrailingSlash(t) && t !in RedirectMap
    requires |t| < 6 || (i < 6 && t[i] != "/blog/"[i])
    requires |t| < 8 || (i < 8 && t[i] != "/psantus"[i])
    requires |t| < 8 || (i < 8 && t[i] != "/author/"[i]) || t[2] != "/author/"[2]
    requires |t| < 9 || (j < 9 && t[j] != "/en/blog/"[j])
    requires |t| < 11 || (j < 11 && t[j] != "/en/psantus"[j])
    requires |t| < 11 || (j < 11 && t[j] != "/en/author/"[j]) || t[5] != "/en/author/"[5]
    ensures ResolveTarget(t) == None
  {
    if |t| >= 6 { NotStartsWithAt(t, "/blog/", i); }
    if |t| >= 8 {
      NotStartsWithAt(t, "/psantus", i);
      if i < 8 && t[i] != "/author/"[i] { NotStartsWithAt(t, "/author/", i); }
      else { NotStartsWithAt(t, "/author/", 2); }
    }
    if |t| >= 9 { NotStartsWithAt(t, "/en/blog/", j); }
    if |t| >= 11 {
      NotStartsWithAt(t, "/en/psantus", j);
      if j < 11 && t[j] != "/en/author/"[j] { NotStartsWithAt(t, "/en/author/", j); }
      else { NotStartsWithAt(t, "/en/author/", 5); }
    }
    NoRuleApplies(t);
  }

  lemma IndexesStay(t: string)
    requires t == "/" || t == "/blog"
    ensures ResolveTarget(t) == None
  {
    StaysPut(t, 1, 1);
  }

  lemma PagesStay(t: string)
    requires t == "/nous-contacter" || t == "/a-propos"
    ensures ResolveTarget(t) == None
  {
    StaysPut(t, 1, 1);
  }

  lemma EnglishIndexesStay(t: string)
    requires t == "/en" || t == "/en/blog"
    ensures ResolveTarget(t) == None
  {
    StaysPut(t, 1, 1);
  }

  /** The English pages stay put, and so does "/en/wp-admin": the table
      has no English entry for the WordPress back office. */
  lemma EnglishPagesStay(t: string)
    requires t == "/en/nous-contacter" || t == "/en/a-propos" || t == "/en/wp-admin"
    ensures ResolveTarget(t) == None
  {
    StaysPut(t, 1, 4);
  }

  /** The targets are final: none is redirected again, except the English
      home "/en/", which the trailing-slash rule sends to "/en", which stays. */
  lemma TargetsAreFinal(t: string)
    requires t in Targets
    ensures t != "/en/" ==> ResolveTarget(t) == None
    ensures t == "/en/" ==>
      ResolveTarget(t) == Some("/en") && ResolveTarget(ResolveTarget(t).value) == None
  {
    if t == "/en/" {
      var u := t[..|t| - 1];
      assert u == "/en";
      EnglishIndexesStay(u);
    } else if t == "/" || t == "/blog" {
      IndexesStay(t);
    } else if t == "/nous-contacter" || t == "/a-propos" {
      PagesStay(t);
    } else if t == "/en/blog" {
      EnglishIndexesStay(t);
    } else {
      EnglishPagesStay(t);
    }
  }

  // ---------------------------------------------------------------------
  // The English site mirrors the French one

  /** A path of the French site: it starts with "/" and not with "/en/". */
  predicate FrenchPath(q: string) {
    StartsWith(q, "/") && !StartsWith(q, "/en/")
  }

  lemma PatternMirror(p: Pattern, q: string)
    requires FrenchFamily(p.prefix) && FrenchPath(q)
    ensures PatternMatches("/en", p, "/en" + q) == PatternMatches("", p, q)
    ensures !PatternMatches("", p, "/en" + q)
    ensures !PatternMatches("/en", p, q)
  {
    var pre := p.prefix;
    var e := "/en" + q;
    assert "" + pre == pre;
    assert pre[1] != 'e' by {
      if StartsWith(pre, "/blog/") { assert pre[1] == pre[..6][1]; }
    }
    StartsWithBoth("/en", q, pre);
    if |pre| <= |e| {
      NotStartsWithAt(e, pre, 1);
    }
    assert StartsWith("/en" + pre, "/en/") by {
      if StartsWith(pre, "/blog/") { assert pre[0] == pre[..6][0]; }
      assert ("/en" + pre)[..4] == "/en" + pre[..1];
    }
    if StartsWith(q, "/en" + pre) {
      StartsWithTransitive(q, "/en" + pre, "/en/");
    }
  }

  lemma RuleMirror(r: Rule, q: string)
    requires FrenchRule(r) && FrenchPath(q)
    ensures RuleMatches(r.(lang := "/en"), "/en" + q) == RuleMatches(r, q)
    ensures !RuleMatches(r, "/en" + q)
    ensures !RuleMatches(r.(lang := "/en"), q)
  {
    forall j | 0 <= j < |r.patterns|
      ensures PatternMatches("/en", r.patterns[j], "/en" + q) == PatternMatches("", r.patterns[j], q)
      ensures !PatternMatches("", r.patterns[j], "/en" + q)
      ensures !PatternMatches("/en", r.patterns[j], q)
    {
      PatternMirror(r.patterns[j], q);
    }
  }

  /** `Some(lang + t)` for `Some(t)`. */
  function Prefixed(lang: string, r: Option<string>): Option<string> {
    if r.Some? then Some(lang + r.value) else None
  }

  /** In a paired list the English path is caught by the twin of the guard
      that catches the French path. */
  lemma {:induction false} GuardMirror(rules: seq<Rule>, q: string)
    requires Paired(rules) && FrenchPath(q)
    ensures GuardTarget(rules, "/en" + q) == Prefixed("/en", GuardTarget(rules, q))
  {
    if rules != [] {
      var f, e := rules[0], "/en" + q;
      RuleMirror(f, q);
      assert rules[1..][0] == rules[1];
      assert "" + f.target == f.target;
      if !RuleMatches(f, q) {
        SkipPair(rules, q);
        SkipPair(rules, e);
        GuardMirror(rules[2..], q);
      }
    }
  }

  /** A French path is never caught by an English guard, so a failing French
      guard lets the search move on to the next pair. */
  lemma SkipFrenchPair(rules: seq<Rule>, q: string)
    requires Paired(rules) && rules != [] && FrenchPath(q) && !RuleMatches(rules[0], q)
    ensures GuardTarget(rules, q) == GuardTarget(rules[2..], q)
    ensures Paired(rules[2..])
  {
    RuleMirror(rules[0], q);
    SkipPair(rules, q);
  }
}
