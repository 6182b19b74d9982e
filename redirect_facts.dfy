/** What the redirect resolver does with whole families of paths: the
    English site mirrors the French one, the table's keys fall into a few
    families, and every archive URL of the old blog is sent to a live page
    in both languages. */
module RedirectFacts {
  import opened Text
  import opened Redirects

  // ---------------------------------------------------------------------
  // Unfolding the resolver once

  /** A path without trailing slash is looked up in the table first ... */
  lemma ByTable(q: string)
    requires !HasTrailingSlash(q) && q in RedirectMap
    ensures ResolveTarget(q) == Some(RedirectMap[q])
  {
  }

  /** ... and otherwise handed to the guards. */
  lemma ByGuards(q: string)
    requires !HasTrailingSlash(q) && q !in RedirectMap
    ensures ResolveTarget(q) == GuardTarget(Rules, q)
  {
  }

  /** "/en" + q ends like q; for q other than "/" neither has a trailing
      slash once q has none ("/" itself becomes "/en/", which does). */
  lemma TwinNoTrailingSlash(q: string)
    requires FrenchPath(q) && |q| > 1 && !HasTrailingSlash(q)
    ensures !HasTrailingSlash("/en" + q)
  {
    var e := "/en" + q;
    assert e[|e| - 1..] == q[|q| - 1..];
  }

  /** The English path "/en" + q is redirected like the French path q, with
      "/en" in front of the target, whenever neither is a table key and q
      is neither "/" nor ends with a slash. */
  lemma EnglishMirror(q: string)
    requires FrenchPath(q) && |q| > 1 && !HasTrailingSlash(q)
    requires q !in RedirectMap && "/en" + q !in RedirectMap
    ensures ResolveTarget("/en" + q) == Prefixed("/en", ResolveTarget(q))
  {
    TwinNoTrailingSlash(q);
    ByGuards(q);
    ByGuards("/en" + q);
    RulesPaired();
    GuardMirror(Rules, q);
  }

  /** The English twin of a French path that no table entry claims is
      redirected to "/en" + t when the guards send the French path to t. */
  lemma EnglishByGuards(q: string, t: string)
    requires FrenchPath(q) && |q| > 1 && !HasTrailingSlash(q)
    requires GuardTarget(Rules, q) == Some(t)
    requires "/en" + q !in RedirectMap
    ensures ResolveTarget("/en" + q) == Some("/en" + t)
  {
    TwinNoTrailingSlash(q);
    ByGuards("/en" + q);
    RulesPaired();
    GuardMirror(Rules, q);
  }

  // ---------------------------------------------------------------------
  // Literal paths under "/en"

  /** `y` is `x` with "/en" in front (for two literals, which the verifier
      does not concatenate by itself). */
  lemma EnglishOf(x: string, y: string)
    requires |y| == |x| + 3 && y[..3] == "/en" && y[3..] == x
    ensures y == "/en" + x
  {
  }

  lemma EnglishBlogName()
    ensures "/en" + "/blog" == "/en/blog"
  {
    EnglishOf("/blog", "/en/blog");
  }

  lemma EnglishAboutName()
    ensures "/en" + "/a-propos" == "/en/a-propos"
  {
    EnglishOf("/a-propos", "/en/a-propos");
  }

  /** The French home "/" is the one French path whose English twin is
      caught by the trailing-slash rule instead. */
  lemma HomeTwin()
    ensures ResolveTarget("/en" + "/") == Some("/en")
  {
    EnglishOf("/", "/en/");
    assert "/en/"[..3] == "/en";
  }

  // ---------------------------------------------------------------------
  // What the table holds, by first letters

  /** Table keys under "/b..." all lead to "/blog". */
  lemma FrenchBlogKeys()
    ensures forall k | k in RedirectMap && k[1] == 'b' :: RedirectMap[k] == "/blog"
  {
  }

  /** Table keys under "/en/b..." all lead to "/en/blog". */
  lemma EnglishBlogKeys()
    ensures forall k | k in RedirectMap && k[1] == 'e' && k[4] == 'b' :: RedirectMap[k] == "/en/blog"
  {
  }

  /** No table key lies under "/p..." or "/a...". */
  lemma NoFrenchAuthorKeys()
    ensures forall k | k in RedirectMap :: |k| >= 5 && k[1] != 'p' && k[1] != 'a'
  {
  }

  /** No table key lies under "/en/p..." or "/en/a...". */
  lemma NoEnglishAuthorKeys()
    ensures forall k | k in RedirectMap && k[1] == 'e' :: k[4] != 'p' && k[4] != 'a'
  {
  }

  /** A table key under "/b..." is redirected to "/blog". */
  lemma BlogInTable(q: string)
    requires |q| > 1 && q[1] == 'b' && !HasTrailingSlash(q) && q in RedirectMap
    ensures ResolveTarget(q) == Some("/blog")
  {
    FrenchBlogKeys();
    ByTable(q);
  }

  /** A table key under "/en/b..." is redirected to "/en/blog". */
  lemma EnglishBlogInTable(q: string)
    requires FrenchPath(q) && |q| > 1 && q[1] == 'b' && !HasTrailingSlash(q)
    requires "/en" + q in RedirectMap
    ensures ResolveTarget("/en" + q) == Some("/en/blog")
  {
    var e := "/en" + q;
    assert e[1] == 'e' && e[4] == 'b';
    EnglishBlogKeys();
    TwinNoTrailingSlash(q);
    ByTable(e);
  }

  /** The table holds no path under "/p..." or "/a...", in either language. */
  lemma AuthorNotInTable(q: string)
    requires |q| > 1 && (q[1] == 'p' || q[1] == 'a')
    ensures q !in RedirectMap && "/en" + q !in RedirectMap
  {
    var e := "/en" + q;
    assert e[1] == 'e' && e[4] == q[1];
    NoFrenchAuthorKeys();
    NoEnglishAuthorKeys();
  }

  // ---------------------------------------------------------------------
  // On a French path only the French guards count

  /** Every other guard, starting with the first. */
  function Evens(rules: seq<Rule>): seq<Rule> {
    if |rules| < 2 then rules else [rules[0]] + Evens(rules[2..])
  }

  /** The French guards, in the order the effect tries them. */
  const FrenchRules: seq<Rule> := [
    Rule("", [Pattern("/blog/page/", Digits)], "/blog"),
    Rule("", [Pattern("/blog/category/", Segment)], "/blog"),
    Rule("", [Pattern("/blog/tag/", Segment)], "/blog"),
    Rule("", [Pattern("/blog/", Year)], "/blog"),
    Rule("", [Pattern("/blog/", YearMonth)], "/blog"),
    Rule("", [Pattern("/psantus", AnyRest), Pattern("/author/", Segment)], "/a-propos")
  ]

  lemma FrenchRulesAreEvens()
    ensures Evens(Rules) == FrenchRules
  {
  }

  /** In a paired list the English twins never hold for a French path, so
      the French guards alone decide. */
  lemma {:induction false} EvensDecide(rules: seq<Rule>, q: string)
    requires Paired(rules) && FrenchPath(q)
    ensures GuardTarget(rules, q) == GuardTarget(Evens(rules), q)
  {
    if rules != [] {
      assert Evens(rules) == [rules[0]] + Evens(rules[2..]);
      assert Evens(rules)[1..] == Evens(rules[2..]);
      if !RuleMatches(rules[0], q) {
        SkipFrenchPair(rules, q);
        EvensDecide(rules[2..], q);
      }
    }
  }

  lemma FrenchGuardsDecide(q: string)
    requires FrenchPath(q)
    ensures GuardTarget(Rules, q) == GuardTarget(FrenchRules, q)
  {
    RulesPaired();
    EvensDecide(Rules, q);
    FrenchRulesAreEvens();
  }

  /** Guard `k` decides when it holds and none before it does. */
  lemma {:induction false} NthWins(rules: seq<Rule>, q: string, k: nat)
    requires k < |rules| && RuleMatches(rules[k], q)
    requires forall i | 0 <= i < k :: !RuleMatches(rules[i], q)
    ensures GuardTarget(rules, q) == Some(rules[k].lang + rules[k].target)
  {
    if k > 0 {
      forall i | 0 <= i < k - 1 ensures !RuleMatches(rules[1..][i], q) {
        assert rules[1..][i] == rules[i + 1];
      }
      NthWins(rules[1..], q, k - 1);
    }
  }

  /** A blog guard decides, for "/blog", when it holds and none before it
      does. */
  lemma BlogGuardWins(q: string, k: nat)
    requires k < 5 && RuleMatches(FrenchRules[k], q)
    requires 0 < k ==> !RuleMatches(FrenchRules[0], q)
    requires 1 < k ==> !RuleMatches(FrenchRules[1], q)
    requires 2 < k ==> !RuleMatches(FrenchRules[2], q)
    requires 3 < k ==> !RuleMatches(FrenchRules[3], q)
    ensures GuardTarget(FrenchRules, q) == Some("/blog")
  {
    MissedBefore(FrenchRules, q, k);
    NthWins(FrenchRules, q, k);
    FrenchTargets();
  }

  /** Up to four guards, each known to miss, all miss. */
  lemma MissedBefore(rules: seq<Rule>, q: string, k: nat)
    requires k <= 4 && k <= |rules|
    requires 0 < k ==> !RuleMatches(rules[0], q)
    requires 1 < k ==> !RuleMatches(rules[1], q)
    requires 2 < k ==> !RuleMatches(rules[2], q)
    requires 3 < k ==> !RuleMatches(rules[3], q)
    ensures forall i | 0 <= i < k :: !RuleMatches(rules[i], q)
  {
    forall i | 0 <= i < k ensures !RuleMatches(rules[i], q) {
      // one case per earlier guard
      if i == 0 {
      } else if i == 1 {
      } else if i == 2 {
      } else {
      }
    }
  }

  /** The first five French guards lead to "/blog", the last to "/a-propos". */
  lemma FrenchTargets()
    ensures forall k | 0 <= k < 5 :: FrenchRules[k].lang + FrenchRules[k].target == "/blog"
    ensures FrenchRules[5].lang + FrenchRules[5].target == "/a-propos"
  {
  }

  /** A pattern holds for its own prefix followed by a tail it accepts. */
  lemma PatternOn(lang: string, p: Pattern, rest: string)
    requires TailMatches(p.tail, rest)
    ensures PatternMatches(lang, p, lang + p.prefix + rest)
  {
    var pre := lang + p.prefix;
    var path := pre + rest;
    assert path[..|pre|] == pre && path[|pre|..] == rest;
  }

  /** A French guard with one prefix fails on a path that differs from the
      prefix at index `i`. */
  lemma PrefixMisses(r: Rule, q: string, i: nat)
    requires r.lang == "" && |r.patterns| == 1
    requires i < |r.patterns[0].prefix| && i < |q| && q[i] != r.patterns[0].prefix[i]
    ensures !RuleMatches(r, q)
  {
    assert r.lang + r.patterns[0].prefix == r.patterns[0].prefix;
    if |r.patterns[0].prefix| <= |q| { NotStartsWithAt(q, r.patterns[0].prefix, i); }
  }

  /** A path under "/b...", "/p..." or "/a..." is a French path. */
  lemma FrenchLetter(q: string)
    requires |q| > 1 && q[0] == '/' && q[1] != 'e'
    ensures FrenchPath(q)
  {
    assert q[..1] == "/";
    if |q| >= 4 { NotStartsWithAt(q, "/en/", 1); }
  }

  // ---------------------------------------------------------------------
  // From the French guards to both languages

  /** A French path under "/b..." without trailing slash. */
  predicate BlogShaped(q: string) {
    |q| > 1 && q[1] == 'b' && FrenchPath(q) && !HasTrailingSlash(q)
  }

  /** A French path under "/p..." or "/a..." without trailing slash. */
  predicate AboutShaped(q: string) {
    |q| > 1 && (q[1] == 'p' || q[1] == 'a') && FrenchPath(q) && !HasTrailingSlash(q)
  }

  lemma FrenchBlog(q: string)
    requires BlogShaped(q) && GuardTarget(Rules, q) == Some("/blog")
    ensures ResolveTarget(q) == Some("/blog")
  {
    if q in RedirectMap { BlogInTable(q); } else { ByGuards(q); }
  }

  lemma ToEnglishBlog(e: string)
    requires ResolveTarget(e) == Some("/en" + "/blog")
    ensures ResolveTarget(e) == Some("/en/blog")
  {
    EnglishBlogName();
  }

  lemma EnglishBlogByGuards(q: string)
    requires BlogShaped(q) && GuardTarget(Rules, q) == Some("/blog")
    requires "/en" + q !in RedirectMap
    ensures ResolveTarget("/en" + q) == Some("/en/blog")
  {
    EnglishByGuards(q, "/blog");
    ToEnglishBlog("/en" + q);
  }

  lemma EnglishBlog(q: string)
    requires BlogShaped(q) && GuardTarget(Rules, q) == Some("/blog")
    ensures ResolveTarget("/en" + q) == Some("/en/blog")
  {
    if "/en" + q in RedirectMap { EnglishBlogInTable(q); } else { EnglishBlogByGuards(q); }
  }

  /** A French blog archive path that the French guards send to "/blog" is
      sent there, and its English twin to "/en/blog", whether or not the
      table also lists them. */
  lemma BlogArchive(q: string)
    requires BlogShaped(q) && GuardTarget(FrenchRules, q) == Some("/blog")
    ensures ResolveTarget(q) == Some("/blog")
    ensures ResolveTarget("/en" + q) == Some("/en/blog")
  {
    FrenchGuardsDecide(q);
    FrenchBlog(q);
    EnglishBlog(q);
  }

  lemma ToEnglishAbout(e: string)
    requires ResolveTarget(e) == Some("/en" + "/a-propos")
    ensures ResolveTarget(e) == Some("/en/a-propos")
  {
    EnglishAboutName();
  }

  /** A French path under "/p..." or "/a..." that the French guards send to
      "/a-propos" is sent there, and its English twin to "/en/a-propos". */
  lemma AboutArchive(q: string)
    requires AboutShaped(q) && GuardTarget(FrenchRules, q) == Some("/a-propos")
    ensures ResolveTarget(q) == Some("/a-propos")
    ensures ResolveTarget("/en" + q) == Some("/en/a-propos")
  {
    FrenchGuardsDecide(q);
    AuthorNotInTable(q);
    ByGuards(q);
    EnglishByGuards(q, "/a-propos");
    ToEnglishAbout("/en" + q);
  }

  // ---------------------------------------------------------------------
  // Pagination: `/blog/page/<digits>`

  lemma PaginationPath(d: string)
    requires |d| > 0 && AllDigits(d)
    ensures BlogShaped("/blog/page/" + d)
    ensures "/en" + ("/blog/page/" + d) == "/en/blog/page/" + d
  {
    var q := "/blog/page/" + d;
    FrenchLetter(q);
    assert q[|q| - 1..] == d[|d| - 1..] && IsDigit(d[|d| - 1]);
    EnglishOf("/blog/page/", "/en/blog/page/");
  }

  lemma PaginationMatches(d: string)
    requires |d| > 0 && AllDigits(d)
    ensures RuleMatches(FrenchRules[0], "/blog/page/" + d)
  {
    var p := FrenchRules[0].patterns[0];
    assert !EndsWith(d, "/") by { assert IsDigit(d[|d| - 1]); }
    PatternOn("", p, d);
    assert "" + p.prefix + d == "/blog/page/" + d;
  }

  lemma PaginationGuard(d: string)
    requires |d| > 0 && AllDigits(d)
    ensures GuardTarget(FrenchRules, "/blog/page/" + d) == Some("/blog")
  {
    PaginationMatches(d);
    BlogGuardWins("/blog/page/" + d, 0);
  }

  /** `/blog/page/<digits>` leads to "/blog" and `/en/blog/page/<digits>` to
      "/en/blog", for every non-empty digit string (the table's own entry
      for page 1 agrees). */
  lemma PaginationRedirects(d: string)
    requires |d| > 0 && AllDigits(d)
    ensures ResolveTarget("/blog/page/" + d) == Some("/blog")
    ensures ResolveTarget("/en/blog/page/" + d) == Some("/en/blog")
  {
    PaginationPath(d);
    PaginationGuard(d);
    BlogArchive("/blog/page/" + d);
  }

  // ---------------------------------------------------------------------
  // Categories and tags: `/blog/category/<segment>`, `/blog/tag/<segment>`

  /** A non-empty path segment: `[^/]+`. */
  predicate IsSegment(s: string) {
    |s| > 0 && '/' !in s
  }

  lemma SegmentAccepted(s: string)
    requires IsSegment(s)
    ensures SegmentTail(s) && !EndsWith(s, "/")
  {
    assert s[|s| - 1] in s;
    assert s[|s| - 1..] == [s[|s| - 1]];
  }

  lemma CategoryPath(s: string)
    requires IsSegment(s)
    ensures BlogShaped("/blog/category/" + s)
    ensures "/en" + ("/blog/category/" + s) == "/en/blog/category/" + s
  {
    var q := "/blog/category/" + s;
    FrenchLetter(q);
    SegmentAccepted(s);
    assert q[|q| - 1..] == s[|s| - 1..];
    EnglishOf("/blog/category/", "/en/blog/category/");
  }

  lemma CategoryMatches(s: string)
    requires IsSegment(s)
    ensures !RuleMatches(FrenchRules[0], "/blog/category/" + s)
    ensures RuleMatches(FrenchRules[1], "/blog/category/" + s)
  {
    var q := "/blog/category/" + s;
    PrefixMisses(FrenchRules[0], q, 6);
    var p := FrenchRules[1].patterns[0];
    SegmentAccepted(s);
    PatternOn("", p, s);
    assert "" + p.prefix + s == q;
  }

  lemma CategoryGuard(s: string)
    requires IsSegment(s)
    ensures GuardTarget(FrenchRules, "/blog/category/" + s) == Some("/blog")
  {
    CategoryMatches(s);
    BlogGuardWins("/blog/category/" + s, 1);
  }

  /** `/blog/category/<segment>` leads to "/blog", and its English twin to
      "/en/blog". */
  lemma CategoryRedirects(s: string)
    requires IsSegment(s)
    ensures ResolveTarget("/blog/category/" + s) == Some("/blog")
    ensures ResolveTarget("/en/blog/category/" + s) == Some("/en/blog")
  {
    CategoryPath(s);
    CategoryGuard(s);
    BlogArchive("/blog/category/" + s);
  }

  lemma TagPath(s: string)
    requires IsSegment(s)
    ensures BlogShaped("/blog/tag/" + s)
    ensures "/en" + ("/blog/tag/" + s) == "/en/blog/tag/" + s
  {
    var q := "/blog/tag/" + s;
    FrenchLetter(q);
    SegmentAccepted(s);
    assert q[|q| - 1..] == s[|s| - 1..];
    EnglishOf("/blog/tag/", "/en/blog/tag/");
  }

  lemma TagMatches(s: string)
    requires IsSegment(s)
    ensures !RuleMatches(FrenchRules[0], "/blog/tag/" + s)
    ensures !RuleMatches(FrenchRules[1], "/blog/tag/" + s)
    ensures RuleMatches(FrenchRules[2], "/blog/tag/" + s)
  {
    var q := "/blog/tag/" + s;
    PrefixMisses(FrenchRules[0], q, 6);
    PrefixMisses(FrenchRules[1], q, 6);
    var p := FrenchRules[2].patterns[0];
    SegmentAccepted(s);
    PatternOn("", p, s);
    assert "" + p.prefix + s == q;
  }

  lemma TagGuard(s: string)
    requires IsSegment(s)
    ensures GuardTarget(FrenchRules, "/blog/tag/" + s) == Some("/blog")
  {
    var q := "/blog/tag/" + s;
    TagMatches(s);
    BlogGuardWins(q, 2);
  }

  /** `/blog/tag/<segment>` leads to "/blog", and its English twin to
      "/en/blog". */
  lemma TagRedirects(s: string)
    requires IsSegment(s)
    ensures ResolveTarget("/blog/tag/" + s) == Some("/blog")
    ensures ResolveTarget("/en/blog/tag/" + s) == Some("/en/blog")
  {
    TagPath(s);
    TagGuard(s);
    BlogArchive("/blog/tag/" + s);
  }

  // ---------------------------------------------------------------------
  // Date archives: `/blog/<yyyy>` and `/blog/<yyyy>/<mm>`

  lemma YearPath(y: string)
    requires |y| == 4 && AllDigits(y)
    ensures BlogShaped("/blog/" + y)
    ensures "/en" + ("/blog/" + y) == "/en/blog/" + y
  {
    var q := "/blog/" + y;
    FrenchLetter(q);
    assert q[|q| - 1..] == y[3..] && IsDigit(y[3]);
    EnglishOf("/blog/", "/en/blog/");
  }

  lemma YearMatches(y: string)
    requires |y| == 4 && AllDigits(y)
    ensures !RuleMatches(FrenchRules[0], "/blog/" + y)
    ensures !RuleMatches(FrenchRules[1], "/blog/" + y)
    ensures !RuleMatches(FrenchRules[2], "/blog/" + y)
    ensures RuleMatches(FrenchRules[3], "/blog/" + y)
  {
    var q := "/blog/" + y;
    assert q[6] == y[0] && IsDigit(y[0]);
    PrefixMisses(FrenchRules[0], q, 6);
    PrefixMisses(FrenchRules[1], q, 6);
    PrefixMisses(FrenchRules[2], q, 6);
    var p := FrenchRules[3].patterns[0];
    assert !EndsWith(y, "/") by { assert y[3..] == [y[3]] && IsDigit(y[3]); }
    PatternOn("", p, y);
    assert "" + p.prefix + y == q;
  }

  lemma YearGuard(y: string)
    requires |y| == 4 && AllDigits(y)
    ensures GuardTarget(FrenchRules, "/blog/" + y) == Some("/blog")
  {
    var q := "/blog/" + y;
    YearMatches(y);
    BlogGuardWins(q, 3);
  }

  /** `/blog/<yyyy>` leads to "/blog", and its English twin to "/en/blog". */
  lemma YearRedirects(y: string)
    requires |y| == 4 && AllDigits(y)
    ensures ResolveTarget("/blog/" + y) == Some("/blog")
    ensures ResolveTarget("/en/blog/" + y) == Some("/en/blog")
  {
    YearPath(y);
    YearGuard(y);
    BlogArchive("/blog/" + y);
  }

  lemma MonthPath(y: string, m: string)
    requires |y| == 4 && AllDigits(y) && |m| == 2 && AllDigits(m)
    ensures BlogShaped("/blog/" + y + "/" + m)
    ensures "/en" + ("/blog/" + y + "/" + m) == "/en/blog/" + y + "/" + m
  {
    var q := "/blog/" + y + "/" + m;
    FrenchLetter(q);
    assert q[|q| - 1..] == m[1..] && IsDigit(m[1]);
    EnglishOf("/blog/", "/en/blog/");
  }

  /** The text after "/blog/" in a month archive: four digits, a slash, two
      digits. */
  lemma MonthTail(y: string, m: string)
    requires |y| == 4 && AllDigits(y) && |m| == 2 && AllDigits(m)
    ensures !YearTail(y + "/" + m) && YearMonthTail(y + "/" + m)
  {
    var u := y + "/" + m;
    assert !EndsWith(u, "/") by { assert u[|u| - 1..] == [m[1]] && IsDigit(m[1]); }
    assert u[..4] == y && u[4] == '/' && u[5..] == m;
  }

  lemma MonthMatches(y: string, m: string)
    requires |y| == 4 && AllDigits(y) && |m| == 2 && AllDigits(m)
    ensures !RuleMatches(FrenchRules[0], "/blog/" + y + "/" + m)
    ensures !RuleMatches(FrenchRules[1], "/blog/" + y + "/" + m)
    ensures !RuleMatches(FrenchRules[2], "/blog/" + y + "/" + m)
    ensures !RuleMatches(FrenchRules[3], "/blog/" + y + "/" + m)
    ensures RuleMatches(FrenchRules[4], "/blog/" + y + "/" + m)
  {
    var q := "/blog/" + y + "/" + m;
    assert q[6] == y[0] && IsDigit(y[0]);
    PrefixMisses(FrenchRules[0], q, 6);
    PrefixMisses(FrenchRules[1], q, 6);
    PrefixMisses(FrenchRules[2], q, 6);
    MonthTail(y, m);
    var u := y + "/" + m;
    assert q == "/blog/" + u && q[6..] == u;
    var p := FrenchRules[4].patterns[0];
    PatternOn("", p, u);
    assert "" + p.prefix + u == q;
    assert !PatternMatches("", FrenchRules[3].patterns[0], q);
  }

  lemma MonthGuard(y: string, m: string)
    requires |y| == 4 && AllDigits(y) && |m| == 2 && AllDigits(m)
    ensures GuardTarget(FrenchRules, "/blog/" + y + "/" + m) == Some("/blog")
  {
    var q := "/blog/" + y + "/" + m;
    MonthMatches(y, m);
    BlogGuardWins(q, 4);
  }

  /** `/blog/<yyyy>/<mm>` leads to "/blog", and its English twin to
      "/en/blog". */
  lemma MonthRedirects(y: string, m: string)
    requires |y| == 4 && AllDigits(y) && |m| == 2 && AllDigits(m)
    ensures ResolveTarget("/blog/" + y + "/" + m) == Some("/blog")
    ensures ResolveTarget("/en/blog/" + y + "/" + m) == Some("/en/blog")
  {
    MonthPath(y, m);
    MonthGuard(y, m);
    BlogArchive("/blog/" + y + "/" + m);
  }

  // ---------------------------------------------------------------------
  // The author's old pages: `/psantus...` and `/author/<segment>`

  /** The five blog guards all fail on a path under "/p..." or "/a...". */
  lemma BlogGuardsMiss(q: string)
    requires |q| > 1 && (q[1] == 'p' || q[1] == 'a')
    ensures forall i | 0 <= i < 5 :: !RuleMatches(FrenchRules[i], q)
  {
    PrefixMisses(FrenchRules[0], q, 1);
    PrefixMisses(FrenchRules[1], q, 1);
    PrefixMisses(FrenchRules[2], q, 1);
    PrefixMisses(FrenchRules[3], q, 1);
    PrefixMisses(FrenchRules[4], q, 1);
  }

  lemma AuthorPagePath(rest: string)
    requires rest == [] || rest[|rest| - 1] != '/'
    ensures AboutShaped("/psantus" + rest)
    ensures "/en" + ("/psantus" + rest) == "/en/psantus" + rest
  {
    var q := "/psantus" + rest;
    FrenchLetter(q);
    assert q[|q| - 1..] == if rest == [] then "s" else rest[|rest| - 1..];
    EnglishOf("/psantus", "/en/psantus");
  }

  lemma AuthorPageGuard(rest: string)
    ensures GuardTarget(FrenchRules, "/psantus" + rest) == Some("/a-propos")
  {
    var q := "/psantus" + rest;
    BlogGuardsMiss(q);
    var p := FrenchRules[5].patterns[0];
    PatternOn("", p, rest);
    assert "" + p.prefix + rest == q;
    assert RuleMatches(FrenchRules[5], q);
    NthWins(FrenchRules, q, 5);
    FrenchTargets();
  }

  /** `/psantus` followed by anything (the pattern has no end anchor) leads
      to "/a-propos", and its English twin to "/en/a-propos". */
  lemma AuthorPageRedirects(rest: string)
    requires rest == [] || rest[|rest| - 1] != '/'
    ensures ResolveTarget("/psantus" + rest) == Some("/a-propos")
    ensures ResolveTarget("/en/psantus" + rest) == Some("/en/a-propos")
  {
    AuthorPagePath(rest);
    AuthorPageGuard(rest);
    AboutArchive("/psantus" + rest);
  }

  lemma AuthorPath(s: string)
    requires IsSegment(s)
    ensures AboutShaped("/author/" + s)
    ensures "/en" + ("/author/" + s) == "/en/author/" + s
  {
    var q := "/author/" + s;
    FrenchLetter(q);
    SegmentAccepted(s);
    assert q[|q| - 1..] == s[|s| - 1..];
    EnglishOf("/author/", "/en/author/");
  }

  lemma AuthorGuard(s: string)
    requires IsSegment(s)
    ensures GuardTarget(FrenchRules, "/author/" + s) == Some("/a-propos")
  {
    var q := "/author/" + s;
    BlogGuardsMiss(q);
    var p := FrenchRules[5].patterns[1];
    SegmentAccepted(s);
    PatternOn("", p, s);
    assert "" + p.prefix + s == q;
    assert RuleMatches(FrenchRules[5], q);
    NthWins(FrenchRules, q, 5);
    FrenchTargets();
  }

  /** `/author/<segment>` leads to "/a-propos", and its English twin to
      "/en/a-propos". */
  lemma AuthorRedirects(s: string)
    requires IsSegment(s)
    ensures ResolveTarget("/author/" + s) == Some("/a-propos")
    ensures ResolveTarget("/en/author/" + s) == Some("/en/a-propos")
  {
    AuthorPath(s);
    AuthorGuard(s);
    AboutArchive("/author/" + s);
  }

  // ---------------------------------------------------------------------
  // The table, entry by entry

  /** The table's trailing-slash keys are never consulted: the slash is cut
      first. */
  lemma SlashKeysShadowed(k: string)
    requires k in RedirectMap && HasTrailingSlash(k)
    ensures ResolveTarget(k) == Some(k[..|k| - 1])
  {
  }

  lemma FeedInTable(f: string)
    requires f == "/feed"
    ensures ResolveTarget(f) == Some("/blog")
  {
    ByTable(f);
  }

  /** For example "/feed/" is first cut to "/feed", which the table sends
      to "/blog": its own entry plays no part. */
  lemma FeedSlash(f: string)
    requires f == "/feed/"
    ensures ResolveTarget(f) == Some("/feed")
    ensures ResolveTarget(ResolveTarget(f).value) == Some("/blog")
  {
    var u := f[..|f| - 1];
    assert u == "/feed";
    FeedInTable(u);
  }

  lemma WpAdminInTable(f: string)
    requires f == "/wp-admin"
    ensures ResolveTarget(f) == Some("/")
  {
    ByTable(f);
  }

  /** The WordPress back-office paths are redirected on the French site
      only: the table has no "/en/wp-admin", and no guard catches it. */
  lemma WpAdminFrenchOnly()
    ensures ResolveTarget("/wp-admin") == Some("/")
    ensures ResolveTarget("/en/wp-admin") == None
  {
    WpAdminInTable("/wp-admin");
    EnglishPagesStay("/en/wp-admin");
  }

  lemma CommentsInTable(f: string, e: string)
    requires f == "/comments" && e == "/en/comments"
    ensures ResolveTarget(f) == Some("/nous-contacter")
    ensures ResolveTarget(e) == Some("/en/nous-contacter")
  {
    ByTable(f);
    ByTable(e);
  }

  // ---------------------------------------------------------------------
  // Following the redirects

  /** Where a chain of redirects is one step from its end: a target, or the
      English home without its slash. */
  predicate Landing(p: string) {
    p in Targets || p == "/en"
  }

  lemma LandingStays(p: string)
    requires Landing(p) && !HasTrailingSlash(p)
    ensures ResolveTarget(p) == None
  {
    if p == "/en" { EnglishIndexesStay(p); } else { TargetsAreFinal(p); }
  }

  lemma LandingSlash(p: string)
    requires Landing(p) && HasTrailingSlash(p)
    ensures p == "/en/" && Landing(p[..|p| - 1])
  {
    assert p[|p| - 1] == '/' by { assert p[|p| - 1..] == "/"; }
    var u := p[..|p| - 1];
    assert u == "/en";
  }

  /** Each navigation of the effect brings the path closer to its end:
      either to a landing path, or to a shorter one. */
  lemma SettleStep(p: string)
    requires ResolveTarget(p).Some?
    ensures var next := ResolveTarget(p).value;
      (Landing(next) && !Landing(p)) || (|next| < |p| && (Landing(p) ==> Landing(next)))
  {
    if HasTrailingSlash(p) {
      if Landing(p) { LandingSlash(p); }
    } else {
      if Landing(p) { LandingStays(p); }
      TargetKnown(p);
    }
  }

  /** The path the site comes to rest at: the effect runs again after every
      navigation it makes, until no rule applies. */
  function Settle(p: string): (r: string)
    decreases if Landing(p) then 0 else 1, |p|
    ensures ResolveTarget(r) == None
    ensures ResolveTarget(p) == None ==> r == p
    ensures Landing(p) ==> Landing(r)
  {
    match ResolveTarget(p)
    case None => p
    case Some(next) =>
      SettleStep(p);
      Settle(next)
  }

  /** From a target the site comes to rest at the target itself, or at
      "/en" for the English home "/en/". */
  lemma LandsFrom(t: string)
    requires t in Targets
    ensures Landing(Settle(t)) && (Settle(t) == t || Settle(t) == "/en")
  {
    if HasTrailingSlash(t) {
      LandingSlash(t);
      EnglishIndexesStay(t[..|t| - 1]);
    } else {
      LandingStays(t);
    }
  }

  /** A path that the table or a guard redirects comes to rest at one of the
      site's pages, at most one navigation later. */
  lemma RedirectLands(p: string)
    requires !HasTrailingSlash(p) && ResolveTarget(p).Some?
    ensures Landing(Settle(p))
    ensures Settle(p) == ResolveTarget(p).value || Settle(p) == "/en"
  {
    TargetKnown(p);
    LandsFrom(ResolveTarget(p).value);
  }
}
