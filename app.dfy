/** The application shell (`App`): the language-detection effect and the
    route table, French routes first, then their English twins under "/en",
    then the catch-all NotFound. Route matching follows the router's rules
    for these patterns: trailing slashes are ignored and `:slug` stands for
    one non-empty segment. */
module App {
  import opened Text
  import opened Header

  /** The page components the routes render. */
  datatype Page =
    | Home | Services | DevOps | PartTimeCTO | CloudStart | AWSArchitect
    | SoftwareArchitecture | AWSMigration | AWSTraining | Blog | BlogPost
    | About | CustomerReferences | Contact | BookAppointment | Legal | NotFound

  /** A route `<lang>/<segments>`, followed by `/:slug` when `slug` holds:
      "/services/devops" has the segments "services" and "devops", the home
      "/" (or "/en/") none. */
  datatype Route = Route(lang: string, segments: seq<string>, slug: bool, page: Page)

  /** The route's path as written in the table, without its `/:slug`. */
  function RoutePath(r: Route): string {
    r.lang + "/" + Join(r.segments, "/")
  }

  const FrenchRoutes: seq<Route> := [
    Route("", [], false, Home),
    Route("", ["services"], false, Services),
    Route("", ["services", "devops"], false, DevOps),
    Route("", ["services", "cto-a-temps-partage-a-poitiers-freelance"], false, PartTimeCTO),
    Route("", ["services", "demarrer-sur-le-cloud"], false, CloudStart),
    Route("", ["services", "architecte-solutions-aws"], false, AWSArchitect),
    Route("", ["services", "architecture-logicielle"], false, SoftwareArchitecture),
    Route("", ["services", "migration-vers-aws"], false, AWSMigration),
    Route("", ["services", "formation-aws"], false, AWSTraining),
    Route("", ["blog"], false, Blog),
    Route("", ["blog"], true, BlogPost),
    Route("", ["a-propos"], false, About),
    Route("", ["a-propos", "ils-nous-font-confiance"], false, CustomerReferences),
    Route("", ["nous-contacter"], false, Contact),
    Route("", ["prendre-rendez-vous"], false, BookAppointment),
    Route("", ["mentions-legales"], false, Legal)
  ]

  const EnglishRoutes: seq<Route> := [
    Route("/en", [], false, Home),
    Route("/en", ["services"], false, Services),
    Route("/en", ["services", "devops"], false, DevOps),
    Route("/en", ["services", "cto-a-temps-partage-a-poitiers-freelance"], false, PartTimeCTO),
    Route("/en", ["services", "demarrer-sur-le-cloud"], false, CloudStart),
    Route("/en", ["services", "architecte-solutions-aws"], false, AWSArchitect),
    Route("/en", ["services", "architecture-logicielle"], false, SoftwareArchitecture),
    Route("/en", ["services", "migration-vers-aws"], false, AWSMigration),
    Route("/en", ["services", "formation-aws"], false, AWSTraining),
    Route("/en", ["blog"], false, Blog),
    Route("/en", ["blog"], true, BlogPost),
    Route("/en", ["a-propos"], false, About),
    Route("/en", ["a-propos", "ils-nous-font-confiance"], false, CustomerReferences),
    Route("/en", ["nous-contacter"], false, Contact),
    Route("/en", ["prendre-rendez-vous"], false, BookAppointment),
    Route("/en", ["mentions-legales"], false, Legal)
  ]

  /** The path without its trailing slashes, as the router compares it. */
  function DropTrailingSlashes(s: string): (r: string)
    ensures StartsWith(s, r)
    ensures r == [] || r[|r| - 1] != '/'
    ensures forall i :: |r| <= i < |s| ==> s[i] == '/'
  {
    if |s| > 0 && s[|s| - 1] == '/' then DropTrailingSlashes(s[..|s| - 1]) else s
  }

  /** Whether `r` matches a path that is already lower-case. */
  predicate MatchesLowered(r: Route, lowered: string) {
    var d := DropTrailingSlashes(lowered);
    if r.slug then
      var pre := RoutePath(r) + "/";
      StartsWith(d, pre) && |d| > |pre| && '/' !in d[|pre|..]
    else d == DropTrailingSlashes(RoutePath(r))
  }

  /** No route of the table sets `caseSensitive`, so the router ignores
      case; the table's patterns are lower-case, so a route matches a path
      when it matches the lower-cased path. */
  predicate RouteMatches(r: Route, path: string) {
    MatchesLowered(r, ToLower(path))
  }

  /** The page of the first route in `routes` that matches, or NotFound
      (the catch-all `*`). */
  function RouteFor(routes: seq<Route>, path: string): Page {
    if routes == [] then NotFound
    else if RouteMatches(routes[0], path) then routes[0].page
    else RouteFor(routes[1..], path)
  }

  /** The page rendered at `path`. The table's routes are pairwise distinct
      patterns, so the router's ranking and the first match agree. */
  function Render(path: string): Page {
    RouteFor(FrenchRoutes + EnglishRoutes, path)
  }

  /** Every route renders a real page. */
  predicate RealPages(routes: seq<Route>) {
    forall i :: 0 <= i < |routes| ==> routes[i].page != NotFound
  }

  /** A matching route with a real page keeps the path from NotFound. */
  lemma {:induction false} MatchFound(routes: seq<Route>, path: string, i: nat)
    requires RealPages(routes) && i < |routes| && RouteMatches(routes[i], path)
    ensures RouteFor(routes, path) != NotFound
  {
    if !RouteMatches(routes[0], path) {
      assert routes[1..][i - 1] == routes[i];
      MatchFound(routes[1..], path, i - 1);
    }
  }

  /** The English table is the French table under "/en". */
  lemma RoutesMirrored()
    ensures |EnglishRoutes| == |FrenchRoutes|
    ensures forall i :: 0 <= i < |FrenchRoutes| ==> EnglishRoutes[i] == FrenchRoutes[i].(lang := "/en")
  {
  }

  /** A French route: no language part, a first segment that does not
      start with the 'e' of "/en", and a slug only after a segment. */
  predicate FrenchShaped(r: Route) {
    && r.lang == ""
    && (r.segments == [] ==> !r.slug)
    && (r.segments != [] ==> r.segments[0] != "" && r.segments[0][0] != 'e')
  }

  lemma FrenchRoutesShaped()
    ensures forall i :: 0 <= i < |FrenchRoutes| ==> FrenchShaped(FrenchRoutes[i])
  {
  }

  lemma RealTables()
    ensures RealPages(FrenchRoutes + EnglishRoutes)
  {
  }

  /** The first character of a join is that of its first part. */
  lemma JoinHead(parts: seq<string>, sep: string)
    requires parts != [] && parts[0] != ""
    ensures Join(parts, sep) != "" && Join(parts, sep)[0] == parts[0][0]
  {
    if |parts| > 1 {
      assert Join(parts, sep) == parts[0] + (sep + Join(parts[1..], sep));
    }
  }

  /** The second character of a French route's path is that of its first
      segment; the home's path is "/". */
  lemma FrenchRoutePath(r: Route)
    requires FrenchShaped(r)
    ensures var t := RoutePath(r);
      |t| >= 1 && t[0] == '/' && (r.segments == [] ==> t == "/")
      && (r.segments != [] ==> |t| >= 2 && t[1] == r.segments[0][0] && t[1] != 'e')
  {
    var t := RoutePath(r);
    assert t == "/" + Join(r.segments, "/");
    if r.segments != [] {
      JoinHead(r.segments, "/");
    }
  }

  /** Text ending in something other than '/' keeps its place in front of
      the trailing slashes. */
  lemma {:induction false} DropTrailingAfter(a: string, p: string)
    requires a != [] && a[|a| - 1] != '/'
    ensures DropTrailingSlashes(a + p) == a + DropTrailingSlashes(p)
  {
    if |p| > 0 && p[|p| - 1] == '/' {
      assert (a + p)[..|a + p| - 1] == a + p[..|p| - 1];
      DropTrailingAfter(a, p[..|p| - 1]);
    } else if p == [] {
      assert a + p == a;
    }
  }

  /** The English twin's path is the French path under "/en". */
  lemma TwinPath(r: Route)
    requires r.lang == ""
    ensures RoutePath(r.(lang := "/en")) == "/en" + RoutePath(r)
  {
  }

  /** "/en" lower-cases to itself. */
  lemma LowerEnglish(p: string)
    ensures ToLower("/en" + p) == "/en" + ToLower(p)
  {
    ToLowerAppend("/en", p);
    assert ToLower("/en") == "/en";
  }

  /** "/en" in front of a French path and of a French route cancel out. */
  lemma LoweredMirror(r: Route, p: string)
    requires FrenchShaped(r)
    ensures MatchesLowered(r.(lang := "/en"), "/en" + p) == MatchesLowered(r, p)
  {
    var d := DropTrailingSlashes(p);
    var t := RoutePath(r);
    TwinPath(r);
    DropTrailingAfter("/en", p);
    if r.slug {
      StartsWithBoth("/en", d, t + "/");
      assert "/en" + t + "/" == "/en" + (t + "/");
    } else {
      DropTrailingAfter("/en", t);
      var u := DropTrailingSlashes(t);
      assert ("/en" + d)[3..] == d && ("/en" + u)[3..] == u;
    }
  }

  /** A French route never matches an address under "/en", in any case
      ("/EN/services" included). */
  lemma FrenchMissEnglish(r: Route, q: string)
    requires FrenchShaped(r) && StartsWith(ToLower(q), "/en")
    ensures !RouteMatches(r, q)
  {
    var p := ToLower(q)[3..];
    assert ToLower(q) == "/en" + p;
    var d := DropTrailingSlashes("/en" + p);
    DropTrailingAfter("/en", p);
    assert |d| >= 3 && d[1] == 'e';
    var t := RoutePath(r);
    FrenchRoutePath(r);
    if r.slug {
      if |t + "/"| <= |d| {
        assert (t + "/")[1] == t[1];
        NotStartsWithAt(d, t + "/", 1);
      }
    } else {
      var u := DropTrailingSlashes(t);
      if |u| > 1 {
        assert u[1] == t[..|u|][1];
      }
    }
  }

  /** An English route never matches a path that does not start with "/en"
      in some case. */
  lemma EnglishMissFrench(r: Route, p: string)
    requires r.lang == "/en" && !StartsWith(ToLower(p), "/en")
    ensures !RouteMatches(r, p)
  {
    var d := DropTrailingSlashes(ToLower(p));
    var t := RoutePath(r);
    assert StartsWith(t, "/en") by { assert t[..3] == r.lang; }
    if StartsWith(d, "/en") {
      StartsWithTransitive(ToLower(p), d, "/en");
    }
    if r.slug {
      if StartsWith(d, t + "/") {
        StartsWithTransitive(t + "/", t, "/en");
        StartsWithTransitive(d, t + "/", "/en");
      }
    } else {
      assert t == "/en" + ("/" + Join(r.segments, "/"));
      DropTrailingAfter("/en", "/" + Join(r.segments, "/"));
      var u := DropTrailingSlashes(t);
      assert u[..3] == "/en";
    }
  }

  /** Twinned tables send twinned addresses to the same page. */
  lemma {:induction false} RouteForMirror(fr: seq<Route>, en: seq<Route>, p: string)
    requires |en| == |fr|
    requires forall i :: 0 <= i < |fr| ==> en[i] == fr[i].(lang := "/en") && FrenchShaped(fr[i])
    ensures RouteFor(en, "/en" + p) == RouteFor(fr, p)
  {
    if fr != [] {
      LowerEnglish(p);
      LoweredMirror(fr[0], ToLower(p));
      RouteForMirror(fr[1..], en[1..], p);
    }
  }

  /** Routes that all miss can be skipped. */
  lemma {:induction false} SkipMissing(a: seq<Route>, b: seq<Route>, path: string)
    requires forall i :: 0 <= i < |a| ==> !RouteMatches(a[i], path)
    ensures RouteFor(a + b, path) == RouteFor(b, path)
  {
    if a != [] {
      assert (a + b)[0] == a[0] && (a + b)[1..] == a[1..] + b;
      SkipMissing(a[1..], b, path);
    } else {
      assert a + b == b;
    }
  }

  /** Routes after the table that all miss change nothing. */
  lemma {:induction false} MissingAfter(a: seq<Route>, b: seq<Route>, path: string)
    requires forall i :: 0 <= i < |b| ==> !RouteMatches(b[i], path)
    ensures RouteFor(a + b, path) == RouteFor(a, path)
  {
    if a != [] {
      assert (a + b)[0] == a[0] && (a + b)[1..] == a[1..] + b;
      MissingAfter(a[1..], b, path);
    } else {
      assert a + b == b;
      NoneMatches(b, path);
    }
  }

  lemma {:induction false} NoneMatches(routes: seq<Route>, path: string)
    requires forall i :: 0 <= i < |routes| ==> !RouteMatches(routes[i], path)
    ensures RouteFor(routes, path) == NotFound
  {
    if routes != [] {
      NoneMatches(routes[1..], path);
    }
  }

  /** Every French address has an English twin under "/en" that renders the
      same page, the home "/" included ("/en/"), and so does every address
      that renders NotFound. */
  lemma EnglishPagesMirror(p: string)
    requires StartsWith(p, "/") && !StartsWith(ToLower(p), "/en")
    ensures Render("/en" + p) == Render(p)
  {
    RoutesMirrored();
    FrenchRoutesShaped();
    LowerEnglish(p);
    FrenchRoutesMissEnglish("/en" + p);
    SkipMissing(FrenchRoutes, EnglishRoutes, "/en" + p);
    forall i | 0 <= i < |EnglishRoutes| ensures !RouteMatches(EnglishRoutes[i], p) {
      EnglishMissFrench(EnglishRoutes[i], p);
    }
    MissingAfter(FrenchRoutes, EnglishRoutes, p);
    RouteForMirror(FrenchRoutes, EnglishRoutes, p);
  }

  /** A path renders NotFound exactly when no route of the table matches. */
  lemma NotFoundExactly(p: string)
    ensures Render(p) == NotFound <==>
      forall i :: 0 <= i < |FrenchRoutes + EnglishRoutes| ==> !RouteMatches((FrenchRoutes + EnglishRoutes)[i], p)
  {
    var routes := FrenchRoutes + EnglishRoutes;
    if exists i :: 0 <= i < |routes| && RouteMatches(routes[i], p) {
      var i :| 0 <= i < |routes| && RouteMatches(routes[i], p);
      RealTables();
      MatchFound(routes, p, i);
    } else {
      NoneMatches(routes, p);
    }
  }

  /** No French route matches an address under "/en", in any case. */
  lemma FrenchRoutesMissEnglish(q: string)
    requires StartsWith(ToLower(q), "/en")
    ensures forall i :: 0 <= i < |FrenchRoutes| ==> !RouteMatches(FrenchRoutes[i], q)
  {
    FrenchRoutesShaped();
    forall i | 0 <= i < |FrenchRoutes| ensures !RouteMatches(FrenchRoutes[i], q) {
      FrenchMissEnglish(FrenchRoutes[i], q);
    }
  }

  /** A route table sends a path and its lower-cased form to the same page. */
  lemma {:induction false} RouteForIgnoresCase(routes: seq<Route>, path: string)
    ensures RouteFor(routes, path) == RouteFor(routes, ToLower(path))
  {
    ToLowerIdempotent(path);
    if routes != [] {
      RouteForIgnoresCase(routes[1..], path);
    }
  }

  /** The router ignores case: "/Services" renders what "/services" does,
      and "/EN/services" what "/en/services" does. */
  lemma RenderIgnoresCase(path: string)
    ensures Render(path) == Render(ToLower(path))
  {
    RouteForIgnoresCase(FrenchRoutes + EnglishRoutes, path);
  }

  lemma FirstRouteWins(routes: seq<Route>, path: string)
    requires routes != [] && RouteMatches(routes[0], path)
    ensures RouteFor(routes, path) == routes[0].page
  {
  }

  /** The route "/en/" matches "/en" as well as "/en/". */
  lemma EnglishHomeMatches(e: string)
    requires e == "/en" || e == "/en/"
    ensures RouteMatches(EnglishRoutes[0], e)
  {
    var home := EnglishRoutes[0];
    assert home == Route("/en", [], false, Home);
    assert RoutePath(home) == "/en" + "/" + "";
    assert ToLower(e) == e;
    assert DropTrailingSlashes(e) == "/en";
    assert DropTrailingSlashes(RoutePath(home)) == "/en";
  }

  /** "/en" and "/en/" both render the English home, since the router
      ignores the trailing slash of the route "/en/". */
  lemma EnglishHomeRendered(e: string)
    requires e == "/en" || e == "/en/"
    ensures Render(e) == Home
  {
    assert ToLower(e) == e;
    FrenchRoutesMissEnglish(e);
    SkipMissing(FrenchRoutes, EnglishRoutes, e);
    EnglishHomeMatches(e);
    assert EnglishRoutes[0].page == Home;
    FirstRouteWins(EnglishRoutes, e);
  }

  /** `isEnglishPath`/`targetLang` as written: English exactly under "/en/". */
  function DetectedLanguage(pathname: string): (lang: string)
    ensures lang == "en" || lang == "fr"
    ensures lang == "en" <==> StartsWith(pathname, "/en/")
  {
    if StartsWith(pathname, "/en/") then "en" else "fr"
  }

  /** The detection the rest of the site assumes: the canonical path, the
      language menu and the redirect to "/en" all treat "/en" as English. */
  function IntendedLanguage(pathname: string): (lang: string)
    ensures lang == "en" || lang == "fr"
    ensures lang == "en" <==> StartsWith(pathname, "/en/") || pathname == "/en"
    ensures pathname != "/en" ==> lang == DetectedLanguage(pathname)
  {
    if StartsWith(pathname, "/en/") || pathname == "/en" then "en" else "fr"
  }

  /** The detection effect: `changeLanguage(target)` is called only when the
      current language differs from the target. */
  function LanguageEffect(current: string, target: string): (r: Option<string>)
    ensures r.Some? <==> current != target
    ensures r.Some? ==> r.value == target
  {
    if current != target then Some(target) else None
  }

  /** The language after the effect. */
  function LanguageAfter(current: string, target: string): string {
    match LanguageEffect(current, target)
    case None => current
    case Some(lang) => lang
  }

  /** The effect settles: run again on the same path it does nothing. */
  lemma LanguageEffectSettles(current: string, pathname: string)
    ensures var lang := LanguageAfter(current, DetectedLanguage(pathname));
      lang == DetectedLanguage(pathname) && LanguageEffect(lang, DetectedLanguage(pathname)) == None
  {
  }
}
