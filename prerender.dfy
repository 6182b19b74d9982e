/** The build step that pre-renders the site (`scripts/prerender.js`):
    every route gets an `index.html` made from the built template, with a
    section name put in front of the page title. The output directory is a
    map from file paths to their contents. */
module Prerender {
  import opened Text
  import opened Lists

  /** A route written as its path segments: a slash, then the segments
      joined by slashes. */
  function RoutePath(segments: seq<string>): (p: string)
    ensures |p| >= 1 && p[0] == '/'
  {
    "/" + Join(segments, "/")
  }

  /** The French routes, in the order they are rendered. */
  const FrenchRoutes: seq<seq<string>> := [
    [],
    ["services"],
    ["services", "devops"],
    ["services", "cto-a-temps-partage-a-poitiers-freelance"],
    ["services", "demarrer-sur-le-cloud"],
    ["services", "architecte-solutions-aws"],
    ["services", "architecture-logicielle"],
    ["services", "migration-vers-aws"],
    ["services", "formation-aws"],
    ["blog"],
    ["a-propos"],
    ["a-propos", "ils-nous-font-confiance"],
    ["nous-contacter"],
    ["prendre-rendez-vous"],
    ["mentions-legales"]
  ]

  /** The English routes, as listed after the French ones; the English
      home is `/en/`, with its trailing slash. */
  const EnglishRoutes: seq<seq<string>> := [
    ["en", ""],
    ["en", "services"],
    ["en", "services", "devops"],
    ["en", "services", "cto-a-temps-partage-a-poitiers-freelance"],
    ["en", "services", "demarrer-sur-le-cloud"],
    ["en", "services", "architecte-solutions-aws"],
    ["en", "services", "architecture-logicielle"],
    ["en", "services", "migration-vers-aws"],
    ["en", "services", "formation-aws"],
    ["en", "blog"],
    ["en", "a-propos"],
    ["en", "a-propos", "ils-nous-font-confiance"],
    ["en", "nous-contacter"],
    ["en", "prendre-rendez-vous"],
    ["en", "mentions-legales"]
  ]

  /** The `routes` list. */
  const Routes: seq<string> := Map(FrenchRoutes + EnglishRoutes, RoutePath)

  /** The English counterpart of a path: `/en/` for the home, the path
      under `/en` otherwise. */
  function EnglishPath(path: string): (r: string)
    ensures StartsWith(r, "/en")
    ensures path != "/" ==> r[3..] == path
  {
    if path == "/" then "/en/" else "/en" + path
  }

  /** Distinct paths have distinct English counterparts. */
  lemma EnglishPathInjective(a: string, b: string)
    requires EnglishPath(a) == EnglishPath(b)
    ensures a == b
  {
  }

  /** The English counterpart of a route, on segments. */
  function EnglishSegments(segments: seq<string>): seq<string> {
    if segments == [] then ["en", ""] else ["en"] + segments
  }

  /** On segments and on text the English counterpart is the same. */
  lemma EnglishSegmentsPath(segments: seq<string>)
    ensures RoutePath(EnglishSegments(segments)) == EnglishPath(RoutePath(segments))
  {
    var j := Join(segments, "/");
    if segments == [] {
      assert Join([""], "/") == "";
      assert RoutePath(["en", ""]) == "/" + ("en" + "/" + "") == "/en/" + j;
    } else {
      var e := ["en"] + segments;
      assert e[1..] == segments;
      assert Join(e, "/") == "en" + "/" + j;
      assert RoutePath(e) == "/en/" + j;
    }
    if j == "" {
      assert RoutePath(segments) == "/";
    } else {
      assert RoutePath(segments) != "/";
      assert "/en" + ("/" + j) == "/en/" + j;
    }
  }

  /** The English list is the French list taken under `/en`, entry by entry. */
  lemma EnglishRoutesListed(i: nat)
    requires i < 15
    ensures |FrenchRoutes| == |EnglishRoutes| == 15
    ensures EnglishRoutes[i] == EnglishSegments(FrenchRoutes[i])
  {
    if i == 0 {
    } else if i < 8 {
    } else {
    }
  }

  /** The route list pairs each French route with its English counterpart:
      the second half is the first half taken under `/en`, in the same
      order. */
  lemma RoutesPaired()
    ensures |Routes| == 30
    ensures forall i :: 0 <= i < 15 ==> Routes[15 + i] == EnglishPath(Routes[i])
  {
    EnglishRoutesListed(0);
    var all := FrenchRoutes + EnglishRoutes;
    forall i | 0 <= i < 15
      ensures Routes[15 + i] == EnglishPath(Routes[i])
    {
      EnglishRoutesListed(i);
      assert all[15 + i] == EnglishSegments(all[i]);
      EnglishSegmentsPath(all[i]);
    }
  }

  /** The file a route is written to. */
  function FilePath(route: string): (p: string)
    ensures EndsWith(p, "/index.html")
    ensures route != "/" ==> |p| == |route| + 11 && p[..|route|] == route
  {
    if route == "/" then "/index.html" else route + "/index.html"
  }

  /** Distinct routes are written to distinct files, the empty route
      aside. */
  lemma FilePathInjective(a: string, b: string)
    requires a != "" && b != ""
    requires FilePath(a) == FilePath(b)
    ensures a == b
  {
    if a != "/" && b != "/" {
      assert |a| == |b|;
      assert a == FilePath(a)[..|a|];
    }
  }

  /** The empty route and the home share a file. */
  lemma EmptyRouteIsHome()
    ensures FilePath("") == FilePath("/")
  {
  }

  /** An English page never lands on a route outside `/en`. */
  lemma EnglishFileApart(path: string, other: string)
    requires other != "" && !StartsWith(other, "/en")
    ensures FilePath(EnglishPath(path)) != FilePath(other)
  {
    if FilePath(EnglishPath(path)) == FilePath(other) {
      FilePathInjective(EnglishPath(path), other);
    }
  }

  /** The sections whose pages get a title prefix. */
  datatype Section = Blog | Services | About

  /** The section of a route: the first of `/blog`, `/services` and
      `/a-propos` it contains, in that order. */
  function TitleSection(route: string): (r: Option<Section>)
    ensures r == Some(Blog) <==> Contains(route, "/blog")
    ensures r == Some(Services) <==> !Contains(route, "/blog") && Contains(route, "/services")
    ensures r == Some(About) <==> !Contains(route, "/blog") && !Contains(route, "/services")
                                   && Contains(route, "/a-propos")
    ensures r == None <==> !Contains(route, "/blog") && !Contains(route, "/services")
                           && !Contains(route, "/a-propos")
  {
    if Contains(route, "/blog") then Some(Blog)
    else if Contains(route, "/services") then Some(Services)
    else if Contains(route, "/a-propos") then Some(About)
    else None
  }

  function SectionPrefix(s: Section): string {
    match s
    case Blog => "Blog - "
    case Services => "Services - "
    case About => "À propos - "
  }

  /** The page written for a route: the template, with the section put in
      front of the title's text at the first `<title>`. */
  function Page(template: string, route: string): (html: string)
    ensures TitleSection(route).None? ==> html == template
    ensures !Contains(template, "<title>") ==> html == template
  {
    match TitleSection(route)
    case None => template
    case Some(s) => ReplaceFirst(template, "<title>", "<title>" + SectionPrefix(s))
  }

  /** Only the first `<title>` gets the prefix: everything before and after
      it is kept. */
  lemma PrefixInserted(template: string, route: string, i: nat)
    requires IndexOf(template, "<title>") == Some(i)
    requires TitleSection(route).Some?
    ensures Page(template, route) == template[..i + 7] + SectionPrefix(TitleSection(route).value) + template[i + 7..]
  {
    ReplaceExtends(template, "<title>", SectionPrefix(TitleSection(route).value), i);
  }

  /** Putting `/en` in front of a path neither adds nor removes an
      occurrence of a text that starts with a slash not followed by `e`. */
  lemma ContainsUnderEn(s: string, q: string)
    requires |q| >= 2 && q[0] == '/' && q[1] != 'e'
    ensures Contains("/en" + s, q) <==> Contains(s, q)
  {
    var t := "/en" + s;
    if Contains(t, q) {
      var i: nat :| i <= |t| && OccursAt(t, q, i);
      assert t[i..i + |q|][0] == t[i] && t[i..i + |q|][1] == t[i + 1];
      assert i >= 3;
      assert t[i..i + |q|] == s[i - 3..i - 3 + |q|];
      assert OccursAt(s, q, i - 3);
    }
    if Contains(s, q) {
      var i: nat :| i <= |s| && OccursAt(s, q, i);
      assert t[i + 3..i + 3 + |q|] == s[i..i + |q|];
      assert OccursAt(t, q, i + 3);
    }
  }

  /** An English page gets the same title prefix as its French page. */
  lemma EnglishKeepsSection(path: string)
    ensures TitleSection(EnglishPath(path)) == TitleSection(path)
  {
    if path == "/" {
      assert !Contains("/", "/blog") && !Contains("/", "/services") && !Contains("/", "/a-propos");
      assert !Contains("/en/", "/blog") && !Contains("/en/", "/services") && !Contains("/en/", "/a-propos");
    } else {
      ContainsUnderEn(path, "/blog");
      ContainsUnderEn(path, "/services");
      ContainsUnderEn(path, "/a-propos");
    }
  }

  /** The output directory. */
  class Dist {
    var files: map<string, string>

    constructor (files: map<string, string>)
      ensures this.files == files
    {
      this.files := files;
    }

    /** `fs.writeFileSync(path, content)` */
    method Write(path: string, content: string)
      modifies this
      ensures files == old(files)[path := content]
    {
      files := files[path := content];
    }
  }

  /** The output after writing, for each item in turn, its page to its
      file. */
  function Written<T>(files: map<string, string>, items: seq<T>, file: T -> string, page: T -> string): (m: map<string, string>)
    ensures forall k :: k in files ==> k in m
    ensures forall i :: 0 <= i < |items| ==> file(items[i]) in m
    ensures forall k :: k in m && k !in files ==> exists i :: 0 <= i < |items| && k == file(items[i])
    decreases |items|
  {
    if items == [] then files
    else
      var front := items[..|items| - 1];
      var last := items[|items| - 1];
      assert forall i :: 0 <= i < |front| ==> front[i] == items[i];
      var before := Written(files, front, file, page);
      forall k | k in before && k !in files
        ensures exists i :: 0 <= i < |items| && k == file(items[i])
      {
        var i :| 0 <= i < |front| && k == file(front[i]);
        assert k == file(items[i]);
      }
      before[file(last) := page(last)]
  }

  /** Writing one more item writes its page over what the items before it
      left. */
  lemma WrittenSnoc<T>(files: map<string, string>, items: seq<T>, file: T -> string, page: T -> string, i: nat)
    requires i < |items|
    ensures Written(files, items[..i + 1], file, page)
            == Written(files, items[..i], file, page)[file(items[i]) := page(items[i])]
  {
    assert items[..i + 1][..i] == items[..i];
  }

  /** An item's file holds its page unless a later item writes the same
      file. */
  lemma {:induction false} LastWriteWins<T>(files: map<string, string>, items: seq<T>, file: T -> string,
                                            page: T -> string, i: nat)
    requires i < |items|
    requires forall j :: i < j < |items| ==> file(items[j]) != file(items[i])
    ensures Written(files, items, file, page)[file(items[i])] == page(items[i])
    decreases |items|
  {
    if i < |items| - 1 {
      var front := items[..|items| - 1];
      assert front[i] == items[i];
      forall j | i < j < |front| ensures file(front[j]) != file(front[i]) {
        assert front[j] == items[j];
      }
      LastWriteWins(files, front, file, page, i);
    }
  }

  /** A file no item writes keeps its contents. */
  lemma {:induction false} WrittenKeepsOthers<T>(files: map<string, string>, items: seq<T>, file: T -> string,
                                                 page: T -> string, k: string)
    requires k in files
    requires forall i :: 0 <= i < |items| ==> file(items[i]) != k
    ensures Written(files, items, file, page)[k] == files[k]
    decreases |items|
  {
    if items != [] {
      var front := items[..|items| - 1];
      forall i | 0 <= i < |front| ensures file(front[i]) != k {
        assert front[i] == items[i];
      }
      WrittenKeepsOthers(files, front, file, page, k);
    }
  }

  /** The page of each route, for a given template. */
  function PageOf(template: string): string -> string {
    (route: string) => Page(template, route)
  }

  /** With distinct, non-empty routes every route's file holds its own
      page. */
  lemma EveryPageWritten(files: map<string, string>, template: string, routes: seq<string>)
    requires NoDuplicates(routes)
    requires forall i :: 0 <= i < |routes| ==> routes[i] != ""
    ensures forall i :: 0 <= i < |routes| ==>
              Written(files, routes, FilePath, PageOf(template))[FilePath(routes[i])] == Page(template, routes[i])
  {
    forall i | 0 <= i < |routes|
      ensures Written(files, routes, FilePath, PageOf(template))[FilePath(routes[i])] == Page(template, routes[i])
    {
      forall j | i < j < |routes| ensures FilePath(routes[j]) != FilePath(routes[i]) {
        if FilePath(routes[j]) == FilePath(routes[i]) {
          FilePathInjective(routes[j], routes[i]);
        }
      }
      LastWriteWins(files, routes, FilePath, PageOf(template), i);
    }
  }

  /** `prerenderRoute(route)`: the template with the title prefix of the
      route's section, written to the route's file. */
  method PrerenderRoute(dist: Dist, template: string, route: string)
    modifies dist
    ensures dist.files == old(dist.files)[FilePath(route) := Page(template, route)]
  {
    var html := template;
    if Contains(route, "/blog") {
      assert "<title>" + SectionPrefix(Blog) == "<title>Blog - ";
      html := ReplaceFirst(html, "<title>", "<title>Blog - ");
    } else if Contains(route, "/services") {
      assert "<title>" + SectionPrefix(Services) == "<title>Services - ";
      html := ReplaceFirst(html, "<title>", "<title>Services - ");
    } else if Contains(route, "/a-propos") {
      assert "<title>" + SectionPrefix(About) == "<title>À propos - ";
      html := ReplaceFirst(html, "<title>", "<title>À propos - ");
    }
    dist.Write(FilePath(route), html);
  }

  /** `prerender()`: every route rendered in turn. */
  method PrerenderAll(dist: Dist, template: string, routes: seq<string>)
    modifies dist
    ensures dist.files == Written(old(dist.files), routes, FilePath, PageOf(template))
  {
    var initial := dist.files;
    var i := 0;
    while i < |routes|
      invariant 0 <= i <= |routes|
      invariant dist.files == Written(initial, routes[..i], FilePath, PageOf(template))
    {
      assert routes[..i + 1][..i] == routes[..i];
      PrerenderRoute(dist, template, routes[i]);
      i := i + 1;
    }
    assert routes[..|routes|] == routes;
  }
}
