/** The second pre-rendering script (`scripts/prerender-advanced.js`):
    each route has a title of its own; its page gets that title, preload
    hints for the resources of its section and a JSON-LD description of the
    business, and the English version of every route is rendered after the
    French ones. Serialising the JSON-LD object to text is a parameter. */
module PrerenderAdvanced {
  import opened Text
  import opened Lists
  import Prerender

  datatype Route = Route(path: string, title: string)

  /** The site's motto, in its two halves. */
  const Motto := "Les deux pieds sur terre" + ", " + "la tête dans le Cloud"

  /** The French routes and their titles. */
  const Routes: seq<Route> := [
    Route("/", "TerraCloud - " + Motto),
    Route("/services", "Services" + SiteSuffix),
    Route("/services/devops", "DevOps & Automatisation" + SiteSuffix),
    Route("/services/architecte-solutions-aws", "Architecte Solutions AWS" + SiteSuffix),
    Route("/services/migration-vers-aws", "Migration vers AWS" + SiteSuffix),
    Route("/services/formation-aws", "Formation AWS" + SiteSuffix),
    Route("/blog", "Blog" + SiteSuffix),
    Route("/a-propos", "À propos" + SiteSuffix),
    Route("/nous-contacter", "Contact" + SiteSuffix),
    Route("/prendre-rendez-vous", "Prendre rendez-vous" + SiteSuffix)
  ]

  /** The ending of every title but the home's. */
  const SiteSuffix := " - TerraCloud"

  /** The English title: ` (EN)` put after the first ` - TerraCloud`; a
      title without it stays as it is. */
  function EnglishTitle(title: string): (t: string)
    ensures t != title <==> Contains(title, " - TerraCloud")
  {
    ReplaceFirst(title, " - TerraCloud", " - TerraCloud (EN)")
  }

  /** Where ` - TerraCloud` first occurs, ` (EN)` is inserted after it and
      the rest of the title is kept. */
  lemma EnglishTitleTagged(title: string, i: nat)
    requires IndexOf(title, " - TerraCloud") == Some(i)
    ensures EnglishTitle(title) == title[..i + 13] + " (EN)" + title[i + 13..]
  {
    EnglishSuffix();
    ReplaceExtends(title, " - TerraCloud", " (EN)", i);
  }

  lemma EnglishSuffix()
    ensures " - TerraCloud (EN)" == " - TerraCloud" + " (EN)"
  {
  }

  /** The home's title starts with the site's name and has no
      " - TerraCloud", so the English home keeps the French title, without
      " (EN)". */
  lemma HomeTitleUntagged()
    ensures Routes[0].path == "/"
    ensures EnglishTitle(Routes[0].title) == Routes[0].title
  {
    var title := Routes[0].title;
    HomeTitleCapitals();
    forall i: nat | i <= |title| ensures !OccursAt(title, " - TerraCloud", i) {
      if i + 13 <= |title| {
        assert title[i..i + 13][3] == title[i + 3];
      }
    }
  }

  /** The home's title has its only `T` in front. */
  lemma HomeTitleCapitals()
    ensures forall j :: 1 <= j < |Routes[0].title| ==> Routes[0].title[j] != 'T'
  {
    var title := Routes[0].title;
    var head := "TerraCloud - ";
    var rest := Motto;
    assert title == head + rest;
    assert 'T' !in rest by {
      assert 'T' !in "Les deux pieds sur terre" && 'T' !in ", " && 'T' !in "la tête dans le Cloud";
    }
    forall j | 1 <= j < |title| ensures title[j] != 'T' {
      if j < |head| {
        assert title[j] == head[j];
      } else {
        assert title[j] == rest[j - |head|];
      }
    }
  }

  /** Every other title ends with " - TerraCloud", so its English version
      gets " (EN)". */
  lemma OtherTitlesTagged()
    ensures forall i :: 1 <= i < |Routes| ==> EnglishTitle(Routes[i].title) != Routes[i].title
  {
    forall i | 1 <= i < |Routes| ensures Contains(Routes[i].title, " - TerraCloud") {
      var t := Routes[i].title;
      var name := t[..|t| - |SiteSuffix|];
      assert t == name + SiteSuffix;
      assert OccursAt(t, " - TerraCloud", |name|);
    }
  }

  /** The English version of a route. */
  function EnglishRoute(route: Route): (r: Route)
    ensures StartsWith(r.path, "/en")
  {
    Route(Prerender.EnglishPath(route.path), EnglishTitle(route.title))
  }

  /** The resources a page may ask the browser to preload. */
  datatype Hint = HeroImage | IconsScript | MarkdownScript

  /** A hint's `<link rel="preload">` tag: the resource, what it is and,
      for the portrait, its MIME type. */
  function HintTag(h: Hint): string {
    LinkOpen + HintTail(h)
  }

  const LinkOpen := "<link rel=\"preload\" href=\""

  function HintHref(h: Hint): string {
    match h
    case HeroImage => "/paul-santus.jpg"
    case IconsScript => "/assets/icons-McOFLr9J.js"
    case MarkdownScript => "/assets/markdown-C8eUV7xn.js"
  }

  function HintKind(h: Hint): string {
    if h == HeroImage then "image" else "script"
  }

  function HintType(h: Hint): string {
    if h == HeroImage then " type=\"image/jpeg\"" else ""
  }

  /** The hints of a path, in the order they are pushed: the portrait for
      the home, the icons for the services, the Markdown renderer for the
      blog. */
  function Hints(path: string): seq<Hint> {
    HintsOf(path == "/", StartsWith(path, "/services"), StartsWith(path, "/blog"))
  }

  /** The hints pushed for a page that is the home, a services page or a
      blog page. */
  function HintsOf(home: bool, services: bool, blog: bool): seq<Hint> {
    (if home then [HeroImage] else [])
    + (if services then [IconsScript] else [])
    + (if blog then [MarkdownScript] else [])
  }

  /** The hints as the text put in the page. */
  function HintsText(path: string): string {
    Join(Map(Hints(path), HintTag), "\n    ")
  }

  /** Each hint belongs to exactly one kind of path; a page gets at most one
      hint, and pages under `/en` get none. */
  lemma HintsFor(path: string)
    ensures HeroImage in Hints(path) <==> path == "/"
    ensures IconsScript in Hints(path) <==> StartsWith(path, "/services")
    ensures MarkdownScript in Hints(path) <==> StartsWith(path, "/blog")
    ensures |Hints(path)| <= 1
    ensures StartsWith(path, "/en") ==> Hints(path) == []
  {
    PrefixesExclusive(path, "/services", "/blog");
    PrefixesExclusive(path, "/en", "/services");
    PrefixesExclusive(path, "/en", "/blog");
  }

  /** `generatePreloadHints(routePath)`: the hints pushed one by one, each
      standing for its tag, then the tags joined with a line break and
      indentation. */
  method GeneratePreloadHints(routePath: string) returns (text: string)
    ensures text == HintsText(routePath)
  {
    var hints: seq<Hint> := [];
    var home := routePath == "/";
    var services := StartsWith(routePath, "/services");
    var blog := StartsWith(routePath, "/blog");
    if home {
      hints := hints + [HeroImage];
    }
    if services {
      hints := hints + [IconsScript];
    }
    if blog {
      hints := hints + [MarkdownScript];
    }
    assert hints == HintsOf(home, services, blog);
    text := Join(Map(hints, HintTag), "\n    ");
  }

  datatype SchemaType = Organization | ProfessionalService | BlogType

  datatype PostalAddress = PostalAddress(addressCountry: string)

  /** The JSON-LD object: the fields of the base object, and the two fields
      some pages add. */
  datatype StructuredData = StructuredData(
    context: string, schemaType: SchemaType, name: string, url: string, logo: string,
    description: string, address: PostalAddress,
    serviceType: Option<string>, blogPost: Option<seq<string>>)

  const BaseData := StructuredData(
    "https://schema.org", Organization, "TerraCloud", "https://web.terracloud.fr",
    "https://web.terracloud.fr/logo-orange.png",
    "TerraCloud accompagne ses clients dans toute la France sur des questions d'architecture logicielle, cloud AWS et devops.",
    PostalAddress("FR"), None, None)

  /** The JSON-LD of a path: a blog for `/blog…`, a professional service
      for `/services…`, the organisation otherwise. */
  function StructuredDataFor(path: string): StructuredData {
    if StartsWith(path, "/blog") then BaseData.(schemaType := BlogType, blogPost := Some([]))
    else if StartsWith(path, "/services") then
      BaseData.(schemaType := ProfessionalService, serviceType := Some("Cloud Computing Services"))
    else BaseData
  }

  /** The base fields are always kept; the type and the added field follow
      the section; pages under `/en` describe the organisation. */
  lemma StructuredDataKinds(path: string)
    ensures var d := StructuredDataFor(path);
      && d.(schemaType := Organization, serviceType := None, blogPost := None) == BaseData
      && (d.schemaType == BlogType <==> StartsWith(path, "/blog"))
      && (d.schemaType == ProfessionalService <==> StartsWith(path, "/services"))
      && (d.blogPost.Some? <==> d.schemaType == BlogType)
      && (d.blogPost.Some? ==> d.blogPost.value == [])
      && (d.serviceType.Some? <==> d.schemaType == ProfessionalService)
      && (StartsWith(path, "/en") ==> d == BaseData)
  {
    PrefixesExclusive(path, "/services", "/blog");
    PrefixesExclusive(path, "/en", "/services");
    PrefixesExclusive(path, "/en", "/blog");
  }

  /** `generateStructuredData(route)`: the base object, replaced by the
      service variant under `/services` and by the blog variant under
      `/blog`. */
  method GenerateStructuredData(path: string) returns (data: StructuredData)
    ensures data == StructuredDataFor(path)
  {
    var structuredData := BaseData;
    if StartsWith(path, "/services") {
      structuredData := BaseData.(schemaType := ProfessionalService, serviceType := Some("Cloud Computing Services"));
    }
    if StartsWith(path, "/blog") {
      structuredData := BaseData.(schemaType := BlogType, blogPost := Some([]));
    }
    PrefixesExclusive(path, "/services", "/blog");
    data := structuredData;
  }

  /** Characters at which `.` stops matching. */
  predicate LineTerminator(c: char) {
    c == '\n' || c == '\r' || c == '\U{2028}' || c == '\U{2029}'
  }

  /** The end of the lazy `.*?<\/title>` that starts at `from`: the first
      `</title>` at or after `from` with no line terminator before it. */
  function TitleClose(s: string, from: nat): (r: Option<nat>)
    decreases |s| - from
    ensures r.Some? ==> from <= r.value && OccursAt(s, "</title>", r.value)
    ensures r.Some? ==> forall k :: from <= k < r.value ==> !LineTerminator(s[k]) && !OccursAt(s, "</title>", k)
  {
    if from + 8 > |s| then None
    else if OccursAt(s, "</title>", from) then Some(from)
    else if LineTerminator(s[from]) then None
    else TitleClose(s, from + 1)
  }

  /** Without a close, every `</title>` after `from` lies beyond a line
      terminator. */
  lemma {:induction false} TitleCloseBlocked(s: string, from: nat, j: nat)
    requires TitleClose(s, from).None?
    requires from <= j && OccursAt(s, "</title>", j)
    ensures exists k :: from <= k < j && LineTerminator(s[k])
    decreases |s| - from
  {
    if LineTerminator(s[from]) {
      assert from < j;
    } else {
      TitleCloseBlocked(s, from + 1, j);
    }
  }

  /** A title element starts at `i`: a `<title>` with a close on its line. */
  predicate TitleAt(s: string, i: nat) {
    OccursAt(s, "<title>", i) && TitleClose(s, i + 7).Some?
  }

  /** The match of `/<title>.*?<\/title>/`: the leftmost `<title>` that has
      a close on its line, with the nearest such close. */
  function TitleMatch(s: string, from: nat): (r: Option<(nat, nat)>)
    decreases |s| - from
    ensures r.Some? ==> from <= r.value.0 && r.value.0 + 7 <= r.value.1
                        && TitleAt(s, r.value.0) && TitleClose(s, r.value.0 + 7) == Some(r.value.1)
    ensures forall i :: from <= i && (r.None? || i < r.value.0) ==> !TitleAt(s, i)
  {
    if from + 7 > |s| then None
    else if TitleAt(s, from) then
      Some((from, TitleClose(s, from + 7).value))
    else TitleMatch(s, from + 1)
  }

  /** The page's first title element, if any, replaced by one holding
      `title`. */
  function ReplaceTitle(s: string, title: string): string {
    match TitleMatch(s, 0)
    case None => s
    case Some((i, j)) => s[..i] + "<title>" + title + "</title>" + s[j + 8..]
  }

  /** `html.replace('</head>', x + '\n</head>')` */
  function InsertBeforeHead(s: string, x: string): string {
    ReplaceFirst(s, "</head>", x + "\n</head>")
  }

  /** A text that can be put before `</head>` without creating an earlier
      `</head>`: it holds none, and it starts a tag. */
  predicate Insertable(x: string) {
    !Contains(x, "</head>") && (x == [] || x[0] == '<')
  }

  /** The characters of `</head>` that matter to an insertion before it. */
  lemma HeadTagChars()
    ensures |"</head>"| == 7
    ensures forall m :: 0 <= m < 7 ==> "</head>"[m] != '\n'
    ensures forall m :: 1 <= m < 7 ==> "</head>"[m] != '<'
    ensures "\n</head>" == "\n" + "</head>"
  {
  }

  /** An insertion lands right before the first `</head>`, which is still
      the first one after it. */
  lemma InsertedBeforeHead(s: string, k: nat, x: string)
    requires IndexOf(s, "</head>") == Some(k)
    requires Insertable(x)
    ensures InsertBeforeHead(s, x) == s[..k] + x + "\n" + s[k..]
    ensures IndexOf(InsertBeforeHead(s, x), "</head>") == Some(k + |x| + 1)
  {
    HeadTagChars();
    assert x + "\n</head>" == (x + "\n") + "</head>";
    ReplacePrepends(s, "</head>", x + "\n", k);
    assert s[..k] + (x + "\n") + s[k..] == s[..k] + x + ['\n'] + s[k..];
    InsertKeepsFirst(s, "</head>", k, x, '\n');
  }

  /** The hints come before the structured data and both before the first
      `</head>`; the rest of the page is kept. */
  lemma HeadInsertions(s: string, k: nat, hints: string, data: string)
    requires IndexOf(s, "</head>") == Some(k)
    requires Insertable(hints) && Insertable(data)
    ensures InsertBeforeHead(InsertBeforeHead(s, hints), data) == s[..k] + hints + "\n" + data + "\n" + s[k..]
  {
    InsertedBeforeHead(s, k, hints);
    var t := InsertBeforeHead(s, hints);
    InsertedBeforeHead(t, k + |hints| + 1, data);
    assert t[..k + |hints| + 1] == s[..k] + hints + "\n";
    assert t[k + |hints| + 1..] == s[k..];
  }

  /** The page of a route. */
  function AdvancedPage(template: string, route: Route, serialise: StructuredData -> string): string {
    var titled := ReplaceTitle(template, route.title);
    InsertBeforeHead(InsertBeforeHead(titled, HintsText(route.path)), serialise(StructuredDataFor(route.path)))
  }

  function RouteFile(route: Route): string {
    Prerender.FilePath(route.path)
  }

  function AdvancedPageOf(template: string, serialise: StructuredData -> string): Route -> string {
    (route: Route) => AdvancedPage(template, route, serialise)
  }

  // ---------------------------------------------------------------------
  // As written: the template is read again for every route

  /** The template: the built `dist/index.html`, which is also the file
      the home is written to. */
  const TemplateFile := "/index.html"

  /** One call of `prerenderRoute(route)` as written: the page is built
      from what `dist/index.html` holds at that moment; when that file is
      missing the read throws, the error is logged and nothing is
      written. */
  function RenderStep(files: map<string, string>, route: Route, serialise: StructuredData -> string): map<string, string> {
    if TemplateFile in files then files[RouteFile(route) := AdvancedPage(files[TemplateFile], route, serialise)]
    else files
  }

  /** `prerenderRoute(route)`: title, hints and structured data put in the
      current `dist/index.html`, written to the route's file; see
      `RenderStep`. */
  method PrerenderRoute(dist: Prerender.Dist, route: Route, serialise: StructuredData -> string)
    modifies dist
    ensures dist.files == RenderStep(old(dist.files), route, serialise)
  {
    if TemplateFile !in dist.files {
      return;
    }
    var html := dist.files[TemplateFile];
    html := ReplaceTitle(html, route.title);
    var preloadHints := GeneratePreloadHints(route.path);
    html := ReplaceFirst(html, "</head>", preloadHints + "\n</head>");
    var structuredData := GenerateStructuredData(route.path);
    html := ReplaceFirst(html, "</head>", serialise(structuredData) + "\n</head>");
    dist.Write(RouteFile(route), html);
  }

  /** The files after rendering `routes` in turn, as written. */
  function AsWritten(files: map<string, string>, routes: seq<Route>, serialise: StructuredData -> string): map<string, string>
    decreases |routes|
  {
    if routes == [] then files
    else RenderStep(AsWritten(files, routes[..|routes| - 1], serialise), routes[|routes| - 1], serialise)
  }

  /** The output of `prerender()` as written: the French routes, then their
      English versions. */
  function AdvancedRun(files: map<string, string>, routes: seq<Route>, serialise: StructuredData -> string): map<string, string> {
    AsWritten(AsWritten(files, routes, serialise), Map(routes, EnglishRoute), serialise)
  }

  /** One loop of `prerender()`: each route rendered in turn. */
  method RenderEach(dist: Prerender.Dist, routes: seq<Route>, serialise: StructuredData -> string)
    modifies dist
    ensures dist.files == AsWritten(old(dist.files), routes, serialise)
  {
    var initial := dist.files;
    var i := 0;
    while i < |routes|
      invariant 0 <= i <= |routes|
      invariant dist.files == AsWritten(initial, routes[..i], serialise)
    {
      assert routes[..i + 1][..i] == routes[..i];
      PrerenderRoute(dist, routes[i], serialise);
      i := i + 1;
    }
    assert routes[..|routes|] == routes;
  }

  /** `prerender()`: the French routes, then the English versions. */
  method PrerenderAdvanced(dist: Prerender.Dist, routes: seq<Route>, serialise: StructuredData -> string)
    modifies dist
    ensures dist.files == AdvancedRun(old(dist.files), routes, serialise)
  {
    RenderEach(dist, routes, serialise);
    RenderEach(dist, Map(routes, EnglishRoute), serialise);
  }

  /** Without the template nothing is written. */
  lemma {:induction false} NothingWithoutTemplate(files: map<string, string>, routes: seq<Route>,
                                                  serialise: StructuredData -> string)
    requires TemplateFile !in files
    ensures AsWritten(files, routes, serialise) == files
    decreases |routes|
  {
    if routes != [] {
      NothingWithoutTemplate(files, routes[..|routes| - 1], serialise);
    }
  }

  /** While no route writes the template file, every page is built from
      the same template. */
  lemma {:induction false} FixedTemplateRun(files: map<string, string>, routes: seq<Route>,
                                            serialise: StructuredData -> string)
    requires TemplateFile in files
    requires forall i :: 0 <= i < |routes| ==> RouteFile(routes[i]) != TemplateFile
    ensures AsWritten(files, routes, serialise)
            == Prerender.Written(files, routes, RouteFile, AdvancedPageOf(files[TemplateFile], serialise))
    decreases |routes|
  {
    if routes != [] {
      var front := routes[..|routes| - 1];
      var page := AdvancedPageOf(files[TemplateFile], serialise);
      forall i | 0 <= i < |front| ensures RouteFile(front[i]) != TemplateFile {
        assert front[i] == routes[i];
      }
      FixedTemplateRun(files, front, serialise);
      Prerender.WrittenKeepsOthers(files, front, RouteFile, page, TemplateFile);
    }
  }

  /** Rendering a list renders its first route, then the rest. */
  lemma {:induction false} AsWrittenHead(files: map<string, string>, routes: seq<Route>,
                                         serialise: StructuredData -> string)
    requires routes != []
    ensures AsWritten(files, routes, serialise)
            == AsWritten(RenderStep(files, routes[0], serialise), routes[1..], serialise)
    decreases |routes|
  {
    if |routes| == 1 {
      assert routes[..0] == [] && routes[1..] == [];
    } else {
      var front := routes[..|routes| - 1];
      AsWrittenHead(files, front, serialise);
      assert front[0] == routes[0];
      assert front[1..] == routes[1..][..|routes| - 2];
      assert routes[1..][|routes| - 2] == routes[|routes| - 1];
    }
  }

  /** A French route other than the home is not written to the template
      file. */
  lemma NotTemplateFile(routes: seq<Route>, j: nat)
    requires FrenchPaths(routes) && routes != [] && routes[0].path == "/" && 0 < j < |routes|
    ensures RouteFile(routes[j]) != TemplateFile
  {
    if RouteFile(routes[j]) == TemplateFile {
      Prerender.FilePathInjective(routes[j].path, "/");
    }
  }

  /** As written, rendering the home first overwrites the template with
      the home page, and every later French page is built from the home
      page instead of the template. */
  lemma FrenchPagesFromHome(files: map<string, string>, routes: seq<Route>,
                            serialise: StructuredData -> string, i: nat)
    requires FrenchPaths(routes) && routes != [] && routes[0].path == "/"
    requires TemplateFile in files && i < |routes|
    ensures var home := AdvancedPage(files[TemplateFile], routes[0], serialise);
      var french := AsWritten(files, routes, serialise);
      && TemplateFile in french && french[TemplateFile] == home
      && (0 < i ==> RouteFile(routes[i]) in french
                    && french[RouteFile(routes[i])] == AdvancedPage(home, routes[i], serialise))
  {
    var home := AdvancedPage(files[TemplateFile], routes[0], serialise);
    var rest := routes[1..];
    var afterHome := files[TemplateFile := home];
    var page := AdvancedPageOf(home, serialise);
    var french := AsWritten(files, routes, serialise);
    forall j | 0 <= j < |rest| ensures RouteFile(rest[j]) != TemplateFile {
      NotTemplateFile(routes, j + 1);
    }
    assert french == Prerender.Written(afterHome, rest, RouteFile, page) by {
      assert RenderStep(files, routes[0], serialise) == afterHome;
      AsWrittenHead(files, routes, serialise);
      FixedTemplateRun(afterHome, rest, serialise);
    }
    assert TemplateFile in french && french[TemplateFile] == home by {
      Prerender.WrittenKeepsOthers(afterHome, rest, RouteFile, page, TemplateFile);
    }
    if 0 < i {
      OwnFileKept(afterHome, routes, page, i);
    }
  }

  /** With distinct non-empty paths, a route's file keeps its page to the
      end of the run that starts after the first route. */
  lemma OwnFileKept(files: map<string, string>, routes: seq<Route>, page: Route -> string, i: nat)
    requires FrenchPaths(routes) && 0 < i < |routes|
    ensures var rest := routes[1..];
      && RouteFile(routes[i]) in Prerender.Written(files, rest, RouteFile, page)
      && Prerender.Written(files, rest, RouteFile, page)[RouteFile(routes[i])] == page(routes[i])
  {
    var rest := routes[1..];
    assert rest[i - 1] == routes[i];
    forall j | i - 1 < j < |rest| ensures RouteFile(rest[j]) != RouteFile(rest[i - 1]) {
      assert rest[j] == routes[j + 1];
      if RouteFile(rest[j]) == RouteFile(rest[i - 1]) {
        Prerender.FilePathInjective(rest[j].path, rest[i - 1].path);
      }
    }
    Prerender.LastWriteWins(files, rest, RouteFile, page, i - 1);
  }

  /** As written, every English page is built from the home page. */
  lemma EnglishPagesFromHome(files: map<string, string>, routes: seq<Route>,
                             serialise: StructuredData -> string, i: nat)
    requires FrenchPaths(routes) && routes != [] && routes[0].path == "/"
    requires TemplateFile in files && i < |routes|
    ensures var home := AdvancedPage(files[TemplateFile], routes[0], serialise);
      var all := AdvancedRun(files, routes, serialise);
      RouteFile(EnglishRoute(routes[i])) in all
      && all[RouteFile(EnglishRoute(routes[i]))] == AdvancedPage(home, EnglishRoute(routes[i]), serialise)
  {
    var home := AdvancedPage(files[TemplateFile], routes[0], serialise);
    FrenchPagesFromHome(files, routes, serialise, 0);
    var french := AsWritten(files, routes, serialise);
    var english := Map(routes, EnglishRoute);
    forall j | 0 <= j < |english| ensures RouteFile(english[j]) != TemplateFile {
      Prerender.EnglishFileApart(routes[j].path, "/");
    }
    FixedTemplateRun(french, english, serialise);
    var page := AdvancedPageOf(home, serialise);
    forall j | i < j < |english| ensures RouteFile(english[j]) != RouteFile(english[i]) {
      if RouteFile(english[j]) == RouteFile(english[i]) {
        Prerender.FilePathInjective(english[j].path, english[i].path);
        Prerender.EnglishPathInjective(routes[j].path, routes[i].path);
      }
    }
    Prerender.LastWriteWins(french, english, RouteFile, page, i);
  }

  /** No `<` is followed by a `t`, so no `<title>` occurs. */
  predicate NoTitleTag(s: string) {
    forall i :: 0 <= i < |s| - 1 && s[i] == '<' ==> s[i + 1] != 't'
  }

  /** A page without a title element keeps its title. */
  lemma NoTitleKept(s: string, title: string)
    requires NoTitleTag(s)
    ensures ReplaceTitle(s, title) == s
  {
    forall i: nat | i + 7 <= |s| ensures !OccursAt(s, "<title>", i) {
      TitleTagOpens(s, i);
    }
    assert TitleMatch(s, 0).None?;
  }

  lemma TitleTagOpens(s: string, i: nat)
    requires i + 7 <= |s|
    ensures OccursAt(s, "<title>", i) ==> s[i] == '<' && s[i + 1] == 't'
  {
    var w := s[i..i + 7];
    assert w[0] == s[i] && w[1] == s[i + 1];
  }

  lemma NoTitleTagAppend(a: string, b: string)
    requires NoTitleTag(a) && NoTitleTag(b)
    requires a == [] || b == [] || a[|a| - 1] != '<' || b[0] != 't'
    ensures NoTitleTag(a + b)
  {
    forall i | 0 <= i < |a + b| - 1 && (a + b)[i] == '<' ensures (a + b)[i + 1] != 't' {
      if i < |a| - 1 {
        assert (a + b)[i] == a[i] && (a + b)[i + 1] == a[i + 1];
      } else if i >= |a| {
        assert (a + b)[i] == b[i - |a|] && (a + b)[i + 1] == b[i + 1 - |a|];
      }
    }
  }

  /** A hint tag opens with `<l` and holds no other `<`. */
  lemma HintTagShape(h: Hint)
    ensures var t := HintTag(h);
      |t| >= 2 && t[0] == '<' && t[1] == 'l' && forall i :: 1 <= i < |t| ==> t[i] != '<'
  {
    LinkOpenShape();
    HintTailShape(h);
    OpensOnce(LinkOpen, HintTail(h));
  }

  /** A tag opening `<l` with no other `<`, followed by text without `<`,
      still opens `<l` with no other `<`. */
  lemma OpensOnce(a: string, b: string)
    requires |a| >= 2 && a[0] == '<' && a[1] == 'l' && forall i :: 1 <= i < |a| ==> a[i] != '<'
    requires '<' !in b
    ensures var t := a + b;
      |t| >= 2 && t[0] == '<' && t[1] == 'l' && forall i :: 1 <= i < |t| ==> t[i] != '<'
  {
    forall i | |a| <= i < |a + b| ensures (a + b)[i] != '<' {
      assert (a + b)[i] == b[i - |a|];
    }
  }

  /** What follows the tag's opening. */
  function HintTail(h: Hint): string {
    HintHref(h) + "\" as=\"" + HintKind(h) + "\"" + HintType(h) + ">"
  }

  lemma LinkOpenShape()
    ensures |LinkOpen| >= 2 && LinkOpen[0] == '<' && LinkOpen[1] == 'l'
    ensures forall i :: 1 <= i < |LinkOpen| ==> LinkOpen[i] != '<'
  {
  }

  lemma HintTailShape(h: Hint)
    ensures '<' !in HintTail(h)
  {
    HrefShape(h);
    assert '<' !in HintKind(h) && '<' !in HintType(h);
    assert '<' !in "\" as=\"" && '<' !in "\"" && '<' !in ">";
  }

  /** No preloaded resource's path holds a `<`. */
  lemma HrefShape(h: Hint)
    ensures '<' !in HintHref(h)
  {
    match h
    case HeroImage =>
    case IconsScript =>
    case MarkdownScript =>
  }

  /** A tag whose only `<` opens it and is followed by `l` holds no
      `</head>` and no `<title>`. */
  lemma LinkTagSafe(t: string)
    requires |t| >= 2 && t[0] == '<' && t[1] == 'l'
    requires forall i :: 1 <= i < |t| ==> t[i] != '<'
    ensures Insertable(t) && NoTitleTag(t)
  {
    forall i: nat | i <= |t| ensures !OccursAt(t, "</head>", i) {
      if i + 7 <= |t| {
        assert t[i..i + 7][0] == t[i] && t[i..i + 7][1] == t[i + 1];
      }
    }
  }

  /** The hints of any page can be put before `</head>` and bring no
      title element. */
  lemma HintsTextSafe(path: string)
    ensures Insertable(HintsText(path)) && NoTitleTag(HintsText(path))
  {
    HintsFor(path);
    var hints := Hints(path);
    if hints != [] {
      assert Map(hints, HintTag) == [HintTag(hints[0])];
      HintTagShape(hints[0]);
      LinkTagSafe(HintTag(hints[0]));
    }
  }

  lemma NoTitleTagSlice(s: string, lo: nat, hi: nat)
    requires NoTitleTag(s) && lo <= hi <= |s|
    ensures NoTitleTag(s[lo..hi])
  {
    forall i | 0 <= i < hi - lo - 1 && s[lo..hi][i] == '<' ensures s[lo..hi][i + 1] != 't' {
      assert s[lo..hi][i] == s[lo + i] && s[lo..hi][i + 1] == s[lo + i + 1];
    }
  }

  /** What a page puts before `</head>`: its hints, then its structured
      data. */
  function PageHead(route: Route, serialise: StructuredData -> string): string {
    HintsText(route.path) + "\n" + serialise(StructuredDataFor(route.path)) + "\n"
  }

  /** The home puts the portrait's hint and the organisation's data. */
  lemma HomeHead(home: Route, serialise: StructuredData -> string)
    requires home.path == "/"
    ensures PageHead(home, serialise) == HintTag(HeroImage) + "\n" + serialise(BaseData) + "\n"
  {
    assert Hints("/") == [HeroImage];
    assert Map([HeroImage], HintTag) == [HintTag(HeroImage)];
  }

  /** A page built from a template without a title element is the template
      with the page's head put before `</head>`, which stays the first
      `</head>`. */
  lemma PageFromUntitled(template: string, k: nat, route: Route, serialise: StructuredData -> string)
    requires IndexOf(template, "</head>") == Some(k) && NoTitleTag(template)
    requires Insertable(serialise(StructuredDataFor(route.path)))
    ensures AdvancedPage(template, route, serialise) == template[..k] + PageHead(route, serialise) + template[k..]
    ensures IndexOf(AdvancedPage(template, route, serialise), "</head>") == Some(k + |PageHead(route, serialise)|)
  {
    var hints := HintsText(route.path);
    var data := serialise(StructuredDataFor(route.path));
    HintsTextSafe(route.path);
    assert AdvancedPage(template, route, serialise)
        == InsertBeforeHead(InsertBeforeHead(ReplaceTitle(template, route.title), hints), data);
    assert PageHead(route, serialise) == hints + "\n" + data + "\n";
    UntitledInsertions(template, k, route.title, hints, data);
  }

  /** The title replacement, then two insertions before `</head>`, on a
      template without a title element. */
  lemma UntitledInsertions(template: string, k: nat, title: string, hints: string, data: string)
    requires IndexOf(template, "</head>") == Some(k) && NoTitleTag(template)
    requires Insertable(hints) && Insertable(data)
    ensures var page := InsertBeforeHead(InsertBeforeHead(ReplaceTitle(template, title), hints), data);
      && page == template[..k] + (hints + "\n" + data + "\n") + template[k..]
      && IndexOf(page, "</head>") == Some(k + |hints + "\n" + data + "\n"|)
  {
    NoTitleKept(template, title);
    TwoInsertions(template, k, hints, data);
  }

  /** Two insertions before the first `</head>` put both texts there, and
      `</head>` stays the first one. */
  lemma TwoInsertions(s: string, k: nat, hints: string, data: string)
    requires IndexOf(s, "</head>") == Some(k)
    requires Insertable(hints) && Insertable(data)
    ensures var page := InsertBeforeHead(InsertBeforeHead(s, hints), data);
      && page == s[..k] + (hints + "\n" + data + "\n") + s[k..]
      && IndexOf(page, "</head>") == Some(k + |hints + "\n" + data + "\n"|)
  {
    HeadInsertions(s, k, hints, data);
    Regroup(s[..k], hints, data, s[k..]);
    HeadAfterInsertions(s, k, hints, data);
  }

  /** With the hints and the structured data spliced in, the first
      `</head>` comes after both texts and their line breaks. */
  lemma HeadAfterInsertions(s: string, k: nat, hints: string, data: string)
    requires IndexOf(s, "</head>") == Some(k)
    requires Insertable(hints) && Insertable(data)
    ensures IndexOf(s[..k] + (hints + "\n" + data + "\n") + s[k..], "</head>") == Some(k + |hints + "\n" + data + "\n"|)
  {
    HeadTagChars();
    var x := hints + "\n" + data;
    JoinAvoids(hints, data, "</head>", '\n');
    assert x[0] == '<' || x[0] == '\n';
    assert s[..k] + (x + "\n") + s[k..] == s[..k] + x + ['\n'] + s[k..];
    InsertKeepsFirst(s, "</head>", k, x, '\n');
  }

  /** `a + h + "\n" + d + "\n" + b` is `a`, the head `h + "\n" + d + "\n"`,
      then `b`. */
  lemma Regroup(a: string, h: string, d: string, b: string)
    ensures a + h + "\n" + d + "\n" + b == a + (h + "\n" + d + "\n") + b
  {
  }

  /** A page's head brings no title element when its structured data
      brings none; it ends with a line break and does not start with `t`. */
  lemma UntitledPageHead(route: Route, serialise: StructuredData -> string)
    requires NoTitleTag(serialise(StructuredDataFor(route.path)))
    ensures var h := PageHead(route, serialise);
      NoTitleTag(h) && h != [] && h[0] != 't' && h[|h| - 1] == '\n'
  {
    var hints := HintsText(route.path);
    var data := serialise(StructuredDataFor(route.path));
    HintsTextSafe(route.path);
    NoTitleTagAppend(hints, "\n");
    NoTitleTagAppend(hints + "\n", data);
    NoTitleTagAppend(hints + "\n" + data, "\n");
  }

  /** Putting a head without a title element into a template without one
      brings none. */
  lemma UntitledHead(template: string, k: nat, route: Route, serialise: StructuredData -> string)
    requires k <= |template| && NoTitleTag(template)
    requires NoTitleTag(serialise(StructuredDataFor(route.path)))
    ensures NoTitleTag(template[..k] + PageHead(route, serialise) + template[k..])
  {
    var head := PageHead(route, serialise);
    UntitledPageHead(route, serialise);
    var a := template[..k];
    var b := template[k..];
    NoTitleTagSlice(template, 0, k);
    NoTitleTagSlice(template, k, |template|);
    assert template[0..k] == a && template[k..|template|] == b;
    NoTitleTagAppend(a, head);
    NoTitleTagAppend(a + head, b);
  }

  /** As written, with a template whose head has no title element, a page
      rendered after the home carries the home's head (its preload hint
      and structured data) in front of its own; built from the template
      it carries only its own, so the two differ. */
  lemma HomeHeadCarried(template: string, k: nat, home: Route, route: Route, serialise: StructuredData -> string)
    requires IndexOf(template, "</head>") == Some(k) && NoTitleTag(template)
    requires home.path == "/"
    requires Insertable(serialise(BaseData)) && NoTitleTag(serialise(BaseData))
    requires Insertable(serialise(StructuredDataFor(route.path)))
    ensures var asWritten := AdvancedPage(AdvancedPage(template, home, serialise), route, serialise);
      && AdvancedPage(template, route, serialise) == template[..k] + PageHead(route, serialise) + template[k..]
      && asWritten == template[..k] + PageHead(home, serialise) + PageHead(route, serialise) + template[k..]
      && asWritten != AdvancedPage(template, route, serialise)
  {
    assert StructuredDataFor(home.path) == BaseData;
    EarlierHeadCarried(template, k, home, route, serialise);
  }

  /** As written, whatever page was rendered first over a template without
      a title element, the next page carries that page's head in front of
      its own. */
  lemma EarlierHeadCarried(template: string, k: nat, first: Route, route: Route, serialise: StructuredData -> string)
    requires IndexOf(template, "</head>") == Some(k) && NoTitleTag(template)
    requires Insertable(serialise(StructuredDataFor(first.path))) && NoTitleTag(serialise(StructuredDataFor(first.path)))
    requires Insertable(serialise(StructuredDataFor(route.path)))
    ensures var asWritten := AdvancedPage(AdvancedPage(template, first, serialise), route, serialise);
      && AdvancedPage(template, route, serialise) == template[..k] + PageHead(route, serialise) + template[k..]
      && asWritten == template[..k] + PageHead(first, serialise) + PageHead(route, serialise) + template[k..]
      && asWritten != AdvancedPage(template, route, serialise)
  {
    var firstHead := PageHead(first, serialise);
    var routeHead := PageHead(route, serialise);
    var firstPage := AdvancedPage(template, first, serialise);
    var asWritten := AdvancedPage(firstPage, route, serialise);
    var k2 := k + |firstHead|;
    assert firstPage == template[..k] + firstHead + template[k..] && IndexOf(firstPage, "</head>") == Some(k2) by {
      PageFromUntitled(template, k, first, serialise);
    }
    assert NoTitleTag(firstPage) by {
      UntitledHead(template, k, first, serialise);
    }
    assert asWritten == firstPage[..k2] + routeHead + firstPage[k2..] by {
      PageFromUntitled(firstPage, k2, route, serialise);
    }
    SpliceAfter(firstPage, template[..k], firstHead, template[k..], routeHead);
    PageFromUntitled(template, k, route, serialise);
    assert firstHead != [] by {
      UntitledPageHead(first, serialise);
    }
  }

  /** A text put right after the middle part of `a + h + b` lands between
      `h` and `b`. */
  lemma SpliceAfter(s: string, a: string, h: string, b: string, x: string)
    requires s == a + h + b
    ensures s[..|a| + |h|] + x + s[|a| + |h|..] == a + h + x + b
  {
    assert s[..|a| + |h|] == a + h;
    assert s[|a| + |h|..] == b;
  }

  // ---------------------------------------------------------------------
  // Evidently intended: every page built from the template

  /** The output of `prerender()`: the French routes, then their English
      versions. */
  function AdvancedRendered(files: map<string, string>, template: string, routes: seq<Route>,
                            serialise: StructuredData -> string): map<string, string> {
    var page := AdvancedPageOf(template, serialise);
    var french := Prerender.Written(files, routes, RouteFile, page);
    Prerender.Written(french, Map(routes, EnglishRoute), RouteFile, page)
  }

  /** The French paths as the source lists them: distinct, non-empty and
      outside `/en`. */
  predicate FrenchPaths(routes: seq<Route>) {
    && (forall i, j :: 0 <= i < j < |routes| ==> routes[i].path != routes[j].path)
    && (forall i :: 0 <= i < |routes| ==> routes[i].path != "" && !StartsWith(routes[i].path, "/en"))
  }

  /** The script's routes are French paths: their lengths differ, except
      for "/services" and "/a-propos", and none has 'e' after its first
      slash. */
  lemma RoutesAreFrench()
    ensures FrenchPaths(Routes)
  {
    var lengths := [1, 9, 16, 34, 28, 23, 5, 9, 15, 20];
    assert forall k :: 0 <= k < |Routes| ==> |Routes[k].path| == lengths[k] by {
      assert |Routes[0].path| == 1 && |Routes[1].path| == 9 && |Routes[2].path| == 16;
      assert |Routes[3].path| == 34 && |Routes[4].path| == 28 && |Routes[5].path| == 23;
      assert |Routes[6].path| == 5 && |Routes[7].path| == 9 && |Routes[8].path| == 15;
      assert |Routes[9].path| == 20;
    }
    forall i, j | 0 <= i < j < |Routes| ensures Routes[i].path != Routes[j].path {
      if i == 1 && j == 7 {
        assert Routes[i].path[1] != Routes[j].path[1];
      } else {
        assert lengths[i] != lengths[j];
      }
    }
    forall i | 0 <= i < |Routes| ensures Routes[i].path != "" && !StartsWith(Routes[i].path, "/en") {
      if 0 < i {
        assert Routes[i].path[1] != 'e';
      }
    }
  }

  /** Every French page ends up in its own file: no English page lands on
      it. */
  lemma FrenchPagesWritten(files: map<string, string>, template: string, routes: seq<Route>,
                           serialise: StructuredData -> string, i: nat)
    requires FrenchPaths(routes) && i < |routes|
    ensures AdvancedRendered(files, template, routes, serialise)[RouteFile(routes[i])]
            == AdvancedPage(template, routes[i], serialise)
  {
    var page := AdvancedPageOf(template, serialise);
    var french := Prerender.Written(files, routes, RouteFile, page);
    var english := Map(routes, EnglishRoute);
    forall j | i < j < |routes| ensures RouteFile(routes[j]) != RouteFile(routes[i]) {
      if RouteFile(routes[j]) == RouteFile(routes[i]) {
        Prerender.FilePathInjective(routes[j].path, routes[i].path);
      }
    }
    Prerender.LastWriteWins(files, routes, RouteFile, page, i);
    forall j | 0 <= j < |english| ensures RouteFile(english[j]) != RouteFile(routes[i]) {
      Prerender.EnglishFileApart(routes[j].path, routes[i].path);
    }
    Prerender.WrittenKeepsOthers(french, english, RouteFile, page, RouteFile(routes[i]));
  }

  /** Every English page ends up in its own file. */
  lemma EnglishPagesWritten(files: map<string, string>, template: string, routes: seq<Route>,
                            serialise: StructuredData -> string, i: nat)
    requires FrenchPaths(routes) && i < |routes|
    ensures AdvancedRendered(files, template, routes, serialise)[RouteFile(EnglishRoute(routes[i]))]
            == AdvancedPage(template, EnglishRoute(routes[i]), serialise)
  {
    var page := AdvancedPageOf(template, serialise);
    var french := Prerender.Written(files, routes, RouteFile, page);
    var english := Map(routes, EnglishRoute);
    forall j | i < j < |english| ensures RouteFile(english[j]) != RouteFile(english[i]) {
      if RouteFile(english[j]) == RouteFile(english[i]) {
        Prerender.FilePathInjective(english[j].path, english[i].path);
        Prerender.EnglishPathInjective(routes[j].path, routes[i].path);
      }
    }
    Prerender.LastWriteWins(french, english, RouteFile, page, i);
  }

  /** `prerenderRoute(route)` on a template read beforehand. */
  method PrerenderRouteFromTemplate(dist: Prerender.Dist, template: string, route: Route,
                                    serialise: StructuredData -> string)
    modifies dist
    ensures dist.files == old(dist.files)[RouteFile(route) := AdvancedPage(template, route, serialise)]
  {
    var html := template;
    html := ReplaceTitle(html, route.title);
    var preloadHints := GeneratePreloadHints(route.path);
    html := ReplaceFirst(html, "</head>", preloadHints + "\n</head>");
    var structuredData := GenerateStructuredData(route.path);
    html := ReplaceFirst(html, "</head>", serialise(structuredData) + "\n</head>");
    dist.Write(RouteFile(route), html);
  }

  /** Each route rendered in turn from the same template. */
  method RenderEachFromTemplate(dist: Prerender.Dist, template: string, routes: seq<Route>,
                                serialise: StructuredData -> string)
    modifies dist
    ensures dist.files == Prerender.Written(old(dist.files), routes, RouteFile, AdvancedPageOf(template, serialise))
  {
    var page := AdvancedPageOf(template, serialise);
    var initial := dist.files;
    var i := 0;
    while i < |routes|
      invariant 0 <= i <= |routes|
      invariant dist.files == Prerender.Written(initial, routes[..i], RouteFile, page)
    {
      Prerender.WrittenSnoc(initial, routes, RouteFile, page, i);
      PrerenderRouteFromTemplate(dist, template, routes[i], serialise);
      i := i + 1;
    }
    assert routes[..|routes|] == routes;
  }

  /** `prerender()` with `dist/index.html` read once, before any page is
      written: every page, French and English, is built from the built
      template; without the template nothing is written. */
  method PrerenderFromTemplate(dist: Prerender.Dist, routes: seq<Route>, serialise: StructuredData -> string)
    modifies dist
    ensures TemplateFile in old(dist.files) ==>
      dist.files == AdvancedRendered(old(dist.files), old(dist.files)[TemplateFile], routes, serialise)
    ensures TemplateFile !in old(dist.files) ==> dist.files == old(dist.files)
  {
    if TemplateFile !in dist.files {
      return;
    }
    var template := dist.files[TemplateFile];
    RenderEachFromTemplate(dist, template, routes, serialise);
    RenderEachFromTemplate(dist, template, Map(routes, EnglishRoute), serialise);
  }
}
