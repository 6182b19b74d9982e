# TerraCloud site: redirects, languages, content loaders and build scripts

A Dafny model of the bilingual (French by default, English under `/en`)
brochure site of TerraCloud and of the scripts that build and serve it:

- **Redirects** (`Redirects`, `RedirectFacts`): the redirect effect that
  maps old WordPress addresses to the site's pages. A trailing slash is cut
  first. Then an exact table is looked up. Then six pattern families
  (pagination, category, tag, year, month, author) send to the blog or to
  the about page, each with an English twin under `/en`. The query string
  is carried over. The lemmas show which address lands where, that every
  target is a page at rest (except `/en/`, which is cut to `/en`), and that
  the English rules mirror the French ones.
- **Routing and language detection** (`App`): the route table with its
  French pages, the same pages under `/en`, and the catch-all page. The
  detection effect sets the interface language from the path.
- **Navigation** (`Header`, `LanguageSwitcher`, `Canonical`): language-aware
  links, the highlighting of the current section, the language menu and
  the canonical and alternate addresses of a page.
- **Journeys** (`Journeys`): the pieces above combined on one location.
  As written, choosing English on the home page ends on `/en`, which the
  detection effect reads as French (see Findings). With `/en` read as
  English, every redirect keeps the language of the path it starts from.
- **Content** (`Fetching`, `BlogPosts`, `BlogPage`, `Testimonials`,
  `Markdown`): the blog data cache and its queries, the reading-time
  estimate, the blog page's filters, the testimonials and Markdown loaders
  with their fallback to the other language, and the Markdown cache.
- **Contact** (`ContactForm`, `ContactLambda`): the form hook's state
  machine and payload, and the server-side handler that validates a
  submission and asks the notification topic to publish it.
- **Build scripts** (`Prerender`, `PrerenderAdvanced`, `OptimizeImages`):
  writing one HTML file per route from the built template, with a title
  prefix or a title, preload hints and JSON-LD per route, and rewriting the
  hero image of every page into a responsive `<picture>`. The advanced
  script reads `dist/index.html` again for every route after writing the
  home page there, so its later pages start from the home page (see
  Findings). The picture's own img keeps the portrait's address, so the
  priority rewrite that follows also marks it: the hero image ends with
  both `loading="lazy"` and `fetchpriority="high"`.

The output directory is a `Prerender.Dist` object whose `files` map (path
to content) the scripts update in place. Network answers, the clock, the
publication's outcome and JSON serialisation are parameters. `Text` and
`Lists` hold the string and sequence functions the modules share.

## Model

| member | source | states |
|---|---|---|
| Redirects.ResolveTarget | static-website/src/components/RedirectHandler.tsx:16-21 | a path longer than "/" that ends in a slash goes to the same path without it, before any table or pattern is consulted |
| Redirects.TailMatches | static-website/src/components/RedirectHandler.tsx:80-144 | the end of a pattern: digits, one segment, a year, a year and month (each with an optional final slash and nothing after), or anything; its cases are used by the family lemmas of RedirectFacts |
| Redirects.PatternMatches | static-website/src/components/RedirectHandler.tsx:80-144 | an anchored pattern: the path starts with the language prefix and the pattern prefix, and the rest fits the tail |
| Redirects.RuleMatches | static-website/src/components/RedirectHandler.tsx:80-144 | a guard holds when one of its patterns matches (the `||` of its `match` calls) |
| Redirects.GuardTarget | static-website/src/components/RedirectHandler.tsx:78-144 | the guards tried in order, the first that holds giving its target under its language prefix; what it gives is stated by GuardTargetFirst |
| Redirects.Resolve | static-website/src/components/RedirectHandler.tsx:12-146 | the effect navigates, replacing the history entry, exactly when the path has a target, and then to that target followed by the query string |
| Redirects.GuardTargetFirst | static-website/src/components/RedirectHandler.tsx:78-144 | the pattern rules give no target exactly when no rule matches; otherwise the target is that of the first matching rule |
| Redirects.RulesTwinned | static-website/src/components/RedirectHandler.tsx:80-144 | each French pattern rule is followed by its English twin: the same patterns and target under "/en" |
| Redirects.RulesFrenchFirst | static-website/src/components/RedirectHandler.tsx:80-144 | the rules at even positions are the French ones |
| Redirects.RulesPaired | static-website/src/components/RedirectHandler.tsx:80-144 | the rule list is made of French/English pairs |
| Redirects.PairedTargets | static-website/src/components/RedirectHandler.tsx:80-144 | every rule of a paired list targets "/blog", "/a-propos" or their English twins |
| Redirects.TableTargetsKnown | static-website/src/components/RedirectHandler.tsx:24-70 | every target of the exact table is one of the site's known addresses |
| Redirects.GuardTargetsKnown | static-website/src/components/RedirectHandler.tsx:80-144 | every pattern target is a known address |
| Redirects.TargetKnown | static-website/src/components/RedirectHandler.tsx:23-144 | a path without trailing slash redirects only to known addresses |
| Redirects.NoPatternApplies | static-website/src/components/RedirectHandler.tsx:80-144 | a path outside the blog and author families starts with no pattern prefix, French or English |
| Redirects.NoGuardApplies | static-website/src/components/RedirectHandler.tsx:80-144 | no pattern rule matches a path outside the families |
| Redirects.NoRuleApplies | static-website/src/components/RedirectHandler.tsx:16-144 | a path without trailing slash, not in the table and outside the families is not redirected |
| Redirects.StaysPut | static-website/src/components/RedirectHandler.tsx:16-144 | a path that differs from every family prefix at some position and is not in the table is not redirected |
| Redirects.IndexesStay | static-website/src/components/RedirectHandler.tsx:16-144 | "/" and "/blog" are not redirected |
| Redirects.PagesStay | static-website/src/components/RedirectHandler.tsx:16-144 | "/nous-contacter" and "/a-propos" are not redirected |
| Redirects.EnglishIndexesStay | static-website/src/components/RedirectHandler.tsx:16-144 | "/en" and "/en/blog" are not redirected |
| Redirects.EnglishPagesStay | static-website/src/components/RedirectHandler.tsx:16-144 | "/en/nous-contacter", "/en/a-propos" and "/en/wp-admin" are not redirected: the table has no English entry for the back office |
| Redirects.TargetsAreFinal | static-website/src/components/RedirectHandler.tsx:16-144 | every target is at rest, except "/en/", which goes to "/en", which is at rest |
| Redirects.PatternMirror | static-website/src/components/RedirectHandler.tsx:80-144 | an English pattern matches "/en" + q exactly when its French original matches q; neither matches the other language's paths |
| Redirects.RuleMirror | static-website/src/components/RedirectHandler.tsx:80-144 | the same for whole rules |
| Redirects.GuardMirror | static-website/src/components/RedirectHandler.tsx:80-144 | the target of "/en" + q is "/en" followed by the target of q, for every French path q |
| Redirects.SkipFrenchPair | static-website/src/components/RedirectHandler.tsx:80-144 | a French path that misses a pair's French rule also misses its English twin |
| RedirectFacts.ByTable | static-website/src/components/RedirectHandler.tsx:72-76 | a table key without trailing slash goes to its table entry |
| RedirectFacts.ByGuards | static-website/src/components/RedirectHandler.tsx:78-144 | a path without trailing slash and outside the table goes where the pattern rules say |
| RedirectFacts.EnglishMirror | static-website/src/components/RedirectHandler.tsx:16-144 | outside the table, the English twin of a French path is redirected to the English twin of its target |
| RedirectFacts.EnglishByGuards | static-website/src/components/RedirectHandler.tsx:80-144 | a French path sent to t by the patterns has its English twin sent to "/en" + t |
| RedirectFacts.HomeTwin | static-website/src/components/RedirectHandler.tsx:17-21 | "/en/" is cut to "/en" |
| RedirectFacts.FrenchBlogKeys | static-website/src/components/RedirectHandler.tsx:24-70 | every table key starting "/b" goes to "/blog" |
| RedirectFacts.EnglishBlogKeys | static-website/src/components/RedirectHandler.tsx:24-70 | every table key starting "/en/b" goes to "/en/blog" |
| RedirectFacts.NoFrenchAuthorKeys | static-website/src/components/RedirectHandler.tsx:24-70 | no table key starts "/p" or "/a" |
| RedirectFacts.NoEnglishAuthorKeys | static-website/src/components/RedirectHandler.tsx:24-70 | no table key starts "/en/p" or "/en/a" |
| RedirectFacts.BlogInTable | static-website/src/components/RedirectHandler.tsx:24-76 | a blog-like table key goes to "/blog" |
| RedirectFacts.EnglishBlogInTable | static-website/src/components/RedirectHandler.tsx:24-76 | the English twin of a blog-like table key goes to "/en/blog" |
| RedirectFacts.AuthorNotInTable | static-website/src/components/RedirectHandler.tsx:24-70 | author-like paths and their English twins are not table keys |
| RedirectFacts.FrenchRulesAreEvens | static-website/src/components/RedirectHandler.tsx:80-144 | the French rules are the even-position rules |
| RedirectFacts.EvensDecide | static-website/src/components/RedirectHandler.tsx:80-144 | on a French path a paired rule list decides as its French rules alone |
| RedirectFacts.FrenchGuardsDecide | static-website/src/components/RedirectHandler.tsx:80-144 | on a French path the site's rules decide as the French rules alone |
| RedirectFacts.NthWins | static-website/src/components/RedirectHandler.tsx:80-144 | the first rule that matches gives the target |
| RedirectFacts.FrenchTargets | static-website/src/components/RedirectHandler.tsx:80-144 | the five blog rules target "/blog" and the author rule "/a-propos" |
| RedirectFacts.BlogGuardWins | static-website/src/components/RedirectHandler.tsx:80-133 | a blog rule that matches, after earlier blog rules that miss, sends the path to "/blog" |
| RedirectFacts.FrenchBlog | static-website/src/components/RedirectHandler.tsx:16-144 | a blog-shaped path the patterns send to "/blog" is redirected there, table or not |
| RedirectFacts.EnglishBlogByGuards | static-website/src/components/RedirectHandler.tsx:80-144 | its English twin outside the table goes to "/en/blog" |
| RedirectFacts.EnglishBlog | static-website/src/components/RedirectHandler.tsx:16-144 | its English twin goes to "/en/blog", table or not |
| RedirectFacts.BlogArchive | static-website/src/components/RedirectHandler.tsx:16-144 | a blog archive path goes to "/blog" and its English twin to "/en/blog" |
| RedirectFacts.AboutArchive | static-website/src/components/RedirectHandler.tsx:16-144 | an author archive path goes to "/a-propos" and its English twin to "/en/a-propos" |
| RedirectFacts.PaginationMatches | static-website/src/components/RedirectHandler.tsx:81-89 | "/blog/page/" followed by digits matches the pagination rule |
| RedirectFacts.PaginationGuard | static-website/src/components/RedirectHandler.tsx:81-89 | the French rules send it to "/blog" |
| RedirectFacts.PaginationRedirects | static-website/src/components/RedirectHandler.tsx:81-89 | it goes to "/blog", its English twin to "/en/blog" |
| RedirectFacts.CategoryMatches | static-website/src/components/RedirectHandler.tsx:92-100 | "/blog/category/" + a segment misses the pagination rule and matches the category rule |
| RedirectFacts.CategoryGuard | static-website/src/components/RedirectHandler.tsx:92-100 | the French rules send it to "/blog" |
| RedirectFacts.CategoryRedirects | static-website/src/components/RedirectHandler.tsx:92-100 | it goes to "/blog", its English twin to "/en/blog" |
| RedirectFacts.TagMatches | static-website/src/components/RedirectHandler.tsx:103-111 | "/blog/tag/" + a segment misses the two earlier rules and matches the tag rule |
| RedirectFacts.TagGuard | static-website/src/components/RedirectHandler.tsx:103-111 | the French rules send it to "/blog" |
| RedirectFacts.TagRedirects | static-website/src/components/RedirectHandler.tsx:103-111 | it goes to "/blog", its English twin to "/en/blog" |
| RedirectFacts.YearMatches | static-website/src/components/RedirectHandler.tsx:114-122 | "/blog/" + four digits misses the three earlier rules and matches the year rule |
| RedirectFacts.YearGuard | static-website/src/components/RedirectHandler.tsx:114-122 | the French rules send it to "/blog" |
| RedirectFacts.YearRedirects | static-website/src/components/RedirectHandler.tsx:114-122 | it goes to "/blog", its English twin to "/en/blog" |
| RedirectFacts.MonthMatches | static-website/src/components/RedirectHandler.tsx:125-133 | "/blog/yyyy/mm" misses the four earlier rules and matches the month rule |
| RedirectFacts.MonthGuard | static-website/src/components/RedirectHandler.tsx:125-133 | the French rules send it to "/blog" |
| RedirectFacts.MonthRedirects | static-website/src/components/RedirectHandler.tsx:125-133 | it goes to "/blog", its English twin to "/en/blog" |
| RedirectFacts.BlogGuardsMiss | static-website/src/components/RedirectHandler.tsx:80-133 | no blog rule matches a path starting "/p" or "/a" |
| RedirectFacts.AuthorPageGuard | static-website/src/components/RedirectHandler.tsx:135-139 | every path starting "/psantus" is sent to "/a-propos" by the French rules |
| RedirectFacts.AuthorPageRedirects | static-website/src/components/RedirectHandler.tsx:135-144 | such a path goes to "/a-propos", its English twin to "/en/a-propos" |
| RedirectFacts.AuthorGuard | static-website/src/components/RedirectHandler.tsx:135-139 | "/author/" + a segment is sent to "/a-propos" by the French rules |
| RedirectFacts.AuthorRedirects | static-website/src/components/RedirectHandler.tsx:135-144 | it goes to "/a-propos", its English twin to "/en/a-propos" |
| RedirectFacts.SlashKeysShadowed | static-website/src/components/RedirectHandler.tsx:17-70 | a table key ending in a slash is never looked up: the slash rule cuts it first |
| RedirectFacts.FeedInTable | static-website/src/components/RedirectHandler.tsx:26 | "/feed" goes to "/blog" |
| RedirectFacts.FeedSlash | static-website/src/components/RedirectHandler.tsx:17-27 | "/feed/" goes to "/feed" and from there to "/blog" |
| RedirectFacts.WpAdminInTable | static-website/src/components/RedirectHandler.tsx:48 | "/wp-admin" goes to "/" |
| RedirectFacts.WpAdminFrenchOnly | static-website/src/components/RedirectHandler.tsx:48-49 | "/wp-admin" goes to "/" while "/en/wp-admin" stays |
| RedirectFacts.CommentsInTable | static-website/src/components/RedirectHandler.tsx:38-41 | "/comments" goes to the contact page, "/en/comments" to its English twin |
| RedirectFacts.LandingStays | static-website/src/components/RedirectHandler.tsx:16-144 | a landing page without trailing slash is not redirected |
| RedirectFacts.LandingSlash | static-website/src/components/RedirectHandler.tsx:17-21 | the only landing page with a trailing slash is "/en/", whose cut is a landing page |
| RedirectFacts.SettleStep | static-website/src/components/RedirectHandler.tsx:16-144 | each redirect either reaches a landing page from elsewhere or makes the path shorter, keeping landing pages landing |
| RedirectFacts.Settle | static-website/src/components/RedirectHandler.tsx:12-146 | following redirects ends on a path at rest; a path at rest is its own end; a landing page ends on a landing page |
| RedirectFacts.LandsFrom | static-website/src/components/RedirectHandler.tsx:24-144 | from any target, the chain ends on a landing page: the target itself or "/en" |
| RedirectFacts.RedirectLands | static-website/src/components/RedirectHandler.tsx:23-144 | a redirected path without trailing slash ends on a landing page: its target or "/en" |
| App.DropTrailingSlashes | static-website/src/App.tsx:56-95 | the router compares paths without their trailing slashes: the result is a prefix with no final slash followed only by slashes |
| App.MatchFound | static-website/src/App.tsx:56-95 | a path that a declared page matches is not rendered as the catch-all page |
| App.RoutesMirrored | static-website/src/App.tsx:58-91 | the English routes are the French ones, in the same order, under "/en" |
| App.RouteMatches | static-website/src/App.tsx:56-95 | a route matches the path lower-cased (no route sets `caseSensitive`), with trailing slashes ignored; a `:slug` route needs exactly one more segment |
| App.RouteFor | static-website/src/App.tsx:56-95 | the page of the first route that matches, the catch-all otherwise; stated by FirstRouteWins, SkipMissing, NoneMatches and MatchFound |
| App.Render | static-website/src/App.tsx:56-95 | the French table, then the English table, then the catch-all; stated by NotFoundExactly, EnglishPagesMirror and RenderIgnoresCase |
| App.LowerEnglish | static-website/src/App.tsx:76-91 | lower-casing keeps the "/en" prefix in front of the lower-cased rest |
| App.FrenchRoutesShaped | static-website/src/App.tsx:58-73 | every French route starts with "/" and its first segment does not start with "e" |
| App.RealTables | static-website/src/App.tsx:58-91 | every declared route is a real page, not the catch-all |
| App.LoweredMirror | static-website/src/App.tsx:58-91 | on lower-cased paths, an English route matches "/en" + p exactly when its French route matches p |
| App.FrenchMissEnglish | static-website/src/App.tsx:58-73 | no French route matches a path whose lower-cased form starts "/en" ("/EN/services" included) |
| App.EnglishMissFrench | static-website/src/App.tsx:76-91 | no English route matches a path whose lower-cased form does not start "/en" |
| App.RouteForMirror | static-website/src/App.tsx:58-91 | the English table picks for "/en" + p the page the French table picks for p |
| App.SkipMissing | static-website/src/App.tsx:56-95 | routes that do not match can be skipped |
| App.MissingAfter | static-website/src/App.tsx:56-95 | routes after the chosen one do not matter when they do not match |
| App.NoneMatches | static-website/src/App.tsx:94 | when no route matches, the catch-all page is rendered |
| App.EnglishPagesMirror | static-website/src/App.tsx:56-95 | "/en" + p renders the page p renders, for every path p starting "/" whose lower-cased form does not start "/en" |
| App.NotFoundExactly | static-website/src/App.tsx:56-95 | the catch-all page is rendered exactly when no declared route matches |
| App.FrenchRoutesMissEnglish | static-website/src/App.tsx:58-73 | no French route matches a path whose lower-cased form starts "/en" |
| App.FirstRouteWins | static-website/src/App.tsx:56-95 | the first matching route gives the page |
| App.RouteForIgnoresCase | static-website/src/App.tsx:56-95 | a route table picks the same page for a path and for its lower-cased form |
| App.RenderIgnoresCase | static-website/src/App.tsx:56-95 | "/Services" renders what "/services" renders: a path renders as its lower-cased form |
| App.EnglishHomeMatches | static-website/src/App.tsx:76 | the route "/en/" matches both "/en" and "/en/" |
| App.EnglishHomeRendered | static-website/src/App.tsx:56-95 | "/en" and "/en/" render the home page |
| App.DetectedLanguage | static-website/src/App.tsx:35-36 | the detected language is English exactly for paths starting "/en/", French otherwise |
| App.IntendedLanguage | static-website/src/App.tsx:35-36 | corrected detection: English exactly for paths starting "/en/" and for "/en"; it agrees with the detection as written on every other path |
| App.LanguageEffect | static-website/src/App.tsx:38-40 | the language is changed exactly when it differs from the target, and then to the target |
| App.LanguageEffectSettles | static-website/src/App.tsx:34-41 | after the effect the language is the detected one, and running it again changes nothing |
| Header.CreateUrlPrefixes | static-website/src/components/Header.tsx:17-22 | in English a link is the path under "/en" ("/" becomes "/en/"); in French it is the path itself |
| Header.CreateUrl | static-website/src/components/Header.tsx:17-22 | "/en/" for the home and "/en" + path otherwise in English, the path itself in any other language; stated by CreateUrlPrefixes |
| Header.NormalizedPath | static-website/src/components/Header.tsx:24-27 | the current path without its "/en" prefix, never empty |
| Header.IsActive | static-website/src/components/Header.tsx:24-30 | the normalised path is the link itself or lies under it followed by "/"; stated by EnglishLinkActive, SectionActive and SegmentBoundary |
| Header.HomeHighlighted | static-website/src/components/Header.tsx:91 | the home link is active and the location is exactly the language's home link; stated by HomeHighlightExact |
| Header.EnglishLinkActive | static-website/src/components/Header.tsx:24-30 | a link is highlighted on an English page exactly when it is on the French page |
| Header.HomeHighlightExact | static-website/src/components/Header.tsx:91 | the home link is highlighted exactly on the home address of the current language |
| Header.SectionActive | static-website/src/components/Header.tsx:24-30 | on a sub-page the section link is highlighted too |
| Header.SegmentBoundary | static-website/src/components/Header.tsx:24-30 | "/services" is active on "/services/devops" and its English twin, not on "/servicesX" |
| Header.EnglishRootHighlightsNothing | static-website/src/components/Header.tsx:24-30 | on "/en", which is not normalised, no link to another page is highlighted, not even the home link "/" |
| Canonical.CanonicalPath | static-website/src/hooks/useCanonicalUrl.ts:27-35 | the canonical path drops "/en" from paths under "/en/", maps "/en" to "/" and keeps every other path |
| Canonical.UseCanonicalUrl | static-website/src/hooks/useCanonicalUrl.ts:12-50 | the French alternate is the canonical address; a custom canonical is used for both alternates, as is when it starts "http" and after the base otherwise |
| Canonical.CanonicalRoundTrip | static-website/src/hooks/useCanonicalUrl.ts:27-35 | the canonical path of "/en" + p is p |
| Canonical.CanonicalOfLink | static-website/src/hooks/useCanonicalUrl.ts:27-35 | the canonical path of a header link to p, in either language, is p |
| Canonical.AlternatesAreLinks | static-website/src/hooks/useCanonicalUrl.ts:37-44 | the alternates are the base followed by the header's French and English links to the canonical path |
| Canonical.LanguagesAgree | static-website/src/hooks/useCanonicalUrl.ts:26-50 | a page and its English twin have the same canonical and alternate addresses |
| Canonical.EnglishHomes | static-website/src/hooks/useCanonicalUrl.ts:27-35 | "/en" and "/en/" are both canonically "/" |
| LanguageSwitcher.SwitchLanguage | static-website/src/components/LanguageSwitcher.tsx:12-35 | the language always becomes the chosen one; for a language other than French or English nothing is navigated |
| LanguageSwitcher.ToFrench | static-website/src/components/LanguageSwitcher.tsx:15-22 | choosing French navigates exactly from English addresses, to their canonical path |
| LanguageSwitcher.ToEnglish | static-website/src/components/LanguageSwitcher.tsx:24-30 | choosing English navigates exactly from paths not starting "/en", to the header's English link |
| LanguageSwitcher.SwitchRoundTrip | static-website/src/components/LanguageSwitcher.tsx:12-35 | switching a French page to English and back returns to it |
| LanguageSwitcher.ReverseRoundTrip | static-website/src/components/LanguageSwitcher.tsx:12-35 | switching an English page to French drops "/en"; switching back returns to it unless the French path itself starts "/en" |
| LanguageSwitcher.OtherLanguageStays | static-website/src/components/LanguageSwitcher.tsx:12-35 | any other language only changes the language |
| Fetching.FallbackLanguage | static-website/src/utils/markdownLoader.ts:12 | the fallback is English for French and French for anything else |
| Fetching.FallbackSwaps | static-website/src/utils/markdownLoader.ts:12 | falling back twice returns the language exactly for French and English |
| Fetching.LoadWithFallback | static-website/src/utils/markdownLoader.ts:2-27 | a successful answer is used; a failed answer falls back to the other language, then to the empty value; a thrown error gives the empty value |
| Fetching.LoadReadsTwoFiles | static-website/src/utils/markdownLoader.ts:2-27 | the result is empty or the body of the requested or the fallback file |
| BlogPosts.WordCount | static-website/src/data/blogPosts.ts:39 | the number of parts of a split on whitespace runs is at least one |
| BlogPosts.ReadingTime | static-website/src/data/blogPosts.ts:37-41 | the reading time is the least number of minutes covering the word count at 200 words a minute, at least one |
| BlogPosts.WordsCounted | static-website/src/data/blogPosts.ts:39 | words joined by single spaces count as themselves |
| BlogPosts.LeadingSpaceCounted | static-website/src/data/blogPosts.ts:39 | a leading space adds one to the count (the empty first part of the split) |
| BlogPosts.ConvertToBlogPost | static-website/src/data/blogPosts.ts:69-84 | author "TerraCloud", empty content, five minutes of reading; no image exactly for an empty featured image |
| BlogPosts.ConvertRoundTrip | static-website/src/data/blogPosts.ts:69-84 | the stored fields can be read back from the converted post |
| BlogPosts.Converted | static-website/src/data/blogPosts.ts:89 | the posts are converted one by one, in order |
| BlogPosts.BlogDataCache.constructor | static-website/src/data/blogPosts.ts:34 | the cache starts empty |
| BlogPosts.BlogDataCache.LoadBlogData | static-website/src/data/blogPosts.ts:44-66 | a cached language is answered from the cache without fetching; otherwise a successful answer is cached and returned and a failure gives no posts and caches nothing |
| BlogPosts.BlogDataCache.GetBlogPosts | static-website/src/data/blogPosts.ts:87-90 | the converted posts of the cached data, or of a fresh successful answer, which is then cached; a failed answer gives no posts and leaves the cache as it was |
| BlogPosts.PostBySlug | static-website/src/data/blogPosts.ts:96-99 | the first post with the slug, none exactly when no post has it |
| BlogPosts.AllCategories | static-website/src/data/blogPosts.ts:102-105 | the categories of the posts, each once, in order of first appearance |
| BlogPosts.TagList | static-website/src/data/blogPosts.ts:110 | the posts' tags flattened in order; stated by TagListMembers |
| BlogPosts.TagListMembers | static-website/src/data/blogPosts.ts:110 | the flattened tag list holds exactly the tags of the posts |
| BlogPosts.AllTags | static-website/src/data/blogPosts.ts:108-111 | the tags of the posts, each once, strictly sorted |
| BlogPosts.PostsByCategory | static-website/src/data/blogPosts.ts:114-117 | the posts of the category, in their order |
| BlogPosts.PostsByTag | static-website/src/data/blogPosts.ts:120-123 | the posts carrying the tag, in their order |
| BlogPosts.ListedMeansFound | static-website/src/data/blogPosts.ts:102-123 | a category or tag is listed exactly when some post is found by it |
| BlogPage.FilteredPosts | static-website/src/pages/Blog.tsx:50-57 | the posts matching search, category and tag, in their order |
| BlogPage.EmptySearchMatches | static-website/src/pages/Blog.tsx:51-52 | the empty search matches every post |
| BlogPage.UnfilteredShowsAll | static-website/src/pages/Blog.tsx:11-13 | with the initial filters every post is shown |
| BlogPage.ResetFilters | static-website/src/pages/Blog.tsx:246-251 | reset clears the search and selects "all"; every post is shown again |
| BlogPage.SearchIgnoresCase | static-website/src/pages/Blog.tsx:51-52 | searches equal up to case show the same posts |
| BlogPage.SelectsAreQueries | static-website/src/pages/Blog.tsx:50-57 | selecting a category or a tag shows what the data module's category or tag query gives |
| BlogPage.CategoryLabel | static-website/src/pages/Blog.tsx:68-75 | a known category is shown by its non-empty translation, any other by itself; a non-empty category never shows empty |
| Testimonials.AddressesDiffer | static-website/src/utils/testimonialsLoader.ts:15-26 | the fallback file is never the requested one |
| Testimonials.LoadTestimonials | static-website/src/utils/testimonialsLoader.ts:12-39 | a successful answer is used; after a failed answer the fallback language's list is used when it loads, and no testimonials otherwise; a thrown error gives no testimonials |
| Testimonials.LoadTestimonialsLegacy | static-website/src/utils/testimonialsLoader.ts:42-44 | the French list, or the English one when the French is missing |
| Testimonials.TestimonialById | static-website/src/utils/testimonialsLoader.ts:46-48 | the first testimonial with the identifier, none exactly when there is none |
| Testimonials.TestimonialsBySector | static-website/src/utils/testimonialsLoader.ts:50-52 | the testimonials whose sector equals the given one up to case, in their order |
| Testimonials.SectorIgnoresCase | static-website/src/utils/testimonialsLoader.ts:50-52 | sectors equal up to case select the same testimonials |
| Testimonials.FoundInItsSector | static-website/src/utils/testimonialsLoader.ts:46-52 | a testimonial found by identifier is among those of its own sector |
| Markdown.LoadMarkdownContent | static-website/src/utils/markdownLoader.ts:2-27 | a successful answer is the content; after a failed answer the other language's file is the content when it loads, and the empty text otherwise; a thrown error gives the empty text |
| Markdown.CacheKey | static-website/src/utils/markdownLoader.ts:32-34 | the key is the language, a colon and the slug |
| Markdown.CacheKeyInjective | static-website/src/utils/markdownLoader.ts:32-34 | for languages without a colon, different (slug, language) pairs have different keys |
| Markdown.CacheKeyCollides | static-website/src/utils/markdownLoader.ts:32-34 | with a colon in the language two pairs share a key |
| Markdown.CacheKeyPerLanguage | static-website/src/utils/markdownLoader.ts:32-34 | within one language different slugs have different keys |
| Markdown.Lookup | static-website/src/utils/markdownLoader.ts:50-53 | a stored non-empty content is found; a missing key or an empty content gives nothing |
| Markdown.StoreThenLookup | static-website/src/utils/markdownLoader.ts:50-58 | a stored content is read back (nothing when empty) and other keys are unaffected |
| Markdown.Preloaded | static-website/src/utils/markdownLoader.ts:36-48 | preloading keeps every cached entry and adds each missing slug's content when it is not empty, nothing else |
| Markdown.MarkdownCache.constructor | static-website/src/utils/markdownLoader.ts:30 | the cache starts empty |
| Markdown.MarkdownCache.GetCached | static-website/src/utils/markdownLoader.ts:50-53 | content is found exactly when the pair's key is cached with a non-empty content, and then it is that content |
| Markdown.MarkdownCache.SetCached | static-website/src/utils/markdownLoader.ts:55-58 | the entry for the pair is set and read back; other pairs' lookups are unchanged |
| Markdown.MarkdownCache.Preload | static-website/src/utils/markdownLoader.ts:36-48 | the cache becomes the preloaded map of the old one |
| ContactForm.PayloadMessage | static-website/src/hooks/useContactForm.ts:37 | the message starts with the subject line and ends with the message section |
| ContactForm.BuildPayload | static-website/src/hooks/useContactForm.ts:34-38 | name and email are trimmed, and the message is built from subject, company and trimmed message |
| ContactForm.CompanyInserted | static-website/src/hooks/useContactForm.ts:37 | a non-empty company inserts its line right after the subject and changes nothing else |
| ContactForm.EmptyCompanyOmitted | static-website/src/hooks/useContactForm.ts:37 | an empty company is left out like a missing one |
| ContactForm.Settled | static-website/src/hooks/useContactForm.ts:48-59 | success exactly for an ok answer; otherwise error, with the server's error text, the default text or the network text, never empty |
| ContactForm.ContactFormState.constructor | static-website/src/hooks/useContactForm.ts:20-22 | not submitting, idle, no error |
| ContactForm.ContactFormState.BeginSubmit | static-website/src/hooks/useContactForm.ts:28-38 | submitting, idle, no error, and the payload built from the data |
| ContactForm.ContactFormState.FinishSubmit | static-website/src/hooks/useContactForm.ts:48-62 | not submitting, and status and error set from the answer |
| ContactForm.ContactFormState.SubmitForm | static-website/src/hooks/useContactForm.ts:27-63 | the payload is built from the data and the final state follows the answer |
| ContactForm.ContactFormState.ResetStatus | static-website/src/hooks/useContactForm.ts:65-68 | idle and no error, submission flag unchanged |
| ContactLambda.Stripped | iac/lambda_function.py:30-32 | a missing field is the empty text; a text is stripped; anything else raises |
| ContactLambda.StrippedFields | iac/lambda_function.py:29-32 | the three stripped fields, none when one of them raises |
| ContactLambda.HandleFields | iac/lambda_function.py:34-105 | a JSON object gives 200, 400 or 500 with JSON headers, and a 400 publishes nothing |
| ContactLambda.LambdaHandler | iac/lambda_function.py:6-105 | a preflight is a 200 that publishes nothing; a missing body is a 400; every answer is 200, 400 or 500 with JSON headers |
| ContactLambda.FieldsClassification | iac/lambda_function.py:35-88 | for an object: 200 exactly for complete fields with a plausible email that get published; 400 exactly for incomplete fields or an implausible email; a publication exactly for acceptable fields |
| ContactLambda.Classification | iac/lambda_function.py:6-105 | 200 exactly for a preflight or a published acceptable submission; 400 exactly for a non-preflight rejected request; a publication exactly for an acceptable non-preflight submission |
| ContactLambda.StripKeeps | iac/lambda_function.py:30-32 | a text without surrounding whitespace is kept by the strip |
| ContactLambda.StripKeepsAll | iac/lambda_function.py:29-32 | three such texts give the submission of those texts |
| ContactLambda.DotAndAtAccepted | iac/lambda_function.py:35-48 | an email of just a "." and an "@" in any order passes the validation |
| ContactLambda.DotAtPlausible | iac/lambda_function.py:43 | ".@" is a plausible email |
| ContactLambda.NotificationCarries | iac/lambda_function.py:54-75 | the subject names the sender, and the text carries the name, the email and the message |
| ContactLambda.Subject | iac/lambda_function.py:73 | "Contact Form: Message from " followed by the name; stated by NotificationCarries |
| ContactLambda.NotificationText | iac/lambda_function.py:54-63 | the heading with the timestamp, the name, email and message lines and the closing line; stated by NotificationCarries |
| ContactLambda.FormMessageNeverMissing | iac/lambda_function.py:32-40 | the message built by the form never strips to empty, so the form never triggers the missing-field rejection through it |
| Prerender.RoutePath | static-website/scripts/prerender.js:9-41 | every route starts with "/" |
| Prerender.EnglishPath | static-website/scripts/prerender.js:26-40 | the English twin of a route starts "/en" and ends with the French route |
| Prerender.EnglishPathInjective | static-website/scripts/prerender.js:26-40 | different routes have different English twins |
| Prerender.EnglishRoutesListed | static-website/scripts/prerender.js:9-41 | both halves of the list have fifteen routes, the English one being the twins of the French one |
| Prerender.RoutesPaired | static-website/scripts/prerender.js:9-41 | thirty routes; the route at 15 + i is the English twin of the route at i |
| Prerender.FilePath | static-website/scripts/prerender.js:54 | the file of a route is the route followed by "/index.html" ("/" gives "/index.html") |
| Prerender.FilePathInjective | static-website/scripts/prerender.js:54 | different non-empty routes are written to different files |
| Prerender.EmptyRouteIsHome | static-website/scripts/prerender.js:54 | the empty route would overwrite the home page's file |
| Prerender.EnglishFileApart | static-website/scripts/prerender.js:54 | an English page never lands on the file of a route outside "/en" |
| Prerender.TitleSection | static-website/scripts/prerender.js:68-74 | blog routes get the blog prefix, then services routes the services one, then about routes the about one, others none |
| Prerender.Page | static-website/scripts/prerender.js:65-74 | a route without a section, or a template without a title tag, gives the template unchanged |
| Prerender.PrefixInserted | static-website/scripts/prerender.js:65-74 | otherwise the section's prefix is inserted right after the first title tag |
| Prerender.EnglishKeepsSection | static-website/scripts/prerender.js:68-74 | an English route gets the title prefix of its French route |
| Prerender.Dist.constructor | static-website/scripts/prerender.js:43 | the output directory holds the given files |
| Prerender.Dist.Write | static-website/scripts/prerender.js:76 | writing sets one file and keeps the others |
| Prerender.Written | static-website/scripts/prerender.js:83-91 | after writing a list, every old file and every listed file is present and nothing else |
| Prerender.LastWriteWins | static-website/scripts/prerender.js:83-91 | a file holds the page of the last item written to it |
| Prerender.WrittenKeepsOthers | static-website/scripts/prerender.js:83-91 | a file no item is written to keeps its content |
| Prerender.EveryPageWritten | static-website/scripts/prerender.js:83-91 | with distinct non-empty routes, every route's file holds that route's page |
| Prerender.PrerenderRoute | static-website/scripts/prerender.js:49-81 | the route's file is set to its page and nothing else changes |
| Prerender.PrerenderAll | static-website/scripts/prerender.js:83-91 | the output directory is the old one with every route written in order |
| PrerenderAdvanced.EnglishTitle | static-website/scripts/prerender-advanced.js:134 | a title changes exactly when it contains " - TerraCloud" |
| PrerenderAdvanced.EnglishTitleTagged | static-website/scripts/prerender-advanced.js:134 | " (EN)" is inserted after the first " - TerraCloud" and the rest is kept |
| PrerenderAdvanced.HomeTitleUntagged | static-website/scripts/prerender-advanced.js:9-20 | the first route is the home, and its title has no " - TerraCloud", so its English version keeps the French title without " (EN)" |
| PrerenderAdvanced.OtherTitlesTagged | static-website/scripts/prerender-advanced.js:9-20 | every other route's title ends with " - TerraCloud", so its English version differs from it |
| PrerenderAdvanced.EnglishRoute | static-website/scripts/prerender-advanced.js:131-135 | the English route's path starts "/en" |
| PrerenderAdvanced.HintsFor | static-website/scripts/prerender-advanced.js:67-84 | the portrait hint exactly for the home, the icons for services paths and the Markdown renderer for blog paths; at most one hint; none under "/en" |
| PrerenderAdvanced.GeneratePreloadHints | static-website/scripts/prerender-advanced.js:67-84 | the hint tags of the path joined with a line break and indentation |
| PrerenderAdvanced.HintsText | static-website/scripts/prerender-advanced.js:67-84 | the hints of the path, each as its tag, joined as the script joins them; stated by HintsFor and HintsTextSafe |
| PrerenderAdvanced.HintTagShape | static-website/scripts/prerender-advanced.js:71-81 | a hint tag opens with "<l" and holds no other "<" |
| PrerenderAdvanced.HintsTextSafe | static-website/scripts/prerender-advanced.js:46-51 | the hints of any page hold no "</head>", start a tag when not empty, and hold no title element |
| PrerenderAdvanced.StructuredDataKinds | static-website/scripts/prerender-advanced.js:86-120 | the base fields are kept; a blog type with an empty post list exactly under "/blog", a professional service with its service type exactly under "/services", the organisation otherwise and under "/en" |
| PrerenderAdvanced.GenerateStructuredData | static-website/scripts/prerender-advanced.js:86-120 | the structured data of the path |
| PrerenderAdvanced.StructuredDataFor | static-website/scripts/prerender-advanced.js:86-120 | a blog for paths starting "/blog", a professional service for "/services", the organisation otherwise; stated by StructuredDataKinds |
| PrerenderAdvanced.TitleClose | static-website/scripts/prerender-advanced.js:41-44 | the lazy match ends at the first "</title>" with no line terminator before it |
| PrerenderAdvanced.TitleCloseBlocked | static-website/scripts/prerender-advanced.js:41-44 | when there is no close, every later "</title>" lies beyond a line terminator |
| PrerenderAdvanced.TitleMatch | static-website/scripts/prerender-advanced.js:41-44 | the match is the leftmost "<title>" with a close on its line, with the nearest close |
| PrerenderAdvanced.ReplaceTitle | static-website/scripts/prerender-advanced.js:41-44 | the first title element with a close on its line is replaced by one holding the route's title; a page without one is kept; stated by NoTitleKept and the TitleMatch lemmas |
| PrerenderAdvanced.NoTitleKept | static-website/scripts/prerender-advanced.js:41-44 | a page without a title element is kept by the title replacement |
| PrerenderAdvanced.InsertBeforeHead | static-website/scripts/prerender-advanced.js:48-51 | a text and a line break put before the first "</head>"; stated by InsertedBeforeHead |
| PrerenderAdvanced.InsertedBeforeHead | static-website/scripts/prerender-advanced.js:46-51 | an insertion lands right before the first "</head>", which stays the first one |
| PrerenderAdvanced.HeadInsertions | static-website/scripts/prerender-advanced.js:46-58 | the hints come before the structured data, both before the first "</head>", the rest of the page kept |
| PrerenderAdvanced.AdvancedPage | static-website/scripts/prerender-advanced.js:41-58 | the title replaced, then the hints, then the structured data put before "</head>"; stated by PageFromUntitled and HeadInsertions |
| PrerenderAdvanced.PageFromUntitled | static-website/scripts/prerender-advanced.js:41-58 | from a template without a title element, the page is the template with the hints and structured data put before its first "</head>", which stays the first |
| PrerenderAdvanced.HomeHead | static-website/scripts/prerender-advanced.js:67-120 | the home puts the portrait's hint and the organisation's data before "</head>" |
| PrerenderAdvanced.UntitledHead | static-website/scripts/prerender-advanced.js:41-58 | a page built from a template without a title element has none |
| PrerenderAdvanced.PrerenderRoute | static-website/scripts/prerender-advanced.js:25-65 | the page is built from what "/index.html" holds at that moment and written to the route's file, nothing else changing; without "/index.html" the read fails and nothing changes |
| PrerenderAdvanced.RenderEach | static-website/scripts/prerender-advanced.js:125-127 | the routes rendered in turn, each reading "/index.html" as the previous ones left it |
| PrerenderAdvanced.PrerenderAdvanced | static-website/scripts/prerender-advanced.js:122-140 | the French routes, then their English versions, rendered in turn as written |
| PrerenderAdvanced.NothingWithoutTemplate | static-website/scripts/prerender-advanced.js:25-28 | without "/index.html" a run writes nothing |
| PrerenderAdvanced.FixedTemplateRun | static-website/scripts/prerender-advanced.js:25-65 | while no route writes "/index.html", the run is every route written from the same template |
| PrerenderAdvanced.AsWrittenHead | static-website/scripts/prerender-advanced.js:122-127 | a run renders its first route, then the rest from the files that route left |
| PrerenderAdvanced.NotTemplateFile | static-website/scripts/prerender-advanced.js:31 | with distinct French paths starting with the home, no other French route writes "/index.html" |
| PrerenderAdvanced.FrenchPagesFromHome | static-website/scripts/prerender-advanced.js:23-32 | as written, the home page replaces "/index.html", and every later French page is built from the home page instead of the template |
| PrerenderAdvanced.EnglishPagesFromHome | static-website/scripts/prerender-advanced.js:122-140 | as written, every English page is built from the home page |
| PrerenderAdvanced.HomeHeadCarried | static-website/scripts/prerender-advanced.js:23-60 | with a template without a title element, a page rendered after the home carries the home's hint and data in front of its own, and so differs from the page built from the template |
| PrerenderAdvanced.EarlierHeadCarried | static-website/scripts/prerender-advanced.js:23-60 | with a template without a title element, any page rendered after another carries the earlier page's head in front of its own, unlike the page built from the template |
| PrerenderAdvanced.AdvancedRendered | static-website/scripts/prerender-advanced.js:122-140 | corrected run: the French routes, then their English versions, each page built from the one template; stated by FrenchPagesWritten and EnglishPagesWritten |
| PrerenderAdvanced.RoutesAreFrench | static-website/scripts/prerender-advanced.js:9-20 | the script's routes have distinct, non-empty paths outside "/en", the premise of the run lemmas |
| PrerenderAdvanced.FrenchPagesWritten | static-website/scripts/prerender-advanced.js:122-137 | in the corrected run, every French page built from the template ends up in its own file, not overwritten by an English one |
| PrerenderAdvanced.EnglishPagesWritten | static-website/scripts/prerender-advanced.js:129-137 | in the corrected run, every English page built from the template ends up in its own file |
| PrerenderAdvanced.PrerenderRouteFromTemplate | static-website/scripts/prerender-advanced.js:25-65 | corrected step: the page built from a template read beforehand is written to the route's file, nothing else changing |
| PrerenderAdvanced.RenderEachFromTemplate | static-website/scripts/prerender-advanced.js:125-127 | corrected loop: every route written from the same template |
| PrerenderAdvanced.PrerenderFromTemplate | static-website/scripts/prerender-advanced.js:122-140 | corrected run: "/index.html" read once, before any page is written, then the corrected run from it; without it nothing changes |
| OptimizeImages.ConfigFor | static-website/scripts/optimize-images.js:12-23 | only the portrait and the logo have a configuration, each with sizes and two formats |
| OptimizeImages.BaseName | static-website/scripts/optimize-images.js:29 | the name up to its first dot |
| OptimizeImages.BaseNameOfDotted | static-website/scripts/optimize-images.js:29 | the base of "b.ext" is b when b has no dot |
| OptimizeImages.SrcSetEntries | static-website/scripts/optimize-images.js:30-36 | one entry per configured size, in order |
| OptimizeImages.SrcSetEntryInjective | static-website/scripts/optimize-images.js:30-36 | different sizes give different entries |
| OptimizeImages.SrcSetEntriesDistinct | static-website/scripts/optimize-images.js:30-36 | distinct sizes give distinct entries |
| OptimizeImages.PictureMarkup | static-website/scripts/optimize-images.js:38-44 | the markup starts with "<" and ends with ">" |
| OptimizeImages.IndentedTrimmed | static-website/scripts/optimize-images.js:38-44 | trimming the indented template gives the markup back |
| OptimizeImages.GenerateResponsiveImageHtml | static-website/scripts/optimize-images.js:25-45 | an unconfigured image gives a plain img tag; a configured one the picture markup |
| OptimizeImages.PictureHolds | static-website/scripts/optimize-images.js:38-44 | the picture starts with "<picture>" and holds both sources and the lazy img |
| OptimizeImages.GeneratedMarkup | static-website/scripts/optimize-images.js:25-45 | the result holds the img with the given alt and class; it is a picture exactly for a configured image, with a WebP and a fallback source |
| OptimizeImages.ResponsiveHolds | static-website/scripts/optimize-images.js:29-44 | a configured image gives a picture with both sources built from its base name and sizes |
| OptimizeImages.PlainImgHolds | static-website/scripts/optimize-images.js:27 | the plain tag holds the img and is not a picture |
| OptimizeImages.HeroMatchAt | static-website/scripts/optimize-images.js:76 | a hero match at i is an "<img" tag closed at the first ">" whose attributes contain the portrait's src |
| OptimizeImages.HeroMatchFound | static-website/scripts/optimize-images.js:76 | every such tag is matched |
| OptimizeImages.LazySrcEnd | static-website/scripts/optimize-images.js:97 | a lazy src match is a src outside the portrait and logo paths, quoted and then closed |
| OptimizeImages.LazySrcFound | static-website/scripts/optimize-images.js:97 | every such src is matched |
| OptimizeImages.LastLazySrc | static-website/scripts/optimize-images.js:97 | the last src in a range that can close the tag, as the greedy prefix backtracks to it |
| OptimizeImages.LazyMatchAt | static-website/scripts/optimize-images.js:97 | a lazy match ends inside the page after its start |
| OptimizeImages.LazyMatchSound | static-website/scripts/optimize-images.js:97 | a lazy match is an "<img" tag without loading attribute whose last candidate src closes it |
| OptimizeImages.LazyMatchFound | static-website/scripts/optimize-images.js:97 | every such tag is matched |
| OptimizeImages.HeroMatcher | static-website/scripts/optimize-images.js:76 | the hero regex as a matcher on the page |
| OptimizeImages.LazyMatcher | static-website/scripts/optimize-images.js:97 | the lazy regex as a matcher on the page |
| OptimizeImages.FindMatch | static-website/scripts/optimize-images.js:77 | the leftmost match from a position, none exactly when no position matches |
| OptimizeImages.ReplaceAll | static-website/scripts/optimize-images.js:78-99 | a global replace: matches found left to right, never overlapping, rewritten, the rest copied; stated by NoMatchKeeps, FirstMatchRewritten and CopiedUpTo |
| OptimizeImages.NoMatchKeeps | static-website/scripts/optimize-images.js:78-99 | a global replace without a match keeps the text |
| OptimizeImages.FirstMatchRewritten | static-website/scripts/optimize-images.js:78-99 | the text before the first match is copied and the match rewritten, then the replace goes on after it |
| OptimizeImages.CopiedUpTo | static-website/scripts/optimize-images.js:78-99 | a stretch without a match is copied as it is |
| OptimizeImages.AttrValue | static-website/scripts/optimize-images.js:79-80 | the first quoted value after the key, quote-free; none exactly when no occurrence of the key is followed by a quote |
| OptimizeImages.AttrValueReads | static-website/scripts/optimize-images.js:79-80 | an attribute that comes first is read back exactly |
| OptimizeImages.HeroKeepsAttributes | static-website/scripts/optimize-images.js:78-85 | the replacement of a hero tag is a picture whose img keeps its alt (default "Paul Santus") and class (default empty) |
| OptimizeImages.HeroReplacement | static-website/scripts/optimize-images.js:78-85 | the portrait's responsive markup with the tag's alt text ("Paul Santus" by default) and class (empty by default); stated by HeroKeepsAttributes |
| OptimizeImages.OptimizeHtml | static-website/scripts/optimize-images.js:72-99 | the page is marked modified exactly when it holds a hero img tag |
| OptimizeImages.NoImagesUntouched | static-website/scripts/optimize-images.js:72-99 | a page without img tags is kept and not marked modified |
| OptimizeImages.MarksKeepTag | static-website/scripts/optimize-images.js:90-99 | the priority and lazy rewrites keep the tag and add their attributes before ">" |
| OptimizeImages.MarkPriority | static-website/scripts/optimize-images.js:90-93 | the tag with " fetchpriority=\"high\"" before its ">"; stated by MarksKeepTag |
| OptimizeImages.MarkLazy | static-website/scripts/optimize-images.js:96-99 | the tag with the lazy and async attributes before its ">"; stated by MarksKeepTag |
| OptimizeImages.PictureImgGetsPriority | static-website/scripts/optimize-images.js:38-44 | the img of the portrait's picture, which already has loading="lazy", is matched by the priority rewrite and also gets fetchpriority="high" |
| OptimizeImages.WholeTagMatched | static-website/scripts/optimize-images.js:38-44 | an img tag whose only ">" closes it and which holds the portrait's src is matched whole, and fetchpriority="high" goes right before that ">" |
| OptimizeImages.AfterOptimizing | static-website/scripts/optimize-images.js:71-104 | the same file names; files not listed are unchanged |
| OptimizeImages.OptimizedOnce | static-website/scripts/optimize-images.js:101-103 | a listed file holds the optimised page when modified and is unchanged otherwise |
| OptimizeImages.OptimizePage | static-website/scripts/optimize-images.js:72-99 | the page's rewrite and flag are those of the specification |
| OptimizeImages.OptimizeImagesInHtml | static-website/scripts/optimize-images.js:71-104 | the output directory after processing every listed file in turn |
| Journeys.EnglishHomeAddress | static-website/src/components/LanguageSwitcher.tsx:24-30 | choosing English on the home page navigates to "/en/", the header's English home link, detected as English |
| Journeys.EnglishHomeRedirected | static-website/src/components/RedirectHandler.tsx:17-21 | "/en/" is cut to "/en", which stays |
| Journeys.EnglishHomeDetectedFrench | static-website/src/App.tsx:34-41 | as written, the English home ends on "/en", renders the home page, and the detection switches the language back to French |
| Journeys.TrailingSlashKeepsLanguage | static-website/src/components/RedirectHandler.tsx:17-21 | cutting a trailing slash keeps the intended language; only "/en/" changes its detection as written |
| Journeys.TableLetters | static-website/src/components/RedirectHandler.tsx:24-70 | every table entry stays in the language of its key |
| Journeys.TableKeepsLanguage | static-website/src/components/RedirectHandler.tsx:24-70 | a table redirect keeps the intended language |
| Journeys.PatternKeepsLanguage | static-website/src/components/RedirectHandler.tsx:80-144 | a pattern redirect keeps the intended language |
| Journeys.RuleKeepsLanguage | static-website/src/components/RedirectHandler.tsx:80-144 | a rule, French or English, keeps the intended language |
| Journeys.PairedKeepLanguage | static-website/src/components/RedirectHandler.tsx:80-144 | every rule of a paired list keeps the intended language |
| Journeys.GuardsKeepLanguage | static-website/src/components/RedirectHandler.tsx:80-144 | the site's pattern rules keep the intended language |
| Journeys.RedirectKeepsLanguage | static-website/src/components/RedirectHandler.tsx:16-144 | every redirect keeps the intended language |
| Journeys.SettleKeepsLanguage | static-website/src/components/RedirectHandler.tsx:12-146 | the whole chain of redirects keeps the intended language |
| Journeys.SwitchToEnglishStays | static-website/src/components/LanguageSwitcher.tsx:24-30 | switching any French page to English comes to rest on an English address under the corrected detection |

## Left out

- The redirect effect's regular expressions are modelled by the prefix and
  tail predicates they stand for, not by a regex engine; they are
  case-sensitive, as written. The router is not: no route sets
  `caseSensitive`, so a path is matched in lower case against the
  lower-case patterns, with the ASCII-only `toLowerCase` below.
- React's scheduling is not modelled: effects are functions of the location.
  The order of the two effects is taken as redirect first, then detection,
  as the component tree places them.
- Network requests (`fetch`) are given as their outcome (a body, a failed
  answer or a thrown error). JSON decoding and serialisation are given as
  values or as a `serialise` parameter.
- `preloadMarkdownContent` starts its loads together. The model lets every
  load check the cache as it was before the preload and then stores the
  results in slug order; the interleaving of the stores is not modelled,
  which changes nothing since no two slugs share a key within one language.
- `getRandomTestimonials` depends on `Math.random`; `getRecentBlogPosts`
  sorts by date through `Date`; `formatDate` uses the locale's date
  formatting. All three are left out.
- `getAllTags` sorts with JavaScript's default order on UTF-16 code units.
  The model uses Dafny's character order, which is the same below U+10000.
- Lookups in plain objects (`redirectMap`, `imageOptimizations`, the category
  labels) would also find inherited keys such as "constructor". Only the
  declared keys are modelled.
- `toLowerCase` is modelled on ASCII letters only. Trimming follows
  JavaScript's and Python's whitespace sets as far as `Text` lists them.
- The base URL of the canonical hook (`window.location.origin` or the fixed
  site address) is a parameter.
- Other pages, the navigation menus' contents and the i18n resources are
  not part of this model.
- Directory walks, path joining, directory creation, console output and the
  scripts' `try`/`catch` around file I/O are left out. The list of HTML
  files (`findHtmlFiles`) is a parameter.
- The clock's timestamp in the contact handler and the outcome of the
  notification publication are parameters. An exception while publishing
  is the `published == false` case.
- `generateImageVariants` only prints what it would produce and is left out.
  `optimize-critical.js` is not part of this model.
- OptimizeImages.OptimizeHtml: the rewritten page is stated through the
  generic global replace and its lemmas (`FirstMatchRewritten`,
  `HeroKeepsAttributes`), not by a lemma naming the final text of a page.
- PrerenderAdvanced.HeadInsertions: proved for inserted texts that hold no
  "</head>" and start a tag. The hints are shown to be such
  (`HintsTextSafe`); the serialised structured data is a premise, since
  the serialiser is a parameter.

## Findings

| source | as written | input that shows it | evidently intended | confidence | as-written member | corrected member |
|---|---|---|---|---|---|---|
| static-website/src/App.tsx:35-36 with static-website/src/components/RedirectHandler.tsx:17-21 | the language is English only for paths starting "/en/", while the redirect effect cuts "/en/" to "/en" | choosing English on "/": the menu navigates to "/en/", the redirect goes to "/en", the home page renders, and the detection switches the language back to French | "/en" is detected as English, like every other English address; every redirect then keeps the language | not executed | Journeys.EnglishHomeDetectedFrench | App.IntendedLanguage |
| static-website/scripts/prerender-advanced.js:23-60 with static-website/scripts/prerender-advanced.js:122-137 | every call of `prerenderRoute` reads `dist/index.html` afresh, and the first route, "/", writes its page there; every later page, French or English, is built from the home page | a built `index.html` whose head has no title element, such as "<head></head>": "/services/index.html" then holds the portrait's preload hint and the organisation's JSON-LD of the home before its own hint and JSON-LD, two JSON-LD blocks in one head | the template is read once, before any page is written, and every page is built from it | not executed | PrerenderAdvanced.HomeHeadCarried | PrerenderAdvanced.PrerenderFromTemplate |
