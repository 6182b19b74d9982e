/** The canonical and alternate addresses of a page (`useCanonicalUrl`):
    French addresses are canonical, and the English twin is announced as
    the `en` alternate. The base URL (an environment variable or the
    window's origin) is a parameter. */
module Canonical {
  import opened Text
  import opened Header

  datatype Alternates = Alternates(fr: string, en: string)

  /** What the hook returns. */
  datatype CanonicalUrls = CanonicalUrls(canonical: string, alternates: Alternates, currentLang: string)

  /** A custom canonical takes effect when it is given and not empty. */
  predicate Given(custom: Option<string>) {
    custom.Some? && custom.value != ""
  }

  /** `getCanonicalPath`: the French path of a page. A path under "/en/"
      loses its first "/en" (which is the leading one), "/en" is the French
      home, and every other path, "/enfoo" included, is kept. */
  function CanonicalPath(pathname: string): (r: string)
    ensures StartsWith(pathname, "/en/") ==> r == pathname[3..]
    ensures pathname == "/en" ==> r == "/"
    ensures !StartsWith(pathname, "/en/") && pathname != "/en" ==> r == pathname
  {
    if StartsWith(pathname, "/en/") then
      ReplaceLeading(pathname, "/en", "");
      assert "" + pathname[3..] == pathname[3..];
      ReplaceFirst(pathname, "/en", "")
    else if pathname == "/en" then "/"
    else pathname
  }

  /** The hook for the location `pathname`, the optional `customCanonical`
      and the current language. */
  function UseCanonicalUrl(baseUrl: string, pathname: string, custom: Option<string>, language: string): (r: CanonicalUrls)
    ensures r.currentLang == language
    ensures r.alternates.fr == r.canonical
    ensures Given(custom) ==> r.alternates.en == r.canonical
    ensures Given(custom) && StartsWith(custom.value, "http") ==> r.canonical == custom.value
    ensures Given(custom) && !StartsWith(custom.value, "http") ==> r.canonical == baseUrl + custom.value
  {
    if Given(custom) then
      var url := if StartsWith(custom.value, "http") then custom.value else baseUrl + custom.value;
      CanonicalUrls(url, Alternates(url, url), language)
    else
      var canonicalPath := CanonicalPath(pathname);
      var url := baseUrl + (if canonicalPath == "/" then "" else canonicalPath);
      var en := if canonicalPath == "/" then baseUrl + "/en/" else baseUrl + "/en" + canonicalPath;
      CanonicalUrls(url, Alternates(url, en), language)
  }

  /** Round trip: the canonical path of the English address of a French
      path is the French path. */
  lemma CanonicalRoundTrip(p: string)
    requires StartsWith(p, "/")
    ensures CanonicalPath("/en" + p) == p
  {
    var e := "/en" + p;
    assert e[..4] == "/en" + p[..1];
    assert e[3..] == p;
  }

  /** A French page other than "/en" is its own canonical path, in whichever
      language the header links to it. */
  lemma CanonicalOfLink(lang: string, p: string)
    requires StartsWith(p, "/") && !StartsWith(p, "/en/") && p != "/en"
    ensures CanonicalPath(CreateUrl(lang, p)) == p
  {
    CreateUrlPrefixes(lang, p);
    if lang == "en" {
      CanonicalRoundTrip(p);
    }
  }

  /** Without a custom canonical, the `en` alternate is the English address
      of the canonical page, and the canonical address is the French one,
      with the home at the bare base URL. */
  lemma AlternatesAreLinks(baseUrl: string, pathname: string, language: string)
    ensures var r := UseCanonicalUrl(baseUrl, pathname, None, language);
      var p := CanonicalPath(pathname);
      && r.alternates.en == baseUrl + CreateUrl("en", p)
      && r.canonical == (if p == "/" then baseUrl else baseUrl + CreateUrl("fr", p))
  {
    var p := CanonicalPath(pathname);
    assert baseUrl + "" == baseUrl;
    assert baseUrl + "/en" + p == baseUrl + ("/en" + p);
  }

  /** The two language versions of a French page announce the same
      canonical and alternate addresses. */
  lemma LanguagesAgree(baseUrl: string, p: string, language: string)
    requires StartsWith(p, "/") && !StartsWith(p, "/en/") && p != "/en"
    ensures UseCanonicalUrl(baseUrl, CreateUrl("en", p), None, language)
         == UseCanonicalUrl(baseUrl, p, None, language)
  {
    CanonicalOfLink("en", p);
    CanonicalOfLink("fr", p);
  }

  /** "/en" and the English home "/en/" are both the French home. */
  lemma EnglishHomes()
    ensures CanonicalPath("/en") == "/" && CanonicalPath("/en/") == "/"
  {
    assert "/en/"[3..] == "/";
    assert StartsWith("/en/", "/en/");
  }
}
