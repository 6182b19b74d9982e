/** The language-aware links of the site header (`Header`): `createUrl`
    turns a French path into the address of the same page in the current
    language, and `isActive` decides which menu entry is highlighted. */
module Header {
  import opened Text

  /** `createUrl`: the address of the French page `path` in the language
      `lang`; English pages live under "/en", the English home at "/en/". */
  function CreateUrl(lang: string, path: string): string {
    if lang == "en" then (if path == "/" then "/en/" else "/en" + path) else path
  }

  /** The special case for "/" gives what the general rule would: every
      English address is the French one with "/en" in front. */
  lemma CreateUrlPrefixes(lang: string, path: string)
    ensures lang == "en" ==> CreateUrl(lang, path) == "/en" + path
    ensures lang != "en" ==> CreateUrl(lang, path) == path
  {
    if lang == "en" && path == "/" {
      assert "/en" + path == "/en/";
    }
  }

  /** The current path as `isActive` compares it: "/en" is cut from a path
      under "/en/" (the first occurrence of "/en" is the leading one), and an
      empty result would become "/". */
  function NormalizedPath(currentPath: string): (r: string)
    ensures StartsWith(currentPath, "/en/") ==> r == currentPath[3..]
    ensures !StartsWith(currentPath, "/en/") && currentPath != "" ==> r == currentPath
    ensures r != ""
  {
    var normalized :=
      if StartsWith(currentPath, "/en/") then
        ReplaceLeading(currentPath, "/en", "");
        assert "" + currentPath[3..] == currentPath[3..];
        ReplaceFirst(currentPath, "/en", "")
      else currentPath;
    if normalized == "" then "/" else normalized
  }

  /** `isActive(path)` on the location `currentPath`: the normalised path
      is `path` itself or lies under `path + "/"`. */
  predicate IsActive(currentPath: string, path: string) {
    var n := NormalizedPath(currentPath);
    n == path || StartsWith(n, path + "/")
  }

  /** The highlight of the Home link. */
  predicate HomeHighlighted(lang: string, currentPath: string) {
    IsActive(currentPath, "/") && currentPath == CreateUrl(lang, "/")
  }

  /** A French path is highlighted the same way on its English address:
      the menu does not depend on the language. */
  lemma EnglishLinkActive(p: string, q: string)
    requires StartsWith(p, "/") && !StartsWith(p, "/en/")
    ensures IsActive(CreateUrl("en", p), q) == IsActive(p, q)
  {
    CreateUrlPrefixes("en", p);
    var e := "/en" + p;
    assert e[..4] == "/en" + p[..1];
    assert e[3..] == p;
  }

  /** The Home link is highlighted exactly on the home address of the
      current language; the `isActive('/')` half of the test never decides. */
  lemma HomeHighlightExact(lang: string, currentPath: string)
    ensures HomeHighlighted(lang, currentPath) <==> currentPath == CreateUrl(lang, "/")
  {
    if currentPath == CreateUrl(lang, "/") && lang == "en" {
      assert currentPath == "/en/" && currentPath[3..] == "/";
      assert StartsWith(currentPath, "/en/");
    }
  }

  /** A highlighted sub-page highlights its section. */
  lemma SectionActive(currentPath: string, p: string, s: string)
    requires IsActive(currentPath, p + "/" + s)
    ensures IsActive(currentPath, p)
  {
    var n := NormalizedPath(currentPath);
    StartsWithTransitive(n, p + "/" + s, p + "/");
    if StartsWith(n, p + "/" + s + "/") {
      StartsWithTransitive(n, p + "/" + s + "/", p + "/" + s);
    }
  }

  /** The section test stops at a segment boundary: "/services/devops"
      highlights "/services" in both languages, "/servicesX" does not. */
  lemma SegmentBoundary()
    ensures IsActive("/services/devops", "/services")
    ensures IsActive("/en/services/devops", "/services")
    ensures !IsActive("/servicesX", "/services")
  {
    var sub, en, x := "/services/devops", "/en/services/devops", "/servicesX";
    assert StartsWith(sub, "/services" + "/") by {
      assert sub[..10] == "/services/";
    }
    assert StartsWith(en, "/en/") by { assert en[..4] == "/en/"; }
    assert en[3..] == sub;
    assert !StartsWith(x, "/en/") by { NotStartsWithAt(x, "/en/", 1); }
    assert !StartsWith(x, "/services" + "/") by {
      assert "/services" + "/" == "/services/";
      NotStartsWithAt(x, "/services/", 9);
    }
  }

  /** On "/en", which is not cut, no menu entry is highlighted: every
      link's French path starts with "/" and differs from "/en". */
  lemma EnglishRootHighlightsNothing(q: string)
    requires StartsWith(q, "/") && q != "/en"
    ensures !IsActive("/en", q)
  {
    var n := NormalizedPath("/en");
    assert n == "/en";
    assert !StartsWith(n, q + "/") by {
      if |q| + 1 <= |n| {
        assert (q + "/")[|q|] == '/';
        NotStartsWithAt(n, q + "/", |q|);
      }
    }
  }
}
