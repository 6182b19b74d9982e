/** The language menu (`LanguageSwitcher`): `switchLanguage(newLang)` may
    navigate to the same page in the other language, then always changes
    the language. Both effects are returned as a value. */
module LanguageSwitcher {
  import opened Text
  import opened Header
  import opened Canonical

  /** The navigation `switchLanguage` issues, if any, and the language it
      sets. */
  datatype Switch = Switch(navigateTo: Option<string>, language: string)

  /** An English address: "/en" itself or a path under "/en/". */
  predicate EnglishAddress(p: string) {
    StartsWith(p, "/en/") || p == "/en"
  }

  /** `switchLanguage(newLang)` on the location `currentPath`. */
  function SwitchLanguage(currentPath: string, newLang: string): (r: Switch)
    ensures r.language == newLang
    ensures newLang != "fr" && newLang != "en" ==> r.navigateTo == None
  {
    var target :=
      if newLang == "fr" then
        if StartsWith(currentPath, "/en/") then Some(ReplaceFirst(currentPath, "/en", ""))
        else if currentPath == "/en" then Some("/")
        else None
      else if newLang == "en" then
        if !StartsWith(currentPath, "/en") then
          Some(if currentPath == "/" then "/en/" else "/en" + currentPath)
        else None
      else None;
    Switch(target, newLang)
  }

  /** Switching to French navigates exactly from an English address, and
      then to its canonical (French) path. */
  lemma ToFrench(p: string)
    ensures SwitchLanguage(p, "fr").navigateTo.Some? <==> EnglishAddress(p)
    ensures EnglishAddress(p) ==> SwitchLanguage(p, "fr").navigateTo.value == CanonicalPath(p)
  {
    if StartsWith(p, "/en/") {
      ReplaceLeading(p, "/en", "");
      assert "" + p[3..] == p[3..];
    }
  }

  /** Switching to English navigates exactly from a path that does not start
      with "/en", and then to the address the header uses for that page.
      So the French page "/enfoo" has no English switch. */
  lemma ToEnglish(p: string)
    ensures SwitchLanguage(p, "en").navigateTo.Some? <==> !StartsWith(p, "/en")
    ensures !StartsWith(p, "/en") ==> SwitchLanguage(p, "en").navigateTo.value == CreateUrl("en", p)
  {
  }

  /** Round trip: from a French path, switching to English and back returns
      to the path. */
  lemma SwitchRoundTrip(p: string)
    requires StartsWith(p, "/") && !StartsWith(p, "/en")
    ensures SwitchLanguage(p, "en").navigateTo.Some?
    ensures SwitchLanguage(SwitchLanguage(p, "en").navigateTo.value, "fr").navigateTo == Some(p)
  {
    ToEnglish(p);
    CreateUrlPrefixes("en", p);
    var e := "/en" + p;
    assert e[..4] == "/en" + p[..1];
    ToFrench(e);
    CanonicalRoundTrip(p);
  }

  /** The other round trip: from an English path under "/en/", switching to
      French and back returns to it, unless its French path itself starts
      with "/en" ("/en/enfoo" ends on "/enfoo"). */
  lemma ReverseRoundTrip(e: string)
    requires StartsWith(e, "/en/")
    ensures var f := SwitchLanguage(e, "fr").navigateTo;
      f == Some(e[3..])
      && (SwitchLanguage(f.value, "en").navigateTo == Some(e) <==> !StartsWith(e[3..], "/en"))
  {
    ToFrench(e);
    var p := e[3..];
    ToEnglish(p);
    if !StartsWith(p, "/en") {
      assert p[..1] == e[3..4] == "/";
      CreateUrlPrefixes("en", p);
      assert "/en" + p == e[..3] + e[3..] == e;
    }
  }

  /** A language other than French and English changes the language and
      nothing else. */
  lemma OtherLanguageStays(p: string, newLang: string)
    requires newLang != "fr" && newLang != "en"
    ensures SwitchLanguage(p, newLang) == Switch(None, newLang)
  {
  }
}
