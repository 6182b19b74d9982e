/** Blog post bodies (`markdownLoader`): one Markdown file per post and
    language, loaded with a fallback on the other language, and a cache
    of loaded bodies keyed by `language:slug`. */
module Markdown {
  import opened Text
  import opened Fetching

  /** The file of a post in a language. */
  function MarkdownAddress(slug: string, language: string): string {
    "/blog-posts/" + language + "/" + slug + ".md"
  }

  /** `loadMarkdownContent(slug, language)`: the requested language's
      body, the fallback language's body when the first response is not
      ok, and the empty text when neither loads. */
  function LoadMarkdownContent(fetch: string -> Outcome<string>, slug: string, language: string): (r: string)
    ensures fetch(MarkdownAddress(slug, language)).Loaded? ==> r == fetch(MarkdownAddress(slug, language)).body
    ensures r == "" || fetch(MarkdownAddress(slug, language)) == Loaded(r)
                    || (fetch(MarkdownAddress(slug, language)).NotOk?
                        && fetch(MarkdownAddress(slug, FallbackLanguage(language))) == Loaded(r))
    ensures fetch(MarkdownAddress(slug, language)).NotOk? && fetch(MarkdownAddress(slug, FallbackLanguage(language))).Loaded? ==>
      r == fetch(MarkdownAddress(slug, FallbackLanguage(language))).body
    ensures fetch(MarkdownAddress(slug, language)).Threw? ==> r == ""
    ensures fetch(MarkdownAddress(slug, language)).NotOk? && !fetch(MarkdownAddress(slug, FallbackLanguage(language))).Loaded? ==>
      r == ""
  {
    LoadWithFallback(fetch, (l: string) => MarkdownAddress(slug, l), language, "")
  }

  /** `getCacheKey(slug, language)`: the language, a colon, the slug. */
  function CacheKey(slug: string, language: string): (k: string)
    ensures |k| == |language| + 1 + |slug|
    ensures k[..|language|] == language && k[|language|] == ':' && k[|language| + 1..] == slug
  {
    language + ":" + slug
  }

  /** Keys are distinct for distinct posts as long as languages have no
      colon: the first colon of a key ends its language. */
  lemma CacheKeyInjective(s1: string, l1: string, s2: string, l2: string)
    requires ':' !in l1 && ':' !in l2
    requires CacheKey(s1, l1) == CacheKey(s2, l2)
    ensures s1 == s2 && l1 == l2
  {
    var k := CacheKey(s1, l1);
    assert forall i :: 0 <= i < |l1| ==> k[i] == l1[i] != ':';
    assert forall i :: 0 <= i < |l2| ==> k[i] == l2[i] != ':';
  }

  /** With a colon in the language, two posts share a key. */
  lemma CacheKeyCollides()
    ensures CacheKey("b:c", "a") == CacheKey("c", "a:b")
  {
  }

  /** What `markdownCache.get(key) || null` gives: an absent key and a
      stored empty text both read as nothing. */
  function Lookup(entries: map<string, string>, key: string): (r: Option<string>)
    ensures r.Some? <==> key in entries && entries[key] != ""
    ensures r.Some? ==> r.value == entries[key]
  {
    if key in entries && entries[key] != "" then Some(entries[key]) else None
  }

  /** Storing a text reads it back unless it is empty, and leaves every
      other key as it was. */
  lemma StoreThenLookup(entries: map<string, string>, key: string, content: string, other: string)
    requires other != key
    ensures Lookup(entries[key := content], key) == (if content == "" then None else Some(content))
    ensures Lookup(entries[key := content], other) == Lookup(entries, other)
  {
  }

  /** The cache after preloading `slugs` in `language` into `initial`:
      each slug whose key was absent at the start and whose body loads
      non-empty is added; nothing else changes. Every check sees the cache
      as it was before the preload, since all loads start before any
      completes. */
  function Preloaded(initial: map<string, string>, slugs: seq<string>, language: string,
                     fetch: string -> Outcome<string>): (m: map<string, string>)
    ensures forall k :: k in initial ==> k in m && m[k] == initial[k]
    ensures forall i :: 0 <= i < |slugs| && CacheKey(slugs[i], language) !in initial
                          && LoadMarkdownContent(fetch, slugs[i], language) != "" ==>
              CacheKey(slugs[i], language) in m
              && m[CacheKey(slugs[i], language)] == LoadMarkdownContent(fetch, slugs[i], language)
    ensures forall k :: k in m && k !in initial ==>
              exists i :: 0 <= i < |slugs| && k == CacheKey(slugs[i], language)
                          && m[k] == LoadMarkdownContent(fetch, slugs[i], language) && m[k] != ""
    decreases |slugs|
  {
    if slugs == [] then initial
    else
      var before := Preloaded(initial, slugs[..|slugs| - 1], language, fetch);
      var slug := slugs[|slugs| - 1];
      var key := CacheKey(slug, language);
      var content := LoadMarkdownContent(fetch, slug, language);
      assert forall i :: 0 <= i < |slugs| - 1 ==> slugs[..|slugs| - 1][i] == slugs[i];
      if key !in initial && content != "" then
        forall i | 0 <= i < |slugs| - 1 && CacheKey(slugs[i], language) == key
          ensures LoadMarkdownContent(fetch, slugs[i], language) == content
        {
          CacheKeyPerLanguage(slugs[i], slug, language);
        }
        before[key := content]
      else before
  }

  /** Within one language, keys are distinct for distinct slugs. */
  lemma CacheKeyPerLanguage(s1: string, s2: string, language: string)
    requires CacheKey(s1, language) == CacheKey(s2, language)
    ensures s1 == s2
  {
    assert s1 == CacheKey(s1, language)[|language| + 1..];
  }

  /** The module's `markdownCache`. */
  class MarkdownCache {
    var entries: map<string, string>

    constructor ()
      ensures entries == map[]
    {
      entries := map[];
    }

    /** `getCachedMarkdownContent(slug, language)`, with `None` for `null`. */
    function GetCached(slug: string, language: string): (r: Option<string>)
      reads this
      ensures r.Some? <==> CacheKey(slug, language) in entries && entries[CacheKey(slug, language)] != ""
      ensures r.Some? ==> r.value == entries[CacheKey(slug, language)]
    {
      Lookup(entries, CacheKey(slug, language))
    }

    /** `setCachedMarkdownContent(slug, content, language)`: the text is
        read back unless it is empty, and every other post reads as
        before. */
    method SetCached(slug: string, content: string, language: string)
      modifies this
      ensures entries == old(entries)[CacheKey(slug, language) := content]
      ensures GetCached(slug, language) == (if content == "" then None else Some(content))
      ensures forall s, l :: CacheKey(s, l) != CacheKey(slug, language) ==> GetCached(s, l) == old(GetCached(s, l))
    {
      entries := entries[CacheKey(slug, language) := content];
    }

    /** `preloadMarkdownContent(slugs, language)`. */
    method Preload(slugs: seq<string>, language: string, fetch: string -> Outcome<string>)
      modifies this
      ensures entries == Preloaded(old(entries), slugs, language, fetch)
    {
      var initial := entries;
      var i := 0;
      while i < |slugs|
        invariant 0 <= i <= |slugs|
        invariant entries == Preloaded(initial, slugs[..i], language, fetch)
      {
        var key := CacheKey(slugs[i], language);
        if key !in initial {
          var content := LoadMarkdownContent(fetch, slugs[i], language);
          if content != "" {
            entries := entries[key := content];
          }
        }
        assert slugs[..i + 1][..i] == slugs[..i];
        i := i + 1;
      }
      assert slugs[..|slugs|] == slugs;
    }
  }
}
