/** Loading a file of the site over `fetch`. A request is not made here:
    `fetch` is a parameter that gives, for each address, what reading the
    response comes to. The testimonials and the Markdown posts are both
    loaded in the requested language first and then in the other one. */
module Fetching {
  /** The outcome of a `fetch` and of reading its body: the body of an ok
      response, a response that is not ok, or an error thrown on the way
      (a network failure, a body that does not parse). */
  datatype Outcome<T> = Loaded(body: T) | NotOk | Threw

  /** The language tried when the requested one has no file: English for
      French, French for every other language. */
  function FallbackLanguage(language: string): (r: string)
    ensures r == "en" <==> language == "fr"
    ensures r == "fr" <==> language != "fr"
    ensures r != language
  {
    if language == "fr" then "en" else "fr"
  }

  /** French and English fall back on each other, and only they do: any
      other language falls back on French, and French on English. */
  lemma FallbackSwaps(language: string)
    ensures FallbackLanguage(FallbackLanguage(language)) == language <==> language == "fr" || language == "en"
  {
    if language != "fr" && language != "en" {
      assert FallbackLanguage(language) == "fr";
    }
  }

  /** The loading sequence: the file of `language` when its response is ok,
      otherwise the file of the fallback language when that response is
      ok, and `empty` when neither is or anything throws (a throw on the
      first request stops before the second). */
  function LoadWithFallback<T>(fetch: string -> Outcome<T>, address: string -> string, language: string, empty: T): (r: T)
    ensures fetch(address(language)).Loaded? ==> r == fetch(address(language)).body
    ensures fetch(address(language)).Threw? ==> r == empty
    ensures fetch(address(language)).NotOk? ==>
      r == (if fetch(address(FallbackLanguage(language))).Loaded?
            then fetch(address(FallbackLanguage(language))).body else empty)
  {
    match fetch(address(language))
    case Loaded(body) => body
    case Threw => empty
    case NotOk =>
      match fetch(address(FallbackLanguage(language)))
      case Loaded(body) => body
      case _ => empty
  }

  /** Whatever the responses, the result is the body of one of the two
      files or `empty`: no third language is ever read. */
  lemma LoadReadsTwoFiles<T>(fetch: string -> Outcome<T>, address: string -> string, language: string, empty: T)
    ensures var r := LoadWithFallback(fetch, address, language, empty);
      || r == empty
      || fetch(address(language)) == Loaded(r)
      || fetch(address(FallbackLanguage(language))) == Loaded(r)
  {
  }
}
