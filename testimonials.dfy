/** Client testimonials (`testimonialsLoader`): a JSON list per language,
    loaded with a fallback on the other language, and two queries over a
    loaded list. */
module Testimonials {
  import opened Text
  import opened Lists
  import opened Fetching

  datatype Testimonial = Testimonial(
    id: string, quote: string, author: string, company: string,
    avatar: string, sector: string, project: string)

  /** The file of the testimonials of a language. */
  function TestimonialsAddress(language: string): string {
    "/testimonials/" + language + "/testimonials.json"
  }

  /** Each language has a file of its own, so the fallback reads another
      file than the first request. */
  lemma AddressesDiffer(language: string)
    ensures TestimonialsAddress(FallbackLanguage(language)) != TestimonialsAddress(language)
  {
    if TestimonialsAddress(FallbackLanguage(language)) == TestimonialsAddress(language) {
      MiddleDetermined("/testimonials/", FallbackLanguage(language), language, "/testimonials.json");
    }
  }

  /** `loadTestimonials(language)`: the requested language's list, the
      fallback language's list when the first response is not ok, and no
      testimonials when neither loads. */
  function LoadTestimonials(fetch: string -> Outcome<seq<Testimonial>>, language: string): (r: seq<Testimonial>)
    ensures fetch(TestimonialsAddress(language)).Loaded? ==> r == fetch(TestimonialsAddress(language)).body
    ensures r == [] || fetch(TestimonialsAddress(language)) == Loaded(r)
                    || (fetch(TestimonialsAddress(language)).NotOk?
                        && fetch(TestimonialsAddress(FallbackLanguage(language))) == Loaded(r))
    ensures fetch(TestimonialsAddress(language)).NotOk? && fetch(TestimonialsAddress(FallbackLanguage(language))).Loaded? ==>
      r == fetch(TestimonialsAddress(FallbackLanguage(language))).body
    ensures fetch(TestimonialsAddress(language)).Threw? ==> r == []
    ensures fetch(TestimonialsAddress(language)).NotOk? && !fetch(TestimonialsAddress(FallbackLanguage(language))).Loaded? ==>
      r == []
  {
    LoadWithFallback(fetch, TestimonialsAddress, language, [])
  }

  /** `loadTestimonialsLegacy`: the French list, or the English one when
      there is no French file. */
  function LoadTestimonialsLegacy(fetch: string -> Outcome<seq<Testimonial>>): (r: seq<Testimonial>)
    ensures fetch(TestimonialsAddress("fr")).NotOk? && fetch(TestimonialsAddress("en")).Loaded? ==>
      r == fetch(TestimonialsAddress("en")).body
  {
    LoadTestimonials(fetch, "fr")
  }

  /** `getTestimonialById`: the first testimonial with the id. */
  function TestimonialById(testimonials: seq<Testimonial>, id: string): (r: Option<Testimonial>)
    ensures r.None? <==> forall i :: 0 <= i < |testimonials| ==> testimonials[i].id != id
    ensures r.Some? ==> exists i :: 0 <= i < |testimonials| && testimonials[i] == r.value && r.value.id == id
                          && forall j :: 0 <= j < i ==> testimonials[j].id != id
  {
    Find(testimonials, (t: Testimonial) => t.id == id)
  }

  /** `getTestimonialsBySector`: the testimonials of the sector, compared
      without regard to case, in order. */
  function TestimonialsBySector(testimonials: seq<Testimonial>, sector: string): (r: seq<Testimonial>)
    ensures Subsequence(r, testimonials)
    ensures forall t :: t in r <==> t in testimonials && ToLower(t.sector) == ToLower(sector)
  {
    var keep := (t: Testimonial) => ToLower(t.sector) == ToLower(sector);
    FilterSubsequence(testimonials, keep);
    FilterMembers(testimonials, keep);
    Filter(testimonials, keep)
  }

  /** Sector names that differ only in case select the same testimonials;
      in particular a sector and its lower-case form do. */
  lemma SectorIgnoresCase(testimonials: seq<Testimonial>, a: string, b: string)
    requires ToLower(a) == ToLower(b)
    ensures TestimonialsBySector(testimonials, a) == TestimonialsBySector(testimonials, b)
    ensures TestimonialsBySector(testimonials, ToLower(a)) == TestimonialsBySector(testimonials, a)
  {
    FilterAgrees(testimonials, (t: Testimonial) => ToLower(t.sector) == ToLower(a),
                               (t: Testimonial) => ToLower(t.sector) == ToLower(b));
    ToLowerIdempotent(a);
    FilterAgrees(testimonials, (t: Testimonial) => ToLower(t.sector) == ToLower(ToLower(a)),
                               (t: Testimonial) => ToLower(t.sector) == ToLower(a));
  }

  /** A testimonial found by its id is in its own sector's list. */
  lemma FoundInItsSector(testimonials: seq<Testimonial>, id: string)
    requires TestimonialById(testimonials, id).Some?
    ensures TestimonialById(testimonials, id).value in
      TestimonialsBySector(testimonials, TestimonialById(testimonials, id).value.sector)
  {
  }
}
