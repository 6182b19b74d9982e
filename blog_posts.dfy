/** The blog's data (`blogPosts.ts`): one JSON file of posts per language,
    loaded once and kept in a cache keyed by language, the conversion of
    a stored post into the shape the pages use, and the queries the pages
    run over the converted list. */
module BlogPosts {
  import opened Text
  import opened Lists
  import opened Fetching

  /** A post as stored in `/blog/posts-<language>.json`. */
  datatype BlogPostData = BlogPostData(
    id: string, title: string, description: string, date: string,
    category: string, tags: seq<string>, featuredImage: string,
    slug: string, canonicalUrl: Option<string>)

  datatype BlogData = BlogData(posts: seq<BlogPostData>)

  /** A post as the pages use it; `updatedAt` is never filled. */
  datatype BlogPost = BlogPost(
    id: string, slug: string, title: string, excerpt: string, content: string,
    author: string, publishedAt: string, category: string, tags: seq<string>,
    image: Option<string>, readingTime: nat, canonicalUrl: Option<string>)

  // ---------------------------------------------------------------------
  // Reading time

  /** The number of white-space runs in `s`, where `afterSpace` says that
      the text before `s` ended in white space. */
  function RunsAfter(s: string, afterSpace: bool): nat {
    if s == [] then 0
    else (if IsSpace(Js, s[0]) && !afterSpace then 1 else 0) + RunsAfter(s[1..], IsSpace(Js, s[0]))
  }

  /** Whether a text ends in white space, given how the text before it
      ended. */
  function EndsInSpace(s: string, afterSpace: bool): bool {
    if s == [] then afterSpace else IsSpace(Js, s[|s| - 1])
  }

  /** `content.split(/\s+/).length`: every run of white space separates
      two pieces, so a leading or trailing run adds an empty piece and the
      empty text is one piece. */
  function WordCount(content: string): (n: nat)
    ensures n >= 1
  {
    RunsAfter(content, false) + 1
  }

  /** `calculateReadingTime`: the word count divided by 200 words a
      minute, rounded up. */
  function ReadingTime(content: string): (minutes: nat)
    ensures minutes >= 1
    ensures (minutes - 1) * 200 < WordCount(content) <= minutes * 200
  {
    (WordCount(content) + 199) / 200
  }

  lemma {:induction false} RunsAfterConcat(a: string, b: string, afterSpace: bool)
    ensures RunsAfter(a + b, afterSpace) == RunsAfter(a, afterSpace) + RunsAfter(b, EndsInSpace(a, afterSpace))
  {
    if a == [] {
      assert a + b == b;
    } else {
      assert (a + b)[0] == a[0] && (a + b)[1..] == a[1..] + b;
      RunsAfterConcat(a[1..], b, IsSpace(Js, a[0]));
      if |a| > 1 {
        assert a[1..][|a| - 2] == a[|a| - 1];
      }
    }
  }

  /** A word: non-empty, without white space. */
  predicate Word(w: string) {
    w != [] && forall i :: 0 <= i < |w| ==> !IsSpace(Js, w[i])
  }

  lemma {:induction false} WordHasNoRuns(w: string, afterSpace: bool)
    requires forall i :: 0 <= i < |w| ==> !IsSpace(Js, w[i])
    ensures RunsAfter(w, afterSpace) == 0
  {
    if w != [] {
      WordHasNoRuns(w[1..], false);
    }
  }

  lemma JoinStartsWithFirst(words: seq<string>)
    requires |words| > 0 && words[0] != []
    ensures Join(words, " ") != [] && Join(words, " ")[0] == words[0][0]
  {
  }

  /** Words separated by single spaces count as themselves: a text of
      `n` words reads in `ceil(n / 200)` minutes. */
  lemma {:induction false} WordsCounted(words: seq<string>)
    requires |words| > 0 && forall i :: 0 <= i < |words| ==> Word(words[i])
    ensures WordCount(Join(words, " ")) == |words|
  {
    var w := words[0];
    WordHasNoRuns(w, false);
    if |words| > 1 {
      var rest := words[1..];
      var j := Join(rest, " ");
      WordsCounted(rest);
      JoinStartsWithFirst(rest);
      assert w + " " + j == w + (" " + j);
      RunsAfterConcat(w, " " + j, false);
      assert (" " + j)[1..] == j;
      assert RunsAfter(j, true) == RunsAfter(j[1..], false) == RunsAfter(j, false);
    }
  }

  /** White space around the words counts as extra pieces: one leading
      space adds a word. */
  lemma LeadingSpaceCounted(words: seq<string>)
    requires |words| > 0 && forall i :: 0 <= i < |words| ==> Word(words[i])
    ensures WordCount(" " + Join(words, " ")) == |words| + 1
  {
    var j := Join(words, " ");
    WordsCounted(words);
    JoinStartsWithFirst(words);
    assert (" " + j)[1..] == j;
    assert RunsAfter(j, true) == RunsAfter(j[1..], false) == RunsAfter(j, false);
  }

  // ---------------------------------------------------------------------
  // Conversion

  /** `convertToBlogPost`. */
  function ConvertToBlogPost(d: BlogPostData): (p: BlogPost)
    ensures p.author == "TerraCloud" && p.content == "" && p.readingTime == 5
    ensures p.image == None <==> d.featuredImage == ""
  {
    BlogPost(d.id, d.slug, d.title, d.description, "", "TerraCloud", d.date,
             d.category, d.tags, if d.featuredImage == "" then None else Some(d.featuredImage),
             5, d.canonicalUrl)
  }

  /** The stored post a converted post came from. */
  function StoredPost(p: BlogPost): BlogPostData {
    BlogPostData(p.id, p.title, p.excerpt, p.publishedAt, p.category, p.tags,
                 match p.image case None => "" case Some(i) => i,
                 p.slug, p.canonicalUrl)
  }

  /** Conversion loses nothing of a stored post: its description is the
      excerpt, its date the publication date, an absent image the empty
      featured image. */
  lemma ConvertRoundTrip(d: BlogPostData)
    ensures StoredPost(ConvertToBlogPost(d)) == d
  {
  }

  /** `getBlogPosts` on the data of a language. */
  function Converted(data: BlogData): (posts: seq<BlogPost>)
    ensures |posts| == |data.posts|
    ensures forall i :: 0 <= i < |posts| ==> StoredPost(posts[i]) == data.posts[i]
  {
    Map(data.posts, ConvertToBlogPost)
  }

  // ---------------------------------------------------------------------
  // The cache

  /** The file of the posts of a language. */
  function PostsAddress(language: string): string {
    "/blog/posts-" + language + ".json"
  }

  /** The module's `blogDataCache`. */
  class BlogDataCache {
    var entries: map<string, BlogData>

    constructor ()
      ensures entries == map[]
    {
      entries := map[];
    }

    /** `loadBlogData(language)`: a cached language is answered from the
        cache without a request (`fetched` is false); otherwise the file
        is requested, stored when it loads, and a failure gives no posts
        and stores nothing. */
    method LoadBlogData(language: string, fetch: string -> Outcome<BlogData>) returns (data: BlogData, fetched: bool)
      modifies this
      ensures fetched <==> language !in old(entries)
      ensures !fetched ==> data == old(entries)[language] && entries == old(entries)
      ensures fetched && fetch(PostsAddress(language)).Loaded? ==>
        data == fetch(PostsAddress(language)).body && entries == old(entries)[language := data]
      ensures fetched && !fetch(PostsAddress(language)).Loaded? ==>
        data == BlogData([]) && entries == old(entries)
    {
      if language in entries {
        return entries[language], false;
      }
      match fetch(PostsAddress(language))
      case Loaded(body) =>
        entries := entries[language := body];
        return body, true;
      case _ =>
        return BlogData([]), true;
    }

    /** `getBlogPosts(language)`. */
    method GetBlogPosts(language: string, fetch: string -> Outcome<BlogData>) returns (posts: seq<BlogPost>)
      modifies this
      ensures language in old(entries) ==> posts == Converted(old(entries)[language]) && entries == old(entries)
      ensures language !in old(entries) && fetch(PostsAddress(language)).Loaded? ==>
        posts == Converted(fetch(PostsAddress(language)).body)
        && entries == old(entries)[language := fetch(PostsAddress(language)).body]
      ensures language !in old(entries) && !fetch(PostsAddress(language)).Loaded? ==>
        posts == [] && entries == old(entries)
    {
      var data, _ := LoadBlogData(language, fetch);
      posts := Converted(data);
    }
  }

  // ---------------------------------------------------------------------
  // Queries over the posts of a language

  /** `getPostBySlug`: the first post with the slug. */
  function PostBySlug(posts: seq<BlogPost>, slug: string): (r: Option<BlogPost>)
    ensures r.None? <==> forall i :: 0 <= i < |posts| ==> posts[i].slug != slug
    ensures r.Some? ==> exists i :: 0 <= i < |posts| && posts[i] == r.value && r.value.slug == slug
                          && forall j :: 0 <= j < i ==> posts[j].slug != slug
  {
    Find(posts, (p: BlogPost) => p.slug == slug)
  }

  /** `posts.map(post => post.category)` */
  function CategoryList(posts: seq<BlogPost>): seq<string> {
    Map(posts, (p: BlogPost) => p.category)
  }

  /** `getAllCategories`: each category of the posts once, in the order
      of its first post. */
  function AllCategories(posts: seq<BlogPost>): (r: seq<string>)
    ensures NoDuplicates(r)
    ensures forall c :: c in r <==> exists i :: 0 <= i < |posts| && posts[i].category == c
    ensures forall i :: 0 <= i < |r| ==> r[i] in CategoryList(posts)
    ensures forall i, j :: 0 <= i < j < |r| ==> FirstIndex(CategoryList(posts), r[i]) < FirstIndex(CategoryList(posts), r[j])
  {
    var cats := CategoryList(posts);
    assert forall i :: 0 <= i < |posts| ==> cats[i] == posts[i].category;
    Distinct(cats)
  }

  /** `posts.flatMap(post => post.tags)` */
  function TagList(posts: seq<BlogPost>): seq<string> {
    FlatMap(posts, (p: BlogPost) => p.tags)
  }

  /** The tags of the list are the tags of the posts. */
  lemma TagListMembers(posts: seq<BlogPost>, t: string)
    ensures t in TagList(posts) <==> exists i :: 0 <= i < |posts| && t in posts[i].tags
  {
    var tags := TagList(posts);
    if t in tags {
      FlatMapMembers(posts, (p: BlogPost) => p.tags, t);
    }
    if exists i :: 0 <= i < |posts| && t in posts[i].tags {
      var i :| 0 <= i < |posts| && t in posts[i].tags;
      var k :| 0 <= k < |posts[i].tags| && posts[i].tags[k] == t;
      var f := (p: BlogPost) => p.tags;
      assert f(posts[i])[k] in FlatMap(posts, f);
    }
  }

  /** `getAllTags`: every tag of every post once, in ascending order. */
  function AllTags(posts: seq<BlogPost>): (r: seq<string>)
    ensures forall i, j :: 0 <= i < j < |r| ==> LexLess(r[i], r[j])
    ensures forall t :: t in r <==> exists i :: 0 <= i < |posts| && t in posts[i].tags
  {
    var d := Distinct(TagList(posts));
    SortDistinctStrict(d);
    var r := Sort(d);
    forall t ensures t in r <==> exists i :: 0 <= i < |posts| && t in posts[i].tags {
      assert t in r <==> t in multiset(r);
      assert t in d <==> t in multiset(d);
      TagListMembers(posts, t);
    }
    r
  }

  /** `getBlogPostsByCategory`: the posts of the category, in order. */
  function PostsByCategory(posts: seq<BlogPost>, category: string): (r: seq<BlogPost>)
    ensures Subsequence(r, posts)
    ensures forall p :: p in r <==> p in posts && p.category == category
  {
    var keep := (p: BlogPost) => p.category == category;
    FilterSubsequence(posts, keep);
    FilterMembers(posts, keep);
    Filter(posts, keep)
  }

  /** `getBlogPostsByTag`: the posts carrying the tag, in order. */
  function PostsByTag(posts: seq<BlogPost>, tag: string): (r: seq<BlogPost>)
    ensures Subsequence(r, posts)
    ensures forall p :: p in r <==> p in posts && tag in p.tags
  {
    var keep := (p: BlogPost) => tag in p.tags;
    FilterSubsequence(posts, keep);
    FilterMembers(posts, keep);
    Filter(posts, keep)
  }

  /** Every post shows up under its category and under each of its tags,
      and every category and tag listed has at least one post. */
  lemma ListedMeansFound(posts: seq<BlogPost>, c: string, t: string)
    ensures c in AllCategories(posts) <==> PostsByCategory(posts, c) != []
    ensures t in AllTags(posts) <==> PostsByTag(posts, t) != []
  {
    var byC := PostsByCategory(posts, c);
    if c in AllCategories(posts) {
      var i :| 0 <= i < |posts| && posts[i].category == c;
      assert posts[i] in byC;
    }
    if byC != [] {
      assert byC[0] in byC;
    }
    var byT := PostsByTag(posts, t);
    if t in AllTags(posts) {
      var i :| 0 <= i < |posts| && t in posts[i].tags;
      assert posts[i] in byT;
    }
    if byT != [] {
      assert byT[0] in byT;
    }
  }
}
