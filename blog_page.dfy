/** The blog index page (`Blog`): the list it shows is the loaded posts
    narrowed by a search term, a category and a tag, where "all" selects
    every category or tag. */
module BlogPage {
  import opened Text
  import opened Lists
  import opened BlogPosts

  /** The page's filter state. */
  datatype Filters = Filters(searchTerm: string, selectedCategory: string, selectedTag: string)

  /** The filters the page starts with, and that the reset button restores. */
  const Unfiltered := Filters("", "all", "all")

  /** The search matches the title or the excerpt, ignoring case. */
  predicate MatchesSearch(post: BlogPost, searchTerm: string) {
    Contains(ToLower(post.title), ToLower(searchTerm)) || Contains(ToLower(post.excerpt), ToLower(searchTerm))
  }

  predicate MatchesCategory(post: BlogPost, selectedCategory: string) {
    selectedCategory == "all" || post.category == selectedCategory
  }

  predicate MatchesTag(post: BlogPost, selectedTag: string) {
    selectedTag == "all" || selectedTag in post.tags
  }

  /** The test `filteredPosts` applies to each post. */
  predicate Shown(post: BlogPost, f: Filters) {
    MatchesSearch(post, f.searchTerm) && MatchesCategory(post, f.selectedCategory) && MatchesTag(post, f.selectedTag)
  }

  /** `filteredPosts`: the shown posts, in the order they were loaded. */
  function FilteredPosts(posts: seq<BlogPost>, f: Filters): (r: seq<BlogPost>)
    ensures Subsequence(r, posts)
    ensures forall p :: p in r <==> p in posts && Shown(p, f)
  {
    var keep := (p: BlogPost) => Shown(p, f);
    FilterSubsequence(posts, keep);
    FilterMembers(posts, keep);
    Filter(posts, keep)
  }

  /** The empty term occurs in every text. */
  lemma EmptySearchMatches(post: BlogPost, searchTerm: string)
    requires searchTerm == ""
    ensures MatchesSearch(post, searchTerm)
  {
    assert ToLower(searchTerm) == "";
    assert OccursAt(ToLower(post.title), "", 0);
  }

  /** Without a search term, with every category and every tag, every
      post is shown. */
  lemma UnfilteredShowsAll(posts: seq<BlogPost>)
    ensures FilteredPosts(posts, Unfiltered) == posts
  {
    forall i | 0 <= i < |posts| ensures Shown(posts[i], Unfiltered) {
      EmptySearchMatches(posts[i], "");
    }
    FilterKeepsAll(posts, (p: BlogPost) => Shown(p, Unfiltered));
  }

  /** The reset button: whatever the filters were, every post is shown
      again. */
  function ResetFilters(f: Filters): (r: Filters)
    ensures r.searchTerm == "" && r.selectedCategory == "all" && r.selectedTag == "all"
    ensures forall posts :: FilteredPosts(posts, r) == posts
  {
    forall posts ensures FilteredPosts(posts, Unfiltered) == posts {
      UnfilteredShowsAll(posts);
    }
    Unfiltered
  }

  /** Case does not matter in the search term. */
  lemma SearchIgnoresCase(posts: seq<BlogPost>, f: Filters, g: Filters)
    requires ToLower(f.searchTerm) == ToLower(g.searchTerm)
    requires f.selectedCategory == g.selectedCategory && f.selectedTag == g.selectedTag
    ensures FilteredPosts(posts, f) == FilteredPosts(posts, g)
  {
    FilterAgrees(posts, (p: BlogPost) => Shown(p, f), (p: BlogPost) => Shown(p, g));
  }

  /** A selected category or tag shows what the data queries return for
      it, when nothing is searched and the other select is on "all". */
  lemma SelectsAreQueries(posts: seq<BlogPost>, c: string, t: string)
    requires c != "all" && t != "all"
    ensures FilteredPosts(posts, Filters("", c, "all")) == PostsByCategory(posts, c)
    ensures FilteredPosts(posts, Filters("", "all", t)) == PostsByTag(posts, t)
  {
    forall p: BlogPost ensures MatchesSearch(p, "") {
      EmptySearchMatches(p, "");
    }
    var fc := Filters("", c, "all");
    FilterAgrees(posts, (p: BlogPost) => Shown(p, fc), (p: BlogPost) => p.category == c);
    var ft := Filters("", "all", t);
    FilterAgrees(posts, (p: BlogPost) => Shown(p, ft), (p: BlogPost) => t in p.tags);
  }

  /** The categories with a label of their own. */
  predicate Labelled(category: string) {
    category == "tech" || category == "opinion" || category == "blog"
  }

  /** `getCategoryLabel`: `translated(category)` is the translation of a
      labelled category (its default text when no translation exists); an
      empty label, and every other category, shows the category itself. */
  function CategoryLabel(category: string, translated: string -> string): (r: string)
    ensures !Labelled(category) ==> r == category
    ensures Labelled(category) && translated(category) != "" ==> r == translated(category)
    ensures category != "" ==> r != ""
  {
    var shown := if Labelled(category) then translated(category) else "";
    if shown != "" then shown else category
  }
}
