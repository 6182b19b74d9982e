/** The image step run after the build (`scripts/optimize-images.js`):
    responsive `<picture>` markup for the images that have size variants,
    and the rewriting of every built page's `<img>` tags: the portrait is
    replaced by its responsive markup and marked as high priority, other
    images are marked for lazy loading, and a page is written back only
    when it showed the portrait. The three regular expressions are modelled
    by matchers that give, for a start index, where the match ends. */
module OptimizeImages {
  import opened Text
  import opened Lists
  import Prerender

  /** The variants an image has: widths, formats and encoder quality. */
  datatype ImageConfig = ImageConfig(sizes: seq<nat>, formats: seq<string>, quality: nat)

  const Portrait := "paul-santus.jpg"
  const Logo := "logo-orange.png"

  /** `imageOptimizations[imageName]`: the portrait and the logo have
      variants, no other image has. */
  function ConfigFor(name: string): (r: Option<ImageConfig>)
    ensures r.Some? <==> name == Portrait || name == Logo
    ensures r.Some? ==> |r.value.sizes| > 0 && |r.value.formats| == 2
  {
    if name == Portrait then Some(ImageConfig([400, 800, 1200], ["webp", "jpg"], 85))
    else if name == Logo then Some(ImageConfig([32, 64, 128, 256], ["webp", "png"], 90))
    else None
  }

  /** `imageName.split('.')[0]`: the text before the first dot, or the
      whole name when it has none. */
  function BaseName(name: string): (b: string)
    ensures StartsWith(name, b) && '.' !in b
    ensures |b| < |name| ==> name[|b|] == '.'
  {
    if name == [] || name[0] == '.' then []
    else
      var rest := BaseName(name[1..]);
      assert name == [name[0]] + name[1..];
      [name[0]] + rest
  }

  /** The base name of `b.ext` is `b` when `b` has no dot. */
  lemma BaseNameOfDotted(b: string, ext: string)
    requires '.' !in b
    ensures BaseName(b + "." + ext) == b
  {
    var name := b + "." + ext;
    assert name[|b|] == '.';
    assert forall i :: 0 <= i < |b| ==> name[i] == b[i];
  }

  /** One `srcset` candidate: `/{base}-{size}w.{ext} {size}w`. */
  function SrcSetEntry(base: string, ext: string, size: nat): string {
    "/" + base + "-" + NatToString(size) + "w." + ext + " " + NatToString(size) + "w"
  }

  /** The candidates of a `srcset`, one per size, in the order of the
      sizes. */
  function SrcSetEntries(base: string, ext: string, sizes: seq<nat>): (r: seq<string>)
    ensures |r| == |sizes|
    ensures forall i :: 0 <= i < |sizes| ==> r[i] == SrcSetEntry(base, ext, sizes[i])
  {
    Map(sizes, (size: nat) => SrcSetEntry(base, ext, size))
  }

  /** The `srcset` text: the candidates joined by a comma and a space. */
  function SrcSet(base: string, ext: string, sizes: seq<nat>): string {
    Join(SrcSetEntries(base, ext, sizes), ", ")
  }

  /** The width of a candidate can be read back from it: two candidates of
      one image and format are equal only for equal widths. */
  lemma SrcSetEntryInjective(base: string, ext: string, s1: nat, s2: nat)
    requires SrcSetEntry(base, ext, s1) == SrcSetEntry(base, ext, s2)
    ensures s1 == s2
  {
    var n1, n2 := NatToString(s1), NatToString(s2);
    var front := "/" + base + "-";
    var e1 := front + n1 + ("w." + ext + " " + n1 + "w");
    var e2 := front + n2 + ("w." + ext + " " + n2 + "w");
    assert e1 == SrcSetEntry(base, ext, s1);
    assert e2 == SrcSetEntry(base, ext, s2);
    assert |n1| == |n2|;
    assert n1 == e1[|front|..|front| + |n1|];
    assert n2 == e2[|front|..|front| + |n2|];
    NatToStringRoundTrip(s1);
    NatToStringRoundTrip(s2);
  }

  /** Distinct widths give distinct candidates. */
  lemma SrcSetEntriesDistinct(base: string, ext: string, sizes: seq<nat>)
    requires NoDuplicates(sizes)
    ensures NoDuplicates(SrcSetEntries(base, ext, sizes))
  {
    var r := SrcSetEntries(base, ext, sizes);
    forall i, j | 0 <= i < j < |r| ensures r[i] != r[j] {
      if r[i] == r[j] {
        SrcSetEntryInjective(base, ext, sizes[i], sizes[j]);
      }
    }
  }

  const SizesHint := "(max-width: 768px) 400px, (max-width: 1200px) 800px, 1200px"

  /** The attributes every generated `<img>` starts with. */
  function ImgAttributes(name: string, alt: string, className: string): string {
    "src=\"/" + name + "\" alt=\"" + alt + "\" class=\"" + className + "\""
  }

  /** The `<img>` made for an image without variants. */
  function PlainImg(name: string, alt: string, className: string): string {
    "<img " + ImgAttributes(name, alt, className) + ">"
  }

  /** A `<source>` element offering a `srcset` in a MIME type. */
  function Source(srcSet: string, mime: string): string {
    "<source srcset=\"" + srcSet + "\" type=\"" + mime + "\" sizes=\"" + SizesHint + "\">"
  }

  /** The `<picture>` element: both sources, then the `<img>`. */
  function PictureMarkup(name: string, webp: string, jpg: string, alt: string, className: string): (r: string)
    ensures r != [] && r[0] == '<' && r[|r| - 1] == '>'
  {
    PictureEnds();
    FramedEnds(PictureOpen, PictureInner(name, webp, jpg, alt, className), PictureClose);
    PictureOpen + PictureInner(name, webp, jpg, alt, className) + PictureClose
  }

  const PictureOpen := "<picture>"
  const PictureClose := "\n    </picture>"
  const LazyAttrs := " loading=\"lazy\" decoding=\"async\""
  const LazyImgEnd := LazyAttrs + ">"

  /** What lies between the opening and the closing `picture` tags. */
  function PictureInner(name: string, webp: string, jpg: string, alt: string, className: string): string {
    "\n      " + (Source(webp, "image/webp") + ("\n      " + (Source(jpg, "image/jpeg")
    + ("\n      " + ("<img " + ImgAttributes(name, alt, className) + LazyImgEnd)))))
  }

  /** A framed text starts with the frame's first character and ends with
      its last. */
  lemma FramedEnds(open: string, inner: string, close: string)
    requires open != [] && close != []
    ensures var r := open + inner + close; r != [] && r[0] == open[0] && r[|r| - 1] == close[|close| - 1]
  {
  }

  lemma PictureEnds()
    ensures |PictureOpen| > 0 && PictureOpen[0] == '<'
    ensures |PictureClose| > 0 && PictureClose[|PictureClose| - 1] == '>'
  {
  }

  /** The template of `generateResponsiveImageHTML` puts its element on a
      line of its own, indented; `trim` takes that off again. */
  function Indented(markup: string): string {
    "\n    " + markup + "\n  "
  }

  lemma IndentedTrimmed(markup: string)
    requires markup != [] && markup[0] == '<' && markup[|markup| - 1] == '>'
    ensures Trim(Js, Indented(markup)) == markup
  {
    var pre, post := "\n    ", "\n  ";
    assert forall i :: 0 <= i < |pre| ==> IsSpace(Js, pre[i]);
    assert forall i :: 0 <= i < |post| ==> IsSpace(Js, post[i]);
    TrimSurrounded(Js, pre, markup, post);
  }

  /** `generateResponsiveImageHTML(imageName, alt, className)`: a plain
      `<img>` for an image without variants; otherwise a `<picture>` whose
      first source lists the WebP variants and whose second lists `.jpg`
      variants whatever the image's own format, around an `<img>` with the
      given source, alt text and class. */
  function GenerateResponsiveImageHtml(name: string, alt: string, className: string): (r: string)
    ensures ConfigFor(name).None? ==> r == PlainImg(name, alt, className)
    ensures ConfigFor(name).Some? ==> r == ResponsiveMarkup(name, ConfigFor(name).value.sizes, alt, className)
  {
    match ConfigFor(name)
    case None => PlainImg(name, alt, className)
    case Some(config) =>
      var markup := ResponsiveMarkup(name, config.sizes, alt, className);
      IndentedTrimmed(markup);
      Trim(Js, Indented(markup))
  }

  /** The `<picture>` element of an image with variants: WebP candidates
      in the first source, `.jpg` candidates in the second. */
  function ResponsiveMarkup(name: string, sizes: seq<nat>, alt: string, className: string): string {
    var base := BaseName(name);
    PictureMarkup(name, SrcSet(base, "webp", sizes), SrcSet(base, "jpg", sizes), alt, className)
  }

  /** The `<picture>` element holds both sources and the `<img>` with the
      given source, alt text and class. */
  lemma PictureHolds(name: string, webp: string, jpg: string, alt: string, className: string)
    ensures var r := PictureMarkup(name, webp, jpg, alt, className);
      && StartsWith(r, PictureOpen)
      && Contains(r, Source(webp, "image/webp"))
      && Contains(r, Source(jpg, "image/jpeg"))
      && Contains(r, "<img " + ImgAttributes(name, alt, className))
  {
    var inner := PictureInner(name, webp, jpg, alt, className);
    var img := "<img " + ImgAttributes(name, alt, className);
    ThreeInside("\n      ", Source(webp, "image/webp"), Source(jpg, "image/jpeg"), img, LazyImgEnd);
    FramedHolds(PictureOpen, inner, PictureClose, img);
    FramedHolds(PictureOpen, inner, PictureClose, Source(jpg, "image/jpeg"));
    FramedHolds(PictureOpen, inner, PictureClose, Source(webp, "image/webp"));
  }

  /** Three parts, each after a separator, are each contained in the
      whole. */
  lemma ThreeInside(sep: string, x: string, y: string, z: string, end: string)
    ensures var m := sep + (x + (sep + (y + (sep + (z + end)))));
      Contains(m, x) && Contains(m, y) && Contains(m, z)
  {
    var third := sep + (z + end);
    var second := sep + (y + third);
    ContainsFront(z, end);
    ContainsBehind(sep, z + end, z);
    ContainsFront(y, third);
    ContainsBehind(y, third, z);
    ContainsBehind(sep, y + third, y);
    ContainsBehind(sep, y + third, z);
    ContainsFront(x, second);
    ContainsBehind(x, second, y);
    ContainsBehind(x, second, z);
    ContainsBehind(sep, x + second, x);
    ContainsBehind(sep, x + second, y);
    ContainsBehind(sep, x + second, z);
  }

  /** What the middle of a framed text contains, the whole contains; and
      the whole starts with the frame's opening. */
  lemma FramedHolds(open: string, middle: string, close: string, p: string)
    requires Contains(middle, p)
    ensures Contains(open + middle + close, p)
    ensures StartsWith(open + middle + close, open)
  {
    var i: nat :| i <= |middle| && OccursAt(middle, p, i);
    var s := open + middle + close;
    assert s[|open| + i..|open| + i + |p|] == middle[i..i + |p|];
    assert OccursAt(s, p, |open| + i);
    assert s[..|open|] == open;
  }

  /** Whatever the image, the generated markup holds an `<img>` with the
      image's path as source and the given alt text and class; it is a
      `<picture>` exactly when the image has variants, and then its first
      source lists the WebP candidates and its second the `.jpg` ones, in
      the order of the configured widths. */
  lemma GeneratedMarkup(name: string, alt: string, className: string)
    ensures var r := GenerateResponsiveImageHtml(name, alt, className);
      && Contains(r, "<img " + ImgAttributes(name, alt, className))
      && (StartsWith(r, PictureOpen) <==> ConfigFor(name).Some?)
      && (ConfigFor(name).Some? ==>
            var base, sizes := BaseName(name), ConfigFor(name).value.sizes;
            && Contains(r, Source(SrcSet(base, "webp", sizes), "image/webp"))
            && Contains(r, Source(SrcSet(base, "jpg", sizes), "image/jpeg")))
  {
    if ConfigFor(name).Some? {
      ResponsiveHolds(name, alt, className);
    } else {
      PlainImgHolds(name, alt, className);
    }
  }

  /** The markup of an image with variants is its `<picture>` element. */
  lemma ResponsiveHolds(name: string, alt: string, className: string)
    requires ConfigFor(name).Some?
    ensures var r, base, sizes := GenerateResponsiveImageHtml(name, alt, className), BaseName(name), ConfigFor(name).value.sizes;
      && StartsWith(r, PictureOpen)
      && Contains(r, "<img " + ImgAttributes(name, alt, className))
      && Contains(r, Source(SrcSet(base, "webp", sizes), "image/webp"))
      && Contains(r, Source(SrcSet(base, "jpg", sizes), "image/jpeg"))
  {
    var base, sizes := BaseName(name), ConfigFor(name).value.sizes;
    PictureHolds(name, SrcSet(base, "webp", sizes), SrcSet(base, "jpg", sizes), alt, className);
  }

  /** The plain `<img>` holds its attributes and is no `<picture>`. */
  lemma PlainImgHolds(name: string, alt: string, className: string)
    ensures Contains(PlainImg(name, alt, className), "<img " + ImgAttributes(name, alt, className))
    ensures !StartsWith(PlainImg(name, alt, className), PictureOpen)
  {
    var img := "<img " + ImgAttributes(name, alt, className);
    ContainsFront(img, ">");
    ConcatEnds(img, ">");
    ConcatEnds("<img ", ImgAttributes(name, alt, className));
    StartsWithTransitive(img + ">", img, "<img ");
    ImgIsNotPicture();
    PrefixesExclusive(img + ">", "<img ", PictureOpen);
  }

  lemma ImgIsNotPicture()
    ensures |"<img "| >= 2 && |PictureOpen| >= 2 && "<img "[1] != PictureOpen[1]
  {
  }

  // Rewriting the built pages

  const ImgOpen := "<img"
  const HeroSrc := "src=\"/" + Portrait + "\""
  const SrcOpen := "src=\""
  const LoadingAttr := "loading="
  const PortraitPath := "/paul-santus.jpg"
  const LogoPath := "/logo-orange"
  const PriorityImgEnd := " fetchpriority=\"high\">"

  lemma ImgOpenLength()
    ensures |ImgOpen| == 4 && |SrcOpen| == 5
  {
  }

  /** The first `c` at or after `from` is at `e`. */
  predicate FirstChar(s: string, c: char, from: nat, e: nat) {
    from <= e < |s| && s[e] == c && forall k :: from <= k < e ==> s[k] != c
  }

  lemma FirstCharFound(s: string, c: char, from: nat, e: nat)
    requires FirstChar(s, c, from, e)
    ensures CharFrom(s, c, from) == Some(e)
  {
  }

  /** The first `>` after the `<img` that opens at `i` is at `e`. */
  predicate TagCloses(s: string, i: nat, e: nat) {
    FirstChar(s, '>', i + |ImgOpen|, e)
  }

  /** `/<img[^>]*src="\/paul-santus\.jpg"[^>]*>/` tried at `i`: the tag
      must open at `i`, and the portrait's source must lie before the
      tag's first `>`, which ends the match; the index of that `>`. */
  function HeroMatchAt(s: string, i: nat): (r: Option<nat>)
    ensures r.Some? ==> OccursAt(s, ImgOpen, i) && TagCloses(s, i, r.value)
                        && Contains(s[i + |ImgOpen|..r.value], HeroSrc)
  {
    if !OccursAt(s, ImgOpen, i) then None
    else match CharFrom(s, '>', i + |ImgOpen|)
      case None => None
      case Some(e) => if Contains(s[i + |ImgOpen|..e], HeroSrc) then Some(e) else None
  }

  /** Every tag that opens at `i` and holds the portrait's source before
      its first `>` is matched, up to that `>`. */
  lemma HeroMatchFound(s: string, i: nat, e: nat)
    requires OccursAt(s, ImgOpen, i) && TagCloses(s, i, e) && Contains(s[i + |ImgOpen|..e], HeroSrc)
    ensures HeroMatchAt(s, i) == Some(e)
  {
    FirstCharFound(s, '>', i + |ImgOpen|, e);
  }

  /** The value of a `src` attribute at `q`, closed by its first quote and
      followed by a `>` at `d`. */
  predicate QuotedThenClosed(s: string, q: nat, c: nat, d: nat) {
    FirstChar(s, '"', q + |SrcOpen|, c) && FirstChar(s, '>', c + 1, d)
  }

  /** A `src` attribute at `q` whose path is neither the portrait's nor the
      logo's. */
  predicate LazySrcAt(s: string, q: nat) {
    OccursAt(s, SrcOpen, q) && !OccursAt(s, PortraitPath, q + |SrcOpen|)
    && !OccursAt(s, LogoPath, q + |SrcOpen|)
  }

  /** The `src="(?!\/paul-santus\.jpg|\/logo-orange)[^"]*"[^>]*>` part of the
      lazy-loading expression tried at `q`: a `src` attribute whose path
      is neither the portrait's nor the logo's, closed by a quote and
      followed by a `>`; the index of that `>`. */
  function LazySrcEnd(s: string, q: nat): (r: Option<nat>)
    ensures r.Some? ==> LazySrcAt(s, q) && q < r.value < |s|
                        && CharFrom(s, '"', q + |SrcOpen|).Some?
                        && QuotedThenClosed(s, q, CharFrom(s, '"', q + |SrcOpen|).value, r.value)
  {
    if !LazySrcAt(s, q) then None
    else match CharFrom(s, '"', q + |SrcOpen|)
      case None => None
      case Some(c) => CharFrom(s, '>', c + 1)
  }

  /** Every such attribute closed by a quote and then a `>` is matched, up
      to that `>`. */
  lemma LazySrcFound(s: string, q: nat, c: nat, d: nat)
    requires LazySrcAt(s, q) && QuotedThenClosed(s, q, c, d)
    ensures LazySrcEnd(s, q) == Some(d)
  {
    FirstCharFound(s, '"', q + |SrcOpen|, c);
    FirstCharFound(s, '>', c + 1, d);
  }

  /** The greatest `q` below `hi` and at least `lo` at which such a `src`
      attribute is found: the greedy `[^>]*` before it backs off from the
      right. */
  function LastLazySrc(s: string, lo: nat, hi: nat): (r: Option<nat>)
    decreases hi
    ensures r.Some? ==> lo <= r.value < hi && LazySrcEnd(s, r.value).Some?
    ensures forall q :: lo <= q < hi && (r.None? || r.value < q) ==> LazySrcEnd(s, q).None?
  {
    if hi <= lo then None
    else if LazySrcEnd(s, hi - 1).Some? then Some(hi - 1)
    else LastLazySrc(s, lo, hi - 1)
  }

  /** `/<img(?![^>]*loading=)([^>]*src="(?!\/paul-santus\.jpg|\/logo-orange)[^"]*"[^>]*)>/`
      tried at `i`: the tag must open at `i` and have no `loading=` before
      its first `>`; the match ends at the `>` that follows the value of
      the last `src` attribute as above that starts before that `>`. */
  function LazyMatchAt(s: string, i: nat): (r: Option<nat>)
    ensures r.Some? ==> i < r.value < |s|
  {
    if !OccursAt(s, ImgOpen, i) then None
    else match CharFrom(s, '>', i + |ImgOpen|)
      case None => None
      case Some(e) =>
        if Contains(s[i + |ImgOpen|..e], LoadingAttr) then None
        else match LastLazySrc(s, i + |ImgOpen|, e)
          case None => None
          case Some(q) => ImgOpenLength(); LazySrcEnd(s, q)
  }

  /** A lazy-loading match at `i` is an `<img` tag closed at `e` with no
      `loading=` before it, and its end is that of the last attribute as
      above starting before `e`. */
  lemma LazyMatchSound(s: string, i: nat)
    requires LazyMatchAt(s, i).Some?
    ensures OccursAt(s, ImgOpen, i)
    ensures exists e: nat, q: nat ::
      TagCloses(s, i, e) && !Contains(s[i + |ImgOpen|..e], LoadingAttr)
      && i + |ImgOpen| <= q < e && LazySrcEnd(s, q) == LazyMatchAt(s, i)
      && forall q' :: q < q' < e ==> LazySrcEnd(s, q').None?
  {
    var e := CharFrom(s, '>', i + |ImgOpen|).value;
    var q := LastLazySrc(s, i + |ImgOpen|, e).value;
    assert TagCloses(s, i, e);
  }

  /** Every `<img` tag without `loading=` that holds such an attribute
      before its first `>` is matched. */
  lemma LazyMatchFound(s: string, i: nat, e: nat, q: nat)
    requires OccursAt(s, ImgOpen, i) && TagCloses(s, i, e) && !Contains(s[i + |ImgOpen|..e], LoadingAttr)
    requires i + |ImgOpen| <= q < e && LazySrcEnd(s, q).Some?
    ensures LazyMatchAt(s, i).Some?
  {
    FirstCharFound(s, '>', i + |ImgOpen|, e);
  }

  /** A matcher of a text of length `n` gives, for a start index, the
      index of the `>` that closes a match starting there, if there is
      one; that index lies after the start and inside the text. */
  ghost predicate Ends(m: nat -> Option<nat>, n: nat) {
    forall i: nat :: m(i).Some? ==> i < m(i).value < n
  }

  /** The portrait expression over `s`. */
  function HeroMatcher(s: string): (m: nat -> Option<nat>)
    ensures Ends(m, |s|)
    ensures forall i: nat :: m(i) == HeroMatchAt(s, i)
  {
    ImgOpenLength();
    (i: nat) => HeroMatchAt(s, i)
  }

  /** The lazy-loading expression over `s`. */
  function LazyMatcher(s: string): (m: nat -> Option<nat>)
    ensures Ends(m, |s|)
    ensures forall i: nat :: m(i) == LazyMatchAt(s, i)
  {
    (i: nat) => LazyMatchAt(s, i)
  }

  /** The leftmost match at or after `from`, as `test` finds it. */
  function FindMatch(m: nat -> Option<nat>, s: string, from: nat): (r: Option<nat>)
    decreases |s| - from
    ensures r.Some? ==> from <= r.value < |s| && m(r.value).Some?
    ensures forall j: nat :: from <= j < |s| && (r.None? || j < r.value) ==> m(j).None?
  {
    if from >= |s| then None
    else if m(from).Some? then Some(from)
    else FindMatch(m, s, from + 1)
  }

  /** A matched tag without its closing `>`: the `<img` and the captured
      group `$1` of the fetch-priority and lazy-loading expressions. */
  function TagBody(m: string): string {
    if m == [] then [] else m[..|m| - 1]
  }

  /** `'<img$1 fetchpriority="high">'` */
  function MarkPriority(m: string): string {
    TagBody(m) + PriorityImgEnd
  }

  /** `'<img$1 loading="lazy" decoding="async">'` */
  function MarkLazy(m: string): string {
    TagBody(m) + LazyImgEnd
  }

  /** `s.replace(regex, rewrite)` with a global expression, from `from`
      on: each match, found left to right and never overlapping the
      previous one, is rewritten; the rest is copied. */
  function ReplaceAll(m: nat -> Option<nat>, rewrite: string -> string, s: string, from: nat): string
    requires Ends(m, |s|) && from <= |s|
    decreases |s| - from
  {
    if from == |s| then []
    else match m(from)
      case Some(e) => rewrite(s[from..e + 1]) + ReplaceAll(m, rewrite, s, e + 1)
      case None => [s[from]] + ReplaceAll(m, rewrite, s, from + 1)
  }

  /** Without a match the text is copied unchanged. */
  lemma {:induction false} NoMatchKeeps(m: nat -> Option<nat>, rewrite: string -> string, s: string, from: nat)
    requires Ends(m, |s|) && from <= |s| && FindMatch(m, s, from).None?
    ensures ReplaceAll(m, rewrite, s, from) == s[from..]
    decreases |s| - from
  {
    if from < |s| {
      NoMatchKeeps(m, rewrite, s, from + 1);
      CopyStep(m, rewrite, s, from);
      assert s[from..] == [s[from]] + s[from + 1..];
    }
  }

  /** The text up to the leftmost match is copied, the match is rewritten,
      and the rewriting goes on after it. */
  lemma FirstMatchRewritten(m: nat -> Option<nat>, rewrite: string -> string, s: string, from: nat, i: nat)
    requires Ends(m, |s|) && from <= |s| && FindMatch(m, s, from) == Some(i)
    ensures var e := m(i).value;
      ReplaceAll(m, rewrite, s, from) == s[from..i] + rewrite(s[i..e + 1]) + ReplaceAll(m, rewrite, s, e + 1)
  {
    CopiedUpTo(m, rewrite, s, from, i);
    RewriteStep(m, rewrite, s, i);
  }

  /** A stretch without a match is copied as it is. */
  lemma {:induction false} CopiedUpTo(m: nat -> Option<nat>, rewrite: string -> string, s: string, from: nat, i: nat)
    requires Ends(m, |s|) && from <= i <= |s|
    requires forall j: nat :: from <= j < i ==> m(j).None?
    ensures ReplaceAll(m, rewrite, s, from) == s[from..i] + ReplaceAll(m, rewrite, s, i)
    decreases i - from
  {
    if from < i {
      CopiedUpTo(m, rewrite, s, from + 1, i);
      CopyStep(m, rewrite, s, from);
      ConsSlice(s, from, i, ReplaceAll(m, rewrite, s, i));
    }
  }

  /** One step of the scan without a match. */
  lemma CopyStep(m: nat -> Option<nat>, rewrite: string -> string, s: string, from: nat)
    requires Ends(m, |s|) && from < |s| && m(from).None?
    ensures ReplaceAll(m, rewrite, s, from) == [s[from]] + ReplaceAll(m, rewrite, s, from + 1)
  {
  }

  /** One step of the scan on a match. */
  lemma RewriteStep(m: nat -> Option<nat>, rewrite: string -> string, s: string, from: nat)
    requires Ends(m, |s|) && from < |s| && m(from).Some?
    ensures ReplaceAll(m, rewrite, s, from) == rewrite(s[from..m(from).value + 1]) + ReplaceAll(m, rewrite, s, m(from).value + 1)
  {
  }

  lemma ConsSlice(s: string, from: nat, i: nat, y: string)
    requires from < i <= |s|
    ensures [s[from]] + (s[from + 1..i] + y) == s[from..i] + y
  {
    assert s[from..i] == [s[from]] + s[from + 1..i];
  }

  const AltKey := "alt=\""
  const ClassKey := "class=\""
  const DefaultAlt := "Paul Santus"

  /** `tag.match(/key([^"]*)"/)[1]` for a key ending in `="`: the text
      after the first occurrence of the key up to the next quote, when
      there is such a quote. */
  function AttrValue(tag: string, key: string): (r: Option<string>)
    ensures r.Some? ==> '"' !in r.value && Contains(tag, key + r.value + "\"")
    ensures r.None? <==> forall q: nat :: OccursAt(tag, key, q) ==> '"' !in tag[q + |key|..]
  {
    match IndexOf(tag, key)
    case None => None
    case Some(q) =>
      match CharFrom(tag, '"', q + |key|)
      case None =>
        assert forall q': nat :: OccursAt(tag, key, q') ==> q <= q';
        None
      case Some(c) =>
        var v := tag[q + |key|..c];
        assert tag[q..c + 1] == key + v + "\"";
        assert OccursAt(tag, key + v + "\"", q);
        assert tag[q + |key|..][c - q - |key|] == '"';
        Some(v)
  }

  /** Reading back: the value written after the first occurrence of a key
      is the value found. */
  lemma AttrValueReads(pre: string, key: string, v: string, post: string)
    requires key != [] && !Contains(pre + key[..|key| - 1], key) && '"' !in v
    ensures AttrValue(pre + key + v + "\"" + post, key) == Some(v)
  {
    KeyFirstAt(pre, key, v, "\"", post);
    QuoteClosesValue(pre + key, v, post);
    MiddleSlice(pre + key, v, "\"", post);
  }

  /** A key that does not occur in the text before it, nor overlapping its
      own start, is first found where it is written. */
  lemma KeyFirstAt(pre: string, key: string, a: string, b: string, c: string)
    requires key != [] && !Contains(pre + key[..|key| - 1], key)
    ensures IndexOf(pre + key + a + b + c, key) == Some(|pre|)
  {
    var s := pre + key + a + b + c;
    var front := pre + key[..|key| - 1];
    assert forall k :: 0 <= k < |front| ==> s[k] == front[k];
    forall j: nat | j < |pre| ensures !OccursAt(s, key, j) {
      assert s[j..j + |key|] == front[j..j + |key|];
      assert !OccursAt(front, key, j);
    }
    assert s[|pre|..|pre| + |key|] == key;
    assert OccursAt(s, key, |pre|);
  }

  /** The first quote after a quote-free value is the one that closes it. */
  lemma QuoteClosesValue(front: string, v: string, post: string)
    requires '"' !in v
    ensures CharFrom(front + v + "\"" + post, '"', |front|) == Some(|front| + |v|)
  {
    var s := front + v + "\"" + post;
    var at := |front| + |v|;
    forall k | |front| <= k < at ensures s[k] != '"' {
      assert s[k] == v[k - |front|];
    }
    assert s[at] == '"';
    assert FirstChar(s, '"', |front|, at);
    FirstCharFound(s, '"', |front|, at);
  }

  lemma MiddleSlice(front: string, v: string, b: string, c: string)
    ensures (front + v + b + c)[|front|..|front| + |v|] == v
  {
  }

  /** The value of an attribute of a tag, or a default without one. */
  function AttrOr(tag: string, key: string, default: string): string {
    match AttrValue(tag, key)
    case Some(v) => v
    case None => default
  }

  /** The replacement of a portrait tag: the portrait's responsive markup
      with the tag's alt text (`Paul Santus` without one) and class (empty
      without one). */
  function HeroReplacement(m: string): string {
    GenerateResponsiveImageHtml(Portrait, AttrOr(m, AltKey, DefaultAlt), AttrOr(m, ClassKey, ""))
  }

  /** The portrait's replacement is a `<picture>` whose `<img>` keeps the
      tag's alt text and class, or their defaults. */
  lemma HeroKeepsAttributes(m: string)
    ensures var alt, className := AttrOr(m, AltKey, DefaultAlt), AttrOr(m, ClassKey, "");
      && StartsWith(HeroReplacement(m), PictureOpen)
      && Contains(HeroReplacement(m), "<img " + ImgAttributes(Portrait, alt, className))
  {
    ResponsiveHolds(Portrait, AttrOr(m, AltKey, DefaultAlt), AttrOr(m, ClassKey, ""));
  }

  /** A page after its rewriting, and whether it showed the portrait. */
  datatype PageEdit = PageEdit(html: string, modified: bool)

  /** The body of the loop of `optimizeImagesInHTML` for one page: the
      portrait tags are replaced when there is one, then the portrait tags
      are marked as high priority and the other tags without a loading
      attribute as lazy. */
  function OptimizeHtml(html: string): (r: PageEdit)
    ensures r.modified <==> exists i: nat :: i < |html| && HeroMatchAt(html, i).Some?
  {
    var hero := HeroMatcher(html);
    var found := FindMatch(hero, html, 0);
    if found.Some? then
      var h1 := ReplaceAll(hero, HeroReplacement, html, 0);
      var h2 := ReplaceAll(HeroMatcher(h1), MarkPriority, h1, 0);
      PageEdit(ReplaceAll(LazyMatcher(h2), MarkLazy, h2, 0), true)
    else
      NoMatchKeeps(hero, MarkPriority, html, 0);
      PageEdit(ReplaceAll(LazyMatcher(html), MarkLazy, html, 0), false)
  }

  /** A page without any `<img` tag is left as it is and not written. */
  lemma NoImagesUntouched(html: string)
    requires !Contains(html, ImgOpen)
    ensures OptimizeHtml(html) == PageEdit(html, false)
  {
    var hero, lazy := HeroMatcher(html), LazyMatcher(html);
    forall j: nat | j < |html| ensures hero(j).None? && lazy(j).None? {
      assert !OccursAt(html, ImgOpen, j);
    }
    NoMatchKeeps(lazy, MarkLazy, html, 0);
  }

  /** The lazy-loading and priority marks keep the tag up to its closing
      `>` and add their attributes before a new one. */
  lemma MarksKeepTag(m: string)
    requires m != [] && m[|m| - 1] == '>'
    ensures MarkPriority(m) == m[..|m| - 1] + PriorityImgEnd
    ensures MarkLazy(m) == m[..|m| - 1] + LazyImgEnd
    ensures StartsWith(MarkLazy(m), m[..|m| - 1]) && StartsWith(MarkPriority(m), m[..|m| - 1])
  {
    ConcatEnds(m[..|m| - 1], PriorityImgEnd);
    ConcatEnds(m[..|m| - 1], LazyImgEnd);
  }

  /** The `<img>` of the portrait's picture. */
  function PictureImg(alt: string, className: string): string {
    "<img " + ImgAttributes(Portrait, alt, className) + LazyImgEnd
  }

  /** The picture's `<img>` still shows the portrait's source and already
      loads lazily. The fetch-priority expression has no guard on
      `loading`, so it matches the whole tag, which ends up with both
      `loading="lazy"` and `fetchpriority="high"`. */
  lemma PictureImgGetsPriority(alt: string, className: string)
    requires '>' !in alt && '>' !in className
    ensures var m := PictureImg(alt, className);
      && HeroMatchAt(m, 0) == Some(|m| - 1)
      && MarkPriority(m) == "<img " + ImgAttributes(Portrait, alt, className) + LazyAttrs + PriorityImgEnd
  {
    var head := "<img " + ImgAttributes(Portrait, alt, className) + LazyAttrs;
    assert PictureImg(alt, className) == head + ">";
    PictureImgSplit(alt, className);
    PictureImgNoClose(alt, className);
    PictureImgHoldsSource(alt, className);
    WholeTagMatched(head, PictureImgInside(alt, className));
  }

  /** A tag whose only `>` closes it and which holds the portrait's source
      is matched whole by the fetch-priority expression, and gets the
      attribute in front of that `>`. */
  lemma WholeTagMatched(head: string, body: string)
    requires head == ImgOpen + body && '>' !in body && Contains(body, HeroSrc)
    ensures HeroMatchAt(head + ">", 0) == Some(|head|)
    ensures MarkPriority(head + ">") == head + PriorityImgEnd
  {
    var m := head + ">";
    ImgOpenLength();
    assert m[..4] == ImgOpen;
    forall k | 4 <= k < |head| ensures m[k] != '>' {
      assert m[k] == body[k - 4];
    }
    assert m[4..|head|] == body;
    HeroMatchFound(m, 0, |head|);
    assert m[..|m| - 1] == head;
  }

  /** What lies between the picture img's `<img` and its `>`. */
  function PictureImgInside(alt: string, className: string): string {
    " " + HeroSrc + " alt=\"" + alt + "\" class=\"" + className + "\"" + LazyAttrs
  }

  lemma PictureImgSplit(alt: string, className: string)
    ensures "<img " + ImgAttributes(Portrait, alt, className) + LazyAttrs == ImgOpen + PictureImgInside(alt, className)
  {
  }

  lemma PictureImgHoldsSource(alt: string, className: string)
    ensures Contains(PictureImgInside(alt, className), HeroSrc)
  {
    assert OccursAt(PictureImgInside(alt, className), HeroSrc, 1) by {
      assert PictureImgInside(alt, className)[1..1 + |HeroSrc|] == HeroSrc;
    }
  }

  lemma PictureImgNoClose(alt: string, className: string)
    requires '>' !in alt && '>' !in className
    ensures '>' !in PictureImgInside(alt, className)
  {
    var attrs := " alt=\"" + alt + "\" class=\"" + className + "\"";
    assert PictureImgInside(alt, className) == " " + HeroSrc + attrs + LazyAttrs;
    assert '>' !in HeroSrc by {
      assert '>' !in "src=\"/" && '>' !in Portrait && '>' !in "\"";
    }
    assert '>' !in attrs by {
      assert '>' !in " alt=\"" && '>' !in "\" class=\"" && '>' !in "\"";
    }
    assert '>' !in LazyAttrs;
  }

  /** The output directory after the loop over `paths`: each page is read,
      rewritten and written back only when it showed the portrait. */
  function AfterOptimizing(files: map<string, string>, paths: seq<string>): (r: map<string, string>)
    requires forall p :: p in paths ==> p in files
    ensures r.Keys == files.Keys
    ensures forall k :: k in files && k !in paths ==> r[k] == files[k]
  {
    if paths == [] then files
    else
      var edit := OptimizeHtml(files[paths[0]]);
      var next := if edit.modified then files[paths[0] := edit.html] else files;
      AfterOptimizing(next, paths[1..])
  }

  /** With every page listed once, a page is replaced by its rewriting
      exactly when it showed the portrait. */
  lemma {:induction false} OptimizedOnce(files: map<string, string>, paths: seq<string>, k: nat)
    requires forall p :: p in paths ==> p in files
    requires NoDuplicates(paths) && k < |paths|
    ensures var edit := OptimizeHtml(files[paths[k]]);
      AfterOptimizing(files, paths)[paths[k]] == if edit.modified then edit.html else files[paths[k]]
  {
    var edit := OptimizeHtml(files[paths[0]]);
    var next := if edit.modified then files[paths[0] := edit.html] else files;
    if k == 0 {
      assert paths[0] !in paths[1..];
    } else {
      assert paths[k] == paths[1..][k - 1];
      assert paths[k] != paths[0];
      OptimizedOnce(next, paths[1..], k - 1);
    }
  }

  /** The loop body of `optimizeImagesInHTML` on one page's text. */
  method OptimizePage(page: string) returns (html: string, modified: bool)
    ensures PageEdit(html, modified) == OptimizeHtml(page)
  {
    html := page;
    modified := false;
    var hero := HeroMatcher(html);
    if FindMatch(hero, html, 0).Some? {
      html := ReplaceAll(hero, HeroReplacement, html, 0);
      modified := true;
    } else {
      NoMatchKeeps(hero, MarkPriority, html, 0);
      assert html[0..] == html;
    }
    html := ReplaceAll(HeroMatcher(html), MarkPriority, html, 0);
    html := ReplaceAll(LazyMatcher(html), MarkLazy, html, 0);
  }

  /** `optimizeImagesInHTML()` over the pages the directory walk found. */
  method OptimizeImagesInHtml(dist: Prerender.Dist, htmlFiles: seq<string>)
    requires forall p :: p in htmlFiles ==> p in dist.files
    modifies dist
    ensures dist.files == AfterOptimizing(old(dist.files), htmlFiles)
  {
    var k := 0;
    while k < |htmlFiles|
      invariant k <= |htmlFiles|
      invariant dist.files.Keys == old(dist.files).Keys
      invariant AfterOptimizing(dist.files, htmlFiles[k..]) == AfterOptimizing(old(dist.files), htmlFiles)
    {
      var path := htmlFiles[k];
      var html, modified := OptimizePage(dist.files[path]);
      assert htmlFiles[k..][1..] == htmlFiles[k + 1..];
      if modified {
        dist.Write(path, html);
      }
      k := k + 1;
    }
  }
}
