/** String operations of JavaScript and Python that the site's code relies on:
    `startsWith`, `endsWith`, `includes`, `indexOf`, `replace` with a string
    pattern (first occurrence only), `trim`/`strip`, ASCII `toLowerCase`,
    `join` and number-to-decimal conversion. */
module Text {

  datatype Option<+T> = None | Some(value: T)

  /** `s.startsWith(p)` */
  predicate StartsWith(s: string, p: string) {
    |p| <= |s| && s[..|p|] == p
  }

  /** `s.endsWith(p)` */
  predicate EndsWith(s: string, p: string) {
    |p| <= |s| && s[|s| - |p|..] == p
  }

  /** `p` occurs in `s` starting at index `i`. */
  predicate OccursAt(s: string, p: string, i: nat) {
    i + |p| <= |s| && s[i..i + |p|] == p
  }

  /** `s.includes(p)` in JavaScript, `p in s` in Python. */
  predicate Contains(s: string, p: string) {
    exists i: nat | i <= |s| :: OccursAt(s, p, i)
  }

  /** The first occurrence of `p` in `s` at or after `from`. */
  function IndexFrom(s: string, p: string, from: nat): (r: Option<nat>)
    decreases |s| - from
    ensures r.Some? ==> from <= r.value && OccursAt(s, p, r.value)
    ensures forall j: nat :: from <= j && (r.None? || j < r.value) ==> !OccursAt(s, p, j)
  {
    if from + |p| > |s| then None
    else if s[from..from + |p|] == p then Some(from)
    else IndexFrom(s, p, from + 1)
  }

  /** `s.indexOf(p)`, with `None` for -1. */
  function IndexOf(s: string, p: string): (r: Option<nat>)
    ensures r.Some? ==> OccursAt(s, p, r.value)
    ensures forall j: nat :: (r.None? || j < r.value) ==> !OccursAt(s, p, j)
  {
    IndexFrom(s, p, 0)
  }

  lemma IndexOfFindsContained(s: string, p: string)
    ensures Contains(s, p) <==> IndexOf(s, p).Some?
  {
    if IndexOf(s, p).Some? {
      assert OccursAt(s, p, IndexOf(s, p).value);
    }
  }

  /** A string starting with `p` has its first occurrence of `p` at 0. */
  lemma IndexOfPrefix(s: string, p: string)
    requires StartsWith(s, p)
    ensures IndexOf(s, p) == Some(0)
  {
    assert OccursAt(s, p, 0);
  }

  /** One differing character rules a prefix out. */
  lemma NotStartsWithAt(s: string, p: string, i: nat)
    requires i < |p| <= |s| && s[i] != p[i]
    ensures !StartsWith(s, p)
  {
    assert s[..|p|][i] == s[i];
  }

  /** A prefix of a prefix is a prefix. */
  lemma StartsWithTransitive(s: string, p: string, q: string)
    requires StartsWith(s, p) && StartsWith(p, q)
    ensures StartsWith(s, q)
  {
    assert s[..|q|] == s[..|p|][..|q|];
  }

  /** Putting the same text in front of both sides keeps a prefix a prefix. */
  lemma StartsWithBoth(lang: string, q: string, pre: string)
    ensures StartsWith(lang + q, lang + pre) == StartsWith(q, pre)
    ensures StartsWith(q, pre) ==> (lang + q)[|lang + pre|..] == q[|pre|..]
  {
    var e := lang + q;
    if |pre| <= |q| {
      assert e[..|lang + pre|] == lang + q[..|pre|];
      if StartsWith(e, lang + pre) {
        assert q[..|pre|] == (lang + q[..|pre|])[|lang|..] == (lang + pre)[|lang|..] == pre;
      }
      assert e[|lang + pre|..] == q[|pre|..];
    }
  }

  /** `s.replace(p, r)` with a string pattern: only the first occurrence is
      replaced; without an occurrence `s` is returned unchanged. */
  function ReplaceFirst(s: string, p: string, r: string): (t: string)
    ensures !Contains(s, p) ==> t == s
    ensures Contains(s, p) ==> |t| == |s| - |p| + |r|
  {
    IndexOfFindsContained(s, p);
    match IndexOf(s, p)
    case None => s
    case Some(i) => s[..i] + r + s[i + |p|..]
  }

  /** Replacing a leading occurrence cuts the prefix off and puts `r` in front. */
  lemma ReplaceLeading(s: string, p: string, r: string)
    requires StartsWith(s, p)
    ensures ReplaceFirst(s, p, r) == r + s[|p|..]
  {
    IndexOfPrefix(s, p);
  }

  /** Replacing the first occurrence of `p` by `p + q` inserts `q` right
      after it and keeps everything else. */
  lemma ReplaceExtends(s: string, p: string, q: string, i: nat)
    requires IndexOf(s, p) == Some(i)
    ensures ReplaceFirst(s, p, p + q) == s[..i + |p|] + q + s[i + |p|..]
  {
    assert s[i..i + |p|] == p;
    assert s[..i + |p|] == s[..i] + p;
    assert s[..i] + (p + q) == s[..i] + p + q;
  }

  /** Replacing the first occurrence of `p` by `q + p` inserts `q` right
      before it and keeps everything else. */
  lemma ReplacePrepends(s: string, p: string, q: string, i: nat)
    requires IndexOf(s, p) == Some(i)
    ensures ReplaceFirst(s, p, q + p) == s[..i] + q + s[i..]
  {
    assert s[i..i + |p|] == p;
    assert s[i..] == p + s[i + |p|..];
  }

  /** The text with `x` and a separator inserted at `k`: `x` starts at
      `k` and the separator follows it. */
  lemma InsertedAt(s: string, k: nat, x: string, sep: char)
    requires k <= |s|
    ensures var t := s[..k] + x + [sep] + s[k..];
      && |t| == |s| + |x| + 1
      && t[k] == (if x == [] then sep else x[0])
      && t[k + |x|] == sep
  {
  }

  /** What lies before `k` is kept. */
  lemma InsertedKeepsFront(s: string, k: nat, x: string, sep: char, j: nat, n: nat)
    requires j + n <= k <= |s|
    ensures (s[..k] + x + [sep] + s[k..])[j..j + n] == s[j..j + n]
  {
    var t := s[..k] + x + [sep] + s[k..];
    assert forall i :: j <= i < j + n ==> t[i] == s[i];
  }

  /** What lies within `x` is `x`. */
  lemma InsertedHoldsX(s: string, k: nat, x: string, sep: char, j: nat, n: nat)
    requires k <= |s| && k <= j && j + n <= k + |x|
    ensures (s[..k] + x + [sep] + s[k..])[j..j + n] == x[j - k..j - k + n]
  {
    var t := s[..k] + x + [sep] + s[k..];
    assert forall i :: j <= i < j + n ==> t[i] == x[i - k];
  }

  /** No occurrence of `p` starts before the end of `x` once `x` and a
      separator are put before the first occurrence of `p`, when `x` holds
      no occurrence and neither the separator nor what follows the front can
      continue a partial one. */
  lemma NoOccurrenceBefore(s: string, p: string, k: nat, x: string, sep: char, j: nat)
    requires p != [] && IndexOf(s, p) == Some(k)
    requires !Contains(x, p)
    requires forall m :: 0 <= m < |p| ==> p[m] != sep
    requires forall m :: 1 <= m < |p| ==> p[m] != (if x == [] then sep else x[0])
    requires j < k + |x| + 1
    ensures !OccursAt(s[..k] + x + [sep] + s[k..], p, j)
  {
    var t := s[..k] + x + [sep] + s[k..];
    InsertedAt(s, k, x, sep);
    if j + |p| > |t| {
    } else if j + |p| <= k {
      InsertedKeepsFront(s, k, x, sep, j, |p|);
      assert !OccursAt(s, p, j);
    } else if j < k {
      assert t[j..j + |p|][k - j] == t[k];
    } else if j + |p| <= k + |x| {
      InsertedHoldsX(s, k, x, sep, j, |p|);
      assert !OccursAt(x, p, j - k);
    } else {
      assert t[j..j + |p|][k + |x| - j] == t[k + |x|];
    }
  }

  /** After such an insertion the first occurrence of `p` is the one it was,
      moved along. */
  lemma InsertKeepsFirst(s: string, p: string, k: nat, x: string, sep: char)
    requires p != [] && IndexOf(s, p) == Some(k)
    requires !Contains(x, p)
    requires forall m :: 0 <= m < |p| ==> p[m] != sep
    requires forall m :: 1 <= m < |p| ==> p[m] != (if x == [] then sep else x[0])
    ensures IndexOf(s[..k] + x + [sep] + s[k..], p) == Some(k + |x| + 1)
  {
    var t := s[..k] + x + [sep] + s[k..];
    var at := k + |x| + 1;
    assert s[k..k + |p|] == p;
    assert t[at..] == s[k..];
    assert t[at..at + |p|] == s[k..][..|p|] == p;
    assert OccursAt(t, p, at);
    forall j: nat | j < at ensures !OccursAt(t, p, j) {
      NoOccurrenceBefore(s, p, k, x, sep, j);
    }
  }

  /** Two texts free of `p`, joined by a character `p` does not hold, are
      still free of `p`. */
  lemma JoinAvoids(a: string, b: string, p: string, sep: char)
    requires !Contains(a, p) && !Contains(b, p)
    requires forall m :: 0 <= m < |p| ==> p[m] != sep
    ensures !Contains(a + [sep] + b, p)
  {
    var t := a + [sep] + b;
    forall i: nat | i <= |t| ensures !OccursAt(t, p, i) {
      if i + |p| > |t| {
      } else if i + |p| <= |a| {
        assert t[i..i + |p|] == a[i..i + |p|];
        assert !OccursAt(a, p, i);
      } else if i <= |a| {
        assert t[i..i + |p|][|a| - i] == sep;
      } else {
        var j := i - |a| - 1;
        assert t[i..i + |p|] == b[j..j + |p|];
        assert !OccursAt(b, p, j);
      }
    }
  }

  /** Two prefixes that differ at their second character exclude each
      other. */
  lemma PrefixesExclusive(s: string, a: string, b: string)
    requires |a| >= 2 && |b| >= 2 && a[1] != b[1]
    ensures !(StartsWith(s, a) && StartsWith(s, b))
  {
  }

  /** `String.prototype.toLowerCase`, restricted to ASCII letters. */
  function LowerChar(c: char): char {
    if 'A' <= c <= 'Z' then (c as int + 32) as char else c
  }

  function ToLower(s: string): (r: string)
    ensures |r| == |s|
    ensures forall i :: 0 <= i < |s| ==> r[i] == LowerChar(s[i])
  {
    seq(|s|, i requires 0 <= i < |s| => LowerChar(s[i]))
  }

  /** Lower-casing twice is lower-casing once. */
  lemma ToLowerIdempotent(s: string)
    ensures ToLower(ToLower(s)) == ToLower(s)
  {
    var once := ToLower(s);
    assert forall i :: 0 <= i < |s| ==> LowerChar(once[i]) == once[i];
  }

  /** Lower-casing goes part by part. */
  lemma ToLowerAppend(a: string, b: string)
    ensures ToLower(a + b) == ToLower(a) + ToLower(b)
  {
    assert forall i :: 0 <= i < |a + b| ==> ToLower(a + b)[i] == (ToLower(a) + ToLower(b))[i];
  }

  /** A concatenation starts with its first part and ends with its last. */
  lemma ConcatEnds(a: string, b: string)
    ensures StartsWith(a + b, a) && EndsWith(a + b, b)
  {
    assert (a + b)[..|a|] == a;
    assert (a + b)[|a + b| - |b|..] == b;
  }

  /** The first index at or after `from` that holds `c`. */
  function CharFrom(s: string, c: char, from: nat): (r: Option<nat>)
    decreases |s| - from
    ensures r.Some? ==> from <= r.value < |s| && s[r.value] == c
    ensures forall j :: from <= j < |s| && (r.None? || j < r.value) ==> s[j] != c
  {
    if from >= |s| then None
    else if s[from] == c then Some(from)
    else CharFrom(s, c, from + 1)
  }

  /** A text contains its own beginning. */
  lemma ContainsFront(p: string, rest: string)
    ensures Contains(p + rest, p)
  {
    assert OccursAt(p + rest, p, 0) by {
      assert (p + rest)[..|p|] == p;
    }
  }

  /** Whatever a text contains, the text behind a front contains too. */
  lemma ContainsBehind(front: string, s: string, p: string)
    requires Contains(s, p)
    ensures Contains(front + s, p)
  {
    var i: nat :| i <= |s| && OccursAt(s, p, i);
    assert (front + s)[|front| + i..|front| + i + |p|] == s[i..i + |p|];
    assert OccursAt(front + s, p, |front| + i);
  }

  /** `c in s`, one character at a time. */
  predicate HasChar(s: string, c: char)
    ensures HasChar(s, c) <==> c in s
  {
    s != [] && (s[0] == c || HasChar(s[1..], c))
  }

  /** Text between a fixed prefix and a fixed suffix is determined by the
      whole. */
  lemma MiddleDetermined(pre: string, a: string, b: string, post: string)
    requires pre + a + post == pre + b + post
    ensures a == b
  {
    var s := pre + a + post;
    assert a == s[|pre|..|s| - |post|];
    assert b == (pre + b + post)[|pre|..|s| - |post|];
  }

  /** The two notions of white space in the code base: JavaScript's (used by
      `trim` and by `\s` in a regular expression) and Python's (`str.strip`). */
  datatype Whitespace = Js | Py

  predicate IsSpace(w: Whitespace, c: char) {
    var n := c as int;
    || (0x09 <= n <= 0x0D) || n == 0x20 || n == 0xA0 || n == 0x1680
    || (0x2000 <= n <= 0x200A) || n == 0x2028 || n == 0x2029
    || n == 0x202F || n == 0x205F || n == 0x3000
    || (w == Js && n == 0xFEFF)
    || (w == Py && ((0x1C <= n <= 0x1F) || n == 0x85))
  }

  /** Drops leading white space; the result is a suffix of `s`. */
  function TrimStart(w: Whitespace, s: string): (r: string)
    ensures |r| <= |s| && r == s[|s| - |r|..]
    ensures forall i :: 0 <= i < |s| - |r| ==> IsSpace(w, s[i])
    ensures r == [] || !IsSpace(w, r[0])
  {
    if |s| > 0 && IsSpace(w, s[0]) then TrimStart(w, s[1..]) else s
  }

  /** Drops trailing white space; the result is a prefix of `s`. */
  function TrimEnd(w: Whitespace, s: string): (r: string)
    ensures |r| <= |s| && r == s[..|r|]
    ensures forall i :: |r| <= i < |s| ==> IsSpace(w, s[i])
    ensures r == [] || !IsSpace(w, r[|r| - 1])
  {
    if |s| > 0 && IsSpace(w, s[|s| - 1]) then TrimEnd(w, s[..|s| - 1]) else s
  }

  /** `s.trim()` (Js) or `s.strip()` (Py). */
  function Trim(w: Whitespace, s: string): (r: string)
    ensures r == [] || (!IsSpace(w, r[0]) && !IsSpace(w, r[|r| - 1]))
  {
    TrimEnd(w, TrimStart(w, s))
  }

  /** Surrounding a text that neither starts nor ends with white space by
      white space, then trimming, gives the text back. */
  lemma {:induction false} TrimSurrounded(w: Whitespace, pre: string, x: string, post: string)
    requires forall i :: 0 <= i < |pre| ==> IsSpace(w, pre[i])
    requires forall i :: 0 <= i < |post| ==> IsSpace(w, post[i])
    requires |x| > 0 && !IsSpace(w, x[0]) && !IsSpace(w, x[|x| - 1])
    ensures Trim(w, pre + x + post) == x
  {
    TrimStartSpaces(w, pre, x + post);
    assert pre + x + post == pre + (x + post);
    TrimEndSpaces(w, x, post);
  }

  lemma {:induction false} TrimStartSpaces(w: Whitespace, pre: string, rest: string)
    requires forall i :: 0 <= i < |pre| ==> IsSpace(w, pre[i])
    requires |rest| > 0 && !IsSpace(w, rest[0])
    ensures TrimStart(w, pre + rest) == rest
  {
    if pre == [] {
      assert pre + rest == rest;
    } else {
      assert (pre + rest)[1..] == pre[1..] + rest;
      TrimStartSpaces(w, pre[1..], rest);
    }
  }

  lemma {:induction false} TrimEndSpaces(w: Whitespace, rest: string, post: string)
    requires forall i :: 0 <= i < |post| ==> IsSpace(w, post[i])
    requires |rest| > 0 && !IsSpace(w, rest[|rest| - 1])
    ensures TrimEnd(w, rest + post) == rest
  {
    if post == [] {
      assert rest + post == rest;
    } else {
      var s := rest + post;
      assert s[..|s| - 1] == rest + post[..|post| - 1];
      TrimEndSpaces(w, rest, post[..|post| - 1]);
    }
  }

  /** Trimming twice is trimming once. */
  lemma TrimIdempotent(w: Whitespace, s: string)
    ensures Trim(w, Trim(w, s)) == Trim(w, s)
  {
    var t := Trim(w, s);
    if t != [] {
      TrimSurrounded(w, [], t, []);
      assert [] + t + [] == t;
    }
  }

  /** `parts.join(sep)` */
  function Join(parts: seq<string>, sep: string): string {
    if |parts| == 0 then ""
    else if |parts| == 1 then parts[0]
    else parts[0] + sep + Join(parts[1..], sep)
  }

  /** Joining two non-empty lists is joining their joins. */
  lemma {:induction false} JoinAppend(a: seq<string>, b: seq<string>, sep: string)
    requires |a| > 0 && |b| > 0
    ensures Join(a + b, sep) == Join(a, sep) + sep + Join(b, sep)
  {
    if |a| == 1 {
      assert (a + b)[1..] == b;
    } else {
      assert (a + b)[1..] == a[1..] + b;
      JoinAppend(a[1..], b, sep);
    }
  }

  predicate IsDigit(c: char) {
    '0' <= c <= '9'
  }

  function DigitChar(d: nat): (c: char)
    requires d < 10
    ensures IsDigit(c)
  {
    ('0' as int + d) as char
  }

  /** The decimal text of a non-negative number, as `${n}` produces it. */
  function NatToString(n: nat): (r: string)
    ensures |r| > 0 && forall i :: 0 <= i < |r| ==> IsDigit(r[i])
  {
    if n < 10 then [DigitChar(n)] else NatToString(n / 10) + [DigitChar(n % 10)]
  }

  /** The value of a decimal digit string. */
  function DigitsValue(s: string): nat
    requires forall i :: 0 <= i < |s| ==> IsDigit(s[i])
  {
    if s == [] then 0
    else
      assert IsDigit(s[|s| - 1]);
      DigitsValue(s[..|s| - 1]) * 10 + (s[|s| - 1] as int - '0' as int)
  }

  /** Reading the decimal text back gives the number. */
  lemma {:induction false} NatToStringRoundTrip(n: nat)
    ensures DigitsValue(NatToString(n)) == n
  {
    var s := NatToString(n);
    if n >= 10 {
      NatToStringRoundTrip(n / 10);
      assert s[..|s| - 1] == NatToString(n / 10);
    }
  }
}
