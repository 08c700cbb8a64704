/** Optional values: JavaScript's `null`/`undefined` and Python's `None`. */
module Options {
  datatype Option<T> = None | Some(value: T)
}

/**
 * The array primitives the source leans on: order-preserving `filter` and the
 * first-match searches `findIndex` / `find`.
 */
module Seqs {
  import opened Options

  function Filter<T>(p: T -> bool, xs: seq<T>): (r: seq<T>)
    ensures |r| <= |xs|
    ensures forall i :: 0 <= i < |r| ==> p(r[i]) && r[i] in xs
  {
    if xs == [] then []
    else if p(xs[0]) then [xs[0]] + Filter(p, xs[1..])
    else Filter(p, xs[1..])
  }

  /** Filtering keeps every kept element as often as it occurred, and drops the rest entirely. */
  lemma {:induction false} FilterCount<T>(p: T -> bool, xs: seq<T>, x: T)
    ensures multiset(Filter(p, xs))[x] == if p(x) then multiset(xs)[x] else 0
  {
    if xs != [] {
      FilterCount(p, xs[1..], x);
      assert xs == [xs[0]] + xs[1..];
    }
  }

  /** Filtering a concatenation filters each part. */
  lemma {:induction false} FilterAppend<T>(p: T -> bool, xs: seq<T>, ys: seq<T>)
    ensures Filter(p, xs + ys) == Filter(p, xs) + Filter(p, ys)
  {
    if xs == [] {
      assert xs + ys == ys;
    } else {
      assert (xs + ys)[1..] == xs[1..] + ys;
      FilterAppend(p, xs[1..], ys);
    }
  }

  /** `rel` holds between every element and every later one. */
  ghost predicate Pairwise<T>(xs: seq<T>, rel: (T, T) -> bool) {
    forall i, j :: 0 <= i < j < |xs| ==> rel(xs[i], xs[j])
  }

  /** A relation that holds between every earlier and later element still holds after filtering. */
  lemma {:induction false} FilterPairwise<T>(p: T -> bool, xs: seq<T>, rel: (T, T) -> bool)
    requires Pairwise(xs, rel)
    ensures Pairwise(Filter(p, xs), rel)
  {
    if xs != [] {
      var tail := xs[1..];
      assert Pairwise(tail, rel) by {
        forall i, j | 0 <= i < j < |tail| ensures rel(tail[i], tail[j]) {
          assert tail[i] == xs[i + 1] && tail[j] == xs[j + 1];
        }
      }
      FilterPairwise(p, tail, rel);
      var f := Filter(p, tail);
      if p(xs[0]) {
        var r := [xs[0]] + f;
        assert Filter(p, xs) == r;
        forall i, j | 0 <= i < j < |r| ensures rel(r[i], r[j]) {
          if i == 0 {
            assert r[j] in tail;
            var k :| 0 <= k < |tail| && tail[k] == r[j];
            assert tail[k] == xs[k + 1];
            assert rel(xs[0], xs[k + 1]);
          } else {
            assert r[i] == f[i - 1] && r[j] == f[j - 1];
          }
        }
      } else {
        assert Filter(p, xs) == f;
      }
    }
  }

  /** The index of the first element satisfying `p`, if any. */
  function FirstIndex<T>(p: T -> bool, xs: seq<T>): (r: Option<nat>)
    ensures r.Some? ==> r.value < |xs| && p(xs[r.value]) && forall j :: 0 <= j < r.value ==> !p(xs[j])
    ensures r.None? ==> forall j :: 0 <= j < |xs| ==> !p(xs[j])
  {
    if xs == [] then None
    else if p(xs[0]) then Some(0)
    else match FirstIndex(p, xs[1..])
      case None => None
      case Some(i) => Some(i + 1)
  }

  /** `xs.findIndex(p)`: a linear scan that stops at the first hit; -1 when there is none. */
  method FindIndex<T>(p: T -> bool, xs: seq<T>) returns (idx: int)
    ensures FirstIndex(p, xs) == if idx < 0 then None else Some(idx)
    ensures -1 <= idx < |xs|
  {
    idx := 0;
    while idx < |xs|
      invariant 0 <= idx <= |xs|
      invariant forall j :: 0 <= j < idx ==> !p(xs[j])
    {
      if p(xs[idx]) {
        return;
      }
      idx := idx + 1;
    }
    idx := -1;
  }

  /** A filter that rejects exactly one position is one shorter than its input. */
  lemma {:induction false} FilterDropsOne<T>(p: T -> bool, xs: seq<T>, k: nat)
    requires k < |xs| && !p(xs[k])
    requires forall j :: 0 <= j < |xs| && j != k ==> p(xs[j])
    ensures |Filter(p, xs)| == |xs| - 1
  {
    if k == 0 {
      FilterAll(p, xs[1..]);
    } else {
      FilterDropsOne(p, xs[1..], k - 1);
    }
  }

  /** A filter that rejects nothing is the identity. */
  lemma {:induction false} FilterAll<T>(p: T -> bool, xs: seq<T>)
    requires forall i :: 0 <= i < |xs| ==> p(xs[i])
    ensures Filter(p, xs) == xs
  {
    if xs != [] {
      FilterAll(p, xs[1..]);
    }
  }
}

/**
 * The string primitives the source uses: `trim`, `toLowerCase`, `split`
 * on one character, and `join` (JavaScript `Array.join`, Python `str.join`).
 */
module Text {
  import opened Seqs

  /**
   * Characters removed by `String.prototype.trim` and skipped around a numeral
   * by `Number`: the ECMAScript white space (tab, vertical tab, form feed, the
   * byte order mark and every Unicode space separator) and the four line
   * terminators.
   */
  predicate IsSpace(c: char) {
    c == '\t' || c == '\U{0B}' || c == '\U{0C}' || c == ' ' || c == '\U{A0}' || c == '\U{FEFF}'
    || c == '\U{1680}' || ('\U{2000}' <= c <= '\U{200A}') || c == '\U{202F}' || c == '\U{205F}' || c == '\U{3000}'
    || c == '\n' || c == '\r' || c == '\U{2028}' || c == '\U{2029}'
  }

  /** No whitespace at either end. */
  predicate IsTrimmed(s: string) {
    s == [] || (!IsSpace(s[0]) && !IsSpace(s[|s| - 1]))
  }

  /** Nothing but whitespace. */
  predicate AllSpace(s: string) {
    forall k :: 0 <= k < |s| ==> IsSpace(s[k])
  }

  /** `r` sits in `s` at offset `i` with only whitespace around it. */
  predicate PaddedAt(s: string, i: nat, r: string) {
    i + |r| <= |s| && s[i..i + |r|] == r && AllSpace(s[..i]) && AllSpace(s[i + |r|..])
  }

  /** Index of the first non-whitespace character, or `|s|`. */
  function LeadingSpaces(s: string): (n: nat)
    ensures n <= |s| && AllSpace(s[..n]) && (n == |s| || !IsSpace(s[n]))
  {
    if s == [] || !IsSpace(s[0]) then 0
    else
      var n := 1 + LeadingSpaces(s[1..]);
      assert forall k :: 1 <= k < n ==> s[..n][k] == s[1..][..n - 1][k - 1];
      n
  }

  /** Index just past the last non-whitespace character, or 0. */
  function ContentEnd(s: string): (n: nat)
    ensures n <= |s| && AllSpace(s[n..]) && (n == 0 || !IsSpace(s[n - 1]))
  {
    if s == [] || !IsSpace(s[|s| - 1]) then |s|
    else
      var n := ContentEnd(s[..|s| - 1]);
      assert forall k :: 0 <= k < |s| - 1 - n ==> s[n..][k] == s[..|s| - 1][n..][k];
      n
  }

  /** `s.trim()`: the slice of `s` left after dropping whitespace at both ends. */
  function Trim(s: string): (r: string)
    ensures IsTrimmed(r)
    ensures exists i :: PaddedAt(s, i, r)
    ensures r == [] <==> AllSpace(s)
  {
    var i := LeadingSpaces(s);
    if i == |s| then
      assert PaddedAt(s, i, []);
      []
    else
      var j := ContentEnd(s);
      assert i < j;
      assert PaddedAt(s, i, s[i..j]);
      assert !AllSpace(s) by { assert !IsSpace(s[i]); }
      s[i..j]
  }

  lemma AllSpaceAppend(a: string, b: string)
    requires AllSpace(a) && AllSpace(b)
    ensures AllSpace(a + b)
  {
    forall k | 0 <= k < |a + b| ensures IsSpace((a + b)[k]) {
      if k < |a| {
        assert (a + b)[k] == a[k];
      } else {
        assert (a + b)[k] == b[k - |a|];
      }
    }
  }

  /** A non-space character after nothing but whitespace is where the leading whitespace ends. */
  lemma {:induction false} LeadingSpacesAt(s: string, i: nat)
    requires i < |s| && AllSpace(s[..i]) && !IsSpace(s[i])
    ensures LeadingSpaces(s) == i
  {
    if i > 0 {
      assert IsSpace(s[..i][0]);
      assert s[1..][..i - 1] == s[..i][1..];
      LeadingSpacesAt(s[1..], i - 1);
    }
  }

  /** A non-space character before nothing but whitespace is where the content ends. */
  lemma {:induction false} ContentEndAt(s: string, j: nat)
    requires 0 < j <= |s| && AllSpace(s[j..]) && !IsSpace(s[j - 1])
    ensures ContentEnd(s) == j
  {
    if j < |s| {
      assert IsSpace(s[j..][|s| - 1 - j]);
      assert s[..|s| - 1][j..] == s[j..][..|s| - 1 - j];
      ContentEndAt(s[..|s| - 1], j);
    }
  }

  /** `Trim(s)` is the one trimmed string that sits in `s` with only whitespace around it. */
  lemma TrimUnique(s: string, i: nat, r: string)
    requires PaddedAt(s, i, r) && IsTrimmed(r)
    ensures Trim(s) == r
  {
    if r == [] {
      assert s == s[..i] + s[i..];
      AllSpaceAppend(s[..i], s[i..]);
    } else {
      var j := i + |r|;
      assert s[i] == r[0] && s[j - 1] == r[|r| - 1];
      LeadingSpacesAt(s, i);
      ContentEndAt(s, j);
    }
  }

  /** Whitespace in front keeps a padded string padded, further along. */
  lemma PaddedAfterPrefix(w: string, x: string, i: nat, r: string)
    requires AllSpace(w) && PaddedAt(x, i, r)
    ensures PaddedAt(w + x, |w| + i, r)
  {
    var s := w + x;
    assert s[..|w| + i] == w + x[..i];
    assert s[|w| + i..|w| + i + |r|] == x[i..i + |r|];
    assert s[|w| + i + |r|..] == x[i + |r|..];
    AllSpaceAppend(w, x[..i]);
  }

  /** Whitespace after keeps a padded string padded, at the same place. */
  lemma PaddedBeforeSuffix(x: string, w: string, i: nat, r: string)
    requires AllSpace(w) && PaddedAt(x, i, r)
    ensures PaddedAt(x + w, i, r)
  {
    var s := x + w;
    assert s[..i] == x[..i];
    assert s[i..i + |r|] == x[i..i + |r|];
    assert s[i + |r|..] == x[i + |r|..] + w;
    AllSpaceAppend(x[i + |r|..], w);
  }

  /** Whitespace in front of a string makes no difference to its trim. */
  lemma TrimPrefixSpace(w: string, x: string)
    requires AllSpace(w)
    ensures Trim(w + x) == Trim(x)
  {
    var r := Trim(x);
    var i: nat :| PaddedAt(x, i, r);
    PaddedAfterPrefix(w, x, i, r);
    TrimUnique(w + x, |w| + i, r);
  }

  /** Whitespace after a string makes no difference to its trim. */
  lemma TrimSuffixSpace(x: string, w: string)
    requires AllSpace(w)
    ensures Trim(x + w) == Trim(x)
  {
    var r := Trim(x);
    var i: nat :| PaddedAt(x, i, r);
    PaddedBeforeSuffix(x, w, i, r);
    TrimUnique(x + w, i, r);
  }

  /** An ideographic space (U+3000) is whitespace to `trim` like any other space separator. */
  lemma TrimIdeographicSpace()
    ensures Trim("\U{3000}CS 180") == "CS 180"
  {
    var s := "\U{3000}CS 180";
    assert s[..1] == "\U{3000}" && s[1..7] == "CS 180" && s[7..] == "";
    TrimUnique(s, 1, "CS 180");
  }

  /** Trimming a string that already has no surrounding whitespace changes nothing. */
  lemma TrimTrimmed(s: string)
    requires IsTrimmed(s)
    ensures Trim(s) == s
  {
  }

  /** Trimming removes characters and never adds any. */
  lemma TrimAvoids(s: string, c: char)
    requires c !in s
    ensures c !in Trim(s)
  {
    var r := Trim(s);
    var i: nat :| PaddedAt(s, i, r);
    assert r == s[i..i + |r|];
  }

  /** ASCII lower-casing of one character. */
  function LowerChar(c: char): char {
    if 'A' <= c <= 'Z' then (c as int + 32) as char else c
  }

  /** `s.toLowerCase()` (ASCII letters only). */
  function Lower(s: string): string {
    seq(|s|, i requires 0 <= i < |s| => LowerChar(s[i]))
  }

  /** The two strings are equal once both are lower-cased. */
  predicate EqualsIgnoringCase(a: string, b: string) {
    Lower(a) == Lower(b)
  }

  /** Every entry lower-cased, in order. */
  function LowerAll(xs: seq<string>): (r: seq<string>)
    ensures |r| == |xs|
    ensures forall i :: 0 <= i < |xs| ==> r[i] == Lower(xs[i])
  {
    if xs == [] then [] else [Lower(xs[0])] + LowerAll(xs[1..])
  }

  /** `s.split(sep)`: the maximal sep-free pieces, in order; never an empty list. */
  function Split(s: string, sep: char): (r: seq<string>)
    ensures |r| >= 1
    ensures forall i :: 0 <= i < |r| ==> sep !in r[i]
  {
    if s == [] then [""]
    else
      var rest := Split(s[1..], sep);
      if s[0] == sep then [""] + rest
      else [[s[0]] + rest[0]] + rest[1..]
  }

  /** `xs.join(sep)` / `sep.join(xs)`: no separator before the first or after the last piece. */
  function Join(xs: seq<string>, sep: string): string {
    if |xs| == 0 then ""
    else if |xs| == 1 then xs[0]
    else xs[0] + sep + Join(xs[1..], sep)
  }

  /** A piece free of the separator is one whole piece of the split. */
  lemma {:induction false} SplitPlain(a: string, sep: char)
    requires sep !in a
    ensures Split(a, sep) == [a]
  {
    if a != [] {
      SplitPlain(a[1..], sep);
      assert [a[0]] + a[1..] == a;
    }
  }

  /** Splitting `a + sep + b`, with `a` free of the separator, yields `a` and then the pieces of `b`. */
  lemma {:induction false} SplitCons(a: string, b: string, sep: char)
    requires sep !in a
    ensures Split(a + [sep] + b, sep) == [a] + Split(b, sep)
  {
    var s := a + [sep] + b;
    if a == [] {
      assert s[1..] == b;
    } else {
      assert s[1..] == a[1..] + [sep] + b;
      SplitCons(a[1..], b, sep);
      assert [a[0]] + a[1..] == a;
    }
  }

  /** Split undoes a one-character join when no piece contains the separator. */
  lemma {:induction false} SplitJoin(xs: seq<string>, sep: char)
    requires |xs| >= 1
    requires forall i :: 0 <= i < |xs| ==> sep !in xs[i]
    ensures Split(Join(xs, [sep]), sep) == xs
  {
    if |xs| == 1 {
      SplitPlain(xs[0], sep);
    } else {
      SplitJoin(xs[1..], sep);
      SplitCons(xs[0], Join(xs[1..], [sep]), sep);
      assert [xs[0]] + xs[1..] == xs;
    }
  }

  /** A separator-free prefix joins the first piece of the split and leaves the others alone. */
  lemma {:induction false} SplitPrefix(w: string, s: string, sep: char)
    requires sep !in w
    ensures |Split(w + s, sep)| == |Split(s, sep)|
    ensures Split(w + s, sep)[0] == w + Split(s, sep)[0]
    ensures Split(w + s, sep)[1..] == Split(s, sep)[1..]
  {
    if w == [] {
      assert w + s == s;
    } else {
      assert (w + s)[0] == w[0];
      assert (w + s)[1..] == w[1..] + s;
      SplitPrefix(w[1..], s, sep);
      assert [w[0]] + (w[1..] + Split(s, sep)[0]) == w + Split(s, sep)[0];
    }
  }

  /** A separator-free suffix joins the last piece of the split and leaves the others alone. */
  lemma {:induction false} SplitSuffix(s: string, w: string, sep: char)
    requires sep !in w
    ensures var n := |Split(s, sep)|;
            && |Split(s + w, sep)| == n
            && (forall k :: 0 <= k < n - 1 ==> Split(s + w, sep)[k] == Split(s, sep)[k])
            && Split(s + w, sep)[n - 1] == Split(s, sep)[n - 1] + w
  {
    if s == [] {
      assert s + w == w;
      SplitPlain(w, sep);
    } else {
      assert (s + w)[0] == s[0];
      assert (s + w)[1..] == s[1..] + w;
      SplitSuffix(s[1..], w, sep);
      var t := Split(s[1..], sep);
      var q := Split(s[1..] + w, sep);
      if s[0] != sep {
        assert Split(s + w, sep) == [[s[0]] + q[0]] + q[1..];
        assert Split(s, sep) == [[s[0]] + t[0]] + t[1..];
        if |t| == 1 {
          assert [s[0]] + (t[0] + w) == [s[0]] + t[0] + w;
        }
      }
    }
  }

  /** Whitespace holds no non-space separator. */
  lemma SpaceAvoids(a: string, sep: char)
    requires AllSpace(a) && !IsSpace(sep)
    ensures sep !in a
  {
    forall k | 0 <= k < |a| ensures a[k] != sep {
      assert IsSpace(a[k]);
    }
  }

  /** The pieces of a split of `a + (t + b)`, where `a` and `b` hold no separator, against those of `t`. */
  lemma PiecesAround(a: string, t: string, b: string, sep: char)
    requires sep !in a && sep !in b
    ensures var ts := Split(t, sep);
            var ps := Split(a + (t + b), sep);
            var n := |ts|;
            && |ps| == n
            && (n == 1 ==> ps[0] == a + (ts[0] + b))
            && (n > 1 ==> ps[0] == a + ts[0] && ps[n - 1] == ts[n - 1] + b)
            && forall k :: 0 < k < n - 1 ==> ps[k] == ts[k]
  {
    SplitSuffix(t, b, sep);
    SplitPrefix(a, t + b, sep);
    var ps := Split(a + (t + b), sep);
    var q := Split(t + b, sep);
    forall k | 0 < k < |ps| ensures ps[k] == q[k] {
      assert ps[k] == ps[1..][k - 1];
    }
  }

  /** Whitespace on both sides of a string makes no difference to its trim. */
  lemma TrimBetweenSpace(a: string, x: string, b: string)
    requires AllSpace(a) && AllSpace(b)
    ensures Trim(a + (x + b)) == Trim(x)
  {
    TrimPrefixSpace(a, x + b);
    TrimSuffixSpace(x, b);
  }

  /**
   * Two piece lists of the same length that differ only by whitespace added
   * to the front of the first piece and the back of the last trim alike.
   */
  lemma TrimPaddedPieces(ts: seq<string>, ps: seq<string>, a: string, b: string)
    requires AllSpace(a) && AllSpace(b)
    requires |ts| >= 1 && |ps| == |ts|
    requires |ts| == 1 ==> ps[0] == a + (ts[0] + b)
    requires |ts| > 1 ==> ps[0] == a + ts[0] && ps[|ts| - 1] == ts[|ts| - 1] + b
    requires forall k :: 0 < k < |ts| - 1 ==> ps[k] == ts[k]
    ensures forall k :: 0 <= k < |ts| ==> Trim(ts[k]) == Trim(ps[k])
  {
    var n := |ts|;
    forall k | 0 <= k < n ensures Trim(ts[k]) == Trim(ps[k]) {
      if n == 1 {
        TrimBetweenSpace(a, ts[0], b);
      } else if k == 0 {
        TrimPrefixSpace(a, ts[0]);
      } else if k == n - 1 {
        TrimSuffixSpace(ts[k], b);
      }
    }
  }

  /** Whitespace around a text only pads the first and last pieces of its split, which trim the same. */
  lemma TrimPiecesAround(a: string, t: string, b: string, sep: char)
    requires AllSpace(a) && AllSpace(b) && !IsSpace(sep)
    ensures |Split(a + (t + b), sep)| == |Split(t, sep)|
    ensures forall k :: 0 <= k < |Split(t, sep)| ==> Trim(Split(t, sep)[k]) == Trim(Split(a + (t + b), sep)[k])
  {
    SpaceAvoids(a, sep);
    SpaceAvoids(b, sep);
    PiecesAround(a, t, b, sep);
    TrimPaddedPieces(Split(t, sep), Split(a + (t + b), sep), a, b);
  }

  /**
   * Trimming the whole text before splitting it at a non-space separator
   * gives pieces that trim to the same strings as the untrimmed text's pieces.
   */
  lemma TrimThenSplit(raw: string, sep: char)
    requires !IsSpace(sep)
    ensures |Split(Trim(raw), sep)| == |Split(raw, sep)|
    ensures forall k :: 0 <= k < |Split(raw, sep)| ==> Trim(Split(Trim(raw), sep)[k]) == Trim(Split(raw, sep)[k])
  {
    var t := Trim(raw);
    var i: nat :| PaddedAt(raw, i, t);
    var a := raw[..i];
    var b := raw[i + |t|..];
    assert raw == a + (t + b) by {
      assert raw == raw[..i] + raw[i..i + |t|] + raw[i + |t|..];
    }
    TrimPiecesAround(a, t, b, sep);
  }

  /** A character found in no piece and not in the separator is not in the join. */
  lemma {:induction false} JoinAvoids(xs: seq<string>, sep: string, c: char)
    requires c !in sep
    requires forall i :: 0 <= i < |xs| ==> c !in xs[i]
    ensures c !in Join(xs, sep)
  {
    if |xs| > 1 {
      JoinAvoids(xs[1..], sep, c);
    }
  }

  /** The join starts with the first piece and ends with the last one. */
  lemma {:induction false} JoinEnds(xs: seq<string>, sep: string)
    requires |xs| >= 1
    ensures |Join(xs, sep)| >= |xs[0]| && Join(xs, sep)[..|xs[0]|] == xs[0]
    ensures |Join(xs, sep)| >= |xs[|xs| - 1]|
    ensures Join(xs, sep)[|Join(xs, sep)| - |xs[|xs| - 1]|..] == xs[|xs| - 1]
  {
    if |xs| > 1 {
      JoinEnds(xs[1..], sep);
      var j := Join(xs[1..], sep);
      assert Join(xs, sep) == xs[0] + sep + j;
      var last := xs[|xs| - 1];
      assert xs[1..][|xs[1..]| - 1] == last;
      assert (xs[0] + sep + j)[|xs[0] + sep + j| - |last|..] == j[|j| - |last|..];
    }
  }
}
