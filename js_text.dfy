/** The JavaScript built-ins the core relies on: `trim`, `split`, `substring` and `filter`. */
module JsText {

  /** The characters `String.prototype.trim` removes: ECMAScript WhiteSpace and LineTerminator. */
  predicate IsJsWhitespace(c: char) {
    || '\t' <= c <= '\r'            // tab, line feed, vertical tab, form feed, carriage return
    || c == ' ' || c == '\U{00A0}' || c == '\U{1680}'
    || '\U{2000}' <= c <= '\U{200A}'
    || c == '\U{2028}' || c == '\U{2029}' || c == '\U{202F}' || c == '\U{205F}'
    || c == '\U{3000}' || c == '\U{FEFF}'
  }

  predicate AllWhitespace(s: string) {
    forall i :: 0 <= i < |s| ==> IsJsWhitespace(s[i])
  }

  /** Neither the first nor the last character is whitespace. */
  predicate NoEdgeWhitespace(s: string) {
    |s| > 0 ==> !IsJsWhitespace(s[0]) && !IsJsWhitespace(s[|s| - 1])
  }

  /** `s` without its leading whitespace. */
  function TrimStart(s: string): (r: string)
    ensures |r| <= |s| && r == s[|s| - |r|..]
    ensures AllWhitespace(s[..|s| - |r|])
    ensures |r| > 0 ==> !IsJsWhitespace(r[0])
  {
    if |s| > 0 && IsJsWhitespace(s[0]) then TrimStart(s[1..]) else s
  }

  /** `s` without its trailing whitespace. */
  function TrimEnd(s: string): (r: string)
    ensures |r| <= |s| && r == s[..|r|]
    ensures AllWhitespace(s[|r|..])
    ensures |r| > 0 ==> !IsJsWhitespace(r[|r| - 1])
  {
    if |s| > 0 && IsJsWhitespace(s[|s| - 1]) then TrimEnd(s[..|s| - 1]) else s
  }

  /** `String.prototype.trim`. */
  function Trim(s: string): string {
    TrimEnd(TrimStart(s))
  }

  /** `r` sits at offset `lo` of `s`, with only whitespace before and after it. */
  predicate SurroundedByWhitespace(s: string, r: string, lo: int) {
    && 0 <= lo <= |s| - |r|
    && s[lo..lo + |r|] == r
    && AllWhitespace(s[..lo]) && AllWhitespace(s[lo + |r|..])
  }

  /** `Trim` keeps one contiguous run of `s` with no whitespace at either end, and drops only whitespace around it. */
  lemma TrimSpec(s: string)
    ensures NoEdgeWhitespace(Trim(s))
    ensures exists lo :: SurroundedByWhitespace(s, Trim(s), lo)
  {
    TrimEdges(s);
    TrimSurrounded(s);
  }

  lemma TrimSurrounded(s: string)
    ensures SurroundedByWhitespace(s, Trim(s), |s| - |TrimStart(s)|)
  {
    WhitespaceAround(s, TrimStart(s), Trim(s));
  }

  /** Dropping whitespace from the front of `s`, giving `t`, then from the back of `t`, leaves `r` surrounded by that whitespace in `s`. */
  lemma WhitespaceAround(s: string, t: string, r: string)
    requires |t| <= |s| && t == s[|s| - |t|..] && AllWhitespace(s[..|s| - |t|])
    requires |r| <= |t| && r == t[..|r|] && AllWhitespace(t[|r|..])
    ensures SurroundedByWhitespace(s, r, |s| - |t|)
  {
    var lo := |s| - |t|;
    SlicesOfSuffix(s, lo, |r|);
    assert s[lo + |r|..] == t[|r|..];
  }

  /** Slicing a suffix of `s` is slicing `s` at shifted offsets. */
  lemma SlicesOfSuffix<T>(s: seq<T>, lo: nat, k: nat)
    requires lo + k <= |s|
    ensures s[lo..][..k] == s[lo..lo + k]
    ensures s[lo..][k..] == s[lo + k..]
  {
  }

  /** Neither end of `Trim(s)` is whitespace. */
  lemma TrimEdges(s: string)
    ensures NoEdgeWhitespace(Trim(s))
  {
    var t := TrimStart(s);
    var r := TrimEnd(t);
    if |r| > 0 {
      assert r[0] == t[0];
    }
  }

  /** A string already free of edge whitespace is left as it is. */
  lemma TrimKeepsTrimmed(s: string)
    requires NoEdgeWhitespace(s)
    ensures Trim(s) == s
  {
  }

  /** Trimming twice is trimming once. */
  lemma TrimIdempotent(s: string)
    ensures Trim(Trim(s)) == Trim(s)
  {
    TrimSpec(s);
    TrimKeepsTrimmed(Trim(s));
  }

  /** `String.prototype.split` with a one-character separator: always at least one part, none holding the separator. */
  function Split(s: string, sep: char): (parts: seq<string>)
    ensures |parts| >= 1
    ensures forall k :: 0 <= k < |parts| ==> sep !in parts[k]
  {
    if |s| == 0 then [""]
    else if s[0] == sep then [""] + Split(s[1..], sep)
    else
      var rest := Split(s[1..], sep);
      [[s[0]] + rest[0]] + rest[1..]
  }

  /** `Array.prototype.join` with a one-character separator. */
  function Join(parts: seq<string>, sep: char): string
    requires |parts| >= 1
  {
    if |parts| == 1 then parts[0] else parts[0] + [sep] + Join(parts[1..], sep)
  }

  /** Splitting loses nothing: joining the parts back gives the original string. */
  lemma {:induction false} JoinSplit(s: string, sep: char)
    ensures Join(Split(s, sep), sep) == s
  {
    if |s| > 0 {
      JoinSplit(s[1..], sep);
      var rest := Split(s[1..], sep);
      if s[0] == sep {
        assert Split(s, sep)[1..] == rest;
      } else if |rest| == 1 {
        assert [s[0]] + rest[0] == s;
      } else {
        assert Join(rest, sep) == rest[0] + [sep] + Join(rest[1..], sep);
        assert Split(s, sep)[1..] == rest[1..];
        assert s == [s[0]] + s[1..];
      }
    }
  }

  /** Splitting a separator-free prefix glued to `t` extends the first part of `t`'s split. */
  lemma {:induction false} SplitPrefix(a: string, t: string, sep: char)
    requires sep !in a
    ensures Split(a + t, sep) == [a + Split(t, sep)[0]] + Split(t, sep)[1..]
  {
    if |a| > 0 {
      SplitPrefix(a[1..], t, sep);
      assert (a + t)[1..] == a[1..] + t;
      assert (a + t)[0] == a[0];
      assert [a[0]] + (a[1..] + Split(t, sep)[0]) == a + Split(t, sep)[0];
    } else {
      var parts := Split(t, sep);
      assert a + t == t;
      assert a + parts[0] == parts[0];
      assert parts == [parts[0]] + parts[1..];
    }
  }

  /** Joining separator-free parts and splitting again gives back the parts. */
  lemma {:induction false} SplitJoin(parts: seq<string>, sep: char)
    requires |parts| >= 1
    requires forall k :: 0 <= k < |parts| ==> sep !in parts[k]
    ensures Split(Join(parts, sep), sep) == parts
  {
    if |parts| == 1 {
      SplitPrefix(parts[0], "", sep);
      assert parts[0] + "" == parts[0];
    } else {
      var tail := Join(parts[1..], sep);
      SplitJoin(parts[1..], sep);
      SplitPrefix(parts[0], [sep] + tail, sep);
      assert parts[0] + [sep] + tail == parts[0] + ([sep] + tail);
      assert ([sep] + tail)[1..] == tail;
      assert Split([sep] + tail, sep) == [""] + parts[1..];
      assert parts[0] + "" == parts[0];
    }
  }

  /** `Array.prototype.filter`: the elements `keep` accepts, in their order. */
  function Filter<T(!new)>(s: seq<T>, keep: T -> bool): (r: seq<T>)
    ensures |r| <= |s|
    ensures forall x :: x in r <==> x in s && keep(x)
  {
    if |s| == 0 then []
    else if keep(s[|s| - 1]) then Filter(s[..|s| - 1], keep) + [s[|s| - 1]]
    else Filter(s[..|s| - 1], keep)
  }

  /** On one element, `filter` keeps it exactly when `keep` accepts it. */
  lemma FilterSingleton<T(!new)>(x: T, keep: T -> bool)
    ensures Filter([x], keep) == if keep(x) then [x] else []
  {
    assert [x][..0] == [];
  }

  /** `filter` keeps the relative order: filtering a concatenation concatenates the filtered halves. */
  lemma {:induction false} FilterAppend<T(!new)>(a: seq<T>, b: seq<T>, keep: T -> bool)
    ensures Filter(a + b, keep) == Filter(a, keep) + Filter(b, keep)
  {
    if |b| == 0 {
      assert a + b == a;
    } else {
      var init := b[..|b| - 1];
      assert (a + b)[..|a + b| - 1] == a + init;
      assert (a + b)[|a + b| - 1] == b[|b| - 1];
      FilterAppend(a, init, keep);
    }
  }

  /** `filter` keeps every accepted element as often as it occurs, and no rejected one. */
  lemma {:induction false} FilterCount<T(!new)>(s: seq<T>, keep: T -> bool, x: T)
    ensures multiset(Filter(s, keep))[x] == if keep(x) then multiset(s)[x] else 0
  {
    if |s| > 0 {
      var init := s[..|s| - 1];
      assert s == init + [s[|s| - 1]];
      FilterCount(init, keep, x);
    }
  }

  /** `Array.prototype.filter((x) => x)` on strings: the non-empty ones, in order. */
  function NonEmpty(parts: seq<string>): seq<string> {
    Filter(parts, (x: string) => x != "")
  }

  /** The index of the last non-empty part. */
  predicate IsLastNonEmpty(parts: seq<string>, k: int) {
    0 <= k < |parts| && parts[k] != "" && forall m :: k < m < |parts| ==> parts[m] == ""
  }

  /** The last element kept by `NonEmpty` is the last non-empty part. */
  lemma {:induction false} NonEmptyLast(parts: seq<string>)
    requires |NonEmpty(parts)| > 0
    ensures exists k :: IsLastNonEmpty(parts, k) && parts[k] == NonEmpty(parts)[|NonEmpty(parts)| - 1]
  {
    var n := |parts|;
    var init := parts[..n - 1];
    assert parts == init + [parts[n - 1]];
    if parts[n - 1] == "" {
      assert NonEmpty(parts) == NonEmpty(init);
      NonEmptyLast(init);
      var k :| IsLastNonEmpty(init, k) && init[k] == NonEmpty(init)[|NonEmpty(init)| - 1];
      assert IsLastNonEmpty(parts, k);
    } else {
      assert NonEmpty(parts) == NonEmpty(init) + [parts[n - 1]];
      assert IsLastNonEmpty(parts, n - 1);
    }
  }

  /** When every part is empty, nothing survives the filter. */
  lemma {:induction false} NonEmptyOfEmptyParts(parts: seq<string>)
    requires forall k :: 0 <= k < |parts| ==> parts[k] == ""
    ensures NonEmpty(parts) == []
  {
    if |parts| > 0 {
      NonEmptyOfEmptyParts(parts[..|parts| - 1]);
    }
  }

  /** `s.substring(0, n)` for `n >= 0`: the first `n` characters, or all of them. */
  function Prefix(s: string, n: nat): (r: string)
    ensures |r| == if |s| <= n then |s| else n
    ensures r <= s
  {
    if |s| <= n then s else s[..n]
  }
}
