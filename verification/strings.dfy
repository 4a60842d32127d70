/**
 The string primitives the shell relies on, written out the way Python's
 `str` methods behave: `split(sep)`, `split()`, `strip()`, `rstrip(chars)`,
 `sep.join(parts)` and the negative slice `xs[-n:]`.
 */
module Strings {

  /** The characters for which Python's `str.isspace()` holds; `split()` and
      `strip()` with no argument cut at exactly these. */
  const Whitespace: set<char> := {
    '\t', '\n', '\U{000B}', '\U{000C}', '\r',
    '\U{001C}', '\U{001D}', '\U{001E}', '\U{001F}', ' ',
    '\U{0085}', '\U{00A0}', '\U{1680}',
    '\U{2000}', '\U{2001}', '\U{2002}', '\U{2003}', '\U{2004}', '\U{2005}',
    '\U{2006}', '\U{2007}', '\U{2008}', '\U{2009}', '\U{200A}',
    '\U{2028}', '\U{2029}', '\U{202F}', '\U{205F}', '\U{3000}'
  }

  /** No character of `s` is drawn from `cs`. */
  predicate NoneIn(s: string, cs: set<char>) {
    forall i :: 0 <= i < |s| ==> s[i] !in cs
  }

  /** Every character of `s` is drawn from `cs`. */
  predicate AllIn(s: string, cs: set<char>) {
    forall i :: 0 <= i < |s| ==> s[i] in cs
  }

  /** How many characters of `s` are separators from `cs`. */
  function Occurrences(s: string, cs: set<char>): nat {
    if |s| == 0 then 0
    else (if s[0] in cs then 1 else 0) + Occurrences(s[1..], cs)
  }

  /** Python's `s.split(sep)`: every separator character cuts, so adjacent
      separators and separators at either end give empty parts. `seps` is the
      set of characters that count as a separator (a singleton for
      `split('/')` and `split('\n')`). */
  function Split(s: string, seps: set<char>): (parts: seq<string>)
    ensures |parts| == Occurrences(s, seps) + 1
    ensures forall i :: 0 <= i < |parts| ==> NoneIn(parts[i], seps)
    decreases |s|
  {
    if |s| == 0 then [""]
    else
      var rest := Split(s[1..], seps);
      if s[0] in seps then [""] + rest
      else [[s[0]] + rest[0]] + rest[1..]
  }

  /** Python's `sep.join(parts)`. */
  function Join(parts: seq<string>, sep: char): string
    decreases |parts|
  {
    if |parts| == 0 then ""
    else if |parts| == 1 then parts[0]
    else parts[0] + [sep] + Join(parts[1..], sep)
  }

  /** Splitting at one separator splits the two sides independently. */
  lemma {:induction false} SplitAppend(a: string, c: char, b: string, seps: set<char>)
    requires c in seps
    ensures Split(a + [c] + b, seps) == Split(a, seps) + Split(b, seps)
    decreases |a|
  {
    if |a| == 0 {
      assert a + [c] + b == [c] + b;
      assert ([c] + b)[1..] == b;
    } else {
      assert (a + [c] + b)[1..] == a[1..] + [c] + b;
      SplitAppend(a[1..], c, b, seps);
    }
  }

  /** A string without separators is a single part. */
  lemma {:induction false} SplitOfPart(w: string, seps: set<char>)
    requires NoneIn(w, seps)
    ensures Split(w, seps) == [w]
    decreases |w|
  {
    if |w| > 0 {
      SplitOfPart(w[1..], seps);
      assert [w[0]] + w[1..] == w;
    }
  }

  /** Round trip one way: joining parts that hold no separator and splitting
      again gives the parts back. */
  lemma {:induction false} SplitJoin(parts: seq<string>, c: char, seps: set<char>)
    requires |parts| > 0 && c in seps
    requires forall i :: 0 <= i < |parts| ==> NoneIn(parts[i], seps)
    ensures Split(Join(parts, c), seps) == parts
    decreases |parts|
  {
    if |parts| == 1 {
      SplitOfPart(parts[0], seps);
    } else {
      SplitJoin(parts[1..], c, seps);
      SplitOfPart(parts[0], seps);
      SplitAppend(parts[0], c, Join(parts[1..], c), seps);
      assert [parts[0]] + parts[1..] == parts;
    }
  }

  lemma JoinFirst(parts: seq<string>, sep: char)
    requires |parts| > 0 && parts[0] != ""
    ensures |Join(parts, sep)| > 0 && Join(parts, sep)[0] == parts[0][0]
  {
  }

  lemma {:induction false} JoinLast(parts: seq<string>, sep: char)
    requires |parts| > 0 && parts[|parts| - 1] != ""
    ensures var j := Join(parts, sep);
            var last := parts[|parts| - 1];
            |j| > 0 && j[|j| - 1] == last[|last| - 1]
    decreases |parts|
  {
    if |parts| > 1 {
      JoinLast(parts[1..], sep);
    }
  }

  /** Appending one part appends the separator and the part. */
  lemma {:induction false} JoinSnoc(parts: seq<string>, d: string, sep: char)
    requires |parts| > 0
    ensures Join(parts + [d], sep) == Join(parts, sep) + [sep] + d
    decreases |parts|
  {
    if |parts| > 1 {
      assert (parts + [d])[1..] == parts[1..] + [d];
      JoinSnoc(parts[1..], d, sep);
    }
  }

  /** Round trip the other way: splitting at `c` and joining with `c` gives
      the string back. */
  lemma {:induction false} JoinSplit(s: string, c: char)
    ensures Join(Split(s, {c}), c) == s
    decreases |s|
  {
    if |s| > 0 {
      JoinSplit(s[1..], c);
      var rest := Split(s[1..], {c});
      if s[0] == c {
        assert Split(s, {c}) == [""] + rest;
        assert ([""] + rest)[1..] == rest;
        assert [s[0]] + s[1..] == s;
      } else {
        var parts := [[s[0]] + rest[0]] + rest[1..];
        assert Split(s, {c}) == parts;
        if |rest| == 1 {
          assert [s[0]] + s[1..] == s;
        } else {
          assert parts[1..] == rest[1..];
          assert Join(rest, c) == rest[0] + [c] + Join(rest[1..], c);
          assert [s[0]] + s[1..] == s;
        }
      }
    }
  }

  /** The first `/`-free part of `s`, as `s.split(sep)[0]` yields it. */
  function FirstPart(s: string, sep: char): (p: string)
    ensures NoneIn(p, {sep})
    ensures p <= s
    ensures sep in s ==> p + [sep] <= s
  {
    FirstPartFacts(s, sep);
    Split(s, {sep})[0]
  }

  lemma {:induction false} FirstPartFacts(s: string, sep: char)
    ensures Split(s, {sep})[0] <= s
    ensures sep in s ==> Split(s, {sep})[0] + [sep] <= s
    decreases |s|
  {
    if |s| > 0 {
      FirstPartFacts(s[1..], sep);
      if s[0] != sep {
        assert sep in s ==> sep in s[1..] by {
          if sep in s {
            var i :| 0 <= i < |s| && s[i] == sep;
            assert s[1..][i - 1] == sep;
          }
        }
      }
    }
  }

  /** The first part of `a + [sep] + b` is `a` when `a` holds no separator. */
  lemma FirstPartOf(a: string, sep: char, b: string)
    requires NoneIn(a, {sep})
    ensures FirstPart(a + [sep] + b, sep) == a
  {
    SplitAppend(a, sep, b, {sep});
    SplitOfPart(a, {sep});
  }

  /** Python's `s.lstrip(chars)`: drops the leading characters drawn from `cs`. */
  function TrimStart(s: string, cs: set<char>): (r: string)
    ensures |r| <= |s| && r == s[|s| - |r|..]
    ensures AllIn(s[..|s| - |r|], cs)
    ensures |r| == 0 || r[0] !in cs
    decreases |s|
  {
    if |s| > 0 && s[0] in cs then
      var r := TrimStart(s[1..], cs);
      assert s[..|s| - |r|] == [s[0]] + s[1..][..|s| - 1 - |r|];
      r
    else s
  }

  /** Python's `s.rstrip(chars)`: drops the trailing characters drawn from `cs`. */
  function TrimEnd(s: string, cs: set<char>): (r: string)
    ensures |r| <= |s| && r == s[..|r|]
    ensures AllIn(s[|r|..], cs)
    ensures |r| == 0 || r[|r| - 1] !in cs
    decreases |s|
  {
    if |s| > 0 && s[|s| - 1] in cs then
      var r := TrimEnd(s[..|s| - 1], cs);
      assert s[..|s| - 1][|r|..] + [s[|s| - 1]] == s[|r|..];
      r
    else s
  }

  /** `s` is what remains of `t` once a run of `cs` characters is cut from
      each end, and neither end of `s` is such a character. */
  ghost predicate IsStripOf(s: string, t: string, cs: set<char>) {
    && (|s| == 0 || (s[0] !in cs && s[|s| - 1] !in cs))
    && exists i, j :: 0 <= i <= j <= |t| && t[i..j] == s && AllIn(t[..i], cs) && AllIn(t[j..], cs)
  }

  /** Python's `s.strip()`. */
  function Strip(s: string): (r: string)
    ensures IsStripOf(r, s, Whitespace)
  {
    var t := TrimStart(s, Whitespace);
    var r := TrimEnd(t, Whitespace);
    var i := |s| - |t|;
    assert s[i..i + |r|] == r;
    assert s[i + |r|..] == t[|r|..];
    assert |r| > 0 ==> r[0] == t[0];
    r
  }

  /** A string that neither starts nor ends with whitespace is its own strip. */
  lemma StripUnchanged(s: string)
    requires |s| == 0 || (s[0] !in Whitespace && s[|s| - 1] !in Whitespace)
    ensures Strip(s) == s
  {
  }

  /** The parts of `xs` that are not empty, in order. */
  function NonEmpty(xs: seq<string>): (r: seq<string>)
    ensures forall i :: 0 <= i < |r| ==> r[i] != ""
    ensures forall w :: w in r <==> w in xs && w != ""
    decreases |xs|
  {
    if |xs| == 0 then []
    else if xs[0] == "" then NonEmpty(xs[1..])
    else [xs[0]] + NonEmpty(xs[1..])
  }

  lemma {:induction false} NonEmptyAppend(xs: seq<string>, ys: seq<string>)
    ensures NonEmpty(xs + ys) == NonEmpty(xs) + NonEmpty(ys)
    decreases |xs|
  {
    if |xs| > 0 {
      assert (xs + ys)[0] == xs[0];
      assert (xs + ys)[1..] == xs[1..] + ys;
      NonEmptyAppend(xs[1..], ys);
      if xs[0] != "" {
        assert [xs[0]] + NonEmpty(xs[1..]) + NonEmpty(ys) == [xs[0]] + (NonEmpty(xs[1..]) + NonEmpty(ys));
      }
    } else {
      assert xs + ys == ys;
    }
  }

  /** Python's `s.split()` with no argument: runs of whitespace separate
      words, and no word is empty. */
  function Words(s: string): (ws: seq<string>)
    ensures forall i :: 0 <= i < |ws| ==> ws[i] != "" && NoneIn(ws[i], Whitespace)
  {
    var parts := Split(s, Whitespace);
    assert forall w :: w in parts ==> NoneIn(w, Whitespace);
    NonEmpty(parts)
  }

  /** A line has no words exactly when every character of it is whitespace. */
  lemma {:induction false} WordsEmpty(s: string)
    ensures Words(s) == [] <==> AllIn(s, Whitespace)
    decreases |s|
  {
    if |s| == 0 {
      assert Split(s, Whitespace) == [""];
      assert NonEmpty([""]) == [];
    } else {
      WordsEmpty(s[1..]);
      var rest := Split(s[1..], Whitespace);
      if s[0] in Whitespace {
        assert Split(s, Whitespace) == [""] + rest;
        NonEmptyAppend([""], rest);
        assert NonEmpty([""]) == [];
        assert AllIn(s, Whitespace) <==> AllIn(s[1..], Whitespace);
      } else {
        var parts := [[s[0]] + rest[0]] + rest[1..];
        assert Split(s, Whitespace) == parts;
        assert parts[0] != "";
        assert NonEmpty(parts) == [parts[0]] + NonEmpty(parts[1..]);
        assert !AllIn(s, Whitespace);
      }
    }
  }

  /** A whitespace character splits the words of a line into those before it
      and those after it. */
  lemma WordsAppend(a: string, c: char, b: string)
    requires c in Whitespace
    ensures Words(a + [c] + b) == Words(a) + Words(b)
  {
    SplitAppend(a, c, b, Whitespace);
    NonEmptyAppend(Split(a, Whitespace), Split(b, Whitespace));
  }

  /** Round trip: words joined by single spaces split back into the same words. */
  lemma WordsOfJoin(ws: seq<string>)
    requires forall i :: 0 <= i < |ws| ==> ws[i] != "" && NoneIn(ws[i], Whitespace)
    ensures Words(Join(ws, ' ')) == ws
  {
    if ws == [] {
      WordsEmpty(Join(ws, ' '));
    } else {
      SplitJoin(ws, ' ', Whitespace);
      NonEmptyIdentity(ws);
    }
  }

  lemma {:induction false} NonEmptyIdentity(xs: seq<string>)
    requires forall i :: 0 <= i < |xs| ==> xs[i] != ""
    ensures NonEmpty(xs) == xs
    decreases |xs|
  {
    if |xs| > 0 {
      NonEmptyIdentity(xs[1..]);
    }
  }

  /** Stripping a line does not change its words. */
  lemma WordsOfStrip(s: string)
    ensures Words(Strip(s)) == Words(s)
  {
    var t := TrimStart(s, Whitespace);
    WordsOfTrimStart(s);
    WordsOfTrimEnd(t);
  }

  lemma WordsOfTrimStart(s: string)
    ensures Words(TrimStart(s, Whitespace)) == Words(s)
  {
    var t := TrimStart(s, Whitespace);
    var pre := s[..|s| - |t|];
    assert s == pre + t;
    WordsConcat(pre, t);
    WordsOfSpaces(pre);
  }

  lemma WordsOfTrimEnd(t: string)
    ensures Words(TrimEnd(t, Whitespace)) == Words(t)
  {
    var r := TrimEnd(t, Whitespace);
    var post := t[|r|..];
    assert t == r + post;
    WordsConcat(r, post);
    WordsOfSpaces(post);
  }

  lemma WordsOfSpaces(s: string)
    requires AllIn(s, Whitespace)
    ensures Words(s) == []
  {
    WordsEmpty(s);
  }

  /** Two strings with whitespace between them or at the seam do not fuse
      words: when either side is all whitespace the words simply add up. */
  lemma {:induction false} WordsConcat(a: string, b: string)
    requires AllIn(a, Whitespace) || AllIn(b, Whitespace)
    ensures Words(a + b) == Words(a) + Words(b)
    decreases |a| + |b|
  {
    if AllIn(a, Whitespace) {
      if |a| > 0 {
        assert a + b == [] + [a[0]] + (a[1..] + b);
        WordsAppend([], a[0], a[1..] + b);
        WordsConcat(a[1..], b);
        WordsOfSpaces(a);
        WordsOfSpaces(a[1..]);
        WordsOfSpaces("");
      } else {
        assert a + b == b;
        WordsOfSpaces(a);
      }
    } else {
      if |b| > 0 {
        var n := |b| - 1;
        assert a + b == (a + b[..n]) + [b[n]] + [];
        WordsAppend(a + b[..n], b[n], []);
        WordsConcat(a, b[..n]);
        WordsOfSpaces(b);
        WordsOfSpaces(b[..n]);
        WordsOfSpaces("");
      } else {
        assert a + b == a;
        WordsOfSpaces(b);
      }
    }
  }

  /** Python's `xs[-n:]` for a positive `n`: the last `n` elements, or all of
      them when there are fewer. */
  function LastN<T>(xs: seq<T>, n: nat): seq<T>
    requires n > 0
  {
    if |xs| <= n then xs else xs[|xs| - n..]
  }

  /** The slice keeps `min(n, |xs|)` elements, the last ones, in order. */
  lemma LastNFacts<T>(xs: seq<T>, n: nat)
    requires n > 0
    ensures |LastN(xs, n)| == if |xs| < n then |xs| else n
    ensures forall i :: 0 <= i < |LastN(xs, n)| ==> LastN(xs, n)[i] == xs[|xs| - |LastN(xs, n)| + i]
  {
  }
}
