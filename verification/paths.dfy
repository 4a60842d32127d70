/**
 Lexical path resolution as the shell performs it: a relative argument is
 joined onto the current directory the way `posixpath.join` does, and the
 result is normalised the way `posixpath.normpath` does. Repeated `/`
 collapse, `.` drops out, and `..` removes the segment before it as text,
 stopping at the root. A path that begins with exactly two slashes keeps
 both, since section 4.13 (Pathname Resolution) of POSIX.1-2017 leaves the
 meaning of such a path to the implementation.
 */
module Paths {
  import opened Strings

  const Sep: char := '/'

  /** `posixpath.join(a, b)` for one extra component. */
  function JoinPath(a: string, b: string): string {
    if |b| > 0 && b[0] == Sep then b
    else if |a| == 0 || a[|a| - 1] == Sep then a + b
    else a + [Sep] + b
  }

  /** `k` slashes. */
  function Slashes(k: nat): (r: string)
    ensures |r| == k && AllIn(r, {Sep})
  {
    seq(k, _ => Sep)
  }

  /** `k` empty strings. */
  function Empties(k: nat): (r: seq<string>)
    ensures |r| == k && forall i :: 0 <= i < k ==> r[i] == ""
  {
    seq(k, _ => "")
  }

  /** The leading slashes `normpath` keeps: none for a relative path, two
      when the path starts with exactly two, otherwise one. */
  function InitialSlashes(p: string): (k: nat)
    ensures k <= 2
  {
    if |p| == 0 || p[0] != Sep then 0
    else if |p| >= 2 && p[1] == Sep && (|p| == 2 || p[2] != Sep) then 2
    else 1
  }

  /** One iteration of `normpath`'s loop over the components: `stack` is the
      list of kept components so far; `rooted` says the path is absolute. */
  function ResolveStep(stack: seq<string>, comp: string, rooted: bool): seq<string> {
    if comp == "" || comp == "." then stack
    else if comp != ".." || (!rooted && |stack| == 0) || (|stack| > 0 && stack[|stack| - 1] == "..") then
      stack + [comp]
    else if |stack| > 0 then stack[..|stack| - 1]
    else stack
  }

  /** `normpath`'s loop over all remaining components. */
  function Resolve(stack: seq<string>, comps: seq<string>, rooted: bool): seq<string>
    decreases |comps|
  {
    if |comps| == 0 then stack
    else Resolve(ResolveStep(stack, comps[0], rooted), comps[1..], rooted)
  }

  /** `posixpath.normpath(p)`. */
  function NormPath(p: string): string {
    if |p| == 0 then "."
    else
      var k := InitialSlashes(p);
      var r := Slashes(k) + Join(Resolve([], Split(p, {Sep}), k > 0), Sep);
      if |r| == 0 then "." else r
  }

  /** The shell's path normalisation: a path that does not start with `/`
      is joined onto the current directory first. */
  function Normalize(cwd: string, path: string): string {
    if |path| > 0 && path[0] == Sep then NormPath(path)
    else NormPath(JoinPath(cwd, path))
  }

  // ----- canonical absolute paths -----

  /** A segment normalisation keeps: not empty, not `.` or `..`, no `/`. */
  predicate Canonical(seg: string) {
    seg != "" && seg != "." && seg != ".." && NoneIn(seg, {Sep})
  }

  predicate AllCanonical(segs: seq<string>) {
    forall i :: 0 <= i < |segs| ==> Canonical(segs[i])
  }

  /** One or two leading slashes and canonical segments. */
  predicate WellFormed(k: nat, segs: seq<string>) {
    (k == 1 || k == 2) && AllCanonical(segs)
  }

  /** The text of an absolute path with `k` leading slashes and the given segments. */
  function Render(k: nat, segs: seq<string>): string {
    Slashes(k) + Join(segs, Sep)
  }

  /** `p` is what normalisation produces for an absolute path. */
  ghost predicate IsCanonical(p: string) {
    exists k: nat, segs: seq<string> :: WellFormed(k, segs) && Render(k, segs) == p
  }

  // ----- lemmas about the component loop -----

  lemma {:induction false} ResolveAppend(st: seq<string>, a: seq<string>, b: seq<string>, rooted: bool)
    ensures Resolve(st, a + b, rooted) == Resolve(Resolve(st, a, rooted), b, rooted)
    decreases |a|
  {
    if |a| == 0 {
      assert a + b == b;
    } else {
      assert (a + b)[0] == a[0];
      assert (a + b)[1..] == a[1..] + b;
      ResolveAppend(ResolveStep(st, a[0], rooted), a[1..], b, rooted);
    }
  }

  lemma {:induction false} ResolveEmpties(st: seq<string>, n: nat, rooted: bool)
    ensures Resolve(st, Empties(n), rooted) == st
    decreases n
  {
    if n > 0 {
      assert Empties(n)[1..] == Empties(n - 1);
      ResolveEmpties(st, n - 1, rooted);
    }
  }

  /** Canonical segments are pushed as they are. */
  lemma {:induction false} ResolveCanonical(st: seq<string>, segs: seq<string>, rooted: bool)
    requires AllCanonical(segs)
    ensures Resolve(st, segs, rooted) == st + segs
    decreases |segs|
  {
    if |segs| == 0 {
      assert st + segs == st;
    } else {
      ResolveCanonical(st + [segs[0]], segs[1..], rooted);
      assert st + [segs[0]] + segs[1..] == st + segs;
    }
  }

  /** In an absolute path the loop keeps only canonical segments. */
  lemma {:induction false} ResolveRootedCanonical(st: seq<string>, comps: seq<string>)
    requires AllCanonical(st)
    requires forall i :: 0 <= i < |comps| ==> NoneIn(comps[i], {Sep})
    ensures AllCanonical(Resolve(st, comps, true))
    decreases |comps|
  {
    if |comps| > 0 {
      var st' := ResolveStep(st, comps[0], true);
      assert AllCanonical(st') by {
        if |st| > 0 {
          assert st[|st| - 1] != "..";
        }
      }
      ResolveRootedCanonical(st', comps[1..]);
    }
  }

  // ----- lemmas about rendered paths -----

  lemma {:induction false} SplitSlashes(n: nat)
    ensures Split(Slashes(n), {Sep}) == Empties(n + 1)
    decreases n
  {
    if n > 0 {
      assert Slashes(n)[1..] == Slashes(n - 1);
      SplitSlashes(n - 1);
      assert Empties(n + 1) == [""] + Empties(n);
    }
  }

  /** The components `normpath` sees in a rendered path. */
  lemma SplitRender(k: nat, segs: seq<string>)
    requires WellFormed(k, segs)
    ensures Split(Render(k, segs), {Sep}) == Empties(k) + (if segs == [] then [""] else segs)
  {
    var j := Join(segs, Sep);
    assert Render(k, segs) == Slashes(k - 1) + [Sep] + j;
    SplitAppend(Slashes(k - 1), Sep, j, {Sep});
    SplitSlashes(k - 1);
    if segs == [] {
    } else {
      SplitJoin(segs, Sep, {Sep});
    }
  }

  /** The leading slashes of a rendered path, with anything that does not
      start a new slash run appended, are exactly `k`. */
  lemma InitialSlashesRender(k: nat, segs: seq<string>, t: string)
    requires WellFormed(k, segs)
    requires segs == [] ==> |t| == 0 || t[0] != Sep
    ensures InitialSlashes(Render(k, segs) + t) == k
  {
    var p := Render(k, segs) + t;
    if segs != [] {
      JoinFirst(segs, Sep);
      assert p[k] == segs[0][0];
    } else if |t| > 0 {
      assert p[k] == t[0];
    }
  }

  /** Normalising a rendered path gives it back: the core of idempotence. */
  lemma NormPathRender(k: nat, segs: seq<string>)
    requires WellFormed(k, segs)
    ensures NormPath(Render(k, segs)) == Render(k, segs)
  {
    var p := Render(k, segs);
    InitialSlashesRender(k, segs, "");
    assert p + "" == p;
    SplitRender(k, segs);
    var tail := if segs == [] then [""] else segs;
    ResolveAppend([], Empties(k), tail, true);
    ResolveEmpties([], k, true);
    if segs == [] {
      assert Resolve([], [""], true) == [];
    } else {
      ResolveCanonical([], segs, true);
      assert [] + segs == segs;
    }
  }

  /** Normalising an absolute path renders the segments its loop keeps
      under the leading slashes it keeps, and those are well formed. */
  lemma NormPathAbsolute(p: string)
    requires |p| > 0 && p[0] == Sep
    ensures WellFormed(InitialSlashes(p), Resolve([], Split(p, {Sep}), true))
    ensures NormPath(p) == Render(InitialSlashes(p), Resolve([], Split(p, {Sep}), true))
  {
    ResolveRootedCanonical([], Split(p, {Sep}));
  }

  // ----- the properties normalisation promises -----

  /** Normalising an absolute path yields a canonical absolute path. */
  lemma NormPathCanonical(p: string)
    requires |p| > 0 && p[0] == Sep
    ensures IsCanonical(NormPath(p))
  {
    NormPathAbsolute(p);
  }

  /** A canonical path normalises to itself. */
  lemma NormPathOfCanonical(p: string)
    requires IsCanonical(p)
    ensures NormPath(p) == p
  {
    var k: nat, segs: seq<string> :| WellFormed(k, segs) && Render(k, segs) == p;
    NormPathRender(k, segs);
  }

  /** Normalisation is idempotent on absolute paths. */
  lemma NormPathIdempotent(p: string)
    requires |p| > 0 && p[0] == Sep
    ensures NormPath(NormPath(p)) == NormPath(p)
  {
    NormPathCanonical(p);
    NormPathOfCanonical(NormPath(p));
  }

  /** Under an absolute current directory every argument normalises to a
      canonical absolute path. */
  lemma NormalizeCanonical(cwd: string, path: string)
    requires |cwd| > 0 && cwd[0] == Sep
    ensures IsCanonical(Normalize(cwd, path))
  {
    if |path| > 0 && path[0] == Sep {
      NormPathCanonical(path);
    } else {
      NormPathCanonical(JoinPath(cwd, path));
    }
  }

  /** Normalising a result of normalisation again, against any current
      directory, changes nothing. */
  lemma NormalizeIdempotent(cwd: string, cwd': string, path: string)
    requires |cwd| > 0 && cwd[0] == Sep
    ensures Normalize(cwd', Normalize(cwd, path)) == Normalize(cwd, path)
  {
    var n := Normalize(cwd, path);
    NormalizeCanonical(cwd, path);
    CanonicalShape(n);
    NormPathOfCanonical(n);
  }

  /** What a canonical path looks like as text: it starts with `/`, ends
      with `/` only when it is the root `/` or `//`, and apart from the one
      or two leading empty components every component is a canonical
      segment, so no `.`, `..` or empty segment appears. */
  lemma CanonicalShape(p: string)
    requires IsCanonical(p)
    ensures |p| > 0 && p[0] == Sep
    ensures p[|p| - 1] == Sep ==> p == "/" || p == "//"
    ensures var parts := Split(p, {Sep});
            var k := InitialSlashes(p);
            (k == 1 || k == 2)
            && (forall i :: 0 <= i < k ==> parts[i] == "")
            && (p == Slashes(k) || forall i :: k <= i < |parts| ==> Canonical(parts[i]))
  {
    var k: nat, segs: seq<string> :| WellFormed(k, segs) && Render(k, segs) == p;
    assert InitialSlashes(p) == k by {
      InitialSlashesRender(k, segs, "");
      assert p + "" == p;
    }
    SplitRender(k, segs);
    assert p[|p| - 1] == Sep ==> p == "/" || p == "//" by {
      if segs != [] {
        JoinLast(segs, Sep);
        var last := segs[|segs| - 1];
        assert last[|last| - 1] != Sep;
      } else {
        assert p == Slashes(k);
        assert k == 1 ==> p == "/";
        assert k == 2 ==> p == "//";
      }
    }
  }

  /** Joining a relative argument onto a rendered directory keeps its
      leading slashes and puts the argument's components after its segments. */
  lemma JoinPathRender(k: nat, segs: seq<string>, rel: string)
    requires WellFormed(k, segs)
    requires |rel| > 0 && rel[0] != Sep
    ensures InitialSlashes(JoinPath(Render(k, segs), rel)) == k
    ensures Split(JoinPath(Render(k, segs), rel), {Sep}) == Empties(k) + segs + Split(rel, {Sep})
  {
    if segs == [] {
      JoinPathRoot(k, rel);
      assert Empties(k) + segs == Empties(k);
    } else {
      JoinPathBelowRoot(k, segs, rel);
    }
  }

  lemma JoinPathRoot(k: nat, rel: string)
    requires k == 1 || k == 2
    requires |rel| > 0 && rel[0] != Sep
    ensures InitialSlashes(JoinPath(Render(k, []), rel)) == k
    ensures Split(JoinPath(Render(k, []), rel), {Sep}) == Empties(k) + Split(rel, {Sep})
  {
    var c := Render(k, []);
    assert c == Slashes(k);
    var p := JoinPath(c, rel);
    assert p == Slashes(k) + rel;
    assert p == Slashes(k - 1) + [Sep] + rel;
    SplitAppend(Slashes(k - 1), Sep, rel, {Sep});
    SplitSlashes(k - 1);
    InitialSlashesRender(k, [], rel);
  }

  lemma JoinPathBelowRoot(k: nat, segs: seq<string>, rel: string)
    requires WellFormed(k, segs) && segs != []
    requires |rel| > 0 && rel[0] != Sep
    ensures InitialSlashes(JoinPath(Render(k, segs), rel)) == k
    ensures Split(JoinPath(Render(k, segs), rel), {Sep}) == Empties(k) + segs + Split(rel, {Sep})
  {
    var c := Render(k, segs);
    RenderLast(k, segs);
    var p := JoinPath(c, rel);
    assert p == c + [Sep] + rel;
    assert p == c + ([Sep] + rel);
    InitialSlashesRender(k, segs, [Sep] + rel);
    SplitAppend(c, Sep, rel, {Sep});
    SplitRender(k, segs);
  }

  /** A rendered path below the root does not end with `/`. */
  lemma RenderLast(k: nat, segs: seq<string>)
    requires WellFormed(k, segs) && segs != []
    ensures |Render(k, segs)| > 0 && Render(k, segs)[|Render(k, segs)| - 1] != Sep
  {
    var j := Join(segs, Sep);
    JoinLast(segs, Sep);
    var last := segs[|segs| - 1];
    assert Canonical(last);
    assert last[|last| - 1] != Sep;
    assert Render(k, segs)[|Render(k, segs)| - 1] == j[|j| - 1];
  }

  /** A relative argument against a canonical current directory continues
      the component loop from the directory's segments. */
  lemma NormalizeRelative(k: nat, segs: seq<string>, rel: string)
    requires WellFormed(k, segs)
    requires |rel| > 0 && rel[0] != Sep
    ensures Normalize(Render(k, segs), rel) == Render(k, Resolve(segs, Split(rel, {Sep}), true))
  {
    var p := JoinPath(Render(k, segs), rel);
    JoinPathRender(k, segs, rel);
    ResolveAppend([], Empties(k) + segs, Split(rel, {Sep}), true);
    ResolveAppend([], Empties(k), segs, true);
    ResolveEmpties([], k, true);
    ResolveCanonical([], segs, true);
    assert [] + segs == segs;
    NormPathAbsolute(p);
  }

  /** `.` names the current directory itself. */
  lemma NormalizeDot(c: string)
    requires IsCanonical(c)
    ensures Normalize(c, ".") == c
  {
    var k: nat, segs: seq<string> :| WellFormed(k, segs) && Render(k, segs) == c;
    NormalizeRelative(k, segs, ".");
    assert Split(".", {Sep}) == ["."];
  }

  /** `..` names the parent; at the root it stays at the root. */
  lemma NormalizeDotDot(k: nat, segs: seq<string>)
    requires WellFormed(k, segs)
    ensures Normalize(Render(k, segs), "..") == Render(k, if segs == [] then [] else segs[..|segs| - 1])
  {
    NormalizeRelative(k, segs, "..");
    assert Split("..", {Sep}) == [".."];
  }

  /** A canonical segment names a child of the current directory. */
  lemma NormalizeChild(k: nat, segs: seq<string>, d: string)
    requires WellFormed(k, segs) && Canonical(d)
    ensures Normalize(Render(k, segs), d) == Render(k, segs + [d])
  {
    NormalizeRelative(k, segs, d);
    SplitOfPart(d, {Sep});
  }
}
