/**
 The virtual filesystem: a flat map from absolute path keys to archive
 entries plus a current-directory cursor. Directories exist only by
 inference from key prefixes; listing scans every key; renaming moves one
 exact key.
 */
module Vfs {
  import opened Strings
  import opened Ordering
  import opened Paths

  /** One archive member as the archive index lists it: its internal name
      and its data, already decoded as text. */
  datatype Member = Member(name: string, data: string)

  /** What the file map stores under a key: whether the member is a
      directory (its internal name ends with `/`) and its text. */
  datatype Entry = Entry(isDir: bool, content: string)

  /** The filesystem state: the key map and the current directory. */
  datatype Fs = Fs(files: map<string, Entry>, cwd: string)

  /** The three not-found errors, each naming the argument as the user
      typed it, before normalisation. */
  datatype FsError =
    | NoSuchDirectory(arg: string)
    | NoSuchFile(arg: string)
    | NoSuchFileOrDirectory(arg: string)

  datatype Result<T> = Ok(value: T) | Err(error: FsError)

  /** What `ls` gets back: directory names and file names, each sorted. */
  datatype Listing = Listing(dirs: seq<string>, files: seq<string>)

  // ----- building the map from the archive -----

  /** The key of a member: `/` before its name with every trailing `/` removed. */
  function MemberKey(m: Member): (k: string)
    ensures |k| > 0 && k[0] == Sep
    ensures k[|k| - 1] == Sep ==> k == "/"
  {
    "/" + TrimEnd(m.name, {Sep})
  }

  /** The entry of a member; a zip member is a directory when its name ends with `/`. */
  function MemberEntry(m: Member): Entry {
    Entry(|m.name| > 0 && m.name[|m.name| - 1] == Sep, m.data)
  }

  /** No later member has the same key as member `i`. */
  predicate LastWithKey(ms: seq<Member>, i: int)
    requires 0 <= i < |ms|
  {
    forall j :: i < j < |ms| ==> MemberKey(ms[j]) != MemberKey(ms[i])
  }

  /** The key map of an archive, built member by member in archive order,
      so a later member with the same key replaces an earlier one. */
  function FileTree(ms: seq<Member>): map<string, Entry>
    decreases |ms|
  {
    if |ms| == 0 then map[]
    else FileTree(ms[..|ms| - 1])[MemberKey(ms[|ms| - 1]) := MemberEntry(ms[|ms| - 1])]
  }

  /** The keys of the map are exactly the keys of the members. */
  lemma FileTreeKeys(ms: seq<Member>)
    ensures forall k :: k in FileTree(ms) <==> exists i :: 0 <= i < |ms| && MemberKey(ms[i]) == k
  {
    FileTreeKeysFromMembers(ms);
    FileTreeKeysOfMembers(ms);
  }

  /** Every key of the map is the key of some member. */
  lemma {:induction false} FileTreeKeysFromMembers(ms: seq<Member>)
    ensures forall k :: k in FileTree(ms) ==> exists i :: 0 <= i < |ms| && MemberKey(ms[i]) == k
    decreases |ms|
  {
    if |ms| > 0 {
      var n := |ms| - 1;
      FileTreeKeysFromMembers(ms[..n]);
      forall k | k in FileTree(ms)
        ensures exists i :: 0 <= i < |ms| && MemberKey(ms[i]) == k
      {
        if k != MemberKey(ms[n]) {
          assert k in FileTree(ms[..n]);
          var i :| 0 <= i < n && MemberKey(ms[..n][i]) == k;
          assert ms[..n][i] == ms[i];
        }
      }
    }
  }

  /** The key of every member is in the map. */
  lemma {:induction false} FileTreeKeysOfMembers(ms: seq<Member>)
    ensures forall i :: 0 <= i < |ms| ==> MemberKey(ms[i]) in FileTree(ms)
    decreases |ms|
  {
    if |ms| > 0 {
      var n := |ms| - 1;
      FileTreeKeysOfMembers(ms[..n]);
      forall i | 0 <= i < n
        ensures MemberKey(ms[i]) in FileTree(ms)
      {
        assert ms[..n][i] == ms[i];
      }
    }
  }

  /** Under each key sits the entry of the last member with that key. */
  lemma {:induction false} FileTreeLastWins(ms: seq<Member>, i: int)
    requires 0 <= i < |ms| && LastWithKey(ms, i)
    ensures MemberKey(ms[i]) in FileTree(ms)
    ensures FileTree(ms)[MemberKey(ms[i])] == MemberEntry(ms[i])
    decreases |ms|
  {
    var n := |ms| - 1;
    if i < n {
      assert ms[..n][i] == ms[i];
      assert LastWithKey(ms[..n], i) by {
        forall j | i < j < n
          ensures MemberKey(ms[..n][j]) != MemberKey(ms[..n][i])
        {
          assert ms[..n][j] == ms[j];
        }
      }
      FileTreeLastWins(ms[..n], i);
    }
  }

  /** Every key starts with `/`, and the current directory is a canonical
      absolute path. */
  ghost predicate Valid(fs: Fs) {
    && IsCanonical(fs.cwd)
    && forall k :: k in fs.files ==> |k| > 0 && k[0] == Sep
  }

  /** The filesystem of a freshly opened archive: cursor at the root. */
  function Open(ms: seq<Member>): (fs: Fs)
    ensures Valid(fs)
    ensures fs.cwd == "/"
    ensures forall k :: k in fs.files ==> k[|k| - 1] == Sep ==> k == "/"
  {
    assert Render(1, []) == "/";
    FileTreeKeys(ms);
    Fs(FileTree(ms), "/")
  }

  /** In a valid state every argument normalises to a canonical absolute path. */
  lemma NormalizeUnderValid(fs: Fs, path: string)
    ensures Valid(fs) ==> IsCanonical(Normalize(fs.cwd, path))
    ensures Valid(fs) ==> |Normalize(fs.cwd, path)| > 0 && Normalize(fs.cwd, path)[0] == Sep
  {
    if Valid(fs) {
      CanonicalShape(fs.cwd);
      NormalizeCanonical(fs.cwd, path);
      CanonicalShape(Normalize(fs.cwd, path));
    }
  }

  // ----- listing -----

  /** The normalised path with a `/` appended unless it already ends in one. */
  function DirPrefix(np: string): string {
    if |np| > 0 && np[|np| - 1] == Sep then np else np + [Sep]
  }

  /** First segments of the remainders that still hold a `/`. */
  function ChildDirs(keys: set<string>, prefix: string): set<string> {
    set k | k in keys && prefix < k && Sep in k[|prefix|..] :: FirstPart(k[|prefix|..], Sep)
  }

  /** Remainders that hold no `/`. */
  function ChildFiles(keys: set<string>, prefix: string): set<string> {
    set k | k in keys && prefix < k && Sep !in k[|prefix|..] :: k[|prefix|..]
  }

  lemma ChildrenFacts(keys: set<string>, prefix: string)
    ensures forall f :: f in ChildFiles(keys, prefix) ==> f != "" && NoneIn(f, {Sep}) && prefix + f in keys
    ensures forall d :: d in ChildDirs(keys, prefix) ==>
              NoneIn(d, {Sep}) && exists k :: k in keys && prefix + d + [Sep] <= k
  {
    forall f | f in ChildFiles(keys, prefix)
      ensures f != "" && NoneIn(f, {Sep}) && prefix + f in keys
    {
      var k :| k in keys && prefix < k && Sep !in k[|prefix|..] && f == k[|prefix|..];
      assert k == prefix + f;
      assert forall i :: 0 <= i < |f| ==> f[i] != Sep;
    }
    forall d | d in ChildDirs(keys, prefix)
      ensures NoneIn(d, {Sep}) && exists k :: k in keys && prefix + d + [Sep] <= k
    {
      var k :| k in keys && prefix < k && Sep in k[|prefix|..] && d == FirstPart(k[|prefix|..], Sep);
      var rel := k[|prefix|..];
      assert k == prefix + rel;
      assert d + [Sep] <= rel;
      assert prefix + d + [Sep] == (prefix + (d + [Sep]));
      assert prefix + d + [Sep] <= k;
    }
  }

  /** `list_dir`: scan every key below the directory prefix; a remainder
      holding `/` contributes its first segment as a directory, any other
      remainder is a file. Both results are sorted and complete. */
  function ListDir(fs: Fs, path: string): (r: Listing)
    ensures StrictlyAscending(r.dirs) && StrictlyAscending(r.files)
    ensures var prefix := DirPrefix(Normalize(fs.cwd, path));
            forall f :: f in r.files ==> f != "" && NoneIn(f, {Sep}) && prefix + f in fs.files
    ensures var prefix := DirPrefix(Normalize(fs.cwd, path));
            forall d :: d in r.dirs ==> NoneIn(d, {Sep}) && exists k :: k in fs.files && prefix + d + [Sep] <= k
    ensures var prefix := DirPrefix(Normalize(fs.cwd, path));
            forall k :: k in fs.files && prefix < k ==>
              if Sep in k[|prefix|..] then FirstPart(k[|prefix|..], Sep) in r.dirs
              else k[|prefix|..] in r.files
  {
    var prefix := DirPrefix(Normalize(fs.cwd, path));
    ChildrenFacts(fs.files.Keys, prefix);
    Listing(SortSet(ChildDirs(fs.files.Keys, prefix)), SortSet(ChildFiles(fs.files.Keys, prefix)))
  }

  // ----- changing directory -----

  /** Some key starts with `p` as a plain string, which is how the shell
      decides that a directory exists. */
  predicate PrefixOfSomeKey(files: map<string, Entry>, p: string) {
    exists k :: k in files && p <= k
  }

  /** `change_dir`: the normalised path becomes the cursor when it is `/`
      or a string prefix of some key; otherwise nothing changes. */
  function ChangeDir(fs: Fs, path: string): (r: Result<Fs>)
    ensures var np := Normalize(fs.cwd, path);
            r.Ok? <==> np == "/" || PrefixOfSomeKey(fs.files, np)
    ensures r.Ok? ==> r.value == fs.(cwd := Normalize(fs.cwd, path))
    ensures r.Err? ==> r.error == NoSuchDirectory(path)
    ensures Valid(fs) && r.Ok? ==> Valid(r.value)
  {
    var np := Normalize(fs.cwd, path);
    NormalizeUnderValid(fs, path);
    if PrefixOfSomeKey(fs.files, np) || np == "/" then Ok(fs.(cwd := np))
    else Err(NoSuchDirectory(path))
  }

  // ----- reading -----

  /** `read_file`: only an exact key whose entry is not a directory can be read. */
  function ReadFile(fs: Fs, path: string): (r: Result<string>)
    ensures var np := Normalize(fs.cwd, path);
            r.Ok? <==> np in fs.files && !fs.files[np].isDir
    ensures r.Ok? ==> r.value == fs.files[Normalize(fs.cwd, path)].content
    ensures r.Err? ==> r.error == NoSuchFile(path)
  {
    var np := Normalize(fs.cwd, path);
    if np in fs.files && !fs.files[np].isDir then Ok(fs.files[np].content)
    else Err(NoSuchFile(path))
  }

  // ----- renaming -----

  /** `move`: the entry under the exact source key is taken out and put
      under the destination key, replacing whatever was there; keys that
      merely start with the source are left where they are. */
  function Move(fs: Fs, src: string, dst: string): (r: Result<Fs>)
    ensures r.Ok? <==> Normalize(fs.cwd, src) in fs.files
    ensures r.Err? ==> r.error == NoSuchFileOrDirectory(src)
    ensures r.Ok? ==>
              var s := Normalize(fs.cwd, src);
              var d := Normalize(fs.cwd, dst);
              var m := r.value.files;
              && r.value.cwd == fs.cwd
              && d in m && m[d] == fs.files[s]
              && (s != d ==> s !in m)
              && (forall k :: k != s && k != d ==> (k in m <==> k in fs.files))
              && (forall k :: k in m && k != s && k != d ==> m[k] == fs.files[k])
    ensures Valid(fs) && r.Ok? ==> Valid(r.value)
  {
    var s := Normalize(fs.cwd, src);
    var d := Normalize(fs.cwd, dst);
    NormalizeUnderValid(fs, dst);
    if s in fs.files then
      var e := fs.files[s];
      Ok(fs.(files := (fs.files - {s})[d := e]))
    else Err(NoSuchFileOrDirectory(src))
  }

  // ----- how the operations fit together -----

  /** The directory prefix of a rendered directory, followed by a segment,
      is the rendered child directory. */
  lemma RenderChild(k: nat, segs: seq<string>, d: string)
    requires WellFormed(k, segs)
    ensures DirPrefix(Render(k, segs)) + d == Render(k, segs + [d])
  {
    if segs == [] {
      assert Render(k, []) == Slashes(k);
      assert Render(k, [d]) == Slashes(k) + d;
    } else {
      RenderLast(k, segs);
      JoinSnoc(segs, d, Sep);
    }
  }

  /** After a successful `cd p`, listing `.` lists exactly what listing `p`
      did before. */
  lemma CdThenListDot(fs: Fs, p: string)
    requires Valid(fs) && ChangeDir(fs, p).Ok?
    ensures ListDir(ChangeDir(fs, p).value, ".") == ListDir(fs, p)
  {
    var fs' := ChangeDir(fs, p).value;
    NormalizeUnderValid(fs, p);
    NormalizeDot(fs'.cwd);
  }

  /** Every canonical directory name that `ls` shows can be entered with
      `cd`, and the cursor then names that child directory. */
  lemma CdListedDir(fs: Fs, d: string)
    requires Valid(fs)
    requires d in ListDir(fs, ".").dirs && Canonical(d)
    ensures ChangeDir(fs, d).Ok?
    ensures ChangeDir(fs, d).value.cwd == DirPrefix(fs.cwd) + d
  {
    var k: nat, segs: seq<string> :| WellFormed(k, segs) && Render(k, segs) == fs.cwd;
    NormalizeDot(fs.cwd);
    var key :| key in fs.files && DirPrefix(fs.cwd) + d + [Sep] <= key;
    NormalizeChild(k, segs, d);
    RenderChild(k, segs, d);
    var np := Normalize(fs.cwd, d);
    assert np == DirPrefix(fs.cwd) + d;
    assert np <= key;
  }

  /** Every canonical file name that `ls` shows is a key below the cursor,
      and `tail` of that name reads it exactly when it is not a directory
      entry. */
  lemma ListedFileReadable(fs: Fs, f: string)
    requires Valid(fs)
    requires f in ListDir(fs, ".").files && Canonical(f)
    ensures DirPrefix(fs.cwd) + f in fs.files
    ensures ReadFile(fs, f).Ok? <==> !fs.files[DirPrefix(fs.cwd) + f].isDir
    ensures ReadFile(fs, f).Ok? ==> ReadFile(fs, f).value == fs.files[DirPrefix(fs.cwd) + f].content
  {
    var k: nat, segs: seq<string> :| WellFormed(k, segs) && Render(k, segs) == fs.cwd;
    NormalizeDot(fs.cwd);
    NormalizeChild(k, segs, f);
    RenderChild(k, segs, f);
    assert Normalize(fs.cwd, f) == DirPrefix(fs.cwd) + f;
  }

  /** `cd ..` at the root stays at the root and succeeds. */
  lemma CdDotDotAtRoot(fs: Fs)
    requires fs.cwd == "/"
    ensures ChangeDir(fs, "..") == Ok(fs)
  {
    assert Render(1, []) == "/";
    NormalizeDotDot(1, []);
  }

  /** `cd` to the cursor's own absolute path changes nothing. */
  lemma CdToCwd(fs: Fs)
    requires Valid(fs)
    ensures ChangeDir(fs, fs.cwd) == Ok(fs) || ChangeDir(fs, fs.cwd) == Err(NoSuchDirectory(fs.cwd))
  {
    CanonicalShape(fs.cwd);
    NormPathOfCanonical(fs.cwd);
  }

  /** After a rename, the destination reads what the source read before,
      and a distinct source no longer reads at all. */
  lemma ReadAfterMove(fs: Fs, src: string, dst: string)
    requires Move(fs, src, dst).Ok?
    ensures ReadFile(Move(fs, src, dst).value, dst).Ok? == ReadFile(fs, src).Ok?
    ensures ReadFile(fs, src).Ok? ==> ReadFile(Move(fs, src, dst).value, dst).value == ReadFile(fs, src).value
    ensures Normalize(fs.cwd, src) != Normalize(fs.cwd, dst) ==> ReadFile(Move(fs, src, dst).value, src).Err?
  {
  }

  /** Renaming a key onto itself leaves the map as it was. */
  lemma MoveOntoItself(fs: Fs, src: string, dst: string)
    requires Normalize(fs.cwd, src) in fs.files
    requires Normalize(fs.cwd, src) == Normalize(fs.cwd, dst)
    ensures Move(fs, src, dst) == Ok(fs)
  {
    var s := Normalize(fs.cwd, src);
    assert (fs.files - {s})[s := fs.files[s]] == fs.files;
  }

  /** Renaming back undoes a rename that did not overwrite anything. */
  lemma MoveBack(fs: Fs, src: string, dst: string)
    requires Move(fs, src, dst).Ok?
    requires Normalize(fs.cwd, dst) !in fs.files
    ensures Move(Move(fs, src, dst).value, dst, src) == Ok(fs)
  {
    var s := Normalize(fs.cwd, src);
    var d := Normalize(fs.cwd, dst);
    var m1 := (fs.files - {s})[d := fs.files[s]];
    assert ((m1 - {d})[s := m1[d]]) == fs.files;
  }

  /** A rename changes the number of keys only when it overwrites another key. */
  lemma MoveSize(fs: Fs, src: string, dst: string)
    requires Move(fs, src, dst).Ok?
    ensures var d := Normalize(fs.cwd, dst);
            var s := Normalize(fs.cwd, src);
            |Move(fs, src, dst).value.files| == if d in fs.files && d != s then |fs.files| - 1 else |fs.files|
  {
    var s := Normalize(fs.cwd, src);
    var d := Normalize(fs.cwd, dst);
    var m := Move(fs, src, dst).value.files;
    if d in fs.files && d != s {
      assert m.Keys == fs.files.Keys - {s};
    } else if d == s {
      assert m.Keys == fs.files.Keys;
    } else {
      assert m.Keys == fs.files.Keys - {s} + {d};
    }
  }
}
