/**
 The scenarios of the repository's unit tests, stated over the model:
 listing and changing directories in a small archive, renaming, `tail` of
 a twenty-line file, the exit that saves the log, and the quirks of the
 prefix test that decides whether a directory exists.
 */
module Examples {
  import opened Strings
  import opened Ordering
  import opened Paths
  import opened Vfs
  import opened Shell

  // ----- tools for concrete listings -----

  /** A key holding no `/` after the prefix is a file of the listing. */
  lemma FileKey(k: string, prefix: string, f: string)
    requires k == prefix + f && f != "" && Sep !in f
    ensures ChildDirs({k}, prefix) == {} && ChildFiles({k}, prefix) == {f}
  {
    assert k[|prefix|..] == f;
  }

  /** A key holding `d/` after the prefix contributes the directory `d`. */
  lemma DirKey(k: string, prefix: string, d: string, rest: string)
    requires k == prefix + d + [Sep] + rest && NoneIn(d, {Sep})
    ensures ChildDirs({k}, prefix) == {d} && ChildFiles({k}, prefix) == {}
  {
    assert k[|prefix|..] == d + [Sep] + rest;
    FirstPartOf(d, Sep, rest);
  }

  /** A key that does not extend the prefix contributes nothing. */
  lemma OtherKey(k: string, prefix: string)
    requires !(prefix < k)
    ensures ChildDirs({k}, prefix) == {} && ChildFiles({k}, prefix) == {}
  {
  }

  /** The listing of a union is the union of the listings. */
  lemma ChildrenOfUnion(a: set<string>, b: set<string>, prefix: string)
    ensures ChildDirs(a + b, prefix) == ChildDirs(a, prefix) + ChildDirs(b, prefix)
    ensures ChildFiles(a + b, prefix) == ChildFiles(a, prefix) + ChildFiles(b, prefix)
  {
  }

  /** The children of two keys below `prefix`, from those of each key. */
  lemma ChildrenOfTwo(a: string, b: string, prefix: string)
    ensures ChildDirs({a, b}, prefix) == ChildDirs({a}, prefix) + ChildDirs({b}, prefix)
    ensures ChildFiles({a, b}, prefix) == ChildFiles({a}, prefix) + ChildFiles({b}, prefix)
  {
    assert {a, b} == {a} + {b};
    ChildrenOfUnion({a}, {b}, prefix);
  }

  /** The children of the three keys below `prefix`, from those of each key. */
  lemma ChildrenOfThree(a: string, b: string, c: string, prefix: string)
    ensures ChildDirs({a, b, c}, prefix) == ChildDirs({a}, prefix) + ChildDirs({b}, prefix) + ChildDirs({c}, prefix)
    ensures ChildFiles({a, b, c}, prefix) == ChildFiles({a}, prefix) + ChildFiles({b}, prefix) + ChildFiles({c}, prefix)
  {
    assert {a, b, c} == {a} + {b} + {c};
    ChildrenOfUnion({a}, {b}, prefix);
    ChildrenOfUnion({a} + {b}, {c}, prefix);
  }

  /** Below `prefix`, a file key and a key inside a directory give one file
      and one directory. */
  lemma FileAndDir(keys: set<string>, prefix: string, f: string, d: string, rest: string)
    requires keys == {prefix + f, prefix + d + [Sep] + rest}
    requires f != "" && Sep !in f && NoneIn(d, {Sep})
    ensures ChildDirs(keys, prefix) == {d} && ChildFiles(keys, prefix) == {f}
  {
    FileKey(prefix + f, prefix, f);
    DirKey(prefix + d + [Sep] + rest, prefix, d, rest);
    ChildrenOfTwo(prefix + f, prefix + d + [Sep] + rest, prefix);
  }

  /** Below `prefix`, a file key and two keys inside one directory give one
      file and one directory. */
  lemma FileAndTwoDirs(keys: set<string>, prefix: string, f: string, d: string, r1: string, r2: string)
    requires keys == {prefix + f, prefix + d + [Sep] + r1, prefix + d + [Sep] + r2}
    requires f != "" && Sep !in f && NoneIn(d, {Sep})
    ensures ChildDirs(keys, prefix) == {d} && ChildFiles(keys, prefix) == {f}
  {
    FileKey(prefix + f, prefix, f);
    DirKey(prefix + d + [Sep] + r1, prefix, d, r1);
    DirKey(prefix + d + [Sep] + r2, prefix, d, r2);
    ChildrenOfThree(prefix + f, prefix + d + [Sep] + r1, prefix + d + [Sep] + r2, prefix);
  }

  /** Below `prefix`, a key outside it, a file key and a key inside a
      directory give one file and one directory. */
  lemma OtherFileAndDir(keys: set<string>, prefix: string, o: string, f: string, d: string, rest: string)
    requires keys == {o, prefix + f, prefix + d + [Sep] + rest}
    requires !(prefix < o) && f != "" && Sep !in f && NoneIn(d, {Sep})
    ensures ChildDirs(keys, prefix) == {d} && ChildFiles(keys, prefix) == {f}
  {
    OtherKey(o, prefix);
    FileKey(prefix + f, prefix, f);
    DirKey(prefix + d + [Sep] + rest, prefix, d, rest);
    ChildrenOfThree(o, prefix + f, prefix + d + [Sep] + rest, prefix);
  }

  /** A listing whose child sets are known. */
  lemma ListingOf(fs: Fs, path: string, d: string, f: string)
    requires ChildDirs(fs.files.Keys, DirPrefix(Normalize(fs.cwd, path))) == {d}
    requires ChildFiles(fs.files.Keys, DirPrefix(Normalize(fs.cwd, path))) == {f}
    ensures ListDir(fs, path) == Listing([d], [f])
  {
    SortSingleton(d);
    SortSingleton(f);
  }

  /** A one-element set sorts to the one-element sequence. */
  lemma SortSingleton(x: string)
    ensures SortSet({x}) == [x]
  {
    var r := SortSet({x});
    assert r[0] in {x};
  }

  /** `/name` for a canonical name is already normal. */
  lemma RootChild(d: string)
    requires Canonical(d)
    ensures Render(1, [d]) == "/" + d
    ensures Normalize("/", d) == "/" + d && Normalize("/", "/" + d) == "/" + d
  {
    assert Render(1, []) == "/";
    NormalizeChild(1, [], d);
    NormPathRender(1, [d]);
  }

  /** A listing with no directories and one file. */
  lemma ListingOfFile(fs: Fs, path: string, f: string)
    requires ChildDirs(fs.files.Keys, DirPrefix(Normalize(fs.cwd, path))) == {}
    requires ChildFiles(fs.files.Keys, DirPrefix(Normalize(fs.cwd, path))) == {f}
    ensures ListDir(fs, path) == Listing([], [f])
  {
    SortSingleton(f);
  }

  /** The root is already normal, and `.` there names it. */
  lemma RootItself()
    ensures Normalize("/", "/") == "/" && Normalize("/", ".") == "/"
  {
    assert WellFormed(1, []) && Render(1, []) == "/";
    NormPathRender(1, []);
    NormalizeDot("/");
  }

  /** `.` in `/name` names `/name`. */
  lemma DotInRootChild(d: string)
    requires Canonical(d)
    ensures Normalize("/" + d, ".") == "/" + d
  {
    RootChild(d);
    assert WellFormed(1, [d]);
    NormalizeDot("/" + d);
  }

  /** A name that is one plain path segment and one word. */
  predicate Plain(name: string) {
    Canonical(name) && NoneIn(name, Whitespace)
  }

  /** Visible ASCII other than `/`. */
  predicate Visible(name: string) {
    forall i :: 0 <= i < |name| ==> '!' <= name[i] <= '~' && name[i] != Sep
  }

  /** No whitespace character is visible ASCII. */
  lemma VisibleIsPlain(name: string)
    requires name != "" && name != "." && name != ".." && Visible(name)
    ensures Plain(name)
  {
  }

  /** A visible ASCII character is not whitespace. */
  lemma VisibleChar(c: char)
    requires '!' <= c <= '~'
    ensures c !in Whitespace
  {
  }

  /** A member whose name does not end in `/` is a file keyed by `/name`. */
  lemma FileMember(name: string, data: string)
    requires |name| > 0 && name[|name| - 1] != Sep
    ensures MemberKey(Member(name, data)) == "/" + name
    ensures MemberEntry(Member(name, data)) == Entry(false, data)
  {
  }

  /** The map of two members, the second written last. */
  lemma TreeOfTwo(m1: Member, m2: Member)
    ensures FileTree([m1, m2]) == FileTree([])[MemberKey(m1) := MemberEntry(m1)][MemberKey(m2) := MemberEntry(m2)]
  {
    assert [m1, m2][..1] == [m1] && [m1][..0] == [];
  }

  /** The map of three members, written in order. */
  lemma TreeOfThree(m1: Member, m2: Member, m3: Member)
    ensures FileTree([m1, m2, m3])
         == FileTree([])[MemberKey(m1) := MemberEntry(m1)][MemberKey(m2) := MemberEntry(m2)][MemberKey(m3) := MemberEntry(m3)]
  {
    assert [m1, m2, m3][..2] == [m1, m2];
    TreeOfTwo(m1, m2);
  }

  /** The map of three file members. */
  lemma TreeOfThreeFiles(n1: string, d1: string, n2: string, d2: string, n3: string, d3: string)
    requires |n1| > 0 && n1[|n1| - 1] != Sep
    requires |n2| > 0 && n2[|n2| - 1] != Sep
    requires |n3| > 0 && n3[|n3| - 1] != Sep
    ensures FileTree([Member(n1, d1), Member(n2, d2), Member(n3, d3)])
         == map["/" + n1 := Entry(false, d1), "/" + n2 := Entry(false, d2), "/" + n3 := Entry(false, d3)]
  {
    TreeOfThree(Member(n1, d1), Member(n2, d2), Member(n3, d3));
    FileMember(n1, d1);
    FileMember(n2, d2);
    FileMember(n3, d3);
  }

  /** The map of two file members. */
  lemma TreeOfTwoFiles(n1: string, d1: string, n2: string, d2: string)
    requires |n1| > 0 && n1[|n1| - 1] != Sep
    requires |n2| > 0 && n2[|n2| - 1] != Sep
    ensures FileTree([Member(n1, d1), Member(n2, d2)]) == map["/" + n1 := Entry(false, d1), "/" + n2 := Entry(false, d2)]
  {
    TreeOfTwo(Member(n1, d1), Member(n2, d2));
    FileMember(n1, d1);
    FileMember(n2, d2);
  }

  // ----- the file-system archive -----

  const File1 := "/file1.txt"
  const File2 := "/dir1/file2.txt"
  const File3 := "/dir1/subdir/file3.txt"

  /** Three files, two of them inside directories, no directory member. */
  function Archive(): seq<Member> {
    [ Member("file1.txt", "Content of file1\nLine2\nLine3"),
      Member("dir1/file2.txt", "Content of file2"),
      Member("dir1/subdir/file3.txt", "Content of file3") ]
  }

  function ArchiveTree(): map<string, Entry> {
    map[File1 := Entry(false, "Content of file1\nLine2\nLine3"),
        File2 := Entry(false, "Content of file2"),
        File3 := Entry(false, "Content of file3")]
  }

  /** The archive once opened, at the root. */
  function ArchiveFs(): Fs {
    Fs(ArchiveTree(), "/")
  }

  /** Opening the archive keys each file by its `/`-prefixed name at the root. */
  lemma OpenArchive()
    ensures Open(Archive()) == ArchiveFs()
  {
    TreeOfThreeFiles("file1.txt", "Content of file1\nLine2\nLine3", "dir1/file2.txt", "Content of file2",
                     "dir1/subdir/file3.txt", "Content of file3");
    ArchiveNames();
  }

  // The lemmas named after a literal (`SlashFile1Txt`, `SlashFil`, ...) each
  // state one concatenation of string literals, so that the larger proofs
  // that call them never unfold the literals themselves.

  /** The archive's member names, each keyed with a leading `/`. */
  lemma ArchiveNames()
    ensures "/" + "file1.txt" == File1 && "/" + "dir1/file2.txt" == File2
    ensures "/" + "dir1/subdir/file3.txt" == File3
  {
    SlashFile1Txt();
    SlashDir1File2Txt();
    SlashDir1SubdirFile3Txt();
  }

  lemma SlashFile1Txt()
    ensures "/" + "file1.txt" == File1
  {
  }

  lemma SlashDir1File2Txt()
    ensures "/" + "dir1/file2.txt" == File2
  {
  }

  lemma SlashDir1SubdirFile3Txt()
    ensures "/" + "dir1/subdir/file3.txt" == File3
  {
  }

  /** `file1.txt` is not below `/dir1/`. */
  lemma File1Outside()
    ensures !("/dir1/" < File1)
  {
    assert File1[1] != "/dir1/"[1];
  }

  lemma File2InDir1()
    ensures File2 == "/dir1/" + "file2.txt"
  {
  }

  lemma File3InDir1()
    ensures File3 == "/dir1/" + "subdir" + [Sep] + "file3.txt"
  {
  }

  lemma RootChildren()
    ensures ChildDirs(ArchiveTree().Keys, "/") == {"dir1"}
    ensures ChildFiles(ArchiveTree().Keys, "/") == {"file1.txt"}
  {
    ArchiveKeys();
    ArchivePaths();
    FileAndTwoDirs(ArchiveTree().Keys, "/", "file1.txt", "dir1", "file2.txt", "subdir/file3.txt");
  }

  /** The archive's paths, as a name below the root or below `dir1`. */
  lemma ArchivePaths()
    ensures File1 == "/" + "file1.txt"
    ensures File2 == "/" + "dir1" + [Sep] + "file2.txt"
    ensures File3 == "/" + "dir1" + [Sep] + "subdir/file3.txt"
  {
    SlashFile1Txt();
    SlashDir1SepFile2Txt();
    SlashDir1SepSubdirFile3Txt();
  }

  lemma SlashDir1SepFile2Txt()
    ensures File2 == "/" + "dir1" + [Sep] + "file2.txt"
  {
  }

  lemma SlashDir1SepSubdirFile3Txt()
    ensures File3 == "/" + "dir1" + [Sep] + "subdir/file3.txt"
  {
  }

  lemma ArchiveKeys()
    ensures ArchiveTree().Keys == {File1, File2, File3}
  {
  }

  /** `list_dir('/')`: the directory `dir1` and the file `file1.txt`. */
  lemma ListRoot()
    ensures ListDir(ArchiveFs(), "/") == Listing(["dir1"], ["file1.txt"])
  {
    RootItself();
    assert DirPrefix("/") == "/";
    RootChildren();
    ListingOf(ArchiveFs(), "/", "dir1", "file1.txt");
  }

  /** `dir1` and `/dir1` both name `/dir1`, whose prefix is `/dir1/`. */
  lemma Dir1Path()
    ensures Normalize("/", "dir1") == "/dir1" && Normalize("/", "/dir1") == "/dir1"
    ensures DirPrefix("/dir1") == "/dir1/"
  {
    RootChild("dir1");
  }

  lemma Dir1Children()
    ensures ChildDirs(ArchiveTree().Keys, "/dir1/") == {"subdir"}
    ensures ChildFiles(ArchiveTree().Keys, "/dir1/") == {"file2.txt"}
  {
    ArchiveKeys();
    File1Outside();
    File2InDir1();
    File3InDir1();
    OtherFileAndDir(ArchiveTree().Keys, "/dir1/", File1, "file2.txt", "subdir", "file3.txt");
  }

  /** `list_dir('/dir1')`: the directory `subdir` and the file `file2.txt`. */
  lemma ListDir1()
    ensures ListDir(ArchiveFs(), "/dir1") == Listing(["subdir"], ["file2.txt"])
  {
    Dir1Path();
    Dir1Children();
    ListingOf(ArchiveFs(), "/dir1", "subdir", "file2.txt");
  }

  /** From the root, a name that begins some key is entered. */
  lemma CdRootChild(fs: Fs, name: string, rest: string)
    requires fs.cwd == "/" && Canonical(name)
    requires "/" + name + rest in fs.files
    ensures ChangeDir(fs, name) == Ok(fs.(cwd := "/" + name))
  {
    RootChild(name);
    assert "/" + name <= "/" + name + rest;
  }

  /** From the root, a name whose first letter starts no key is refused. */
  lemma CdRootMissing(fs: Fs, name: string)
    requires fs.cwd == "/" && Canonical(name)
    requires forall k :: k in fs.files ==> |k| < 2 || k[1] != name[0]
    ensures ChangeDir(fs, name) == Err(NoSuchDirectory(name))
  {
    RootChild(name);
    var np := "/" + name;
    assert np[1] == name[0];
  }

  lemma ArchiveHas(k: string)
    requires k in {File1, File2, File3}
    ensures k in ArchiveTree()
  {
    ArchiveKeys();
  }

  /** `change_dir('dir1')` moves to `/dir1`, where `.` lists `subdir` and `file2.txt`. */
  lemma CdDir1()
    ensures ChangeDir(ArchiveFs(), "dir1") == Ok(Fs(ArchiveTree(), "/dir1"))
    ensures ListDir(Fs(ArchiveTree(), "/dir1"), ".") == Listing(["subdir"], ["file2.txt"])
  {
    assert "/" + "dir1" + "/file2.txt" == File2;
    ArchiveHas(File2);
    CdRootChild(ArchiveFs(), "dir1", "/file2.txt");
    OpenArchive();
    CdThenListDot(ArchiveFs(), "dir1");
    Dir1Path();
    ListDir1();
  }

  /** `change_dir('nonexistent')` fails, naming the argument. */
  lemma CdNonexistent()
    ensures ChangeDir(ArchiveFs(), "nonexistent") == Err(NoSuchDirectory("nonexistent"))
  {
    ArchiveKeys();
    assert File1[1] == 'f' && File2[1] == 'd' && File3[1] == 'd';
    CdRootMissing(ArchiveFs(), "nonexistent");
  }

  /** The directory test is a plain string prefix: `cd fil` succeeds,
      since `/fil` begins the key `/file1.txt`. */
  lemma CdPartialName()
    ensures ChangeDir(ArchiveFs(), "fil") == Ok(Fs(ArchiveTree(), "/fil"))
  {
    assert "/" + "fil" + "e1.txt" == File1;
    ArchiveHas(File1);
    CdRootChild(ArchiveFs(), "fil", "e1.txt");
    SlashFil();
  }

  lemma SlashFil()
    ensures "/" + "fil" == "/fil"
  {
  }

  /** For the same reason `cd` into a file succeeds. */
  lemma CdIntoFile()
    ensures ChangeDir(ArchiveFs(), "file1.txt") == Ok(Fs(ArchiveTree(), "/file1.txt"))
  {
    assert "/" + "file1.txt" == File1;
    assert "/" + "file1.txt" + "" == File1;
    ArchiveHas(File1);
    CdRootChild(ArchiveFs(), "file1.txt", "");
  }

  // ----- an archive with an explicit directory member -----

  const Dir1 := "/dir1"

  /** The directory `dir1/` as a member of its own, then a file inside it. */
  function DirArchive(): seq<Member> {
    [ Member("dir1/", ""),
      Member("dir1/file2.txt", "Content of file2") ]
  }

  function DirArchiveTree(): map<string, Entry> {
    map[Dir1 := Entry(true, ""), File2 := Entry(false, "Content of file2")]
  }

  /** A name with one trailing `/` is keyed without it. */
  lemma DirMemberKey(name: string, data: string)
    requires |name| > 0 && name[|name| - 1] != Sep
    ensures MemberKey(Member(name + [Sep], data)) == "/" + name
  {
    assert (name + [Sep])[..|name|] == name;
  }

  /** The directory member is keyed without its trailing `/` and marked a directory. */
  lemma OpenDirArchive()
    ensures Open(DirArchive()) == Fs(DirArchiveTree(), "/")
  {
    var ms := DirArchive();
    assert ms[0] == Member("dir1" + [Sep], "");
    DirMemberKey("dir1", "");
    assert MemberKey(ms[0]) == Dir1;
    assert MemberKey(ms[1]) == File2;
    assert MemberEntry(ms[0]) == Entry(true, "");
    assert ms[..1][..0] == [] && ms[..1][0] == ms[0];
    assert FileTree(ms[..1]) == map[Dir1 := Entry(true, "")];
  }

  lemma DirArchiveKeys()
    ensures DirArchiveTree().Keys == {Dir1, File2}
  {
  }

  lemma DirRootChildren()
    ensures ChildDirs(DirArchiveTree().Keys, "/") == {"dir1"}
    ensures ChildFiles(DirArchiveTree().Keys, "/") == {"dir1"}
  {
    DirArchiveKeys();
    assert Dir1 == "/" + "dir1";
    assert File2 == "/" + "dir1" + [Sep] + "file2.txt";
    FileAndDir(DirArchiveTree().Keys, "/", "dir1", "dir1", "file2.txt");
  }

  /** The key of a directory member has no trailing `/`, so the root lists
      `dir1` both as a directory (from the file inside it) and as a file. */
  lemma ExplicitDirListedTwice()
    ensures ListDir(Fs(DirArchiveTree(), "/"), "/") == Listing(["dir1"], ["dir1"])
  {
    RootItself();
    assert DirPrefix("/") == "/";
    DirRootChildren();
    ListingOf(Fs(DirArchiveTree(), "/"), "/", "dir1", "dir1");
  }

  lemma SlashDir1AndSlashD()
    ensures "/" + "dir1" == Dir1 && "/" + "d" == "/d"
  {
    SlashDir1();
    SlashD();
  }

  lemma SlashDir1()
    ensures "/" + "dir1" == Dir1
  {
  }

  lemma SlashD()
    ensures "/" + "d" == "/d"
  {
  }

  /** Renaming a directory moves its own key only; the file inside keeps
      its old path. */
  lemma MoveDoesNotCascade()
    ensures Move(Fs(DirArchiveTree(), "/"), "dir1", "d")
         == Ok(Fs(map["/d" := Entry(true, ""), File2 := Entry(false, "Content of file2")], "/"))
  {
    var fs := Fs(DirArchiveTree(), "/");
    SlashDir1AndSlashD();
    MoveAtRoot(fs, "dir1", "d");
    assert File2 != Dir1 && File2 != "/d";
    RenameOneOfTwo(Dir1, Entry(true, ""), File2, Entry(false, "Content of file2"), "/d");
  }

  /** At the root, `move(a, d)` for plain names renames key `/a` to `/d`. */
  lemma MoveAtRoot(fs: Fs, a: string, d: string)
    requires fs.cwd == "/" && Canonical(a) && Canonical(d) && "/" + a in fs.files
    ensures Move(fs, a, d) == Ok(fs.(files := (fs.files - {"/" + a})["/" + d := fs.files["/" + a]]))
  {
    RootChild(a);
    RootChild(d);
  }

  /** Renaming one key of a two-key map keeps the other. */
  lemma RenameOneOfTwo<V>(a: string, va: V, b: string, vb: V, d: string)
    requires a != b && d != b
    ensures (map[a := va, b := vb] - {a})[d := va] == map[d := va, b := vb]
  {
  }

  // ----- the shell session -----

  /** A single word is its own word list. */
  lemma OneWord(a: string)
    requires a != "" && NoneIn(a, Whitespace)
    ensures Words(a) == [a]
  {
    WordsOfJoin([a]);
  }

  /** Two words separated by a space. */
  lemma TwoWords(a: string, b: string)
    requires a != "" && NoneIn(a, Whitespace)
    requires b != "" && NoneIn(b, Whitespace)
    ensures Words(a + " " + b) == [a, b]
  {
    OneWord(a);
    OneWord(b);
    WordsAppend(a, ' ', b);
  }

  /** Three words separated by spaces. */
  lemma ThreeWords(a: string, b: string, c: string)
    requires a != "" && NoneIn(a, Whitespace)
    requires b != "" && NoneIn(b, Whitespace)
    requires c != "" && NoneIn(c, Whitespace)
    ensures Words(a + " " + b + " " + c) == [a, b, c]
  {
    TwoWords(a, b);
    OneWord(c);
    WordsAppend(a + " " + b, ' ', c);
  }

  /** The decimal digit for `d`. */
  function Digit(d: nat): char
    requires d < 10
  {
    ('0' as int + d) as char
  }

  /** `str(n)` for `0 < n < 100`. */
  function Decimal(n: nat): string
    requires 0 < n < 100
  {
    if n < 10 then [Digit(n)] else [Digit(n / 10), Digit(n % 10)]
  }

  /** Different numbers have different decimal texts. */
  lemma DecimalInjective(n: nat, m: nat)
    requires 0 < n < 100 && 0 < m < 100
    ensures Decimal(n) == Decimal(m) ==> n == m
  {
    if Decimal(n) == Decimal(m) && n >= 10 && m >= 10 {
      assert Decimal(n)[0] == Decimal(m)[0] && Decimal(n)[1] == Decimal(m)[1];
    }
  }

  /** `f"Line {n}"`. */
  function LineText(n: nat): (t: string)
    requires 0 < n < 100
    ensures t != "" && t[0] == 'L' && t[|t| - 1] in "0123456789"
    ensures NoneIn(t, {'\n'})
  {
    "Line " + Decimal(n)
  }

  /** `Line 1` to `Line 20`, the lines of the test file. */
  function TwentyLines(): (ls: seq<string>)
    ensures |ls| == 20
  {
    seq(20, i requires 0 <= i < 20 => LineText(i + 1))
  }

  /** The text of the test file: the twenty lines joined by newlines. */
  function TwentyLineText(): string {
    Join(TwentyLines(), '\n')
  }

  const TextFile := "/file.txt"
  const SubFile := "/dir/subfile.txt"

  /** A file `file.txt` holding `text` at the root and one file in `dir`. */
  function ShellArchive(text: string): seq<Member> {
    [ Member("file.txt", text),
      Member("dir/subfile.txt", "Subfile content") ]
  }

  function ShellTree(text: string): map<string, Entry> {
    map[TextFile := Entry(false, text),
        SubFile := Entry(false, "Subfile content")]
  }

  lemma OpenShellArchive(text: string)
    ensures Open(ShellArchive(text)) == Fs(ShellTree(text), "/")
  {
    TreeOfTwoFiles("file.txt", text, "dir/subfile.txt", "Subfile content");
    ShellPaths();
  }

  lemma ShellPaths()
    ensures TextFile == "/" + "file.txt" && SubFile == "/" + "dir/subfile.txt"
  {
    SlashFileTxt();
    SlashDirSubfileTxt();
  }

  lemma SlashFileTxt()
    ensures TextFile == "/" + "file.txt"
  {
  }

  lemma SlashDirSubfileTxt()
    ensures SubFile == "/" + "dir/subfile.txt"
  {
  }

  lemma ShellKeys(text: string)
    ensures ShellTree(text).Keys == {TextFile, SubFile}
  {
  }

  /** A session of `user` over the shell archive, at the root with an empty log. */
  function ShellStart(user: string, text: string): Session {
    Session(user, Fs(ShellTree(text), "/"), [])
  }

  lemma StartShell(user: string, text: string)
    ensures Start(user, ShellArchive(text)) == ShellStart(user, text)
  {
    OpenShellArchive(text);
  }

  /** The first prompt of a session opened on the shell archive shows the
      user at the root. */
  lemma FirstPrompt(user: string, text: string)
    ensures Prompt(Start(user, ShellArchive(text))) == user + "@virtual:/$ "
  {
    StartShell(user, text);
    AtVirtualRoot();
    PromptPieces(user, "@virtual:", "/", "$ ");
  }

  lemma AtVirtualRoot()
    ensures "@virtual:" + "/" + "$ " == "@virtual:/$ "
  {
  }

  lemma PromptPieces(a: string, b: string, c: string, d: string)
    ensures a + b + c + d == a + (b + c + d)
  {
  }

  /** `tail` of the file shows `Line 11` to `Line 20`. */
  lemma TailOfTwenty()
    ensures TailOf(TwentyLineText()) == TwentyLines()[10..]
  {
    TwentyLinesShape();
    TailOfLines(TwentyLines());
  }

  /** The test lines hold no newline, and the text starts and ends with a
      character that is not whitespace. */
  lemma TwentyLinesShape()
    ensures forall i :: 0 <= i < |TwentyLines()| ==> NoneIn(TwentyLines()[i], {'\n'})
    ensures TwentyLines()[0] != "" && TwentyLines()[0][0] !in Whitespace
    ensures var last := TwentyLines()[19]; last != "" && last[|last| - 1] !in Whitespace
  {
    var ls := TwentyLines();
    forall i | 0 <= i < |ls|
      ensures NoneIn(ls[i], {'\n'})
    {
      assert ls[i] == LineText(i + 1);
    }
    assert ls[0] == LineText(1) && ls[19] == LineText(20);
    LineEnds(1);
    LineEnds(20);
  }

  /** A test line starts and ends with a character that is not whitespace. */
  lemma LineEnds(n: nat)
    requires 0 < n < 100
    ensures var t := LineText(n); t[0] !in Whitespace && t[|t| - 1] !in Whitespace
  {
    var t := LineText(n);
    assert '0' <= t[|t| - 1] <= '9';
    VisibleChar(t[0]);
    VisibleChar(t[|t| - 1]);
  }

  /** The test's expectations of the shown lines: `Line 11` first, `Line 20`
      last, `Line 10` nowhere. */
  lemma ShownLines()
    ensures var shown := Lines(TwentyLines()[10..], "");
            && |shown| == 10
            && shown[0] == Line("Line 11") && shown[9] == Line("Line 20")
            && Line("Line 10") !in shown
  {
    LineTexts();
    ShownIs(0);
    ShownIs(9);
    ShownNotTen();
  }

  lemma ShownNotTen()
    ensures Line(LineText(10)) !in Lines(TwentyLines()[10..], "")
  {
    var shown := Lines(TwentyLines()[10..], "");
    forall i | 0 <= i < 10
      ensures shown[i] != Line(LineText(10))
    {
      ShownIs(i);
      DecimalInjective(11 + i, 10);
      assert LineText(11 + i)[5..] == Decimal(11 + i);
      assert LineText(10)[5..] == Decimal(10);
    }
  }

  lemma ShownIs(i: nat)
    requires i < 10
    ensures Lines(TwentyLines()[10..], "")[i] == Line(LineText(11 + i))
  {
    assert TwentyLines()[10..][i] + "" == LineText(11 + i);
  }

  lemma LineTexts()
    ensures LineText(10) == "Line 10" && LineText(11) == "Line 11" && LineText(20) == "Line 20"
  {
    LineTextOf(10, "Line 10");
    LineTextOf(11, "Line 11");
    LineTextOf(20, "Line 20");
  }

  lemma LineTextOf(n: nat, t: string)
    requires 10 <= n < 100 && t == "Line " + [Digit(n / 10), Digit(n % 10)]
    ensures LineText(n) == t
  {
  }

  /** From the root, `tail name` on a file prints the tail of its text. */
  lemma TailAtRoot(s: Session, name: string)
    requires s.fs.cwd == "/" && Plain(name)
    requires "/" + name in s.fs.files && !s.fs.files["/" + name].isDir
    ensures Execute(s, "tail " + name)
         == Step(Logged(s, "tail " + name), Lines(TailOf(s.fs.files["/" + name].content), ""), Running)
  {
    assert "tail " + name == "tail" + " " + name;
    TwoWords("tail", name);
    TailCommand(s, "tail " + name);
    RootChild(name);
  }

  lemma FileTxtName()
    ensures Plain("file.txt")
    ensures "/" + "file.txt" == TextFile && "tail " + "file.txt" == "tail file.txt"
  {
    VisibleIsPlain("file.txt");
  }

  /** `tail file.txt` prints the tail of the file's text. */
  lemma TailOfFile(user: string, text: string)
    ensures var s := ShellStart(user, text);
            Execute(s, "tail file.txt") == Step(Logged(s, "tail file.txt"), Lines(TailOf(text), ""), Running)
  {
    FileTxtName();
    ShellKeys(text);
    TailAtRoot(ShellStart(user, text), "file.txt");
  }

  /** `tail file.txt` prints `Line 11` to `Line 20`; only the log changes. */
  lemma TailExample(user: string)
    ensures var s := ShellStart(user, TwentyLineText());
            Execute(s, "tail file.txt") == Step(Logged(s, "tail file.txt"), Lines(TwentyLines()[10..], ""), Running)
  {
    TailOfFile(user, TwentyLineText());
    TailOfTwenty();
  }

  /** From the root, `tail name` on a missing name reports it. */
  lemma TailMissingAtRoot(s: Session, name: string)
    requires s.fs.cwd == "/" && Plain(name)
    requires "/" + name !in s.fs.files
    ensures Execute(s, "tail " + name) == Step(Logged(s, "tail " + name), [Error(NoSuchFile(name))], Running)
  {
    assert "tail " + name == "tail" + " " + name;
    TwoWords("tail", name);
    TailCommand(s, "tail " + name);
    RootChild(name);
  }

  lemma MissingIsPlain()
    ensures Plain("nonexistent.txt")
  {
    VisibleIsPlain("nonexistent.txt");
  }

  lemma MissingName(text: string)
    ensures "/" + "nonexistent.txt" !in ShellTree(text)
  {
    ShellKeys(text);
    assert ("/" + "nonexistent.txt")[1] == 'n' && TextFile[1] == 'f' && SubFile[1] == 'd';
  }

  /** `tail nonexistent.txt` prints an error and changes nothing but the log. */
  lemma TailMissingExample(user: string, text: string)
    ensures var s := ShellStart(user, text);
            Execute(s, "tail nonexistent.txt") ==
              Step(Logged(s, "tail nonexistent.txt"), [Error(NoSuchFile("nonexistent.txt"))], Running)
  {
    MissingIsPlain();
    MissingName(text);
    assert "tail " + "nonexistent.txt" == "tail nonexistent.txt";
    TailMissingAtRoot(ShellStart(user, text), "nonexistent.txt");
  }

  /** From the root, `mv a b` renames the key `/a` to `/b`. */
  lemma MvAtRoot(s: Session, a: string, b: string)
    requires s.fs.cwd == "/" && Plain(a) && Plain(b)
    requires "/" + a in s.fs.files
    ensures var line := "mv " + a + " " + b;
            var files := s.fs.files;
            Execute(s, line) ==
              Step(Logged(s, line).(fs := Fs((files - {"/" + a})["/" + b := files["/" + a]], "/")), [], Running)
  {
    var line := "mv " + a + " " + b;
    assert line == "mv" + " " + a + " " + b;
    ThreeWords("mv", a, b);
    MvCommand(s, line);
    RootChild(a);
    RootChild(b);
  }

  /** From the root, `mv a b` with no key `/a` reports `a`. */
  lemma MvMissingAtRoot(s: Session, a: string, b: string)
    requires s.fs.cwd == "/" && Plain(a) && Plain(b)
    requires "/" + a !in s.fs.files
    ensures var line := "mv " + a + " " + b;
            Execute(s, line) == Step(Logged(s, line), [Error(NoSuchFileOrDirectory(a))], Running)
  {
    var line := "mv " + a + " " + b;
    assert line == "mv" + " " + a + " " + b;
    ThreeWords("mv", a, b);
    MvCommand(s, line);
    RootChild(a);
  }

  lemma RenamedIsPlain()
    ensures Plain("file_renamed.txt")
  {
    VisibleIsPlain("file_renamed.txt");
  }

  const Renamed := "/file_renamed.txt"

  /** The shell archive after the rename. */
  function RenamedTree(text: string): map<string, Entry> {
    map[Renamed := Entry(false, text), SubFile := Entry(false, "Subfile content")]
  }

  lemma RenameTree(text: string)
    ensures (ShellTree(text) - {TextFile})[Renamed := ShellTree(text)[TextFile]] == RenamedTree(text)
  {
  }

  /** `mv file.txt file_renamed.txt` renames the key. */
  lemma MvExample(user: string, text: string)
    ensures var s := ShellStart(user, text);
            Execute(s, "mv file.txt file_renamed.txt") ==
              Step(Logged(s, "mv file.txt file_renamed.txt").(fs := Fs(RenamedTree(text), "/")), [], Running)
  {
    var s := ShellStart(user, text);
    FileTxtName();
    RenamedIsPlain();
    ShellKeys(text);
    SlashFileRenamedTxt();
    MvFileTxtFileRenamedTxt();
    MvAtRoot(s, "file.txt", "file_renamed.txt");
    RenameTree(text);
  }

  lemma SlashFileRenamedTxt()
    ensures "/" + "file_renamed.txt" == Renamed
  {
  }

  lemma MvFileTxtFileRenamedTxt()
    ensures "mv " + "file.txt" + " " + "file_renamed.txt" == "mv file.txt file_renamed.txt"
  {
  }

  lemma RenamedKeys(text: string)
    ensures RenamedTree(text).Keys == {Renamed, SubFile}
  {
  }

  lemma RenamedChildren(text: string)
    ensures ChildDirs(RenamedTree(text).Keys, "/") == {"dir"}
    ensures ChildFiles(RenamedTree(text).Keys, "/") == {"file_renamed.txt"}
  {
    RenamedKeys(text);
    assert Renamed == "/" + "file_renamed.txt";
    assert SubFile == "/" + "dir" + [Sep] + "subfile.txt";
    FileAndDir(RenamedTree(text).Keys, "/", "file_renamed.txt", "dir", "subfile.txt");
  }

  /** After the rename the root lists `file_renamed.txt` and no longer `file.txt`. */
  lemma RenamedListing(text: string)
    ensures ListDir(Fs(RenamedTree(text), "/"), "/") == Listing(["dir"], ["file_renamed.txt"])
  {
    RenamedChildren(text);
    RootItself();
    assert DirPrefix("/") == "/";
    ListingOf(Fs(RenamedTree(text), "/"), "/", "dir", "file_renamed.txt");
  }

  /** `mv nonexistent.txt file.txt` prints an error and changes nothing but the log. */
  lemma MvMissingExample(user: string, text: string)
    ensures var s := ShellStart(user, text);
            Execute(s, "mv nonexistent.txt file.txt") ==
              Step(Logged(s, "mv nonexistent.txt file.txt"), [Error(NoSuchFileOrDirectory("nonexistent.txt"))], Running)
  {
    MissingIsPlain();
    MissingName(text);
    FileTxtName();
    assert "mv " + "nonexistent.txt" + " " + "file.txt" == "mv nonexistent.txt file.txt";
    MvMissingAtRoot(ShellStart(user, text), "nonexistent.txt", "file.txt");
  }

  /** From the root, `cd name` enters `/name` when some key begins with it. */
  lemma CdAtRoot(s: Session, name: string, rest: string)
    requires s.fs.cwd == "/" && Plain(name)
    requires "/" + name + rest in s.fs.files
    ensures Execute(s, "cd " + name) == Step(Logged(s, "cd " + name).(fs := s.fs.(cwd := "/" + name)), [], Running)
  {
    assert "cd " + name == "cd" + " " + name;
    TwoWords("cd", name);
    CdCommand(s, "cd " + name);
    CdRootChild(s.fs, name, rest);
  }

  lemma DirIsPlain()
    ensures Plain("dir") && "cd " + "dir" == "cd dir" && "/" + "dir" == "/dir"
    ensures "/" + "dir" + "/subfile.txt" == SubFile
  {
    VisibleIsPlain("dir");
  }

  /** `cd dir` from the root enters `/dir`. */
  lemma CdDirExample(user: string, text: string)
    ensures var s := ShellStart(user, text);
            Execute(s, "cd dir") == Step(Logged(s, "cd dir").(fs := Fs(ShellTree(text), "/dir")), [], Running)
  {
    DirIsPlain();
    ShellKeys(text);
    CdAtRoot(ShellStart(user, text), "dir", "/subfile.txt");
  }

  /** `cd /` stays at the root. */
  lemma CdRootExample(s: Session)
    requires s.fs.cwd == "/"
    ensures Execute(s, "cd /") == Step(Logged(s, "cd /"), [], Running)
  {
    assert "cd /" == "cd" + " " + "/";
    TwoWords("cd", "/");
    CdCommand(s, "cd /");
    RootItself();
  }

  /** The test's `cd /` then `cd dir`: the cursor is `/` and then `/dir`. */
  lemma CdSequenceExample(user: string, text: string)
    ensures var s := ShellStart(user, text);
            var first := Execute(s, "cd /");
            var second := Execute(first.session, "cd dir");
            first.session.fs.cwd == "/" && second.session.fs.cwd == "/dir"
  {
    var s := ShellStart(user, text);
    CdRootExample(s);
    assert Execute(s, "cd /").session == Logged(s, "cd /");
    DirIsPlain();
    ShellKeys(text);
    CdAtRoot(Logged(s, "cd /"), "dir", "/subfile.txt");
  }

  /** From the root, `cd name` is refused when no key starts with the first letter of `name`. */
  lemma CdMissingAtRoot(s: Session, name: string)
    requires s.fs.cwd == "/" && Plain(name)
    requires forall k :: k in s.fs.files ==> |k| < 2 || k[1] != name[0]
    ensures Execute(s, "cd " + name) == Step(Logged(s, "cd " + name), [Error(NoSuchDirectory(name))], Running)
  {
    assert "cd " + name == "cd" + " " + name;
    TwoWords("cd", name);
    CdCommand(s, "cd " + name);
    CdRootMissing(s.fs, name);
  }

  lemma NoKeyStartsWithN(text: string)
    ensures forall k :: k in ShellTree(text) ==> |k| < 2 || k[1] != 'n'
  {
    ShellKeys(text);
    assert TextFile[1] == 'f' && SubFile[1] == 'd';
  }

  /** `cd nonexistent` prints an error and changes nothing but the log. */
  lemma CdMissingExample(user: string, text: string)
    ensures var s := ShellStart(user, text);
            Execute(s, "cd nonexistent") ==
              Step(Logged(s, "cd nonexistent"), [Error(NoSuchDirectory("nonexistent"))], Running)
  {
    VisibleIsPlain("nonexistent");
    NoKeyStartsWithN(text);
    CdSpaceNonexistent();
    CdMissingAtRoot(ShellStart(user, text), "nonexistent");
  }

  lemma CdSpaceNonexistent()
    ensures "cd " + "nonexistent" == "cd nonexistent"
  {
  }

  lemma ShellRootChildren(text: string)
    ensures ChildDirs(ShellTree(text).Keys, "/") == {"dir"}
    ensures ChildFiles(ShellTree(text).Keys, "/") == {"file.txt"}
  {
    ShellKeys(text);
    assert TextFile == "/" + "file.txt";
    assert SubFile == "/" + "dir" + [Sep] + "subfile.txt";
    FileAndDir(ShellTree(text).Keys, "/", "file.txt", "dir", "subfile.txt");
  }

  lemma TextFileInDir()
    ensures ChildDirs({TextFile}, "/dir/") == {} && ChildFiles({TextFile}, "/dir/") == {}
  {
    assert TextFile[1] != "/dir/"[1];
    OtherKey(TextFile, "/dir/");
  }

  lemma SubFileInDir()
    ensures ChildDirs({SubFile}, "/dir/") == {} && ChildFiles({SubFile}, "/dir/") == {"subfile.txt"}
  {
    FileKey(SubFile, "/dir/", "subfile.txt");
  }

  lemma ShellDirChildren(text: string)
    ensures ChildDirs(ShellTree(text).Keys, "/dir/") == {}
    ensures ChildFiles(ShellTree(text).Keys, "/dir/") == {"subfile.txt"}
  {
    ShellKeys(text);
    TextFileInDir();
    SubFileInDir();
    ChildrenOfTwo(TextFile, SubFile, "/dir/");
  }

  /** The opened shell archive is valid at the root and at `/dir`. */
  lemma ShellValid(text: string)
    ensures Valid(Fs(ShellTree(text), "/")) && Valid(Fs(ShellTree(text), "/dir"))
  {
    OpenShellArchive(text);
    DirIsPlain();
    ShellKeys(text);
    CdRootChild(Fs(ShellTree(text), "/"), "dir", "/subfile.txt");
  }

  /** The printed lines of a listing of at most one directory and one file. */
  lemma PrintedLines(ds: seq<string>, fs: seq<string>)
    requires |ds| <= 1 && |fs| == 1
    ensures Lines(ds, "/") + Lines(fs, "") == (if ds == [] then [] else [Line(ds[0] + "/")]) + [Line(fs[0] + "")]
  {
  }

  /** `ls` prints the listing of `.`. */
  lemma LsBare(s: Session)
    requires Valid(s.fs)
    ensures var l := ListDir(s.fs, ".");
            Execute(s, "ls") == Step(Logged(s, "ls"), Lines(l.dirs, "/") + Lines(l.files, ""), Running)
  {
    VisibleIsPlain("ls");
    OneWord("ls");
    LsCommand(s, "ls");
  }

  /** `ls` prints what `PrintedLines` lays out for the listing of the cursor. */
  lemma LsPrints(s: Session, dirs: seq<string>, files: seq<string>, out: seq<Notice>)
    requires Valid(s.fs)
    requires ListDir(s.fs, ".") == Listing(dirs, files)
    requires Lines(dirs, "/") + Lines(files, "") == out
    ensures Execute(s, "ls") == Step(Logged(s, "ls"), out, Running)
  {
    LsBare(s);
  }

  lemma ShellRootListing(text: string)
    ensures ListDir(Fs(ShellTree(text), "/"), ".") == Listing(["dir"], ["file.txt"])
  {
    RootItself();
    assert DirPrefix("/") == "/";
    ShellRootChildren(text);
    ListingOf(Fs(ShellTree(text), "/"), ".", "dir", "file.txt");
  }

  lemma ShellDirListing(text: string)
    ensures ListDir(Fs(ShellTree(text), "/dir"), ".") == Listing([], ["subfile.txt"])
  {
    DirIsPlain();
    DotInRootChild("dir");
    assert DirPrefix("/dir") == "/dir/";
    ShellDirChildren(text);
    ListingOfFile(Fs(ShellTree(text), "/dir"), ".", "subfile.txt");
  }

  lemma RootLines()
    ensures Lines(["dir"], "/") + Lines(["file.txt"], "") == [Line("dir/"), Line("file.txt")]
  {
    PrintedLines(["dir"], ["file.txt"]);
    assert "dir" + "/" == "dir/";
    assert "file.txt" + "" == "file.txt";
  }

  /** `ls` at the root prints `dir/` and then `file.txt`. */
  lemma LsExample(user: string, text: string)
    ensures var s := ShellStart(user, text);
            Execute(s, "ls") == Step(Logged(s, "ls"), [Line("dir/"), Line("file.txt")], Running)
  {
    var s := ShellStart(user, text);
    assert ListDir(s.fs, ".") == Listing(["dir"], ["file.txt"]) by {
      ShellRootListing(text);
    }
    RootLines();
    assert Valid(s.fs) by {
      ShellValid(text);
    }
    LsPrints(s, ["dir"], ["file.txt"], [Line("dir/"), Line("file.txt")]);
  }

  /** After `cd dir`, `ls` prints `subfile.txt`. */
  lemma LsSubdirExample(user: string, text: string)
    ensures var s := Execute(ShellStart(user, text), "cd dir").session;
            Execute(s, "ls").output == [Line("subfile.txt")]
  {
    var s := Execute(ShellStart(user, text), "cd dir").session;
    assert s.fs == Fs(ShellTree(text), "/dir") by {
      CdDirExample(user, text);
    }
    assert ListDir(s.fs, ".") == Listing([], ["subfile.txt"]) by {
      ShellDirListing(text);
    }
    SubdirLines();
    assert Valid(s.fs) by {
      ShellValid(text);
    }
    LsPrints(s, [], ["subfile.txt"], [Line("subfile.txt")]);
  }

  lemma SubdirLines()
    ensures Lines([], "/") + Lines(["subfile.txt"], "") == [Line("subfile.txt")]
  {
    PrintedLines([], ["subfile.txt"]);
    assert "subfile.txt" + "" == "subfile.txt";
  }

  /** `ls` and then `exit` save a log of both lines, in order. */
  lemma ExitSavesLogExample(user: string, text: string)
    ensures Run(ShellStart(user, text), ["ls", "exit"]).status
         == Exited([LogEntry(user, "ls"), LogEntry(user, "exit")])
  {
    var s := ShellStart(user, text);
    LsExample(user, text);
    RunTwo(s, "ls", "exit");
    ExitStops(Logged(s, "ls"));
    AppendTwo([], LogEntry(user, "ls"), LogEntry(user, "exit"));
  }

  /** Two lines, the first keeping the session running: the run ends as
      the second line leaves it. */
  lemma RunTwo(s: Session, l1: string, l2: string)
    requires Execute(s, l1).status.Running?
    ensures Run(s, [l1, l2]).status == Execute(Execute(s, l1).session, l2).status
  {
    assert [l1, l2][0] == l1 && [l1, l2][1..] == [l2];
    assert [l2][1..] == [];
  }

  lemma AppendTwo<T>(xs: seq<T>, a: T, b: T)
    ensures xs + [a] + [b] == xs + [a, b]
  {
  }

  /** `exit` stops the session with the one-line log. */
  lemma ExitExample(user: string, text: string)
    ensures Execute(ShellStart(user, text), "exit").status == Exited([LogEntry(user, "exit")])
  {
    ExitStops(ShellStart(user, text));
  }

  /** `date` prints the date notice and the session goes on. */
  lemma DateExample(s: Session)
    ensures Execute(s, "date") == Step(Logged(s, "date"), [Date], Running)
  {
    VisibleIsPlain("date");
    OneWord("date");
    Parsed(s, "date");
  }
}
