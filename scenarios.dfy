/** Concrete archives and what the filesystem answers for them. */
module Scenarios {
  import opened Wrappers
  import opened Paths
  import opened OrderedDict
  import opened Listing
  import opened TarFileSystem

  /** `trim_path` leaves a canonical literal alone. */
  lemma Canonical(k: string)
    requires IsCanonical(k)
    ensures TrimPath(k) == k
  {
    TrimPathFixesExactlyCanonical(k);
  }

  /** The four members of the listing scenario. */
  function RootTree(): seq<Member> {
    [Member("/root", Directory, Handle(0)),
     Member("/root/a.txt", File, Handle(1)),
     Member("/root/sub", Directory, Handle(2)),
     Member("/root/sub/b.txt", File, Handle(3))]
  }

  function RootTreeTable(): seq<Entry<Member>> {
    [Entry("/root", Member("/root", Directory, Handle(0))),
     Entry("/root/a.txt", Member("/root/a.txt", File, Handle(1))),
     Entry("/root/sub", Member("/root/sub", Directory, Handle(2))),
     Entry("/root/sub/b.txt", Member("/root/sub/b.txt", File, Handle(3)))]
  }

  /** The table of an archive of distinct canonical visible paths, given entry by entry. */
  lemma TableOf(ms: seq<Member>, t: seq<Entry<Member>>)
    requires forall j :: 0 <= j < |ms| ==> Visible(ms[j]) && IsCanonical(ms[j].path)
    requires forall i, j :: 0 <= i < j < |ms| ==> ms[i].path != ms[j].path
    requires |t| == |ms| && forall j :: 0 <= j < |ms| ==> t[j] == Entry(ms[j].path, ms[j])
    ensures Build(ms) == t
  {
    BuildDistinctCanonical(ms);
  }

  lemma RootTreeShape(ms: seq<Member>)
    requires ms == RootTree()
    ensures forall j :: 0 <= j < |ms| ==> Visible(ms[j]) && IsCanonical(ms[j].path)
    ensures forall i, j :: 0 <= i < j < |ms| ==> ms[i].path != ms[j].path
    ensures |ms| == |RootTreeTable()| && forall j :: 0 <= j < |ms| ==> RootTreeTable()[j] == Entry(ms[j].path, ms[j])
  {
    assert IsCanonical("/root") && IsCanonical("/root/a.txt") && IsCanonical("/root/sub") && IsCanonical("/root/sub/b.txt");
    assert Visible(ms[0]) && Visible(ms[1]) && Visible(ms[2]) && Visible(ms[3]);
  }

  /** Four distinct canonical paths go into the table in archive order. */
  lemma RootTreeBuild()
    ensures Build(RootTree()) == RootTreeTable()
  {
    RootTreeShape(RootTree());
    TableOf(RootTree(), RootTreeTable());
  }

  lemma RootTreeMount()
    ensures Mount(RootTree()) == Ok(FileSystem(RootTreeTable(), "/root"))
  {
    RootTreeBuild();
    assert Visible(RootTree()[0]);
  }

  /** The filesystem mounted from `RootTree()`. */
  function RootTreeFs(): FileSystem {
    FileSystem(RootTreeTable(), "/root")
  }

  lemma RootTreeValid(fs: FileSystem)
    requires fs == RootTreeFs()
    ensures Valid(fs)
  {
    RootTreeMount();
  }

  /** `/root` is a directory entry whose name needs no escaping. */
  lemma RootTreeDir(fs: FileSystem)
    requires fs == RootTreeFs()
    ensures ListedLiterally(fs, "/root")
    ensures Lookup(fs.files, TrimPath("/root")) == Some(fs.files[0].value)
    ensures fs.files[0].value.kind == Directory
  {
    Canonical("/root");
    assert fs.files[0].key == "/root";
    PlainName("/root");
  }

  /** A path made of letters and slashes holds no regular-expression metacharacter. */
  lemma PlainName(s: string)
    requires forall i :: 0 <= i < |s| ==> s[i] == '/' || 'a' <= s[i] <= 'z'
    ensures NoRegexMeta(s)
  {
  }

  /** A directory `/root` lists its file and its subdirectory, not the file inside the subdirectory. */
  lemma ListingScenario(fs: FileSystem)
    requires fs == RootTreeFs()
    ensures Valid(fs) && ListedLiterally(fs, "/root")
    ensures ListDir(fs, "/root") == Ok(["a.txt", "sub"])
  {
    RootTreeValid(fs);
    RootTreeDir(fs);
    assert DirPrefix(TrimPath("/root")) == "/root/";
    ScenarioListing(fs.files);
  }

  /** Asking a subdirectory whether it is a file, or opening it, fails on its kind. */
  lemma WrongKindScenario(fs: FileSystem)
    requires fs == RootTreeFs()
    ensures Valid(fs)
    ensures IsFile(fs, "/root/sub") == Ok(false)
    ensures Open(fs, "/root/sub") == Err(FileTypeError("/root/sub"))
  {
    RootTreeValid(fs);
    Canonical("/root/sub");
    assert fs.files[2].key == TrimPath("/root/sub");
  }

  /** Listing a file fails on its kind. */
  lemma ListFileScenario(fs: FileSystem)
    requires fs == RootTreeFs()
    ensures Valid(fs) && ListedLiterally(fs, "/root/a.txt")
    ensures ListDir(fs, "/root/a.txt") == Err(FileTypeError("/root/a.txt"))
  {
    RootTreeValid(fs);
    Canonical("/root/a.txt");
    assert fs.files[1].key == TrimPath("/root/a.txt");
  }

  /** Opening a missing path fails with the caller's path. */
  lemma MissingScenario(fs: FileSystem)
    requires fs == RootTreeFs()
    ensures Valid(fs)
    ensures Open(fs, "/nope") == Err(FileNotFound("/nope"))
  {
    RootTreeValid(fs);
    Canonical("/nope");
    assert TrimPath("/nope") !in Keys(fs.files);
  }

  lemma ScenarioListing(t: seq<Entry<Member>>)
    requires t == [Entry("/root", Member("/root", Directory, Handle(0))),
                   Entry("/root/a.txt", Member("/root/a.txt", File, Handle(1))),
                   Entry("/root/sub", Member("/root/sub", Directory, Handle(2))),
                   Entry("/root/sub/b.txt", Member("/root/sub/b.txt", File, Handle(3)))]
    ensures Children(t, "/root/") == ["a.txt", "sub"]
  {
    assert t[1..][1..] == t[2..];
    ListingFromSub(t[2..]);
    ListingFromA(t[1..]);
    assert !Matches("/root/", "/root");
    ChildrenStep(t, "/root/", ["a.txt", "sub"]);
  }

  lemma ListingFromA(t: seq<Entry<Member>>)
    requires |t| >= 1 && t[0].key == "/root/a.txt"
    requires Children(t[1..], "/root/") == ["sub"]
    ensures Children(t, "/root/") == ["a.txt", "sub"]
  {
    ChildLiteral("a.txt", "/root/a.txt");
    ChildrenStep(t, "/root/", ["a.txt", "sub"]);
  }

  lemma ListingFromSub(t: seq<Entry<Member>>)
    requires |t| == 2 && t[0].key == "/root/sub" && t[1].key == "/root/sub/b.txt"
    ensures Children(t, "/root/") == ["sub"]
  {
    GrandchildOnly(t[1..]);
    ChildLiteral("sub", "/root/sub");
    ChildrenStep(t, "/root/", ["sub"]);
  }

  lemma GrandchildOnly(t: seq<Entry<Member>>)
    requires |t| == 1 && t[0].key == "/root/sub/b.txt"
    ensures Children(t, "/root/") == []
  {
    NotChild("/root/sub/b.txt", 9);
    assert t[1..] == [];
  }

  /** `key`, spelled out, is `/root/<seg>`: a child of `/root` named `seg`. */
  lemma ChildLiteral(seg: string, key: string)
    requires PlainSegment(seg) && key == "/root/" + seg
    ensures Matches("/root/", key) && BaseName(key) == seg
  {
    ChildName(seg);
  }

  lemma ChildrenStep<V>(t: seq<Entry<V>>, prefix: string, names: seq<string>)
    requires t != []
    requires Matches(prefix, t[0].key) ==> names != [] && names[0] == BaseName(t[0].key)
    requires Children(t[1..], prefix) == (if Matches(prefix, t[0].key) then names[1..] else names)
    ensures Children(t, prefix) == names
  {
  }

  /** A key with a slash after the prefix `/root/` is not a child of `/root`. */
  lemma NotChild(key: string, slashAt: nat)
    requires 6 < slashAt < |key| - 1 && key[slashAt] == '/' && key[|key| - 1] != '/' && key[|key| - 1] != '\n'
    ensures !Matches("/root/", key)
  {
    if |key| >= 6 {
      var rest := key[6..];
      assert rest[slashAt - 6] == '/';
      assert rest[|rest| - 1] != '/';
    }
  }

  /** `/root/<seg>` is accepted and named `<seg>`. */
  lemma ChildName(seg: string)
    requires PlainSegment(seg)
    ensures Matches("/root/", "/root/" + seg) && BaseName("/root/" + seg) == seg
  {
    assert ("/root/" + seg)[6..] == seg;
    BaseNameOfChild("/root/", seg);
  }

  /** One more member at the end of the archive is one more dict assignment. */
  lemma BuildSnoc(ms: seq<Member>, m: Member)
    ensures Build(ms + [m]) == if Visible(m) then Put(Build(ms), TrimPath(m.path), m) else Build(ms)
  {
    assert (ms + [m])[..|ms|] == ms;
  }

  /** Only a top-level `._` member is dropped; one below the root or behind a slash is kept. */
  lemma HiddenPrefixScenario()
    ensures !Visible(Member("._x", File, Handle(0)))
    ensures Visible(Member("/._x", File, Handle(0)))
    ensures Visible(Member("d/._x", File, Handle(0)))
  {
  }

  /** A resource-fork member is invisible: `exists` denies it under its normalised name. */
  lemma HiddenMemberScenario(ms: seq<Member>)
    requires ms == [Member("._root/a.txt", File, Handle(0)), Member("/root", Directory, Handle(1))]
    ensures Mount(ms).Ok?
    ensures !Exists(Mount(ms).value, "/._root/a.txt")
  {
    HiddenMemberLiterals();
    HiddenThenVisible(ms, "/._root/a.txt");
  }

  /** Behind a hidden member, only the visible one's name exists. */
  lemma HiddenThenVisible(ms: seq<Member>, path: string)
    requires |ms| == 2 && !Visible(ms[0]) && Visible(ms[1])
    requires TrimPath(ms[1].path) != TrimPath(path)
    ensures Mount(ms).Ok?
    ensures !Exists(Mount(ms).value, path)
  {
    assert forall j :: 0 <= j < |ms| ==> !(Visible(ms[j]) && TrimPath(ms[j].path) == TrimPath(path));
    ExistsAgreesWithMembers(ms, path);
  }

  lemma HiddenMemberLiterals()
    ensures !Visible(Member("._root/a.txt", File, Handle(0)))
    ensures Visible(Member("/root", Directory, Handle(1)))
    ensures TrimPath("/root") != TrimPath("/._root/a.txt")
  {
    Canonical("/root");
    Canonical("/._root/a.txt");
  }

  /** The table of two visible members. */
  lemma TwoMemberTable(m0: Member, m1: Member)
    requires Visible(m0) && Visible(m1)
    ensures TrimPath(m0.path) == TrimPath(m1.path) ==> Build([m0, m1]) == [Entry(TrimPath(m0.path), m1)]
    ensures TrimPath(m0.path) != TrimPath(m1.path) ==>
      Build([m0, m1]) == [Entry(TrimPath(m0.path), m0), Entry(TrimPath(m1.path), m1)]
  {
    var k0, k1 := TrimPath(m0.path), TrimPath(m1.path);
    assert Build([m0]) == [Entry(k0, m0)] by {
      BuildSnoc([], m0);
      assert [] + [m0] == [m0];
    }
    assert Build([m0, m1]) == Put([Entry(k0, m0)], k1, m1) by {
      BuildSnoc([m0], m1);
      assert [m0] + [m1] == [m0, m1];
    }
    PutIntoOne(k0, m0, k1, m1);
  }

  /** Assigning into a one-entry dict. */
  lemma PutIntoOne<V>(k0: string, v0: V, k1: string, v1: V)
    ensures Put([Entry(k0, v0)], k1, v1) ==
      if k0 == k1 then [Entry(k0, v1)] else [Entry(k0, v0), Entry(k1, v1)]
  {
    var t := [Entry(k0, v0)];
    if k0 == k1 {
      assert IndexOf(t, k1) == 0;
    } else {
      assert k1 !in Keys(t);
    }
  }

  lemma PkgSpellings()
    ensures TrimPath("pkg/") == "/pkg" && TrimPath("/pkg") == "/pkg" && TrimPath("/pkg/") == "/pkg"
  {
    assert "pkg/" == Slashes(0) + "pkg" + Slashes(1);
    TrimPathPadded(0, "pkg", 1);
    assert "/pkg/" == Slashes(1) + "pkg" + Slashes(1);
    TrimPathPadded(1, "pkg", 1);
    Canonical("/pkg");
  }

  /**
   * Two spellings of one directory: the table keeps one key, at the place
   * of the first, holding the second member, whose raw path becomes the root.
   */
  lemma DuplicateRootScenario(m0: Member, m1: Member)
    requires m0 == Member("pkg/", Directory, Handle(0)) && m1 == Member("/pkg", Directory, Handle(1))
    ensures Mount([m0, m1]).Ok? && Mount([m0, m1]).value.root == "/pkg"
    ensures Mount([m0, m1]).value.files == [Entry("/pkg", m1)]
  {
    PkgSpellings();
    TwoMemberTable(m0, m1);
  }

  /** The root is the first member's raw path, trailing slash included, and lists its file. */
  lemma FirstMemberRootScenario(m0: Member, m1: Member)
    requires m0 == Member("/pkg/", Directory, Handle(0)) && m1 == Member("/pkg/main.go", File, Handle(1))
    ensures Mount([m0, m1]).Ok? && Mount([m0, m1]).value.root == "/pkg/"
    ensures ListedLiterally(Mount([m0, m1]).value, "/pkg/")
    ensures var r := ListDir(Mount([m0, m1]).value, "/pkg/"); r.Ok? && "main.go" in r.value
  {
    var t := [Entry("/pkg", m0), Entry("/pkg/main.go", m1)];
    assert Build([m0, m1]) == t by {
      PkgSpellings();
      Canonical("/pkg/main.go");
      TwoMemberTable(m0, m1);
    }
    PkgListing(Mount([m0, m1]).value);
  }

  lemma PkgIsPlain()
    ensures NoRegexMeta("/pkg") && TrimPath("/pkg/") == "/pkg" && DirPrefix("/pkg") == "/pkg/"
  {
    PlainName("/pkg");
    PkgSpellings();
  }

  lemma MainGoIsChild()
    ensures Matches("/pkg/", "/pkg/main.go") && BaseName("/pkg/main.go") == "main.go"
  {
    assert "/pkg/main.go" == "/pkg/" + "main.go";
    BaseNameOfChild("/pkg/", "main.go");
  }

  lemma PkgListing(fs: FileSystem)
    requires Valid(fs) && |fs.files| == 2
    requires fs.files[0].key == "/pkg" && fs.files[0].value.kind == Directory && fs.files[1].key == "/pkg/main.go"
    ensures ListedLiterally(fs, "/pkg/")
    ensures var r := ListDir(fs, "/pkg/"); r.Ok? && "main.go" in r.value
  {
    PkgIsPlain();
    MainGoIsChild();
    assert IsDir(fs, "/pkg/") == Ok(true);
    assert ListDir(fs, "/pkg/") == Ok(Children(fs.files, "/pkg/"));
    assert "main.go" in Children(fs.files, "/pkg/") by {
      ChildrenMembership(fs.files, "/pkg/", "main.go");
      assert Matches("/pkg/", fs.files[1].key) && BaseName(fs.files[1].key) == "main.go";
    }
  }

  /** The listing of a two-entry table, spelled out. */
  lemma ChildrenOfTwo<V>(t: seq<Entry<V>>, prefix: string)
    requires |t| == 2
    ensures Children(t, prefix) ==
      (if Matches(prefix, t[0].key) then [BaseName(t[0].key)] else []) +
      (if Matches(prefix, t[1].key) then [BaseName(t[1].key)] else [])
  {
    assert t[1..][1..] == [];
  }

  /** The listing of a three-entry table, spelled out. */
  lemma ChildrenOfThree<V>(t: seq<Entry<V>>, prefix: string)
    requires |t| == 3
    ensures Children(t, prefix) ==
      (if Matches(prefix, t[0].key) then [BaseName(t[0].key)] else []) +
      (if Matches(prefix, t[1].key) then [BaseName(t[1].key)] else []) +
      (if Matches(prefix, t[2].key) then [BaseName(t[2].key)] else [])
  {
    ChildrenOfTwo(t[1..], prefix);
  }

  /**
   * An archive holding the root directory itself and a top-level file: as
   * written the root lists nothing; the corrected listing names the file.
   */
  lemma RootListingScenario(m0: Member, m1: Member)
    requires m0 == Member("/", Directory, Handle(0)) && m1 == Member("a", File, Handle(1))
    ensures Mount([m0, m1]).Ok?
    ensures ListedLiterally(Mount([m0, m1]).value, "/")
    ensures ListDirAsWritten(Mount([m0, m1]).value, "/") == Ok([])
    ensures ListDir(Mount([m0, m1]).value, "/") == Ok(["a"])
  {
    assert Build([m0, m1]) == [Entry("/", m0), Entry("/a", m1)] by {
      RootLiterals();
      TwoMemberTable(m0, m1);
    }
    RootDirListing(Mount([m0, m1]).value);
  }

  lemma RootLiterals()
    ensures TrimPath("/") == "/" && TrimPath("a") == "/a"
    ensures NoRegexMeta("/") && DirPrefix("/") == "/"
    ensures !Matches("/", "/") && Matches("/", "/a") && BaseName("/a") == "a"
  {
    Canonical("/");
    assert "a" == Slashes(0) + "a" + Slashes(0);
    TrimPathPadded(0, "a", 0);
    assert "/a" == "/" + "a";
    BaseNameOfChild("/", "a");
  }

  lemma RootDirListing(fs: FileSystem)
    requires Valid(fs) && |fs.files| == 2
    requires fs.files[0].key == "/" && fs.files[0].value.kind == Directory && fs.files[1].key == "/a"
    ensures ListedLiterally(fs, "/")
    ensures ListDirAsWritten(fs, "/") == Ok([])
    ensures ListDir(fs, "/") == Ok(["a"])
  {
    RootLiterals();
    assert IsDir(fs, "/") == Ok(true);
    RootListingAsWrittenIsEmpty(fs, "/");
    assert ListDir(fs, "/") == Ok(Children(fs.files, "/"));
    assert Children(fs.files, "/") == ["a"] by {
      ChildrenOfTwo(fs.files, "/");
    }
  }

  /** The members of the shared-prefix scenario. */
  function SharedPrefix(): seq<Member> {
    [Member("/ab", Directory, Handle(0)),
     Member("/abc/x", File, Handle(1)),
     Member("/ab/c", File, Handle(2))]
  }

  function SharedPrefixTable(): seq<Entry<Member>> {
    [Entry("/ab", Member("/ab", Directory, Handle(0))),
     Entry("/abc/x", Member("/abc/x", File, Handle(1))),
     Entry("/ab/c", Member("/ab/c", File, Handle(2)))]
  }

  lemma SharedPrefixShape(ms: seq<Member>)
    requires ms == SharedPrefix()
    ensures forall j :: 0 <= j < |ms| ==> Visible(ms[j]) && IsCanonical(ms[j].path)
    ensures forall i, j :: 0 <= i < j < |ms| ==> ms[i].path != ms[j].path
    ensures |ms| == |SharedPrefixTable()| && forall j :: 0 <= j < |ms| ==> SharedPrefixTable()[j] == Entry(ms[j].path, ms[j])
  {
    assert IsCanonical("/ab") && IsCanonical("/abc/x") && IsCanonical("/ab/c");
    assert Visible(ms[0]) && Visible(ms[1]) && Visible(ms[2]);
  }

  lemma SharedPrefixMount()
    ensures Mount(SharedPrefix()) == Ok(FileSystem(SharedPrefixTable(), "/ab"))
  {
    SharedPrefixShape(SharedPrefix());
    TableOf(SharedPrefix(), SharedPrefixTable());
    assert Visible(SharedPrefix()[0]);
  }

  lemma SharedPrefixLiterals()
    ensures TrimPath("/ab") == "/ab" && NoRegexMeta("/ab") && DirPrefix("/ab") == "/ab/"
    ensures !Matches("/ab/", "/ab") && !Matches("/ab/", "/abc/x")
    ensures Matches("/ab/", "/ab/c") && BaseName("/ab/c") == "c"
  {
    Canonical("/ab");
    PlainName("/ab");
    assert "/abc/x"[..4][3] == 'c';
    assert "/ab/c" == "/ab/" + "c";
    BaseNameOfChild("/ab/", "c");
  }

  /** `/ab` lists `/ab/c` but not `/abc/x`, which only shares its text. */
  lemma SharedPrefixScenario()
    ensures Mount(SharedPrefix()).Ok?
    ensures ListedLiterally(Mount(SharedPrefix()).value, "/ab")
    ensures ListDir(Mount(SharedPrefix()).value, "/ab") == Ok(["c"])
  {
    SharedPrefixMount();
    SharedPrefixListing(FileSystem(SharedPrefixTable(), "/ab"));
  }

  lemma SharedPrefixListing(fs: FileSystem)
    requires Valid(fs) && |fs.files| == 3
    requires fs.files[0].key == "/ab" && fs.files[0].value.kind == Directory
    requires fs.files[1].key == "/abc/x" && fs.files[2].key == "/ab/c"
    ensures ListedLiterally(fs, "/ab")
    ensures ListDir(fs, "/ab") == Ok(["c"])
  {
    SharedPrefixLiterals();
    assert IsDir(fs, "/ab") == Ok(true);
    assert ListDir(fs, "/ab") == Ok(Children(fs.files, "/ab/"));
    assert Children(fs.files, "/ab/") == ["c"] by {
      ChildrenOfThree(fs.files, "/ab/");
    }
  }
}
