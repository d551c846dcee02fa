/**
 * `TarFileSystem`: the member list of a tar archive seen as a read-only
 * filesystem. The table from normalised path to member is built once, and
 * every query is a lookup in it or a scan over its keys.
 */
module TarFileSystem {
  import opened Wrappers
  import opened Paths
  import opened OrderedDict
  import opened Listing

  /** The member type tests `isdir()` and `isfile()` distinguish; every other tar type is `Other`. */
  datatype Kind = File | Directory | Other

  /** Whatever the archive needs to extract a member's bytes; opaque here. */
  datatype Handle = Handle(id: nat)

  /** A `TarInfo`: the raw member path as stored in the archive, its kind and its content. */
  datatype Member = Member(path: string, kind: Kind, handle: Handle)

  datatype Error =
    | FileNotFound(path: string)
    | FileTypeError(path: string)
      /** `next()` on an empty table raises `StopIteration` during construction. */
    | EmptyArchive

  datatype FileSystem = FileSystem(files: seq<Entry<Member>>, root: string)

  /** AppleDouble resource-fork members (raw path starting with `._`) are skipped. */
  predicate Visible(m: Member) {
    !(|m.path| >= 2 && m.path[0] == '.' && m.path[1] == '_')
  }

  /** The normalised paths of the visible members, in archive order, repeats included. */
  function VisibleKeys(members: seq<Member>): (ks: seq<string>)
    ensures |ks| <= |members|
  {
    if members == [] then []
    else
      var last := members[|members| - 1];
      VisibleKeys(members[..|members| - 1]) + (if Visible(last) then [TrimPath(last.path)] else [])
  }

  /** A path is among the visible keys exactly when some visible member normalises to it. */
  lemma {:induction false} VisibleKeysMembership(members: seq<Member>, k: string)
    ensures k in VisibleKeys(members) <==>
      exists j :: 0 <= j < |members| && Visible(members[j]) && TrimPath(members[j].path) == k
    decreases |members|
  {
    if members != [] {
      var init := members[..|members| - 1];
      VisibleKeysMembership(init, k);
      assert forall j :: 0 <= j < |init| ==> init[j] == members[j];
    }
  }

  /** Without a visible member there is no visible key. */
  lemma {:induction false} VisibleKeysEmpty(members: seq<Member>)
    requires forall j :: 0 <= j < |members| ==> !Visible(members[j])
    ensures VisibleKeys(members) == []
    decreases |members|
  {
    if members != [] {
      var init := members[..|members| - 1];
      assert forall j :: 0 <= j < |init| ==> init[j] == members[j];
      VisibleKeysEmpty(init);
    }
  }

  /** Each element of `s` at the place it first occurs: the key order of a dict filled from `s`. */
  function FirstOccurrences(s: seq<string>): (r: seq<string>)
    ensures forall x :: x in r <==> x in s
    ensures forall i, j :: 0 <= i < j < |r| ==> r[i] != r[j]
  {
    if s == [] then []
    else
      var r := FirstOccurrences(s[..|s| - 1]);
      assert s == s[..|s| - 1] + [s[|s| - 1]];
      if s[|s| - 1] in r then r else r + [s[|s| - 1]]
  }

  /**
   * `{trim_path(info.path): info for info in members if not info.path.startswith('._')}`,
   * inserting left to right.
   */
  function Build(members: seq<Member>): (t: seq<Entry<Member>>)
    ensures UniqueKeys(t)
    ensures forall i :: 0 <= i < |t| ==> IsCanonical(t[i].key)
    ensures forall i :: 0 <= i < |t| ==> Visible(t[i].value) && TrimPath(t[i].value.path) == t[i].key
  {
    if members == [] then []
    else
      var t := Build(members[..|members| - 1]);
      var last := members[|members| - 1];
      if Visible(last) then PutMember(t, last); Put(t, TrimPath(last.path), last) else t
  }

  /** Entering one more visible member keeps the table keyed by normalised member paths. */
  lemma PutMember(t: seq<Entry<Member>>, m: Member)
    requires UniqueKeys(t) && Visible(m)
    requires forall i :: 0 <= i < |t| ==> Visible(t[i].value) && TrimPath(t[i].value.path) == t[i].key
    ensures forall i :: 0 <= i < |Put(t, TrimPath(m.path), m)| ==>
      var e := Put(t, TrimPath(m.path), m)[i];
      Visible(e.value) && TrimPath(e.value.path) == e.key
  {
    var k := TrimPath(m.path);
    var r := Put(t, k, m);
    assert |r| == |Keys(r)|;
    forall i | 0 <= i < |r|
      ensures Visible(r[i].value) && TrimPath(r[i].value.path) == r[i].key
    {
      if i < |t| {
        assert r[i] == (if t[i].key == k then Entry(k, m) else t[i]);
      } else {
        assert r[i] == Entry(k, m);
      }
    }
  }

  /** Every table key is a fixed point of `trim_path`. */
  lemma BuildKeysFixed(members: seq<Member>, i: nat)
    requires i < |Build(members)|
    ensures TrimPath(Build(members)[i].key) == Build(members)[i].key
  {
    TrimPathFixesExactlyCanonical(Build(members)[i].key);
  }

  /** The invariant every constructed filesystem keeps. */
  ghost predicate Valid(fs: FileSystem) {
    && UniqueKeys(fs.files)
    && CanonicalKeys(fs.files)
    && fs.files != []
    && fs.root == fs.files[0].value.path
    && TrimPath(fs.root) == fs.files[0].key
  }

  /** `TarFileSystem(archive)`: the table, and as root the raw path of the value under the first key. */
  function Mount(members: seq<Member>): (r: Result<FileSystem, Error>)
    ensures r.Err? <==> forall j :: 0 <= j < |members| ==> !Visible(members[j])
    ensures r.Err? ==> r.error == EmptyArchive
    ensures r.Ok? ==> Valid(r.value) && r.value.files == Build(members)
  {
    var files := Build(members);
    BuildEmpty(members);
    if files == [] then Err(EmptyArchive)
    else Ok(FileSystem(files, files[0].value.path))
  }

  /** The table is empty exactly when every member is hidden. */
  lemma BuildEmpty(members: seq<Member>)
    ensures Build(members) == [] <==> forall j :: 0 <= j < |members| ==> !Visible(members[j])
  {
    var files := Build(members);
    BuildKeyOrder(members);
    forall j | 0 <= j < |members| && Visible(members[j])
      ensures files != []
    {
      VisibleKeysMembership(members, TrimPath(members[j].path));
      assert TrimPath(members[j].path) in Keys(files);
    }
    if files != [] {
      VisibleKeysMembership(members, files[0].key);
      assert files[0].key in Keys(files);
    }
  }

  /** The table's keys are the visible normalised paths, each where it first occurs. */
  lemma {:induction false} BuildKeyOrder(members: seq<Member>)
    ensures Keys(Build(members)) == FirstOccurrences(VisibleKeys(members))
  {
    if members != [] {
      var init := members[..|members| - 1];
      var last := members[|members| - 1];
      BuildKeyOrder(init);
      if Visible(last) {
        var s := VisibleKeys(members);
        assert s[..|s| - 1] == VisibleKeys(init);
      } else {
        assert VisibleKeys(members) == VisibleKeys(init);
      }
    }
  }

  /**
   * An archive whose visible members carry distinct canonical paths gives a
   * table with one entry per member, in archive order, keyed by its raw path.
   */
  lemma {:induction false} BuildDistinctCanonical(members: seq<Member>)
    requires forall j :: 0 <= j < |members| ==> Visible(members[j]) && IsCanonical(members[j].path)
    requires forall i, j :: 0 <= i < j < |members| ==> members[i].path != members[j].path
    ensures |Build(members)| == |members|
    ensures forall j :: 0 <= j < |members| ==> Build(members)[j] == Entry(members[j].path, members[j])
    decreases |members|
  {
    if members != [] {
      var init := members[..|members| - 1];
      var last := members[|members| - 1];
      var t := Build(init);
      BuildDistinctCanonical(init);
      TrimPathFixesExactlyCanonical(last.path);
      forall i | 0 <= i < |t|
        ensures t[i].key != last.path
      {
        assert t[i] == Entry(init[i].path, init[i]);
        assert init[i] == members[i];
      }
      assert last.path !in Keys(t);
      assert Build(members) == t + [Entry(last.path, last)];
    }
  }

  /** Last write wins: a key holds the last visible member that normalises to it. */
  lemma {:induction false} BuildLastWins(members: seq<Member>, j: nat)
    requires j < |members| && Visible(members[j])
    requires forall l :: j < l < |members| && Visible(members[l]) ==> TrimPath(members[l].path) != TrimPath(members[j].path)
    ensures Lookup(Build(members), TrimPath(members[j].path)) == Some(members[j])
    decreases |members|
  {
    var init := members[..|members| - 1];
    var last := members[|members| - 1];
    var k := TrimPath(members[j].path);
    if j == |members| - 1 {
      LookupPut(Build(init), k, last, k);
    } else {
      assert init[j] == members[j];
      BuildLastWins(init, j);
      if Visible(last) {
        LookupPut(Build(init), TrimPath(last.path), last, k);
      }
    }
  }

  /** The first visible member's normalised path heads the list of visible keys. */
  lemma {:induction false} VisibleKeysHead(members: seq<Member>, i: nat)
    requires i < |members| && Visible(members[i])
    requires forall l :: 0 <= l < i ==> !Visible(members[l])
    ensures VisibleKeys(members) != [] && VisibleKeys(members)[0] == TrimPath(members[i].path)
    decreases |members|
  {
    var init := members[..|members| - 1];
    if i == |members| - 1 {
      VisibleKeysEmpty(init);
    } else {
      assert init[i] == members[i];
      assert forall l :: 0 <= l < i ==> init[l] == members[l];
      VisibleKeysHead(init, i);
    }
  }

  lemma {:induction false} FirstOccurrencesHead(s: seq<string>)
    requires s != []
    ensures FirstOccurrences(s) != [] && FirstOccurrences(s)[0] == s[0]
    decreases |s|
  {
    if |s| > 1 {
      FirstOccurrencesHead(s[..|s| - 1]);
    }
  }

  /**
   * The root is the raw path of the value stored under the first-inserted
   * key: the path of the last visible member normalising like the first
   * visible one, which a later duplicate may have replaced.
   */
  lemma MountRoot(members: seq<Member>, i: nat, j: nat)
    requires i <= j < |members| && Visible(members[i]) && Visible(members[j])
    requires forall l :: 0 <= l < i ==> !Visible(members[l])
    requires TrimPath(members[j].path) == TrimPath(members[i].path)
    requires forall l :: j < l < |members| && Visible(members[l]) ==> TrimPath(members[l].path) != TrimPath(members[i].path)
    ensures Mount(members).Ok?
    ensures Mount(members).value.root == members[j].path
  {
    var t := Build(members);
    BuildKeyOrder(members);
    VisibleKeysHead(members, i);
    FirstOccurrencesHead(VisibleKeys(members));
    BuildLastWins(members, j);
    assert t[0].key == TrimPath(members[j].path);
  }

  /** `_get(path)`. */
  function Get(fs: FileSystem, path: string): (r: Option<Member>)
    requires Valid(fs)
    ensures r.None? <==> TrimPath(path) !in Keys(fs.files)
    ensures forall i :: 0 <= i < |fs.files| && fs.files[i].key == TrimPath(path) ==> r == Some(fs.files[i].value)
  {
    Lookup(fs.files, TrimPath(path))
  }

  /** `exists(path)`: never raises. */
  function Exists(fs: FileSystem, path: string): (b: bool)
    requires Valid(fs)
    ensures b <==> TrimPath(path) in Keys(fs.files)
  {
    Get(fs, path).Some?
  }

  /** `is_dir(path)`: raises `FileNotFound` with the caller's path when absent. */
  function IsDir(fs: FileSystem, path: string): (r: Result<bool, Error>)
    requires Valid(fs)
    ensures TrimPath(path) !in Keys(fs.files) ==> r == Err(FileNotFound(path))
    ensures forall i :: 0 <= i < |fs.files| && fs.files[i].key == TrimPath(path) ==> r == Ok(fs.files[i].value.kind == Directory)
  {
    match Get(fs, path)
    case None => Err(FileNotFound(path))
    case Some(info) => Ok(info.kind == Directory)
  }

  /** `is_file(path)`: raises `FileNotFound` with the caller's path when absent. */
  function IsFile(fs: FileSystem, path: string): (r: Result<bool, Error>)
    requires Valid(fs)
    ensures TrimPath(path) !in Keys(fs.files) ==> r == Err(FileNotFound(path))
    ensures forall i :: 0 <= i < |fs.files| && fs.files[i].key == TrimPath(path) ==> r == Ok(fs.files[i].value.kind == File)
  {
    match Get(fs, path)
    case None => Err(FileNotFound(path))
    case Some(info) => Ok(info.kind == File)
  }

  /** An entry that is neither a file nor a directory answers false to both tests and cannot be opened. */
  lemma OtherKindIsNeither(fs: FileSystem, path: string)
    requires Valid(fs)
    requires Get(fs, path).Some? && Get(fs, path).value.kind == Other
    ensures IsDir(fs, path) == Ok(false) && IsFile(fs, path) == Ok(false)
    ensures Open(fs, path) == Err(FileTypeError(path))
  {
  }

  /**
   * `open(path)` up to the extraction call: the handle of the file entry is
   * what `extractfile` is given.
   */
  function Open(fs: FileSystem, path: string): (r: Result<Handle, Error>)
    requires Valid(fs)
    ensures TrimPath(path) !in Keys(fs.files) ==> r == Err(FileNotFound(path))
    ensures forall i :: 0 <= i < |fs.files| && fs.files[i].key == TrimPath(path) ==>
      r == if fs.files[i].value.kind == File then Ok(fs.files[i].value.handle) else Err(FileTypeError(path))
  {
    match Get(fs, path)
    case None => Err(FileNotFound(path))
    case Some(info) => if info.kind != File then Err(FileTypeError(path)) else Ok(info.handle)
  }

  /**
   * The listing reaches the pattern only for a directory; its name must
   * hold no regular-expression metacharacter besides `/` for the pattern to
   * mean the literal prefix modelled by `Matches`.
   */
  predicate ListedLiterally(fs: FileSystem, path: string) {
    match Lookup(fs.files, TrimPath(path))
    case Some(info) => info.kind == Directory ==> NoRegexMeta(TrimPath(path))
    case None => true
  }

  /** The literal part of the directory pattern as `list_dir` intends it. */
  function DirPrefix(dir: string): (prefix: string)
    requires IsCanonical(dir)
    ensures prefix != [] && prefix[|prefix| - 1] == '/'
    ensures dir != "/" ==> |prefix| == |dir| + 1 && prefix[..|dir|] == dir
  {
    if dir == "/" then "/" else dir + "/"
  }

  /**
   * `list_dir(path)` as written: the root test compares the ESCAPED path
   * with `"/"`, so the root pattern is never chosen and every directory,
   * the root included, is listed under the prefix `dir + "/"`.
   */
  function ListDirAsWritten(fs: FileSystem, path: string): (r: Result<seq<string>, Error>)
    requires Valid(fs)
    requires ListedLiterally(fs, path)
    ensures TrimPath(path) !in Keys(fs.files) ==> r == Err(FileNotFound(path))
    ensures forall i :: 0 <= i < |fs.files| && fs.files[i].key == TrimPath(path) && fs.files[i].value.kind != Directory ==>
      r == Err(FileTypeError(path))
    ensures forall i :: 0 <= i < |fs.files| && fs.files[i].key == TrimPath(path) && fs.files[i].value.kind == Directory ==>
      r == Ok(Children(fs.files, TrimPath(path) + "/"))
  {
    match IsDir(fs, path)
    case Err(e) => Err(e)
    case Ok(isDir) =>
      if !isDir then Err(FileTypeError(path))
      else
        var dir := TrimPath(path);
        var prefix := if Escape(dir) != "/" then dir + "/" else "/";
        Ok(Children(fs.files, prefix))
  }

  /**
   * `list_dir(path)` with the root test made on the normalised path, as
   * the separate root pattern intends: the names of the immediate children.
   */
  function ListDir(fs: FileSystem, path: string): (r: Result<seq<string>, Error>)
    requires Valid(fs)
    requires ListedLiterally(fs, path)
    ensures TrimPath(path) !in Keys(fs.files) ==> r == Err(FileNotFound(path))
    ensures forall i :: 0 <= i < |fs.files| && fs.files[i].key == TrimPath(path) && fs.files[i].value.kind != Directory ==>
      r == Err(FileTypeError(path))
    ensures forall i :: 0 <= i < |fs.files| && fs.files[i].key == TrimPath(path) && fs.files[i].value.kind == Directory ==>
      r == Ok(Children(fs.files, DirPrefix(TrimPath(path))))
    ensures r.Ok? ==> r.value == Children(fs.files, DirPrefix(TrimPath(path)))
  {
    match IsDir(fs, path)
    case Err(e) => Err(e)
    case Ok(isDir) =>
      if !isDir then Err(FileTypeError(path))
      else
        Ok(Children(fs.files, DirPrefix(TrimPath(path))))
  }

  /** `exists(p)` on a mounted archive: some visible member normalises like `p`. */
  lemma ExistsAgreesWithMembers(members: seq<Member>, path: string)
    requires Mount(members).Ok?
    ensures Exists(Mount(members).value, path) <==>
      exists j :: 0 <= j < |members| && Visible(members[j]) && TrimPath(members[j].path) == TrimPath(path)
  {
    BuildKeyOrder(members);
    VisibleKeysMembership(members, TrimPath(path));
  }

  /**
   * For a directory whose name holds no metacharacter, and a table without
   * `.` or lone-newline names, `x` is listed exactly when it is one plain
   * segment and the directory path, a slash and `x` form a key: the
   * directory itself, grandchildren and keys that merely share a textual
   * prefix (`/ab` against `/abc/x`) are not listed.
   */
  lemma ListDirNames(fs: FileSystem, path: string, x: string)
    requires Valid(fs) && ListedLiterally(fs, path) && PlainNames(fs.files)
    requires ListDir(fs, path).Ok?
    ensures x in ListDir(fs, path).value <==> PlainSegment(x) && DirPrefix(TrimPath(path)) + x in Keys(fs.files)
  {
    ChildrenNames(fs.files, DirPrefix(TrimPath(path)), x);
  }

  /** Under the same conditions no name is listed twice. */
  lemma ListDirNoDuplicates(fs: FileSystem, path: string)
    requires Valid(fs) && ListedLiterally(fs, path) && PlainNames(fs.files)
    requires ListDir(fs, path).Ok?
    ensures NoDuplicates(ListDir(fs, path).value)
  {
    ChildrenDistinct(fs.files, DirPrefix(TrimPath(path)));
  }

  /** The escaped path never equals `"/"`: every slash in it is preceded by a backslash. */
  lemma EscapedNeverRoot(dir: string)
    ensures Escape(dir) != "/"
  {
  }

  /** Away from the root, the source's listing and the corrected one agree. */
  lemma ListDirAgreesOffRoot(fs: FileSystem, path: string)
    requires Valid(fs) && ListedLiterally(fs, path)
    requires TrimPath(path) != "/"
    ensures ListDirAsWritten(fs, path) == ListDir(fs, path)
  {
    EscapedNeverRoot(TrimPath(path));
  }

  /**
   * As written, listing the root (when `/` is a directory key) always gives
   * the empty list: the pattern asks for a key starting with `//`.
   */
  lemma RootListingAsWrittenIsEmpty(fs: FileSystem, path: string)
    requires Valid(fs) && ListedLiterally(fs, path)
    requires TrimPath(path) == "/"
    ensures ListDirAsWritten(fs, path).Ok? ==> ListDirAsWritten(fs, path).value == []
  {
    var dir := TrimPath(path);
    EscapedNeverRoot(dir);
    assert dir + "/" == "//";
    NothingUnderDoubleSlash(fs.files);
    match IsDir(fs, path)
    case Err(_) =>
    case Ok(isDir) =>
      if isDir {
        assert ListDirAsWritten(fs, path) == Ok(Children(fs.files, "//"));
      }
  }

  /** The corrected listing of the root names every key of exactly one plain segment. */
  lemma RootListingComplete(fs: FileSystem, path: string, x: string)
    requires Valid(fs) && ListedLiterally(fs, path) && PlainNames(fs.files)
    requires TrimPath(path) == "/"
    requires ListDir(fs, path).Ok?
    ensures x in ListDir(fs, path).value <==> PlainSegment(x) && "/" + x in Keys(fs.files)
  {
    ListDirNames(fs, path, x);
  }
}
