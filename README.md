# Tar archive as a read-only filesystem

This project models `TarFileSystem` from `vshell/file_system/tar_file_system.py`,
together with its helper `trim_path`, and proves properties of the model in Dafny.

`TarFileSystem` turns the flat member list of a tar archive into a read-only
filesystem, in three steps:

- **Building the table.** It maps each member's path, normalised by
  `trim_path`, to that member. Members whose raw path starts with `._`
  (AppleDouble resource forks) are dropped. When two members normalise to the
  same key, the later member wins.
- **The root.** The mount root is the raw path of the member stored under the
  first key.
- **Queries.** `exists`, `is_dir`, `is_file`, `open` and `list_dir` all work
  through that table.

The source never updates the table after construction, so the model is pure:
datatypes and functions, with no class.

Modules:

- `Wrappers`: `Option` and `Result`.
- `Paths`: `trim_path`, written as Python's `str.strip('/')` followed by one
  leading slash.
- `OrderedDict`: a Python `dict` with string keys. It is an association list
  in insertion order. Assigning to a present key replaces its value in place;
  assigning to a new key appends it.
- `Listing`: the `list_dir` pattern and `PurePosixPath(...).name`, written as
  string matching without a regex engine.
- `TarFileSystem`: construction, the root, the queries, and the directory
  listing both as written and as corrected.
- `Scenarios`: concrete archives and the answers the model gives for them.

Python exceptions become `Err` values:

- `FileNotFound(path)` and `FileTypeError(path)` carry the path exactly as the
  caller gave it.
- `EmptyArchive` stands for the `StopIteration` that `next()` raises when
  every member was dropped.

Points where the code behaves differently from what a reader might expect:

- **Root.** The root is the raw path of the value stored under the first
  inserted key. When a later member normalises to that same key, the root is
  that later member's raw path (`MountRoot`, `DuplicateRootScenario`). It is
  not necessarily the first visible member's path.
- **Listing shape.** `list_dir` returns a list in table order, not a set.
- **Root listing.** The special case for `/` is unreachable as written (see
  Findings).
- **Hidden members.** Only raw paths that begin with `._` are dropped. `/._x`
  and `d/._x` are kept.

## Model

| member | source | states |
|---|---|---|
| Paths.TrimPath | vshell/file_system/tar_file_system.py:68-69 | the result always starts with `/`, its body has no leading or trailing slash, and it ends with `/` only when it is exactly `/` |
| Paths.TrimPathFixesExactlyCanonical | vshell/file_system/tar_file_system.py:68-69 | `trim_path(k) == k` holds exactly for canonical keys (a slash, then a body with no slash at either end) |
| Paths.TrimPathIdempotent | vshell/file_system/tar_file_system.py:68-69 | `trim_path(trim_path(p)) == trim_path(p)` for every string |
| Paths.TrimPathPadded | vshell/file_system/tar_file_system.py:68-69 | any number of slashes on either side of an unpadded body normalise to `/` plus that body |
| Paths.StripDecomposes | vshell/file_system/tar_file_system.py:69 | every string is its `strip('/')` result with a run of slashes on each side, so strip removes only slashes, and only at the ends |
| Paths.StripPadded | vshell/file_system/tar_file_system.py:69 | `strip('/')` gives back exactly the unpadded body that slashes surround |
| Paths.StripLeadingShape | vshell/file_system/tar_file_system.py:69 | the leading half of strip keeps a suffix of its input and drops only slashes |
| Paths.StripTrailingShape | vshell/file_system/tar_file_system.py:69 | the trailing half of strip keeps a prefix of its input and drops only slashes |
| Paths.TrimPathExamples | vshell/file_system/tar_file_system.py:68-69 | `a/b/`, `/a/b` and `a/b` all normalise to `/a/b` |
| Paths.TrimPathKeepsInnerSlashes | vshell/file_system/tar_file_system.py:68-69 | `a//b` becomes `/a//b` (inner slashes are not collapsed), and the empty path becomes `/` |
| OrderedDict.Keys | vshell/file_system/tar_file_system.py:18 | the dict's keys, in iteration order, one per entry |
| OrderedDict.Lookup | vshell/file_system/tar_file_system.py:28 | `dict.get` is `None` exactly for an absent key; otherwise it gives the value stored with that key |
| OrderedDict.IndexOf | vshell/file_system/tar_file_system.py:18 | the position of a present key, with no earlier entry carrying that key |
| OrderedDict.Put | vshell/file_system/tar_file_system.py:18 | `d[k] = v` keeps the key order when `k` is present and appends `k` otherwise; keys stay unique; only the entry for `k` changes |
| OrderedDict.LookupPut | vshell/file_system/tar_file_system.py:18 | after `d[k] = v`, `k` maps to `v` and every other key maps to what it mapped to before |
| TarFileSystem.VisibleKeys | vshell/file_system/tar_file_system.py:18 | the normalised paths of the kept members, in archive order, repeats included; never longer than the member list |
| TarFileSystem.VisibleKeysMembership | vshell/file_system/tar_file_system.py:18 | a path is among the kept keys exactly when some member without the `._` prefix normalises to it |
| TarFileSystem.FirstOccurrences | vshell/file_system/tar_file_system.py:18 | each key once, at the place it first occurs: the same elements as the input, with no repeats |
| TarFileSystem.Build | vshell/file_system/tar_file_system.py:18 | the table has unique canonical keys, and each entry holds a kept member whose normalised path is its key |
| TarFileSystem.BuildKeysFixed | vshell/file_system/tar_file_system.py:18 | every table key `k` satisfies `trim_path(k) == k` |
| TarFileSystem.BuildKeyOrder | vshell/file_system/tar_file_system.py:18 | the table's key order is the kept normalised paths, each at its first occurrence |
| TarFileSystem.BuildLastWins | vshell/file_system/tar_file_system.py:18 | a key holds the last kept member that normalises to it |
| TarFileSystem.BuildEmpty | vshell/file_system/tar_file_system.py:18 | the table is empty exactly when every member starts with `._` |
| TarFileSystem.BuildDistinctCanonical | vshell/file_system/tar_file_system.py:18 | members with distinct canonical paths give one entry each, in archive order, keyed by the raw path |
| TarFileSystem.Mount | vshell/file_system/tar_file_system.py:15-19 | construction fails with `EmptyArchive` exactly when every member is hidden; otherwise the table is `Build(members)` and the root is the raw path under the first key |
| TarFileSystem.MountRoot | vshell/file_system/tar_file_system.py:18-24 | `root()` is the raw path of the last kept member that normalises like the first kept member |
| TarFileSystem.Get | vshell/file_system/tar_file_system.py:26-28 | the entry stored under `trim_path(path)`, or `None` exactly when there is none |
| TarFileSystem.Exists | vshell/file_system/tar_file_system.py:30-31 | never fails; true exactly when `trim_path(path)` is a table key |
| TarFileSystem.ExistsAgreesWithMembers | vshell/file_system/tar_file_system.py:30-31 | on a mounted archive, `exists(p)` holds exactly when some kept member normalises like `p` |
| TarFileSystem.IsDir | vshell/file_system/tar_file_system.py:33-38 | an absent path gives `FileNotFound` with the caller's own path; a present one gives whether its entry is a directory |
| TarFileSystem.IsFile | vshell/file_system/tar_file_system.py:40-45 | an absent path gives `FileNotFound` with the caller's own path; a present one gives whether its entry is a file |
| TarFileSystem.Open | vshell/file_system/tar_file_system.py:47-52 | `FileNotFound` for an absent path and `FileTypeError` for a non-file; only a file entry yields its handle for extraction |
| TarFileSystem.OtherKindIsNeither | vshell/file_system/tar_file_system.py:33-52 | an entry that is neither a file nor a directory is neither for `is_dir` nor for `is_file`, and cannot be opened |
| TarFileSystem.DirPrefix | vshell/file_system/tar_file_system.py:60-63 | the literal prefix of the listing pattern ends in `/`; away from the root it is the directory path plus `/` |
| TarFileSystem.ListDirAsWritten | vshell/file_system/tar_file_system.py:54-65 | `list_dir` as written: `FileNotFound` for an absent path, `FileTypeError` for a non-directory, and for every directory, the root included, the names under the prefix `dir + "/"` |
| TarFileSystem.ListDir | vshell/file_system/tar_file_system.py:54-65 | the same errors; every directory that exists is listed successfully, giving the final segments of the keys matching `<dir>/<one segment>`, in table order, with the root test made as intended |
| TarFileSystem.ListDirNames | vshell/file_system/tar_file_system.py:58-65 | `x` is listed exactly when it is one plain segment and `dir + "/" + x` is a key, so the directory itself, grandchildren and keys that only share text (`/abc/x` under `/ab`) are excluded |
| TarFileSystem.ListDirNoDuplicates | vshell/file_system/tar_file_system.py:65 | no name is listed twice |
| TarFileSystem.EscapedNeverRoot | vshell/file_system/tar_file_system.py:59-60 | after escaping, the path never equals `/` |
| TarFileSystem.ListDirAgreesOffRoot | vshell/file_system/tar_file_system.py:58-65 | away from the root, the listing as written and the corrected listing agree |
| TarFileSystem.RootListingAsWrittenIsEmpty | vshell/file_system/tar_file_system.py:59-63 | as written, listing `/` always gives the empty list |
| TarFileSystem.RootListingComplete | vshell/file_system/tar_file_system.py:63 | the corrected listing of `/` names exactly the keys one segment below the root |
| Listing.Escape | vshell/file_system/tar_file_system.py:59 | escaping keeps or omits `/` exactly as the input does, and every `/` it leaves is preceded by a backslash |
| Listing.AfterLastSlash | vshell/file_system/tar_file_system.py:65 | the part of a key after its last slash: a slash-free suffix |
| Listing.BaseName | vshell/file_system/tar_file_system.py:65 | `PurePosixPath(key).name` has no slash and is never `.` |
| Listing.BaseNameOfChild | vshell/file_system/tar_file_system.py:65 | the name of `<prefix>/<segment>` is that segment |
| Listing.AfterLastSlashOfChild | vshell/file_system/tar_file_system.py:65 | after a slash-ended prefix, the last slash is the prefix's own |
| Listing.Children | vshell/file_system/tar_file_system.py:65 | the names of the matching keys in table order, at most one per entry |
| Listing.ChildrenMembership | vshell/file_system/tar_file_system.py:65 | a name is listed exactly when some key matches the pattern and has that name |
| Listing.MatchedPlainKey | vshell/file_system/tar_file_system.py:61-65 | a canonical key that matches is the prefix followed by one plain segment, and its name is that segment |
| Listing.ChildrenNames | vshell/file_system/tar_file_system.py:61-65 | a name is listed exactly when it is one plain segment and the prefix plus that name is a key |
| Listing.ChildrenDistinct | vshell/file_system/tar_file_system.py:65 | with unique keys, the listed names are distinct |
| Listing.NothingUnderDoubleSlash | vshell/file_system/tar_file_system.py:61-65 | no canonical key matches the pattern built on `//` |
| Scenarios.ListingScenario | vshell/file_system/tar_file_system.py:54-65 | `/root` holding `a.txt`, `sub` and `sub/b.txt` lists `["a.txt", "sub"]` |
| Scenarios.WrongKindScenario | vshell/file_system/tar_file_system.py:40-52 | a subdirectory is not a file and cannot be opened |
| Scenarios.ListFileScenario | vshell/file_system/tar_file_system.py:54-56 | listing a file fails with `FileTypeError` |
| Scenarios.MissingScenario | vshell/file_system/tar_file_system.py:47-49 | opening `/nope` fails with `FileNotFound("/nope")` |
| Scenarios.HiddenPrefixScenario | vshell/file_system/tar_file_system.py:18 | `._x` is dropped; `/._x` and `d/._x` are kept |
| Scenarios.HiddenMemberScenario | vshell/file_system/tar_file_system.py:18 | after `._root/a.txt` is dropped, `exists("/._root/a.txt")` is false |
| Scenarios.TwoMemberTable | vshell/file_system/tar_file_system.py:18 | two kept members give one entry holding the later one, or two entries in order |
| Scenarios.DuplicateRootScenario | vshell/file_system/tar_file_system.py:18-19 | for `pkg/` followed by `/pkg`, the single entry holds `/pkg`, and the root is `/pkg` |
| Scenarios.FirstMemberRootScenario | vshell/file_system/tar_file_system.py:18-24 | for `/pkg/` and `/pkg/main.go`, the root is `/pkg/` and listing it includes `main.go` |
| Scenarios.RootListingScenario | vshell/file_system/tar_file_system.py:58-65 | with `/` a directory and `a` a file, the listing as written is empty and the corrected listing is `["a"]` |
| Scenarios.SharedPrefixScenario | vshell/file_system/tar_file_system.py:58-65 | `/ab` lists `/ab/c` as `c`, and does not list `/abc/x` |

## Left out

- Archive parsing (`archive.getmembers()`) is not part of this model. The
  archive is given as a sequence of `Member` records, each with a raw path, a
  kind and an opaque handle.
- Byte extraction (`extractfile`) is a call into the archive. `Open` returns the
  file's handle where the source would return the extracted stream.
- The tar type codes behind `isdir()` and `isfile()` are reduced to
  `File | Directory | Other`.
- Exception messages and the exception classes of the `errors` module are
  not part of this model. Only the error kind and the path it carries are kept.
- The commented-out synthetic `/` entry (lines 20-21) is not live code, so it
  is not modelled.
- The Python regex engine is not modelled. `Matches` implements the pattern
  `^<dir>\/[^\/]+[\/]?$` as literal string matching. It includes `$` also
  matching before a final newline.
- TarFileSystem.ListDir, TarFileSystem.ListDirAsWritten: both require
  `ListedLiterally`, that is, a listed directory's normalised name holds no
  regex metacharacter (`. ^ $ * + ? { } [ ] \ | ( )`). Only `/` is escaped,
  so for other names the source's pattern matches other keys or raises
  `re.error`. That behaviour is outside the model.
- TarFileSystem.ListDirNames, TarFileSystem.ListDirNoDuplicates,
  TarFileSystem.RootListingComplete: these assume `PlainNames`, that is, no
  key ends in a `.` segment or in a lone newline segment. The two have
  different causes. `PurePosixPath` folds a `.` segment away, so such a key
  is listed under the segment before it. Python's `$` also matches before a
  final newline, so `/d/x/\n` matches the pattern for `/d` and is listed
  with the name `\n`. `Children` itself models both cases faithfully.
- `PurePosixPath.name` is modelled for the names that matching keys can
  produce: the last segment that is neither empty nor `.`.
- Threads and the lifetime of the archive object are not modelled.

## Findings

| source | as written | input that shows it | evidently intended | confidence | as-written member | corrected member |
|---|---|---|---|---|---|---|
| vshell/file_system/tar_file_system.py:59-63 | The root test compares the path after slash-escaping with `"/"`. The escaped root is `\/`, so the test never holds, the root pattern at line 63 is dead, and the pattern for `/` demands keys that start with `//`. | An archive with members `/` (directory) and `a` (file): `list_dir("/")` returns `[]` | The root test is made on the normalised path, so that `list_dir("/")` gives the top-level names (`["a"]`) | high, not executed | TarFileSystem.ListDirAsWritten | TarFileSystem.ListDir |

Proofs for the finding:

- `TarFileSystem.EscapedNeverRoot` shows that the test can never hold.
- `TarFileSystem.RootListingAsWrittenIsEmpty` shows that the listing as written
  is always empty at the root.
- `TarFileSystem.ListDirAgreesOffRoot` shows that the listing as written and
  `TarFileSystem.ListDir` agree everywhere else.
- `TarFileSystem.RootListingComplete` shows that the corrected listing of the
  root names every top-level key.
- `Scenarios.RootListingScenario` exhibits the input above.
