/**
 * The pieces `list_dir` is built from: the slash escaping applied to the
 * directory path, the pattern `^<dir>\/[^\/]+[\/]?$` read as a literal
 * prefix followed by one segment, and `PurePosixPath(key).name`.
 */
module Listing {
  import opened Paths
  import opened OrderedDict

  /** `s.replace('/', r'\/')`. */
  function Escape(s: string): (r: string)
    ensures '/' in s <==> '/' in r
    ensures forall i :: 0 <= i < |r| && r[i] == '/' ==> i > 0 && r[i - 1] == '\\'
  {
    if s == [] then []
    else
      var head := if s[0] == '/' then "\\/" else [s[0]];
      var r := head + Escape(s[1..]);
      assert forall i :: |head| <= i < |r| ==> r[i] == Escape(s[1..])[i - |head|];
      r
  }

  /** Characters that Python's `re` gives a meaning of their own outside a character class. */
  predicate IsRegexMeta(c: char) {
    c in ".^$*+?{}[]\\|()"
  }

  /**
   * True when the escaped directory path, read as a regular expression,
   * matches exactly its own unescaped text: nothing in it but `/` is special.
   */
  predicate NoRegexMeta(s: string) {
    forall i :: 0 <= i < |s| ==> !IsRegexMeta(s[i])
  }

  /**
   * What `[^\/]+[\/]?$` accepts after the literal directory prefix. Python's
   * `$` also matches just before a final newline, which admits a segment
   * followed by `/\n`; a segment followed by a bare `\n` is already covered
   * because `\n` is not a slash.
   */
  predicate TailMatches(rest: string) {
    || (rest != [] && '/' !in rest)
    || (|rest| >= 2 && rest[|rest| - 1] == '/' && '/' !in rest[..|rest| - 1])
    || (|rest| >= 3 && rest[|rest| - 2..] == "/\n" && '/' !in rest[..|rest| - 2])
  }

  /** `re.match` of the pattern whose literal part is `prefix`. */
  predicate Matches(prefix: string, key: string) {
    |prefix| <= |key| && key[..|prefix|] == prefix && TailMatches(key[|prefix|..])
  }

  /** The text after the last slash, or the whole string when it has none. */
  function AfterLastSlash(s: string): (r: string)
    ensures |r| <= |s| && r == s[|s| - |r|..]
    ensures '/' !in r
    ensures |r| < |s| ==> s[|s| - |r| - 1] == '/'
  {
    if s == [] || s[|s| - 1] == '/' then []
    else AfterLastSlash(s[..|s| - 1]) + [s[|s| - 1]]
  }

  /**
   * `PurePosixPath(s).name`: the last segment that is neither empty nor `.`,
   * since the path object drops both kinds; `""` when there is none.
   */
  function BaseName(s: string): (r: string)
    ensures '/' !in r && r != "."
    decreases |s|
  {
    var last := AfterLastSlash(s);
    if last != "" && last != "." then last
    else if |last| == |s| then ""
    else BaseName(s[..|s| - |last| - 1])
  }

  /** One path segment as `PurePosixPath` keeps it as the name. */
  predicate PlainSegment(s: string) {
    s != "" && s != "." && '/' !in s
  }

  /** The name of `<dir>/<segment>` is the segment. */
  lemma {:induction false} BaseNameOfChild(prefix: string, seg: string)
    requires prefix != [] && prefix[|prefix| - 1] == '/'
    requires PlainSegment(seg)
    ensures BaseName(prefix + seg) == seg
  {
    AfterLastSlashOfChild(prefix, seg);
  }

  lemma {:induction false} AfterLastSlashOfChild(prefix: string, seg: string)
    requires prefix != [] && prefix[|prefix| - 1] == '/'
    requires '/' !in seg
    ensures AfterLastSlash(prefix + seg) == seg
    decreases |seg|
  {
    var s := prefix + seg;
    if seg == [] {
      assert s == prefix;
    } else {
      assert s[..|s| - 1] == prefix + seg[..|seg| - 1];
      AfterLastSlashOfChild(prefix, seg[..|seg| - 1]);
      assert seg == seg[..|seg| - 1] + [s[|s| - 1]];
    }
  }

  /**
   * The list comprehension of `list_dir`: in table order, the name of every
   * key the pattern accepts.
   */
  function Children<V>(t: seq<Entry<V>>, prefix: string): (names: seq<string>)
    ensures |names| <= |t|
  {
    if t == [] then []
    else (if Matches(prefix, t[0].key) then [BaseName(t[0].key)] else []) + Children(t[1..], prefix)
  }

  /** A name is listed exactly when some accepted key has it as its name. */
  lemma {:induction false} ChildrenMembership<V>(t: seq<Entry<V>>, prefix: string, x: string)
    ensures x in Children(t, prefix) <==>
      exists i :: 0 <= i < |t| && Matches(prefix, t[i].key) && BaseName(t[i].key) == x
  {
    if t != [] {
      ChildrenMembership(t[1..], prefix, x);
      if exists i :: 0 <= i < |t| && Matches(prefix, t[i].key) && BaseName(t[i].key) == x {
        var i :| 0 <= i < |t| && Matches(prefix, t[i].key) && BaseName(t[i].key) == x;
        if i > 0 {
          assert t[1..][i - 1] == t[i];
        }
      }
    }
  }

  /**
   * No key ends in a segment that is `.` or a lone newline: the two shapes
   * where `PurePosixPath` or Python's `$` make a listed name differ from the
   * key's last segment.
   */
  predicate PlainNames<V>(t: seq<Entry<V>>) {
    forall i :: 0 <= i < |t| ==> AfterLastSlash(t[i].key) != "." && AfterLastSlash(t[i].key) != "\n"
  }

  predicate CanonicalKeys<V>(t: seq<Entry<V>>) {
    forall i :: 0 <= i < |t| ==> IsCanonical(t[i].key)
  }

  /** A canonical key with a plain name that the pattern accepts is `prefix` followed by its name. */
  lemma MatchedPlainKey(prefix: string, key: string)
    requires prefix != [] && prefix[|prefix| - 1] == '/'
    requires IsCanonical(key) && AfterLastSlash(key) != "." && AfterLastSlash(key) != "\n"
    requires Matches(prefix, key)
    ensures PlainSegment(key[|prefix|..])
    ensures key == prefix + key[|prefix|..]
    ensures BaseName(key) == key[|prefix|..]
  {
    var rest := key[|prefix|..];
    assert key == prefix + rest;
    assert !(|rest| >= 2 && rest[|rest| - 1] == '/') by {
      assert key[1..][|key| - 2] == key[|key| - 1];
    }
    AfterLastSlashOfChild(prefix, rest);
    BaseNameOfChild(prefix, rest);
  }

  /**
   * Over canonical keys with plain names, `x` is listed exactly when it is
   * one plain segment and `prefix + x` is a key.
   */
  lemma ChildrenNames<V>(t: seq<Entry<V>>, prefix: string, x: string)
    requires prefix != [] && prefix[|prefix| - 1] == '/'
    requires CanonicalKeys(t) && PlainNames(t)
    ensures x in Children(t, prefix) <==> PlainSegment(x) && prefix + x in Keys(t)
  {
    ChildrenMembership(t, prefix, x);
    if x in Children(t, prefix) {
      var i :| 0 <= i < |t| && Matches(prefix, t[i].key) && BaseName(t[i].key) == x;
      MatchedPlainKey(prefix, t[i].key);
      assert Keys(t)[i] == prefix + x;
    }
    if PlainSegment(x) && prefix + x in Keys(t) {
      var i :| 0 <= i < |t| && Keys(t)[i] == prefix + x;
      var key := t[i].key;
      assert key[|prefix|..] == x;
      assert Matches(prefix, key);
      BaseNameOfChild(prefix, x);
    }
  }

  predicate NoDuplicates(s: seq<string>) {
    forall i, j :: 0 <= i < j < |s| ==> s[i] != s[j]
  }

  lemma NoDuplicatesCons(x: string, s: seq<string>)
    requires x !in s && NoDuplicates(s)
    ensures NoDuplicates([x] + s)
  {
    var c := [x] + s;
    forall i, j | 0 <= i < j < |c| ensures c[i] != c[j] {
      assert c[j] == s[j - 1];
      if i > 0 {
        assert c[i] == s[i - 1];
      }
    }
  }

  /** Over distinct canonical keys with plain names, no name is listed twice. */
  lemma {:induction false} ChildrenDistinct<V>(t: seq<Entry<V>>, prefix: string)
    requires prefix != [] && prefix[|prefix| - 1] == '/'
    requires UniqueKeys(t) && CanonicalKeys(t) && PlainNames(t)
    ensures NoDuplicates(Children(t, prefix))
  {
    if t != [] {
      var tail := t[1..];
      assert forall j :: 0 <= j < |tail| ==> tail[j] == t[j + 1];
      ChildrenDistinct(tail, prefix);
      var rest := Children(tail, prefix);
      if Matches(prefix, t[0].key) {
        MatchedPlainKey(prefix, t[0].key);
        var name := t[0].key[|prefix|..];
        assert prefix + name !in Keys(tail);
        ChildrenNames(tail, prefix, name);
        assert Children(t, prefix) == [name] + rest;
        NoDuplicatesCons(name, rest);
      } else {
        assert Children(t, prefix) == rest;
      }
    }
  }

  /** No canonical key starts with two slashes, so nothing is listed under the prefix `//`. */
  lemma {:induction false} NothingUnderDoubleSlash<V>(t: seq<Entry<V>>)
    requires CanonicalKeys(t)
    ensures Children(t, "//") == []
  {
    if t != [] {
      assert !Matches("//", t[0].key) by {
        if |t[0].key| >= 2 {
          assert t[0].key[1] == t[0].key[1..][0];
        }
      }
      NothingUnderDoubleSlash(t[1..]);
    }
  }
}
