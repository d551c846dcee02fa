/**
 * Path normalisation: `trim_path`, which strips every leading and trailing
 * slash (Python's `str.strip('/')`) and then puts back one leading slash.
 */
module Paths {

  /** `n` slashes. */
  function Slashes(n: nat): (s: string)
    ensures |s| == n
    ensures forall i :: 0 <= i < n ==> s[i] == '/'
  {
    seq(n, _ => '/')
  }

  /** True when no character of `s` other than slashes appears at its ends. */
  predicate Unpadded(s: string) {
    s == [] || (s[0] != '/' && s[|s| - 1] != '/')
  }

  /** The leading half of `str.strip('/')`: drops every leading slash. */
  function StripLeading(s: string): (r: string)
    ensures |r| <= |s|
    ensures r == [] || r[0] != '/'
  {
    if s != [] && s[0] == '/' then StripLeading(s[1..]) else s
  }

  /** The trailing half of `str.strip('/')`: drops every trailing slash. */
  function StripTrailing(s: string): (r: string)
    ensures |r| <= |s|
    ensures r == [] || (r[0] == s[0] && r[|r| - 1] != '/')
  {
    if s != [] && s[|s| - 1] == '/' then StripTrailing(s[..|s| - 1]) else s
  }

  /** Python's `s.strip('/')`. */
  function Strip(s: string): (r: string)
    ensures Unpadded(r)
  {
    StripTrailing(StripLeading(s))
  }

  /**
   * A canonical table key: one leading slash, and either nothing else or a
   * body that neither starts nor ends with a slash. Inner runs of slashes
   * are allowed: `trim_path` does not collapse them.
   */
  predicate IsCanonical(k: string) {
    |k| >= 1 && k[0] == '/' && Unpadded(k[1..])
  }

  /** `trim_path(path)`: `"/" + path.strip('/')`. */
  function TrimPath(path: string): (r: string)
    ensures IsCanonical(r)
    ensures r[|r| - 1] == '/' <==> r == "/"
  {
    "/" + Strip(path)
  }

  /** Stripping slashes around an unpadded body gives back exactly that body. */
  lemma {:induction false} StripPadded(m: nat, body: string, n: nat)
    requires Unpadded(body)
    ensures Strip(Slashes(m) + body + Slashes(n)) == body
  {
    var x := Slashes(m) + body + Slashes(n);
    if body == [] {
      assert x == Slashes(m + n) + [];
      StripLeadingPadded(m + n, []);
    } else {
      assert x == Slashes(m) + (body + Slashes(n));
      StripLeadingPadded(m, body + Slashes(n));
      StripTrailingPadded(body, n);
    }
  }

  lemma {:induction false} StripLeadingPadded(m: nat, s: string)
    requires s == [] || s[0] != '/'
    ensures StripLeading(Slashes(m) + s) == s
  {
    var x := Slashes(m) + s;
    if m > 0 {
      assert x[0] == '/';
      assert x[1..] == Slashes(m - 1) + s;
      StripLeadingPadded(m - 1, s);
    } else {
      assert x == s;
    }
  }

  lemma {:induction false} StripTrailingPadded(s: string, n: nat)
    requires s == [] || s[|s| - 1] != '/'
    ensures StripTrailing(s + Slashes(n)) == s
  {
    var x := s + Slashes(n);
    if n > 0 {
      assert x[|x| - 1] == '/';
      assert x[..|x| - 1] == s + Slashes(n - 1);
      StripTrailingPadded(s, n - 1);
    } else {
      assert x == s;
    }
  }

  /** What `StripLeading` drops is a run of slashes, and what it keeps is a suffix. */
  lemma {:induction false} StripLeadingShape(s: string)
    ensures StripLeading(s) == s[|s| - |StripLeading(s)|..]
    ensures forall i :: 0 <= i < |s| - |StripLeading(s)| ==> s[i] == '/'
  {
    if s != [] && s[0] == '/' {
      var t := s[1..];
      StripLeadingShape(t);
      assert t[|t| - |StripLeading(t)|..] == s[|s| - |StripLeading(s)|..];
      assert forall i :: 1 <= i < |s| ==> s[i] == t[i - 1];
    }
  }

  /** What `StripTrailing` drops is a run of slashes, and what it keeps is a prefix. */
  lemma {:induction false} StripTrailingShape(s: string)
    ensures StripTrailing(s) == s[..|StripTrailing(s)|]
    ensures forall i :: |StripTrailing(s)| <= i < |s| ==> s[i] == '/'
  {
    if s != [] && s[|s| - 1] == '/' {
      var t := s[..|s| - 1];
      StripTrailingShape(t);
      assert t[..|StripTrailing(t)|] == s[..|StripTrailing(s)|];
      assert forall i :: 0 <= i < |t| ==> s[i] == t[i];
    }
  }

  /** A string is the slashes `StripLeading` drops followed by what it keeps. */
  lemma LeadingSplit(s: string)
    ensures s == Slashes(|s| - |StripLeading(s)|) + StripLeading(s)
  {
    var m := |s| - |StripLeading(s)|;
    StripLeadingShape(s);
    assert s[..m] == Slashes(m);
    assert s == s[..m] + s[m..];
  }

  /** A string is what `StripTrailing` keeps followed by the slashes it drops. */
  lemma TrailingSplit(s: string)
    ensures s == StripTrailing(s) + Slashes(|s| - |StripTrailing(s)|)
  {
    var k := |StripTrailing(s)|;
    StripTrailingShape(s);
    assert s[k..] == Slashes(|s| - k);
    assert s == s[..k] + s[k..];
  }

  /** Every string is its stripped body with a run of slashes on each side. */
  lemma StripDecomposes(s: string)
    ensures s == Slashes(|s| - |StripLeading(s)|) + Strip(s) + Slashes(|StripLeading(s)| - |Strip(s)|)
  {
    var l := StripLeading(s);
    LeadingSplit(s);
    TrailingSplit(l);
    var front, back := Slashes(|s| - |l|), Slashes(|l| - |Strip(s)|);
    assert front + (Strip(s) + back) == front + Strip(s) + back;
  }

  /**
   * `trim_path` of any path padded by slashes on either side is the
   * padding-free body behind one slash; inner slashes (`a//b`) are kept.
   */
  lemma TrimPathPadded(m: nat, body: string, n: nat)
    requires Unpadded(body)
    ensures TrimPath(Slashes(m) + body + Slashes(n)) == "/" + body
  {
    StripPadded(m, body, n);
  }

  /** The fixed points of `trim_path` are exactly the canonical keys. */
  lemma TrimPathFixesExactlyCanonical(k: string)
    ensures TrimPath(k) == k <==> IsCanonical(k)
  {
    if IsCanonical(k) {
      assert k == Slashes(1) + k[1..] + Slashes(0);
      TrimPathPadded(1, k[1..], 0);
    }
  }

  /** `trim_path` is idempotent. */
  lemma TrimPathIdempotent(path: string)
    ensures TrimPath(TrimPath(path)) == TrimPath(path)
  {
    TrimPathFixesExactlyCanonical(TrimPath(path));
  }

  /** The three spellings of one path normalise alike. */
  lemma TrimPathExamples()
    ensures TrimPath("a/b/") == "/a/b"
    ensures TrimPath("/a/b") == "/a/b"
    ensures TrimPath("a/b") == "/a/b"
  {
    assert StripLeading("a/b/") == "a/b/";
    assert "a/b/"[..3] == "a/b";
    assert StripTrailing("a/b/") == StripTrailing("a/b") == "a/b";
    assert "/a/b"[1..] == "a/b";
    assert StripLeading("/a/b") == StripLeading("a/b") == "a/b";
    assert StripTrailing("a/b") == "a/b";
  }

  /** An inner double slash survives, and an all-slash path becomes the root. */
  lemma TrimPathKeepsInnerSlashes()
    ensures TrimPath("a//b") == "/a//b"
    ensures TrimPath("") == "/"
  {
    assert StripLeading("a//b") == "a//b";
    assert StripTrailing("a//b") == "a//b";
  }
}
