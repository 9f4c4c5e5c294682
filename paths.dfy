/**
 * POSIX path handling used by the anonymiser: `os.path.join` of two parts and
 * the last component of a path as `str(path).split('/')[-1]` computes it.
 */
module Paths {
  import opened Text

  /** `os.path.join(a, b)` on POSIX: an absolute `b` replaces `a`; otherwise a
      single '/' is put between them unless `a` is empty or already ends in '/'. */
  function Join(a: string, b: string): (p: string)
    ensures EndsWith(p, b)
    ensures b == [] || b[0] != '/' ==> StartsWith(p, a)
    ensures |p| > |b| ==> p[|p| - |b| - 1] == '/'
    ensures |b| > 0 && b[0] == '/' ==> p == b
    ensures b == [] || b[0] != '/' ==>
      |p| == |a| + |b| + (if a == [] || a[|a| - 1] == '/' then 0 else 1)
  {
    if |b| > 0 && b[0] == '/' then b
    else if a == [] || a[|a| - 1] == '/' then a + b
    else a + "/" + b
  }

  /** `path.split('/')[-1]`: the text after the last '/' of `path`, or all of it. */
  function LastComponent(path: string): (t: string)
    ensures '/' !in t
    ensures EndsWith(path, t)
    ensures |t| < |path| ==> path[|path| - |t| - 1] == '/'
  {
    var parts := SplitOn(path, "/");
    LastPieceFacts(path);
    parts[|parts| - 1]
  }

  /** The last piece of a split at '/' is a '/'-free tail of the path that is
      either all of it or preceded by a '/'. */
  lemma LastPieceFacts(path: string)
    ensures var parts := SplitOn(path, "/");
      var t := parts[|parts| - 1];
      && '/' !in t
      && EndsWith(path, t)
      && (|t| < |path| ==> path[|path| - |t| - 1] == '/')
  {
    var parts := SplitOn(path, "/");
    var t := parts[|parts| - 1];
    SplitJoin(path, "/");
    SplitPiecesFree(path, "/");
    assert !Occurs(t, "/");
    if '/' in t {
      var k :| 0 <= k < |t| && t[k] == '/';
      assert StartsWith(t[k..], "/");
    }
    if |parts| >= 2 {
      JoinLast(parts, "/");
      var init := JoinWith(parts[..|parts| - 1], "/");
      assert path == init + "/" + t;
      assert path[|path| - |t|..] == t;
    }
  }

  /** A tail that has no '/' and is either the whole path or preceded by '/'
      is the path's last component. */
  lemma LastComponentUnique(path: string, t: string)
    requires '/' !in t && EndsWith(path, t)
    requires |t| < |path| ==> path[|path| - |t| - 1] == '/'
    ensures LastComponent(path) == t
  {
    var c := LastComponent(path);
    assert c == path[|path| - |c|..];
  }

  /** The last component of `os.path.join(a, b)` is `b` when `b` is a non-empty
      name without '/'. */
  lemma LastComponentOfJoin(a: string, b: string)
    ensures b != [] && '/' !in b ==> LastComponent(Join(a, b)) == b
  {
    if b != [] && '/' !in b {
      LastComponentUnique(Join(a, b), b);
    }
  }

  /** A path that ends in '/' has an empty last component. */
  lemma TrailingSlash(path: string)
    requires path != [] && path[|path| - 1] == '/'
    ensures LastComponent(path) == []
  {
    var t := LastComponent(path);
  }
}
