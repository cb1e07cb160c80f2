/** The parts of Python's `posixpath` that the merge engine relies on:
    `split`, `join` of two parts, `splitext`, `dirname` and `basename`. */
module PosixPath {
  import opened Text

  /** `s.rfind(c)`: the last index holding `c`, or -1. */
  function RFind(s: String, c: char): (i: int)
    ensures -1 <= i < |s|
    ensures i >= 0 ==> s[i] == c
    ensures forall k :: i < k < |s| ==> s[k] != c
  {
    if s == [] then -1
    else if s[|s| - 1] == c then |s| - 1
    else RFind(s[..|s| - 1], c)
  }

  /** `posixpath.split(p)`: the tail is everything after the last slash; the
      head is everything up to it, with its trailing slashes removed unless
      it consists of slashes only. */
  function PathSplit(p: String): (r: (String, String))
    ensures '/' !in r.1
    ensures |r.0| + |r.1| <= |p|
    ensures '/' !in p ==> r == ([], p)
  {
    var i := RFind(p, '/') + 1;
    var head := p[..i];
    var tail := p[i..];
    assert '/' !in tail by {
      forall k | 0 <= k < |tail| ensures tail[k] != '/' {
        assert tail[k] == p[i + k];
      }
    }
    var stripped := RStrip(head, '/');
    if stripped != [] then (stripped, tail) else (head, tail)
  }

  function Dirname(p: String): String {
    PathSplit(p).0
  }

  function Basename(p: String): String {
    PathSplit(p).1
  }

  /** `posixpath.join(a, b)`: an absolute `b` replaces `a`; otherwise a slash
      is put between them unless `a` is empty or already ends with one. */
  function PathJoin(a: String, b: String): (r: String)
    ensures StartsWith(b, "/") ==> r == b
    ensures !StartsWith(b, "/") ==> StartsWith(r, a) && EndsWith(r, b)
  {
    if StartsWith(b, "/") then b
    else if a == [] || EndsWith(a, "/") then a + b
    else a + "/" + b
  }

  /** A directory without a trailing slash, joined to a name without a slash,
      splits back into the two. */
  lemma JoinThenSplit(d: String, n: String)
    requires d == [] || d[|d| - 1] != '/'
    requires '/' !in n
    ensures PathSplit(PathJoin(d, n)) == (d, n)
  {
    assert !StartsWith(n, "/") by {
      if n != [] {
        assert n[..1][0] == n[0];
      }
    }
    if d == [] {
      assert PathJoin(d, n) == n;
    } else {
      assert !EndsWith(d, "/") by {
        assert d[|d| - 1..][0] == d[|d| - 1];
      }
      var p := d + "/" + n;
      assert PathJoin(d, n) == p;
      assert p[|d|] == '/';
      var i := RFind(p, '/');
      forall k | |d| < k < |p|
        ensures p[k] != '/'
      {
        assert p[k] == n[k - |d| - 1];
      }
      assert i == |d|;
      assert p[..i + 1] == d + "/";
      assert p[i + 1..] == n;
      assert (d + "/")[0] == d[0];
      if d[0] == '/' {
        assert (d + "/")[|d| - 1] != '/';
      }
      assert RStrip(d + "/", '/') == RStrip(d, '/') by {
        assert (d + "/")[..|d|] == d;
      }
    }
  }

  /** `posixpath.splitext(p)`: the extension starts at the last dot of the
      last path component, provided that component has a character other
      than a dot before it (so `.bashrc` has no extension). */
  function SplitExt(p: String): (r: (String, String))
    ensures r.0 + r.1 == p
    ensures r.1 == [] || (r.1[0] == '.' && '.' !in r.1[1..] && '/' !in r.1)
  {
    var sepIndex := RFind(p, '/');
    var dotIndex := RFind(p, '.');
    if dotIndex > sepIndex && exists k :: sepIndex < k < dotIndex && p[k] != '.' then
      var ext := p[dotIndex..];
      assert '.' !in ext[1..] by {
        forall k | 1 <= k < |ext| ensures ext[k] != '.' {
          assert ext[k] == p[dotIndex + k];
        }
      }
      assert '/' !in ext by {
        forall k | 0 <= k < |ext| ensures ext[k] != '/' {
          assert ext[k] == p[dotIndex + k];
        }
      }
      (p[..dotIndex], ext)
    else (p, [])
  }

  /** A root with a character other than a dot and no slash, followed by one
      dot and a dot-free, slash-free extension, splits at that dot. */
  lemma SplitExtAt(root: String, ext: String)
    requires '/' !in root && '/' !in ext && '.' !in ext
    requires exists k :: 0 <= k < |root| && root[k] != '.'
    ensures SplitExt(root + "." + ext) == (root, "." + ext)
  {
    var p := root + "." + ext;
    var d := RFind(p, '.');
    assert p[|root|] == '.';
    forall k | |root| < k < |p|
      ensures p[k] != '.' && p[k] != '/'
    {
      assert p[k] == ext[k - |root| - 1];
    }
    assert d == |root|;
    var s := RFind(p, '/');
    forall k | 0 <= k < |root|
      ensures p[k] != '/'
    {
      assert p[k] == root[k];
    }
    assert s == -1;
    var k :| 0 <= k < |root| && root[k] != '.';
    assert p[k] == root[k];
    assert p[..d] == root;
    assert p[d..] == "." + ext;
  }
}
