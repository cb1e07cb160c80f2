/** `splitmergemethod`: a template file named `foo.__APPEND__.txt` is merged
    into `foo.txt` with the method `__APPEND__`. */
module MergeTags {
  import opened Wrappers
  import opened Text
  import opened PosixPath

  /** The character class `[A-Z_]` of the method part. */
  predicate IsMethodChar(c: char) {
    'A' <= c <= 'Z' || c == '_'
  }

  /** The character class `[a-z]` of the extension part. */
  predicate IsExtChar(c: char) {
    'a' <= c <= 'z'
  }

  /** `re.match(r"(.+)\.[A-Z_]+\.[a-z]+", name)` succeeds with the two dots
      at `i` and `j`: one or more characters other than a newline, a dot,
      method characters, a dot and at least one lower-case letter. The
      pattern is anchored at the start only, so anything may follow. */
  predicate TagAt(name: String, i: nat, j: nat) {
    0 < i && i + 1 < j && j + 1 < |name| &&
    NoNewline(name[..i]) && name[i] == '.' &&
    (forall k :: i < k < j ==> IsMethodChar(name[k])) &&
    name[j] == '.' && IsExtChar(name[j + 1])
  }

  predicate HasTag(name: String): (tagged: bool)
    ensures tagged ==> 5 <= |name| && name[0] != '\n'
  {
    exists i, j :: 0 <= i < j < |name| && TagAt(name, i, j)
  }

  /** `s.strip('.')` */
  function StripDots(s: String): (r: String)
    ensures r == [] || (r[0] != '.' && r[|r| - 1] != '.')
    ensures '.' !in s ==> r == s
  {
    var r := RStrip(LStrip(s, '.'), '.');
    assert r != [] ==> r[0] == LStrip(s, '.')[0];
    r
  }

  /** The two extensions of a tagged base name taken apart: the name
      without its second-to-last extension, and that extension without its
      dots. */
  function Untag(name: String): (r: (String, String))
    ensures |r.0| <= |name|
  {
    var (name1, ext) := SplitExt(name);
    var (name2, tagExt) := SplitExt(name1);
    (name2 + ext, StripDots(tagExt))
  }

  /** `splitmergemethod(filename)`: when the base name carries a tag, the
      method is the second-to-last extension with its dots stripped, and the
      file name is the base name without it, in the same directory;
      otherwise the name is returned as it is, without a method. */
  function SplitMergeMethod(filename: String): (r: (String, Option<String>))
    ensures r.1.None? ==> r.0 == filename
    ensures r.1.None? <==> !HasTag(Basename(filename))
  {
    var (path, name) := PathSplit(filename);
    if HasTag(name) then
      var (untagged, tag) := Untag(name);
      (PathJoin(path, untagged), Some(tag))
    else (filename, None)
  }

  /** A well-formed tag is recognised. */
  lemma TagFound(base: String, tag: String, ext: String)
    requires base != [] && NoNewline(base)
    requires tag != [] && forall k :: 0 <= k < |tag| ==> IsMethodChar(tag[k])
    requires ext != [] && IsExtChar(ext[0])
    ensures HasTag(base + "." + tag + "." + ext)
  {
    var name := base + "." + tag + "." + ext;
    var i := |base|;
    var j := |base| + 1 + |tag|;
    assert name[..i] == base;
    forall k | i < k < j ensures IsMethodChar(name[k]) {
      assert name[k] == tag[k - i - 1];
    }
    assert name[j + 1] == ext[0];
    assert TagAt(name, i, j);
  }

  /** A leading dot is stripped from a dot-free method. */
  lemma StripLeadingDot(tag: String)
    requires tag != [] && '.' !in tag
    ensures StripDots("." + tag) == tag
  {
    assert ("." + tag)[1..] == tag;
    assert LStrip("." + tag, '.') == tag;
  }

  /** `Untag` in terms of the two `splitext` steps. */
  lemma UntagBySteps(name: String, root: String, ext: String, base: String, tagExt: String)
    requires SplitExt(name) == (root, "." + ext)
    requires SplitExt(root) == (base, tagExt)
    ensures Untag(name) == (base + "." + ext, StripDots(tagExt))
  {
    DotJoin(base, ext);
  }

  lemma DotJoin(base: String, ext: String)
    ensures base + ("." + ext) == base + "." + ext
  {
  }

  /** `base.METHOD.ext` is taken apart into `base.ext` and `METHOD`. */
  lemma UntagParts(base: String, tag: String, ext: String)
    requires '/' !in base
    requires exists k :: 0 <= k < |base| && base[k] != '.'
    requires tag != [] && '/' !in tag && '.' !in tag
    requires '/' !in ext && '.' !in ext
    ensures Untag(base + "." + tag + "." + ext) == (base + "." + ext, tag)
  {
    var root := base + "." + tag;
    var name := base + "." + tag + "." + ext;
    assert '/' !in root;
    var k :| 0 <= k < |base| && base[k] != '.';
    assert root[k] == base[k];
    SplitExtAt(root, ext);
    SplitExtAt(base, tag);
    StripLeadingDot(tag);
    assert name == root + "." + ext;
    UntagBySteps(name, root, ext, base, "." + tag);
  }

  /** The directory part of a name is kept as it is. */
  lemma SplitInDir(dir: String, name: String)
    requires dir == [] || dir[|dir| - 1] != '/'
    requires '/' !in name
    ensures SplitMergeMethod(PathJoin(dir, name)) ==
      if HasTag(name) then (PathJoin(dir, Untag(name).0), Some(Untag(name).1))
      else (PathJoin(dir, name), None)
  {
    JoinThenSplit(dir, name);
  }

  lemma NoSlashIn(s: String, pred: char -> bool)
    requires forall k :: 0 <= k < |s| ==> pred(s[k])
    requires !pred('/') && !pred('.')
    ensures '/' !in s && '.' !in s
  {
  }

  lemma NoSlashInName(base: String, tag: String, ext: String)
    requires '/' !in base && '/' !in tag && '/' !in ext
    ensures '/' !in base + "." + tag + "." + ext
  {
  }

  /** A name of the form `base.METHOD.ext` in a directory is merged into
      `base.ext` in the same directory, with `METHOD` as the method. */
  lemma SplitTagged(dir: String, base: String, tag: String, ext: String)
    requires dir == [] || dir[|dir| - 1] != '/'
    requires base != [] && '/' !in base && NoNewline(base)
    requires exists k :: 0 <= k < |base| && base[k] != '.'
    requires tag != [] && forall k :: 0 <= k < |tag| ==> IsMethodChar(tag[k])
    requires ext != [] && forall k :: 0 <= k < |ext| ==> IsExtChar(ext[k])
    ensures SplitMergeMethod(PathJoin(dir, base + "." + tag + "." + ext))
      == (PathJoin(dir, base + "." + ext), Some(tag))
  {
    NoSlashIn(tag, IsMethodChar);
    NoSlashIn(ext, IsExtChar);
    NoSlashInName(base, tag, ext);
    TagFound(base, tag, ext);
    UntagParts(base, tag, ext);
    SplitInDir(dir, base + "." + tag + "." + ext);
  }

  /** A base name with fewer than two dots carries no tag: `foo.txt` is
      copied as it is. */
  lemma SplitUntagged(filename: String)
    requires forall i, j :: 0 <= i < j < |Basename(filename)| ==>
      Basename(filename)[i] != '.' || Basename(filename)[j] != '.'
    ensures SplitMergeMethod(filename) == (filename, None)
  {
  }

  /** The pattern is not anchored at the end: `foo.__APPEND__.tar.gz` is
      recognised as tagged, but the method taken is the second-to-last
      extension, `tar`, and the file name keeps `__APPEND__`. */
  lemma SplitTwoExtensions(dir: String, base: String, tag: String, ext1: String, ext2: String)
    requires dir == [] || dir[|dir| - 1] != '/'
    requires base != [] && '/' !in base && NoNewline(base)
    requires tag != [] && forall k :: 0 <= k < |tag| ==> IsMethodChar(tag[k])
    requires ext1 != [] && forall k :: 0 <= k < |ext1| ==> IsExtChar(ext1[k])
    requires '/' !in ext2 && '.' !in ext2
    ensures SplitMergeMethod(PathJoin(dir, base + "." + tag + "." + ext1 + "." + ext2))
      == (PathJoin(dir, base + "." + tag + "." + ext2), Some(ext1))
  {
    NoSlashIn(tag, IsMethodChar);
    NoSlashIn(ext1, IsExtChar);
    var name := base + "." + tag + "." + ext1 + "." + ext2;
    var root := base + "." + tag;
    TagFound(base, tag, ext1 + "." + ext2);
    assert name == base + "." + tag + "." + (ext1 + "." + ext2);
    assert root[|base| + 1] == tag[0];
    UntagParts(root, ext1, ext2);
    assert '/' !in name;
    SplitInDir(dir, name);
  }
}
