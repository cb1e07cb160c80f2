/** The target directory as an in-memory tree: a map from path to node,
    with the three file-system calls the merge engine makes (`os.mkdir`,
    writing a file and reading it) and their errors. */
module FileTree {
  import opened Wrappers
  import opened Text
  import opened PosixPath

  datatype Node = Dir | File(content: String)

  /** Paths are taken literally: `a/b` and `a//b` are different keys. */
  type Tree = map<String, Node>

  /** The `OSError`s of the calls: `EEXIST`, `ENOENT`, `ENOTDIR`, `EISDIR`. */
  datatype FsError =
    | FileExists(path: String)
    | FileNotFound(path: String)
    | NotADirectory(path: String)
    | IsADirectory(path: String)

  /** `os.path.isdir(p)` */
  predicate IsDir(t: Tree, p: String) {
    p in t && t[p].Dir?
  }

  /** `os.path.isfile(p)` */
  predicate IsFile(t: Tree, p: String) {
    p in t && t[p].File?
  }

  /** The error raised when the directory that is to hold `p` cannot: it is
      missing or is not a directory. A path without a directory part is
      relative to the working directory, which exists. */
  function ParentError(t: Tree, p: String): (r: Option<FsError>)
    ensures r.None? ==> p != [] && (Dirname(p) == [] || IsDir(t, Dirname(p)))
  {
    var d := Dirname(p);
    if p == [] then Some(FileNotFound(p))
    else if d == [] then None
    else if d !in t then Some(FileNotFound(p))
    else if !t[d].Dir? then Some(NotADirectory(p))
    else None
  }

  /** Every entry sits in a directory of the tree. */
  ghost predicate WellFormed(t: Tree) {
    forall p :: p in t ==> ParentError(t, p).None?
  }

  /** `os.mkdir(p)` */
  function MkdirResult(t: Tree, p: String): (r: Result<Tree, FsError>)
    ensures r.Ok? <==> ParentError(t, p).None? && p !in t
    ensures r.Ok? ==> r.value == t[p := Dir]
  {
    match ParentError(t, p)
    case Some(e) => Err(e)
    case None => if p in t then Err(FileExists(p)) else Ok(t[p := Dir])
  }

  /** `open(p, 'w').write(c)`: creates or truncates a file. */
  function WriteResult(t: Tree, p: String, c: String): (r: Result<Tree, FsError>)
    ensures r.Ok? <==> ParentError(t, p).None? && !IsDir(t, p)
    ensures r.Ok? ==> r.value == t[p := File(c)]
  {
    match ParentError(t, p)
    case Some(e) => Err(e)
    case None => if IsDir(t, p) then Err(IsADirectory(p)) else Ok(t[p := File(c)])
  }

  /** `open(p).read()` */
  function ReadResult(t: Tree, p: String): (r: Result<String, FsError>)
    ensures r.Ok? <==> ParentError(t, p).None? && IsFile(t, p)
    ensures r.Ok? ==> r.value == t[p].content
  {
    match ParentError(t, p)
    case Some(e) => Err(e)
    case None =>
      if p !in t then Err(FileNotFound(p))
      else if t[p].Dir? then Err(IsADirectory(p))
      else Ok(t[p].content)
  }

  /** A path is never its own directory once that directory is in the
      tree and the path is not. */
  lemma ParentNotSelf(t: Tree, p: String)
    requires ParentError(t, p).None?
    requires !IsDir(t, p)
    ensures Dirname(p) != p
  {
  }

  /** Adding or replacing an entry that was not a directory leaves every
      other entry's directory as it was. */
  lemma ParentKept(t: Tree, p: String, n: Node, q: String)
    requires !IsDir(t, p)
    requires ParentError(t, q).None?
    ensures ParentError(t[p := n], q).None?
  {
    var d := Dirname(q);
    if d != [] {
      assert IsDir(t, d);
      assert d != p;
      assert t[p := n][d] == t[d];
    }
  }

  /** Creating a directory keeps every entry in a directory. */
  lemma MkdirWellFormed(t: Tree, p: String)
    requires WellFormed(t) && MkdirResult(t, p).Ok?
    ensures WellFormed(MkdirResult(t, p).value)
  {
    var t' := t[p := Dir];
    forall q | q in t'
      ensures ParentError(t', q).None?
    {
      if q != p {
        ParentKept(t, p, Dir, q);
      } else {
        ParentKept(t, p, Dir, p);
      }
    }
  }

  /** Writing a file keeps every entry in a directory. */
  lemma WriteWellFormed(t: Tree, p: String, c: String)
    requires WellFormed(t) && WriteResult(t, p, c).Ok?
    ensures WellFormed(WriteResult(t, p, c).value)
  {
    var t' := t[p := File(c)];
    forall q | q in t'
      ensures ParentError(t', q).None?
    {
      ParentKept(t, p, File(c), q);
    }
  }

  /** Writing a file keeps every entry in a directory, puts the file in the
      tree and changes no other entry. */
  lemma WriteFrame(t: Tree, p: String, c: String)
    requires WellFormed(t) && WriteResult(t, p, c).Ok?
    ensures var t' := WriteResult(t, p, c).value;
      WellFormed(t') && p in t' &&
      forall q :: q != p ==> (q in t <==> q in t') && (q in t ==> t'[q] == t[q])
  {
    WriteWellFormed(t, p, c);
  }

  /** Creating a directory keeps every entry in a directory, puts the
      directory in the tree and changes no other entry. */
  lemma MkdirFrame(t: Tree, p: String)
    requires WellFormed(t) && MkdirResult(t, p).Ok?
    ensures var t' := MkdirResult(t, p).value;
      WellFormed(t') && p in t' &&
      forall q :: q != p ==> (q in t <==> q in t') && (q in t ==> t'[q] == t[q])
  {
    MkdirWellFormed(t, p);
  }

  /** Reading a file gives back what was last written to it. */
  lemma ReadAfterWrite(t: Tree, p: String, c: String)
    requires WriteResult(t, p, c).Ok?
    ensures ReadResult(WriteResult(t, p, c).value, p) == Ok(c)
  {
    var t' := t[p := File(c)];
    var d := Dirname(p);
    if d != [] {
      ParentNotSelf(t, p);
      assert t'[d] == t[d];
    }
  }

  /** The target tree, changed in place by the file-system calls. */
  class Disk {
    var tree: Tree

    constructor(t: Tree)
      ensures tree == t
    {
      tree := t;
    }

    /** `os.path.exists(p)` */
    predicate Exists(p: String)
      reads this
    {
      p in tree
    }

    /** `os.mkdir(p)` */
    method Mkdir(p: String) returns (err: Option<FsError>)
      modifies this
      ensures MkdirResult(old(tree), p) == if err.None? then Ok(tree) else Err(err.value)
      ensures err.Some? ==> tree == old(tree)
    {
      err := ParentError(tree, p);
      if err.None? {
        if p in tree {
          err := Some(FileExists(p));
        } else {
          tree := tree[p := Dir];
        }
      }
    }

    /** `open(p, 'w').write(c)` */
    method Write(p: String, c: String) returns (err: Option<FsError>)
      modifies this
      ensures WriteResult(old(tree), p, c) == if err.None? then Ok(tree) else Err(err.value)
      ensures err.Some? ==> tree == old(tree)
    {
      err := ParentError(tree, p);
      if err.None? {
        if p in tree && tree[p].Dir? {
          err := Some(IsADirectory(p));
        } else {
          tree := tree[p := File(c)];
        }
      }
    }

    /** `open(p).read()` */
    method Read(p: String) returns (r: Result<String, FsError>)
      ensures r == ReadResult(tree, p)
    {
      var err := ParentError(tree, p);
      if err.Some? {
        r := Err(err.value);
      } else if p !in tree {
        r := Err(FileNotFound(p));
      } else if tree[p].Dir? {
        r := Err(IsADirectory(p));
      } else {
        r := Ok(tree[p].content);
      }
    }
  }
}
