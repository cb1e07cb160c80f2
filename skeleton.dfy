/** A skeleton: a template directory found on the module search path, the
    objects it is made of, and their application to a target directory
    (`Skeleton.apply_to`), which merges every object and then removes the
    leftover `SKEL` markers. */
module Skeletons {
  import opened Wrappers
  import opened Text
  import opened Variables
  import opened PosixPath
  import opened Cleanup
  import opened FileTree
  import opened TemplateObjects

  /** A template directory as `os.listdir` lists it, in listing order: a
      subdirectory with its own listing, or a file with its text. */
  datatype Entry =
    | DirEntry(name: String, children: seq<Entry>)
    | FileEntry(name: String, content: String)

  /** Names as a directory listing gives them: not empty and without a
      slash. */
  predicate WellNamed(es: seq<Entry>)
    decreases es
  {
    forall i :: 0 <= i < |es| ==>
      es[i].name != [] && '/' !in es[i].name &&
      (es[i].DirEntry? ==> WellNamed(es[i].children))
  }

  /** The `__init__.py` and `__init__.pyc` of the template's own directory
      belong to the template package, not to the template. */
  predicate Skipped(rel: String, name: String) {
    rel == [] && (name == "__init__.py" || name == "__init__.pyc")
  }

  /** The objects `_walk` makes of one entry of the directory `rel`: a
      directory comes first, followed by the objects of its own listing. */
  function Item(e: Entry, rel: String, root: String, params: Vars): seq<SkelObject>
    decreases e
  {
    if Skipped(rel, e.name) then []
    else
      var relname := PathJoin(rel, e.name);
      match e
      case DirEntry(_, children) => [SkelDir(root, relname, params)] + Walked(children, relname, root, params)
      case FileEntry(_, content) => [NewFile(root, relname, params, content)]
  }

  /** The objects `_walk` makes of a listing, in listing order. */
  function Walked(es: seq<Entry>, rel: String, root: String, params: Vars): seq<SkelObject>
    decreases es
  {
    if es == [] then [] else Item(es[0], rel, root, params) + Walked(es[1..], rel, root, params)
  }

  /** The number of entries in a listing, counting every level. */
  function Size(es: seq<Entry>): nat
    decreases es
  {
    if es == [] then 0
    else
      (match es[0]
       case DirEntry(_, children) => 1 + Size(children)
       case FileEntry(_, _) => 1)
      + Size(es[1..])
  }

  lemma AppendAssoc(a: seq<SkelObject>, b: seq<SkelObject>, c: seq<SkelObject>)
    ensures (a + b) + c == a + (b + c)
  {
  }

  /** Walking a listing entry by entry. */
  lemma {:induction false} WalkedSnoc(es: seq<Entry>, e: Entry, rel: String, root: String, params: Vars)
    ensures Walked(es + [e], rel, root, params) == Walked(es, rel, root, params) + Item(e, rel, root, params)
    decreases es
  {
    if es == [] {
      assert [e][1..] == [];
    } else {
      assert (es + [e])[1..] == es[1..] + [e];
      WalkedSnoc(es[1..], e, rel, root, params);
    }
  }

  lemma WalkedStep(es: seq<Entry>, i: nat, rel: String, root: String, params: Vars)
    requires i < |es|
    ensures Walked(es[i..], rel, root, params) == Item(es[i], rel, root, params) + Walked(es[i + 1..], rel, root, params)
  {
    assert es[i..][1..] == es[i + 1..];
  }

  /** Below the template's own directory nothing is skipped: there is one
      object per entry, at every level. */
  lemma {:induction false} WalkedBelowRoot(es: seq<Entry>, rel: String, root: String, params: Vars)
    requires rel != []
    ensures |Walked(es, rel, root, params)| == Size(es)
    decreases es
  {
    if es != [] {
      WalkedBelowRoot(es[1..], rel, root, params);
      match es[0]
      case DirEntry(name, children) =>
        WalkedBelowRoot(children, PathJoin(rel, name), root, params);
      case FileEntry(_, _) =>
    }
  }

  /** A name joined below a directory has a slash in it. */
  lemma JoinHasSlash(rel: String, name: String)
    requires rel != []
    ensures '/' in PathJoin(rel, name)
  {
    var r := PathJoin(rel, name);
    if StartsWith(name, "/") {
      assert name[0] == '/';
    } else if EndsWith(rel, "/") {
      assert r[|rel| - 1] == '/';
    } else {
      assert r[|rel|] == '/';
    }
  }

  /** Every object made below the template's own directory has a slash in
      its name. */
  lemma {:induction false} WalkedNested(es: seq<Entry>, rel: String, root: String, params: Vars)
    requires rel != []
    ensures forall o :: o in Walked(es, rel, root, params) ==> '/' in o.filename
    decreases es
  {
    if es != [] {
      WalkedNested(es[1..], rel, root, params);
      ItemNested(es[0], rel, root, params);
    }
  }

  /** The same for the objects of one entry. */
  lemma {:induction false} ItemNested(e: Entry, rel: String, root: String, params: Vars)
    requires rel != []
    ensures forall o :: o in Item(e, rel, root, params) ==> '/' in o.filename
    decreases e
  {
    if !Skipped(rel, e.name) {
      var relname := PathJoin(rel, e.name);
      JoinHasSlash(rel, e.name);
      match e
      case DirEntry(name, children) =>
        WalkedNested(children, relname, root, params);
      case FileEntry(_, _) =>
    }
  }

  /** No object of the template's own `__init__.py` or `__init__.pyc` is
      ever made. */
  lemma {:induction false} WalkedSkipsRootInit(es: seq<Entry>, root: String, params: Vars)
    ensures forall o :: o in Walked(es, [], root, params) ==>
      o.filename != "__init__.py" && o.filename != "__init__.pyc"
    decreases es
  {
    if es != [] {
      WalkedSkipsRootInit(es[1..], root, params);
      var e := es[0];
      if !Skipped([], e.name) {
        assert PathJoin([], e.name) == e.name;
        match e
        case DirEntry(name, children) =>
          if name == [] {
            WalkedSkipsRootInit(children, root, params);
          } else {
            WalkedNested(children, name, root, params);
            assert "__init__.py"[2] != '/';
          }
        case FileEntry(_, _) =>
      }
    }
  }

  /** Every object's directory is the walked directory itself or the name of
      a directory object made before it. */
  ghost predicate ParentsFirst(objs: seq<SkelObject>, rel: String) {
    forall j :: 0 <= j < |objs| ==>
      Dirname(objs[j].filename) == rel ||
      exists i :: 0 <= i < j && objs[i].SkelDir? && objs[i].filename == Dirname(objs[j].filename)
  }

  lemma ParentsFirstAppend(a: seq<SkelObject>, b: seq<SkelObject>, rel: String)
    requires ParentsFirst(a, rel) && ParentsFirst(b, rel)
    ensures ParentsFirst(a + b, rel)
  {
    var c := a + b;
    forall j | 0 <= j < |c| && Dirname(c[j].filename) != rel
      ensures exists i :: 0 <= i < j && c[i].SkelDir? && c[i].filename == Dirname(c[j].filename)
    {
      if j < |a| {
        assert c[j] == a[j];
        var i :| 0 <= i < j && a[i].SkelDir? && a[i].filename == Dirname(a[j].filename);
        assert c[i] == a[i];
      } else {
        assert c[j] == b[j - |a|];
        var i :| 0 <= i < j - |a| && b[i].SkelDir? && b[i].filename == Dirname(b[j - |a|].filename);
        assert c[i + |a|] == b[i];
      }
    }
  }

  lemma ParentsFirstUnder(d: SkelObject, w: seq<SkelObject>, rel: String)
    requires d.SkelDir? && Dirname(d.filename) == rel
    requires ParentsFirst(w, d.filename)
    ensures ParentsFirst([d] + w, rel)
  {
    var c := [d] + w;
    forall j | 0 < j < |c| && Dirname(c[j].filename) != rel
      ensures exists i :: 0 <= i < j && c[i].SkelDir? && c[i].filename == Dirname(c[j].filename)
    {
      assert c[j] == w[j - 1];
      if Dirname(w[j - 1].filename) == d.filename {
        assert c[0] == d;
      } else {
        var i :| 0 <= i < j - 1 && w[i].SkelDir? && w[i].filename == Dirname(w[j - 1].filename);
        assert c[i + 1] == w[i];
      }
    }
  }

  /** Joining a name without a slash to a directory without a trailing slash
      gives a name without a trailing slash. */
  lemma JoinNoTrailingSlash(rel: String, name: String)
    requires rel == [] || rel[|rel| - 1] != '/'
    requires name != [] && '/' !in name
    ensures var r := PathJoin(rel, name); r != [] && r[|r| - 1] != '/'
  {
    assert !StartsWith(name, "/") by {
      assert name[..1][0] == name[0];
    }
    if rel != [] {
      assert !EndsWith(rel, "/") by {
        assert rel[|rel| - 1..][0] == rel[|rel| - 1];
      }
      var r := rel + "/" + name;
      assert r[|r| - 1] == name[|name| - 1];
    }
  }

  /** `_walk` emits every directory before everything inside it. */
  lemma {:induction false} WalkedParentsFirst(es: seq<Entry>, rel: String, root: String, params: Vars)
    requires WellNamed(es)
    requires rel == [] || rel[|rel| - 1] != '/'
    ensures ParentsFirst(Walked(es, rel, root, params), rel)
    decreases es
  {
    if es != [] {
      assert WellNamed(es[1..]) by {
        forall i | 0 <= i < |es[1..]| ensures es[1..][i] == es[i + 1] { }
      }
      WalkedParentsFirst(es[1..], rel, root, params);
      ItemParentsFirst(es[0], rel, root, params);
      ParentsFirstAppend(Item(es[0], rel, root, params), Walked(es[1..], rel, root, params), rel);
    }
  }

  lemma {:induction false} ItemParentsFirst(e: Entry, rel: String, root: String, params: Vars)
    requires e.name != [] && '/' !in e.name
    requires e.DirEntry? ==> WellNamed(e.children)
    requires rel == [] || rel[|rel| - 1] != '/'
    ensures ParentsFirst(Item(e, rel, root, params), rel)
    decreases e
  {
    if !Skipped(rel, e.name) {
      var relname := PathJoin(rel, e.name);
      JoinThenSplit(rel, e.name);
      match e
      case DirEntry(name, children) =>
        JoinNoTrailingSlash(rel, name);
        WalkedParentsFirst(children, relname, root, params);
        ParentsFirstUnder(SkelDir(root, relname, params), Walked(children, relname, root, params), rel);
      case FileEntry(_, _) =>
    }
  }

  /** Why applying a skeleton fails: its template is not on the search path,
      one of its objects cannot be merged, or a file-system call fails. */
  datatype SkelError =
    | ModuleNotFound(name: String)
    | NotMergeable
    | Fs(error: FsError)

  /** The target tree after an operation, and the error it stopped with.
      A failed merge leaves behind the objects merged before it. */
  datatype Outcome = Outcome(tree: Tree, err: Option<SkelError>)

  /** Merging objects one after the other, stopping at the first error. */
  function MergeSeq(t: Tree, path: String, objs: seq<SkelObject>, order: set<String> -> seq<String>)
    : (r: Outcome)
    ensures r.err.Some? ==> r.err.value.Fs?
    decreases objs
  {
    if objs == [] then Outcome(t, None)
    else
      match MergeResult(t, path, objs[0], order)
      case Err(e) => Outcome(t, Some(Fs(e)))
      case Ok(t') => MergeSeq(t', path, objs[1..], order)
  }

  predicate AllValid(t: Tree, path: String, objs: seq<SkelObject>) {
    forall i :: 0 <= i < |objs| ==> IsValid(t, path, objs[i])
  }

  /** `_merge_objects(path)`: every object is checked against the target
      tree before any is merged. */
  function MergeObjectsResult(t: Tree, path: String, objs: seq<SkelObject>, order: set<String> -> seq<String>)
    : (r: Outcome)
    ensures r.err == Some(NotMergeable) <==> !AllValid(t, path, objs)
    ensures r.err == Some(NotMergeable) ==> r.tree == t
  {
    if AllValid(t, path, objs) then MergeSeq(t, path, objs, order)
    else Outcome(t, Some(NotMergeable))
  }

  /** The targets of a sequence of objects are in a tree when the first one
      is and those of the rest are. */
  lemma TargetsCons(objs: seq<SkelObject>, path: String, t: Tree)
    requires objs != [] && TargetPath(objs[0], path) in t
    requires forall i :: 0 <= i < |objs| - 1 ==> TargetPath(objs[1..][i], path) in t
    ensures forall i :: 0 <= i < |objs| ==> TargetPath(objs[i], path) in t
  {
    forall i | 0 < i < |objs|
      ensures TargetPath(objs[i], path) in t
    {
      assert objs[i] == objs[1..][i - 1];
    }
  }

  /** Merging keeps every entry in a directory and removes no entry; when
      it succeeds, every object's target is in the tree. */
  lemma {:induction false} MergeSeqGrows(t: Tree, path: String, objs: seq<SkelObject>,
                                         order: set<String> -> seq<String>)
    requires WellFormed(t)
    ensures var r := MergeSeq(t, path, objs, order);
      WellFormed(r.tree) && t.Keys <= r.tree.Keys &&
      (r.err.None? ==> forall i :: 0 <= i < |objs| ==> TargetPath(objs[i], path) in r.tree)
    decreases objs
  {
    if objs != [] {
      var m := MergeResult(t, path, objs[0], order);
      if m.Ok? {
        MergeFrame(t, path, objs[0], order);
        MergeSeqGrows(m.value, path, objs[1..], order);
        var r := MergeSeq(m.value, path, objs[1..], order);
        if r.err.None? {
          TargetsCons(objs, path, r.tree);
        }
      }
    }
  }

  /** The templates of a skeleton and its extensions merged one after the
      other, each checked against the tree left by the ones before. */
  function MergeRuns(t: Tree, path: String, runs: seq<seq<SkelObject>>, order: set<String> -> seq<String>)
    : Outcome
    decreases runs
  {
    if runs == [] then Outcome(t, None)
    else
      var o := MergeObjectsResult(t, path, runs[0], order);
      if o.err.Some? then o else MergeRuns(o.tree, path, runs[1..], order)
  }

  /** `apply_to(path)` once the parameters are set: every template merged,
      then one cleanup pass over the target. */
  function Applied(t: Tree, path: String, runs: seq<seq<SkelObject>>, order: set<String> -> seq<String>)
    : Outcome
  {
    var o := MergeRuns(t, path, runs, order);
    if o.err.Some? then o else Outcome(CleanedTree(o.tree, path), None)
  }

  lemma MergeRunsStep(t: Tree, path: String, runs: seq<seq<SkelObject>>, i: nat, order: set<String> -> seq<String>)
    requires i < |runs|
    ensures MergeRuns(t, path, runs[i..], order) ==
      var o := MergeObjectsResult(t, path, runs[i], order);
      if o.err.Some? then o else MergeRuns(o.tree, path, runs[i + 1..], order)
  {
    assert runs[i..][1..] == runs[i + 1..];
  }

  /** Applying the template and then its extensions. */
  lemma AppliedFirst(t: Tree, path: String, first: seq<SkelObject>, rest: seq<seq<SkelObject>>,
                     order: set<String> -> seq<String>)
    ensures Applied(t, path, [first] + rest, order) ==
      var o := MergeObjectsResult(t, path, first, order);
      if o.err.Some? then o
      else
        var r := MergeRuns(o.tree, path, rest, order);
        if r.err.Some? then r else Outcome(CleanedTree(r.tree, path), None)
  {
    assert ([first] + rest)[1..] == rest;
  }

  /** When an object of the first template cannot be merged, nothing at all
      is merged and the target is not cleaned. */
  lemma AppliedGate(t: Tree, path: String, runs: seq<seq<SkelObject>>, order: set<String> -> seq<String>)
    requires runs != []
    requires exists i :: 0 <= i < |runs[0]| && !IsValid(t, path, runs[0][i])
    ensures Applied(t, path, runs, order) == Outcome(t, Some(NotMergeable))
  {
  }

  lemma {:induction false} MergeRunsGrows(t: Tree, path: String, runs: seq<seq<SkelObject>>,
                                          order: set<String> -> seq<String>)
    requires WellFormed(t)
    ensures var r := MergeRuns(t, path, runs, order);
      WellFormed(r.tree) && t.Keys <= r.tree.Keys &&
      (r.err.None? ==> forall k, i :: 0 <= k < |runs| && 0 <= i < |runs[k]| ==> TargetPath(runs[k][i], path) in r.tree)
    decreases runs
  {
    if runs != [] {
      var o := MergeObjectsResult(t, path, runs[0], order);
      if AllValid(t, path, runs[0]) {
        MergeSeqGrows(t, path, runs[0], order);
      }
      if o.err.None? {
        MergeRunsGrows(o.tree, path, runs[1..], order);
        var r := MergeRuns(o.tree, path, runs[1..], order);
        if r.err.None? {
          forall k, i | 0 <= k < |runs| && 0 <= i < |runs[k]|
            ensures TargetPath(runs[k][i], path) in r.tree
          {
            if k > 0 {
              assert runs[k] == runs[1..][k - 1];
            }
          }
        }
      }
    }
  }

  /** A successful application leaves every entry in a directory, keeps
      every entry the target had and holds the target of every object of
      every template. */
  lemma AppliedGrows(t: Tree, path: String, runs: seq<seq<SkelObject>>, order: set<String> -> seq<String>)
    requires WellFormed(t)
    requires Applied(t, path, runs, order).err.None?
    ensures var r := Applied(t, path, runs, order).tree;
      WellFormed(r) && t.Keys <= r.Keys &&
      forall k, i :: 0 <= k < |runs| && 0 <= i < |runs[k]| ==> TargetPath(runs[k][i], path) in r
  {
    MergeRunsGrows(t, path, runs, order);
    CleanedWellFormed(MergeRuns(t, path, runs, order).tree, path);
  }

  /** The prefix of every path `os.walk(path)` reaches below `path`. */
  function WalkPrefix(path: String): String {
    if EndsWith(path, "/") then path else path + "/"
  }

  /** The files `clean_skel_vars_in_dir(path)` rewrites: every file below
      `path` except those named `.skelvars`. An empty `path` names no
      directory, so nothing is below it. */
  predicate Cleans(path: String, p: String) {
    path != [] && |p| > |WalkPrefix(path)| && StartsWith(p, WalkPrefix(path)) &&
    Basename(p) != ".skelvars"
  }

  /** The target tree after `clean_skel_vars_in_dir(path)`. */
  function CleanedTree(t: Tree, path: String): (r: Tree)
    ensures r.Keys == t.Keys
    ensures forall p :: p in t ==> (r[p].Dir? <==> t[p].Dir?)
    ensures forall p :: p in t && !Cleans(path, p) ==> r[p] == t[p]
    ensures forall p :: p in t && t[p].File? ==> |r[p].content| <= |t[p].content|
  {
    map p | p in t :: if t[p].File? && Cleans(path, p) then File(CleanSkelVars(t[p].content)) else t[p]
  }

  /** Cleaning keeps every entry in a directory. */
  lemma CleanedWellFormed(t: Tree, path: String)
    requires WellFormed(t)
    ensures WellFormed(CleanedTree(t, path))
  {
    var r := CleanedTree(t, path);
    forall p | p in r
      ensures ParentError(r, p).None?
    {
      assert ParentError(t, p).None?;
      var d := Dirname(p);
      if d != [] {
        assert t[d].Dir? && r[d].Dir?;
      }
    }
  }

  /** A file without a `SKEL` marker is left as it is. */
  lemma CleanedWithoutMarkers(t: Tree, path: String, p: String)
    requires p in t && t[p].File?
    requires !Contains(t[p].content, "SKEL")
    ensures CleanedTree(t, path)[p] == t[p]
  {
    CleanWithoutSkel(t[p].content);
  }

  /** `clean_skel_vars_in_dir(path)`: every file below `path` except
      `.skelvars` is read, cleaned and written back. */
  method CleanSkelVarsInDir(disk: Disk, path: String)
    modifies disk
    ensures disk.tree == CleanedTree(old(disk.tree), path)
  {
    ghost var t0 := disk.tree;
    var keys := disk.tree.Keys;
    while keys != {}
      invariant keys <= t0.Keys
      invariant disk.tree.Keys == t0.Keys
      invariant forall p :: p in t0 ==> disk.tree[p] == if p in keys then t0[p] else CleanedTree(t0, path)[p]
      decreases keys
    {
      var p :| p in keys;
      var node := disk.tree[p];
      if node.File? && Cleans(path, p) {
        disk.tree := disk.tree[p := File(CleanSkelVars(node.content))];
      }
      keys := keys - {p};
    }
    assert disk.tree == CleanedTree(t0, path);
  }

  /** `module.replace('.', '/')` */
  function ModulePath(moduleName: String): String {
    Replace(moduleName, ".", "/")
  }

  /** `dir` is the module's directory under `sysPath[i]` for some `i`, and
      no earlier search-path entry holds the module's directory. */
  ghost predicate FirstOnPath(dir: String, moduleName: String, sysPath: seq<String>, templates: map<String, seq<Entry>>)
  {
    exists i :: 0 <= i < |sysPath| && dir == PathJoin(sysPath[i], ModulePath(moduleName)) &&
      forall j :: 0 <= j < i ==> PathJoin(sysPath[j], ModulePath(moduleName)) !in templates
  }

  /** The search for a template on the module search path: the first entry
      of `sysPath` under which the module's directory exists. `templates`
      maps every existing template directory to its listing. */
  method Locate(moduleName: String, sysPath: seq<String>, templates: map<String, seq<Entry>>)
    returns (found: Option<String>)
    ensures found.Some? ==> found.value in templates && FirstOnPath(found.value, moduleName, sysPath, templates)
    ensures found.None? <==> forall i :: 0 <= i < |sysPath| ==> PathJoin(sysPath[i], ModulePath(moduleName)) !in templates
  {
    var modulePath := ModulePath(moduleName);
    var i := 0;
    while i < |sysPath|
      invariant 0 <= i <= |sysPath|
      invariant forall j :: 0 <= j < i ==> PathJoin(sysPath[j], modulePath) !in templates
    {
      var fullPath := PathJoin(sysPath[i], modulePath);
      if fullPath in templates {
        return Some(fullPath);
      }
      i := i + 1;
    }
    return None;
  }

  /** The first loop of `_merge_objects(path)`: is every object mergeable
      into the target tree as it stands? */
  method CheckValid(t: Tree, path: String, objs: seq<SkelObject>) returns (valid: bool)
    ensures valid <==> AllValid(t, path, objs)
  {
    var i := 0;
    while i < |objs|
      invariant 0 <= i <= |objs|
      invariant forall k :: 0 <= k < i ==> IsValid(t, path, objs[k])
    {
      if !IsValid(t, path, objs[i]) {
        return false;
      }
      i := i + 1;
    }
    return true;
  }

  /** The second half of `_merge_objects(path)`: the objects merged in
      order, stopping at the first error. */
  method MergeEach(disk: Disk, path: String, objs: seq<SkelObject>, order: set<String> -> seq<String>)
    returns (err: Option<SkelError>)
    modifies disk
    ensures Outcome(disk.tree, err) == MergeSeq(old(disk.tree), path, objs, order)
  {
    ghost var t0 := disk.tree;
    var i := 0;
    while i < |objs|
      invariant 0 <= i <= |objs|
      invariant MergeSeq(t0, path, objs, order) == MergeSeq(disk.tree, path, objs[i..], order)
    {
      assert objs[i..][1..] == objs[i + 1..];
      var e := MergeObject(disk, path, objs[i], order);
      if e.Some? {
        return Some(Fs(e.value));
      }
      i := i + 1;
    }
    return None;
  }

  /** One step of the loop of `apply_to(path)` over the extensions: the
      extension `exts[i]` is given the parameters `p` and merged. */
  method MergeExtension(disk: Disk, path: String, exts: seq<Skeleton>, i: nat, p: Vars,
                        order: set<String> -> seq<String>)
    returns (err: Option<SkelError>)
    requires i < |exts|
    requires Shared(exts, i, p)
    modifies disk, {exts[i]}`params
    ensures Shared(exts, i + 1, p)
    ensures Outcome(disk.tree, err) == MergeObjectsResult(old(disk.tree), path, exts[i].ObjectsWith(p), order)
  {
    exts[i].params := p;
    err := exts[i].MergeObjects(disk, path, order);
  }

  /** The objects of every extension, made with the parameters `p`. */
  function ExtRuns(exts: seq<Skeleton>, p: Vars): (runs: seq<seq<SkelObject>>)
    reads (set e | e in exts)`addedObjects
    ensures |runs| == |exts|
    ensures forall k :: 0 <= k < |exts| ==> runs[k] == exts[k].ObjectsWith(p)
  {
    if exts == [] then [] else [exts[0].ObjectsWith(p)] + ExtRuns(exts[1..], p)
  }

  /** The first `n` skeletons have the parameters `p`. */
  ghost predicate Shared(exts: seq<Skeleton>, n: nat, p: Vars)
    reads (set e | e in exts)`params
  {
    forall k :: 0 <= k < n && k < |exts| ==> exts[k].params == p
  }

  /** `Skeleton(module, params)`: the template is the directory of the
      first search-path entry that holds the module's directory. */
  method Load(moduleName: String, params: Vars, sysPath: seq<String>, templates: map<String, seq<Entry>>)
    returns (r: Result<Skeleton, SkelError>)
    ensures r.Err? <==> forall i :: 0 <= i < |sysPath| ==> PathJoin(sysPath[i], ModulePath(moduleName)) !in templates
    ensures r.Err? ==> r.error == ModuleNotFound(moduleName)
    ensures r.Ok? ==> (fresh(r.value) && r.value.moduleName == moduleName && r.value.params == params &&
      r.value.root in templates && FirstOnPath(r.value.root, moduleName, sysPath, templates) &&
      r.value.entries == templates[r.value.root] &&
      r.value.extensions == [] && r.value.addedObjects == [])
  {
    var found := Locate(moduleName, sysPath, templates);
    if found.None? {
      return Err(ModuleNotFound(moduleName));
    }
    var skel := new Skeleton(moduleName, params, found.value, templates[found.value]);
    return Ok(skel);
  }

  /** A template module: `root` is the directory it was found in and
      `entries` that directory's listing. */
  class Skeleton {
    const moduleName: String
    const root: String
    const entries: seq<Entry>
    var params: Vars
    var extensions: seq<Skeleton>
    var addedObjects: seq<SkelObject>

    constructor(moduleName: String, params: Vars, root: String, entries: seq<Entry>)
      ensures this.moduleName == moduleName && this.params == params
      ensures this.root == root && this.entries == entries
      ensures extensions == [] && addedObjects == []
    {
      this.moduleName := moduleName;
      this.params := params;
      this.root := root;
      this.entries := entries;
      extensions := [];
      addedObjects := [];
    }

    /** The objects of this template made with the parameters `p`: the walk
      of its directory, then the objects added to it. */
    function ObjectsWith(p: Vars): seq<SkelObject>
      reads this`addedObjects
    {
      Walked(entries, [], root, p) + addedObjects
    }

    /** `add_extension(skel)` */
    method AddExtension(skel: Skeleton)
      modifies this
      ensures extensions == old(extensions) + [skel]
      ensures params == old(params) && addedObjects == old(addedObjects)
    {
      extensions := extensions + [skel];
    }

    /** `add_object(o)` */
    method AddObject(o: SkelObject)
      modifies this
      ensures addedObjects == old(addedObjects) + [o]
      ensures params == old(params) && extensions == old(extensions)
    {
      addedObjects := addedObjects + [o];
    }

    /** `_walk(root, objects, relative_path)`: appends the objects of the
      listing `es` of the directory `rel` to `objects`. */
    method Walk(es: seq<Entry>, rel: String, objects: seq<SkelObject>) returns (result: seq<SkelObject>)
      ensures result == objects + Walked(es, rel, root, params)
      decreases es
    {
      result := objects;
      var i := 0;
      while i < |es|
        invariant 0 <= i <= |es|
        invariant objects + Walked(es, rel, root, params) == result + Walked(es[i..], rel, root, params)
      {
        WalkedStep(es, i, rel, root, params);
        ghost var before := result;
        result := WalkEntry(es[i], rel, result);
        AppendAssoc(before, Item(es[i], rel, root, params), Walked(es[i + 1..], rel, root, params));
        i := i + 1;
      }
    }

    /** One step of `_walk`'s loop: the entry is skipped, or its object is
      appended, followed for a directory by the objects of its listing. */
    method WalkEntry(e: Entry, rel: String, objects: seq<SkelObject>) returns (result: seq<SkelObject>)
      ensures result == objects + Item(e, rel, root, params)
      decreases e
    {
      result := objects;
      if !Skipped(rel, e.name) {
        var relname := PathJoin(rel, e.name);
        if e.DirEntry? {
          result := result + [SkelDir(root, relname, params)];
          result := Walk(e.children, relname, result);
        } else {
          result := result + [NewFile(root, relname, params, e.content)];
        }
      }
    }

    /** `objects` */
    method Objects() returns (objs: seq<SkelObject>)
      ensures objs == ObjectsWith(params)
    {
      objs := Walk(entries, [], []);
      objs := objs + addedObjects;
    }

    /** `_merge_objects(path)` */
    method MergeObjects(disk: Disk, path: String, order: set<String> -> seq<String>)
      returns (err: Option<SkelError>)
      modifies disk
      ensures Outcome(disk.tree, err) == MergeObjectsResult(old(disk.tree), path, ObjectsWith(params), order)
    {
      var objs := Objects();
      var valid := CheckValid(disk.tree, path, objs);
      if !valid {
        err := Some(NotMergeable);
      } else {
        err := MergeEach(disk, path, objs, order);
      }
    }

    /** The loop of `apply_to(path)` over the extensions: each is given
      this skeleton's parameters and merged, stopping at the first error.
      `runs` are the objects of the extensions. */
    method MergeExtensions(disk: Disk, path: String, order: set<String> -> seq<String>)
      returns (err: Option<SkelError>, ghost runs: seq<seq<SkelObject>>)
      modifies disk, (set e | e in extensions)`params
      ensures params == old(params) && extensions == old(extensions) && addedObjects == old(addedObjects)
      ensures err.None? ==> Shared(extensions, |extensions|, params)
      ensures runs == ExtRuns(extensions, params)
      ensures Outcome(disk.tree, err) == MergeRuns(old(disk.tree), path, runs, order)
    {
      ghost var t0 := disk.tree;
      var shared := params;
      runs := ExtRuns(extensions, shared);
      err := None;
      var i := 0;
      while i < |extensions| && err.None?
        invariant 0 <= i <= |extensions| == |runs|
        invariant params == shared && extensions == old(extensions) && addedObjects == old(addedObjects)
        invariant Shared(extensions, i, shared)
        invariant runs == ExtRuns(extensions, shared)
        invariant err.Some? ==> MergeRuns(t0, path, runs, order) == Outcome(disk.tree, err)
        invariant err.None? ==> MergeRuns(t0, path, runs, order) == MergeRuns(disk.tree, path, runs[i..], order)
      {
        MergeRunsStep(disk.tree, path, runs, i, order);
        err := MergeExtension(disk, path, extensions, i, shared, order);
        i := i + 1;
      }
    }

    /** The end of `apply_to(path)`: the extensions are merged, sharing this
      skeleton's parameters, and the target is cleaned once if they all
      merged. */
    method ApplyExtensions(disk: Disk, path: String, order: set<String> -> seq<String>)
      returns (err: Option<SkelError>)
      modifies disk, (set e | e in extensions)`params
      ensures params == old(params) && extensions == old(extensions) && addedObjects == old(addedObjects)
      ensures err.None? ==> forall e :: e in extensions ==> e.params == params
      ensures Outcome(disk.tree, err) == Applied(old(disk.tree), path, ExtRuns(extensions, params), order)
    {
      ghost var runs;
      err, runs := MergeExtensions(disk, path, order);
      if err.None? {
        CleanSkelVarsInDir(disk, path);
        assert ExtRuns(extensions, params) == runs;
      }
    }

    /** `apply_to(path)`: the parameters loaded from the target's
      `.skelvars` are overridden by this skeleton's own, the result is
      shared with every extension, the template and then each extension
      are merged, and the target is cleaned once at the end. */
    method ApplyTo(disk: Disk, path: String, loaded: Vars, order: set<String> -> seq<String>)
      returns (err: Option<SkelError>)
      modifies this`params, disk, (set e | e in extensions)`params
      ensures params == Update(loaded, old(params))
      ensures extensions == old(extensions) && addedObjects == old(addedObjects)
      ensures err.None? ==> forall e :: e in extensions ==> e.params == params
      ensures Outcome(disk.tree, err) ==
        Applied(old(disk.tree), path, [ObjectsWith(params)] + ExtRuns(extensions, params), order)
    {
      ghost var t0 := disk.tree;
      params := Update(loaded, params);
      ghost var first := ObjectsWith(params);
      ghost var rest := ExtRuns(extensions, params);
      AppliedFirst(t0, path, first, rest, order);
      err := MergeObjects(disk, path, order);
      if err.None? {
        err := ApplyExtensions(disk, path, order);
        assert ObjectsWith(params) == first;
      } else {
        assert ExtRuns(extensions, params) == rest;
      }
    }
  }
}
