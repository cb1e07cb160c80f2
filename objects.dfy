/** The objects a skeleton is made of: a template directory (`SkeletonDir`)
    or a template file (`SkeletonFile`), each merged into a target
    directory. */
module TemplateObjects {
  import opened Wrappers
  import opened Text
  import opened Variables
  import opened PosixPath
  import opened MergeTags
  import opened Imports
  import opened FileTree

  /** `root` is the template's directory, `filename` the path relative to
      it and `params` the variables substituted into names and contents. A
      file carries the text of its template, and the name and merge method
      `splitmergemethod` made of `filename` when it was created. */
  datatype SkelObject =
    | SkelDir(root: String, filename: String, params: Vars)
    | SkelFile(root: String, filename: String, params: Vars, source: String,
               filenameNoBlock: String, mergeMethod: Option<String>)

  /** `SkeletonFile(root, filename, params)` */
  function NewFile(root: String, filename: String, params: Vars, source: String): (o: SkelObject)
    ensures o.SkelFile? && o.filename == filename && o.params == params
    ensures o.mergeMethod.None? ==> o.filenameNoBlock == filename
  {
    var (noBlock, tag) := SplitMergeMethod(filename);
    SkelFile(root, filename, params, source, noBlock, tag)
  }

  /** `target_filename`: the name with the variables substituted; a file
      uses its name without the merge method. */
  function TargetFilename(o: SkelObject): (name: String)
    ensures o.params == [] ==> name == (if o.SkelDir? then o.filename else o.filenameNoBlock)
  {
    match o
    case SkelDir(_, filename, params) => Substitute(filename, params)
    case SkelFile(_, _, params, _, noBlock, _) => Substitute(noBlock, params)
  }

  function TargetPath(o: SkelObject, path: String): String {
    PathJoin(path, TargetFilename(o))
  }

  /** `is_valid(path)`: a directory cannot be merged where something other
      than a directory exists, a file cannot be merged where a directory
      exists. */
  predicate IsValid(t: Tree, path: String, o: SkelObject): (valid: bool)
    ensures TargetPath(o, path) !in t ==> valid
    ensures IsDir(t, TargetPath(o, path)) ==> (valid <==> o.SkelDir?)
    ensures IsFile(t, TargetPath(o, path)) ==> (valid <==> o.SkelFile?)
  {
    var target := TargetPath(o, path);
    match o
    case SkelDir(_, _, _) => !(target in t && !IsDir(t, target))
    case SkelFile(_, _, _, _, _, _) => !IsDir(t, target)
  }

  /** `has_effect(path)`: a directory only when it does not exist yet, a
      file always. */
  predicate HasEffect(t: Tree, path: String, o: SkelObject): (effect: bool)
    ensures !effect ==> o.SkelDir? && TargetPath(o, path) in t
    ensures !effect && IsValid(t, path, o) ==> IsDir(t, TargetPath(o, path))
  {
    o.SkelDir? ==> TargetPath(o, path) !in t
  }

  /** `process()`: the template's text with the variables substituted. */
  function Processed(o: SkelObject): String
    requires o.SkelFile?
  {
    Substitute(o.source, o.params)
  }

  /** `process()` */
  method Process(o: SkelObject) returns (content: String)
    requires o.SkelFile?
    ensures content == Processed(o)
  {
    content := ReplaceVars(o.source, o.params);
  }

  const Append: String := "__APPEND__"
  const Prepend: String := "__PREPEND__"

  /** `'SKELBLOCK_%s' % merge_method` */
  function BlockMarker(tag: String): String {
    "SKELBLOCK_" + tag
  }

  /** The text the merge makes of the target's text and the new content,
      before any import merging: appended after a newline, prepended before
      a newline, or put in front of every marker of a named block (the
      marker itself stays). */
  function Combined(existing: String, content: String, tag: String): String {
    if tag == Append then existing + "\n" + content
    else if tag == Prepend then content + "\n" + existing
    else
      var marker := BlockMarker(tag);
      Replace(existing, marker, content + "\n" + marker)
  }

  /** The new text of a `.py` target (`isPy`) or of any other target: for
      Python, the imports of the new content are taken out first and merged
      into the header of the combined text afterwards. */
  function MergedText(existing: String, processed: String, tag: String, isPy: bool,
                      order: set<String> -> seq<String>): String
  {
    if isPy then
      var (content, imports) := Extracted(processed);
      MergedImports(Combined(existing, content, tag), imports, order)
    else Combined(existing, processed, tag)
  }

  /** The text a file merge writes to `target`: the processed template
      when the target does not exist or the file has no merge method,
      otherwise the merged text of the target's content. */
  function NewContent(t: Tree, target: String, processed: String, tag: Option<String>,
                      order: set<String> -> seq<String>): String
  {
    if target !in t || tag.None? || !t[target].File? then processed
    else MergedText(t[target].content, processed, tag.value, EndsWith(target, ".py"), order)
  }

  /** `SkeletonDir.merge`: the directory is created unless it exists. */
  function MergeDirResult(t: Tree, target: String): Result<Tree, FsError> {
    if target in t then Ok(t) else MkdirResult(t, target)
  }

  /** `SkeletonFile.merge`: the file is written with its new content; when
      it has a merge method and the target exists, the target is read
      first, which can fail. */
  function MergeFileResult(t: Tree, target: String, processed: String, tag: Option<String>,
                           order: set<String> -> seq<String>): Result<Tree, FsError>
  {
    if target in t && tag.Some? && ReadResult(t, target).Err? then Err(ReadResult(t, target).error)
    else WriteResult(t, target, NewContent(t, target, processed, tag, order))
  }

  /** `merge(path)` */
  function MergeResult(t: Tree, path: String, o: SkelObject, order: set<String> -> seq<String>)
    : Result<Tree, FsError>
  {
    match o
    case SkelDir(_, _, _) => MergeDirResult(t, TargetPath(o, path))
    case SkelFile(_, _, _, _, _, tag) => MergeFileResult(t, TargetPath(o, path), Processed(o), tag, order)
  }

  /** The text computation of `merge(path)`, once the target has been read. */
  method MergeText(existing: String, processed: String, tag: String, isPy: bool,
                   order: set<String> -> seq<String>) returns (r: String)
    ensures r == MergedText(existing, processed, tag, isPy, order)
  {
    var targetContent := existing;
    var content: String;
    var imports: Option<set<String>>;
    if isPy {
      var found;
      content, found := ExtractImports(processed);
      imports := Some(found);
    } else {
      content := processed;
      imports := None;
    }
    if tag == Append {
      targetContent := targetContent + "\n" + content;
    } else if tag == Prepend {
      targetContent := content + "\n" + targetContent;
    } else {
      var marker := BlockMarker(tag);
      content := content + "\n" + marker;
      targetContent := ReplaceVars(targetContent, [(marker, content)]);
    }
    if imports.Some? {
      targetContent := MergeImports(targetContent, imports.value, order);
    }
    r := targetContent;
  }

  /** `SkeletonFile.merge` on the target tree. */
  method MergeFile(disk: Disk, target: String, processed: String, tag: Option<String>,
                   order: set<String> -> seq<String>) returns (err: Option<FsError>)
    modifies disk
    ensures MergeFileResult(old(disk.tree), target, processed, tag, order)
      == if err.None? then Ok(disk.tree) else Err(err.value)
    ensures err.Some? ==> disk.tree == old(disk.tree)
  {
    if !disk.Exists(target) || tag.None? {
      err := disk.Write(target, processed);
      return;
    }
    var read := disk.Read(target);
    if read.Err? {
      err := Some(read.error);
      return;
    }
    var merged := MergeText(read.value, processed, tag.value, EndsWith(target, ".py"), order);
    err := disk.Write(target, merged);
  }

  /** `merge(path)` on the target tree. */
  method MergeObject(disk: Disk, path: String, o: SkelObject, order: set<String> -> seq<String>)
    returns (err: Option<FsError>)
    modifies disk
    ensures MergeResult(old(disk.tree), path, o, order) == if err.None? then Ok(disk.tree) else Err(err.value)
    ensures err.Some? ==> disk.tree == old(disk.tree)
  {
    var target := PathJoin(path, TargetFilename(o));
    if o.SkelDir? {
      if !disk.Exists(target) {
        err := disk.Mkdir(target);
      } else {
        err := None;
      }
    } else {
      var processed := Process(o);
      err := MergeFile(disk, target, processed, o.mergeMethod, order);
    }
  }

  /** A merge changes at most its own target, keeps every entry in a
      directory, and leaves the tree as it was when it fails. */
  lemma MergeFrame(t: Tree, path: String, o: SkelObject, order: set<String> -> seq<String>)
    requires WellFormed(t)
    requires MergeResult(t, path, o, order).Ok?
    ensures var t' := MergeResult(t, path, o, order).value;
      WellFormed(t') &&
      TargetPath(o, path) in t' &&
      forall p :: p != TargetPath(o, path) ==> (p in t <==> p in t') && (p in t ==> t'[p] == t[p])
  {
    var target := TargetPath(o, path);
    match o
    case SkelDir(_, _, _) =>
      if target !in t {
        MkdirFrame(t, target);
      }
    case SkelFile(_, _, _, _, _, tag) =>
      var c := NewContent(t, target, Processed(o), tag, order);
      assert MergeResult(t, path, o, order) == WriteResult(t, target, c);
      WriteFrame(t, target, c);
  }

  /** A valid object whose target's directory exists merges without error. */
  lemma ValidMerges(t: Tree, path: String, o: SkelObject, order: set<String> -> seq<String>)
    requires IsValid(t, path, o)
    requires ParentError(t, TargetPath(o, path)).None?
    ensures MergeResult(t, path, o, order).Ok?
  {
  }

  /** A file whose target is a directory fails to merge, and a directory
      whose target is a file merges without changing anything: validation
      is what stops either from being merged. */
  lemma InvalidMerges(t: Tree, path: String, o: SkelObject, order: set<String> -> seq<String>)
    requires !IsValid(t, path, o)
    ensures o.SkelFile? ==> MergeResult(t, path, o, order).Err?
    ensures o.SkelDir? ==> MergeResult(t, path, o, order) == Ok(t)
  {
  }

  /** A directory without effect leaves the tree unchanged. */
  lemma NoEffectNoChange(t: Tree, path: String, o: SkelObject, order: set<String> -> seq<String>)
    requires !HasEffect(t, path, o)
    ensures MergeResult(t, path, o, order) == Ok(t)
  {
  }

  /** Without a target or a merge method, the target ends up holding the
      processed template. */
  lemma OverwriteWrites(t: Tree, path: String, o: SkelObject, order: set<String> -> seq<String>)
    requires o.SkelFile?
    requires TargetPath(o, path) !in t || o.mergeMethod.None?
    requires MergeResult(t, path, o, order).Ok?
    ensures ReadResult(MergeResult(t, path, o, order).value, TargetPath(o, path)) == Ok(Processed(o))
  {
    ReadAfterWrite(t, TargetPath(o, path), Processed(o));
  }

  /** `__APPEND__`: the lines of the target, then the lines of the content. */
  lemma AppendLines(existing: String, content: String)
    ensures Combined(existing, content, Append) == existing + "\n" + content
    ensures SplitLines(Combined(existing, content, Append)) == SplitLines(existing) + SplitLines(content)
  {
    SplitAround(existing, content);
  }

  /** `__PREPEND__`: the lines of the content, then the lines of the target. */
  lemma PrependLines(existing: String, content: String)
    ensures Combined(existing, content, Prepend) == content + "\n" + existing
    ensures SplitLines(Combined(existing, content, Prepend)) == SplitLines(content) + SplitLines(existing)
  {
    assert Prepend != Append;
    SplitAround(content, existing);
  }

  /** A named block: the content goes in front of the first marker, the
      marker stays after it, and the rest of the target is handled the same
      way from there. */
  lemma BlockInserted(existing: String, content: String, tag: String, i: nat)
    requires tag != Append && tag != Prepend
    requires FirstAt(existing, BlockMarker(tag), i)
    ensures Combined(existing, content, tag) ==
      existing[..i] + (content + "\n" + BlockMarker(tag))
        + Combined(existing[i + |BlockMarker(tag)|..], content, tag)
  {
    var marker := BlockMarker(tag);
    var r := content + "\n" + marker;
    CombinedBlock(existing, content, tag);
    CombinedBlock(existing[i + |marker|..], content, tag);
    ReplaceAtFirst(existing, marker, r, i);
  }

  lemma CombinedBlock(existing: String, content: String, tag: String)
    requires tag != Append && tag != Prepend
    ensures Combined(existing, content, tag) ==
      Replace(existing, BlockMarker(tag), content + "\n" + BlockMarker(tag))
  {
  }

  /** The marker of a named block survives the merge. */
  lemma BlockMarkerKept(existing: String, content: String, tag: String, i: nat)
    requires tag != Append && tag != Prepend
    requires FirstAt(existing, BlockMarker(tag), i)
    ensures OccursAt(Combined(existing, content, tag), BlockMarker(tag), i + |content| + 1)
  {
    var marker := BlockMarker(tag);
    BlockInserted(existing, content, tag, i);
    MarkerAfter(existing[..i], content, marker, Combined(existing[i + |marker|..], content, tag));
  }

  /** The marker put after the inserted content is found right there. */
  lemma MarkerAfter(front: String, content: String, marker: String, rest: String)
    ensures OccursAt(front + (content + "\n" + marker) + rest, marker, |front| + |content| + 1)
  {
    var s := front + (content + "\n" + marker) + rest;
    var k := |front| + |content| + 1;
    assert s[k..k + |marker|] == marker;
  }

  /** A target without the marker of a named block is left as it is. */
  lemma BlockAbsent(existing: String, content: String, tag: String)
    requires tag != Append && tag != Prepend
    requires !Contains(existing, BlockMarker(tag))
    ensures Combined(existing, content, tag) == existing
  {
    CombinedBlock(existing, content, tag);
    ReplaceAbsent(existing, BlockMarker(tag), content + "\n" + BlockMarker(tag));
  }

  /** For a `.py` target whose merged text still has a line ending its
      header, every import taken out of the new content appears as a line
      of the result. */
  lemma PythonImportsKept(existing: String, processed: String, tag: String,
                          order: set<String> -> seq<String>)
    requires IsEnumeration(order)
    requires var combined := Combined(existing, Extracted(processed).0, tag);
      HeaderEnd(SplitLines(combined)) < |SplitLines(combined)|
    ensures forall x :: x in Extracted(processed).1 ==> x in SplitLines(MergedText(existing, processed, tag, true, order))
  {
    var (content, imports) := Extracted(processed);
    var combined := Combined(existing, content, tag);
    MergedLayout(combined, imports, order);
  }

  /** With no line left to end the header of the merged text, the imports
      are dropped together with the target's own: appending a template that
      holds only `import sys` to a `.py` file that holds only `import os`
      writes an empty file. */
  lemma PythonImportsDropped(order: set<String> -> seq<String>)
    ensures MergedText("import os", "import sys", Append, true, order) == []
  {
    var existing, template := "import os", "import sys";
    assert existing[..7] == "import " && template[..7] == "import ";
    OnlyImportExtracted(template);
    assert Combined(existing, [], Append) == existing + "\n" + [];
    OnlyImportsMerged(existing, {template}, order);
  }

  /** A template made of one import line has no body left. */
  lemma OnlyImportExtracted(line: String)
    requires NoNewline(line) && IsImportLine(line)
    ensures Extracted(line) == ([], {line})
  {
    SplitSingle(line);
    assert FirstBody([line]) == 1;
    assert [line][1..] == [];
    assert NonBlankBefore([line], 1) == {line};
  }

  /** An import line followed by an empty line has no line that ends the
      header, so nothing is left of it. */
  lemma OnlyImportsMerged(line: String, imports: set<String>, order: set<String> -> seq<String>)
    requires NoNewline(line) && IsImportLine(line)
    ensures MergedImports(line + "\n" + [], imports, order) == []
  {
    SplitSingle(line);
    SplitAround(line, []);
    var lines := SplitLines(line + "\n" + []);
    assert lines == [line, []];
    assert HeaderEnd(lines) == 2;
    assert lines[..1] == [line];
    assert HeaderKept(lines) == [[]];
  }
}
