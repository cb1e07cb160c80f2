# skeleton.py merge engine in Dafny

`skeleton.py` builds a project directory from templates. A template is a
directory found on the module search path. Each of its entries becomes a
directory object or a file object. Applying a template to a target
directory does four things:

- It reads the target's `.skelvars` variables, and the caller's variables win over them.
- It checks every object against the target and refuses to merge anything if one is invalid.
- It merges the objects in directory-walk order, and then the objects of every extension template.
- It removes the leftover `SKEL...` marker tokens from every file.

A file whose name carries a merge tag (`foo.__APPEND__.txt`) does not
overwrite its target. It is appended to the target, prepended to it, or
inserted in front of every `SKELBLOCK_<tag>` marker in it. For Python
targets, the template's leading import block is taken out first and merged
into the header of the result.

The model keeps the engine's structure, one module per concern:

| module | file | models |
|---|---|---|
| `Text` | text.dfy | `str.replace`, `split("\n")`, `"\n".join`, `strip` |
| `Variables` | variables.dfy | variable dictionaries and `replace_vars` |
| `Cleanup` | cleanup.dfy | `clean_skel_vars` and its regular expression |
| `PosixPath` | paths.dfy | `os.path.split`, `join`, `splitext`, `dirname`, `basename` |
| `MergeTags` | mergetags.dfy | `splitmergemethod` |
| `Imports` | imports.dfy | `extract_imports` and `merge_imports` |
| `FileTree` | disk.dfy | the target directory as an in-memory tree, with `os.mkdir`, file writes and reads and their `OSError`s |
| `TemplateObjects` | objects.dfy | `SkeletonDir` and `SkeletonFile` |
| `Skeletons` | skeleton.dfy | the `Skeleton` class: discovery, `_walk`, `_merge_objects`, `apply_to`, `clean_skel_vars_in_dir` |

The loops of the source stay loops, in methods proved against specification
functions:

- `replace_vars`.
- `extract_imports` and `merge_imports`.
- `_walk`, mutually recursive with its per-entry step.
- The validation loop and the merge loop of `_merge_objects`.
- The extensions loop of `apply_to`.
- The cleanup over the target tree.

`Skeleton` is a class whose methods update `params`, `extensions` and
`addedObjects` in place. The target directory is a `Disk` object whose
`tree` the merge methods change. Failures that Python raises as exceptions
come back as an error value: a missing template, an object that cannot be
merged, or an `OSError`.

Four behaviours of the code are easy to misread; the model follows the
code:

- **Tag underscores.** The merge method keeps its underscores. `foo.__APPEND__.txt` has the method `__APPEND__`, because only dots are stripped. The dispatch compares against `'__APPEND__'` and `'__PREPEND__'`.
- **Tag characters.** The method part accepts `[A-Z_]` only, with no digits. The tag pattern is anchored at the start of the name only. So in `foo.__APPEND__.tar.gz` the method taken is `tar` (`MergeTags.SplitTwoExtensions`).
- **Block marker.** A named-block merge keeps the `SKELBLOCK_<tag>` marker after the inserted text. Later merges can therefore insert there again. Only the final cleanup removes the marker.
- **Python imports.** Import extraction and merging for `.py` targets run for every merge method, named blocks included. They are not limited to append and prepend.

## Model

| member | source | states |
|---|---|---|
| Text.ReplaceAbsent | skeleton.py:23 | `str.replace` leaves a text without the pattern unchanged |
| Text.ReplaceAtFirst | skeleton.py:23 | `str.replace` keeps the text before the leftmost occurrence, puts the replacement there and goes on with the rest after the occurrence, so replacements never overlap or rescan inserted text |
| Text.SplitLines | skeleton.py:68 | `split("\n")` gives at least one line and no line holds a newline |
| Text.SplitSingle | skeleton.py:68 | a text without a newline is one line |
| Text.JoinSplit | skeleton.py:67-84 | joining the lines of a text with newlines gives the text back |
| Text.SplitJoin | skeleton.py:88-105 | splitting newline-free lines joined with newlines gives the lines back |
| Text.JoinAppend | skeleton.py:84 | joining two non-empty runs of lines puts exactly one newline between their joins |
| Text.SplitAround | skeleton.py:255-258 | the lines of `a + "\n" + b` are the lines of `a` followed by those of `b` |
| Text.RStrip | skeleton.py:62 | the result is a prefix of the input, does not end with the stripped character, and only that character was removed |
| Text.LStrip | skeleton.py:62 | the result is a suffix of the input, does not start with the stripped character, and only that character was removed |
| Variables.PutGet | skeleton.py:128 | after `d[k] = v`, looking up `k` gives `v` and every other key is unaffected |
| Variables.PutKeepsOrder | skeleton.py:128 | assigning a key keeps the order of the existing keys, appends a new key last, and keeps keys distinct |
| Variables.UpdateGet | skeleton.py:127-129 | after `params.update(self.params)` every caller key has the caller's value and every other key keeps the loaded value |
| Variables.UpdateKeepsOrder | skeleton.py:128 | `update` keeps the existing keys in place and keeps keys distinct |
| Variables.Substitute | skeleton.py:21-24 | definition of `replace_vars`: `str.replace(k, v)` for each entry in iteration order, each applied to the previous result; `ReplaceVars`, `SubstituteSnoc`, `SubstituteNoKeys` and `SubstituteIdempotent` are proved about it |
| Variables.ReplaceVars | skeleton.py:21-24 | the loop computes the in-order fold of `str.replace` over the variables, and returns the content unchanged for an empty mapping |
| Variables.SubstituteSnoc | skeleton.py:22-23 | substituting one more variable replaces its key in the result of the earlier ones |
| Variables.SubstituteNoKeys | skeleton.py:21-24 | content containing none of the keys is returned unchanged |
| Variables.SubstituteIdempotent | skeleton.py:21-24 | when the result holds no key any more, substituting again changes nothing |
| Variables.SubstituteCascade | skeleton.py:22-23 | the result depends on order: a token introduced by an earlier value is replaced by a later key, but not by an earlier one |
| Cleanup.TokenRun | skeleton.py:28 | `[A-Z0-9_]+` is greedy: the run found is made of token characters and is followed by none |
| Cleanup.MatchLength | skeleton.py:28 | a match starts exactly where the length is non-zero, and a match is at least five characters |
| Cleanup.MatchIsGreedy | skeleton.py:28 | a match is `SKEL`, token characters, and at most one newline; one without its newline cannot be extended |
| Cleanup.CleanSkelVars | skeleton.py:27-28 | `clean_skel_vars` never lengthens its input |
| Cleanup.CleanKeepsPrefix | skeleton.py:28 | text before the leftmost match is copied unchanged |
| Cleanup.CleanAtLeftmostMatch | skeleton.py:28 | the leftmost match is removed and the scan resumes right after it, without overlap |
| Cleanup.CleanDropsMatch | skeleton.py:28 | a text that starts with a match loses that match |
| Cleanup.CleanKeepsChar | skeleton.py:28 | a character where no match starts is kept |
| Cleanup.CleanWithoutSkel | skeleton.py:28 | text without `SKEL` is unchanged |
| Cleanup.CleanCanLeaveToken | skeleton.py:28 | one pass is not idempotent: removing `SKELX\n` from `SKESKELX\nL1` leaves `SKEL1`, itself a match |
| Cleanup.CleanDropsNewlineToken | skeleton.py:28 | an example of the rule that a token followed by a newline is removed together with the newline: `SKELX\nL1` becomes `L1` (the general rule is `MatchIsGreedy` with `CleanAtLeftmostMatch`) |
| PosixPath.RFind | skeleton.py:57 | `rfind` gives the last index holding the character, or -1 when there is none |
| PosixPath.PathSplit | skeleton.py:57 | `os.path.split` gives a tail without a slash, and a name without a slash is all tail |
| PosixPath.PathJoin | skeleton.py:63 | an absolute second part replaces the first; otherwise the result starts with the first part and ends with the second |
| PosixPath.JoinThenSplit | skeleton.py:57-63 | a directory without a trailing slash joined to a slash-free name splits back into the two |
| PosixPath.SplitExt | skeleton.py:60-61 | root and extension concatenate to the input; the extension is empty or a dot with no further dot or slash |
| PosixPath.SplitExtAt | skeleton.py:60-61 | `root.ext` splits at that last dot when the root has a non-dot character |
| MergeTags.HasTag | skeleton.py:59 | the base name matches `(.+)\.[A-Z_]+\.[a-z]+` at its start; a matching name has at least five characters and does not begin with a newline |
| MergeTags.StripDots | skeleton.py:62 | `strip('.')` leaves no dot at either end and keeps a dot-free text as it is |
| MergeTags.Untag | skeleton.py:60-62 | taking off the tag never lengthens the name |
| MergeTags.SplitMergeMethod | skeleton.py:56-64 | no method is returned exactly when the base name does not match the tag pattern, and then the file name is returned unchanged |
| MergeTags.TagFound | skeleton.py:59 | a name `base.METHOD.ext` matches the tag pattern |
| MergeTags.StripLeadingDot | skeleton.py:62 | the method loses the dot `splitext` leaves in front of it |
| MergeTags.UntagParts | skeleton.py:60-62 | `base.METHOD.ext` is taken apart into `base.ext` and `METHOD` |
| MergeTags.SplitInDir | skeleton.py:56-64 | the directory part of the name is kept, whether or not it is tagged |
| MergeTags.SplitTagged | skeleton.py:56-64 | `dir/foo.__APPEND__.txt` gives `dir/foo.txt` with method `__APPEND__`, underscores kept |
| MergeTags.SplitUntagged | skeleton.py:56-64 | a base name with no two dots is returned unchanged, without a method |
| MergeTags.SplitTwoExtensions | skeleton.py:59-63 | the pattern is not anchored at the end: `foo.__APPEND__.tar.gz` gives method `tar` and keeps `__APPEND__` in the name |
| Imports.IsImportLine | skeleton.py:77 | definition of a match of `(from (.+) )?import (.+)$` on one line (also skeleton.py:94): `import ` and at least one more character, or `from `, a non-empty module, ` import ` and at least one more character; `ImportLineShape` and `BlankOrCommentNotImport` are proved about it |
| Imports.ImportLineShape | skeleton.py:77 | a matching line has at least eight characters and begins with `import ` or `from ` |
| Imports.BlankOrCommentNotImport | skeleton.py:94-96 | blank and comment lines never match the import pattern |
| Imports.FirstBody | skeleton.py:77-79 | the first non-blank, non-import line: every line before it is blank or an import |
| Imports.Extracted | skeleton.py:67-84 | every extracted import matches the import pattern and is a single line |
| Imports.ExtractImports | skeleton.py:67-84 | the loop with its `end` flag returns `Extracted(content)` |
| Imports.ExtractBlankFirst | skeleton.py:72-74 | when the first line is empty it is dropped, the rest is returned verbatim and no imports are taken |
| Imports.ExtractKeepsBody | skeleton.py:76-84 | lines before the first body line are blank or imports and are dropped; the body from that line on is returned verbatim; with no body line nothing is left |
| Imports.HeaderEnd | skeleton.py:93-99 | the header ends at the first line that is neither an import, blank nor a comment |
| Imports.HeaderKept | skeleton.py:96-97 | only blank and comment lines of the header are kept, and no line is invented |
| Imports.HeaderKeptAppend | skeleton.py:96-97 | the kept header lines keep their relative order |
| Imports.MergedLines | skeleton.py:89-104 | definition of the lines `merge_imports` emits: the kept header lines, then the header's imports and the added ones in set order, then the first line that ends the header and everything after it; with no such line only the kept header lines remain; `MergeLines`, `MergedLayout` and `MergedWithoutBody` are proved about it |
| Imports.MergedImports | skeleton.py:87-105 | definition of `merge_imports`: the content split at newlines, `MergedLines` of the lines, joined with newlines |
| Imports.MergeLines | skeleton.py:89-104 | the loop with its `end` flag returns `MergedLines(lines, imports, order)` |
| Imports.MergeImports | skeleton.py:87-105 | `merge_imports` returns `MergedImports(content, imports, order)` |
| Imports.EnumerationDistinct | skeleton.py:100-101 | extending a list by a set emits exactly its elements, each once |
| Imports.MergedLayout | skeleton.py:92-105 | the result's lines are the header's blank and comment lines, then the union of header imports and new imports, each exactly once, then the line that ended the header and every later line unchanged |
| Imports.MergedWithoutBody | skeleton.py:92-105 | when no line ends the header, no import line is left in the result |
| FileTree.ParentError | skeleton.py:205 | no error means the path's directory exists, or the path has no directory part |
| FileTree.MkdirResult | skeleton.py:205 | `os.mkdir` succeeds exactly when the parent is a directory and the path is free, and then adds a directory |
| FileTree.WriteResult | skeleton.py:267-268 | writing succeeds exactly when the parent is a directory and the path is not one, and then sets the file's content |
| FileTree.ReadResult | skeleton.py:246-247 | reading succeeds exactly when the path is a file in a directory, and then gives its content |
| FileTree.MkdirWellFormed | skeleton.py:205 | creating a directory keeps every entry inside a directory |
| FileTree.WriteWellFormed | skeleton.py:267-268 | writing a file keeps every entry inside a directory |
| FileTree.WriteFrame | skeleton.py:267-268 | a write adds or changes its own path and no other entry |
| FileTree.MkdirFrame | skeleton.py:205 | `os.mkdir` adds its own path and changes no other entry |
| FileTree.ReadAfterWrite | skeleton.py:246-247 | reading a file gives what was last written to it |
| FileTree.Disk.Mkdir | skeleton.py:205 | the tree becomes `MkdirResult`, and is unchanged on error |
| FileTree.Disk.Write | skeleton.py:267-268 | the tree becomes `WriteResult`, and is unchanged on error |
| FileTree.Disk.Read | skeleton.py:246-247 | returns `ReadResult` of the current tree |
| TemplateObjects.NewFile | skeleton.py:209-211 | a file object keeps its name and variables, and an untagged name is its own target name |
| TemplateObjects.TargetFilename | skeleton.py:186-188 | a directory's target name is its name with the variables substituted, a file's is its name without the merge method, substituted alike (skeleton.py:213-215); with no variables the name is used as it is |
| TemplateObjects.IsValid | skeleton.py:192-196 | any object may be merged where the target does not exist; where a directory exists only a directory may, where a file exists only a file may (skeleton.py:230-234) |
| TemplateObjects.HasEffect | skeleton.py:198-200 | only a directory whose target already exists has no effect, and a valid such object finds a directory there; a file always has effect (skeleton.py:236-237) |
| TemplateObjects.Process | skeleton.py:220-224 | `process()` returns the template text with the variables substituted |
| TemplateObjects.MergedText | skeleton.py:249-265 | definition of the merged text: the existing text combined with the processed template by the merge method; for a `.py` target the template's imports are taken out first and merged into the header afterwards; `AppendLines`, `PrependLines`, `BlockInserted`, `PythonImportsKept` and `PythonImportsDropped` are proved about it |
| TemplateObjects.MergeText | skeleton.py:249-265 | the text computation of `merge` returns `MergedText` |
| TemplateObjects.MergeResult | skeleton.py:202-205 | definition of `merge(path)` on the tree: a directory is created only when its target is missing, a file is saved or merged by `MergeFileResult` (skeleton.py:239-268); `MergeObject`, `MergeFrame`, `ValidMerges`, `InvalidMerges`, `NoEffectNoChange` and `OverwriteWrites` are proved about it |
| TemplateObjects.MergeFile | skeleton.py:239-268 | the file merge leaves the tree `MergeFileResult` describes, and an error changes nothing |
| TemplateObjects.MergeObject | skeleton.py:202-205 | `merge(path)` of either kind of object leaves the tree `MergeResult` describes, and an error changes nothing |
| TemplateObjects.MergeFrame | skeleton.py:202-205 | a successful merge puts its target in the tree, changes no other entry and keeps every entry inside a directory |
| TemplateObjects.ValidMerges | skeleton.py:191-234 | a valid object whose target directory exists merges without error |
| TemplateObjects.InvalidMerges | skeleton.py:191-234 | an invalid file fails to merge; an invalid directory leaves the tree unchanged |
| TemplateObjects.NoEffectNoChange | skeleton.py:198-205 | an object without effect leaves the tree as it is |
| TemplateObjects.OverwriteWrites | skeleton.py:242-244 | with no target, or no merge method, the target ends up holding the processed template |
| TemplateObjects.AppendLines | skeleton.py:255-256 | `__APPEND__` gives the old text, a newline and the new text: the old lines then the new lines |
| TemplateObjects.PrependLines | skeleton.py:257-258 | `__PREPEND__` gives the new text, a newline and the old text: the new lines then the old lines |
| TemplateObjects.BlockInserted | skeleton.py:259-262 | at the first marker, the new text and a newline are put in front of the marker, and the rest is treated the same way |
| TemplateObjects.BlockMarkerKept | skeleton.py:259-262 | the marker is still present right after the inserted text |
| TemplateObjects.BlockAbsent | skeleton.py:259-262 | a target without the marker is left unchanged by the block insertion |
| TemplateObjects.PythonImportsKept | skeleton.py:249-265 | for a `.py` target whose combined text still has a line ending its header, every import taken out of the template ends up among the lines of the result, whatever the merge method |
| TemplateObjects.PythonImportsDropped | skeleton.py:249-265 | without such a line every import is lost: appending a template holding only `import sys` to a `.py` file holding only `import os` writes an empty file |
| TemplateObjects.OnlyImportExtracted | skeleton.py:76-84 | a template made of one import line has an empty body and that line as its only import |
| TemplateObjects.OnlyImportsMerged | skeleton.py:92-105 | an import line followed by an empty line has no line ending the header, so `merge_imports` leaves nothing of it, whatever imports are added |
| Skeletons.Walked | skeleton.py:167-177 | definition of `_walk`: each entry in listing order gives its object, a directory followed by the objects of its contents, skipping `__init__.py` and `__init__.pyc` at the root; `Skeleton.Walk`, `WalkedBelowRoot`, `WalkedNested`, `WalkedSkipsRootInit` and `WalkedParentsFirst` are proved about it |
| Skeletons.WalkedSnoc | skeleton.py:167-177 | walking a listing with one more entry appends that entry's objects |
| Skeletons.WalkedBelowRoot | skeleton.py:167-177 | below the root, every entry at every depth gives exactly one object |
| Skeletons.WalkedNested | skeleton.py:172 | every object below the root has a relative name with a slash |
| Skeletons.ItemNested | skeleton.py:172 | the objects of one entry below the root all have a slash in their names |
| Skeletons.WalkedSkipsRootInit | skeleton.py:169-170 | `__init__.py` and `__init__.pyc` of the root give no object |
| Skeletons.WalkedParentsFirst | skeleton.py:173-175 | every directory object comes before the objects inside it |
| Skeletons.ItemParentsFirst | skeleton.py:173-175 | one entry's objects list its directory before its contents |
| Skeletons.MergeSeq | skeleton.py:144-145 | the merge loop can only stop with a file-system error |
| Skeletons.MergeObjectsResult | skeleton.py:139-145 | `_merge_objects` refuses exactly when some object is invalid, and then merges nothing |
| Skeletons.MergeSeqGrows | skeleton.py:144-145 | merging removes no entry, keeps entries inside directories and, on success, puts every object's target in the tree |
| Skeletons.Applied | skeleton.py:126-137 | definition of `apply_to` once the variables are set: the runs merged in order, stopping at the first error, then one cleanup pass over the target; `Skeleton.ApplyTo`, `AppliedGate` and `AppliedGrows` are proved about it |
| Skeletons.AppliedGate | skeleton.py:139-143 | an invalid object in the first template stops `apply_to` with nothing merged and nothing cleaned |
| Skeletons.MergeRunsGrows | skeleton.py:131-135 | merging the template and its extensions removes no entry and, on success, puts every target in the tree |
| Skeletons.AppliedGrows | skeleton.py:126-137 | a successful `apply_to` keeps every entry the target had and holds the target of every object of every template |
| Skeletons.CleanedTree | skeleton.py:38-43 | cleanup keeps every path and its kind, touches only files below the target except `.skelvars`, and never lengthens a file |
| Skeletons.CleanedWellFormed | skeleton.py:38-43 | cleanup keeps every entry inside a directory |
| Skeletons.CleanedWithoutMarkers | skeleton.py:38-43 | a file without `SKEL` is left as it is |
| Skeletons.CleanSkelVarsInDir | skeleton.py:38-43 | the loop over the tree leaves exactly `CleanedTree` |
| Skeletons.Locate | skeleton.py:115-121 | the template is the first search-path entry whose directory exists, and none is found exactly when no entry has it |
| Skeletons.Load | skeleton.py:109-124 | `Skeleton(module, params)` fails with "module not found" exactly when no search-path entry has the template; otherwise its template directory is the module's directory under the first search-path entry that holds it, and it has that directory's listing, the given variables, no extensions and no added objects |
| Skeletons.CheckValid | skeleton.py:141-143 | the validation loop answers true exactly when every object is valid |
| Skeletons.MergeEach | skeleton.py:144-145 | the merge loop leaves the tree `MergeSeq` describes |
| Skeletons.MergeExtension | skeleton.py:133-135 | one extension gets the shared variables and is merged as `_merge_objects` describes |
| Skeletons.ExtRuns | skeleton.py:133-135 | one run of objects per extension, each walked with the shared variables |
| Skeletons.Skeleton.constructor | skeleton.py:109-113 | a new skeleton has its variables and template, and no extensions or added objects |
| Skeletons.Skeleton.AddExtension | skeleton.py:148-149 | the extension is appended and nothing else changes |
| Skeletons.Skeleton.AddObject | skeleton.py:157-158 | the object is appended and nothing else changes |
| Skeletons.Skeleton.Walk | skeleton.py:167-177 | `_walk` appends the objects of the listing, in listing order, to the given list |
| Skeletons.Skeleton.WalkEntry | skeleton.py:169-177 | one entry is skipped, or appended followed by its directory's own objects |
| Skeletons.Skeleton.Objects | skeleton.py:160-165 | `objects` is the walk of the template followed by the added objects |
| Skeletons.Skeleton.MergeObjects | skeleton.py:139-145 | `_merge_objects` leaves the tree `MergeObjectsResult` describes |
| Skeletons.Skeleton.MergeExtensions | skeleton.py:133-135 | each extension in turn gets this skeleton's variables and is merged, stopping at the first error |
| Skeletons.Skeleton.ApplyExtensions | skeleton.py:133-137 | every extension gets this skeleton's variables and is merged in turn, and the target is cleaned once when all of them merged |
| Skeletons.Skeleton.ApplyTo | skeleton.py:126-137 | caller variables win over the loaded ones, every extension receives them, all templates are merged in order and the target is cleaned once at the end |

## Left out

- `create` (skeleton.py:7-18) is not modelled. It only calls `os.makedirs` and then chains `Load`, `AddExtension` and `ApplyTo`, each of which is modelled.
- `has_extension` (skeleton.py:151-155) is not modelled. It compares class names by reflection.
- Reading `.skelvars` (skeleton.py:46-53) is JSON file I/O. Its result is the `loaded` parameter of `ApplyTo`.
- Locating a template (skeleton.py:115-121) looks at the real file system. The search path and the template directories on it are parameters of `Locate` and `Load`. A template is given as its listing (`Entry`), and every file entry carries its text, which is what `open` (skeleton.py:217-218) reads.
- Listing order: `os.listdir` order is the order of the `Entry` sequence.
- Variable order: a dictionary is an ordered sequence of pairs. The hash order of Python 2 dictionaries, which decides the order of `replace_vars`, is not modelled.
- Set order: `merge_imports` iterates a set in an order the model does not know. That order is a parameter (`order`), assumed to list every element once (`IsEnumeration`). It is one function of the set's contents, passed unchanged to every merge of one `apply_to`, so equal sets are assumed to be listed alike throughout a run. CPython's set order also depends on the order of insertion, so two files whose import sets are equal may list them differently. The exact-result contracts of `TemplateObjects.MergeFile`, `TemplateObjects.MergeObject`, `Skeletons.Skeleton.MergeObjects`, `Skeletons.Skeleton.MergeExtensions` and `Skeletons.Skeleton.ApplyTo` do not cover such runs.
- `save` (skeleton.py:226-228) and the write at skeleton.py:267-268 are one `Disk.Write`. Paths are not normalised, so `a/b` and `a//b` are different entries.
- `clean_skel_vars_in_dir` (skeleton.py:38-43) changes the tree's file contents directly. Its per-file reads and writes cannot fail in the model, and the order of the `os.walk` traversal is not modelled. Which files it reaches is given by the path prefix (`Cleans`).
- Exceptions are an error result. A failure in the middle of a merge leaves the objects merged before it, as in Python.
- Skeletons.Skeleton.MergeExtensions: every extension gets a copy of the variables, not the same dictionary object. Nothing changes that dictionary afterwards, so the results are the same.
- Cleanup.CleanSkelVars: its own contract states only the length bound. Its behaviour is stated by the lemmas around it.
- Imports.MergedLayout: stated only when some line ends the header. The other case is `Imports.MergedWithoutBody`.
- TemplateObjects.PythonImportsKept: stated only when the combined text has a line that ends its header. Without one, `merge_imports` drops every import, the template's and the target's alike (`Imports.MergedWithoutBody`, `TemplateObjects.PythonImportsDropped`). It states that the imports are kept, not where they go; their place is given by `Imports.MergedLayout`.
