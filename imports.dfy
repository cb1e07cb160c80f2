/** `extract_imports` and `merge_imports`: the two line scanners that move
    the import block of a Python template into the header of the file it is
    merged into. */
module Imports {
  import opened Text

  /** `re.match(r"(from (.+) )?import (.+)$", l)` on a line (a piece of
      `split("\n")`, so without a newline): either `import ` and at least
      one more character, or `from `, a non-empty module, ` import ` and at
      least one more character. */
  predicate IsImportLine(l: String) {
    (StartsWith(l, "import ") && |l| > 7) ||
    (StartsWith(l, "from ") && exists i :: 5 < i < |l| - 8 && OccursAt(l, " import ", i))
  }

  /** An import line has at least eight characters (`import x` is the
      shortest) and starts with `import ` or `from `. */
  lemma ImportLineShape(l: String)
    requires IsImportLine(l)
    ensures 8 <= |l| && (StartsWith(l, "import ") || StartsWith(l, "from "))
  {
  }

  /** A blank line or a comment is not an import line. */
  lemma BlankOrCommentNotImport(l: String)
    requires l == [] || StartsWith(l, "#")
    ensures !IsImportLine(l)
  {
    if l != [] {
      assert l[..1] == "#";
      assert l[0] == '#';
      if |l| >= 7 {
        assert l[..7][0] == l[0];
      }
      if |l| >= 5 {
        assert l[..5][0] == l[0];
      }
    }
  }

  /** A line that ends the import block of `extract_imports`. */
  predicate IsBodyLine(l: String) {
    l != [] && !IsImportLine(l)
  }

  /** Index of the first body line, `|lines|` when there is none. */
  function FirstBody(lines: seq<String>): (k: nat)
    ensures k <= |lines|
    ensures forall j :: 0 <= j < k ==> !IsBodyLine(lines[j])
    ensures k < |lines| ==> IsBodyLine(lines[k])
  {
    if lines == [] then 0
    else if IsBodyLine(lines[0]) then 0
    else 1 + FirstBody(lines[1..])
  }

  /** The non-blank lines among the first `n`. */
  function NonBlankBefore(lines: seq<String>, n: nat): set<String>
    requires n <= |lines|
  {
    set j | 0 <= j < n && lines[j] != [] :: lines[j]
  }

  lemma NonBlankStep(lines: seq<String>, i: nat)
    requires i < |lines|
    ensures NonBlankBefore(lines, i + 1) ==
      NonBlankBefore(lines, i) + (if lines[i] != [] then {lines[i]} else {})
  {
  }

  /** What `extract_imports(content)` returns. When the first line is blank
      it is dropped and nothing is extracted. Otherwise the non-blank lines
      before the first body line are the imports, the blank lines among them
      are dropped, and the body line and everything after it is the new
      content. */
  function Extracted(content: String): (r: (String, set<String>))
    ensures forall l :: l in r.1 ==> IsImportLine(l) && NoNewline(l)
  {
    var lines := SplitLines(content);
    if lines[0] == [] then (JoinLines(lines[1..]), {})
    else
      var k := FirstBody(lines);
      (JoinLines(lines[k..]), NonBlankBefore(lines, k))
  }

  /** `extract_imports`: one pass over the lines with an `end` flag. */
  method ExtractImports(content: String) returns (body: String, imports: set<String>)
    ensures (body, imports) == Extracted(content)
  {
    var lines := SplitLines(content);
    var end := false;
    imports := {};
    var final: seq<String> := [];
    if lines[0] == [] {
      final := lines[1..];
    } else {
      ghost var k := FirstBody(lines);
      for i := 0 to |lines|
        invariant end <==> k < i
        invariant final == if end then lines[k..i] else []
        invariant imports == NonBlankBefore(lines, if end then k else i)
      {
        var l := lines[i];
        if !end && l != [] && !IsImportLine(l) {
          end := true;
          final := final + [l];
        } else if !end && l != [] {
          imports := imports + {l};
          NonBlankStep(lines, i);
        } else if end {
          final := final + [l];
        } else {
          NonBlankStep(lines, i);
        }
      }
      assert end ==> lines[k..|lines|] == lines[k..];
    }
    body := JoinLines(final);
  }

  /** A text whose first line is blank loses that line and yields no
      imports. */
  lemma ExtractBlankFirst(content: String)
    requires content == [] || content[0] == '\n'
    ensures Extracted(content) == (if content == [] then [] else content[1..], {})
  {
    if content != [] {
      var b := content[1..];
      assert content == [] + "\n" + b;
      SplitAround([], b);
      assert SplitLines(content)[1..] == SplitLines(b);
      JoinSplit(b);
    }
  }

  /** Extraction only removes header lines: when there is a body line, the
      text is the extracted header lines, a newline and the returned body;
      every header line is blank or an import line, and the returned body
      starts with the first line that is neither. */
  lemma ExtractKeepsBody(content: String)
    requires SplitLines(content)[0] != []
    ensures var lines := SplitLines(content);
      var k := FirstBody(lines);
      var body := Extracted(content).0;
      (forall j :: 0 <= j < k ==> lines[j] == [] || IsImportLine(lines[j])) &&
      (k == 0 ==> body == content) &&
      (0 < k < |lines| ==> content == JoinLines(lines[..k]) + "\n" + body) &&
      (k < |lines| ==> SplitLines(body)[0] == lines[k] && IsBodyLine(SplitLines(body)[0])) &&
      (k == |lines| ==> body == [])
  {
    var lines := SplitLines(content);
    var k := FirstBody(lines);
    JoinSplit(content);
    if k < |lines| {
      assert lines[k..][0] == lines[k];
      SplitJoin(lines[k..]);
      if k > 0 {
        assert lines == lines[..k] + lines[k..];
        JoinAppend(lines[..k], lines[k..]);
      } else {
        assert lines[0..] == lines;
      }
    }
  }

  /** The line kept in the header by `merge_imports`: a blank line or a
      comment (an import line is taken out first). */
  predicate KeptInHeader(l: String) {
    !IsImportLine(l) && (l == [] || StartsWith(l, "#"))
  }

  /** A line that ends the header of `merge_imports`. */
  predicate EndsHeader(l: String) {
    !IsImportLine(l) && !KeptInHeader(l)
  }

  /** Index of the line that ends the header, `|lines|` when there is none. */
  function HeaderEnd(lines: seq<String>): (h: nat)
    ensures h <= |lines|
    ensures forall j {:trigger EndsHeader(lines[j])} :: 0 <= j < h ==> !EndsHeader(lines[j])
    ensures h < |lines| ==> EndsHeader(lines[h])
  {
    if lines == [] then 0
    else if EndsHeader(lines[0]) then 0
    else 1 + HeaderEnd(lines[1..])
  }

  /** The blank and comment lines of a header, in their order. */
  function HeaderKept(lines: seq<String>): (r: seq<String>)
    ensures |r| <= |lines|
    ensures forall l :: l in r ==> l in lines && KeptInHeader(l)
  {
    if lines == [] then []
    else
      var last := lines[|lines| - 1];
      HeaderKept(lines[..|lines| - 1]) + (if KeptInHeader(last) then [last] else [])
  }

  /** Filtering the header keeps the relative order of its lines. */
  lemma {:induction false} HeaderKeptAppend(a: seq<String>, b: seq<String>)
    ensures HeaderKept(a + b) == HeaderKept(a) + HeaderKept(b)
    decreases |b|
  {
    if b != [] {
      var b' := b[..|b| - 1];
      assert (a + b)[..|a + b| - 1] == a + b';
      HeaderKeptAppend(a, b');
    } else {
      assert a + b == a;
    }
  }

  /** The import lines among the first `n`. */
  function ImportsBefore(lines: seq<String>, n: nat): set<String>
    requires n <= |lines|
  {
    set j | 0 <= j < n && IsImportLine(lines[j]) :: lines[j]
  }

  lemma ImportsStep(lines: seq<String>, i: nat)
    requires i < |lines|
    ensures ImportsBefore(lines, i + 1) ==
      ImportsBefore(lines, i) + (if IsImportLine(lines[i]) then {lines[i]} else {})
  {
  }

  lemma HeaderKeptStep(lines: seq<String>, i: nat)
    requires i < |lines|
    ensures HeaderKept(lines[..i + 1]) ==
      HeaderKept(lines[..i]) + (if KeptInHeader(lines[i]) then [lines[i]] else [])
  {
    assert lines[..i + 1][..i] == lines[..i];
  }

  /** One step of the header phase of `merge_imports`: line `i` ends the
      header exactly when `i` is `HeaderEnd(lines)`, and the imports and
      kept lines seen so far grow by line `i`. */
  lemma HeaderAdvance(lines: seq<String>, i: nat)
    requires i < |lines| && i <= HeaderEnd(lines)
    ensures EndsHeader(lines[i]) <==> i == HeaderEnd(lines)
    ensures ImportsBefore(lines, i + 1) ==
      ImportsBefore(lines, i) + (if IsImportLine(lines[i]) then {lines[i]} else {})
    ensures HeaderKept(lines[..i + 1]) ==
      HeaderKept(lines[..i]) + (if KeptInHeader(lines[i]) then [lines[i]] else [])
  {
    ImportsStep(lines, i);
    HeaderKeptStep(lines, i);
  }

  /** Python set iteration order: `order(s)` lists the elements of `s`,
      each once, in an order the model does not fix. */
  ghost predicate IsEnumeration(order: set<String> -> seq<String>) {
    forall s :: multiset(order(s)) == multiset(s)
  }

  /** The lines `merge_imports` emits, with `order` the iteration order of
      the emitted set. The header (the lines before the first line that is
      neither an import, a blank line nor a comment) keeps its blank and
      comment lines; at the line that ends it, the header's imports
      together with `imports` are emitted, then that line and everything
      after it. With no such line, the import lines are dropped and
      `imports` is not used. */
  function MergedLines(lines: seq<String>, imports: set<String>, order: set<String> -> seq<String>): seq<String>
  {
    var h := HeaderEnd(lines);
    if h == |lines| then HeaderKept(lines)
    else HeaderKept(lines[..h]) + order(ImportsBefore(lines, h) + imports) + lines[h..]
  }

  /** What `merge_imports(content, imports)` returns. */
  function MergedImports(content: String, imports: set<String>, order: set<String> -> seq<String>): String
  {
    JoinLines(MergedLines(SplitLines(content), imports, order))
  }

  /** Appending the next line to a prefix followed by a slice extends the
      slice. */
  lemma SliceSnoc(prefix: seq<String>, lines: seq<String>, h: nat, i: nat)
    requires h <= i < |lines|
    ensures prefix + lines[h..i] + [lines[i]] == prefix + lines[h..i + 1]
  {
    assert lines[h..i + 1] == lines[h..i] + [lines[i]];
  }

  /** The loop of `merge_imports` over the lines, with its `end` flag. */
  method MergeLines(lines: seq<String>, imports: set<String>, order: set<String> -> seq<String>)
    returns (final: seq<String>)
    ensures final == MergedLines(lines, imports, order)
  {
    ghost var h := HeaderEnd(lines);
    ghost var kept := HeaderKept(lines[..h]);
    ghost var header := kept + order(ImportsBefore(lines, h) + imports);
    var current: set<String> := {};
    var end := false;
    final := [];
    for i := 0 to |lines|
      invariant if end then h < i && final == header + lines[h..i]
        else i <= h && final == HeaderKept(lines[..i]) && current == ImportsBefore(lines, i)
    {
      var l := lines[i];
      if !end {
        HeaderAdvance(lines, i);
        if IsImportLine(l) {
          current := current + {l};
          assert i + 1 <= h;
          assert final == HeaderKept(lines[..i + 1]);
          assert current == ImportsBefore(lines, i + 1);
        } else if l == [] || StartsWith(l, "#") {
          final := final + [l];
          assert i + 1 <= h;
          assert final == HeaderKept(lines[..i + 1]);
          assert current == ImportsBefore(lines, i + 1);
        } else {
          end := true;
          current := current + imports;
          final := final + order(current);
          assert final == header;
          final := final + [l];
          assert lines[h..i + 1] == [l];
          assert final == header + lines[h..i + 1];
        }
      } else {
        SliceSnoc(header, lines, h, i);
        final := final + [l];
        assert final == header + lines[h..i + 1];
      }
    }
    assert lines[..|lines|] == lines;
    assert end ==> lines[h..|lines|] == lines[h..];
  }

  /** `merge_imports`: the content split into lines, merged and joined. */
  method MergeImports(content: String, imports: set<String>, order: set<String> -> seq<String>)
    returns (r: String)
    ensures r == MergedImports(content, imports, order)
  {
    var lines := SplitLines(content);
    var final := MergeLines(lines, imports, order);
    r := JoinLines(final);
  }

  /** An enumeration lists every element of the set exactly once. */
  lemma EnumerationDistinct(order: set<String> -> seq<String>, s: set<String>)
    requires IsEnumeration(order)
    ensures forall x :: x in order(s) <==> x in s
    ensures forall i, j :: 0 <= i < j < |order(s)| ==> order(s)[i] != order(s)[j]
  {
    var e := order(s);
    assert multiset(e) == multiset(s);
    forall x
      ensures x in e <==> x in s
    {
      assert x in e <==> x in multiset(e);
    }
    forall i, j | 0 <= i < j < |e|
      ensures e[i] != e[j]
    {
      TwiceCounted(e, i, j);
    }
  }

  lemma TwiceCounted(e: seq<String>, i: nat, j: nat)
    requires 0 <= i < j < |e|
    ensures e[i] == e[j] ==> multiset(e)[e[i]] >= 2
  {
    if e[i] == e[j] {
      var x := e[i];
      var a, b, c := e[..i], e[i + 1..j], e[j + 1..];
      assert e == a + [x] + b + [x] + c;
      assert multiset(e) == multiset(a) + multiset([x]) + multiset(b) + multiset([x]) + multiset(c);
    }
  }

  /** When a line ends the header, the output lines are the header's blank
      and comment lines, then every import of the header or of `imports`
      exactly once, then the ending line and everything after it,
      unchanged. */
  lemma MergedLayout(content: String, imports: set<String>, order: set<String> -> seq<String>)
    requires IsEnumeration(order)
    requires forall l :: l in imports ==> NoNewline(l)
    requires HeaderEnd(SplitLines(content)) < |SplitLines(content)|
    ensures var lines := SplitLines(content);
      var h := HeaderEnd(lines);
      var emitted := order(ImportsBefore(lines, h) + imports);
      SplitLines(MergedImports(content, imports, order)) == HeaderKept(lines[..h]) + emitted + lines[h..] &&
      (forall x :: x in emitted <==> x in ImportsBefore(lines, h) + imports) &&
      (forall i, j :: 0 <= i < j < |emitted| ==> emitted[i] != emitted[j])
  {
    var lines := SplitLines(content);
    var h := HeaderEnd(lines);
    var u := ImportsBefore(lines, h) + imports;
    EnumerationDistinct(order, u);
    var out := HeaderKept(lines[..h]) + order(u) + lines[h..];
    forall i | 0 <= i < |out|
      ensures NoNewline(out[i])
    {
      assert out[i] in HeaderKept(lines[..h]) || out[i] in order(u) || out[i] in lines[h..];
      if out[i] in lines[h..] {
        assert out[i] in lines;
      } else if out[i] in HeaderKept(lines[..h]) {
        assert out[i] in lines[..h];
      }
    }
    SplitJoin(out);
  }

  /** When no line ends the header, every import line is dropped. */
  lemma MergedWithoutBody(content: String, imports: set<String>, order: set<String> -> seq<String>)
    requires HeaderEnd(SplitLines(content)) == |SplitLines(content)|
    ensures forall l :: l in SplitLines(MergedImports(content, imports, order)) ==> !IsImportLine(l)
  {
    var lines := SplitLines(content);
    var kept := HeaderKept(lines);
    if kept == [] {
      assert SplitLines([]) == [[]];
      BlankOrCommentNotImport([]);
    } else {
      forall i | 0 <= i < |kept|
        ensures NoNewline(kept[i])
      {
        assert kept[i] in lines;
      }
      SplitJoin(kept);
    }
  }
}
