/** The string primitives of Python that the merge engine is built from:
    `str.replace`, `"\n".join`, `str.split("\n")`, `startswith`, `endswith`
    and `rstrip`/`lstrip` of one character. */
module Text {

  type String = seq<char>

  predicate StartsWith(s: String, p: String) {
    |p| <= |s| && s[..|p|] == p
  }

  predicate EndsWith(s: String, p: String) {
    |p| <= |s| && s[|s| - |p|..] == p
  }

  predicate NoNewline(s: String) {
    '\n' !in s
  }

  /** `p` occurs in `s` at index `i`. */
  predicate OccursAt(s: String, p: String, i: int) {
    0 <= i && i + |p| <= |s| && s[i..i + |p|] == p
  }

  /** `i` is the leftmost index where `p` occurs in `s`. */
  predicate FirstAt(s: String, p: String, i: nat) {
    OccursAt(s, p, i) && forall j :: 0 <= j < i ==> !OccursAt(s, p, j)
  }

  ghost predicate Contains(s: String, p: String) {
    exists i :: OccursAt(s, p, i)
  }

  /** `s.replace("", r)`: `r` before every character and once at the end. */
  function InsertEverywhere(s: String, r: String): String {
    if s == [] then r else r + [s[0]] + InsertEverywhere(s[1..], r)
  }

  /** `s.replace(p, r)`: scanning from the left, every non-overlapping
      occurrence of `p` is replaced by `r`. */
  function Replace(s: String, p: String, r: String): String
    decreases |s|
  {
    if p == [] then InsertEverywhere(s, r)
    else if |s| < |p| then s
    else if s[..|p|] == p then r + Replace(s[|p|..], p, r)
    else [s[0]] + Replace(s[1..], p, r)
  }

  /** Text in which the pattern does not occur is left as it is. */
  lemma {:induction false} ReplaceAbsent(s: String, p: String, r: String)
    requires p != []
    requires !Contains(s, p)
    ensures Replace(s, p, r) == s
    decreases |s|
  {
    if |s| >= |p| {
      assert !OccursAt(s, p, 0);
      assert !Contains(s[1..], p) by {
        forall i | OccursAt(s[1..], p, i)
          ensures OccursAt(s, p, i + 1)
        {
          OccursShift(s, p, i);
        }
      }
      ReplaceAbsent(s[1..], p, r);
    }
  }

  lemma OccursShift(s: String, p: String, i: int)
    requires s != [] && 0 <= i
    ensures OccursAt(s[1..], p, i) <==> OccursAt(s, p, i + 1)
  {
    if i + |p| <= |s| - 1 {
      assert s[1..][i..i + |p|] == s[i + 1..i + 1 + |p|];
    }
  }

  /** The leftmost occurrence of `p` is the first one replaced: the text
      before it is kept, and scanning resumes right after it. */
  lemma {:induction false} ReplaceAtFirst(s: String, p: String, r: String, i: nat)
    requires p != []
    requires FirstAt(s, p, i)
    ensures Replace(s, p, r) == s[..i] + r + Replace(s[i + |p|..], p, r)
    decreases i
  {
    if i == 0 {
      assert s[..|p|] == p;
      assert s[..i] + r == r;
    } else {
      var t := s[1..];
      ReplaceSkip(s, p, r);
      OccursShift(s, p, i - 1);
      forall j | 0 <= j < i - 1
        ensures !OccursAt(t, p, j)
      {
        OccursShift(s, p, j);
      }
      ReplaceAtFirst(t, p, r, i - 1);
      ConsSlices(s, i, |p|);
      Regroup(s[0], t[..i - 1], r, Replace(s[i + |p|..], p, r));
    }
  }

  /** Where `p` does not start, the first character is kept. */
  lemma ReplaceSkip(s: String, p: String, r: String)
    requires p != [] && |s| >= |p| && !OccursAt(s, p, 0)
    ensures Replace(s, p, r) == [s[0]] + Replace(s[1..], p, r)
  {
    assert s[..|p|] != p;
  }

  lemma Regroup(c: char, a: String, r: String, b: String)
    ensures [c] + (a + r + b) == ([c] + a) + r + b
  {
  }

  lemma ConsSlices(s: String, i: nat, n: nat)
    requires 0 < i && i + n <= |s|
    ensures [s[0]] + s[1..][..i - 1] == s[..i]
    ensures s[1..][i - 1 + n..] == s[i + n..]
  {
  }

  /** `"\n".join(lines)` */
  function JoinLines(lines: seq<String>): String {
    if |lines| == 0 then []
    else if |lines| == 1 then lines[0]
    else lines[0] + "\n" + JoinLines(lines[1..])
  }

  /** Joining two non-empty runs of lines puts one newline between them. */
  lemma {:induction false} JoinAppend(a: seq<String>, b: seq<String>)
    requires |a| >= 1 && |b| >= 1
    ensures JoinLines(a + b) == JoinLines(a) + "\n" + JoinLines(b)
  {
    if |a| > 1 {
      assert (a + b)[1..] == a[1..] + b;
      JoinAppend(a[1..], b);
    } else {
      assert (a + b)[1..] == b;
    }
  }

  /** `s.split("\n")`: never empty, and no piece holds a newline. */
  function SplitLines(s: String): (lines: seq<String>)
    ensures |lines| >= 1
    ensures forall i :: 0 <= i < |lines| ==> NoNewline(lines[i])
  {
    if s == [] then [[]]
    else
      var rest := SplitLines(s[1..]);
      if s[0] == '\n' then [[]] + rest
      else [[s[0]] + rest[0]] + rest[1..]
  }

  /** Joining the pieces of a split gives back the text. */
  lemma {:induction false} JoinSplit(s: String)
    ensures JoinLines(SplitLines(s)) == s
  {
    if s != [] {
      var rest := SplitLines(s[1..]);
      JoinSplit(s[1..]);
      if s[0] == '\n' {
        assert JoinLines([[]] + rest) == [] + "\n" + JoinLines(rest) by {
          assert ([[]] + rest)[1..] == rest;
        }
      } else if |rest| == 1 {
        assert JoinLines(rest) == rest[0];
      } else {
        var lines := [[s[0]] + rest[0]] + rest[1..];
        assert lines[1..] == rest[1..];
        assert JoinLines(rest) == rest[0] + "\n" + JoinLines(rest[1..]);
      }
    }
  }

  /** A newline splits a text into the lines of its two sides. */
  lemma {:induction false} SplitAround(a: String, b: String)
    ensures SplitLines(a + "\n" + b) == SplitLines(a) + SplitLines(b)
    decreases |a|
  {
    if a == [] {
      assert [] + "\n" + b == "\n" + b;
      assert ("\n" + b)[1..] == b;
    } else {
      var s := a + "\n" + b;
      assert s[0] == a[0];
      assert s[1..] == a[1..] + "\n" + b;
      SplitAround(a[1..], b);
    }
  }

  /** Text without a newline is a single line. */
  lemma {:induction false} SplitSingle(s: String)
    requires NoNewline(s)
    ensures SplitLines(s) == [s]
  {
    if s != [] {
      SplitSingle(s[1..]);
      assert [s[0]] + s[1..] == s;
    }
  }

  /** Splitting a join of newline-free lines gives back the lines. */
  lemma {:induction false} SplitJoin(lines: seq<String>)
    requires |lines| >= 1
    requires forall i :: 0 <= i < |lines| ==> NoNewline(lines[i])
    ensures SplitLines(JoinLines(lines)) == lines
  {
    SplitSingle(lines[0]);
    if |lines| > 1 {
      SplitJoin(lines[1..]);
      SplitAround(lines[0], JoinLines(lines[1..]));
    }
  }

  /** `s.rstrip(c)` */
  function RStrip(s: String, c: char): (r: String)
    ensures StartsWith(s, r)
    ensures r == [] || r[|r| - 1] != c
    ensures forall i :: |r| <= i < |s| ==> s[i] == c
  {
    if s != [] && s[|s| - 1] == c then RStrip(s[..|s| - 1], c) else s
  }

  /** `s.lstrip(c)` */
  function LStrip(s: String, c: char): (r: String)
    ensures EndsWith(s, r)
    ensures r == [] || r[0] != c
    ensures forall i :: 0 <= i < |s| - |r| ==> s[i] == c
  {
    if s != [] && s[0] == c then LStrip(s[1..], c) else s
  }
}
