/** `clean_skel_vars`: `re.sub(r'SKEL[A-Z0-9_]+\n?', '', content)`, the
    final pass that removes declaration tokens no template consumed. */
module Cleanup {
  import opened Text

  /** The character class `[A-Z0-9_]`. */
  predicate IsTokenChar(c: char) {
    'A' <= c <= 'Z' || '0' <= c <= '9' || c == '_'
  }

  /** Length of the longest prefix of `s` made of token characters. */
  function TokenRun(s: String): (n: nat)
    ensures n <= |s|
    ensures forall i :: 0 <= i < n ==> IsTokenChar(s[i])
    ensures n < |s| ==> !IsTokenChar(s[n])
  {
    if s == [] || !IsTokenChar(s[0]) then 0 else 1 + TokenRun(s[1..])
  }

  /** A match of the pattern can start at the front of `s`. */
  predicate MatchStarts(s: String) {
    |s| > 4 && s[0] == 'S' && s[1] == 'K' && s[2] == 'E' && s[3] == 'L' && IsTokenChar(s[4])
  }

  /** Length of the match of `SKEL[A-Z0-9_]+\n?` at the front of `s` (0 if
      there is none): `SKEL`, then as many token characters as there are
      (greedy), then one newline if one follows. */
  function MatchLength(s: String): (n: nat)
    ensures n == 0 <==> !MatchStarts(s)
    ensures n > 0 ==> 5 <= n <= |s|
  {
    if MatchStarts(s) then
      var k := 4 + TokenRun(s[4..]);
      if k < |s| && s[k] == '\n' then k + 1 else k
    else 0
  }

  /** A match is `SKEL`, token characters, and at most one newline at its
      end; it stops only where no further token character follows, and it
      takes the newline when one follows. */
  lemma MatchIsGreedy(s: String)
    requires MatchStarts(s)
    ensures StartsWith(s, "SKEL")
    ensures forall i :: 4 <= i < MatchLength(s) - 1 ==> IsTokenChar(s[i])
    ensures IsTokenChar(s[MatchLength(s) - 1]) || s[MatchLength(s) - 1] == '\n'
    ensures var n := MatchLength(s);
      s[n - 1] != '\n' && n < |s| ==> !IsTokenChar(s[n]) && s[n] != '\n'
  {
    var k := 4 + TokenRun(s[4..]);
    forall i | 4 <= i < k
      ensures IsTokenChar(s[i])
    {
      assert s[4..][i - 4] == s[i];
    }
  }

  /** `clean_skel_vars`: scanning from the left, each match is deleted and
      scanning resumes after it; every other character is kept. */
  function CleanSkelVars(s: String): (r: String)
    ensures |r| <= |s|
    decreases |s|
  {
    var n := MatchLength(s);
    if n > 0 then CleanSkelVars(s[n..])
    else if s == [] then []
    else [s[0]] + CleanSkelVars(s[1..])
  }

  /** Cleaning keeps every character before which no match starts: the
      text up to the leftmost match is copied unchanged. */
  lemma {:induction false} CleanKeepsPrefix(s: String, k: nat)
    requires k <= |s|
    requires forall j :: 0 <= j < k ==> !MatchStarts(s[j..])
    ensures CleanSkelVars(s) == s[..k] + CleanSkelVars(s[k..])
  {
    if k > 0 {
      var t := s[1..];
      assert !MatchStarts(s[0..]);
      assert s[0..] == s;
      CleanKeepsChar(s);
      forall j | 0 <= j < k - 1
        ensures !MatchStarts(t[j..])
      {
        assert t[j..] == s[j + 1..];
        assert !MatchStarts(s[j + 1..]);
      }
      CleanKeepsPrefix(t, k - 1);
      assert t[k - 1..] == s[k..];
      assert [s[0]] + t[..k - 1] == s[..k];
      ConsAssoc(s[0], t[..k - 1], CleanSkelVars(s[k..]));
    } else {
      assert s[..0] == [];
      assert s[0..] == s;
    }
  }

  /** The leftmost match is deleted and nothing before it: cleaning keeps
      the text up to the leftmost match and goes on right after that match. */
  lemma CleanAtLeftmostMatch(s: String, k: nat)
    requires k < |s| && MatchStarts(s[k..])
    requires forall j :: 0 <= j < k ==> !MatchStarts(s[j..])
    ensures CleanSkelVars(s) == s[..k] + CleanSkelVars(s[k + MatchLength(s[k..])..])
  {
    CleanKeepsPrefix(s, k);
    var m := s[k..];
    CleanDropsMatch(m);
    assert m[MatchLength(m)..] == s[k + MatchLength(m)..];
  }

  lemma ConsAssoc(c: char, a: String, b: String)
    ensures [c] + (a + b) == ([c] + a) + b
  {
  }

  lemma CleanDropsMatch(t: String)
    requires MatchStarts(t)
    ensures CleanSkelVars(t) == CleanSkelVars(t[MatchLength(t)..])
  {
  }

  lemma CleanKeepsChar(t: String)
    requires t != [] && !MatchStarts(t)
    ensures CleanSkelVars(t) == [t[0]] + CleanSkelVars(t[1..])
  {
  }

  /** Text in which `SKEL` never occurs is unchanged. */
  lemma CleanWithoutSkel(s: String)
    requires !Contains(s, "SKEL")
    ensures CleanSkelVars(s) == s
  {
    forall j | 0 <= j < |s|
      ensures !MatchStarts(s[j..])
    {
      if MatchStarts(s[j..]) {
        assert s[j..][..4] == s[j..j + 4];
        assert OccursAt(s, "SKEL", j);
      }
    }
    CleanKeepsPrefix(s, |s|);
    assert s[|s|..] == [];
  }

  /** The pass is not idempotent: deleting a token together with its
      newline can join the text around it into a new token, which a second
      pass would remove. */
  lemma CleanCanLeaveToken()
    ensures CleanSkelVars("SKESKELX\nL1") == "SKEL1"
    ensures MatchStarts("SKEL1")
  {
    var s := "SKESKELX\nL1";
    var t := "SKELX\nL1";
    CleanKeepsChar(s);
    assert s[1..] == "KESKELX\nL1";
    CleanKeepsChar(s[1..]);
    assert s[1..][1..] == "ESKELX\nL1";
    CleanKeepsChar(s[1..][1..]);
    assert s[1..][1..][1..] == t;
    CleanDropsNewlineToken();
  }

  lemma CleanDropsNewlineToken()
    ensures CleanSkelVars("SKELX\nL1") == "L1"
  {
    var t := "SKELX\nL1";
    assert MatchLength(t) == 6 by {
      assert t[4..] == "X\nL1";
      assert "X\nL1"[1..] == "\nL1";
    }
    CleanDropsMatch(t);
    assert t[6..] == "L1";
    CleanKeepsChar("L1");
    assert "L1"[1..] == "1";
    CleanKeepsChar("1");
    assert "1"[1..] == [];
  }
}
