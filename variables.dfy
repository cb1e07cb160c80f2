/** The variable set of a skeleton (a Python dict from token to value, in
    iteration order) and `replace_vars`, the literal, sequential, per-key
    substitution applied to names and contents. */
module Variables {
  import opened Wrappers
  import opened Text

  /** The entries of a dict in iteration order. */
  type Vars = seq<(String, String)>

  ghost predicate DistinctKeys(d: Vars) {
    forall i, j :: 0 <= i < j < |d| ==> d[i].0 != d[j].0
  }

  /** `d.get(k)` */
  function Get(d: Vars, k: String): Option<String> {
    if d == [] then None
    else if d[0].0 == k then Some(d[0].1)
    else Get(d[1..], k)
  }

  /** `d[k] = v`: a key already present keeps its place, a new key goes last. */
  function Put(d: Vars, k: String, v: String): Vars {
    if d == [] then [(k, v)]
    else if d[0].0 == k then [(k, v)] + d[1..]
    else [d[0]] + Put(d[1..], k, v)
  }

  /** `d.update(other)`: `other`'s entries are put into `d` in order. */
  function Update(d: Vars, other: Vars): Vars
    decreases other
  {
    if other == [] then d
    else Update(Put(d, other[0].0, other[0].1), other[1..])
  }

  lemma {:induction false} PutGet(d: Vars, k: String, v: String, q: String)
    ensures Get(Put(d, k, v), q) == if q == k then Some(v) else Get(d, q)
  {
    if d != [] && d[0].0 != k {
      PutGet(d[1..], k, v, q);
    }
  }

  /** Putting a key leaves every existing key where it was, adds at most one
      entry at the end, and keeps the keys distinct. */
  lemma {:induction false} PutKeepsOrder(d: Vars, k: String, v: String)
    ensures |Put(d, k, v)| == if Get(d, k).Some? then |d| else |d| + 1
    ensures forall i :: 0 <= i < |d| ==> Put(d, k, v)[i].0 == d[i].0
    ensures |Put(d, k, v)| > |d| ==> Put(d, k, v)[|d|] == (k, v)
    ensures DistinctKeys(d) ==> DistinctKeys(Put(d, k, v))
  {
    if d != [] && d[0].0 != k {
      PutKeepsOrder(d[1..], k, v);
      var r := Put(d, k, v);
      assert r == [d[0]] + Put(d[1..], k, v);
      if DistinctKeys(d) {
        forall j | 1 <= j < |r| ensures r[j].0 != d[0].0 {
          if j - 1 < |d| - 1 {
            assert r[j].0 == d[j].0;
          } else {
            assert r[j].0 == k;
          }
        }
      }
    } else if d != [] && DistinctKeys(d) {
      var r := Put(d, k, v);
      assert forall j :: 0 <= j < |r| ==> r[j].0 == d[j].0;
    }
  }

  /** `params.update(self.params)` in `apply_to`: a key given by the caller
      gets the caller's value, every other key keeps the loaded value. */
  lemma {:induction false} UpdateGet(d: Vars, other: Vars, k: String)
    requires DistinctKeys(other)
    ensures Get(Update(d, other), k) == if Get(other, k).Some? then Get(other, k) else Get(d, k)
    decreases other
  {
    if other != [] {
      var (k0, v0) := other[0];
      UpdateGet(Put(d, k0, v0), other[1..], k);
      PutGet(d, k0, v0, k);
      if k == k0 {
        assert Get(other[1..], k) == None by {
          GetAbsent(other[1..], k);
        }
      }
    }
  }

  lemma {:induction false} GetAbsent(d: Vars, k: String)
    requires forall i :: 0 <= i < |d| ==> d[i].0 != k
    ensures Get(d, k) == None
  {
    if d != [] {
      GetAbsent(d[1..], k);
    }
  }

  /** Updating keeps the loaded keys first and in their order, and keeps
      keys distinct. */
  lemma {:induction false} UpdateKeepsOrder(d: Vars, other: Vars)
    ensures |Update(d, other)| >= |d|
    ensures forall i :: 0 <= i < |d| ==> Update(d, other)[i].0 == d[i].0
    ensures DistinctKeys(d) ==> DistinctKeys(Update(d, other))
    decreases other
  {
    if other != [] {
      var d' := Put(d, other[0].0, other[0].1);
      PutKeepsOrder(d, other[0].0, other[0].1);
      UpdateKeepsOrder(d', other[1..]);
    }
  }

  /** `replace_vars(content, vars)` as a fold: `str.replace(k, v)` for each
      entry, in iteration order, each on the result of the previous one. */
  function Substitute(s: String, vars: Vars): String
    decreases vars
  {
    if vars == [] then s
    else Substitute(Replace(s, vars[0].0, vars[0].1), vars[1..])
  }

  /** `replace_vars`: the loop that reassigns `content` once per entry. */
  method ReplaceVars(content: String, vars: Vars) returns (r: String)
    ensures r == Substitute(content, vars)
    ensures vars == [] ==> r == content
  {
    r := content;
    for i := 0 to |vars|
      invariant Substitute(r, vars[i..]) == Substitute(content, vars)
    {
      var (k, v) := vars[i];
      assert vars[i..][1..] == vars[i + 1..];
      r := Replace(r, k, v);
    }
    assert vars[|vars|..] == [];
  }

  /** The last entry is replaced in the text the earlier entries produced,
      so a token brought in by an earlier value is replaced by a later key. */
  lemma {:induction false} SubstituteSnoc(s: String, vars: Vars, k: String, v: String)
    ensures Substitute(s, vars + [(k, v)]) == Replace(Substitute(s, vars), k, v)
    decreases vars
  {
    if vars != [] {
      assert (vars + [(k, v)])[1..] == vars[1..] + [(k, v)];
      SubstituteSnoc(Replace(s, vars[0].0, vars[0].1), vars[1..], k, v);
    }
  }

  /** Text in which no key occurs is left unchanged. */
  lemma {:induction false} SubstituteNoKeys(s: String, vars: Vars)
    requires forall i :: 0 <= i < |vars| ==> !Contains(s, vars[i].0)
    ensures Substitute(s, vars) == s
  {
    if vars != [] {
      assert OccursAt(s, [], 0);
      ReplaceAbsent(s, vars[0].0, vars[0].1);
      SubstituteNoKeys(s, vars[1..]);
    }
  }

  /** Substituting twice changes nothing once no key is left in the output
      of the first pass. */
  lemma SubstituteIdempotent(s: String, vars: Vars)
    requires forall i :: 0 <= i < |vars| ==> !Contains(Substitute(s, vars), vars[i].0)
    ensures Substitute(Substitute(s, vars), vars) == Substitute(s, vars)
  {
    SubstituteNoKeys(Substitute(s, vars), vars);
  }

  /** Cascading is order-sensitive: a value holding a later key's token has
      that token replaced too, an earlier key's token is left alone. */
  lemma SubstituteCascade()
    ensures Substitute("NAME", [("NAME", "Hi USER"), ("USER", "bob")]) == "Hi bob"
    ensures Substitute("NAME", [("USER", "bob"), ("NAME", "Hi USER")]) == "Hi USER"
  {
    assert Replace("NAME", "NAME", "Hi USER") == "Hi USER" by {
      assert "NAME"[..4] == "NAME";
      assert "NAME"[4..] == [];
    }
    assert Replace("Hi USER", "USER", "bob") == "Hi bob" by {
      ReplaceAtFirst("Hi USER", "USER", "bob", 3);
      assert "Hi USER"[7..] == [];
    }
    assert Replace("NAME", "USER", "bob") == "NAME" by {
      assert "NAME"[..4] != "USER" by {
        assert "NAME"[0] != "USER"[0];
      }
      assert "NAME"[1..] == "AME";
    }
  }
}
