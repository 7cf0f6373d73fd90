/**
 * String operations the renderer is built from: the global, literal
 * replacement that `String.prototype.replace` performs with a `g` regular
 * expression whose pattern has no metacharacters, and `Array.prototype.join`.
 */
module Text {

  /** `p` occurs in `s` at index `i`. */
  predicate OccursAt(s: string, p: string, i: int)
  {
    0 <= i && i + |p| <= |s| && s[i..i + |p|] == p
  }

  /** `p` occurs somewhere in `s` (JavaScript's `s.includes(p)`). */
  predicate Contains(s: string, p: string)
  {
    exists i | 0 <= i <= |s| - |p| :: OccursAt(s, p, i)
  }

  /**
   * Replaces every non-overlapping occurrence of `pat` in `s` by `rep`,
   * scanning left to right and resuming after each match, as a global
   * regular-expression replace does.
   */
  function ReplaceAll(s: string, pat: string, rep: string): string
    requires pat != []
    decreases |s|
  {
    if |s| < |pat| then s
    else if s[..|pat|] == pat then rep + ReplaceAll(s[|pat|..], pat, rep)
    else [s[0]] + ReplaceAll(s[1..], pat, rep)
  }

  /** A string without `pat` in it is returned unchanged. */
  lemma {:induction false} ReplaceAllAbsent(s: string, pat: string, rep: string)
    requires pat != []
    requires !Contains(s, pat)
    ensures ReplaceAll(s, pat, rep) == s
    decreases |s|
  {
    if |s| >= |pat| {
      assert !OccursAt(s, pat, 0);
      assert s[..|pat|] != pat;
      if Contains(s[1..], pat) {
        var i :| 0 <= i <= |s[1..]| - |pat| && OccursAt(s[1..], pat, i);
        assert s[i + 1..i + 1 + |pat|] == s[1..][i..i + |pat|];
        assert OccursAt(s, pat, i + 1);
        assert false;
      }
      ReplaceAllAbsent(s[1..], pat, rep);
      assert s == [s[0]] + s[1..];
    }
  }

  /** No occurrence of `p` in `s` starts before index `k` and ends after it. */
  predicate NoStraddle(s: string, p: string, k: int)
  {
    forall i :: 0 <= i < k && k < i + |p| ==> !OccursAt(s, p, i)
  }

  /** Dropping `d` characters from the front keeps the seam free of straddling occurrences. */
  lemma NoStraddleDrop(x: string, y: string, pat: string, d: int)
    requires 0 <= d <= |x| && NoStraddle(x + y, pat, |x|)
    ensures NoStraddle(x[d..] + y, pat, |x| - d)
  {
    var s, t := x + y, x[d..] + y;
    forall i | 0 <= i < |x| - d && |x| - d < i + |pat|
      ensures !OccursAt(t, pat, i)
    {
      if i + |pat| <= |t| {
        assert !OccursAt(s, pat, i + d);
        assert t[i..i + |pat|] == s[i + d..i + d + |pat|];
      }
    }
  }

  /**
   * Replacing in a concatenation is replacing in each part, provided no
   * occurrence of the pattern straddles the seam.
   */
  lemma {:induction false} ReplaceAllConcat(x: string, y: string, pat: string, rep: string)
    requires pat != []
    requires NoStraddle(x + y, pat, |x|)
    ensures ReplaceAll(x + y, pat, rep) == ReplaceAll(x, pat, rep) + ReplaceAll(y, pat, rep)
    decreases |x|, 1
  {
    var s := x + y;
    if x == [] {
      assert s == y;
    } else if |s| < |pat| {
      assert ReplaceAll(x, pat, rep) == x;
      assert ReplaceAll(y, pat, rep) == y;
    } else if s[..|pat|] == pat {
      ReplaceAllConcatMatch(x, y, pat, rep);
    } else {
      ReplaceAllConcatSkip(x, y, pat, rep);
    }
  }

  /** The step of `ReplaceAllConcat` where the pattern matches at the front, and so lies within `x`. */
  lemma {:induction false} ReplaceAllConcatMatch(x: string, y: string, pat: string, rep: string)
    requires pat != [] && x != []
    requires NoStraddle(x + y, pat, |x|)
    requires |x + y| >= |pat| && (x + y)[..|pat|] == pat
    ensures ReplaceAll(x + y, pat, rep) == ReplaceAll(x, pat, rep) + ReplaceAll(y, pat, rep)
    decreases |x|, 0
  {
    var s := x + y;
    assert OccursAt(s, pat, 0);
    assert |pat| <= |x|;
    assert x[..|pat|] == pat;
    var x' := x[|pat|..];
    assert s[|pat|..] == x' + y;
    NoStraddleDrop(x, y, pat, |pat|);
    ReplaceAllConcat(x', y, pat, rep);
    var ra, rb := ReplaceAll(x', pat, rep), ReplaceAll(y, pat, rep);
    assert ReplaceAll(s, pat, rep) == rep + (ra + rb);
    assert ReplaceAll(x, pat, rep) == rep + ra;
    assert rep + (ra + rb) == (rep + ra) + rb;
  }

  /** The step of `ReplaceAllConcat` where the pattern does not match at the front. */
  lemma {:induction false} ReplaceAllConcatSkip(x: string, y: string, pat: string, rep: string)
    requires pat != [] && x != []
    requires NoStraddle(x + y, pat, |x|)
    requires |x + y| >= |pat| && (x + y)[..|pat|] != pat
    ensures ReplaceAll(x + y, pat, rep) == ReplaceAll(x, pat, rep) + ReplaceAll(y, pat, rep)
    decreases |x|, 0
  {
    var s := x + y;
    var x' := x[1..];
    assert s[1..] == x' + y;
    NoStraddleDrop(x, y, pat, 1);
    ReplaceAllConcat(x', y, pat, rep);
    ReplaceAllStep(x, s, pat, rep);
    var ra, rb := ReplaceAll(x', pat, rep), ReplaceAll(y, pat, rep);
    assert ReplaceAll(s, pat, rep) == [x[0]] + (ra + rb);
    assert [x[0]] + (ra + rb) == ([x[0]] + ra) + rb;
  }

  /** When `x` is a prefix of `s` and `s` does not start with `pat`, neither does `x`: both replacements keep their first character. */
  lemma ReplaceAllStep(x: string, s: string, pat: string, rep: string)
    requires pat != [] && x != [] && |x| <= |s| && s[..|x|] == x
    requires |s| >= |pat| && s[..|pat|] != pat
    ensures ReplaceAll(x, pat, rep) == [x[0]] + ReplaceAll(x[1..], pat, rep)
  {
    if |x| < |pat| {
      assert ReplaceAll(x[1..], pat, rep) == x[1..];
      assert x == [x[0]] + x[1..];
    } else {
      assert x[..|pat|] == s[..|pat|];
    }
  }

  /** The pattern itself is replaced by exactly the replacement. */
  lemma ReplaceAllSelf(pat: string, rep: string)
    requires pat != []
    ensures ReplaceAll(pat, pat, rep) == rep
  {
    assert pat[..|pat|] == pat;
    assert pat[|pat|..] == [];
  }

  /** No occurrence of `pat` in `s` overlaps the `n` characters from index `k`. */
  predicate ClearOf(s: string, pat: string, k: int, n: int)
  {
    forall i :: OccursAt(s, pat, i) ==> i + |pat| <= k || k + n <= i
  }

  /** An occurrence in `t` is an occurrence in `a + t`, shifted by `|a|`. */
  lemma OccursShift(a: string, t: string, pat: string, i: int)
    requires OccursAt(t, pat, i)
    ensures OccursAt(a + t, pat, |a| + i)
  {
    assert (a + t)[|a| + i..|a| + i + |pat|] == t[i..i + |pat|];
  }

  /** An occurrence in `t` is an occurrence in `t + b`, at the same index. */
  lemma OccursExtend(t: string, b: string, pat: string, i: int)
    requires OccursAt(t, pat, i)
    ensures OccursAt(t + b, pat, i)
  {
    assert (t + b)[i..i + |pat|] == t[i..i + |pat|];
  }

  /** A piece that no occurrence overlaps leaves both of its seams free of straddling occurrences, and holds no occurrence itself. */
  lemma ClearPiece(a: string, p: string, b: string, pat: string)
    requires pat != []
    requires ClearOf(a + p + b, pat, |a|, |p|)
    ensures NoStraddle(a + (p + b), pat, |a|)
    ensures NoStraddle(p + b, pat, |p|)
    ensures !Contains(p, pat)
  {
    assert a + (p + b) == a + p + b;
    forall i | 0 <= i < |p| && |p| < i + |pat|
      ensures !OccursAt(p + b, pat, i)
    {
      if OccursAt(p + b, pat, i) {
        OccursShift(a, p + b, pat, i);
      }
    }
    if Contains(p, pat) {
      var i :| 0 <= i <= |p| - |pat| && OccursAt(p, pat, i);
      OccursExtend(p, b, pat, i);
      OccursShift(a, p + b, pat, i);
      assert false;
    }
  }

  /**
   * A piece `p` that no occurrence of `pat` overlaps passes through the
   * replacement untouched, and the text on either side is replaced on its own.
   */
  lemma ReplaceAllAround(a: string, p: string, b: string, pat: string, rep: string)
    requires pat != []
    requires ClearOf(a + p + b, pat, |a|, |p|)
    ensures ReplaceAll(a + p + b, pat, rep) == ReplaceAll(a, pat, rep) + p + ReplaceAll(b, pat, rep)
  {
    ClearPiece(a, p, b, pat);
    ReplaceAllConcat(a, p + b, pat, rep);
    ReplaceAllConcat(p, b, pat, rep);
    ReplaceAllAbsent(p, pat, rep);
    assert a + (p + b) == a + p + b;
  }

  /**
   * An occurrence of `pat` that no other occurrence overlaps is replaced by
   * `rep`, and the text on either side is replaced on its own.
   */
  lemma ReplaceAllAt(a: string, b: string, pat: string, rep: string)
    requires pat != []
    requires forall i :: OccursAt(a + pat + b, pat, i) && i != |a| ==> i + |pat| <= |a| || |a| + |pat| <= i
    ensures ReplaceAll(a + pat + b, pat, rep) == ReplaceAll(a, pat, rep) + rep + ReplaceAll(b, pat, rep)
  {
    var s := a + (pat + b);
    assert s == a + pat + b;
    assert NoStraddle(s, pat, |a|);
    ReplaceAllConcat(a, pat + b, pat, rep);
    forall i | 0 <= i < |pat| && |pat| < i + |pat|
      ensures !OccursAt(pat + b, pat, i)
    {
      if OccursAt(pat + b, pat, i) {
        OccursShift(a, pat + b, pat, i);
      }
    }
    ReplaceAllConcat(pat, b, pat, rep);
    ReplaceAllSelf(pat, rep);
  }

  /** The JavaScript `Array.prototype.join(sep)`. */
  function Join(xs: seq<string>, sep: string): string
  {
    if xs == [] then ""
    else if |xs| == 1 then xs[0]
    else xs[0] + sep + Join(xs[1..], sep)
  }

  /** Joining grows by one separator and one element per appended element. */
  lemma {:induction false} JoinSnoc(xs: seq<string>, y: string, sep: string)
    requires xs != []
    ensures Join(xs + [y], sep) == Join(xs, sep) + sep + y
    decreases |xs|
  {
    if |xs| == 1 {
      assert (xs + [y])[1..] == [y];
    } else {
      assert (xs + [y])[1..] == xs[1..] + [y];
      JoinSnoc(xs[1..], y, sep);
    }
  }
}
