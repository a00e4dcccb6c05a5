/** The string tests the crawler relies on: `startsWith`, `includes` and the
    position of the first occurrence of a pattern (`indexOf`), on strings as
    sequences of characters. */
module Strings {
  import opened Wrappers

  predicate StartsWith(s: string, prefix: string) {
    |prefix| <= |s| && s[..|prefix|] == prefix
  }

  /** `s.includes(w)`: `w` occurs somewhere in `s`. */
  predicate Contains(s: string, w: string)
    decreases |s|
  {
    StartsWith(s, w) || (|s| > 0 && Contains(s[1..], w))
  }

  /** `w` occurs in `s` at position `i`. */
  predicate OccursAt(s: string, w: string, i: nat) {
    i + |w| <= |s| && s[i..i + |w|] == w
  }

  /** `s.indexOf(w)`, with JavaScript's -1 written as None. */
  function IndexOf(s: string, w: string): (r: Option<nat>)
    decreases |s|
    ensures r.Some? ==> OccursAt(s, w, r.value)
    ensures r.Some? ==> forall j :: 0 <= j < r.value ==> !OccursAt(s, w, j)
    ensures r.None? ==> forall j :: 0 <= j <= |s| ==> !OccursAt(s, w, j)
  {
    if StartsWith(s, w) then Some(0)
    else if |s| == 0 then None
    else
      OccursShift(s, w);
      match IndexOf(s[1..], w)
      case None => None
      case Some(k) => Some(k + 1)
  }

  /** Dropping the first character moves every occurrence one place left. */
  lemma OccursShift(s: string, w: string)
    requires |s| > 0
    ensures OccursAt(s, w, 0) <==> StartsWith(s, w)
    ensures forall j: nat {:trigger OccursAt(s, w, j)} :: 0 < j ==> (OccursAt(s, w, j) <==> OccursAt(s[1..], w, j - 1))
  {
    forall j: nat | 0 < j
      ensures OccursAt(s, w, j) <==> OccursAt(s[1..], w, j - 1)
    {
      if j + |w| <= |s| {
        assert s[1..][j - 1..j - 1 + |w|] == s[j..j + |w|];
      }
    }
  }

  lemma {:induction false} ContainsIffOccurs(s: string, w: string)
    ensures Contains(s, w) <==> IndexOf(s, w).Some?
    decreases |s|
  {
    if !StartsWith(s, w) && |s| > 0 {
      ContainsIffOccurs(s[1..], w);
    }
  }

  /** An occurrence at any position makes `includes` true. */
  lemma {:induction false} OccursAtContains(s: string, w: string, i: nat)
    requires OccursAt(s, w, i)
    ensures Contains(s, w)
    decreases i
  {
    if i > 0 {
      assert s[1..][i - 1..i - 1 + |w|] == s[i..i + |w|];
      OccursAtContains(s[1..], w, i - 1);
    }
  }

  /** `includes` is inherited by every part of a pattern: a string containing
      `a + w + b` contains `w`. */
  lemma InfixContains(s: string, a: string, w: string, b: string)
    requires Contains(s, a + w + b)
    ensures Contains(s, w)
  {
    ContainsIffOccurs(s, a + w + b);
    var i := IndexOf(s, a + w + b).value;
    assert s[i..i + |a + w + b|] == a + w + b;
    forall k | 0 <= k < |w|
      ensures s[i + |a| + k] == w[k]
    {
      assert s[i + |a| + k] == s[i..i + |a + w + b|][|a| + k];
    }
    assert s[i + |a|..i + |a| + |w|] == w;
    OccursAtContains(s, w, i + |a|);
  }

  /** A string that contains a character at all contains it at some index. */
  lemma ContainsCharAt(s: string, c: char)
    requires Contains(s, [c])
    ensures exists k :: 0 <= k < |s| && s[k] == c
  {
    ContainsIffOccurs(s, [c]);
    var k := IndexOf(s, [c]).value;
    assert s[k..k + 1] == [c];
    assert s[k] == s[k..k + 1][0];
  }

  /** Every character of a pattern that `s` contains occurs in `s`. */
  lemma ContainsKeepsChars(s: string, w: string, k: nat)
    requires Contains(s, w) && k < |w|
    ensures exists j :: 0 <= j < |s| && s[j] == w[k]
  {
    assert w == w[..k] + [w[k]] + w[k + 1..];
    InfixContains(s, w[..k], [w[k]], w[k + 1..]);
    ContainsCharAt(s, w[k]);
  }

  /** A string lacking one of a pattern's characters does not contain it. */
  lemma MissingCharExcludes(s: string, w: string, k: nat)
    requires k < |w|
    requires forall j :: 0 <= j < |s| ==> s[j] != w[k]
    ensures !Contains(s, w)
  {
    if Contains(s, w) {
      ContainsKeepsChars(s, w, k);
    }
  }
}
