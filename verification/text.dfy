/**
 * The two string primitives the matchers are built on, over `string`
 * (a sequence of characters): `str::find`, which gives the offset of the
 * first occurrence of a pattern, and `str::replacen(pattern, "", 1)`,
 * which deletes that first occurrence.
 */
module Text {
  import opened Wrappers

  /** `t` occurs in `s` starting at offset `i`. */
  predicate OccursAt(s: string, t: string, i: nat)
  {
    i + |t| <= |s| && s[i..i + |t|] == t
  }

  /** `t` is a substring of `s`. */
  predicate IsSubstring(s: string, t: string)
  {
    exists i: nat :: i <= |s| && OccursAt(s, t, i)
  }

  /** Moving one character to the front shifts every occurrence by one. */
  lemma OccursShift(s: string, t: string, i: nat)
    requires 0 < |s|
    ensures OccursAt(s[1..], t, i) <==> OccursAt(s, t, i + 1)
  {
  }

  /** Occurrences in a suffix of `s` are the occurrences in `s`, shifted. */
  lemma OccursInSuffix(s: string, k: nat, t: string, i: nat)
    requires k <= |s|
    ensures OccursAt(s[k..], t, i) <==> OccursAt(s, t, k + i)
  {
  }

  /**
   * `str::find`: the offset of the first occurrence of `t` in `s`, or
   * `None` when `t` does not occur. The empty pattern is found at 0.
   */
  function Find(s: string, t: string): (r: Option<nat>)
    ensures r.Some? ==> OccursAt(s, t, r.value)
    ensures r.None? <==> !IsSubstring(s, t)
    decreases |s|
  {
    if |t| > |s| then None
    else if s[..|t|] == t then Some(0)
    else
      match Find(s[1..], t)
      case None =>
        assert forall i: nat :: !OccursAt(s, t, i) by {
          forall i: nat | 0 < i ensures !OccursAt(s, t, i) {
            OccursShift(s, t, i - 1);
          }
        }
        None
      case Some(k) =>
        assert OccursAt(s, t, k + 1) by { OccursShift(s, t, k); }
        Some(k + 1)
  }

  /** `find` returns the first occurrence: no occurrence lies before it. */
  lemma {:induction false} FindIsEarliest(s: string, t: string, i: nat)
    requires OccursAt(s, t, i)
    ensures Find(s, t).Some? && Find(s, t).value <= i
    decreases |s|
  {
    if s[..|t|] != t {
      assert 0 < i;
      OccursShift(s, t, i - 1);
      FindIsEarliest(s[1..], t, i - 1);
    }
  }

  /** The string around an occurrence of `t` at `p`. */
  lemma SplitsAt(s: string, t: string, p: nat)
    requires OccursAt(s, t, p)
    ensures s == s[..p] + t + s[p + |t|..]
  {
    assert s == s[..p] + s[p..p + |t|] + s[p + |t|..];
  }

  /** The string around the first occurrence of `t`. */
  lemma FirstOccurrenceSplits(s: string, t: string)
    requires Find(s, t).Some?
    ensures var p := Find(s, t).value; s == s[..p] + t + s[p + |t|..]
  {
    SplitsAt(s, t, Find(s, t).value);
  }

  /**
   * `str::replacen(t, "", 1)`: `s` with the first occurrence of `t`
   * deleted, or `s` itself when `t` does not occur.
   */
  function RemoveFirst(s: string, t: string): (r: string)
    ensures |r| == if IsSubstring(s, t) then |s| - |t| else |s|
    ensures !IsSubstring(s, t) ==> r == s
  {
    match Find(s, t)
    case None => s
    case Some(p) => s[..p] + s[p + |t|..]
  }

  /**
   * Putting the term back where its first occurrence was restores the
   * string, so exactly the characters of that occurrence were consumed.
   */
  lemma RemoveFirstRestores(s: string, t: string)
    requires IsSubstring(s, t)
    ensures var p := Find(s, t).value; var r := RemoveFirst(s, t);
      p <= |r| && r[..p] + t + r[p..] == s
    ensures multiset(s) == multiset(RemoveFirst(s, t)) + multiset(t)
  {
    var p := Find(s, t).value;
    var r := RemoveFirst(s, t);
    var pre, post := s[..p], s[p + |t|..];
    assert r == pre + post;
    assert r[..p] == pre && r[p..] == post;
    FirstOccurrenceSplits(s, t);
    assert multiset(s) == multiset(pre) + multiset(t) + multiset(post);
    assert multiset(r) == multiset(pre) + multiset(post);
  }
}
