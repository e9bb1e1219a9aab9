/**
 * The two term matchers. Each decides whether a history line matches the
 * query terms, working on a copy of the line that it rewrites term by
 * term:
 *  - ordered: each term is searched only in the text after the previous
 *    term's first occurrence;
 *  - unordered: each term must occur somewhere, and its first occurrence
 *    is deleted from the working copy before the next term is tried.
 * Each matcher is a loop (a method) proved equal to a recursive
 * specification function; the lemmas state what that function means.
 */
module Matching {
  import opened Wrappers
  import opened Text

  /** Which matcher `match_fn` holds. */
  datatype MatchMode = Unordered | Ordered

  /** Specification of `ordered_match`. */
  function OrderedMatches(key: string, terms: seq<string>): bool
    decreases |terms|
  {
    if terms == [] then true
    else
      match Find(key, terms[0])
      case None => false
      case Some(pos) => OrderedMatches(key[pos + |terms[0]|..], terms[1..])
  }

  /** Specification of `unordered_match`. */
  function UnorderedMatches(key: string, terms: seq<string>): bool
    decreases |terms|
  {
    if terms == [] then true
    else if Find(key, terms[0]).None? then false
    else UnorderedMatches(RemoveFirst(key, terms[0]), terms[1..])
  }

  /** Specification of a call through `match_fn`. */
  function Matches(mode: MatchMode, key: string, terms: seq<string>): bool
  {
    match mode
    case Ordered => OrderedMatches(key, terms)
    case Unordered => UnorderedMatches(key, terms)
  }

  /** `ordered_match`: a loop that keeps only the text after each match. */
  method OrderedMatch(key: string, args: seq<string>) returns (found: bool)
    ensures found == OrderedMatches(key, args)
  {
    var rest := key;
    for i := 0 to |args|
      invariant OrderedMatches(key, args) == OrderedMatches(rest, args[i..])
    {
      var a := args[i];
      assert args[i..][0] == a && args[i..][1..] == args[i + 1..];
      match Find(rest, a) {
        case Some(pos) =>
          rest := rest[pos + |a|..];
        case None =>
          return false;
      }
    }
    assert args[|args|..] == [];
    return true;
  }

  /** `unordered_match`: a loop that deletes the first occurrence of each term. */
  method UnorderedMatch(key: string, args: seq<string>) returns (found: bool)
    ensures found == UnorderedMatches(key, args)
  {
    var work := key;
    for i := 0 to |args|
      invariant UnorderedMatches(key, args) == UnorderedMatches(work, args[i..])
    {
      var a := args[i];
      assert args[i..][0] == a && args[i..][1..] == args[i + 1..];
      if Find(work, a).Some? {
        work := RemoveFirst(work, a);
      } else {
        return false;
      }
    }
    assert args[|args|..] == [];
    return true;
  }

  /** `(self.match_fn)(key, terms)`: dispatch on the selected matcher. */
  method Match(mode: MatchMode, key: string, terms: seq<string>) returns (found: bool)
    ensures found == Matches(mode, key, terms)
  {
    match mode {
      case Ordered => found := OrderedMatch(key, terms);
      case Unordered => found := UnorderedMatch(key, terms);
    }
  }

  // ---------------------------------------------------------------------
  // Ordered matching, characterised without reference to `find`

  /**
   * The terms occur in `s` at or after offset `from`, one after another:
   * each occurrence starts at or after the end of the previous one.
   */
  ghost predicate InOrderFrom(s: string, terms: seq<string>, from: nat)
    decreases |terms|
  {
    terms == [] ||
    exists i: nat :: from <= i && OccursAt(s, terms[0], i) && InOrderFrom(s, terms[1..], i + |terms[0]|)
  }

  /** The terms occur in `s` non-overlapping and in query order. */
  ghost predicate OccurInOrder(s: string, terms: seq<string>)
  {
    InOrderFrom(s, terms, 0)
  }

  /** Searching from an earlier offset finds at least as much. */
  lemma InOrderFromEarlier(s: string, terms: seq<string>, j: nat, k: nat)
    requires j <= k && InOrderFrom(s, terms, k)
    ensures InOrderFrom(s, terms, j)
  {
  }

  /** The in-order occurrence of the first term. */
  lemma InOrderPick(s: string, terms: seq<string>, from: nat) returns (i: nat)
    requires terms != [] && InOrderFrom(s, terms, from)
    ensures from <= i && OccursAt(s, terms[0], i)
    ensures InOrderFrom(s, terms[1..], i + |terms[0]|)
  {
    i :| from <= i && OccursAt(s, terms[0], i) && InOrderFrom(s, terms[1..], i + |terms[0]|);
  }

  /** An occurrence of the first term followed by the rest in order. */
  lemma InOrderIntro(s: string, terms: seq<string>, from: nat, i: nat)
    requires terms != [] && from <= i && OccursAt(s, terms[0], i)
    requires InOrderFrom(s, terms[1..], i + |terms[0]|)
    ensures InOrderFrom(s, terms, from)
  {
  }

  /**
   * When the terms occur in order from `k`, `find` on the suffix from `k`
   * locates the first term, and the remaining terms occur in order after
   * that first occurrence.
   */
  lemma FirstTermFound(s: string, terms: seq<string>, k: nat) returns (next: nat)
    requires k <= |s| && terms != [] && InOrderFrom(s, terms, k)
    ensures Find(s[k..], terms[0]).Some?
    ensures next == k + Find(s[k..], terms[0]).value + |terms[0]| <= |s|
    ensures InOrderFrom(s, terms[1..], next)
  {
    var t := terms[0];
    var i := InOrderPick(s, terms, k);
    OccursInSuffix(s, k, t, i - k);
    FindIsEarliest(s[k..], t, i - k);
    next := k + Find(s[k..], t).value + |t|;
    InOrderFromEarlier(s, terms[1..], next, i + |t|);
  }

  /** What `ordered_match` accepts on the suffix from `k` occurs in order there. */
  lemma {:induction false} OrderedMatchesAreInOrder(s: string, terms: seq<string>, k: nat)
    requires k <= |s| && OrderedMatches(s[k..], terms)
    ensures InOrderFrom(s, terms, k)
    decreases |terms|
  {
    if terms != [] {
      var i := OrderedFirstStep(s, terms, k);
      OrderedMatchesAreInOrder(s, terms[1..], i + |terms[0]|);
      InOrderIntro(s, terms, k, i);
    }
  }

  /** Terms that occur in order from `k` are accepted by `ordered_match` there. */
  lemma {:induction false} InOrderIsMatched(s: string, terms: seq<string>, k: nat)
    requires k <= |s| && InOrderFrom(s, terms, k)
    ensures OrderedMatches(s[k..], terms)
    decreases |terms|
  {
    if terms != [] {
      var next := FirstTermFound(s, terms, k);
      var next' := OrderedSuffixStep(s, terms, k);
      assert next' == next;
      InOrderIsMatched(s, terms[1..], next);
    }
  }

  /**
   * Where `ordered_match` on the suffix from `k` finds the first term, and
   * that it goes on with the text after it.
   */
  lemma OrderedFirstStep(s: string, terms: seq<string>, k: nat) returns (i: nat)
    requires k <= |s| && terms != [] && OrderedMatches(s[k..], terms)
    ensures k <= i && OccursAt(s, terms[0], i)
    ensures OrderedMatches(s[i + |terms[0]|..], terms[1..])
  {
    OrderedMatchesFindsFirst(s[k..], terms);
    i := FindInSuffix(s, k, terms[0]);
    var next := OrderedSuffixStep(s, terms, k);
    assert next == i + |terms[0]|;
  }

  /** `ordered_match` only accepts when it finds the first term. */
  lemma OrderedMatchesFindsFirst(key: string, terms: seq<string>)
    requires terms != [] && OrderedMatches(key, terms)
    ensures Find(key, terms[0]).Some?
  {
  }

  /** `find` on the suffix from `k` gives an occurrence in `s`, `k` further on. */
  lemma FindInSuffix(s: string, k: nat, t: string) returns (i: nat)
    requires k <= |s| && Find(s[k..], t).Some?
    ensures i == k + Find(s[k..], t).value && OccursAt(s, t, i)
  {
    OccursInSuffix(s, k, t, Find(s[k..], t).value);
    i := k + Find(s[k..], t).value;
  }

  /** One step of `ordered_match` on the suffix from `k`. */
  lemma OrderedSuffixStep(s: string, terms: seq<string>, k: nat) returns (next: nat)
    requires k <= |s| && terms != [] && Find(s[k..], terms[0]).Some?
    ensures next == k + Find(s[k..], terms[0]).value + |terms[0]| <= |s|
    ensures OrderedMatches(s[k..], terms) == OrderedMatches(s[next..], terms[1..])
  {
    next := k + Find(s[k..], terms[0]).value + |terms[0]|;
  }

  /**
   * `ordered_match` is exact: taking the first occurrence of each term
   * (greedy) succeeds if and only if the terms occur in order at all.
   */
  lemma OrderedMatchesIffInOrder(key: string, terms: seq<string>)
    ensures OrderedMatches(key, terms) <==> OccurInOrder(key, terms)
  {
    assert key[0..] == key;
    if OrderedMatches(key, terms) {
      OrderedMatchesAreInOrder(key, terms, 0);
    }
    if OccurInOrder(key, terms) {
      InOrderIsMatched(key, terms, 0);
    }
  }

  /** "acb" matches `["c", "ab"]` unordered: deleting "c" leaves "ab". */
  lemma AcbUnordered()
    ensures UnorderedMatches("acb", ["c", "ab"])
  {
    assert "acb"[..1] == "a" && "acb"[1..] == "cb" && "cb"[..1] == "c";
    assert Find("cb", "c") == Some(0);
    assert Find("acb", "c") == Some(1);
    assert RemoveFirst("acb", "c") == "ab";
    assert Find("ab", "ab") == Some(0);
  }

  /** "acb" does not match `["c", "ab"]` ordered: only "b" follows the "c". */
  lemma AcbNotOrdered()
    ensures !OrderedMatches("acb", ["c", "ab"])
  {
    assert "acb"[..1] == "a" && "acb"[1..] == "cb" && "cb"[..1] == "c";
    assert Find("cb", "c") == Some(0);
    assert Find("acb", "c") == Some(1);
    assert "acb"[2..] == "b";
    assert Find("", "ab") == None;
    assert Find("b", "ab") == None;
  }

  /** "ab" does not occur in "acb". */
  lemma AbNotInAcb()
    ensures Find("acb", "ab") == None
  {
    assert "acb"[1..] == "cb" && "cb"[1..] == "b";
    assert Find("b", "ab") == None;
    assert "cb"[..2] == "cb";
    assert Find("cb", "ab") == None;
    assert "acb"[..2] == "ac";
  }

  /**
   * The converse fails: "acb" holds "c" and then "ab" only across the
   * deleted "c", so unordered matching accepts a term that is not a
   * substring of the line.
   */
  lemma UnorderedDoesNotImplyOrdered()
    ensures UnorderedMatches("acb", ["c", "ab"])
    ensures !OrderedMatches("acb", ["c", "ab"])
    ensures !IsSubstring("acb", "ab")
  {
    AcbUnordered();
    AcbNotOrdered();
    AbNotInAcb();
  }

  /** Every term found by `ordered_match` is a substring of the original line. */
  lemma {:induction false} OrderedTermsAreSubstrings(key: string, terms: seq<string>)
    requires OrderedMatches(key, terms)
    ensures forall j :: 0 <= j < |terms| ==> IsSubstring(key, terms[j])
    decreases |terms|
  {
    if terms != [] {
      var t := terms[0];
      var p := Find(key, t).value;
      var rest := key[p + |t|..];
      OrderedTermsAreSubstrings(rest, terms[1..]);
      forall j | 1 <= j < |terms| ensures IsSubstring(key, terms[j]) {
        assert IsSubstring(rest, terms[1..][j - 1]);
        var i: nat :| i <= |rest| && OccursAt(rest, terms[j], i);
        OccursInSuffix(key, p + |t|, terms[j], i);
      }
    }
  }

  // ---------------------------------------------------------------------
  // Unordered matching

  /** Deleting `s[a..b]` in front of an occurrence moves it back by `b - a`. */
  lemma OccursAfterDeletion(s: string, a: nat, b: nat, t: string, i: nat)
    requires a <= b <= i && OccursAt(s, t, i)
    ensures OccursAt(s[..a] + s[b..], t, i - (b - a))
  {
  }

  /**
   * Deleting `s[a..b]` in front of `from` moves every in-order occurrence
   * after `from` back by the length deleted.
   */
  lemma {:induction false} InOrderAfterDeletion(s: string, a: nat, b: nat, terms: seq<string>, from: nat)
    requires a <= b <= from && b <= |s| && InOrderFrom(s, terms, from)
    ensures InOrderFrom(s[..a] + s[b..], terms, from - (b - a))
    decreases |terms|
  {
    if terms != [] {
      var i := InOrderPick(s, terms, from);
      OccursAfterDeletion(s, a, b, terms[0], i);
      InOrderAfterDeletion(s, a, b, terms[1..], i + |terms[0]|);
      InOrderIntro(s[..a] + s[b..], terms, from - (b - a), i - (b - a));
    }
  }

  /**
   * Deleting the first occurrence of the first term keeps the remaining
   * terms in order: that occurrence is at or before the in-order one.
   */
  lemma InOrderAfterRemoval(s: string, terms: seq<string>)
    requires terms != [] && OccurInOrder(s, terms)
    ensures Find(s, terms[0]).Some? && OccurInOrder(RemoveFirst(s, terms[0]), terms[1..])
  {
    var t := terms[0];
    var i := InOrderPick(s, terms, 0);
    FindIsEarliest(s, t, i);
    var p := Find(s, t).value;
    assert RemoveFirst(s, t) == s[..p] + s[p + |t|..];
    InOrderAfterCut(s, p, t, terms[1..], i);
  }

  /** Cutting `t` out at `p`, at or before an occurrence at `i`, keeps what follows `i` in order. */
  lemma InOrderAfterCut(s: string, p: nat, t: string, rest: seq<string>, i: nat)
    requires p <= i && i + |t| <= |s| && InOrderFrom(s, rest, i + |t|)
    ensures OccurInOrder(s[..p] + s[p + |t|..], rest)
  {
    InOrderAfterDeletion(s, p, p + |t|, rest, i + |t|);
    assert (i + |t|) - ((p + |t|) - p) == i;
    InOrderFromEarlier(s[..p] + s[p + |t|..], rest, 0, i);
  }

  /**
   * A line on which the terms occur in order passes `unordered_match`:
   * deleting the first occurrence of each term leaves the later terms in
   * order.
   */
  lemma {:induction false} InOrderImpliesUnordered(s: string, terms: seq<string>)
    requires OccurInOrder(s, terms)
    ensures UnorderedMatches(s, terms)
    decreases |terms|
  {
    if terms != [] {
      InOrderAfterRemoval(s, terms);
      InOrderImpliesUnordered(RemoveFirst(s, terms[0]), terms[1..]);
    }
  }

  /** Ordered matching is the stronger discipline, for every term list. */
  lemma OrderedImpliesUnordered(key: string, terms: seq<string>)
    requires OrderedMatches(key, terms)
    ensures UnorderedMatches(key, terms)
  {
    OrderedMatchesIffInOrder(key, terms);
    InOrderImpliesUnordered(key, terms);
  }

  /** The characters of all terms, in query order. */
  function Concat(terms: seq<string>): string
  {
    if terms == [] then [] else terms[0] + Concat(terms[1..])
  }

  /**
   * `unordered_match` consumes one distinct occurrence per term: the
   * characters of all matched terms fit, with multiplicity, in the line.
   */
  lemma {:induction false} UnorderedConsumes(key: string, terms: seq<string>)
    requires UnorderedMatches(key, terms)
    ensures multiset(Concat(terms)) <= multiset(key)
    ensures |Concat(terms)| <= |key|
    decreases |terms|
  {
    if terms != [] {
      var t := terms[0];
      RemoveFirstRestores(key, t);
      UnorderedConsumes(RemoveFirst(key, t), terms[1..]);
      assert multiset(Concat(terms)) == multiset(t) + multiset(Concat(terms[1..]));
    }
    assert |multiset(Concat(terms))| <= |multiset(key)|;
  }

  /** Under either mode a matching line holds all the terms' characters. */
  lemma MatchedTermsFit(mode: MatchMode, key: string, terms: seq<string>)
    requires Matches(mode, key, terms)
    ensures multiset(Concat(terms)) <= multiset(key)
  {
    if mode == Ordered {
      OrderedImpliesUnordered(key, terms);
    }
    UnorderedConsumes(key, terms);
  }

  /** Ordered matching needs a separate occurrence for each repeated term. */
  lemma OrderedRepeatExample()
    ensures OrderedMatches("foofoo", ["foo", "foo"])
    ensures !OrderedMatches("foo", ["foo", "foo"])
  {
  }

  /** Unordered matching consumes one occurrence per term, repeated or not. */
  lemma UnorderedRepeatExample()
    ensures UnorderedMatches("aa", ["a", "a"])
    ensures !UnorderedMatches("a", ["a", "a"])
  {
  }

  // ---------------------------------------------------------------------
  // Empty terms and empty lines

  /** An empty query matches every line in both modes. */
  lemma EmptyQueryMatches(mode: MatchMode, key: string)
    ensures Matches(mode, key, [])
  {
  }

  /**
   * A term equal to "" is found at offset 0 and consumes nothing, so
   * inserting it anywhere in the query never changes the outcome.
   */
  lemma EmptyTermIsNeutral(mode: MatchMode, key: string, terms: seq<string>, k: nat)
    requires k <= |terms|
    ensures Matches(mode, key, terms[..k] + [""] + terms[k..]) == Matches(mode, key, terms)
  {
    match mode
    case Ordered => EmptyTermNeutralOrdered(key, terms, k);
    case Unordered => EmptyTermNeutralUnordered(key, terms, k);
  }

  /** `EmptyTermIsNeutral` for `ordered_match`. */
  lemma {:induction false} EmptyTermNeutralOrdered(key: string, terms: seq<string>, k: nat)
    requires k <= |terms|
    ensures OrderedMatches(key, terms[..k] + [""] + terms[k..]) == OrderedMatches(key, terms)
    decreases k
  {
    var with := terms[..k] + [""] + terms[k..];
    if k == 0 {
      assert Find(key, "") == Some(0);
      assert with[0] == "" && with[1..] == terms;
      assert key[0..] == key;
    } else {
      assert with[0] == terms[0];
      assert with[1..] == terms[1..][..k - 1] + [""] + terms[1..][k - 1..];
      match Find(key, terms[0]) {
        case None =>
        case Some(p) =>
          var rest := key[p + |terms[0]|..];
          assert OrderedMatches(key, with) == OrderedMatches(rest, with[1..]);
          assert OrderedMatches(key, terms) == OrderedMatches(rest, terms[1..]);
          EmptyTermNeutralOrdered(rest, terms[1..], k - 1);
      }
    }
  }

  /** `EmptyTermIsNeutral` for `unordered_match`. */
  lemma {:induction false} EmptyTermNeutralUnordered(key: string, terms: seq<string>, k: nat)
    requires k <= |terms|
    ensures UnorderedMatches(key, terms[..k] + [""] + terms[k..]) == UnorderedMatches(key, terms)
    decreases k
  {
    var with := terms[..k] + [""] + terms[k..];
    if k == 0 {
      assert Find(key, "") == Some(0);
      assert with[0] == "" && with[1..] == terms;
      assert RemoveFirst(key, "") == key;
    } else {
      assert with[0] == terms[0];
      assert with[1..] == terms[1..][..k - 1] + [""] + terms[1..][k - 1..];
      if Find(key, terms[0]).Some? {
        EmptyTermNeutralUnordered(RemoveFirst(key, terms[0]), terms[1..], k - 1);
      }
    }
  }

  /**
   * An empty line is matched exactly by the queries whose terms are all
   * "" (not only by the empty query).
   */
  lemma {:induction false} EmptyLineMatches(mode: MatchMode, terms: seq<string>)
    ensures Matches(mode, "", terms) <==> forall j :: 0 <= j < |terms| ==> terms[j] == ""
    decreases |terms|
  {
    if terms != [] {
      assert Find("", "") == Some(0);
      if terms[0] == "" {
        assert ""[0..] == "";
        EmptyLineMatches(mode, terms[1..]);
        assert forall j :: 1 <= j < |terms| ==> terms[j] == terms[1..][j - 1];
      } else {
        assert Find("", terms[0]) == None;
      }
    }
  }

  /** With a single term the two modes agree: the term must be a substring. */
  lemma SingleTermModesAgree(key: string, term: string)
    ensures OrderedMatches(key, [term]) == UnorderedMatches(key, [term]) == IsSubstring(key, term)
  {
  }
}
