/**
 * The line index built by `load_history_map`: every distinct history line
 * is mapped to the 1-based positions at which it occurs, positions being
 * `u16` values as in the source.
 */
module LineIndex {

  /** Rust's `u16`. */
  newtype u16 = x: int | 0 <= x < 0x1_0000

  /** The most lines whose positions a `u16` counter can number from 1. */
  const MaxLines: nat := 0xFFFF

  type Index = map<string, seq<u16>>

  /** `m.entry(line).or_insert_with(Vec::new).push(pos)` */
  function Appended(m: Index, line: string, pos: u16): (r: Index)
    ensures r.Keys == m.Keys + {line}
    ensures line in m ==> r[line] == m[line] + [pos]
    ensures line !in m ==> r[line] == [pos]
    ensures forall k :: k in m && k != line ==> r[k] == m[k]
  {
    m[line := (if line in m then m[line] else []) + [pos]]
  }

  /** `m` after each of `lines` has been appended at its 1-based position. */
  function AddLines(m: Index, lines: seq<string>): Index
    requires |lines| <= MaxLines
    decreases |lines|
  {
    if lines == [] then m
    else Appended(AddLines(m, lines[..|lines| - 1]), lines[|lines| - 1], |lines| as u16)
  }

  /** The index of `lines` built from an empty map. */
  function Build(lines: seq<string>): Index
    requires |lines| <= MaxLines
  {
    AddLines(map[], lines)
  }

  /** Strictly increasing positions. */
  ghost predicate Increasing(ps: seq<u16>)
  {
    forall i, j :: 0 <= i < j < |ps| ==> ps[i] < ps[j]
  }

  /** The keys of `m` are exactly the distinct lines. */
  ghost predicate KeysAreLines(m: Index, lines: seq<string>)
  {
    forall k :: k in m <==> k in lines
  }

  /** Every list of positions is non-empty and strictly increasing. */
  ghost predicate ListsIncreasing(m: Index)
  {
    forall k :: k in m ==> m[k] != [] && Increasing(m[k])
  }

  /** Every listed position `p` is a line of `lines` and line `p` (1-based) is its key. */
  ghost predicate PositionsSound(m: Index, lines: seq<string>)
  {
    forall k, j :: k in m && 0 <= j < |m[k]| ==> 1 <= m[k][j] as int <= |lines| && lines[m[k][j] - 1] == k
  }

  /** Every line's position is listed under that line. */
  ghost predicate PositionsComplete(m: Index, lines: seq<string>)
  {
    forall i :: 0 <= i < |lines| ==> lines[i] in m && Listed(m[lines[i]], i + 1)
  }

  /** Position `p` is in `ps`. */
  ghost predicate Listed(ps: seq<u16>, p: int)
  {
    exists j :: 0 <= j < |ps| && ps[j] as int == p
  }

  /**
   * `m` indexes `lines` exactly: its keys are the distinct lines, each
   * list of positions is non-empty and increasing, and `p` is in the list
   * of `k` exactly when line `p` (1-based) is `k`.
   */
  ghost predicate IndexOf(m: Index, lines: seq<string>)
  {
    KeysAreLines(m, lines) && ListsIncreasing(m) && PositionsSound(m, lines) && PositionsComplete(m, lines)
  }

  /** Positions are sound: each is within range and points back at its key. */
  lemma {:induction false} BuildSound(lines: seq<string>)
    requires |lines| <= MaxLines
    ensures PositionsSound(Build(lines), lines)
    decreases |lines|
  {
    if lines != [] {
      var n := |lines|;
      var pre, line := lines[..n - 1], lines[n - 1];
      BuildSound(pre);
      var m, m' := Build(pre), Build(lines);
      forall k, j | k in m' && 0 <= j < |m'[k]|
        ensures 1 <= m'[k][j] as int <= n && lines[m'[k][j] - 1] == k
      {
        if k != line || j < |m'[k]| - 1 {
          assert m'[k][j] == m[k][j];
          assert lines[m[k][j] - 1] == pre[m[k][j] - 1];
        }
      }
    }
  }

  /** Lists are non-empty and strictly increasing. */
  lemma {:induction false} BuildIncreasing(lines: seq<string>)
    requires |lines| <= MaxLines
    ensures ListsIncreasing(Build(lines))
    decreases |lines|
  {
    if lines != [] {
      var n := |lines|;
      var pre, line := lines[..n - 1], lines[n - 1];
      BuildIncreasing(pre);
      BuildSound(pre);
      var m, m' := Build(pre), Build(lines);
      forall k | k in m' ensures m'[k] != [] && Increasing(m'[k]) {
        if k == line && k in m {
          assert forall j :: 0 <= j < |m[k]| ==> m[k][j] < n as u16;
          AppendIncreasing(m[k], n as u16);
        }
      }
    }
  }

  lemma AppendIncreasing(ps: seq<u16>, p: u16)
    requires Increasing(ps)
    requires forall j :: 0 <= j < |ps| ==> ps[j] < p
    ensures Increasing(ps + [p])
  {
  }

  /** Every line is a key and its position is listed. */
  lemma {:induction false} BuildComplete(lines: seq<string>)
    requires |lines| <= MaxLines
    ensures KeysAreLines(Build(lines), lines) && PositionsComplete(Build(lines), lines)
    decreases |lines|
  {
    if lines != [] {
      var n := |lines|;
      var pre, line := lines[..n - 1], lines[n - 1];
      BuildComplete(pre);
      var m, m' := Build(pre), Build(lines);
      assert lines == pre + [line];
      forall i | 0 <= i < n ensures lines[i] in m' && Listed(m'[lines[i]], i + 1) {
        if i < n - 1 {
          assert lines[i] == pre[i];
          var j :| 0 <= j < |m[pre[i]]| && m[pre[i]][j] as int == i + 1;
          assert m'[lines[i]][j] == m[pre[i]][j];
        } else {
          assert m'[line][|m'[line]| - 1] as int == n;
        }
      }
    }
  }

  /** Building the index of `lines` yields exactly the index of `lines`. */
  lemma BuildIndexes(lines: seq<string>)
    requires |lines| <= MaxLines
    ensures IndexOf(Build(lines), lines)
  {
    BuildSound(lines);
    BuildIncreasing(lines);
    BuildComplete(lines);
  }

  /** Each line is listed as many times as it occurs. */
  lemma {:induction false} BuildCounts(lines: seq<string>)
    requires |lines| <= MaxLines
    ensures forall k :: k in Build(lines) ==> |Build(lines)[k]| == multiset(lines)[k]
    decreases |lines|
  {
    if lines != [] {
      var n := |lines|;
      var pre := lines[..n - 1];
      BuildCounts(pre);
      assert lines == pre + [lines[n - 1]];
      assert forall k :: k !in Build(pre) ==> multiset(pre)[k] == 0 by {
        BuildComplete(pre);
      }
    }
  }

  /** The total number of positions stored for the keys `keys`. */
  ghost function SumLengths(m: Index, keys: set<string>): nat
    requires keys <= m.Keys
    decreases keys
  {
    if keys == {} then 0
    else
      var k :| k in keys;
      |m[k]| + SumLengths(m, keys - {k})
  }

  /** The total number of positions in `m`. */
  ghost function Total(m: Index): nat
  {
    SumLengths(m, m.Keys)
  }

  /** The sum does not depend on the key `SumLengths` happens to pick first. */
  lemma {:induction false} SumLengthsRemove(m: Index, keys: set<string>, k: string)
    requires keys <= m.Keys && k in keys
    ensures SumLengths(m, keys) == |m[k]| + SumLengths(m, keys - {k})
    decreases keys
  {
    var c :| c in keys && SumLengths(m, keys) == |m[c]| + SumLengths(m, keys - {c});
    if c != k {
      SumLengthsRemove(m, keys - {c}, k);
      SumLengthsRemove(m, keys - {k}, c);
      assert keys - {c} - {k} == keys - {k} - {c};
    }
  }

  /** Keys whose lists agree contribute the same sum. */
  lemma {:induction false} SumLengthsFrame(m: Index, m': Index, keys: set<string>)
    requires keys <= m.Keys && keys <= m'.Keys
    requires forall k :: k in keys ==> m[k] == m'[k]
    ensures SumLengths(m, keys) == SumLengths(m', keys)
    decreases keys
  {
    if keys != {} {
      var c :| c in keys && SumLengths(m, keys) == |m[c]| + SumLengths(m, keys - {c});
      SumLengthsFrame(m, m', keys - {c});
      SumLengthsRemove(m', keys, c);
    }
  }

  /** Appending a position adds one to the total. */
  lemma AppendedTotal(m: Index, line: string, pos: u16)
    ensures Total(Appended(m, line, pos)) == Total(m) + 1
  {
    var r := Appended(m, line, pos);
    if line in m {
      assert r.Keys == m.Keys;
      SumLengthsRemove(r, r.Keys, line);
      SumLengthsRemove(m, m.Keys, line);
      SumLengthsFrame(m, r, m.Keys - {line});
    } else {
      SumLengthsRemove(r, r.Keys, line);
      assert r.Keys - {line} == m.Keys;
      SumLengthsFrame(m, r, m.Keys);
    }
  }

  /** The position lists together hold one position per line. */
  lemma {:induction false} BuildTotal(lines: seq<string>)
    requires |lines| <= MaxLines
    ensures Total(Build(lines)) == |lines|
    decreases |lines|
  {
    if lines != [] {
      BuildTotal(lines[..|lines| - 1]);
      AppendedTotal(Build(lines[..|lines| - 1]), lines[|lines| - 1], |lines| as u16);
    }
  }

  lemma BuildExample()
    ensures Build(["a", "b", "a"]) == map["a" := [1, 3], "b" := [2]]
  {
    assert ["a", "b", "a"][..2] == ["a", "b"];
    assert ["a", "b"][..1] == ["a"];
    assert ["a"][..0] == [];
    assert Build(["a"]) == map["a" := [1]];
    assert Build(["a", "b"]) == map["a" := [1], "b" := [2]];
    assert Build(["a", "b", "a"]) == Appended(map["a" := [1], "b" := [2]], "a", 3);
    assert [1 as u16] + [3 as u16] == [1, 3];
  }
}
