/**
 * The `History` object that drives a search: it holds the query, the
 * history lines, the line index and the results, and its methods are the
 * steps `main` runs in turn.
 */
module HistoryGrep {
  import opened Wrappers
  import opened Matching
  import opened LineIndex
  import opened Shell

  /** The command-line flags `apply_flags` reads. */
  datatype Flags = Flags(history: bool, file: bool, ordered: bool)

  /** The branch of `apply_flags`'s `else if` chain that runs. */
  datatype FlagAction = PickHistoryFile | EnterFilePath | UseOrdered | KeepDefaults

  /**
   * Flag precedence: `--history` wins over `--file`, and `--ordered` only
   * takes effect when neither is given.
   */
  function SelectAction(flags: Flags): (a: FlagAction)
    ensures a == PickHistoryFile <==> flags.history
    ensures a == EnterFilePath <==> flags.file && !flags.history
    ensures a == UseOrdered <==> flags.ordered && !flags.history && !flags.file
  {
    if flags.history then PickHistoryFile
    else if flags.file then EnterFilePath
    else if flags.ordered then UseOrdered
    else KeepDefaults
  }

  /** No two entries of `s` are equal. */
  ghost predicate Distinct(s: seq<string>)
  {
    forall i, j :: 0 <= i < j < |s| ==> s[i] != s[j]
  }

  class History {
    var searchTerms: seq<string>
    var homePath: string
    var shellType: Result<string>
    var historyPath: string
    var historyList: seq<string>
    var historyMap: Index
    var queryResults: seq<string>
    var matchMode: MatchMode

    /**
     * `History::new`: `shellType` is what `get_shell` returned and `home`
     * the value of $HOME (`None` when unset, which leaves an empty home
     * path). The default history path is the home path with
     * `.{shell}_history` pushed on, or the bare home path when no shell
     * was found.
     */
    constructor (searchTerms: seq<string>, shellType: Result<string>, home: Option<string>)
      ensures this.searchTerms == searchTerms && this.shellType == shellType
      ensures homePath == (if home.Some? then home.value else "")
      ensures historyPath == if shellType.Ok? then PushPath(homePath, HistoryFileName(shellType.value)) else homePath
      ensures historyList == [] && historyMap == map[] && queryResults == []
      ensures matchMode == Unordered
    {
      this.searchTerms := searchTerms;
      this.shellType := shellType;
      var path := if home.Some? then home.value else "";
      homePath := path;
      if shellType.Ok? {
        path := PushPath(path, HistoryFileName(shellType.value));
      }
      historyPath := path;
      historyList := [];
      historyMap := map[];
      queryResults := [];
      matchMode := Unordered;
    }

    /**
     * `apply_flags`. `picked` is the file chosen in the picker over the
     * home directory's history files (`None` when listing the directory
     * or choosing failed, where the source panics: the result is then
     * false and nothing changes); `entered` is the path typed on stdin.
     */
    method ApplyFlags(flags: Flags, picked: Option<string>, entered: string) returns (ok: bool)
      modifies this`historyPath, this`matchMode
      ensures ok <==> !(flags.history && picked.None?)
      ensures historyPath == match SelectAction(flags)
        case PickHistoryFile => if picked.Some? then picked.value else old(historyPath)
        case EnterFilePath => entered
        case _ => old(historyPath)
      ensures matchMode == if SelectAction(flags) == UseOrdered then Ordered else old(matchMode)
    {
      ok := true;
      match SelectAction(flags) {
        case PickHistoryFile =>
          if picked.Some? {
            historyPath := picked.value;
          } else {
            ok := false;
          }
        case EnterFilePath =>
          historyPath := entered;
        case UseOrdered =>
          matchMode := Ordered;
        case KeepDefaults =>
      }
    }

    /**
     * `load_history_map`: one pass over the lines with a `u16` counter
     * incremented before each push, appending each 1-based position to
     * the entry of its line.
     */
    method LoadHistoryMap()
      requires |historyList| <= MaxLines
      modifies this`historyMap
      ensures historyMap == AddLines(old(historyMap), historyList)
    {
      var lines := historyList;
      var index: u16 := 0;
      while index as int < |lines|
        invariant index as int <= |lines|
        invariant historyMap == AddLines(old(historyMap), lines[..index])
      {
        var line := lines[index];
        assert lines[..index + 1][..index] == lines[..index];
        index := index + 1;
        historyMap := Appended(historyMap, line, index);
      }
      assert lines[..index] == lines;
    }

    /**
     * `query_history_map`: every key of the index is visited once, in no
     * particular order, and the keys the selected matcher accepts are
     * appended to the results.
     */
    method QueryHistoryMap()
      modifies this`queryResults
      ensures |old(queryResults)| <= |queryResults| && queryResults[..|old(queryResults)|] == old(queryResults)
      ensures forall k :: k in queryResults[|old(queryResults)|..] <==> k in historyMap && Matches(matchMode, k, searchTerms)
      ensures Distinct(queryResults[|old(queryResults)|..])
    {
      ghost var start := |queryResults|;
      var keys := historyMap.Keys;
      while keys != {}
        invariant keys <= historyMap.Keys
        invariant start <= |queryResults| && queryResults[..start] == old(queryResults)
        invariant forall k :: k in queryResults[start..] <==> k in historyMap && k !in keys && Matches(matchMode, k, searchTerms)
        invariant Distinct(queryResults[start..])
        decreases keys
      {
        var key :| key in keys;
        var found := Match(matchMode, key, searchTerms);
        if found {
          assert (queryResults + [key])[start..] == queryResults[start..] + [key];
          queryResults := queryResults + [key];
        }
        keys := keys - {key};
      }
    }
  }

  /**
   * `main`: build the object (detecting the shell from $SHELL or from
   * `echoed`, the outcome of `sh -c 'echo $0'`), apply the flags, take
   * the lines the file reader produced for the chosen path, index them
   * and run the query.
   * The results are then exactly the distinct lines that match, under the
   * mode the flags select.
   */
  method Run(searchTerms: seq<string>, flags: Flags, shellVar: Option<string>, echoed: Result<string>,
             home: Option<string>, picked: Option<string>, entered: string, lines: seq<string>)
    returns (h: History, ok: bool)
    requires |lines| <= MaxLines
    ensures h.shellType == GetShell(shellVar, echoed)
    ensures ok <==> !(flags.history && picked.None?)
    ensures ok ==> h.historyList == lines && h.historyMap == Build(lines)
    ensures ok ==> h.matchMode == (if SelectAction(flags) == UseOrdered then Ordered else Unordered)
    ensures ok ==> Distinct(h.queryResults)
    ensures ok ==> forall k :: k in h.queryResults <==> k in lines && Matches(h.matchMode, k, searchTerms)
  {
    h := new History(searchTerms, GetShell(shellVar, echoed), home);
    ok := h.ApplyFlags(flags, picked, entered);
    if !ok {
      return;
    }
    h.historyList := lines;
    h.LoadHistoryMap();
    ghost var index := h.historyMap;
    h.QueryHistoryMap();
    assert h.historyMap == index == Build(lines) && h.searchTerms == searchTerms;
    assert h.queryResults[0..] == h.queryResults;
    MatchingKeysAreMatchingLines(h.queryResults, lines, h.matchMode, searchTerms);
  }

  /** The keys of the index of `lines` that match are the lines that match. */
  lemma MatchingKeysAreMatchingLines(results: seq<string>, lines: seq<string>, mode: MatchMode, terms: seq<string>)
    requires |lines| <= MaxLines
    requires forall k :: k in results <==> k in Build(lines) && Matches(mode, k, terms)
    ensures forall k :: k in results <==> k in lines && Matches(mode, k, terms)
  {
    BuildComplete(lines);
  }
}
