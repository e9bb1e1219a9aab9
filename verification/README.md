# history-grep search core, in Dafny

history-grep searches a shell history file for the lines that contain all
of a set of search terms. This project models its search engine
(`src/main.rs`):

- the two **term matchers**: `unordered_match` (each term must occur
  somewhere in the line; its first occurrence is deleted before the next
  term is tried) and `ordered_match` (each term is searched only in the text
  after the previous term's first occurrence);
- the **line index** built by `History::load_history_map`: every distinct
  history line mapped to the 1-based `u16` positions where it occurs;
- the **query executor** `History::query_history_map`, which runs the
  selected matcher over every key of the index and collects the matches;
- the small rules around them: which matcher `apply_flags` selects, the
  shell name taken from the shell path, and the default history path
  `$HOME/.{shell}_history`.

Layout, one module per file:

| file | module | contents |
|---|---|---|
| `wrappers.dfy` | `Wrappers` | `Option` |
| `text.dfy` | `Text` | `str::find` and `str::replacen(t, "", 1)` on `string` |
| `matching.dfy` | `Matching` | the matchers as loops, their specification functions and what they mean |
| `line_index.dfy` | `LineIndex` | the index as a function of the lines and its invariants |
| `shell.dfy` | `Shell` | shell name, history file name, `PathBuf::push` |
| `history.dfy` | `HistoryGrep` | the `History` class, flag precedence, and `Run` (the steps of `main`) |

Strings are sequences of characters; `find` in the source returns a byte
offset that always lies on a character boundary, so character offsets give
the same matches. The matcher loops and the
indexing loop are methods proved equal to recursive specification
functions (`OrderedMatches`, `UnorderedMatches`, `AddLines`), and the
properties are lemmas about those functions; the query loop over the
index keys is proved against a postcondition stating the result set
directly (exactly the accepted keys, each once, after the earlier
results). The
`match_fn` function pointer is the `MatchMode` datatype, dispatched by
`Matching.Match`.

Inputs the source gets from its environment are parameters: the outcome of
shell detection (`$SHELL`, or the trimmed output of `sh -c 'echo $0'`), the
value of `$HOME`, the path chosen in the interactive picker, the path typed
on stdin, and the lines the file reader produced.

Notes on the code's behaviour, modelled as the code has it:

- There is no shell-dialect normaliser: lines are indexed verbatim
  (src/main.rs:127), so extended-history framing (`: <epoch>:<duration>;`)
  stays part of the key.
- A term equal to `""` is found at offset 0 and consumes nothing
  (src/main.rs:238, 250-251), so it never causes a mismatch
  (`EmptyTermIsNeutral`); an empty line is matched by every query whose
  terms are all `""`, not only by the empty query (`EmptyLineMatches`).
- Ordered matching implies unordered matching for every term list, repeated
  terms included (`OrderedImpliesUnordered`); the converse fails, and
  unordered matching can accept a term that is not a substring of the line,
  because it searches the line after earlier terms were deleted
  (src/main.rs:250-251, `UnorderedDoesNotImplyOrdered`).
- `query_results` holds only the matching keys; their positions are printed,
  not stored (src/main.rs:146-150).

## Model

| member | source | states |
|---|---|---|
| `Text.Find` | src/main.rs:238 | the offset found is an occurrence of the term; `None` exactly when the term is not a substring |
| `Text.FindIsEarliest` | src/main.rs:238 | `find` returns the first occurrence: every occurrence of the term lies at or after the offset found |
| `Text.RemoveFirst` | src/main.rs:251 | deleting the first occurrence shortens the line by the term's length, and leaves it unchanged when the term is absent |
| `Text.RemoveFirstRestores` | src/main.rs:250-251 | inserting the term back at its first-occurrence offset restores the line; the line's characters are the remainder's plus the term's (as multisets) |
| `Matching.OrderedMatch` | src/main.rs:235-245 | the loop that advances past each match returns exactly `OrderedMatches(key, args)` |
| `Matching.UnorderedMatch` | src/main.rs:248-257 | the loop that deletes each term's first occurrence returns exactly `UnorderedMatches(key, args)` |
| `Matching.Match` | src/main.rs:145 | a call through `match_fn` returns what the selected matcher's specification gives |
| `Matching.OrderedMatchesAreInOrder` | src/main.rs:235-245 | when ordered matching accepts the text after an offset, the terms occur in it non-overlapping and in query order |
| `Matching.InOrderIsMatched` | src/main.rs:235-245 | when the terms occur non-overlapping and in query order after an offset, ordered matching of the text from there accepts it |
| `Matching.OrderedMatchesIffInOrder` | src/main.rs:235-245 | greedy first-occurrence search succeeds if and only if the terms occur in the line non-overlapping and in query order |
| `Matching.OrderedTermsAreSubstrings` | src/main.rs:237-243 | when ordered matching succeeds every term is a substring of the original line |
| `Matching.InOrderAfterRemoval` | src/main.rs:250-251 | when the terms occur in order, deleting the first occurrence of the first term leaves the remaining terms in order |
| `Matching.InOrderImpliesUnordered` | src/main.rs:248-257 | a line on which the terms occur non-overlapping and in order passes unordered matching |
| `Matching.OrderedImpliesUnordered` | src/main.rs:235-257 | every line accepted by ordered matching is accepted by unordered matching, for any term list |
| `Matching.UnorderedDoesNotImplyOrdered` | src/main.rs:235-257 | "acb" matches `["c", "ab"]` unordered (across the gap of the deleted "c") but not ordered, and "ab" is not a substring of "acb" |
| `Matching.UnorderedConsumes` | src/main.rs:248-257 | when unordered matching succeeds the terms' characters, with multiplicity, are contained in the line, so the terms' total length is at most the line's |
| `Matching.MatchedTermsFit` | src/main.rs:235-257 | in either mode a matching line contains the characters of all terms with multiplicity |
| `Matching.OrderedRepeatExample` | src/main.rs:235-245 | "foofoo" matches `["foo", "foo"]` ordered and "foo" does not |
| `Matching.UnorderedRepeatExample` | src/main.rs:248-257 | "aa" matches `["a", "a"]` unordered and "a" does not |
| `Matching.EmptyQueryMatches` | src/main.rs:244 | the empty term list matches every line in both modes |
| `Matching.EmptyTermIsNeutral` | src/main.rs:237-256 | inserting a `""` term anywhere in the query leaves the outcome of either matcher unchanged |
| `Matching.EmptyLineMatches` | src/main.rs:235-257 | the empty line matches exactly the queries whose terms are all `""` |
| `Matching.SingleTermModesAgree` | src/main.rs:235-257 | with one term both modes accept exactly the lines that contain it |
| `LineIndex.Appended` | src/main.rs:159-162 | `entry(..).or_insert_with(Vec::new).push(pos)` adds the line as a key, appends the position to its list only, and leaves the other entries unchanged |
| `LineIndex.BuildSound` | src/main.rs:155-164 | every listed position lies in 1..n and the line at that position is the key |
| `LineIndex.BuildIncreasing` | src/main.rs:155-164 | every position list is non-empty and strictly increasing |
| `LineIndex.BuildComplete` | src/main.rs:155-164 | the keys are exactly the distinct lines and every line's position is listed under it |
| `LineIndex.BuildIndexes` | src/main.rs:155-164 | the built map is exactly the index of the lines (the three properties above together) |
| `LineIndex.BuildCounts` | src/main.rs:155-164 | each key's list has as many positions as the line occurs |
| `LineIndex.BuildTotal` | src/main.rs:155-164 | the list lengths sum to the number of lines |
| `LineIndex.BuildExample` | src/main.rs:155-164 | `["a", "b", "a"]` gives `"a" -> [1, 3]` and `"b" -> [2]` |
| `Shell.LastSegment` | src/main.rs:211 | the shell name is the suffix of the path after its last '/': it has no '/', is a suffix of the path, is preceded by '/' when shorter than the path, and is the whole path when the path has no '/' |
| `Shell.GetShell` | src/main.rs:186-216 | the last segment of `$SHELL` when it is set, else the last segment of the `echo $0` output; the result is an error only when both fail, and then it is that command's error; a shell name never holds '/' |
| `Shell.ShellExamples` | src/main.rs:211 | `/bin/zsh` gives `zsh` and `bash` gives `bash` |
| `Shell.HistoryFileName` | src/main.rs:68 | `.{shell}_history` starts with '.' and has no '/' when the shell name has none |
| `Shell.PushPath` | src/main.rs:68 | pushing a relative name keeps the base path as a prefix; an absolute name replaces it |
| `Shell.DefaultHistoryPath` | src/main.rs:64-69 | the default history path starts with the home path and its last segment is `.{shell}_history` |
| `HistoryGrep.SelectAction` | src/main.rs:86-98 | `--history` wins, `--file` applies only without `--history`, `--ordered` only without both |
| `HistoryGrep.History.constructor` | src/main.rs:55-81 | the default history path is `$HOME` with `.{shell}_history` pushed when the shell is known; the index and results start empty and the matcher is unordered |
| `HistoryGrep.History.ApplyFlags` | src/main.rs:83-98 | sets the history path from the picker or from stdin, or selects ordered matching, per the flag precedence; fails where the source panics on a failed pick |
| `HistoryGrep.History.LoadHistoryMap` | src/main.rs:155-164 | the new map is the old one with every line's 1-based position appended to its entry, in file order |
| `HistoryGrep.History.QueryHistoryMap` | src/main.rs:138-153 | the results gain exactly the index keys the selected matcher accepts, each once, after the earlier results |
| `HistoryGrep.Run` | src/main.rs:292-302 | after the steps of `main` the shell type is what `get_shell` gives for the environment, the index is built from the lines and the results are exactly the distinct lines matching under the mode the flags select, each once |

## Left out

- Command-line parsing with clap (`Cli`, `Cli::parse`): the flags are the `Flags` value and the search terms a parameter.
- The `--dedupe` flag: it is parsed but never read.
- Reading `$SHELL` and `$HOME` and running `sh -c 'echo $0'` (including trimming its output and the details carried by `ShellError`): their outcomes are parameters of `GetShell` and the constructor.
- File and directory I/O (`read_lines`, `load_history`, `get_hist_file_paths`): the lines read are the `lines` parameter of `Run`; a line that fails to decode is simply absent from it.
- The interactive steps `get_file_path` and `choose_file`: their results are parameters of `ApplyFlags`; a failed listing or pick, where the source panics, is the `false` result.
- `get_current_directory` (never called), `ShellError`'s `Display` implementation, and all printing, including the positions `query_history_map` prints for each match.
- HistoryGrep.History.LoadHistoryMap: requires at most 65535 lines; beyond that the `u16` counter overflows (a panic in debug builds, wrap-around in release builds), which is not modelled.
- HistoryGrep.Run: states that the index equals `Build(lines)`; the index invariants themselves follow from `LineIndex.BuildIndexes` rather than being repeated in its postcondition.
- The order in which `query_history_map` visits the keys: `HashMap` order is unspecified, so the results are stated as a set (with no repeats), not as a sequence.
- Dialect normalisation of extended-history lines: the code has none.
