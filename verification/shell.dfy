/**
 * The shell name and the default history file path: `get_shell` keeps the
 * text after the last '/' of the shell executable's path, and
 * `History::new` pushes ".<shell>_history" onto the home directory.
 * Reading $SHELL, $HOME and the output of `sh -c 'echo $0'` is done by the
 * caller; their outcomes are parameters here.
 */
module Shell {
  import opened Wrappers

  /** Why the shell could not be determined. */
  datatype ShellError = EnvVar | Command | Utf8

  datatype Result<T> = Ok(value: T) | Err(error: ShellError)

  /**
   * `path.split('/').last().unwrap_or("")`: the text after the last '/'
   * (all of `path` when it has none, empty when it ends with '/').
   */
  function LastSegment(path: string): (name: string)
    ensures '/' !in name
    ensures |name| <= |path| && name == path[|path| - |name|..]
    ensures |name| < |path| ==> path[|path| - |name| - 1] == '/'
    ensures '/' !in path ==> name == path
    decreases |path|
  {
    if path == [] then []
    else if path[|path| - 1] == '/' then []
    else
      var init, last := path[..|path| - 1], path[|path| - 1];
      var name := LastSegment(init);
      assert path == init + [last];
      assert '/' !in path ==> '/' !in init;
      assert path[|path| - |name| - 1..] == init[|init| - |name|..] + [last];
      name + [last]
  }

  /**
   * `get_shell`: the last segment of the shell path, taken from $SHELL
   * when it is set and otherwise from the trimmed output of
   * `sh -c 'echo $0'` (`echoed`), whose failure is the error returned.
   */
  function GetShell(shellVar: Option<string>, echoed: Result<string>): (r: Result<string>)
    ensures r.Ok? <==> shellVar.Some? || echoed.Ok?
    ensures r.Err? ==> r == echoed
    ensures r.Ok? ==> '/' !in r.value
    ensures shellVar.Some? ==> r == Ok(LastSegment(shellVar.value))
    ensures shellVar.None? && echoed.Ok? ==> r == Ok(LastSegment(echoed.value))
  {
    match shellVar
    case Some(path) => Ok(LastSegment(path))
    case None =>
      match echoed
      case Ok(path) => Ok(LastSegment(path))
      case Err(e) => Err(e)
  }

  /** The default history file name for a shell, `.{shell}_history`. */
  function HistoryFileName(shell: string): (r: string)
    ensures '/' !in shell ==> '/' !in r
    ensures r != [] && r[0] == '.'
  {
    "." + shell + "_history"
  }

  /**
   * `PathBuf::push` on Unix: an absolute `name` replaces the path;
   * otherwise a '/' is inserted unless `base` is empty or already ends
   * with one.
   */
  function PushPath(base: string, name: string): (r: string)
    ensures name != [] && name[0] != '/' ==> |base| <= |r| && r[..|base|] == base
    ensures name != [] && name[0] == '/' ==> r == name
  {
    if name != [] && name[0] == '/' then name
    else if base == [] || base[|base| - 1] == '/' then base + name
    else base + "/" + name
  }

  /** A '/'-free name pushed after a directory is that path's last segment. */
  lemma {:induction false} LastSegmentAfterSlash(dir: string, name: string)
    requires dir == [] || dir[|dir| - 1] == '/'
    requires '/' !in name
    ensures LastSegment(dir + name) == name
    decreases |name|
  {
    var path := dir + name;
    if name == [] {
      assert path == dir;
    } else {
      var init, last := name[..|name| - 1], name[|name| - 1];
      assert name == init + [last];
      assert path[..|path| - 1] == dir + init && path[|path| - 1] == last;
      assert '/' !in init && last != '/';
      LastSegmentAfterSlash(dir, init);
      assert LastSegment(path) == LastSegment(dir + init) + [last];
    }
  }

  /**
   * The default history path lies in the home directory and its last
   * segment is `.{shell}_history` for the detected shell.
   */
  lemma DefaultHistoryPath(home: string, shellPath: string)
    ensures var name := HistoryFileName(LastSegment(shellPath));
      var path := PushPath(home, name);
      |home| <= |path| && path[..|home|] == home && LastSegment(path) == name
  {
    var name := HistoryFileName(LastSegment(shellPath));
    var path := PushPath(home, name);
    assert name[0] == '.';
    if home == [] || home[|home| - 1] == '/' {
      assert path == home + name;
      LastSegmentAfterSlash(home, name);
    } else {
      assert path == (home + "/") + name;
      LastSegmentAfterSlash(home + "/", name);
    }
    assert path[..|home|] == home;
  }

  lemma ShellExamples()
    ensures LastSegment("/bin/zsh") == "zsh"
    ensures LastSegment("bash") == "bash"
  {
  }
}
