/**
 * The shell's behaviour as functions on a session value: the current
 * directory, the action log, and whether `exit` has ended the session.
 * The class in module Emulator is proved to follow these functions.
 */
module Semantics {
  import opened Wrappers
  import opened Text
  import opened Paths
  import opened Vfs
  import opened Distinct

  /** The `result` of a log entry: a message string or a list of strings. */
  datatype Outcome = Message(text: string) | Items(items: seq<string>)

  datatype LogEntry = LogEntry(command: string, result: Outcome)

  datatype Session = Session(cwd: Path, log: seq<LogEntry>, terminated: bool)

  const DirectoryNotFound: string := "Directory not found"
  const FileNotFound: string := "File not found"

  /** The command names the interpreter recognises, compared exactly. */
  predicate IsCommandName(name: string) {
    name == "ls" || name == "cd" || name == "pwd" || name == "uniq" || name == "exit"
  }

  /** The current directory is a normal path naming a directory of `fs`. */
  predicate ValidCwd(fs: FileSystem, cwd: Path) {
    IsNormal(cwd) && cwd in fs && fs[cwd].Dir?
  }

  /** `log_action`: one entry appended at the end; earlier entries are untouched. */
  function Logged(s: Session, command: string, result: Outcome): (r: Session)
    ensures r.cwd == s.cwd && r.terminated == s.terminated
    ensures s.log <= r.log && |r.log| == |s.log| + 1
    ensures r.log[|s.log|] == LogEntry(command, result)
  {
    s.(log := s.log + [LogEntry(command, result)])
  }

  /** `cmd_ls`: logs the listing of the current directory, or the error listing it. */
  function Ls(fs: FileSystem, s: Session): (r: Session)
    requires ValidCwd(fs, s.cwd)
    ensures r.cwd == s.cwd && r.terminated == s.terminated
    ensures s.log <= r.log && |r.log| == |s.log| + 1 && r.log[|s.log|].command == "ls"
    ensures r.log[|s.log|].result.Items? <==> fs[s.cwd].listing.Success?
  {
    match fs[s.cwd].listing
    case Success(entries) => Logged(s, "ls", Items(entries))
    case Failure(message) => Logged(s, "ls", Message(message))
  }

  /**
   * `cmd_cd`: with one argument, moves to the resolved target when it is a
   * directory and logs the target as joined (before resolution).
   */
  function Cd(fs: FileSystem, s: Session, args: seq<string>): (r: Session)
    requires ValidCwd(fs, s.cwd)
    ensures ValidCwd(fs, r.cwd)
  {
    if |args| != 1 then s
    else
      var target := Join(s.cwd, args[0]);
      if IsDirectory(fs, target) then
        LookupResolves(fs, target);
        ResolveIsNormal(target);
        Logged(s.(cwd := Resolve(target)), "cd", Message(Render(target)))
      else
        Logged(s, "cd", Message(DirectoryNotFound))
  }

  /** `cmd_pwd`: logs the current directory. */
  function Pwd(s: Session): (r: Session)
    ensures r.cwd == s.cwd && r.terminated == s.terminated
    ensures s.log <= r.log && |r.log| == |s.log| + 1
    ensures r.log[|s.log|] == LogEntry("pwd", Message(Render(s.cwd)))
  {
    Logged(s, "pwd", Message(Render(s.cwd)))
  }

  /** `cmd_uniq`: with one argument naming a regular file, logs its deduplicated lines. */
  function Uniq(fs: FileSystem, s: Session, args: seq<string>): (r: Session)
    ensures r.cwd == s.cwd && r.terminated == s.terminated
    ensures s.log <= r.log && |r.log| == |s.log| + (if |args| == 1 then 1 else 0)
    ensures |args| == 1 ==> r.log[|s.log|].command == "uniq"
  {
    if |args| != 1 then s
    else
      var file := Join(s.cwd, args[0]);
      if !IsRegularFile(fs, file) then Logged(s, "uniq", Message(FileNotFound))
      else
        match fs[Lookup(fs, file).value].content
        case Success(lines) => Logged(s, "uniq", Items(Dedup(lines)))
        case Failure(message) => Logged(s, "uniq", Message(message))
  }

  /** `execute_command`: splits the line and dispatches on its first token. */
  function Execute(fs: FileSystem, s: Session, line: string): (r: Session)
    requires ValidCwd(fs, s.cwd)
    ensures ValidCwd(fs, r.cwd)
  {
    var parts := Split(line);
    if parts == [] then s
    else
      var cmd, args := parts[0], parts[1..];
      if cmd == "ls" then Ls(fs, s)
      else if cmd == "cd" then Cd(fs, s, args)
      else if cmd == "pwd" then Pwd(s)
      else if cmd == "uniq" then Uniq(fs, s, args)
      else if cmd == "exit" then s.(terminated := true)
      else s
  }

  /** `load_startup_script`: runs each line, stripped, in order, until `exit`. */
  function RunScript(fs: FileSystem, s: Session, lines: seq<string>): (r: Session)
    requires ValidCwd(fs, s.cwd)
    ensures ValidCwd(fs, r.cwd)
    decreases |lines|
  {
    if lines == [] || s.terminated then s
    else RunScript(fs, Execute(fs, s, Strip(lines[0])), lines[1..])
  }

  //
  // One line
  //

  /** A blank line, or one whose first token is no command name, changes nothing. */
  lemma IgnoredLine(fs: FileSystem, s: Session, line: string)
    requires ValidCwd(fs, s.cwd)
    requires AllSeps(line, IsSpace) || (Split(line) != [] && !IsCommandName(Split(line)[0]))
    ensures Execute(fs, s, line) == s
  {
    SplitEmptyIffBlank(line);
  }

  /** `exit` logs nothing, keeps the directory and ends the session. */
  lemma ExitLine(fs: FileSystem, s: Session, line: string)
    requires ValidCwd(fs, s.cwd)
    requires Split(line) != [] && Split(line)[0] == "exit"
    ensures Execute(fs, s, line) == s.(terminated := true)
  {
  }

  /** Only `exit` ends a session. */
  lemma OnlyExitTerminates(fs: FileSystem, s: Session, line: string)
    requires ValidCwd(fs, s.cwd)
    ensures Execute(fs, s, line).terminated <==> s.terminated || (Split(line) != [] && Split(line)[0] == "exit")
  {
  }

  /** The log only grows, by at most one entry at its end. */
  lemma ExecuteAppendsAtMostOne(fs: FileSystem, s: Session, line: string)
    requires ValidCwd(fs, s.cwd)
    ensures s.log <= Execute(fs, s, line).log
    ensures |Execute(fs, s, line).log| <= |s.log| + 1
  {
  }

  /** Only a successful `cd` changes the current directory. */
  lemma OnlyCdMoves(fs: FileSystem, s: Session, line: string)
    requires ValidCwd(fs, s.cwd)
    requires Execute(fs, s, line).cwd != s.cwd
    ensures |Split(line)| == 2 && Split(line)[0] == "cd"
    ensures IsDirectory(fs, Join(s.cwd, Split(line)[1]))
  {
  }

  /** `ls` (any arguments are ignored) logs the directory's entries or the error. */
  lemma LsLine(fs: FileSystem, s: Session, line: string)
    requires ValidCwd(fs, s.cwd)
    requires Split(line) != [] && Split(line)[0] == "ls"
    ensures Execute(fs, s, line).cwd == s.cwd
    ensures Execute(fs, s, line).log == s.log + [LogEntry("ls",
      match fs[s.cwd].listing
      case Success(entries) => Items(entries)
      case Failure(message) => Message(message))]
  {
  }

  /** On a host filesystem, the entries `ls` logs are exactly the children of the current directory. */
  lemma LsListsChildren(fs: FileSystem, s: Session)
    requires ValidCwd(fs, s.cwd) && WellFormed(fs)
    requires Ls(fs, s).log[|s.log|].result.Items?
    ensures ListsChildren(fs, s.cwd, Ls(fs, s).log[|s.log|].result.items)
  {
  }

  /** `pwd` logs the current directory and changes nothing else. */
  lemma PwdLine(fs: FileSystem, s: Session, line: string)
    requires ValidCwd(fs, s.cwd)
    requires Split(line) != [] && Split(line)[0] == "pwd"
    ensures Execute(fs, s, line) == s.(log := s.log + [LogEntry("pwd", Message(Render(s.cwd)))])
  {
  }

  /** `cd` and `uniq` with other than one argument change nothing. */
  lemma WrongArity(fs: FileSystem, s: Session, line: string)
    requires ValidCwd(fs, s.cwd)
    requires Split(line) != [] && (Split(line)[0] == "cd" || Split(line)[0] == "uniq")
    requires |Split(line)| != 2
    ensures Execute(fs, s, line) == s
  {
  }

  /**
   * `cd d` into a directory: the current directory becomes the directory the
   * host found, and the one entry logged holds the joined, unresolved path.
   */
  lemma CdFound(fs: FileSystem, s: Session, line: string, d: string)
    requires ValidCwd(fs, s.cwd)
    requires Split(line) == ["cd", d]
    requires IsDirectory(fs, Join(s.cwd, d))
    ensures Execute(fs, s, line).cwd == Resolve(Join(s.cwd, d)) == Lookup(fs, Join(s.cwd, d)).value
    ensures Execute(fs, s, line).log == s.log + [LogEntry("cd", Message(Render(Join(s.cwd, d))))]
    ensures Execute(fs, s, line).terminated == s.terminated
  {
    LookupResolves(fs, Join(s.cwd, d));
  }

  /** `cd d` to anything but a directory logs "Directory not found" and stays put. */
  lemma CdNotFound(fs: FileSystem, s: Session, line: string, d: string)
    requires ValidCwd(fs, s.cwd)
    requires Split(line) == ["cd", d]
    requires !IsDirectory(fs, Join(s.cwd, d))
    ensures Execute(fs, s, line) == s.(log := s.log + [LogEntry("cd", Message(DirectoryNotFound))])
  {
  }

  lemma ComponentsOfName(d: string)
    requires IsName(d)
    ensures !IsAbsolute(d) && Components(d) == [d]
  {
    FieldsJoinWith([d], '/', IsSlash);
  }

  /** `cd d` into a child directory `d` moves to `cwd + [d]` and logs that path. */
  lemma CdChild(fs: FileSystem, s: Session, line: string, d: string)
    requires ValidCwd(fs, s.cwd)
    requires Split(line) == ["cd", d] && IsName(d)
    requires IsDirectory(fs, s.cwd + [d])
    ensures Execute(fs, s, line) == s.(cwd := s.cwd + [d], log := s.log + [LogEntry("cd", Message(Render(s.cwd + [d])))])
  {
    ComponentsOfName(d);
    assert Join(s.cwd, d) == s.cwd + [d];
    ResolveNormal(s.cwd + [d]);
    CdFound(fs, s, line, d);
  }

  lemma SplitPwd()
    ensures Split("pwd") == ["pwd"]
  {
    assert IsField("pwd", IsSpace);
    SplitJoin(["pwd"]);
  }

  /** After `cd d` into a child directory `d`, `pwd` logs a path ending in "/d", the same string `cd` logged. */
  lemma CdChildThenPwd(fs: FileSystem, s: Session, line: string, d: string)
    requires ValidCwd(fs, s.cwd)
    requires Split(line) == ["cd", d] && IsName(d)
    requires IsDirectory(fs, s.cwd + [d])
    ensures var t := Execute(fs, s, line);
      && t.cwd == s.cwd + [d]
      && t.log == s.log + [LogEntry("cd", Message(Render(t.cwd)))]
      && Execute(fs, t, "pwd").log == t.log + [LogEntry("pwd", Message(Render(t.cwd)))]
      && Render(t.cwd) == (if s.cwd == [] then "" else Render(s.cwd)) + "/" + d
  {
    CdChild(fs, s, line, d);
    RenderSnoc(s.cwd, d);
    SplitPwd();
    PwdLine(fs, Execute(fs, s, line), "pwd");
  }

  /** `uniq f` on anything but a regular file logs "File not found" and stays put. */
  lemma UniqNotFound(fs: FileSystem, s: Session, line: string, f: string)
    requires ValidCwd(fs, s.cwd)
    requires Split(line) == ["uniq", f]
    requires !IsRegularFile(fs, Join(s.cwd, f))
    ensures Execute(fs, s, line) == s.(log := s.log + [LogEntry("uniq", Message(FileNotFound))])
  {
  }

  /**
   * `uniq f` on a readable file logs one entry whose lines are the file's lines
   * deduplicated in first-occurrence order.
   */
  lemma UniqFound(fs: FileSystem, s: Session, line: string, f: string, lines: seq<string>)
    requires ValidCwd(fs, s.cwd)
    requires Split(line) == ["uniq", f]
    requires IsRegularFile(fs, Join(s.cwd, f))
    requires fs[Lookup(fs, Join(s.cwd, f)).value].content == Success(lines)
    ensures Execute(fs, s, line) == s.(log := s.log + [LogEntry("uniq", Items(Dedup(lines)))])
    ensures Execute(fs, s, line).log[|s.log|].result.Items?
    ensures IsFirstOccurrenceOrder(lines, Execute(fs, s, line).log[|s.log|].result.items)
  {
    DedupIsFirstOccurrenceOrder(lines);
  }

  /** A line runs the same stripped or not. */
  lemma StripDoesNotMatter(fs: FileSystem, s: Session, line: string)
    requires ValidCwd(fs, s.cwd)
    ensures Execute(fs, s, Strip(line)) == Execute(fs, s, line)
  {
    SplitStrip(line);
  }

  //
  // The startup script
  //

  /** Running `a` then `b` is running `a + b`: lines run in file order. */
  lemma {:induction false} RunScriptAppend(fs: FileSystem, s: Session, a: seq<string>, b: seq<string>)
    requires ValidCwd(fs, s.cwd)
    ensures RunScript(fs, s, a + b) == RunScript(fs, RunScript(fs, s, a), b)
    decreases |a|
  {
    if a != [] && !s.terminated {
      assert (a + b)[1..] == a[1..] + b;
      RunScriptAppend(fs, Execute(fs, s, Strip(a[0])), a[1..], b);
    } else if a == [] {
      assert a + b == b;
    }
  }

  /** A script that has not ended runs its first line, then the rest from the new state. */
  lemma RunScriptCons(fs: FileSystem, s: Session, lines: seq<string>)
    requires ValidCwd(fs, s.cwd) && lines != [] && !s.terminated
    ensures RunScript(fs, s, lines) == RunScript(fs, Execute(fs, s, lines[0]), lines[1..])
  {
    StripDoesNotMatter(fs, s, lines[0]);
  }

  /** Once the session has ended, no further line runs. */
  lemma RunScriptTerminated(fs: FileSystem, s: Session, lines: seq<string>)
    requires ValidCwd(fs, s.cwd) && s.terminated
    ensures RunScript(fs, s, lines) == s
  {
  }

  /** One more line: it runs, stripped, unless the session has ended. */
  lemma RunScriptSnoc(fs: FileSystem, s: Session, lines: seq<string>, line: string)
    requires ValidCwd(fs, s.cwd)
    ensures var t := RunScript(fs, s, lines);
      RunScript(fs, s, lines + [line]) == if t.terminated then t else Execute(fs, t, line)
  {
    RunScriptAppend(fs, s, lines, [line]);
    var t := RunScript(fs, s, lines);
    assert RunScript(fs, t, [line]) == if t.terminated then t else RunScript(fs, Execute(fs, t, Strip(line)), []);
    if !t.terminated {
      StripDoesNotMatter(fs, t, line);
    }
  }

  /**
   * An `exit` at line `k` ends the session with the log and the directory that
   * lines 0..k-1 produced; the lines after it never run.
   */
  lemma RunScriptStopsAtExit(fs: FileSystem, s: Session, lines: seq<string>, k: nat)
    requires ValidCwd(fs, s.cwd)
    requires k < |lines| && !RunScript(fs, s, lines[..k]).terminated
    requires Split(lines[k]) != [] && Split(lines[k])[0] == "exit"
    ensures RunScript(fs, s, lines) == RunScript(fs, s, lines[..k]).(terminated := true)
  {
    var t := RunScript(fs, s, lines[..k]);
    SplitAround(lines, k);
    RunScriptAppend(fs, s, lines[..k] + [lines[k]], lines[k + 1..]);
    RunScriptSnoc(fs, s, lines[..k], lines[k]);
    ExitLine(fs, t, lines[k]);
    RunScriptTerminated(fs, t.(terminated := true), lines[k + 1..]);
  }

  /** The log of a script run extends the log it started from. */
  lemma {:induction false} RunScriptExtendsLog(fs: FileSystem, s: Session, lines: seq<string>)
    requires ValidCwd(fs, s.cwd)
    ensures s.log <= RunScript(fs, s, lines).log
    decreases |lines|
  {
    if lines != [] && !s.terminated {
      ExecuteAppendsAtMostOne(fs, s, Strip(lines[0]));
      RunScriptExtendsLog(fs, Execute(fs, s, Strip(lines[0])), lines[1..]);
    }
  }

  lemma SplitAround<T>(s: seq<T>, k: nat)
    requires k < |s|
    ensures s == s[..k] + [s[k]] + s[k + 1..]
  {
  }
}
