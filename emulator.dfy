/**
 * `ShellEmulator`: the interpreter object. Its fields are updated in place by
 * the command methods; each method is proved to do what the matching function
 * of module Semantics says.
 */
module Emulator {
  import opened Wrappers
  import opened Text
  import opened Paths
  import opened Vfs
  import opened Distinct
  import opened Semantics

  const RootMissing: string := "Virtual filesystem root does not exist!"

  class ShellEmulator {
    /** The extracted virtual filesystem, as the host shows it. */
    const fs: FileSystem
    /** Carried for the prompt and for `save_log`, which are not modelled. */
    const hostname: string
    const logFile: string

    var currentDir: Path
    var log: seq<LogEntry>
    /** Set by `exit`; the log at that point is the log `save_log` writes. */
    var terminated: bool

    ghost predicate Valid()
      reads this
    {
      ValidCwd(fs, currentDir)
    }

    /** The state of the session, as Semantics sees it. */
    function State(): Session
      reads this
    {
      Session(currentDir, log, terminated)
    }

    /**
     * `__init__` once the root is known to exist: starts at the root with an
     * empty log, then replays the startup script if there is one.
     */
    constructor (fs: FileSystem, root: Path, hostname: string, logFile: string, startupScript: Option<seq<string>>)
      requires ValidCwd(fs, root)
      ensures this.fs == fs && this.hostname == hostname && this.logFile == logFile
      ensures Valid()
      ensures State() == RunScript(fs, Session(root, [], false), if startupScript.Some? then startupScript.value else [])
    {
      this.fs := fs;
      this.hostname := hostname;
      this.logFile := logFile;
      currentDir := root;
      log := [];
      terminated := false;
      new;
      if startupScript.Some? {
        LoadStartupScript(startupScript.value);
      }
    }

    /** `log_action`: appends one entry; earlier entries stay as they are. */
    method LogAction(command: string, result: Outcome)
      modifies this`log
      ensures log == old(log) + [LogEntry(command, result)]
    {
      log := log + [LogEntry(command, result)];
    }

    method CmdLs()
      requires Valid()
      modifies this`log
      ensures Valid()
      ensures State() == Ls(fs, old(State()))
    {
      match fs[currentDir].listing
      case Success(entries) => LogAction("ls", Items(entries));
      case Failure(message) => LogAction("ls", Message(message));
    }

    method CmdCd(args: seq<string>)
      requires Valid()
      modifies this`currentDir, this`log
      ensures Valid()
      ensures State() == Cd(fs, old(State()), args)
    {
      if |args| != 1 {
        return;
      }
      var targetDir := Join(currentDir, args[0]);
      var found := Lookup(fs, targetDir);
      if found.Some? && fs[found.value].Dir? {
        LookupResolves(fs, targetDir);
        ResolveIsNormal(targetDir);
        currentDir := Resolve(targetDir);
        LogAction("cd", Message(Render(targetDir)));
      } else {
        LogAction("cd", Message(DirectoryNotFound));
      }
    }

    method CmdPwd()
      requires Valid()
      modifies this`log
      ensures Valid()
      ensures State() == Pwd(old(State()))
    {
      LogAction("pwd", Message(Render(currentDir)));
    }

    method CmdUniq(args: seq<string>)
      requires Valid()
      modifies this`log
      ensures Valid()
      ensures State() == Uniq(fs, old(State()), args)
    {
      if |args| != 1 {
        return;
      }
      var filePath := Join(currentDir, args[0]);
      var found := Lookup(fs, filePath);
      if !(found.Some? && fs[found.value].File?) {
        LogAction("uniq", Message(FileNotFound));
        return;
      }
      match fs[found.value].content
      case Success(lines) =>
        var uniqueLines := FromKeys(lines);
        LogAction("uniq", Items(uniqueLines));
      case Failure(message) =>
        LogAction("uniq", Message(message));
    }

    /** `execute_command`; `exit` sets `terminated` where the source ends the process. */
    method ExecuteCommand(command: string)
      requires Valid() && !terminated
      modifies this
      ensures Valid()
      ensures State() == Execute(fs, old(State()), command)
    {
      var parts := Split(command);
      if parts == [] {
        return;
      }
      var cmd, args := parts[0], parts[1..];
      if cmd == "ls" {
        CmdLs();
      } else if cmd == "cd" {
        CmdCd(args);
      } else if cmd == "pwd" {
        CmdPwd();
      } else if cmd == "uniq" {
        CmdUniq(args);
      } else if cmd == "exit" {
        terminated := true;
      }
    }

    /** `load_startup_script`: each line, stripped, in file order, until `exit`. */
    method LoadStartupScript(lines: seq<string>)
      requires Valid()
      modifies this
      ensures Valid()
      ensures State() == RunScript(fs, old(State()), lines)
    {
      var i := 0;
      while i < |lines| && !terminated
        invariant 0 <= i <= |lines|
        invariant Valid()
        invariant State() == RunScript(fs, old(State()), lines[..i])
      {
        RunScriptSnoc(fs, old(State()), lines[..i], lines[i]);
        assert lines[..i + 1] == lines[..i] + [lines[i]];
        StripDoesNotMatter(fs, State(), lines[i]);
        ExecuteCommand(Strip(lines[i]));
        i := i + 1;
      }
      RunScriptAppend(fs, old(State()), lines[..i], lines[i..]);
      assert lines[..i] + lines[i..] == lines;
    }
  }

  /**
   * Construction with the root check of `__init__`: fails with its message when
   * the root does not exist, and otherwise starts the shell.
   */
  method Open(fs: FileSystem, root: Path, hostname: string, logFile: string, startupScript: Option<seq<string>>)
    returns (r: Result<ShellEmulator, string>)
    requires IsNormal(root)
    requires root in fs ==> fs[root].Dir?
    ensures r.Failure? <==> Lookup(fs, root).None?
    ensures r.Failure? ==> r.error == RootMissing
    ensures r.Success? ==> ValidCwd(fs, root) && fresh(r.value) && r.value.Valid() && r.value.fs == fs
    ensures r.Success? ==>
      r.value.State() == RunScript(fs, Session(root, [], false), if startupScript.Some? then startupScript.value else [])
  {
    if Lookup(fs, root).None? {
      return Failure(RootMissing);
    }
    LookupResolves(fs, root);
    ResolveNormal(root);
    var shell := new ShellEmulator(fs, root, hostname, logFile, startupScript);
    return Success(shell);
  }
}
