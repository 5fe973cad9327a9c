/**
 * Whole sessions: a startup script that lists the root, enters a child
 * directory, prints the working directory and exits.
 */
module Scenarios {
  import opened Text
  import opened Paths
  import opened Vfs
  import opened Semantics

  /**
   * A script whose lines are `ls`, `cd d`, `pwd`, `exit` and then anything, run
   * from a root whose child `d` is a directory, ends the session in `d` with
   * exactly three log entries, in order: the root's listing, the `cd` and the
   * `pwd`. `exit` logs nothing and the line after it never runs.
   */
  lemma ListEnterPrintExit(fs: FileSystem, root: Path, d: string, entries: seq<string>, script: seq<string>)
    requires ValidCwd(fs, root) && fs[root].listing == Wrappers.Success(entries)
    requires IsName(d) && IsDirectory(fs, root + [d])
    requires |script| == 5
    requires Split(script[0]) == ["ls"] && Split(script[1]) == ["cd", d]
    requires Split(script[2]) == ["pwd"] && Split(script[3]) == ["exit"]
    ensures RunScript(fs, Session(root, [], false), script)
      == Session(root + [d], [
           LogEntry("ls", Items(entries)),
           LogEntry("cd", Message(Render(root + [d]))),
           LogEntry("pwd", Message(Render(root + [d])))
         ], true)
  {
    var s0 := Session(root, [], false);
    LsLine(fs, s0, script[0]);
    var s1 := Execute(fs, s0, script[0]);
    assert s1 == Session(root, [LogEntry("ls", Items(entries))], false);
    RunScriptCons(fs, s0, script);

    CdChild(fs, s1, script[1], d);
    var s2 := Execute(fs, s1, script[1]);
    RunScriptCons(fs, s1, script[1..]);

    PwdLine(fs, s2, script[2]);
    var s3 := Execute(fs, s2, script[2]);
    RunScriptCons(fs, s2, script[2..]);

    ExitLine(fs, s3, script[3]);
    var s4 := Execute(fs, s3, script[3]);
    RunScriptCons(fs, s3, script[3..]);

    RunScriptTerminated(fs, s4, script[4..]);
  }

  /** The same session written out as the lines of a script file. */
  lemma ListEnterPrintExitFile(fs: FileSystem, root: Path, d: string, entries: seq<string>)
    requires ValidCwd(fs, root) && fs[root].listing == Wrappers.Success(entries)
    requires IsName(d) && IsField(d, IsSpace) && IsDirectory(fs, root + [d])
    ensures RunScript(fs, Session(root, [], false), ["ls\n", "cd " + d + "\n", "pwd\n", "exit\n", "ls\n"])
      == Session(root + [d], [
           LogEntry("ls", Items(entries)),
           LogEntry("cd", Message(Render(root + [d]))),
           LogEntry("pwd", Message(Render(root + [d])))
         ], true)
  {
    SplitLine(["ls"], "ls\n");
    SplitLine(["cd", d], "cd " + d + "\n");
    SplitLine(["pwd"], "pwd\n");
    SplitLine(["exit"], "exit\n");
    ListEnterPrintExit(fs, root, d, entries, ["ls\n", "cd " + d + "\n", "pwd\n", "exit\n", "ls\n"]);
  }

  /** A script line: its tokens joined by spaces, then the line terminator. */
  lemma SplitLine(ws: seq<string>, line: string)
    requires forall k :: 0 <= k < |ws| ==> IsField(ws[k], IsSpace)
    requires line == JoinWith(ws, ' ') + "\n"
    ensures Split(line) == ws
  {
    assert AllSeps("\n", IsSpace);
    FieldsIgnoreTrailingSeps(JoinWith(ws, ' '), "\n", IsSpace);
    SplitJoin(ws);
  }
}
