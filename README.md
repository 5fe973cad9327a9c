# Shell emulator: a verified model

This project models `ShellEmulator`, a small shell that runs over a virtual
filesystem extracted from a zip archive. The model covers the interpreter's
session state and the one real algorithm in it:

- **Session state.** The current directory starts at the extracted root. The
  action log only grows: every `log_action` appends one `{command, result}`
  entry. `exit` ends the session.
- **Tokenising.** A line is split on whitespace the way Python's `str.split()`
  does it. The first token picks the command and is compared exactly.
- **Commands.** `ls`, `cd`, `pwd`, `uniq` and `exit`. Each one has its own
  rule for when it logs and what it logs. Unknown commands, blank lines and
  `cd`/`uniq` with the wrong number of arguments log nothing.
- **`uniq`.** It removes duplicate lines and keeps each line where it first
  occurs. This is `list(dict.fromkeys(lines))`, not the adjacent-only
  deduplication of the Unix tool.
- **Startup script.** Its lines run stripped and in file order. Nothing after
  an `exit` runs.

Modules:

- `Wrappers` (wrappers.dfy): `Option` and `Result`.
- `Text` (text.dfy): `str.split()` and `str.strip()`, written as field
  splitting over a separator predicate. `IsSpace` lists every character for
  which Python's `str.isspace()` holds.
- `Distinct` (distinct.dfy): `Dedup`, the insertion-order key list of
  `dict.fromkeys`. `FromKeys` is the same thing as a loop over a seen-set.
  The lemmas prove that `Dedup` is the *only* first-occurrence deduplication
  and that applying it twice changes nothing.
- `Paths` (paths.dfy): host paths as sequences of segments. `Join` is
  pathlib's `/`, `Resolve` is `Path.resolve()` with no symbolic links, and
  `Render` is `str(path)`.
- `Vfs` (vfs.dfy): the host filesystem as seen from "/", as a fixed map from
  path to node. It holds the extracted tree together with "/" and every
  ancestor of the extracted root, since path lookup starts at "/". A
  directory node holds what `os.listdir` returns, or the OS error message. A
  file node holds what `readlines()` returns, or the OS error message.
  `Lookup` is how the host follows a path from `/` for `exists()`, `is_dir()`
  and `is_file()`. `LookupResolves` proves that the entry it finds is the
  lexically resolved path.
- `Semantics` (semantics.dfy): each command as a function on a `Session`
  value (current directory, log, terminated), plus `Execute` and `RunScript`,
  with the lemmas that state each command's rules.
- `Emulator` (emulator.dfy): the class `ShellEmulator`, with fields
  `currentDir`, `log` and `terminated`. There is one method per source method.
  Each is proved to update the fields exactly as the matching `Semantics`
  function says. `LoadStartupScript` is the source's loop, with invariants.
- `Scenarios` (scenarios.dfy): a whole startup-script session (`ls`,
  `cd d`, `pwd`, `exit`, `ls`).

Two details of the code that the model follows exactly:

- A successful `cd` logs the joined path *before* resolution
  (`str(target_dir)`, line 92). Only `current_dir` becomes the resolved path
  (line 91).
- The startup script executes every line, blank lines included. A blank line
  does nothing (`IgnoredLine`), so this is the same as skipping it.

## Model

| member | source | states |
|---|---|---|
| Text.Split | DZ1/CONFDZ1/shell_emulator.py:54 | every token of `command.split()` is non-empty and holds no whitespace |
| Text.Strip | DZ1/CONFDZ1/shell_emulator.py:44 | `line.strip()` is the slice of the line left after removing its whitespace prefix and suffix: only whitespace lies before and after it, and it neither starts nor ends with whitespace |
| Text.SplitEmptyIffBlank | DZ1/CONFDZ1/shell_emulator.py:54-56 | a line splits into no tokens exactly when every character is whitespace |
| Text.SplitJoin | DZ1/CONFDZ1/shell_emulator.py:54 | tokens without whitespace, joined by single spaces, split back into the same tokens |
| Text.FieldsIgnoreTrailingSeps | DZ1/CONFDZ1/shell_emulator.py:54 | trailing separators (such as a line's "\n") do not change the tokens |
| Text.SplitStrip | DZ1/CONFDZ1/shell_emulator.py:44 | `line.strip().split()` equals `line.split()` |
| Distinct.Dedup | DZ1/CONFDZ1/shell_emulator.py:116 | `list(dict.fromkeys(lines))` is no longer than `lines` and empty only for empty input; its full characterisation is `DedupIsFirstOccurrenceOrder` |
| Distinct.DedupIsFirstOccurrenceOrder | DZ1/CONFDZ1/shell_emulator.py:116 | the `uniq` result has no duplicates, holds exactly the input's lines, and orders them by where each first occurs in the input |
| Distinct.FirstOccurrenceOrderIsUnique | DZ1/CONFDZ1/shell_emulator.py:116 | any sequence with those three properties is `Dedup` of the input, so they define it |
| Distinct.DedupHasNoDuplicates | DZ1/CONFDZ1/shell_emulator.py:116 | no line occurs twice in the result |
| Distinct.DedupSameElements | DZ1/CONFDZ1/shell_emulator.py:116 | a line is in the result exactly when it is in the input |
| Distinct.DedupOfDistinct | DZ1/CONFDZ1/shell_emulator.py:116 | input without duplicates is returned unchanged |
| Distinct.DedupIdempotent | DZ1/CONFDZ1/shell_emulator.py:116 | deduplicating twice gives the same result as deduplicating once |
| Distinct.DedupDropsLaterRepeat | DZ1/CONFDZ1/test_shell_emulator.py:75-78 | [line1, line2, line1] becomes [line1, line2] |
| Distinct.DedupExample | DZ1/CONFDZ1/shell_emulator.py:116 | [a, b, a, c, b] becomes [a, b, c]: repeats that are not adjacent are removed too |
| Distinct.FromKeys | DZ1/CONFDZ1/shell_emulator.py:116 | inserting each line into a seen-set and key list, in order, yields exactly `Dedup(lines)` |
| Paths.Components | DZ1/CONFDZ1/shell_emulator.py:89 | the segments pathlib parses out of an argument are names or "..", never "" or "." |
| Paths.Resolve | DZ1/CONFDZ1/shell_emulator.py:91 | `resolve()` never lengthens a path; `ResolveIsNormal` and `ResolveNormal` state what it produces |
| Paths.Render | DZ1/CONFDZ1/shell_emulator.py:92 | `str(path)` of a path is absolute (starts with "/"); `RenderRoundTrip` parses it back |
| Paths.Join | DZ1/CONFDZ1/shell_emulator.py:89 | `cwd / arg` keeps the current directory as a prefix when `arg` is relative; its segments are names or ".." |
| Paths.ResolveIsNormal | DZ1/CONFDZ1/shell_emulator.py:91 | the resolved path contains no "." or ".." |
| Paths.ResolveNormal | DZ1/CONFDZ1/shell_emulator.py:91 | a path with no "." or ".." resolves to itself |
| Paths.RenderSnoc | DZ1/CONFDZ1/shell_emulator.py:99 | the string of a path ends with "/" followed by its last segment |
| Paths.RenderRoundTrip | DZ1/CONFDZ1/shell_emulator.py:92 | the string of a normal path is absolute, and pathlib parses it back into the same segments |
| Vfs.Lookup | DZ1/CONFDZ1/shell_emulator.py:90 | what `exists()` finds from "/" is an entry of the filesystem; `LookupResolves` shows it is the resolved path |
| Vfs.IsDirectory | DZ1/CONFDZ1/shell_emulator.py:90 | `exists() and is_dir()` holds only when the resolved path is a directory of the filesystem |
| Vfs.IsRegularFile | DZ1/CONFDZ1/shell_emulator.py:107 | `exists() and is_file()` holds only when the resolved path is a file of the filesystem |
| Vfs.Walk | DZ1/CONFDZ1/shell_emulator.py:90 | whatever the host reaches by following a path is an entry of the filesystem |
| Vfs.LookupResolves | DZ1/CONFDZ1/shell_emulator.py:90-91 | the entry that `exists()`/`is_dir()` find is the lexically resolved path that `resolve()` returns |
| Semantics.Logged | DZ1/CONFDZ1/shell_emulator.py:46-47 | `log_action` keeps every earlier entry, adds exactly one entry (command, result) at the end, and changes nothing else |
| Semantics.Ls | DZ1/CONFDZ1/shell_emulator.py:75-82 | `ls` keeps the directory, adds exactly one "ls" entry, and that entry is a listing exactly when `os.listdir` succeeds |
| Semantics.Pwd | DZ1/CONFDZ1/shell_emulator.py:97-99 | `pwd` keeps the directory and adds exactly ("pwd", str(current_dir)) |
| Semantics.Uniq | DZ1/CONFDZ1/shell_emulator.py:101-121 | `uniq` keeps the directory and adds one "uniq" entry exactly when it has one argument, nothing otherwise |
| Semantics.Cd | DZ1/CONFDZ1/shell_emulator.py:84-95 | after `cd`, the current directory is still a normal path that names a directory |
| Semantics.Execute | DZ1/CONFDZ1/shell_emulator.py:53-73 | every command line keeps the current directory a normal path that names a directory |
| Semantics.RunScript | DZ1/CONFDZ1/shell_emulator.py:40-44 | a whole startup script keeps the current directory a normal path that names a directory |
| Semantics.IgnoredLine | DZ1/CONFDZ1/shell_emulator.py:54-73 | a blank line, or one whose first token is not exactly ls/cd/pwd/uniq/exit, changes neither the log nor the directory |
| Semantics.ExitLine | DZ1/CONFDZ1/shell_emulator.py:69-71 | `exit` appends no entry, keeps the directory and ends the session |
| Semantics.OnlyExitTerminates | DZ1/CONFDZ1/shell_emulator.py:69-71 | a line ends the session exactly when its first token is `exit` |
| Semantics.ExecuteAppendsAtMostOne | DZ1/CONFDZ1/shell_emulator.py:46-47 | the old log is a prefix of the new one, and at most one entry is added |
| Semantics.OnlyCdMoves | DZ1/CONFDZ1/shell_emulator.py:84-92 | only `cd` with one argument that names a directory changes the current directory |
| Semantics.LsLine | DZ1/CONFDZ1/shell_emulator.py:75-82 | `ls` (arguments ignored) appends ("ls", listing) or ("ls", error message) and keeps the directory |
| Semantics.LsListsChildren | DZ1/CONFDZ1/shell_emulator.py:77 | an assumption about the host, not a proof about the code: if `os.listdir` names each child of every readable directory once (`WellFormed`), then so does the listing `ls` logs |
| Semantics.PwdLine | DZ1/CONFDZ1/shell_emulator.py:97-99 | `pwd` appends ("pwd", str(current_dir)) and changes nothing else |
| Semantics.WrongArity | DZ1/CONFDZ1/shell_emulator.py:85-87 | `cd` or `uniq` with other than one argument changes neither the log nor the directory (also lines 102-104) |
| Semantics.CdFound | DZ1/CONFDZ1/shell_emulator.py:89-92 | `cd d` into a directory moves to the resolved join, which is the directory found, and appends exactly ("cd", unresolved joined path) |
| Semantics.CdNotFound | DZ1/CONFDZ1/shell_emulator.py:93-95 | `cd d` to a missing path or a non-directory keeps the directory and appends exactly ("cd", "Directory not found") |
| Semantics.CdChild | DZ1/CONFDZ1/shell_emulator.py:89-92 | `cd d` into a child directory d moves to cwd + [d] and appends exactly ("cd", str(cwd / d)); nothing else changes |
| Semantics.CdChildThenPwd | DZ1/CONFDZ1/shell_emulator.py:89-99 | after `cd d` into a child directory, `pwd` logs a path that ends in "/d", and `cd` logged the same string |
| Semantics.UniqNotFound | DZ1/CONFDZ1/shell_emulator.py:106-110 | `uniq f` on a missing path or a non-file keeps the directory and appends exactly ("uniq", "File not found") |
| Semantics.UniqFound | DZ1/CONFDZ1/shell_emulator.py:112-118 | `uniq f` on a readable file appends exactly ("uniq", deduplicated lines) and changes nothing else; those lines are the file's first-occurrence deduplication |
| Semantics.StripDoesNotMatter | DZ1/CONFDZ1/shell_emulator.py:44 | a line runs the same whether or not it is stripped first |
| Semantics.RunScriptAppend | DZ1/CONFDZ1/shell_emulator.py:43-44 | running lines a then lines b is the same as running a + b: lines run in file order |
| Semantics.RunScriptTerminated | DZ1/CONFDZ1/shell_emulator.py:70-71 | once the session has ended, no further line changes anything |
| Semantics.RunScriptSnoc | DZ1/CONFDZ1/shell_emulator.py:43-44 | one more line runs (stripped) on the state so far, unless the session has ended |
| Semantics.RunScriptStopsAtExit | DZ1/CONFDZ1/shell_emulator.py:43-71 | an `exit` at line k ends the session with the state lines 0..k-1 produced; later lines never run |
| Semantics.RunScriptExtendsLog | DZ1/CONFDZ1/shell_emulator.py:46-47 | a script run only appends to the log it started from |
| Emulator.ShellEmulator.constructor | DZ1/CONFDZ1/shell_emulator.py:11-19 | starts at the root with an empty log, then the state is that of running the startup script, if any |
| Emulator.ShellEmulator.LogAction | DZ1/CONFDZ1/shell_emulator.py:46-47 | the new log is the old log plus exactly one entry (command, result) |
| Emulator.ShellEmulator.CmdLs | DZ1/CONFDZ1/shell_emulator.py:75-82 | the new state is `Semantics.Ls` of the old one |
| Emulator.ShellEmulator.CmdCd | DZ1/CONFDZ1/shell_emulator.py:84-95 | the new state is `Semantics.Cd` of the old one, and the object invariant holds |
| Emulator.ShellEmulator.CmdPwd | DZ1/CONFDZ1/shell_emulator.py:97-99 | the new state is `Semantics.Pwd` of the old one |
| Emulator.ShellEmulator.CmdUniq | DZ1/CONFDZ1/shell_emulator.py:101-121 | the new state is `Semantics.Uniq` of the old one; deduplication goes through `FromKeys` |
| Emulator.ShellEmulator.ExecuteCommand | DZ1/CONFDZ1/shell_emulator.py:53-73 | the new state is `Semantics.Execute` of the old state and the line |
| Emulator.ShellEmulator.LoadStartupScript | DZ1/CONFDZ1/shell_emulator.py:40-44 | the loop leaves the state `Semantics.RunScript` gives for all the lines |
| Emulator.Open | DZ1/CONFDZ1/shell_emulator.py:13-19 | fails with "Virtual filesystem root does not exist!" exactly when the root is missing; otherwise returns a fresh shell in the post-script state |
| Scenarios.ListEnterPrintExit | DZ1/CONFDZ1/shell_emulator.py:40-99 | the script ls; cd d; pwd; exit; anything ends in d with exactly three entries (listing, cd, pwd) and none for exit |
| Scenarios.ListEnterPrintExitFile | DZ1/CONFDZ1/shell_emulator.py:40-44 | the same session, written as newline-terminated lines of a script file |

## Left out

- Zip extraction (`extract_vfs`, lines 33-38). The host tree after
  extraction is given to the model as a `Vfs.FileSystem` value.
- The current directory is not confined to the extracted root, just as in the
  source (lines 89-91 have no containment check). `cd ..` from the root, or an
  absolute argument, moves to any directory of the host map. `ValidCwd` only
  promises that the current directory is a directory of the map, not one
  under the root.
- Configuration loading (`load_config`, lines 21-31). Hostname, log path and
  startup script are constructor parameters. A missing or unconfigured startup
  script is `None`.
- `save_log` and its JSON output (lines 49-51). The log that would be written
  is the `log` field when `terminated` is set.
- The interactive `start` loop, its prompt, `KeyboardInterrupt`, `sys.exit`
  and the `__main__` block (lines 123-141). `exit` sets `terminated` instead of
  ending the process.
- All printed output.
- The order of `os.listdir` is whatever the host returns. It is stored in the
  directory node rather than derived.
- OS errors are fixed per node: a directory whose listing fails, or a file
  whose read fails, always fails with the same message. The filesystem does
  not change during a session, so a directory that vanishes mid-session is
  not modelled.
- Symbolic links are not modelled; `Resolve` is lexical.
- Paths are absolute from the start. The initial relative `Path('vfs_root')`
  stands for its absolute host path.
- Semantics.CdChildThenPwd, Scenarios.ListEnterPrintExit, Scenarios.ListEnterPrintExitFile: in the source,
  `current_dir` starts as the relative `Path('vfs_root')` (line 13). Until the
  first successful `cd`, `pwd` logs "vfs_root", and that first `cd folder1`
  logs the relative "vfs_root/folder1" (line 92). The `pwd` after it logs the
  absolute resolved path (lines 91, 99). The model starts from an absolute
  root, so it proves that the `cd` and `pwd` strings agree. For a `cd` made
  from the initial directory, they do not agree in the source.
- Paths are POSIX pathlib paths on a case-sensitive filesystem. `Render` is
  `str()` of a `PosixPath`. On Windows, `str()` uses "\" and a drive letter.
  On a case-insensitive filesystem (Windows, macOS by default), `cd FOLDER1`
  finds `folder1`, while `Walk` matches each segment exactly.
- pathlib keeps a leading "//" as a separate root. The model treats it as "/".
- Emulator.ShellEmulator.constructor, Emulator.Open: the startup script
  arrives as its lines, already read. In the source, `load_startup_script`
  opens and iterates the file (lines 41-44). If the path exists but is a
  directory, is unreadable, or holds bytes that do not decode, the exception
  escapes `__init__` uncaught. By then, lines read before the failure may
  already have run, and the interactive loop never starts. The model has no
  such failure: `Open` succeeds whenever the root exists.
- Emulator.Open requires that the root, if present, is a directory, and that
  it is a normal path. Extraction always produces such a root, so the source
  never meets a root that is a plain file.
