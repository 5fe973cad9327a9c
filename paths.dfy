/**
 * Host paths as `pathlib` builds them. A path is the sequence of its segments
 * below the host root "/"; every path of the model is absolute.
 */
module Paths {
  import opened Text

  type Path = seq<string>

  predicate IsSlash(c: char) {
    c == '/'
  }

  /** A segment naming a directory entry. */
  predicate IsName(seg: string) {
    IsField(seg, IsSlash) && seg != "." && seg != ".."
  }

  /** A segment `pathlib` keeps in a path: a name or "..". */
  predicate IsStep(seg: string) {
    IsName(seg) || seg == ".."
  }

  /** A path with neither "." nor "..": the form `resolve()` produces. */
  predicate IsNormal(p: Path) {
    forall k :: 0 <= k < |p| ==> IsName(p[k])
  }

  predicate AllSteps(p: Path) {
    forall k :: 0 <= k < |p| ==> IsStep(p[k])
  }

  function DropDots(parts: seq<string>): (r: seq<string>)
    requires forall k :: 0 <= k < |parts| ==> IsField(parts[k], IsSlash)
    ensures AllSteps(r)
    ensures (forall k :: 0 <= k < |parts| ==> parts[k] != ".") ==> r == parts
  {
    if parts == [] then []
    else (if parts[0] == "." then [] else [parts[0]]) + DropDots(parts[1..])
  }

  /** The segments `pathlib` parses out of `arg`: empty and "." parts dropped, ".." kept. */
  function Components(arg: string): (r: seq<string>)
    ensures AllSteps(r)
  {
    DropDots(Fields(arg, IsSlash))
  }

  predicate IsAbsolute(arg: string) {
    |arg| > 0 && arg[0] == '/'
  }

  /** `cwd / arg`: an absolute argument replaces the directory, a relative one is appended to it. */
  function Join(cwd: Path, arg: string): (p: Path)
    ensures IsNormal(cwd) ==> AllSteps(p)
    ensures !IsAbsolute(arg) ==> |cwd| <= |p| && p[..|cwd|] == cwd
  {
    if IsAbsolute(arg) then Components(arg) else cwd + Components(arg)
  }

  function Parent(p: Path): Path {
    if p == [] then [] else p[..|p| - 1]
  }

  /** Follows `steps` from `at` without looking at any filesystem; ".." at "/" stays at "/". */
  function ResolveFrom(at: Path, steps: seq<string>): (r: Path)
    ensures |r| <= |at| + |steps|
    decreases |steps|
  {
    if steps == [] then at
    else ResolveFrom(if steps[0] == ".." then Parent(at) else at + [steps[0]], steps[1..])
  }

  /** `Path.resolve()` for a path that contains no symbolic link. */
  function Resolve(p: Path): (r: Path)
    ensures |r| <= |p|
  {
    ResolveFrom([], p)
  }

  /** `str(p)` of an absolute path. */
  function Render(p: Path): (r: string)
    ensures IsAbsolute(r)
  {
    if p == [] then "/" else "/" + JoinWith(p, '/')
  }

  lemma {:induction false} ResolveFromIsNormal(at: Path, steps: seq<string>)
    requires IsNormal(at) && AllSteps(steps)
    ensures IsNormal(ResolveFrom(at, steps))
    decreases |steps|
  {
    if steps != [] {
      ResolveFromIsNormal(if steps[0] == ".." then Parent(at) else at + [steps[0]], steps[1..]);
    }
  }

  /** Resolving removes every "..": the result is a normal path. */
  lemma ResolveIsNormal(p: Path)
    requires AllSteps(p)
    ensures IsNormal(Resolve(p))
  {
    ResolveFromIsNormal([], p);
  }

  lemma {:induction false} ResolveFromNames(at: Path, steps: seq<string>)
    requires IsNormal(steps)
    ensures ResolveFrom(at, steps) == at + steps
    decreases |steps|
  {
    if steps != [] {
      ResolveFromNames(at + [steps[0]], steps[1..]);
      assert at + [steps[0]] + steps[1..] == at + steps;
    }
  }

  /** A path without "." or ".." resolves to itself. */
  lemma ResolveNormal(p: Path)
    requires IsNormal(p)
    ensures Resolve(p) == p
  {
    ResolveFromNames([], p);
  }

  lemma {:induction false} JoinWithSnoc(ws: seq<string>, w: string, sep: char)
    requires ws != []
    ensures JoinWith(ws + [w], sep) == JoinWith(ws, sep) + [sep] + w
    decreases |ws|
  {
    if |ws| > 1 {
      assert (ws + [w])[1..] == ws[1..] + [w];
      JoinWithSnoc(ws[1..], w, sep);
    }
  }

  /** The string of a path ends with "/" and its last segment. */
  lemma RenderSnoc(p: Path, name: string)
    ensures Render(p + [name]) == (if p == [] then "" else Render(p)) + "/" + name
  {
    if p == [] {
      assert [] + [name] == [name];
    } else {
      JoinWithSnoc(p, name, '/');
    }
  }

  /** `pathlib` parses the string of a normal path back into the same segments. */
  lemma RenderRoundTrip(p: Path)
    requires IsNormal(p)
    ensures IsAbsolute(Render(p))
    ensures Components(Render(p)) == p
  {
    if p == [] {
      FieldsAfterSep('/', [], IsSlash);
      assert Render(p) == ['/'] + [];
    } else {
      var j := JoinWith(p, '/');
      FieldsAfterSep('/', j, IsSlash);
      FieldsJoinWith(p, '/', IsSlash);
      assert Render(p) == ['/'] + j;
    }
  }
}
