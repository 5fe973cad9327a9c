/**
 * The host filesystem the shell runs over, as seen from "/": the tree extracted
 * from the archive together with "/" and the root's ancestors, taken as a
 * fixed value. A directory carries what `os.listdir` returns for it,
 * a file what `readlines()` returns for it; either may be the message of an
 * OS error instead.
 */
module Vfs {
  import opened Wrappers
  import opened Paths
  import Distinct

  datatype Node =
    | Dir(listing: Result<seq<string>, string>)
    | File(content: Result<seq<string>, string>)

  type FileSystem = map<Path, Node>

  /**
   * What the host reaches when it follows `steps` from `at`: each step is taken
   * from a directory, a name must exist, ".." goes to the parent.
   */
  function Walk(fs: FileSystem, at: Path, steps: seq<string>): (r: Option<Path>)
    ensures r.Some? ==> r.value in fs
    decreases |steps|
  {
    if at !in fs then None
    else if steps == [] then Some(at)
    else if !fs[at].Dir? then None
    else Walk(fs, if steps[0] == ".." then Parent(at) else at + [steps[0]], steps[1..])
  }

  /** The entry the host finds at absolute path `p`, if any. */
  function Lookup(fs: FileSystem, p: Path): (r: Option<Path>)
    ensures r.Some? ==> r.value in fs
  {
    Walk(fs, [], p)
  }

  /** `p.exists() and p.is_dir()`. */
  predicate IsDirectory(fs: FileSystem, p: Path): (b: bool)
    ensures b ==> Resolve(p) in fs && fs[Resolve(p)].Dir?
  {
    LookupResolves(fs, p);
    Lookup(fs, p).Some? && fs[Lookup(fs, p).value].Dir?
  }

  /** `p.exists() and p.is_file()`. */
  predicate IsRegularFile(fs: FileSystem, p: Path): (b: bool)
    ensures b ==> Resolve(p) in fs && fs[Resolve(p)].File?
  {
    LookupResolves(fs, p);
    Lookup(fs, p).Some? && fs[Lookup(fs, p).value].File?
  }

  lemma {:induction false} WalkResolves(fs: FileSystem, at: Path, steps: seq<string>)
    ensures Walk(fs, at, steps).Some? ==> Walk(fs, at, steps).value == ResolveFrom(at, steps)
    decreases |steps|
  {
    if at in fs && steps != [] && fs[at].Dir? {
      WalkResolves(fs, if steps[0] == ".." then Parent(at) else at + [steps[0]], steps[1..]);
    }
  }

  /** Without symbolic links, the entry the host finds is the lexically resolved path. */
  lemma LookupResolves(fs: FileSystem, p: Path)
    ensures Lookup(fs, p).Some? ==> Lookup(fs, p).value == Resolve(p)
  {
    WalkResolves(fs, [], p);
  }

  /** `entries` names each child of `dir` exactly once. */
  ghost predicate ListsChildren(fs: FileSystem, dir: Path, entries: seq<string>) {
    && Distinct.NoDuplicates(entries)
    && (forall k :: 0 <= k < |entries| ==> dir + [entries[k]] in fs)
    && (forall q :: q in fs && |q| == |dir| + 1 && q[..|dir|] == dir ==> q[|dir|] in entries)
  }

  /** A filesystem as the host presents it: every readable directory lists its children. */
  ghost predicate WellFormed(fs: FileSystem) {
    forall p :: p in fs && fs[p].Dir? && fs[p].listing.Success? ==> ListsChildren(fs, p, fs[p].listing.value)
  }
}
