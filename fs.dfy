/** The local file system the core reads and writes: directories and files by path, the
    paths whose access fails (permissions, I/O errors), and the `.git` directories,
    kept as repository values at their worktree roots.  The root `/` is always a
    directory.  The operations follow the Go standard library (`os.Stat`,
    `os.MkdirAll`, `os.Create`, `os.OpenFile` with `O_APPEND`, `os.ReadDir`,
    `os.Rename`, `filepath.Walk`) and `cp.Copy` of github.com/otiai10/copy. */
module Fs {
  import opened Wrappers
  import opened Utf8
  import opened Paths
  import opened Errors
  import opened GitModel
  import Order

  datatype Node = Dir | File(data: Bytes)

  datatype FileSystem = FileSystem(nodes: map<Path, Node>, faulty: set<Path>, repos: map<Path, Repo>)

  /** Access to `p` fails because it or one of its ancestors is faulty. */
  predicate Faulty(fs: FileSystem, p: Path)
  {
    exists k | 0 <= k <= |p| :: p[..k] in fs.faulty
  }

  /** Some proper ancestor of `p` (other than the root) is a file. */
  predicate UnderFile(fs: FileSystem, p: Path)
  {
    exists k | 0 < k < |p| :: p[..k] in fs.nodes && fs.nodes[p[..k]].File?
  }

  predicate IsDirAt(fs: FileSystem, p: Path) { p == [] || (p in fs.nodes && fs.nodes[p].Dir?) }

  predicate IsFileAt(fs: FileSystem, p: Path) { p != [] && p in fs.nodes && fs.nodes[p].File? }

  datatype StatResult = Found(node: Node) | Missing | StatFailed

  /** `os.Stat`: `Missing` is the error `os.IsNotExist` recognises; `StatFailed` any other
      error (permission denied, a file used as a directory). */
  function Stat(fs: FileSystem, p: Path): (r: StatResult)
    ensures r.Found? ==> !Faulty(fs, p) && (p == [] || p in fs.nodes)
    ensures r == Found(Dir) <==> (IsDirAt(fs, p) && !Faulty(fs, p) && !UnderFile(fs, p))
    ensures r.Missing? <==> (p != [] && p !in fs.nodes && !Faulty(fs, p) && !UnderFile(fs, p))
  {
    if Faulty(fs, p) || UnderFile(fs, p) then StatFailed
    else if p == [] then Found(Dir)
    else if p in fs.nodes then Found(fs.nodes[p])
    else Missing
  }

  /** The error value of a failed access to `p`. */
  function ErrorAt(fs: FileSystem, p: Path): Error
  {
    if Stat(fs, p).Missing? then NotExist(p) else PathError(p)
  }

  /** The proper, non-root ancestors of `p` and `p` itself. */
  function Prefixes(p: Path): (r: set<Path>)
    ensures forall q :: q in r <==> q != [] && IsPrefix(q, p)
  {
    var r := set k | 1 <= k <= |p| :: p[..k];
    assert forall q :: q != [] && IsPrefix(q, p) ==> q == p[..|q|];
    r
  }

  /** `os.MkdirAll(p)`: every missing directory on the way to `p` is created; it fails
      when access is refused or a file stands on the way. */
  function MkdirAll(fs: FileSystem, p: Path): (r: Result<FileSystem, Error>)
    ensures r.Ok? <==> !Faulty(fs, p) && (forall q :: q in Prefixes(p) ==> q !in fs.nodes || fs.nodes[q].Dir?)
    ensures r.Ok? ==> forall q :: q in Prefixes(p) ==> q in r.value.nodes && r.value.nodes[q] == Dir
    ensures r.Ok? ==> forall q :: q in fs.nodes ==> q in r.value.nodes && r.value.nodes[q] == fs.nodes[q]
    ensures r.Ok? ==> forall q :: q in r.value.nodes ==> q in fs.nodes || q in Prefixes(p)
    ensures r.Ok? ==> r.value.faulty == fs.faulty && r.value.repos == fs.repos
  {
    if Faulty(fs, p) then Err(PathError(p))
    else if exists q :: q in Prefixes(p) && q in fs.nodes && fs.nodes[q].File? then Err(PathError(p))
    else Ok(fs.(nodes := fs.nodes + map q | q in Prefixes(p) :: Dir))
  }

  /** After a successful `MkdirAll(p)`, `p` is a directory. */
  lemma MkdirAllMakesDir(fs: FileSystem, p: Path)
    requires MkdirAll(fs, p).Ok?
    ensures Stat(MkdirAll(fs, p).value, p) == Found(Dir)
  {
    var r := MkdirAll(fs, p).value;
    assert p != [] ==> p in Prefixes(p);
    forall k | 0 < k < |p| ensures p[..k] in r.nodes && r.nodes[p[..k]] == Dir {
      assert p[..k] in Prefixes(p);
    }
    assert !Faulty(r, p);
  }

  /** `os.Create(p)` followed by a write of `data`: the parent must be a directory and
      `p` must not be one. */
  function WriteFile(fs: FileSystem, p: Path, data: Bytes): (r: Result<FileSystem, Error>)
    ensures r.Ok? <==> p != [] && Stat(fs, Parent(p)) == Found(Dir) && !Faulty(fs, p) && !IsDirAt(fs, p)
    ensures r.Ok? ==> r.value == fs.(nodes := fs.nodes[p := File(data)])
  {
    if p == [] then Err(PathError(p))
    else if Stat(fs, Parent(p)) != Found(Dir) then Err(ErrorAt(fs, Parent(p)))
    else if Faulty(fs, p) || IsDirAt(fs, p) then Err(PathError(p))
    else Ok(fs.(nodes := fs.nodes[p := File(data)]))
  }

  /** `os.OpenFile(p, O_APPEND|O_WRONLY)` followed by a write of `data`. */
  function AppendFile(fs: FileSystem, p: Path, data: Bytes): (r: Result<FileSystem, Error>)
    ensures r.Ok? <==> Stat(fs, p).Found? && Stat(fs, p).node.File?
    ensures r.Ok? ==> r.value == fs.(nodes := fs.nodes[p := File(fs.nodes[p].data + data)])
  {
    match Stat(fs, p)
    case Found(File(before)) => Ok(fs.(nodes := fs.nodes[p := File(before + data)]))
    case _ => Err(ErrorAt(fs, p))
  }

  /** `os.ReadFile(p)`, or the reads of a scanner over an opened file. */
  function ReadFile(fs: FileSystem, p: Path): (r: Result<Bytes, Error>)
    ensures r.Ok? <==> Stat(fs, p).Found? && Stat(fs, p).node.File?
    ensures r.Ok? ==> r.value == fs.nodes[p].data
  {
    match Stat(fs, p)
    case Found(File(data)) => Ok(data)
    case _ => Err(ErrorAt(fs, p))
  }

  /** The names of the entries of directory `p`. */
  function Children(fs: FileSystem, p: Path): (r: set<string>)
    ensures forall n :: n in r <==> p + [n] in fs.nodes
  {
    var r := set q | q in fs.nodes && |q| == |p| + 1 && q[..|p|] == p :: q[|p|];
    assert forall n :: p + [n] in fs.nodes ==> (p + [n])[..|p|] == p && (p + [n])[|p|] == n;
    assert forall q | q in fs.nodes && |q| == |p| + 1 && q[..|p|] == p :: q == p + [q[|p|]];
    r
  }

  /** `os.ReadDir(p)`: the entry names, sorted. */
  function ReadDir(fs: FileSystem, p: Path): (r: Result<seq<string>, Error>)
    ensures r.Ok? <==> Stat(fs, p) == Found(Dir)
    ensures r.Ok? ==> forall n :: n in r.value <==> p + [n] in fs.nodes
  {
    if Stat(fs, p) == Found(Dir) then Ok(Order.Sorted(Children(fs, p))) else Err(ErrorAt(fs, p))
  }

  // ---------------------------------------------------------------- filepath.Walk

  /** One call of the walk function: the path, and whether it came without an error. */
  datatype Visit = Visit(path: Path, ok: bool)

  /** The walk ended on an error. */
  predicate Stopped(vs: seq<Visit>) { vs != [] && !vs[|vs| - 1].ok }

  /** Every visit is below `p`, and all but the last came without an error. */
  predicate WellFormedWalk(vs: seq<Visit>, p: Path)
  {
    (forall i :: 0 <= i < |vs| ==> IsPrefix(p, vs[i].path))
    && (forall i :: 0 <= i < |vs| - 1 ==> vs[i].ok)
  }

  /** The paths strictly below `p`: the measure a walk descends by. */
  function Below(fs: FileSystem, p: Path): set<Path>
  {
    set q | q in fs.nodes && |p| < |q| && q[..|p|] == p
  }

  lemma BelowShrinks(fs: FileSystem, p: Path, n: string)
    requires p + [n] in fs.nodes
    ensures Below(fs, p + [n]) < Below(fs, p)
  {
    var c := p + [n];
    assert c in Below(fs, p);
    forall q | q in Below(fs, c) ensures q in Below(fs, p) {
      assert q[..|p|] == q[..|c|][..|p|];
    }
  }

  /** The walk from `p`, which exists: `p` itself, then, if it is a readable directory,
      its entries in sorted order, each walked in turn, up to the first error. */
  function WalkFrom(fs: FileSystem, p: Path): (r: seq<Visit>)
    requires p == [] || p in fs.nodes
    ensures r != [] && r[0].path == p
    ensures WellFormedWalk(r, p)
    decreases Below(fs, p), 1
  {
    match Stat(fs, p)
    case Found(Dir) =>
      var names := Order.Sorted(Children(fs, p));
      var rest := WalkChildren(fs, p, names);
      WalkPrepend(p, rest);
      [Visit(p, true)] + rest
    case Found(File(_)) => [Visit(p, true)]
    case _ => [Visit(p, false)]
  }

  /** Visiting `p` without error before a walk below it is a walk from `p`. */
  lemma WalkPrepend(p: Path, rest: seq<Visit>)
    requires forall i :: 0 <= i < |rest| ==> IsPrefix(p, rest[i].path)
    requires forall i :: 0 <= i < |rest| - 1 ==> rest[i].ok
    ensures WellFormedWalk([Visit(p, true)] + rest, p)
  {
    var r := [Visit(p, true)] + rest;
    assert forall i :: 1 <= i < |r| ==> r[i] == rest[i - 1];
  }

  /** The walks of the entries `names` of `p`, one after the other, up to the first error. */
  function WalkChildren(fs: FileSystem, p: Path, names: seq<string>): (r: seq<Visit>)
    requires forall i :: 0 <= i < |names| ==> p + [names[i]] in fs.nodes
    ensures forall i :: 0 <= i < |r| ==> |p| < |r[i].path| && IsPrefix(p, r[i].path)
    ensures forall i :: 0 <= i < |r| - 1 ==> r[i].ok
    decreases Below(fs, p), 0, |names|
  {
    if names == [] then []
    else
      var c := p + [names[0]];
      BelowShrinks(fs, p, names[0]);
      var first := WalkFrom(fs, c);
      assert forall i :: 0 <= i < |first| ==> IsPrefix(p, first[i].path) by {
        forall i | 0 <= i < |first| ensures IsPrefix(p, first[i].path) {
          assert first[i].path[..|p|] == first[i].path[..|c|][..|p|];
        }
      }
      if Stopped(first) then first else first + WalkChildren(fs, p, names[1..])
  }

  /** `filepath.Walk(root, fn)` for a walk function that gives up on the first error: the
      visits in the order the walk function sees them. */
  function Walk(fs: FileSystem, root: Path): (r: seq<Visit>)
    ensures r != [] && r[0].path == root
    ensures WellFormedWalk(r, root)
    ensures (root != [] && root !in fs.nodes) ==> r == [Visit(root, false)]
  {
    if root == [] || root in fs.nodes then WalkFrom(fs, root) else [Visit(root, false)]
  }

  // ---------------------------------------------------------------- cp.Copy

  /** Moving paths from below `src` to below `dst` keeps them apart. */
  lemma Rebase(src: Path, dst: Path)
    ensures forall q1, q2 :: IsPrefix(src, q1) && IsPrefix(src, q2) && dst + q1[|src|..] == dst + q2[|src|..]
                             ==> q1 == q2
  {
    forall q1, q2 | IsPrefix(src, q1) && IsPrefix(src, q2) && dst + q1[|src|..] == dst + q2[|src|..]
      ensures q1 == q2
    {
      assert q1[|src|..] == (dst + q1[|src|..])[|dst|..];
      assert q2[|src|..] == (dst + q2[|src|..])[|dst|..];
      assert q1 == q1[..|src|] + q1[|src|..];
      assert q2 == q2[..|src|] + q2[|src|..];
    }
  }

  /** The nodes of `src`'s subtree, moved below `dst`. */
  function Moved(fs: FileSystem, src: Path, dst: Path): (m: map<Path, Node>)
    ensures forall q :: q in fs.nodes && IsPrefix(src, q) ==> dst + q[|src|..] in m && m[dst + q[|src|..]] == fs.nodes[q]
    ensures forall d :: d in m ==> IsPrefix(dst, d)
  {
    Rebase(src, dst);
    map q | q in fs.nodes && IsPrefix(src, q) :: dst + q[|src|..] := fs.nodes[q]
  }

  /** Copying onto `d` clashes with what is there: the kinds differ or access fails. */
  predicate CopyClash(fs: FileSystem, d: Path, n: Node)
  {
    Faulty(fs, d) || (d in fs.nodes && fs.nodes[d].Dir? != n.Dir?)
  }

  /** `cp.Copy(src, dst)`: a file is written at `dst`, creating its missing ancestors; a
      directory is merged into `dst` entry by entry, files overwriting files.  Nothing at
      the destination is removed.  It fails when `src` or anything below it cannot be
      read, or a destination path is refused, or holds a directory where a file goes or
      a file where a directory goes. */
  function Copy(fs: FileSystem, src: Path, dst: Path): (r: Result<FileSystem, Error>)
    ensures r.Ok? ==> Stat(fs, src).Found?
    ensures r.Ok? ==> forall q :: q in fs.nodes && IsPrefix(src, q) ==> q !in fs.faulty
    ensures r.Ok? ==> forall q :: q in fs.nodes ==> q in r.value.nodes
    ensures r.Ok? ==> forall q :: q in fs.nodes && IsPrefix(src, q) ==>
                        dst + q[|src|..] in r.value.nodes && r.value.nodes[dst + q[|src|..]] == fs.nodes[q]
    ensures r.Ok? ==> dst in r.value.nodes
    ensures r.Ok? ==> r.value.faulty == fs.faulty && r.value.repos == fs.repos
  {
    match Stat(fs, src)
    case Found(n) =>
      var moved := Moved(fs, src, dst);
      if exists q :: q in fs.nodes && IsPrefix(src, q) && q in fs.faulty then Err(PathError(src))
      else if dst == [] then Err(PathError(dst))
      else if Stat(fs, dst).StatFailed? then Err(PathError(dst))
      else if exists d :: d in moved && CopyClash(fs, d, moved[d]) then Err(PathError(dst))
      else if CopyClash(fs, dst, n) then Err(PathError(dst))
      else
        var madeOrError := MkdirAll(fs, Parent(dst));
        if madeOrError.Err? then Err(madeOrError.error)
        else
          var made := madeOrError.value;
          var top := if src == [] then map[dst := Dir] else map[];
          assert src != [] ==> dst + src[|src|..] in moved;
          assert src != [] ==> dst + src[|src|..] == dst;
          Ok(made.(nodes := made.nodes + top + moved))
    case _ => Err(ErrorAt(fs, src))
  }

  // ---------------------------------------------------------------- os.Rename

  /** `fs` without `p`'s subtree: nodes and repositories alike. */
  function Detach(fs: FileSystem, p: Path): (r: FileSystem)
    ensures forall q :: q in r.nodes <==> q in fs.nodes && !IsPrefix(p, q)
  {
    fs.(nodes := map q | q in fs.nodes && !IsPrefix(p, q) :: fs.nodes[q],
        repos := map q | q in fs.repos && !IsPrefix(p, q) :: fs.repos[q])
  }

  /** The repositories of `src`'s subtree, moved below `dst`. */
  function MovedRepos(fs: FileSystem, src: Path, dst: Path): (m: map<Path, Repo>)
    ensures forall q :: q in fs.repos && IsPrefix(src, q) ==> dst + q[|src|..] in m && m[dst + q[|src|..]] == fs.repos[q]
  {
    Rebase(src, dst);
    map q | q in fs.repos && IsPrefix(src, q) :: dst + q[|src|..] := fs.repos[q]
  }

  /** `src`'s subtree, with its repositories, taken off and put in place of `dst`'s. */
  function Graft(fs: FileSystem, src: Path, dst: Path): (r: FileSystem)
    ensures forall q :: q in fs.nodes && IsPrefix(src, q) ==>
              dst + q[|src|..] in r.nodes && r.nodes[dst + q[|src|..]] == fs.nodes[q]
    ensures forall q :: q in fs.repos && IsPrefix(src, q) ==>
              dst + q[|src|..] in r.repos && r.repos[dst + q[|src|..]] == fs.repos[q]
    ensures !IsPrefix(src, dst) && !IsPrefix(dst, src) ==> forall q :: q in r.nodes ==> !IsPrefix(src, q)
  {
    var rest := Detach(Detach(fs, src), dst);
    var moved := Moved(fs, src, dst);
    assert !IsPrefix(src, dst) && !IsPrefix(dst, src) ==> forall q :: q in moved ==> !IsPrefix(src, q) by {
      forall q | q in moved && !IsPrefix(src, dst) && !IsPrefix(dst, src) ensures !IsPrefix(src, q) {
        NotBelowBoth(src, dst, q);
      }
    }
    rest.(nodes := rest.nodes + moved, repos := rest.repos + MovedRepos(fs, src, dst))
  }

  /** `os.Rename(src, dst)` on Unix: Go refuses a `dst` that is an existing directory
      (`EEXIST`), even when it is `src` itself; then rename(2) needs `src` to exist,
      `dst`'s parent to be a directory, `dst` not to be inside `src` or the other way
      round, and an existing `dst` (a file) to be replaced by a file.  The subtree moves,
      with the repositories in it; a file renamed onto itself stays. */
  function Rename(fs: FileSystem, src: Path, dst: Path): (r: Result<FileSystem, Error>)
    ensures r.Ok? ==> Stat(fs, src).Found? && src != [] && !IsDirAt(fs, dst)
    ensures r.Ok? && src != dst ==> !IsPrefix(src, dst) && !IsPrefix(dst, src)
    ensures r.Ok? && src != dst ==> (forall q :: q in fs.repos && IsPrefix(src, q) ==>
                                       dst + q[|src|..] in r.value.repos && r.value.repos[dst + q[|src|..]] == fs.repos[q])
    ensures r.Ok? && src != dst ==> (forall q :: q in fs.nodes && IsPrefix(src, q) ==>
                                       dst + q[|src|..] in r.value.nodes && r.value.nodes[dst + q[|src|..]] == fs.nodes[q])
    ensures r.Ok? && src != dst ==> (forall q :: q in r.value.nodes && IsPrefix(src, q) ==> false)
    ensures r.Ok? && src == dst ==> r.value == fs
  {
    match Stat(fs, src)
    case Found(n) =>
      if src == [] then Err(PathError(src))
      else if IsDirAt(fs, dst) then Err(PathError(dst))
      else if src == dst then Ok(fs)
      else if IsPrefix(src, dst) || IsPrefix(dst, src) then Err(PathError(dst))
      else if Stat(fs, Parent(dst)) != Found(Dir) then Err(ErrorAt(fs, Parent(dst)))
      else if Faulty(fs, dst) then Err(PathError(dst))
      else if dst in fs.nodes && n.Dir? then Err(PathError(dst))
      else
        Ok(Graft(fs, src, dst))
    case _ => Err(ErrorAt(fs, src))
  }

  /** `os.Remove` of the file `p`. */
  function RemoveFile(fs: FileSystem, p: Path): (r: Result<FileSystem, Error>)
    ensures r.Ok? <==> IsFileAt(fs, p) && !Faulty(fs, p) && !UnderFile(fs, p)
    ensures r.Ok? ==> r.value == fs.(nodes := fs.nodes - {p})
  {
    if Stat(fs, p).Found? && Stat(fs, p).node.File? then Ok(fs.(nodes := fs.nodes - {p}))
    else Err(ErrorAt(fs, p))
  }
}

/** The machine's file system as the process sees it over time. */
module Machine {
  import opened Fs
  import opened GitModel

  class Disk {
    var fs: FileSystem

    constructor (initial: FileSystem)
      ensures fs == initial
    {
      fs := initial;
    }
  }

  /** The remote repositories, by URL, as the transport reaches them; a URL that is not
      a key cannot be reached. */
  class Network {
    var remotes: map<string, History>

    constructor (initial: map<string, History>)
      ensures remotes == initial
    {
      remotes := initial;
    }
  }
}
