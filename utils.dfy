/** `pkg/utils`: the directory helper and the fatal-error helper. */
module Utils {
  import opened Wrappers
  import opened Paths
  import opened Errors
  import opened Fs
  import opened Machine

  /** `HandleErr`: a nil error lets the process go on; any other ends it with that error. */
  function HandleErr(err: Option<Error>): (st: Status)
    ensures st.Running? <==> err.None?
    ensures err.Some? ==> st.error == err.value
  {
    if err.None? then Running else Exited(err.value)
  }

  /** The file system after `EnsureDir(p)`: unchanged when `p` is there (or cannot be
      inspected), otherwise with `p` and its missing ancestors made. */
  function Ensure(fs: FileSystem, p: Path): (r: Result<FileSystem, Error>)
    ensures Stat(fs, p) != Missing ==> r == Ok(fs)
    ensures r.Ok? ==> Stat(r.value, p) != Missing
    ensures r.Ok? ==> forall q :: q in fs.nodes ==> q in r.value.nodes && r.value.nodes[q] == fs.nodes[q]
    ensures r.Ok? ==> r.value.faulty == fs.faulty && r.value.repos == fs.repos
  {
    if Stat(fs, p) != Missing then Ok(fs)
    else
      var made := MkdirAll(fs, p);
      if made.Ok? then MkdirAllMakesDir(fs, p); made else made
  }

  /** A path that was there stays there when another is ensured. */
  lemma EnsureKeeps(fs: FileSystem, p: Path, q: Path)
    requires Ensure(fs, p).Ok? && Stat(fs, q) != Missing
    ensures Stat(Ensure(fs, p).value, q) != Missing
  {
  }

  /** A second `EnsureDir` of the same path changes nothing. */
  lemma EnsureIdempotent(fs: FileSystem, p: Path)
    requires Ensure(fs, p).Ok?
    ensures Ensure(Ensure(fs, p).value, p) == Ensure(fs, p)
  {
  }

  /** `EnsureDir`: reports whether `p` was there already; a stat error other than
      "does not exist" counts as there.  Otherwise it creates `p` and its missing
      ancestors, and a failure to do so ends the process. */
  method EnsureDir(disk: Disk, p: Path) returns (existed: bool, st: Status)
    modifies disk
    ensures existed <==> Stat(old(disk.fs), p) != Missing
    ensures existed ==> st == Running && disk.fs == old(disk.fs)
    ensures !existed ==> (st == Running <==> MkdirAll(old(disk.fs), p).Ok?)
    ensures !existed && st == Running ==> disk.fs == MkdirAll(old(disk.fs), p).value
    ensures st == Running ==> Stat(disk.fs, p) != Missing
    ensures st == Running <==> Ensure(old(disk.fs), p).Ok?
    ensures st.Exited? ==> st.error == Ensure(old(disk.fs), p).error
    ensures st == Running ==> disk.fs == Ensure(old(disk.fs), p).value
  {
    if Stat(disk.fs, p) != Missing {
      return true, Running;
    }
    var made := MkdirAll(disk.fs, p);
    if made.Err? {
      return false, HandleErr(Some(made.error));
    }
    MkdirAllMakesDir(disk.fs, p);
    disk.fs := made.value;
    return false, Running;
  }
}
