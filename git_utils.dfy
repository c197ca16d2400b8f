/** `git_utils.go`: removal of the files of a worktree that the last commit does not
    track. */
module GitUtils {
  import opened Wrappers
  import opened Paths
  import opened Errors
  import opened GitModel
  import opened Fs
  import opened Machine
  import opened Git
  import opened Utils

  /** The entries a status reports as untracked, by path relative to the worktree. */
  function UntrackedEntries(status: map<Path, FileStatus>): (r: set<Path>)
    ensures forall rel :: rel in r <==> rel in status && status[rel] == Untracked
  {
    set rel | rel in status && status[rel] == Untracked
  }

  /** The paths, below `root`, of the entries a status reports as untracked. */
  function UntrackedPaths(status: map<Path, FileStatus>, root: Path): (r: set<Path>)
    ensures forall rel :: rel in status && status[rel] == Untracked ==> root + rel in r
    ensures forall q :: q in r ==> IsPrefix(root, q) && q[|root|..] in status && status[q[|root|..]] == Untracked
  {
    var r := set rel | rel in status && status[rel] == Untracked :: root + rel;
    assert forall q :: q in r ==> IsPrefix(root, q) && q[|root|..] in status && status[q[|root|..]] == Untracked by {
      forall q | q in r ensures IsPrefix(root, q) && q[|root|..] in status && status[q[|root|..]] == Untracked {
        var rel :| rel in status && status[rel] == Untracked && q == root + rel;
        assert q[|root|..] == rel;
      }
    }
    r
  }

  /** The worktree once every untracked file is gone. */
  function WithoutUntracked(fs: FileSystem, root: Path): (r: FileSystem)
    requires WorktreeStatus(fs, root).Ok?
  {
    fs.(nodes := fs.nodes - UntrackedPaths(WorktreeStatus(fs, root).value, root))
  }

  /** With nothing untracked, removing the untracked files changes nothing. */
  lemma NothingUntracked(fs: FileSystem, root: Path)
    requires WorktreeStatus(fs, root).Ok? && UntrackedEntries(WorktreeStatus(fs, root).value) == {}
    ensures WithoutUntracked(fs, root) == fs
  {
    var gone := UntrackedPaths(WorktreeStatus(fs, root).value, root);
    assert gone == {};
    assert fs.nodes - gone == fs.nodes;
  }

  /** Removing the untracked files leaves exactly the worktree files the last commit
      tracks, with their contents as they were. */
  lemma WithoutUntrackedTracked(fs: FileSystem, root: Path)
    requires WorktreeStatus(fs, root).Ok?
    ensures forall rel :: rel in Worktree(WithoutUntracked(fs, root), root) <==>
              rel in Worktree(fs, root) && rel in Tip(fs.repos[root].head)
    ensures forall rel :: rel in Worktree(WithoutUntracked(fs, root), root) ==>
              Worktree(WithoutUntracked(fs, root), root)[rel] == Worktree(fs, root)[rel]
  {
    var after := WithoutUntracked(fs, root);
    var gone := UntrackedPaths(WorktreeStatus(fs, root).value, root);
    forall rel ensures (rel in Worktree(after, root) <==> rel in Worktree(fs, root) && rel in Tip(fs.repos[root].head))
      && (rel in Worktree(after, root) ==> Worktree(after, root)[rel] == Worktree(fs, root)[rel])
    {
      WorktreeAt(fs, root, rel);
      WorktreeAt(after, root, rel);
      assert (root + rel)[|root|..] == rel;
    }
  }

  /** The paths below `root` of the entries `rels`. */
  function Below(root: Path, rels: set<Path>): set<Path>
  {
    set rel | rel in rels :: root + rel
  }

  /** `removeUnstagedFiles`: the worktree's status is read, and `wt.Remove` is called on
      every entry it reports as untracked, in no particular order; a failure ends the
      process.  `wt.Remove` first takes the path out of the index, which never holds an
      untracked path, so the first call fails: the worktree is never changed, and the
      process goes on exactly when nothing is untracked. */
  method RemoveUnstagedFiles(disk: Disk, root: Path) returns (st: Status)
    modifies disk
    ensures disk.fs == old(disk.fs)
    ensures WorktreeStatus(old(disk.fs), root).Err? ==> st == Exited(WorktreeStatus(old(disk.fs), root).error)
    ensures WorktreeStatus(old(disk.fs), root).Ok? ==>
              var untracked := UntrackedEntries(WorktreeStatus(old(disk.fs), root).value);
              (st.Running? <==> untracked == {}) && (untracked != {} ==> st == Exited(Git(EntryNotFound)))
  {
    var status := WorktreeStatus(disk.fs, root);
    if status.Err? {
      return HandleErr(Some(status.error));
    }
    var untracked := UntrackedEntries(status.value);
    assert forall rel :: rel in untracked ==> rel !in Tip(disk.fs.repos[root].head);
    st := RemoveEntries(disk, root, untracked);
  }

  /** The loop of `removeUnstagedFiles`: `wt.Remove` of the entries `rels`, one at a time
      and in no particular order, until one fails.  It goes on only when every entry is
      tracked, and then all of them are gone; when none is tracked, the first call fails
      and nothing changes. */
  method RemoveEntries(disk: Disk, root: Path, rels: set<Path>) returns (st: Status)
    modifies disk
    ensures rels == {} ==> st == Running && disk.fs == old(disk.fs)
    ensures st.Running? ==> forall rel :: rel in rels ==> root in old(disk.fs).repos && rel in Tip(old(disk.fs).repos[root].head)
    ensures st.Running? ==> disk.fs == old(disk.fs).(nodes := old(disk.fs).nodes - Below(root, rels))
    ensures root in old(disk.fs).repos && rels != {} && (forall rel :: rel in rels ==> rel !in Tip(old(disk.fs).repos[root].head)) ==>
              st == Exited(Git(EntryNotFound)) && disk.fs == old(disk.fs)
    ensures exists gone :: gone <= rels && disk.fs == old(disk.fs).(nodes := old(disk.fs).nodes - Below(root, gone))
  {
    hide Remove;
    var pending := rels;
    ghost var gone: set<Path> := {};
    while pending != {}
      invariant gone <= rels && pending == rels - gone
      invariant forall rel :: rel in gone ==> root in old(disk.fs).repos && rel in Tip(old(disk.fs).repos[root].head)
      invariant disk.fs == old(disk.fs).(nodes := old(disk.fs).nodes - Below(root, gone))
      decreases |pending|
    {
      var rel :| rel in pending;
      var removed := Remove(disk.fs, root, rel);
      if removed.Err? {
        assert gone == {} ==> disk.fs == old(disk.fs);
        return HandleErr(Some(removed.error));
      }
      disk.fs := removed.value;
      pending := pending - {rel};
      assert Below(root, gone + {rel}) == Below(root, gone) + {root + rel};
      assert old(disk.fs).nodes - Below(root, gone) - {root + rel} == old(disk.fs).nodes - Below(root, gone + {rel});
      gone := gone + {rel};
    }
    assert gone == rels;
    return Running;
  }

  /** The removal `removeUnstagedFiles` is evidently meant to make: the status is read,
      and every untracked file is deleted from the worktree, in no particular order; a
      failure to read the status or to delete a file ends the process.  When it goes on,
      exactly the untracked files are gone; when a deletion fails, only untracked files
      are gone. */
  method CleanUntracked(disk: Disk, root: Path) returns (st: Status)
    modifies disk
    ensures WorktreeStatus(old(disk.fs), root).Err? ==>
              st == Exited(WorktreeStatus(old(disk.fs), root).error) && disk.fs == old(disk.fs)
    ensures WorktreeStatus(old(disk.fs), root).Ok? && st.Running? ==> disk.fs == WithoutUntracked(old(disk.fs), root)
    ensures WorktreeStatus(old(disk.fs), root).Ok? ==>
              exists gone :: gone <= UntrackedPaths(WorktreeStatus(old(disk.fs), root).value, root)
                             && disk.fs == old(disk.fs).(nodes := old(disk.fs).nodes - gone)
  {
    var status := WorktreeStatus(disk.fs, root);
    if status.Err? {
      return HandleErr(Some(status.error));
    }
    st := DeleteFiles(disk, UntrackedPaths(status.value, root));
  }

  /** The loop of `CleanUntracked`: the files `paths` are deleted one at a time, in no
      particular order, until one cannot be. */
  method DeleteFiles(disk: Disk, paths: set<Path>) returns (st: Status)
    modifies disk
    ensures st.Running? ==> disk.fs == old(disk.fs).(nodes := old(disk.fs).nodes - paths)
    ensures exists gone :: gone <= paths && disk.fs == old(disk.fs).(nodes := old(disk.fs).nodes - gone)
  {
    var pending := paths;
    ghost var gone: set<Path> := {};
    while pending != {}
      invariant gone <= paths && pending == paths - gone
      invariant disk.fs == old(disk.fs).(nodes := old(disk.fs).nodes - gone)
      decreases |pending|
    {
      var p :| p in pending;
      var removed := RemoveFile(disk.fs, p);
      if removed.Err? {
        return HandleErr(Some(removed.error));
      }
      disk.fs := removed.value;
      pending := pending - {p};
      assert old(disk.fs).nodes - gone - {p} == old(disk.fs).nodes - (gone + {p});
      gone := gone + {p};
    }
    return Running;
  }
}
