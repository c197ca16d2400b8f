/** `synced_server_git.go`: the git side of a synced server.  Its repository is opened
    (or created, with the remote `origin`) lazily, the first time an operation needs it;
    restore, fetch, pull, commit and push classify the library's sentinel errors as
    "nothing to do" or fatal; clone names the server after the first `.ini` file of the
    cloned `config` directory and moves the clone to the server's directory. */
module ServerGit {
  import opened Wrappers
  import opened Utf8
  import opened Text
  import opened Paths
  import opened Errors
  import opened GitModel
  import opened Fs
  import opened Machine
  import opened Git
  import opened GitUtils
  import opened Codec
  import opened Store
  import opened Config
  import opened Utils
  import opened SyncedServers

  /** How an operation goes on after the library returned `err`: a nil error and the
      tolerated sentinels let the process go on; any other error ends it. */
  function Settle(err: Option<Error>, tolerated: set<Error>): (st: Status)
    ensures st.Running? <==> err.None? || err.value in tolerated
    ensures st.Exited? ==> st.error == err.value
  {
    if err.None? || err.value in tolerated then Running else Exited(err.value)
  }

  // ---------------------------------------------------------------- opening

  /** `InitGit`'s effect: the server directory is ensured, an existing repository there
      is opened as it is; where there is none, one is created with `origin` set to the
      server's URL; any other failure to open it is fatal. */
  function OpenOrInit(fs: FileSystem, sp: Path, url: string): (r: Result<FileSystem, Error>)
    ensures r.Ok? ==> sp in r.value.repos
    ensures Stat(fs, sp).Found? && sp in fs.repos ==> r == Ok(fs)
    ensures r.Ok? && sp in fs.repos ==> r.value.repos == fs.repos
    ensures r.Ok? && sp !in fs.repos ==> r.value.repos == fs.repos[sp := Initial(url)]
    ensures r.Ok? ==> forall q :: q in fs.nodes ==> q in r.value.nodes && r.value.nodes[q] == fs.nodes[q]
    ensures r.Ok? ==> r.value.faulty == fs.faulty
  {
    var ensured := Ensure(fs, sp);
    if ensured.Err? then ensured
    else
      match PlainOpen(ensured.value, sp)
      case Ok(_) => ensured
      case Err(e) => if e == Git(RepositoryNotExists) then PlainInitWithOrigin(ensured.value, sp, url) else Err(e)
  }

  /** Opening again what `InitGit` opened or created changes nothing. */
  lemma OpenOrInitIdempotent(fs: FileSystem, sp: Path, url: string)
    requires OpenOrInit(fs, sp, url).Ok?
    ensures OpenOrInit(OpenOrInit(fs, sp, url).value, sp, url) == OpenOrInit(fs, sp, url)
  {
    var ensured := Ensure(fs, sp).value;
    var r := OpenOrInit(fs, sp, url).value;
    if PlainOpen(ensured, sp).Err? {
      assert Stat(r, sp) == Stat(ensured, sp);
    }
  }

  /** The worktree an operation works on: the one the handle was opened at, or else the
      server's directory, which the operation opens first. */
  function Root(repo: Option<Path>, sp: Path): Path
  {
    if repo.Some? then repo.value else sp
  }

  /** The file system once the handle is there: as it was when the handle is set,
      otherwise after `InitGit`. */
  function Prepared(repo: Option<Path>, fs: FileSystem, sp: Path, url: string): (r: Result<FileSystem, Error>)
    ensures repo.Some? ==> r == Ok(fs)
    ensures repo.None? ==> r == OpenOrInit(fs, sp, url)
  {
    if repo.Some? then Ok(fs) else OpenOrInit(fs, sp, url)
  }

  /** `InitGit`. */
  method InitGit(ss: SyncedServer, g: Globals, disk: Disk) returns (st: Status)
    modifies ss, disk
    ensures ss.name == old(ss.name) && ss.gitURL == old(ss.gitURL)
    ensures st.Running? <==> OpenOrInit(old(disk.fs), ServerPath(g.serversPath, ss.name), ss.gitURL).Ok?
    ensures st.Running? ==> disk.fs == OpenOrInit(old(disk.fs), ServerPath(g.serversPath, ss.name), ss.gitURL).value
                            && ss.repo == Some(ServerPath(g.serversPath, ss.name))
    ensures st.Exited? ==> st.error == OpenOrInit(old(disk.fs), ServerPath(g.serversPath, ss.name), ss.gitURL).error
  {
    var sp := ss.GetServerPath(g);
    var _, ensured := EnsureDir(disk, sp);
    if ensured.Exited? { return ensured; }
    var openedRepo := PlainOpen(disk.fs, sp);
    if openedRepo.Err? && openedRepo.error == Git(RepositoryNotExists) {
      var created := PlainInitWithOrigin(disk.fs, sp, ss.gitURL);
      if created.Err? { return HandleErr(Some(created.error)); }
      disk.fs := created.value;
    } else if openedRepo.Err? {
      return Exited(openedRepo.error);
    }
    ss.repo := Some(sp);
    return Running;
  }

  /** The guard every operation starts with: open the repository when the handle is nil. */
  method OpenRepo(ss: SyncedServer, g: Globals, disk: Disk) returns (root: Path, st: Status)
    modifies ss, disk
    ensures ss.name == old(ss.name) && ss.gitURL == old(ss.gitURL)
    ensures root == Root(old(ss.repo), ServerPath(g.serversPath, ss.name))
    ensures st.Running? <==> Prepared(old(ss.repo), old(disk.fs), ServerPath(g.serversPath, ss.name), ss.gitURL).Ok?
    ensures st.Running? ==> disk.fs == Prepared(old(ss.repo), old(disk.fs), ServerPath(g.serversPath, ss.name), ss.gitURL).value
                            && ss.repo == Some(root)
    ensures st.Exited? ==> st.error == Prepared(old(ss.repo), old(disk.fs), ServerPath(g.serversPath, ss.name), ss.gitURL).error
  {
    if ss.repo.None? {
      st := InitGit(ss, g, disk);
      root := ServerPath(g.serversPath, ss.name);
    } else {
      root := ss.repo.value;
      st := Running;
    }
  }

  // ---------------------------------------------------------------- restore

  /** `Restore`'s effect as written: a hard reset to the last commit, then
      `removeUnstagedFiles`, which ends the process with `ErrEntryNotFound` when the reset
      left any untracked file, and otherwise changes nothing. */
  function RestoredAsWritten(fs: FileSystem, root: Path): (r: Result<FileSystem, Error>)
    ensures r.Ok? ==> HardReset(fs, root).Ok? && r.value == HardReset(fs, root).value
    ensures r.Ok? ==> WorktreeStatus(r.value, root).Ok? && UntrackedEntries(WorktreeStatus(r.value, root).value) == {}
  {
    var reset := HardReset(fs, root);
    if reset.Err? then reset
    else
      var status := WorktreeStatus(reset.value, root);
      if status.Err? then Err(status.error)
      else if UntrackedEntries(status.value) != {} then Err(Git(EntryNotFound))
      else Ok(reset.value)
  }

  /** A hard reset leaves a file the last commit does not track where it was. */
  lemma ResetKeepsUntracked(fs: FileSystem, root: Path, rel: Path)
    requires HardReset(fs, root).Ok?
    requires rel in Worktree(fs, root) && rel !in Tip(fs.repos[root].head)
    ensures rel in Worktree(HardReset(fs, root).value, root)
  {
    WorktreeAt(fs, root, rel);
    var tip := Tip(fs.repos[root].head);
    var q := root + rel;
    assert q[|root|..] == rel;
    assert q !in TreeDirs(root, tip);
    assert q !in TreeFiles(root, tip);
    assert q !in Removed(root, tip, tip);
    WorktreeAt(HardReset(fs, root).value, root, rel);
  }

  /** As written, a worktree file that the last commit does not track survives the hard
      reset, and `wt.Remove` of it fails, so `Restore` ends the process instead of
      restoring the commit. */
  lemma UntrackedEndsRestore(fs: FileSystem, root: Path, rel: Path)
    requires HardReset(fs, root).Ok? && !FaultyWorktree(fs, root)
    requires rel in Worktree(fs, root) && rel !in Tip(fs.repos[root].head)
    ensures RestoredAsWritten(fs, root) == Err(Git(EntryNotFound))
  {
    hide HardReset, Checkout, Worktree;
    var reset := HardReset(fs, root).value;
    ResetKeepsUntracked(fs, root, rel);
    assert !FaultyWorktree(reset, root);
    assert rel in UntrackedEntries(WorktreeStatus(reset, root).value);
  }

  /** `Restore`'s effect with the corrected removal (`GitUtils.CleanUntracked`): a hard
      reset to the last commit, then the deletion of what the last commit does not track. */
  function Restored(fs: FileSystem, root: Path): (r: Result<FileSystem, Error>)
    ensures r.Ok? ==> HardReset(fs, root).Ok? && WorktreeStatus(HardReset(fs, root).value, root).Ok?
    ensures r.Ok? ==> r.value == WithoutUntracked(HardReset(fs, root).value, root)
  {
    var reset := HardReset(fs, root);
    if reset.Err? then reset
    else
      var status := WorktreeStatus(reset.value, root);
      if status.Err? then Err(status.error) else Ok(WithoutUntracked(reset.value, root))
  }

  /** Where the written `Restore` goes on, the corrected one has the same effect. */
  lemma RestoredAsWrittenAgrees(fs: FileSystem, root: Path)
    requires RestoredAsWritten(fs, root).Ok?
    ensures Restored(fs, root) == RestoredAsWritten(fs, root)
  {
    hide HardReset, WorktreeStatus, Checkout;
    var reset := HardReset(fs, root).value;
    NothingUntracked(reset, root);
  }

  /** A hard reset leaves every file of the last commit in the worktree. */
  lemma ResetWritesTip(fs: FileSystem, root: Path)
    requires HardReset(fs, root).Ok?
    requires [] !in Tip(fs.repos[root].head)
    ensures var reset := HardReset(fs, root).value;
            forall rel :: rel in Tip(fs.repos[root].head) ==>
              rel in Worktree(reset, root) && Worktree(reset, root)[rel] == Tip(fs.repos[root].head)[rel]
  {
    var reset := HardReset(fs, root).value;
    forall rel | rel in Tip(fs.repos[root].head)
      ensures rel in Worktree(reset, root) && Worktree(reset, root)[rel] == Tip(fs.repos[root].head)[rel]
    {
      WorktreeAt(reset, root, rel);
    }
  }

  /** A worktree holding every file of the last commit holds exactly those once the
      untracked files are gone. */
  lemma CleanedMatchesTip(fs: FileSystem, root: Path)
    requires WorktreeStatus(fs, root).Ok?
    requires forall rel :: rel in Tip(fs.repos[root].head) ==>
               rel in Worktree(fs, root) && Worktree(fs, root)[rel] == Tip(fs.repos[root].head)[rel]
    ensures Worktree(WithoutUntracked(fs, root), root) == Tip(fs.repos[root].head)
  {
    WithoutUntrackedTracked(fs, root);
    var w := Worktree(WithoutUntracked(fs, root), root);
    var tip := Tip(fs.repos[root].head);
    assert w.Keys == tip.Keys;
  }

  /** After a restore the worktree holds exactly the files of the last commit, with their
      committed contents. */
  lemma RestoredMatchesCommit(fs: FileSystem, root: Path)
    requires Restored(fs, root).Ok?
    requires [] !in Tip(fs.repos[root].head)
    ensures Worktree(Restored(fs, root).value, root) == Tip(fs.repos[root].head)
  {
    ResetWritesTip(fs, root);
    CleanedMatchesTip(HardReset(fs, root).value, root);
  }

  /** `Restore`: the repository is opened when the handle is nil, the worktree is
      reset hard to the last commit, and `removeUnstagedFiles` runs, ending the process on
      the first untracked file. */
  method Restore(ss: SyncedServer, g: Globals, disk: Disk) returns (st: Status)
    modifies ss, disk
    ensures ss.name == old(ss.name) && ss.gitURL == old(ss.gitURL)
    ensures var p := Prepared(old(ss.repo), old(disk.fs), ServerPath(g.serversPath, ss.name), ss.gitURL);
            var root := Root(old(ss.repo), ServerPath(g.serversPath, ss.name));
            && (p.Err? ==> st == Exited(p.error))
            && (p.Ok? && RestoredAsWritten(p.value, root).Err? ==> st == Exited(RestoredAsWritten(p.value, root).error))
            && (p.Ok? && HardReset(p.value, root).Ok? ==> disk.fs == HardReset(p.value, root).value)
            && (st.Running? ==> p.Ok? && RestoredAsWritten(p.value, root).Ok? && disk.fs == RestoredAsWritten(p.value, root).value
                                && ss.repo == Some(root))
  {
    var root;
    root, st := OpenRepo(ss, g, disk);
    if st.Exited? { return; }
    var reset := HardReset(disk.fs, root);
    if reset.Err? { return HandleErr(Some(reset.error)); }
    disk.fs := reset.value;
    st := RemoveUnstagedFiles(disk, root);
  }

  // ---------------------------------------------------------------- fetch and pull

  const FetchTolerated: set<Error> := {Git(AlreadyUpToDate)}
  const PullTolerated: set<Error> := {Git(AlreadyUpToDate), Git(EmptyRemote)}

  /** `Fetch`: true when something new arrived; "already up to date" is false, and any
      other error, an empty remote included, ends the process. */
  method Fetch(ss: SyncedServer, g: Globals, disk: Disk, net: Network) returns (updated: bool, st: Status)
    modifies ss, disk
    ensures ss.name == old(ss.name) && ss.gitURL == old(ss.gitURL)
    ensures var p := Prepared(old(ss.repo), old(disk.fs), ServerPath(g.serversPath, ss.name), ss.gitURL);
            var root := Root(old(ss.repo), ServerPath(g.serversPath, ss.name));
            && (p.Err? ==> st == Exited(p.error))
            && (p.Ok? ==> var o := Git.Fetch(p.value, root, net.remotes);
                 st == Settle(o.err, FetchTolerated) && (st.Running? ==> (updated <==> o.err.None?))
                 && disk.fs == o.fs && ss.repo == Some(root))
  {
    var root;
    root, st := OpenRepo(ss, g, disk);
    if st.Exited? { return false, st; }
    var o := Git.Fetch(disk.fs, root, net.remotes);
    disk.fs := o.fs;
    if o.err == Some(Git(AlreadyUpToDate)) {
      return false, Running;
    }
    assert o.err.Some? ==> o.err.value !in FetchTolerated;
    return true, HandleErr(o.err);
  }

  /** `Pull`: true after a pull that brought changes; "already up to date" and an empty
      remote are false, any other error ends the process. */
  method Pull(ss: SyncedServer, g: Globals, disk: Disk, net: Network) returns (changed: bool, st: Status)
    modifies ss, disk
    ensures ss.name == old(ss.name) && ss.gitURL == old(ss.gitURL)
    ensures var p := Prepared(old(ss.repo), old(disk.fs), ServerPath(g.serversPath, ss.name), ss.gitURL);
            var root := Root(old(ss.repo), ServerPath(g.serversPath, ss.name));
            && (p.Err? ==> st == Exited(p.error))
            && (p.Ok? ==> var o := Git.Pull(p.value, root, net.remotes);
                 st == Settle(o.err, PullTolerated) && (st.Running? ==> (changed <==> o.err.None?))
                 && disk.fs == o.fs && ss.repo == Some(root))
  {
    var root;
    root, st := OpenRepo(ss, g, disk);
    if st.Exited? { return false, st; }
    var o := Git.Pull(disk.fs, root, net.remotes);
    disk.fs := o.fs;
    if o.err == Some(Git(AlreadyUpToDate)) || o.err == Some(Git(EmptyRemote)) {
      return false, Running;
    }
    assert o.err.Some? ==> o.err.value !in PullTolerated;
    return true, HandleErr(o.err);
  }

  /** A pull that reports changes leaves the branch at the remote's history, which extends
      the local one, and the worktree holding the files of its last commit; pulling again
      reports no changes. */
  lemma PullBringsRemote(fs: FileSystem, root: Path, remotes: map<string, History>)
    requires Settle(Git.Pull(fs, root, remotes).err, PullTolerated).Running?
    requires Git.Pull(fs, root, remotes).err.None?
    ensures var after := Git.Pull(fs, root, remotes).fs;
            root in fs.repos && HasOrigin(fs.repos[root]) && OriginURL(fs.repos[root]) in remotes
            && root in after.repos && after.repos[root].head == remotes[OriginURL(fs.repos[root])]
            && IsAncestor(fs.repos[root].head, after.repos[root].head)
            && (forall rel :: rel in Tip(after.repos[root].head) ==>
                  (root + rel in after.nodes && after.nodes[root + rel] == File(Tip(after.repos[root].head)[rel])))
    ensures !Settle(Git.Pull(Git.Pull(fs, root, remotes).fs, root, remotes).err, PullTolerated).Exited?
    ensures Git.Pull(Git.Pull(fs, root, remotes).fs, root, remotes).err.Some?
  {
    PullSettles(fs, root, remotes);
  }

  // ---------------------------------------------------------------- commit and push

  const CommitPrefix: string := "SyncedPZ: synced by "

  /** The commit message, naming the player whose machine made the commit. */
  function CommitMessage(steamID: string): (m: string)
    ensures HasPrefix(m, CommitPrefix) && m[|CommitPrefix|..] == steamID
  {
    CommitPrefix + steamID
  }

  const CommitTolerated: set<Error> := {Git(EmptyCommit)}
  const PushTolerated: set<Error> := {Git(AlreadyUpToDate)}

  /** `Commit`: everything is staged and committed; nothing to commit is no error. */
  method Commit(ss: SyncedServer, g: Globals, disk: Disk) returns (st: Status)
    modifies ss, disk
    ensures ss.name == old(ss.name) && ss.gitURL == old(ss.gitURL)
    ensures var p := Prepared(old(ss.repo), old(disk.fs), ServerPath(g.serversPath, ss.name), ss.gitURL);
            var root := Root(old(ss.repo), ServerPath(g.serversPath, ss.name));
            && (p.Err? ==> st == Exited(p.error))
            && (p.Ok? ==> var o := CommitAll(p.value, root, CommitMessage(g.steamID));
                 st == Settle(o.err, CommitTolerated) && disk.fs == o.fs && ss.repo == Some(root))
  {
    var root;
    root, st := OpenRepo(ss, g, disk);
    if st.Exited? { return; }
    var o := CommitAll(disk.fs, root, CommitMessage(g.steamID));
    disk.fs := o.fs;
    if o.err != Some(Git(EmptyCommit)) {
      st := HandleErr(o.err);
    }
  }

  /** `Push`: "already up to date" is no error. */
  method Push(ss: SyncedServer, g: Globals, disk: Disk, net: Network) returns (st: Status)
    modifies ss, disk, net
    ensures ss.name == old(ss.name) && ss.gitURL == old(ss.gitURL)
    ensures var p := Prepared(old(ss.repo), old(disk.fs), ServerPath(g.serversPath, ss.name), ss.gitURL);
            var root := Root(old(ss.repo), ServerPath(g.serversPath, ss.name));
            && (p.Err? ==> st == Exited(p.error))
            && (p.Ok? ==> var o := Git.Push(p.value, root, old(net.remotes));
                 st == Settle(o.err, PushTolerated) && disk.fs == o.fs && net.remotes == o.remotes
                 && ss.repo == Some(root))
  {
    var root;
    root, st := OpenRepo(ss, g, disk);
    if st.Exited? { return; }
    var o := Git.Push(disk.fs, root, net.remotes);
    disk.fs := o.fs;
    net.remotes := o.remotes;
    if o.err != Some(Git(AlreadyUpToDate)) {
      st := HandleErr(o.err);
    }
  }

  /** What `CommitAndPush` leaves, the file system and the remotes, when neither step
      ends the process.  When it goes on, the remote's last commit records exactly the
      worktree as it was before the commit. */
  function Published(fs: FileSystem, root: Path, message: string, remotes: map<string, History>)
    : (r: Result<(FileSystem, map<string, History>), Error>)
    ensures r.Ok? ==> root in fs.repos && HasOrigin(fs.repos[root]) && OriginURL(fs.repos[root]) in r.value.1
                      && Tip(r.value.1[OriginURL(fs.repos[root])]) == Worktree(fs, root)
  {
    var c := CommitAll(fs, root, message);
    var committed := Settle(c.err, CommitTolerated);
    if committed.Exited? then Err(committed.error)
    else
      var p := Git.Push(c.fs, root, remotes);
      var pushed := Settle(p.err, PushTolerated);
      if pushed.Exited? then Err(pushed.error)
      else
        CommitPushPublishes(fs, root, message, remotes);
        Ok((p.fs, p.remotes))
  }

  /** `CommitAndPush`: `Commit`, then `Push`. */
  method CommitAndPush(ss: SyncedServer, g: Globals, disk: Disk, net: Network) returns (st: Status)
    modifies ss, disk, net
    ensures ss.name == old(ss.name) && ss.gitURL == old(ss.gitURL)
    ensures var p := Prepared(old(ss.repo), old(disk.fs), ServerPath(g.serversPath, ss.name), ss.gitURL);
            var root := Root(old(ss.repo), ServerPath(g.serversPath, ss.name));
            && (p.Err? ==> st == Exited(p.error))
            && (p.Ok? ==> var r := Published(p.value, root, CommitMessage(g.steamID), old(net.remotes));
                 && (st.Running? <==> r.Ok?)
                 && (r.Err? ==> st == Exited(r.error))
                 && (r.Ok? ==> disk.fs == r.value.0 && net.remotes == r.value.1 && ss.repo == Some(root)))
  {
    st := Commit(ss, g, disk);
    if st.Exited? { return; }
    st := Push(ss, g, disk, net);
  }

  // ---------------------------------------------------------------- clone

  const IniSuffix: string := ".ini"

  /** A visit of a path whose base name ends in `.ini`. */
  predicate IsIni(v: Visit) { HasSuffix(Base(v.path), IniSuffix) }

  /** Where `Clone`'s walk function stops the walk: at the first error visit or `.ini`
      visit, or after the last visit when there is neither. */
  function FirstStop(vs: seq<Visit>): (i: nat)
    ensures i <= |vs|
    ensures forall j :: 0 <= j < i ==> vs[j].ok && !IsIni(vs[j])
    ensures i < |vs| ==> !vs[i].ok || IsIni(vs[i])
  {
    if vs == [] then 0
    else if !vs[0].ok || IsIni(vs[0]) then 0
    else 1 + FirstStop(vs[1..])
  }

  /** The name `Clone`'s walk function leaves: the base name, less `.ini`, of the first
      visited path whose base name ends in `.ini`; `current` when there is none; an error
      visit before it ends the walk, and the process, with that error. */
  function CloneName(fs: FileSystem, vs: seq<Visit>, current: string): (r: Result<string, Error>)
    ensures (forall j :: 0 <= j < |vs| ==> vs[j].ok && !IsIni(vs[j])) ==> r == Ok(current)
    ensures r.Ok? && r.value != current ==>
              exists i :: 0 <= i < |vs| && vs[i].ok && r.value + IniSuffix == Base(vs[i].path)
                          && forall j :: 0 <= j < i ==> vs[j].ok && !IsIni(vs[j])
    ensures r.Err? ==> exists i :: 0 <= i < |vs| && !vs[i].ok && r.error == ErrorAt(fs, vs[i].path)
                                   && forall j :: 0 <= j < i ==> !IsIni(vs[j])
  {
    var i := FirstStop(vs);
    if i == |vs| then Ok(current)
    else if !vs[i].ok then Err(ErrorAt(fs, vs[i].path))
    else Ok(TrimSuffix(Base(vs[i].path), IniSuffix))
  }

  /** The walk of `Clone`, visit by visit: the walk function sets the name at the first
      `.ini` file and stops the walk; an error visit ends the process. */
  method NameFromWalk(ss: SyncedServer, fs: FileSystem, visits: seq<Visit>) returns (st: Status)
    modifies ss
    ensures ss.gitURL == old(ss.gitURL) && ss.repo == old(ss.repo)
    ensures var r := CloneName(fs, visits, old(ss.name));
            && (st.Running? <==> r.Ok?)
            && (r.Ok? ==> ss.name == r.value)
            && (r.Err? ==> st == Exited(r.error))
  {
    var i := 0;
    while i < |visits|
      invariant 0 <= i <= FirstStop(visits)
      invariant ss.name == old(ss.name) && ss.gitURL == old(ss.gitURL) && ss.repo == old(ss.repo)
    {
      if !visits[i].ok {
        return Exited(ErrorAt(fs, visits[i].path));
      }
      if HasSuffix(Base(visits[i].path), IniSuffix) {
        ss.name := TrimSuffix(Base(visits[i].path), IniSuffix);
        return Running;
      }
      i := i + 1;
    }
    return Running;
  }

  /** The directory `Clone` clones into: the URL's base name below the servers directory. */
  function CloneDir(serversPath: Path, url: string): (p: Path)
    ensures ".." !in Pieces(BaseOf(url)) ==> IsPrefix(serversPath, p)
  {
    Join(serversPath, BaseOf(url))
  }

  /** The first part of `Clone`: the servers directory and the clone directory are
      ensured and the remote is cloned into the latter. */
  function ClonedRepo(fs: FileSystem, serversPath: Path, url: string, remotes: map<string, History>)
    : (r: Result<FileSystem, Error>)
  {
    var f1 := Ensure(fs, serversPath);
    if f1.Err? then f1
    else
      var f2 := Ensure(f1.value, CloneDir(serversPath, url));
      if f2.Err? then f2 else PlainClone(f2.value, CloneDir(serversPath, url), url, remotes)
  }

  /** The rest of `Clone` as the source writes it, on the cloned file system: the server
      is named from the clone's `config` directory, and the clone is always renamed to
      the server's directory and opened there.  The result is the file system and the
      name. */
  function RelocatedAsWritten(f: FileSystem, serversPath: Path, url: string, current: string)
    : (r: Result<(FileSystem, string), Error>)
  {
    var tmp := CloneDir(serversPath, url);
    var name := CloneName(f, Walk(f, Join(tmp, ConfigDirName)), current);
    if name.Err? then Err(name.error)
    else
      var moved := Rename(f, tmp, ServerPath(serversPath, name.value));
      if moved.Err? then Err(moved.error)
      else
        var openedRepo := PlainOpen(moved.value, ServerPath(serversPath, name.value));
        if openedRepo.Err? then Err(openedRepo.error) else Ok((moved.value, name.value))
  }

  /** The rest of `Clone` as evidently intended: as written, except that a clone already
      at the server's directory (the server is named like the URL's last component) is
      not renamed. */
  function Relocated(f: FileSystem, serversPath: Path, url: string, current: string): (r: Result<(FileSystem, string), Error>)
  {
    var tmp := CloneDir(serversPath, url);
    var name := CloneName(f, Walk(f, Join(tmp, ConfigDirName)), current);
    if name.Err? then Err(name.error)
    else
      var dir := ServerPath(serversPath, name.value);
      var moved := if dir == tmp then Ok(f) else Rename(f, tmp, dir);
      if moved.Err? then Err(moved.error)
      else
        var openedRepo := PlainOpen(moved.value, dir);
        if openedRepo.Err? then Err(openedRepo.error) else Ok((moved.value, name.value))
  }

  /** As written, a clone whose `.ini` file is named like the URL's last component ends
      the process: the clone directory is the server's directory, and `os.Rename`
      refuses to move a directory onto an existing directory, itself included. */
  lemma SameNameCloneAsWrittenFails(f: FileSystem, serversPath: Path, url: string, current: string)
    requires IsDirAt(f, CloneDir(serversPath, url))
    requires CloneName(f, Walk(f, Join(CloneDir(serversPath, url), ConfigDirName)), current) == Ok(BaseOf(url))
    ensures RelocatedAsWritten(f, serversPath, url, current).Err?
  {
    assert ServerPath(serversPath, BaseOf(url)) == CloneDir(serversPath, url);
  }

  /** With the correction, such a clone stays where it is and is named and opened there. */
  lemma SameNameCloneStays(f: FileSystem, serversPath: Path, url: string, current: string)
    requires CloneDir(serversPath, url) in f.repos && !Faulty(f, CloneDir(serversPath, url))
    requires CloneName(f, Walk(f, Join(CloneDir(serversPath, url), ConfigDirName)), current) == Ok(BaseOf(url))
    ensures Relocated(f, serversPath, url, current) == Ok((f, BaseOf(url)))
  {
    assert ServerPath(serversPath, BaseOf(url)) == CloneDir(serversPath, url);
  }

  /** The correction changes nothing for any other clone. */
  lemma RelocatedOtherwiseAsWritten(f: FileSystem, serversPath: Path, url: string, current: string)
    requires var name := CloneName(f, Walk(f, Join(CloneDir(serversPath, url), ConfigDirName)), current);
             name.Err? || ServerPath(serversPath, name.value) != CloneDir(serversPath, url)
    ensures Relocated(f, serversPath, url, current) == RelocatedAsWritten(f, serversPath, url, current)
  {
  }

  /** `Clone`'s effect, as a whole. */
  function Cloned(fs: FileSystem, serversPath: Path, url: string, current: string, remotes: map<string, History>)
    : (r: Result<(FileSystem, string), Error>)
  {
    var f := ClonedRepo(fs, serversPath, url, remotes);
    if f.Err? then Err(f.error) else Relocated(f.value, serversPath, url, current)
  }

  /** A clone that holds the remote's repository and last commit keeps both when it is
      renamed. */
  lemma RenameCarriesClone(f: FileSystem, tmp: Path, dir: Path, repo: Repo, tree: map<Path, Bytes>)
    requires Rename(f, tmp, dir).Ok?
    requires tmp in f.repos && f.repos[tmp] == repo
    requires forall rel :: rel in tree ==> tmp + rel in f.nodes && f.nodes[tmp + rel] == File(tree[rel])
    ensures var after := Rename(f, tmp, dir).value;
            dir in after.repos && after.repos[dir] == repo
            && forall rel :: rel in tree ==> dir + rel in after.nodes && after.nodes[dir + rel] == File(tree[rel])
  {
    var after := Rename(f, tmp, dir).value;
    if tmp != dir {
      assert tmp[|tmp|..] == [] && dir + [] == dir;
      assert IsPrefix(tmp, tmp);
      forall rel | rel in tree ensures dir + rel in after.nodes && after.nodes[dir + rel] == File(tree[rel]) {
        assert IsPrefix(tmp, tmp + rel) && (tmp + rel)[|tmp|..] == rel;
      }
    }
  }

  /** After a clone, the server's directory holds the repository of the remote, with its
      history and `origin`, and a worktree with the files of the remote's last commit. */
  lemma ClonedInPlace(fs: FileSystem, serversPath: Path, url: string, current: string, remotes: map<string, History>)
    requires Cloned(fs, serversPath, url, current, remotes).Ok?
    ensures var (after, name) := Cloned(fs, serversPath, url, current, remotes).value;
            var dir := ServerPath(serversPath, name);
            url in remotes && dir in after.repos
            && after.repos[dir] == Repo(remotes[url], remotes[url], map["origin" := [url]])
            && forall rel :: rel in Tip(remotes[url]) ==>
                 dir + rel in after.nodes && after.nodes[dir + rel] == File(Tip(remotes[url])[rel])
  {
    hide Walk, CloneName, Rename, PlainOpen, PlainClone, Checkout, Ensure, Stat;
    var tmp := CloneDir(serversPath, url);
    var f2 := Ensure(Ensure(fs, serversPath).value, tmp).value;
    var f3 := PlainClone(f2, tmp, url, remotes).value;
    var name := CloneName(f3, Walk(f3, Join(tmp, ConfigDirName)), current).value;
    if ServerPath(serversPath, name) != tmp {
      RenameCarriesClone(f3, tmp, ServerPath(serversPath, name), Repo(remotes[url], remotes[url], map["origin" := [url]]), Tip(remotes[url]));
    }
  }

  /** A clone that leaves the name empty, as one whose `config` directory holds no `.ini`
      file does when the server object starts without a name (as the clone command makes
      it), is refused: the clone would have to be renamed to the servers directory that
      holds it. */
  lemma NamelessCloneFails(f: FileSystem, serversPath: Path, url: string)
    requires IsComponent(BaseOf(url))
    requires CloneName(f, Walk(f, Join(CloneDir(serversPath, url), ConfigDirName)), "") == Ok("")
    ensures Relocated(f, serversPath, url, "").Err?
  {
    var tmp := CloneDir(serversPath, url);
    assert tmp == serversPath + [BaseOf(url)];
    assert ServerPath(serversPath, "") == serversPath;
    assert IsPrefix(serversPath, tmp);
  }

  /** A clone whose URL ends in a proper path component is never left without a name. */
  lemma ClonedNamed(fs: FileSystem, serversPath: Path, url: string, remotes: map<string, History>)
    requires IsComponent(BaseOf(url)) && Cloned(fs, serversPath, url, "", remotes).Ok?
    ensures Cloned(fs, serversPath, url, "", remotes).value.1 != ""
  {
    hide Rename, PlainOpen, Walk, CloneDir, ServerPath, Join, CloneName, ClonedRepo, IsComponent, BaseOf;
    var f := ClonedRepo(fs, serversPath, url, remotes).value;
    if CloneName(f, Walk(f, Join(CloneDir(serversPath, url), ConfigDirName)), "") == Ok("") {
      NamelessCloneFails(f, serversPath, url);
    }
  }

  /** The first part of `Clone`. */
  method CloneRepo(ss: SyncedServer, g: Globals, disk: Disk, net: Network) returns (st: Status)
    modifies ss, disk
    ensures ss.gitURL == old(ss.gitURL) && ss.name == old(ss.name)
    ensures var c := ClonedRepo(old(disk.fs), g.serversPath, ss.gitURL, net.remotes);
            && (st.Running? <==> c.Ok?)
            && (c.Err? ==> st == Exited(c.error))
            && (c.Ok? ==> disk.fs == c.value && ss.repo == Some(CloneDir(g.serversPath, ss.gitURL)))
  {
    hide Ensure, PlainClone, CloneDir, Stat, MkdirAll;
    var tmp := CloneDir(g.serversPath, ss.gitURL);
    var _, ensured := EnsureDir(disk, g.serversPath);
    if ensured.Exited? { return ensured; }
    var _, ensuredTmp := EnsureDir(disk, tmp);
    if ensuredTmp.Exited? { return ensuredTmp; }
    var cloned := PlainClone(disk.fs, tmp, ss.gitURL, net.remotes);
    if cloned.Err? { return HandleErr(Some(cloned.error)); }
    disk.fs := cloned.value;
    ss.repo := Some(tmp);
    return Running;
  }

  /** `Clone`: the remote is cloned, the walk of the clone's `config` directory names the
      server, and the clone is renamed, reopened and saved. */
  method Clone(ss: SyncedServer, g: Globals, disk: Disk, net: Network, db: Db) returns (st: Status)
    modifies ss, disk, db
    ensures ss.gitURL == old(ss.gitURL)
    ensures var c := Cloned(old(disk.fs), g.serversPath, ss.gitURL, old(ss.name), net.remotes);
            && (st.Running? <==> c.Ok?)
            && (c.Err? ==> st == Exited(c.error))
            && (c.Ok? ==> disk.fs == c.value.0 && ss.name == c.value.1
                          && ss.repo == Some(ServerPath(g.serversPath, c.value.1))
                          && db.kv == old(db.kv)[Key(c.value.1) := EncodeRecord(Record(c.value.1, ss.gitURL))])
  {
    hide ClonedRepo, Relocated, Key, EncodeRecord, ServerPath, CloneDir;
    st := CloneRepo(ss, g, disk, net);
    if st.Exited? { return; }
    st := Relocate(ss, g, disk);
    if st.Exited? { return; }
    ss.Save(db);
  }

  /** The part of `Clone` after the clone: the server named, its directory moved into
      place and opened there. */
  method Relocate(ss: SyncedServer, g: Globals, disk: Disk) returns (st: Status)
    modifies ss, disk
    requires ss.repo == Some(CloneDir(g.serversPath, ss.gitURL))
    ensures ss.gitURL == old(ss.gitURL)
    ensures var r := Relocated(old(disk.fs), g.serversPath, ss.gitURL, old(ss.name));
            && (st.Running? <==> r.Ok?)
            && (r.Err? ==> st == Exited(r.error))
            && (r.Ok? ==> disk.fs == r.value.0 && ss.name == r.value.1
                          && ss.repo == Some(ServerPath(g.serversPath, r.value.1)))
  {
    hide CloneName, Walk, Rename, PlainOpen, ServerPath, CloneDir, Join;
    var tmp := CloneDir(g.serversPath, ss.gitURL);
    var named := NameFromWalk(ss, disk.fs, Walk(disk.fs, Join(tmp, ConfigDirName)));
    if named.Exited? { return named; }
    var dir := ss.GetServerPath(g);
    if dir != tmp {
      var renamed := Rename(disk.fs, tmp, dir);
      if renamed.Err? { return HandleErr(Some(renamed.error)); }
      disk.fs := renamed.value;
    }
    var reopened := PlainOpen(disk.fs, dir);
    if reopened.Err? { return HandleErr(Some(reopened.error)); }
    ss.repo := Some(dir);
    return Running;
  }
}
