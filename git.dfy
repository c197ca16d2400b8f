/** The go-git operations the core calls, as functions of the file system (which holds the
    worktrees and their repositories) and of the remote repositories, keyed by URL; a URL
    that is not a key cannot be reached.  Credentials are not modelled.  The index always
    equals the tree of the last commit between the core's operations (every commit stages
    the whole worktree first), so it is not kept apart. */
module Git {
  import opened Wrappers
  import opened Utf8
  import opened Paths
  import opened Errors
  import opened GitModel
  import opened Fs

  /** Moving paths out from below `root` keeps them apart. */
  lemma Unrebase(root: Path)
    ensures forall q1, q2 :: IsPrefix(root, q1) && IsPrefix(root, q2) && q1[|root|..] == q2[|root|..] ==> q1 == q2
  {
    forall q1, q2 | IsPrefix(root, q1) && IsPrefix(root, q2) && q1[|root|..] == q2[|root|..] ensures q1 == q2 {
      assert q1 == q1[..|root|] + q1[|root|..];
      assert q2 == q2[..|root|] + q2[|root|..];
    }
  }

  /** The files of the worktree at `root`, by path relative to it. */
  function Worktree(fs: FileSystem, root: Path): map<Path, Bytes>
  {
    Unrebase(root);
    map q | q in fs.nodes && IsPrefix(root, q) && |q| > |root| && fs.nodes[q].File? :: q[|root|..] := fs.nodes[q].data
  }

  /** A worktree entry is exactly a file below the root. */
  lemma WorktreeAt(fs: FileSystem, root: Path, rel: Path)
    ensures rel in Worktree(fs, root) <==> rel != [] && root + rel in fs.nodes && fs.nodes[root + rel].File?
    ensures rel in Worktree(fs, root) ==> Worktree(fs, root)[rel] == fs.nodes[root + rel].data
  {
    var q := root + rel;
    assert q[|root|..] == rel;
    assert IsPrefix(root, q);
    Unrebase(root);
  }

  /** Access fails somewhere in the worktree. */
  predicate FaultyWorktree(fs: FileSystem, root: Path)
  {
    Faulty(fs, root) || exists q :: q in fs.faulty && IsPrefix(root, q)
  }

  /** The state after a library call and the error it returned (`None` for nil): go-git may
      change the repository and then report an error. */
  datatype Outcome = Outcome(fs: FileSystem, err: Option<Error>)

  /** `git.PlainOpen`. */
  function PlainOpen(fs: FileSystem, root: Path): (r: Result<Repo, Error>)
    ensures r.Ok? <==> !Faulty(fs, root) && root in fs.repos
    ensures r.Ok? ==> r.value == fs.repos[root]
    ensures r.Err? && !Faulty(fs, root) ==> r.error == Git(RepositoryNotExists)
  {
    if Faulty(fs, root) then Err(PathError(root))
    else if root in fs.repos then Ok(fs.repos[root])
    else Err(Git(RepositoryNotExists))
  }

  /** `git.PlainInit` on a directory, and `CreateRemote` of `origin` with the one URL. */
  function PlainInitWithOrigin(fs: FileSystem, root: Path, url: string): (r: Result<FileSystem, Error>)
    ensures r.Ok? <==> Stat(fs, root) == Found(Dir) && root !in fs.repos
    ensures r.Ok? ==> r.value == fs.(repos := fs.repos[root := Initial(url)])
  {
    if Stat(fs, root) != Found(Dir) then Err(ErrorAt(fs, root))
    else if root in fs.repos then Err(Git(RepositoryAlreadyExists))
    else Ok(fs.(repos := fs.repos[root := Initial(url)]))
  }

  // ---------------------------------------------------------------- checkout

  /** The directories the files of `tree` need below `root`. */
  function TreeDirs(root: Path, tree: map<Path, Bytes>): (r: set<Path>)
    ensures forall d :: d in r ==> IsPrefix(root, d)
  {
    var r := set rel, k | rel in tree && 1 <= k < |rel| :: root + rel[..k];
    assert forall d :: d in r ==> IsPrefix(root, d) by {
      forall d | d in r ensures IsPrefix(root, d) {
        var rel, k :| rel in tree && 1 <= k < |rel| && d == root + rel[..k];
        assert d[..|root|] == root;
      }
    }
    r
  }

  lemma Prepend(root: Path)
    ensures forall a, b :: root + a == root + b ==> a == b
  {
    forall a, b | root + a == root + b ensures a == b {
      assert a == (root + a)[|root|..];
      assert b == (root + b)[|root|..];
    }
  }

  /** The files of `tree`, placed below `root`. */
  function TreeFiles(root: Path, tree: map<Path, Bytes>): (m: map<Path, Node>)
    ensures forall rel :: rel in tree ==> root + rel in m && m[root + rel] == File(tree[rel])
    ensures forall q :: q in m ==> IsPrefix(root, q) && q[|root|..] in tree
  {
    Prepend(root);
    var m := map rel | rel in tree :: root + rel := File(tree[rel]);
    assert forall q :: q in m ==> IsPrefix(root, q) && q[|root|..] in tree by {
      forall q | q in m ensures IsPrefix(root, q) && q[|root|..] in tree {
        var rel :| rel in tree && q == root + rel;
        assert q[|root|..] == rel;
      }
    }
    m
  }

  /** The paths of the files only `from` has, below `root`. */
  function Removed(root: Path, from: map<Path, Bytes>, to: map<Path, Bytes>): (r: set<Path>)
    ensures forall q :: q in r ==> IsPrefix(root, q) && q[|root|..] in from && q[|root|..] !in to
    ensures forall rel :: rel in from && rel !in to ==> root + rel in r
  {
    var r := set rel | rel in from && rel !in to :: root + rel;
    assert forall q :: q in r ==> IsPrefix(root, q) && q[|root|..] in from && q[|root|..] !in to by {
      forall q | q in r ensures IsPrefix(root, q) && q[|root|..] in from && q[|root|..] !in to {
        var rel :| rel in from && rel !in to && q == root + rel;
        assert q[|root|..] == rel;
      }
    }
    r
  }

  /** The nodes after a checkout from `from` to `to` at `root`. */
  function CheckoutNodes(nodes: map<Path, Node>, root: Path, from: map<Path, Bytes>, to: map<Path, Bytes>): map<Path, Node>
  {
    (nodes - Removed(root, from, to)) + (map d | d in TreeDirs(root, to) :: Dir) + TreeFiles(root, to)
  }

  /** A checkout writes every file of the new tree, removes only files of the old tree
      that the new one lacks, and changes nothing outside the worktree except by making
      directories. */
  lemma CheckoutNodesEffect(nodes: map<Path, Node>, root: Path, from: map<Path, Bytes>, to: map<Path, Bytes>)
    ensures var after := CheckoutNodes(nodes, root, from, to);
      (forall rel :: rel in to ==> root + rel in after && after[root + rel] == File(to[rel]))
      && (forall q :: q in nodes && q !in after ==> IsPrefix(root, q) && q[|root|..] in from && q[|root|..] !in to)
      && (forall q :: q in after && q !in nodes ==> IsPrefix(root, q))
      && (forall q :: q in after && q in nodes && after[q] != nodes[q] ==> IsPrefix(root, q))
  {
  }

  /** Updating the worktree at `root` from the tree `from` to the tree `to`: the files of
      `to` are written (with the directories they need), the files only `from` has are
      removed, and everything else is left alone.  It fails where access is refused, where
      a directory stands on a file's path, or a file where a directory is needed. */
  function Checkout(fs: FileSystem, root: Path, from: map<Path, Bytes>, to: map<Path, Bytes>): (r: Result<FileSystem, Error>)
    ensures r.Ok? <==> !Faulty(fs, root)
                       && (forall rel :: rel in to ==> !Faulty(fs, root + rel) && !IsDirAt(fs, root + rel))
                       && (forall d :: d in TreeDirs(root, to) ==> !Faulty(fs, d) && !IsFileAt(fs, d))
    ensures r.Ok? ==> r.value == fs.(nodes := CheckoutNodes(fs.nodes, root, from, to))
  {
    var files := TreeFiles(root, to);
    if Faulty(fs, root) || exists rel :: rel in to && (Faulty(fs, root + rel) || IsDirAt(fs, root + rel)) then Err(PathError(root))
    else if exists d :: d in TreeDirs(root, to) && (Faulty(fs, d) || IsFileAt(fs, d)) then Err(PathError(root))
    else Ok(fs.(nodes := CheckoutNodes(fs.nodes, root, from, to)))
  }

  // ---------------------------------------------------------------- remote operations

  /** Fetching `origin`: the remote's history becomes the tracking history.  A remote that
      cannot be reached or has no commits is an error; `updated` tells whether anything
      new arrived. */
  function FetchOrigin(repo: Repo, remotes: map<string, History>): (r: Result<(Repo, bool), Error>)
    ensures r.Ok? ==> HasOrigin(repo) && OriginURL(repo) in remotes && remotes[OriginURL(repo)] != []
    ensures r.Ok? ==> r.value.0 == repo.(tracking := remotes[OriginURL(repo)])
    ensures r.Ok? ==> (r.value.1 <==> remotes[OriginURL(repo)] != repo.tracking)
  {
    if !HasOrigin(repo) then Err(Git(RemoteNotFound))
    else
      var url := OriginURL(repo);
      if url !in remotes then Err(Git(Unreachable(url)))
      else if remotes[url] == [] then Err(Git(EmptyRemote))
      else Ok((repo.(tracking := remotes[url]), remotes[url] != repo.tracking))
  }

  /** `Repository.Fetch`: "already up to date" when nothing new arrived. */
  function Fetch(fs: FileSystem, root: Path, remotes: map<string, History>): (r: Outcome)
    ensures r.err.None? ==> root in fs.repos && root in r.fs.repos && r.fs.repos[root].tracking != fs.repos[root].tracking
    ensures r.err == Some(Git(AlreadyUpToDate)) ==> r.fs == fs
  {
    if root !in fs.repos then Outcome(fs, Some(Git(RepositoryNotExists)))
    else
      match FetchOrigin(fs.repos[root], remotes)
      case Err(e) => Outcome(fs, Some(e))
      case Ok((repo, updated)) =>
        if updated then Outcome(fs.(repos := fs.repos[root := repo]), None)
        else Outcome(fs, Some(Git(AlreadyUpToDate)))
  }

  /** `Worktree.Pull` of `origin`, as go-git does it: fetch; with a local history that
      already contains the remote one and nothing fetched, "already up to date"; with a
      local history the remote one does not extend, "non-fast-forward" (after the fetch);
      otherwise the branch moves to the remote history and the worktree is updated. */
  function Pull(fs: FileSystem, root: Path, remotes: map<string, History>): (r: Outcome)
    ensures r.err.None? ==> root in fs.repos && root in r.fs.repos
    ensures r.err.None? ==> HasOrigin(fs.repos[root]) && OriginURL(fs.repos[root]) in remotes
    ensures r.err.None? ==> r.fs.repos[root].head == remotes[OriginURL(fs.repos[root])] != []
    ensures r.err.None? ==> IsAncestor(fs.repos[root].head, r.fs.repos[root].head)
    ensures r.err.None? ==> forall rel :: rel in Tip(r.fs.repos[root].head) ==>
                              root + rel in r.fs.nodes && r.fs.nodes[root + rel] == File(Tip(r.fs.repos[root].head)[rel])
    ensures r.err == Some(Git(EmptyRemote)) ==> r.fs == fs
  {
    if root !in fs.repos then Outcome(fs, Some(Git(RepositoryNotExists)))
    else
      var repo := fs.repos[root];
      match FetchOrigin(repo, remotes)
      case Err(e) => Outcome(fs, Some(e))
      case Ok((fetched, updated)) =>
        var fs1 := fs.(repos := fs.repos[root := fetched]);
        var theirs := fetched.tracking;
        if repo.head != [] && !updated && IsAncestor(theirs, repo.head) then Outcome(fs1, Some(Git(AlreadyUpToDate)))
        else if repo.head != [] && !IsAncestor(repo.head, theirs) then Outcome(fs1, Some(Git(NonFastForward)))
        else
          var fs2 := fs1.(repos := fs1.repos[root := fetched.(head := theirs)]);
          match Checkout(fs2, root, Tip(repo.head), Tip(theirs))
          case Err(e) => Outcome(fs2, Some(e))
          case Ok(fs3) => Outcome(fs3, None)
  }

  /** `Worktree.Add(".")` followed by `Worktree.Commit(message)`: the whole worktree is
      staged; a commit whose tree equals the last commit's is refused as empty. */
  function CommitAll(fs: FileSystem, root: Path, message: string): (r: Outcome)
    ensures r.err.None? ==> root in fs.repos
    ensures r.err.None? ==> r.fs == fs.(repos := fs.repos[root := fs.repos[root].(head :=
                              fs.repos[root].head + [Commit(message, Worktree(fs, root))])])
    ensures r.err == Some(Git(EmptyCommit)) <==>
              root in fs.repos && !FaultyWorktree(fs, root) && fs.repos[root].head != []
              && Tip(fs.repos[root].head) == Worktree(fs, root)
    ensures r.err.Some? ==> r.fs == fs
  {
    if root !in fs.repos then Outcome(fs, Some(Git(RepositoryNotExists)))
    else if FaultyWorktree(fs, root) then Outcome(fs, Some(PathError(root)))
    else
      var repo := fs.repos[root];
      var snapshot := Worktree(fs, root);
      if repo.head != [] && Tip(repo.head) == snapshot then Outcome(fs, Some(Git(EmptyCommit)))
      else Outcome(fs.(repos := fs.repos[root := repo.(head := repo.head + [Commit(message, snapshot)])]), None)
  }

  /** The result of a push: the local state (its tracking history), the remotes, the error. */
  datatype PushOutcome = PushOutcome(fs: FileSystem, remotes: map<string, History>, err: Option<Error>)

  /** `Repository.Push` to `origin`: nothing to send is "already up to date"; a remote
      history the local one does not extend is refused; otherwise the remote takes the
      local history, and so does the tracking history. */
  function Push(fs: FileSystem, root: Path, remotes: map<string, History>): (r: PushOutcome)
    ensures r.err.None? ==> root in fs.repos && HasOrigin(fs.repos[root]) && OriginURL(fs.repos[root]) in remotes
    ensures r.err.None? ==> r.remotes == remotes[OriginURL(fs.repos[root]) := fs.repos[root].head]
    ensures r.err.None? ==> IsAncestor(remotes[OriginURL(fs.repos[root])], fs.repos[root].head)
    ensures r.err.Some? ==> r.remotes == remotes && r.fs == fs
    ensures r.err == Some(Git(AlreadyUpToDate)) ==>
              root in fs.repos && HasOrigin(fs.repos[root]) && OriginURL(fs.repos[root]) in remotes
              && (fs.repos[root].head == [] || fs.repos[root].head == remotes[OriginURL(fs.repos[root])])
  {
    if root !in fs.repos then PushOutcome(fs, remotes, Some(Git(RepositoryNotExists)))
    else
      var repo := fs.repos[root];
      if !HasOrigin(repo) then PushOutcome(fs, remotes, Some(Git(RemoteNotFound)))
      else
        var url := OriginURL(repo);
        if url !in remotes then PushOutcome(fs, remotes, Some(Git(Unreachable(url))))
        else if repo.head == [] || repo.head == remotes[url] then PushOutcome(fs, remotes, Some(Git(AlreadyUpToDate)))
        else if !IsAncestor(remotes[url], repo.head) then PushOutcome(fs, remotes, Some(Git(NonFastForward)))
        else PushOutcome(fs.(repos := fs.repos[root := repo.(tracking := repo.head)]), remotes[url := repo.head], None)
  }

  /** A pull right after a successful one, with the remote as it was, finds nothing new. */
  lemma PullSettles(fs: FileSystem, root: Path, remotes: map<string, History>)
    requires Pull(fs, root, remotes).err.None?
    ensures Pull(Pull(fs, root, remotes).fs, root, remotes).err == Some(Git(AlreadyUpToDate))
  {
  }

  /** The worktree is a function of the nodes alone. */
  lemma WorktreeOfNodes(fs: FileSystem, fs': FileSystem, root: Path)
    requires fs'.nodes == fs.nodes
    ensures Worktree(fs', root) == Worktree(fs, root)
  {
  }

  /** A commit right after a successful one, with the worktree as it was, is refused as
      empty, whatever its message. */
  lemma CommitSettles(fs: FileSystem, root: Path, message: string, message': string)
    requires CommitAll(fs, root, message).err.None?
    ensures CommitAll(CommitAll(fs, root, message).fs, root, message').err == Some(Git(EmptyCommit))
  {
    WorktreeOfNodes(fs, CommitAll(fs, root, message).fs, root);
  }

  /** A push right after a successful one finds the remote up to date. */
  lemma PushSettles(fs: FileSystem, root: Path, remotes: map<string, History>)
    requires Push(fs, root, remotes).err.None?
    ensures Push(Push(fs, root, remotes).fs, root, Push(fs, root, remotes).remotes).err == Some(Git(AlreadyUpToDate))
  {
  }

  /** Committing and then pushing, each either succeeding or finding nothing to do,
      leaves the remote's last commit recording exactly the worktree as it was. */
  lemma CommitPushPublishes(fs: FileSystem, root: Path, message: string, remotes: map<string, History>)
    requires CommitAll(fs, root, message).err.None? || CommitAll(fs, root, message).err == Some(Git(EmptyCommit))
    requires var p := Push(CommitAll(fs, root, message).fs, root, remotes);
               p.err.None? || p.err == Some(Git(AlreadyUpToDate))
    ensures root in fs.repos && HasOrigin(fs.repos[root]) && OriginURL(fs.repos[root]) in remotes
    ensures var p := Push(CommitAll(fs, root, message).fs, root, remotes);
              OriginURL(fs.repos[root]) in p.remotes && Tip(p.remotes[OriginURL(fs.repos[root])]) == Worktree(fs, root)
  {
  }

  /** `git.PlainClone` into the existing directory `dir`: a repository with the remote's
      history and `origin`, and the last commit's files in the worktree. */
  function PlainClone(fs: FileSystem, dir: Path, url: string, remotes: map<string, History>): (r: Result<FileSystem, Error>)
    ensures r.Ok? ==> url in remotes && remotes[url] != [] && dir !in fs.repos
    ensures r.Ok? ==> dir in r.value.repos && r.value.repos[dir] == Repo(remotes[url], remotes[url], map["origin" := [url]])
    ensures r.Ok? ==> forall rel :: rel in Tip(remotes[url]) ==>
                        dir + rel in r.value.nodes && r.value.nodes[dir + rel] == File(Tip(remotes[url])[rel])
  {
    if Stat(fs, dir) != Found(Dir) then Err(ErrorAt(fs, dir))
    else if dir in fs.repos then Err(Git(RepositoryAlreadyExists))
    else if url !in remotes then Err(Git(Unreachable(url)))
    else if remotes[url] == [] then Err(Git(EmptyRemote))
    else
      var fs1 := fs.(repos := fs.repos[dir := Repo(remotes[url], remotes[url], map["origin" := [url]])]);
      Checkout(fs1, dir, map[], Tip(remotes[url]))
  }

  // ---------------------------------------------------------------- status and reset

  /** The worktree states `Worktree.Status` reports for a changed file. */
  datatype FileStatus = Untracked | Modified | Deleted

  /** `Worktree.Status`: every path that differs between the last commit and the worktree. */
  function WorktreeStatus(fs: FileSystem, root: Path): (r: Result<map<Path, FileStatus>, Error>)
    ensures r.Ok? ==> root in fs.repos && !FaultyWorktree(fs, root)
    ensures r.Ok? ==> forall rel :: rel in r.value && r.value[rel] == Untracked <==>
                        rel in Worktree(fs, root) && rel !in Tip(fs.repos[root].head)
  {
    if root !in fs.repos then Err(Git(RepositoryNotExists))
    else if FaultyWorktree(fs, root) then Err(PathError(root))
    else
      var work := Worktree(fs, root);
      var tip := Tip(fs.repos[root].head);
      Ok(map rel | rel in work.Keys + tip.Keys && (rel !in work || rel !in tip || work[rel] != tip[rel]) ::
           if rel !in tip then Untracked else if rel !in work then Deleted else Modified)
  }

  /** `Worktree.Remove` of the file `rel`: the path is first taken out of the index, which
      holds the files of the last commit, and only then deleted from the worktree.  A path
      the index does not hold is `ErrEntryNotFound`, and nothing is deleted; a tracked
      file that is already gone from the worktree is no error. */
  function Remove(fs: FileSystem, root: Path, rel: Path): (r: Result<FileSystem, Error>)
    ensures root in fs.repos && rel !in Tip(fs.repos[root].head) ==> r == Err(Git(EntryNotFound))
    ensures r.Ok? ==> root in fs.repos && rel in Tip(fs.repos[root].head)
    ensures r.Ok? ==> r.value == fs.(nodes := fs.nodes - {root + rel})
  {
    if root !in fs.repos then Err(Git(RepositoryNotExists))
    else if rel !in Tip(fs.repos[root].head) then Err(Git(EntryNotFound))
    else if Stat(fs, root + rel).Missing? then Ok(fs)
    else RemoveFile(fs, root + rel)
  }

  /** `Worktree.Reset` in hard mode to the last commit: every file of the last commit is
      written back; untracked files stay. */
  function HardReset(fs: FileSystem, root: Path): (r: Result<FileSystem, Error>)
    ensures r.Ok? ==> root in fs.repos && fs.repos[root].head != []
    ensures r.Ok? ==> forall rel :: rel in Tip(fs.repos[root].head) ==>
                        root + rel in r.value.nodes && r.value.nodes[root + rel] == File(Tip(fs.repos[root].head)[rel])
    ensures r.Ok? ==> r.value.repos == fs.repos && r.value.faulty == fs.faulty
  {
    if root !in fs.repos then Err(Git(RepositoryNotExists))
    else if fs.repos[root].head == [] then Err(Git(ReferenceNotFound))
    else
      var tip := Tip(fs.repos[root].head);
      Checkout(fs, root, tip, tip)
  }
}
