/** The part of a git repository the core observes: a linear history of commits on the
    current branch, the remote-tracking copy of the remote's history, and the configured
    remotes.  A commit records the whole tree of files, by path relative to the worktree. */
module GitModel {
  import opened Utf8
  import opened Paths

  datatype Commit = Commit(message: string, tree: map<Path, Bytes>)

  type History = seq<Commit>

  /** `head` is the local branch (empty before the first commit); `tracking` is
      `refs/remotes/origin/<branch>`; `remotes` maps a remote's name to its URLs. */
  datatype Repo = Repo(head: History, tracking: History, remotes: map<string, seq<string>>)

  /** `a` is an ancestor of `b` (or `b` itself): `b` extends `a`. */
  predicate IsAncestor(a: History, b: History) { |a| <= |b| && b[..|a|] == a }

  /** The files recorded by the tip of a history; nothing before the first commit. */
  function Tip(h: History): map<Path, Bytes>
  {
    if h == [] then map[] else h[|h| - 1].tree
  }

  /** A fresh repository with the single remote `origin`. */
  function Initial(url: string): (r: Repo)
    ensures r.head == [] && r.tracking == []
    ensures r.remotes.Keys == {"origin"} && r.remotes["origin"] == [url]
  {
    Repo([], [], map["origin" := [url]])
  }

  /** The first URL of `origin`, when the repository has that remote. */
  function OriginURL(r: Repo): (u: string)
    requires "origin" in r.remotes && r.remotes["origin"] != []
  {
    r.remotes["origin"][0]
  }

  predicate HasOrigin(r: Repo) { "origin" in r.remotes && r.remotes["origin"] != [] }
}
