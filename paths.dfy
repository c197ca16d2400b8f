/** Slash-separated paths, kept as their sequence of components, and the parts of Go's
    `path/filepath` the core uses.  A `Path` is an absolute path as its components: `[]` is `/`. */
module Paths {
  import opened Text

  type Path = seq<string>

  /** A component as the cleaned form of a path can hold it. */
  predicate IsComponent(c: string) { c != "" && c != "." && c != ".." && '/' !in c }

  predicate IsPrefix(p: Path, q: Path) { |p| <= |q| && q[..|p|] == p }

  /** The position of the first `c` in `s`, or `|s|` when there is none. */
  function IndexOf(s: string, c: char): (k: nat)
    ensures k <= |s|
    ensures c !in s[..k]
    ensures k < |s| ==> s[k] == c
  {
    if s == [] || s[0] == c then 0
    else
      var k := IndexOf(s[1..], c);
      assert s[1..][..k] == s[1..k + 1];
      1 + k
  }

  /** The pieces of `s` between its slashes, empty pieces included. */
  function Pieces(s: string): (r: seq<string>)
    ensures r != []
    ensures forall i :: 0 <= i < |r| ==> '/' !in r[i]
    decreases |s|
  {
    var k := IndexOf(s, '/');
    if k < |s| then [s[..k]] + Pieces(s[k + 1..]) else [s]
  }

  /** A path whose every component is a proper one. */
  predicate Proper(p: Path) { forall i :: 0 <= i < |p| ==> IsComponent(p[i]) }

  /** `filepath.Clean` of the cleaned path `p` followed by `pieces`: empty pieces and `.`
      are dropped, `..` goes up one component (at the root it stays there), and any other
      piece is appended. */
  function Resolve(p: Path, pieces: seq<string>): (r: Path)
    requires forall i :: 0 <= i < |pieces| ==> '/' !in pieces[i]
    ensures Proper(p) ==> Proper(r)
    ensures ".." !in pieces ==> IsPrefix(p, r)
    decreases |pieces|
  {
    if pieces == [] then p
    else
      var c := pieces[0];
      var q := if c == "" || c == "." then p
               else if c == ".." then (if p == [] then [] else p[..|p| - 1])
               else p + [c];
      assert c != ".." ==> IsPrefix(p, q);
      assert ".." !in pieces ==> ".." !in pieces[1..] && c != "..";
      Resolve(q, pieces[1..])
  }

  /** A path below `b` is not below `a` when neither of `a` and `b` is below the other. */
  lemma NotBelowBoth(a: Path, b: Path, q: Path)
    requires IsPrefix(b, q) && !IsPrefix(a, b) && !IsPrefix(b, a)
    ensures !IsPrefix(a, q)
  {
    if |a| <= |b| {
      assert q[..|b|][..|a|] == q[..|a|];
    } else if |a| <= |q| {
      assert q[..|a|][..|b|] == q[..|b|];
    }
  }

  /** `filepath.Join(p, s)`, which cleans the joined path. */
  function Join(p: Path, s: string): (r: Path)
    ensures ".." !in Pieces(s) ==> IsPrefix(p, r)
    ensures Proper(p) ==> Proper(r)
    ensures IsComponent(s) ==> r == p + [s]
    ensures s == "" ==> r == p
    ensures s == ".." ==> r == if p == [] then [] else Parent(p)
  {
    if IsComponent(s) then
      assert IndexOf(s, '/') == |s| && s[..|s|] == s;
      assert Resolve(p, Pieces(s)) == Resolve(p + [s], []);
      Resolve(p, Pieces(s))
    else
      assert s == "" || s == ".." ==> Pieces(s) == [s];
      Resolve(p, Pieces(s))
  }

  /** `filepath.Base` of a path: its last component, `/` for the root. */
  function Base(p: Path): string
  {
    if p == [] then "/" else p[|p| - 1]
  }

  function Parent(p: Path): Path
    requires p != []
  {
    p[..|p| - 1]
  }

  /** `s` without its trailing slashes. */
  function TrimTrailingSlashes(s: string): (r: string)
    ensures HasPrefix(s, r) && (r == [] || r[|r| - 1] != '/')
    ensures forall i :: |r| <= i < |s| ==> s[i] == '/'
  {
    if s != [] && s[|s| - 1] == '/' then TrimTrailingSlashes(s[..|s| - 1]) else s
  }

  /** The part of `s` after its last slash. */
  function AfterLastSlash(s: string): (r: string)
    ensures '/' !in r
    ensures HasSuffix(s, r)
    ensures |r| < |s| ==> s[|s| - |r| - 1] == '/'
  {
    if s == [] || s[|s| - 1] == '/' then []
    else
      var r := AfterLastSlash(s[..|s| - 1]);
      AfterSlashSnoc(s, r);
      r + [s[|s| - 1]]
  }

  /** One more character that is not a slash extends the part after the last slash. */
  lemma AfterSlashSnoc(s: string, r: string)
    requires s != [] && s[|s| - 1] != '/'
    requires '/' !in r && HasSuffix(s[..|s| - 1], r)
    requires |r| < |s| - 1 ==> s[..|s| - 1][|s| - 1 - |r| - 1] == '/'
    ensures '/' !in r + [s[|s| - 1]] && HasSuffix(s, r + [s[|s| - 1]])
    ensures |r| + 1 < |s| ==> s[|s| - |r| - 2] == '/'
  {
    var t := s[..|s| - 1];
    assert t[|t| - |r|..] == s[|s| - 1 - |r|..|s| - 1];
    assert s[|s| - |r| - 1..] == s[|s| - 1 - |r|..|s| - 1] + [s[|s| - 1]];
  }

  /** `filepath.Base` of a string such as a repository URL: `.` for the empty string,
      `/` for a string of slashes, and otherwise the last non-empty slash-separated piece. */
  function BaseOf(s: string): (r: string)
    ensures r != ""
    ensures s == "" ==> r == "."
    ensures s != "" && r != "/" ==> '/' !in r
  {
    if s == "" then "."
    else
      var t := TrimTrailingSlashes(s);
      if t == "" then "/" else AfterLastSlash(t)
  }

  /** `filepath.Ext` of a component: the suffix from the last `.` on, or nothing. */
  function Ext(name: string): (r: string)
    ensures HasSuffix(name, r)
    ensures r != "" ==> r[0] == '.' && '.' !in r[1..]
    ensures r == "" ==> '.' !in name
  {
    if name == [] then []
    else if name[|name| - 1] == '.' then ['.']
    else
      var r := Ext(name[..|name| - 1]);
      assert name[..|name| - 1][|name| - 1 - |r|..] == name[|name| - 1 - |r|..|name| - 1];
      if r == [] then [] else r + [name[|name| - 1]]
  }
}
