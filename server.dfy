/** `server.go`: the servers configured locally, one per `.ini` file found under the data
    directory's `Server` folder. */
module LocalServers {
  import opened Paths
  import opened Fs
  import opened Machine
  import opened Config

  datatype Server = Server(name: string)

  /** The walk looks at `.ini` paths; the extension is that of the last component. */
  const IniExt: string := ".ini"

  predicate IsIni(p: Path) { Ext(Base(p)) == IniExt }

  /** `filepath.Base(path[:len(path)-len(filepath.Ext(path))])`: the base name without its
      extension; when nothing is left of the base name, the slice ends in a slash and the
      name is that of the parent directory. */
  function StemName(p: Path): (name: string)
  {
    if p == [] then "/"
    else
      var b := Base(p);
      var stem := b[..|b| - |Ext(b)|];
      if stem != "" then stem else Base(Parent(p))
  }

  /** The name is the base name cut before its extension, or the parent's name when the
      base name is all extension. */
  lemma StemNameOf(p: Path)
    requires p != []
    ensures |Ext(Base(p))| < |Base(p)| ==> StemName(p) == Base(p)[..|Base(p)| - |Ext(Base(p))|]
    ensures Ext(Base(p)) == Base(p) ==> StemName(p) == Base(Parent(p))
  {
  }

  /** An `.ini` file's server is named by its base name without `.ini`. */
  lemma IniStem(p: Path)
    requires p != [] && IsIni(p) && |Base(p)| > 4
    ensures StemName(p) + ".ini" == Base(p)
  {
    var b := Base(p);
    StemNameOf(p);
    assert b == b[..|b| - 4] + b[|b| - 4..];
  }

  /** The servers a walk yields: one per `.ini` path visited, in walk order, and nothing
      from the first error on, since the walk's error is dropped. */
  function ServersOf(vs: seq<Visit>): (r: seq<Server>)
    ensures |r| <= |vs|
  {
    if vs == [] || !vs[0].ok then []
    else (if IsIni(vs[0].path) then [Server(StemName(vs[0].path))] else []) + ServersOf(vs[1..])
  }

  const ServerDirName: string := "Server"

  /** The folder the local servers are looked for in. */
  function ServerConfigDir(dataPath: string): Path
  {
    Join(ToPath(dataPath), ServerDirName)
  }

  /** What one visit without error contributes. */
  function Found(v: Visit): seq<Server>
  {
    if IsIni(v.path) then [Server(StemName(v.path))] else []
  }

  lemma ServersOfStep(vs: seq<Visit>, i: nat)
    requires i < |vs| && vs[i].ok
    ensures ServersOf(vs[i..]) == Found(vs[i]) + ServersOf(vs[i + 1..])
  {
    assert vs[i..][1..] == vs[i + 1..];
  }

  /** `GetLocalServers`: the servers of the walk of the data directory's `Server` folder. */
  method GetLocalServers(g: Globals, disk: Disk) returns (servers: seq<Server>)
    ensures servers == ServersOf(Walk(disk.fs, ServerConfigDir(g.dataPath)))
  {
    servers := CollectServers(Walk(disk.fs, ServerConfigDir(g.dataPath)));
  }

  /** The walk function of `GetLocalServers`, applied visit by visit: an `.ini` path appends a
      server, an error ends the walk. */
  method CollectServers(vs: seq<Visit>) returns (servers: seq<Server>)
    ensures servers == ServersOf(vs)
  {
    servers := [];
    var i := 0;
    while i < |vs| && vs[i].ok
      invariant 0 <= i <= |vs|
      invariant servers + ServersOf(vs[i..]) == ServersOf(vs)
    {
      ServersOfStep(vs, i);
      servers := servers + Found(vs[i]);
      i := i + 1;
    }
    assert ServersOf(vs[i..]) == [];
    assert servers == servers + [];
  }

  /** A path with another extension contributes nothing. */
  lemma OtherExtensionsIgnored(v: Visit, vs: seq<Visit>)
    requires v.ok && !IsIni(v.path)
    ensures ServersOf([v] + vs) == ServersOf(vs)
  {
    assert ([v] + vs)[1..] == vs;
  }

  /** Walk results concatenate while no error intervenes. */
  lemma {:induction false} ServersOfAppend(vs: seq<Visit>, ws: seq<Visit>)
    requires forall i :: 0 <= i < |vs| ==> vs[i].ok
    ensures ServersOf(vs + ws) == ServersOf(vs) + ServersOf(ws)
  {
    hide IsIni, StemName;
    if vs == [] {
      assert vs + ws == ws;
    } else {
      assert (vs + ws)[1..] == vs[1..] + ws;
      ServersOfAppend(vs[1..], ws);
    }
  }

  /** An error in the walk silently cuts the list off: nothing after it counts. */
  lemma {:induction false} ServersTruncatedAtError(vs: seq<Visit>, p: Path, ws: seq<Visit>)
    ensures ServersOf(vs + [Visit(p, false)] + ws) == ServersOf(vs)
  {
    if vs == [] {
      assert vs + [Visit(p, false)] + ws == [Visit(p, false)] + ws;
    } else if vs[0].ok {
      assert (vs + [Visit(p, false)] + ws)[1..] == vs[1..] + [Visit(p, false)] + ws;
      ServersTruncatedAtError(vs[1..], p, ws);
    }
  }

  /** The visit a server of the list comes from. */
  predicate ComesFrom(vs: seq<Visit>, s: Server, i: int)
  {
    0 <= i < |vs| && vs[i].ok && IsIni(vs[i].path) && s == Server(StemName(vs[i].path))
    && (forall j :: 0 <= j < i ==> vs[j].ok)
  }

  /** Every server comes from an `.ini` path visited before any error. */
  lemma {:induction false} ServersComeFromIniVisits(vs: seq<Visit>, k: nat)
    requires k < |ServersOf(vs)|
    ensures exists i :: ComesFrom(vs, ServersOf(vs)[k], i)
  {
    hide IsIni, StemName;
    var h := Found(vs[0]);
    assert ServersOf(vs) == h + ServersOf(vs[1..]);
    if k < |h| {
      assert ComesFrom(vs, ServersOf(vs)[k], 0);
    } else {
      ServersComeFromIniVisits(vs[1..], k - |h|);
      var i :| ComesFrom(vs[1..], ServersOf(vs[1..])[k - |h|], i);
      assert ServersOf(vs)[k] == ServersOf(vs[1..])[k - |h|];
      assert vs[i + 1] == vs[1..][i];
      assert forall j :: 1 <= j < i + 1 ==> vs[j] == vs[1..][j - 1];
      assert ComesFrom(vs, ServersOf(vs)[k], i + 1);
    }
  }
}
