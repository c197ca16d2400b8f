/** `synced_server.go`: a synced server, its record in the registry (the key-value store,
    under the key `server_<name>`), its directory below the servers directory, the copy of
    the local server files into that directory, and the players manifest. */
module SyncedServers {
  import opened Wrappers
  import opened Utf8
  import opened Text
  import opened Paths
  import opened Errors
  import opened Fs
  import opened Machine
  import opened Codec
  import opened Store
  import opened Config
  import opened Utils
  import opened Players
  import LocalServers

  // ---------------------------------------------------------------- registry keys

  const KeyPrefix: string := "server_"

  /** The bytes of "server_". */
  const KeyPrefixBytes: Bytes := [0x73, 0x65, 0x72, 0x76, 0x65, 0x72, 0x5F]

  lemma KeyPrefixEncoding()
    ensures Encode(KeyPrefix) == KeyPrefixBytes
  {
  }

  /** The registry key of the server called `name`: the bytes of "server_" followed by
      the bytes of the name. */
  function Key(name: string): Bytes
  {
    KeyPrefixBytes + Encode(name)
  }

  /** A key is a server key, and the name's bytes follow the prefix. */
  lemma KeyShape(name: string)
    ensures IsServerKey(Key(name)) && Key(name)[|KeyPrefixBytes|..] == Encode(name)
  {
  }

  /** The key is `[]byte("server_" + name)`. */
  lemma KeyIsEncoding(name: string)
    ensures Key(name) == Encode(KeyPrefix + name)
  {
    EncodeAppend(KeyPrefix, name);
    KeyPrefixEncoding();
  }

  predicate IsServerKey(k: Bytes) { HasBytePrefix(k, KeyPrefixBytes) }

  /** Distinct names have distinct keys, so saving one server never overwrites another. */
  lemma KeyInjective(a: string, b: string)
    ensures Key(a) == Key(b) <==> a == b
  {
    if Key(a) == Key(b) {
      KeyShape(a);
      KeyShape(b);
      EncodeInjective(a, b);
    }
  }

  /** The first two bytes of a string that starts with two ASCII characters. */
  lemma AsciiHead(s: string)
    requires |s| >= 2 && s[0] as int < 0x80 && s[1] as int < 0x80
    ensures |Encode(s)| >= 2 && Encode(s)[0] as int == s[0] as int && Encode(s)[1] as int == s[1] as int
  {
    assert s == [s[0]] + ([s[1]] + s[2..]);
    EncodeAppend([s[0]], [s[1]] + s[2..]);
    EncodeAppend([s[1]], s[2..]);
    EncodeAsciiChar(s[0]);
    EncodeAsciiChar(s[1]);
  }

  /** A key whose name starts with two ASCII characters other than "se" is no server key. */
  lemma NotServerKey(s: string)
    requires |s| >= 2 && s[0] as int < 0x80 && s[1] as int < 0x80 && (s[0] != 's' || s[1] != 'e')
    ensures !IsServerKey(Encode(s))
  {
    AsciiHead(s);
  }

  // ---------------------------------------------------------------- the registry

  /** The registry holds a decodable record under every server key. */
  predicate AllDecode(kv: map<Bytes, Bytes>)
  {
    forall k :: k in kv && IsServerKey(k) ==> DecodeRecord(kv[k]).Some?
  }

  /** Every server key holds the record of the server it is the key of, as `Save` leaves it. */
  predicate Consistent(kv: map<Bytes, Bytes>)
  {
    forall k :: k in kv && IsServerKey(k) ==> DecodeRecord(kv[k]).Some? && Key(DecodeRecord(kv[k]).value.name) == k
  }

  function ServerKeys(kv: map<Bytes, Bytes>): set<Bytes>
  {
    set k | k in kv && IsServerKey(k)
  }

  /** The synced servers of a consistent registry, by name. */
  function Registry(kv: map<Bytes, Bytes>): (m: map<string, Record>)
    requires Consistent(kv)
    ensures forall n :: n in m <==> Key(n) in kv
    ensures forall n :: n in m ==> DecodeRecord(kv[Key(n)]) == Some(m[n]) && m[n].name == n
  {
    var m := map k | k in ServerKeys(kv) :: DecodeRecord(kv[k]).value.name := DecodeRecord(kv[k]).value;
    assert forall n :: Key(n) in kv ==> n in m by {
      forall n | Key(n) in kv ensures n in m {
        var k := Key(n);
        KeyShape(n);
        assert k in ServerKeys(kv);
        KeyInjective(DecodeRecord(kv[k]).value.name, n);
      }
    }
    assert forall n :: n in m ==> DecodeRecord(kv[Key(n)]) == Some(m[n]) && m[n].name == n by {
      forall n | n in m ensures Key(n) in kv && DecodeRecord(kv[Key(n)]) == Some(m[n]) && m[n].name == n {
        var k :| k in ServerKeys(kv) && DecodeRecord(kv[k]).value.name == n;
        assert Key(n) == k;
      }
    }
    m
  }

  /** `LoadSyncedServer`'s read: the record stored under the server's key. */
  function LoadRecord(kv: map<Bytes, Bytes>, name: string): (r: Result<Record, Error>)
    ensures r.Ok? <==> Key(name) in kv && DecodeRecord(kv[Key(name)]).Some?
    ensures Key(name) !in kv ==> r == Err(KeyNotFound(Key(name)))
    ensures r.Ok? ==> r.value == DecodeRecord(kv[Key(name)]).value
  {
    if Key(name) !in kv then Err(KeyNotFound(Key(name)))
    else match DecodeRecord(kv[Key(name)])
      case None => Err(DecodeFailed)
      case Some(rec) => Ok(rec)
  }

  /** Saving a record and loading its name gives the record back. */
  lemma LoadAfterSave(kv: map<Bytes, Bytes>, r: Record)
    ensures LoadRecord(kv[Key(r.name) := EncodeRecord(r)], r.name) == Ok(r)
  {
    DecodeEncodeRecord(r);
  }

  /** In a consistent registry, loading a name finds exactly the listed servers. */
  lemma LoadIsListed(kv: map<Bytes, Bytes>, name: string)
    requires Consistent(kv)
    ensures LoadRecord(kv, name).Ok? <==> name in Registry(kv)
    ensures name in Registry(kv) ==> LoadRecord(kv, name) == Ok(Registry(kv)[name])
  {
  }

  /** `Save` keeps the registry consistent and sets the entry of the record's name,
      overwriting the record of that name, if any, and no other. */
  lemma SaveUpdatesRegistry(kv: map<Bytes, Bytes>, r: Record)
    requires Consistent(kv)
    ensures Consistent(kv[Key(r.name) := EncodeRecord(r)])
    ensures Registry(kv[Key(r.name) := EncodeRecord(r)]) == Registry(kv)[r.name := r]
  {
    hide Key, DecodeRecord, EncodeRecord, IsServerKey;
    SaveKeepsConsistent(kv, r);
    var m := Registry(kv[Key(r.name) := EncodeRecord(r)]);
    var m' := Registry(kv)[r.name := r];
    assert m.Keys == m'.Keys by {
      forall n ensures n in m <==> n in m' {
        KeyInjective(n, r.name);
      }
    }
    assert forall n :: n in m ==> m[n] == m'[n] by {
      DecodeEncodeRecord(r);
      forall n | n in m ensures m[n] == m'[n] {
        KeyInjective(n, r.name);
      }
    }
  }

  lemma SaveKeepsConsistent(kv: map<Bytes, Bytes>, r: Record)
    requires Consistent(kv)
    ensures Consistent(kv[Key(r.name) := EncodeRecord(r)])
  {
    hide Key, DecodeRecord, EncodeRecord, IsServerKey;
    DecodeEncodeRecord(r);
  }

  /** Removing a key keeps the registry consistent. */
  lemma DeleteKeepsConsistent(kv: map<Bytes, Bytes>, k: Bytes)
    requires Consistent(kv)
    ensures Consistent(kv - {k})
  {
  }

  /** After removing a key, the names listed are those listed before, but its own. */
  lemma DeleteKeepsNames(kv: map<Bytes, Bytes>, name: string)
    requires Consistent(kv) && Consistent(kv - {Key(name)})
    ensures forall n :: n in Registry(kv - {Key(name)}) <==> n in Registry(kv) - {name}
  {
    hide Key, DecodeRecord, EncodeRecord, IsServerKey, Registry, Consistent;
    forall n ensures n in Registry(kv - {Key(name)}) <==> n in Registry(kv) - {name} {
      KeyInjective(n, name);
    }
  }

  /** `Delete` keeps the registry consistent and removes just the entry of the name. */
  lemma DeleteUpdatesRegistry(kv: map<Bytes, Bytes>, name: string)
    requires Consistent(kv)
    ensures Consistent(kv - {Key(name)})
    ensures Registry(kv - {Key(name)}) == Registry(kv) - {name}
  {
    DeleteKeepsConsistent(kv, Key(name));
    DeleteKeepsNames(kv, name);
    var m := Registry(kv - {Key(name)});
    var m' := Registry(kv) - {name};
    forall n | n in m ensures m[n] == m'[n] {
      assert (kv - {Key(name)})[Key(n)] == kv[Key(n)];
    }
  }

  /** Writing a key that is no server key, as the configuration does, leaves the
      registry as it was. */
  lemma OtherKeysIgnored(kv: map<Bytes, Bytes>, k: Bytes, v: Bytes)
    requires Consistent(kv) && !IsServerKey(k)
    ensures Consistent(kv[k := v])
    ensures Registry(kv[k := v]) == Registry(kv)
  {
    var m := Registry(kv[k := v]);
    forall n | n in m ensures Key(n) != k {
    }
  }

  // ---------------------------------------------------------------- directories

  const ConfigDirName: string := "config"
  const SaveDirName: string := "save"
  const PlayersFileName: string := "players.txt"
  const SavesDirName: string := "Saves"
  const MultiplayerDirName: string := "Multiplayer"
  const PlayerSuffix: string := "_player"

  /** `GetServerPath`: the directory of the server called `name` below the servers
      directory. */
  function ServerPath(serversPath: Path, name: string): (p: Path)
    ensures ".." !in Pieces(name) ==> IsPrefix(serversPath, p)
    ensures IsComponent(name) ==> p == serversPath + [name]
  {
    Join(serversPath, name)
  }

  /** The file system after `EnsureDirs`: the server's directory, then its `config` and
      `save` directories, each ensured in turn. */
  function EnsuredDirs(fs: FileSystem, sp: Path): Result<FileSystem, Error>
  {
    var r1 := Ensure(fs, sp);
    if r1.Err? then r1
    else
      var r2 := Ensure(r1.value, Join(sp, ConfigDirName));
      if r2.Err? then r2 else Ensure(r2.value, Join(sp, SaveDirName))
  }

  /** After `EnsureDirs` the server's directory, its `config` and its `save` exist. */
  lemma EnsuredDirsPresent(fs: FileSystem, sp: Path)
    requires EnsuredDirs(fs, sp).Ok?
    ensures Stat(EnsuredDirs(fs, sp).value, sp) != Missing
    ensures Stat(EnsuredDirs(fs, sp).value, Join(sp, ConfigDirName)) != Missing
    ensures Stat(EnsuredDirs(fs, sp).value, Join(sp, SaveDirName)) != Missing
  {
    var f1 := Ensure(fs, sp).value;
    var f2 := Ensure(f1, Join(sp, ConfigDirName)).value;
    EnsureKeeps(f1, Join(sp, ConfigDirName), sp);
    EnsureKeeps(f2, Join(sp, SaveDirName), sp);
    EnsureKeeps(f2, Join(sp, SaveDirName), Join(sp, ConfigDirName));
  }

  /** A file system where the directories are already there is left as it is. */
  lemma EnsuredDirsIdempotent(fs: FileSystem, sp: Path)
    requires EnsuredDirs(fs, sp).Ok?
    ensures EnsuredDirs(EnsuredDirs(fs, sp).value, sp) == EnsuredDirs(fs, sp)
  {
    EnsuredDirsPresent(fs, sp);
  }

  // ---------------------------------------------------------------- copy to the synced directory

  /** The config files of a server are those whose base name starts with its name. */
  predicate IsConfigOf(base: string, name: string) { HasPrefix(base, name) }

  /** The save entries of a server start with its name (spaces turned into underscores)
      and are not the `_player` entries. */
  predicate IsSaveOf(entry: string, name: string)
  {
    HasPrefix(entry, ReplaceChar(name, ' ', '_')) && !HasSuffix(entry, PlayerSuffix)
  }

  /** The walk function of the config copy, applied to the visits in order: a visit with
      an error ends the walk with it, a config file of the server is copied to
      `dst/<base name>`, anything else is passed over. */
  function ConfigCopies(fs: FileSystem, vs: seq<Visit>, name: string, dst: Path): (r: Result<FileSystem, Error>)
    decreases |vs|
  {
    if vs == [] then Ok(fs)
    else if !vs[0].ok then Err(ErrorAt(fs, vs[0].path))
    else if IsConfigOf(Base(vs[0].path), name) then
      var c := Copy(fs, vs[0].path, Join(dst, Base(vs[0].path)));
      if c.Err? then c else ConfigCopies(c.value, vs[1..], name, dst)
    else ConfigCopies(fs, vs[1..], name, dst)
  }

  /** The visits the config copy acts on: the config files and the errors. */
  function ConfigSelected(vs: seq<Visit>, name: string): (r: seq<Visit>)
    ensures |r| <= |vs|
  {
    if vs == [] then []
    else (if !vs[0].ok || IsConfigOf(Base(vs[0].path), name) then [vs[0]] else []) + ConfigSelected(vs[1..], name)
  }

  /** Only the config files of the server (and errors) matter to the config copy. */
  lemma {:induction false} ConfigCopiesOnlySelected(fs: FileSystem, vs: seq<Visit>, name: string, dst: Path)
    ensures ConfigCopies(fs, vs, name, dst) == ConfigCopies(fs, ConfigSelected(vs, name), name, dst)
    decreases |vs|
  {
    if vs != [] {
      var rest := ConfigSelected(vs[1..], name);
      if !vs[0].ok || IsConfigOf(Base(vs[0].path), name) {
        assert ([vs[0]] + rest)[1..] == rest;
        var c := Copy(fs, vs[0].path, Join(dst, Base(vs[0].path)));
        if vs[0].ok && c.Ok? {
          ConfigCopiesOnlySelected(c.value, vs[1..], name, dst);
        }
      } else {
        assert ConfigSelected(vs, name) == rest;
        ConfigCopiesOnlySelected(fs, vs[1..], name, dst);
      }
    }
  }

  /** The config copy deletes nothing. */
  lemma {:induction false} ConfigCopiesKeep(fs: FileSystem, vs: seq<Visit>, name: string, dst: Path)
    requires ConfigCopies(fs, vs, name, dst).Ok?
    ensures forall q :: q in fs.nodes ==> q in ConfigCopies(fs, vs, name, dst).value.nodes
    decreases |vs|
  {
    if vs != [] {
      if IsConfigOf(Base(vs[0].path), name) {
        ConfigCopiesKeep(Copy(fs, vs[0].path, Join(dst, Base(vs[0].path))).value, vs[1..], name, dst);
      } else {
        ConfigCopiesKeep(fs, vs[1..], name, dst);
      }
    }
  }

  /** Every config file of the server that the walk visited is at `dst/<its base name>`. */
  lemma {:induction false} ConfigCopiesArrive(fs: FileSystem, vs: seq<Visit>, name: string, dst: Path, i: nat)
    requires ConfigCopies(fs, vs, name, dst).Ok?
    requires i < |vs| && IsConfigOf(Base(vs[i].path), name)
    ensures Join(dst, Base(vs[i].path)) in ConfigCopies(fs, vs, name, dst).value.nodes
    decreases |vs|
  {
    if IsConfigOf(Base(vs[0].path), name) {
      var f1 := Copy(fs, vs[0].path, Join(dst, Base(vs[0].path))).value;
      if i == 0 {
        ConfigCopiesKeep(f1, vs[1..], name, dst);
      } else {
        ConfigCopiesArrive(f1, vs[1..], name, dst, i - 1);
      }
    } else {
      ConfigCopiesArrive(fs, vs[1..], name, dst, i - 1);
    }
  }

  /** The save copy, entry by entry in directory order: each save entry of the server is
      copied onto `dst` (a directory's contents merge into it); a failure ends it. */
  function SaveCopies(fs: FileSystem, dir: Path, entries: seq<string>, name: string, dst: Path): (r: Result<FileSystem, Error>)
    decreases |entries|
  {
    if entries == [] then Ok(fs)
    else if IsSaveOf(entries[0], name) then
      var c := Copy(fs, dir + [entries[0]], dst);
      if c.Err? then c else SaveCopies(c.value, dir, entries[1..], name, dst)
    else SaveCopies(fs, dir, entries[1..], name, dst)
  }

  /** The save copy deletes nothing. */
  lemma {:induction false} SaveCopiesKeep(fs: FileSystem, dir: Path, entries: seq<string>, name: string, dst: Path)
    requires SaveCopies(fs, dir, entries, name, dst).Ok?
    ensures forall q :: q in fs.nodes ==> q in SaveCopies(fs, dir, entries, name, dst).value.nodes
    decreases |entries|
  {
    if entries != [] {
      if IsSaveOf(entries[0], name) {
        SaveCopiesKeep(Copy(fs, dir + [entries[0]], dst).value, dir, entries[1..], name, dst);
      } else {
        SaveCopiesKeep(fs, dir, entries[1..], name, dst);
      }
    }
  }

  /** One save entry copied onto `dst`: what was below the entry is below `dst`,
      relative to the entry. */
  lemma SaveEntryArrives(fs: FileSystem, dir: Path, entry: string, dst: Path)
    requires Copy(fs, dir + [entry], dst).Ok?
    ensures forall q :: q in fs.nodes && IsPrefix(dir + [entry], q) ==>
              dst + q[|dir| + 1..] in Copy(fs, dir + [entry], dst).value.nodes
  {
    assert |dir + [entry]| == |dir| + 1;
  }

  /** Everything below a save entry of the server is below `dst` afterwards, at the same
      place relative to the entry. */
  lemma {:induction false} SaveCopiesArrive(fs: FileSystem, dir: Path, entries: seq<string>, name: string, dst: Path, i: nat)
    requires SaveCopies(fs, dir, entries, name, dst).Ok?
    requires i < |entries| && IsSaveOf(entries[i], name)
    ensures forall q :: q in fs.nodes && IsPrefix(dir + [entries[i]], q) ==>
              dst + q[|dir| + 1..] in SaveCopies(fs, dir, entries, name, dst).value.nodes
    decreases |entries|
  {
    if IsSaveOf(entries[0], name) {
      var f1 := Copy(fs, dir + [entries[0]], dst).value;
      if i == 0 {
        SaveEntryArrives(fs, dir, entries[0], dst);
        SaveCopiesKeep(f1, dir, entries[1..], name, dst);
      } else {
        SaveCopiesArrive(f1, dir, entries[1..], name, dst, i - 1);
      }
    } else {
      SaveCopiesArrive(fs, dir, entries[1..], name, dst, i - 1);
    }
  }

  /** The folder the local save entries are in. */
  function SavesDir(dataPath: string): Path
  {
    Join(Join(ToPath(dataPath), SavesDirName), MultiplayerDirName)
  }

  /** `CopyLocalServerToSynced`, as a whole: the directories are ensured, the config
      files from the walk of the local `Server` folder are copied, then the save
      entries of the local `Saves/Multiplayer` folder. */
  function CopyUp(fs: FileSystem, dataPath: string, sp: Path, name: string): Result<FileSystem, Error>
  {
    var r1 := EnsuredDirs(fs, sp);
    if r1.Err? then r1
    else
      var f1 := r1.value;
      var r2 := ConfigCopies(f1, Walk(f1, LocalServers.ServerConfigDir(dataPath)), name, Join(sp, ConfigDirName));
      if r2.Err? then r2
      else
        var f2 := r2.value;
        var entries := ReadDir(f2, SavesDir(dataPath));
        if entries.Err? then Err(entries.error)
        else SaveCopies(f2, SavesDir(dataPath), entries.value, name, Join(sp, SaveDirName))
  }

  // ---------------------------------------------------------------- players manifest

  /** `UpdatePlayersFile`, with the appended line always a line of its own: a manifest
      that names the player is left alone, one that does not gets the ID appended, and a
      missing manifest is created holding just the ID.  A manifest line too long for the
      scanner before the one naming the player ends the process. */
  function PlayersUpdate(fs: FileSystem, p: Path, id: string): (r: Result<FileSystem, Error>)
  {
    if Stat(fs, p) != Missing then
      var data := ReadFile(fs, p);
      if data.Err? then Err(data.error)
      else
        var found := ScanFor(data.value, id);
        if found.Err? then Err(found.error)
        else if found.value then Ok(fs)
        else AppendFile(fs, p, Appended(data.value, id))
    else WriteFile(fs, p, Encode(id) + [NL])
  }

  /** `UpdatePlayersFile` as the source writes it: the ID and a line break go right
      after the manifest's last byte. */
  function PlayersUpdateAsWritten(fs: FileSystem, p: Path, id: string): (r: Result<FileSystem, Error>)
  {
    if Stat(fs, p) != Missing then
      var data := ReadFile(fs, p);
      if data.Err? then Err(data.error)
      else
        var found := ScanFor(data.value, id);
        if found.Err? then Err(found.error)
        else if found.value then Ok(fs)
        else AppendFile(fs, p, AppendedAsWritten(data.value, id))
    else WriteFile(fs, p, Encode(id) + [NL])
  }

  /** On a manifest that is missing or ends with a line break the update as written is
      the corrected update. */
  lemma PlayersUpdateAsWrittenAgrees(fs: FileSystem, p: Path, id: string)
    requires Stat(fs, p) == Missing || (ReadFile(fs, p).Ok? && Terminated(ReadFile(fs, p).value))
    ensures PlayersUpdateAsWritten(fs, p, id) == PlayersUpdate(fs, p, id)
  {
    if Stat(fs, p) != Missing {
      var data := ReadFile(fs, p).value;
      assert Appended(data, id) == AppendedAsWritten(data, id) by {
        assert [] + Encode(id + "\n") == Encode(id + "\n");
      }
    }
  }

  /** As written, the update is not idempotent: on the manifest `a`, without a final line
      break, the first update for `b` glues it to `a`, and every later one appends it
      again. */
  lemma PlayersUpdateAsWrittenRepeats(fs: FileSystem, p: Path)
    requires ReadFile(fs, p) == Ok([97])
    ensures PlayersUpdateAsWritten(fs, p, "b").Ok?
    ensures var f1 := PlayersUpdateAsWritten(fs, p, "b").value;
            PlayersUpdateAsWritten(f1, p, "b").Ok? && PlayersUpdateAsWritten(f1, p, "b") != Ok(f1)
  {
    hide ScanFor, ScanLines, Listed, Decode, Encode;
    AsWrittenScansMiss();
    var a: Bytes := [97];
    var f1 := PlayersUpdateAsWritten(fs, p, "b").value;
    var data := a + AppendedAsWritten(a, "b");
    assert f1 == fs.(nodes := fs.nodes[p := File(data)]);
    ReadBack(fs, p, data);
    assert |f1.nodes[p].data| < |PlayersUpdateAsWritten(f1, p, "b").value.nodes[p].data|;
  }

  /** A file written in place can be read back. */
  lemma ReadBack(fs: FileSystem, p: Path, data: Bytes)
    requires p != [] && !Faulty(fs, p) && !UnderFile(fs, p)
    ensures ReadFile(fs.(nodes := fs.nodes[p := File(data)]), p) == Ok(data)
  {
    var fs' := fs.(nodes := fs.nodes[p := File(data)]);
    assert !UnderFile(fs', p) by {
      forall k | 0 < k < |p| ensures !(p[..k] in fs'.nodes && fs'.nodes[p[..k]].File?) {
        assert p[..k] != p;
      }
    }
  }

  /** A file whose parent is a directory is under no file. */
  lemma ParentDirNotUnderFile(fs: FileSystem, p: Path)
    requires p != [] && Stat(fs, Parent(p)) == Found(Dir)
    ensures !UnderFile(fs, p)
  {
    var q := Parent(p);
    forall k | 0 < k < |p| ensures !(p[..k] in fs.nodes && fs.nodes[p[..k]].File?) {
      if k < |q| {
        assert p[..k] == q[..k];
      } else {
        assert p[..k] == q;
      }
    }
  }

  /** After the update the manifest names the player, with every line it had kept;
      a manifest that named the player already is unchanged. */
  lemma PlayersUpdateNames(fs: FileSystem, p: Path, id: string)
    requires Nameable(id) && PlayersUpdate(fs, p, id).Ok?
    ensures ReadFile(PlayersUpdate(fs, p, id).value, p).Ok?
    ensures Listed(ReadFile(PlayersUpdate(fs, p, id).value, p).value, id)
    ensures ReadFile(fs, p).Ok? ==> (ScanLines(ReadFile(PlayersUpdate(fs, p, id).value, p).value) ==
              ScanLines(ReadFile(fs, p).value) + (if Listed(ReadFile(fs, p).value, id) then [] else [Encode(id)]))
    ensures ReadFile(fs, p).Ok? && Listed(ReadFile(fs, p).value, id) ==> PlayersUpdate(fs, p, id).value == fs
  {
    hide ScanLines, Listed, Appended, Encode;
    if Stat(fs, p) != Missing {
      var data := ReadFile(fs, p).value;
      ScanForListed(data, id);
      if !Listed(data, id) {
        AppendedIsLine(data, id);
        ReadBack(fs, p, data + Appended(data, id));
      }
    } else {
      ParentDirNotUnderFile(fs, p);
      ReadBack(fs, p, Encode(id) + [NL]);
      assert [] + Encode(id) + [NL] == Encode(id) + [NL];
      EntryIsLine([], id);
    }
  }

  /** The update keeps a manifest ending with a line break, so every manifest the
      program writes itself is one on which the update as written is the corrected one. */
  lemma PlayersUpdateTerminates(fs: FileSystem, p: Path, id: string)
    requires Nameable(id) && PlayersUpdate(fs, p, id).Ok?
    requires Stat(fs, p) == Missing || (ReadFile(fs, p).Ok? && Terminated(ReadFile(fs, p).value))
    ensures ReadFile(PlayersUpdate(fs, p, id).value, p).Ok?
    ensures Terminated(ReadFile(PlayersUpdate(fs, p, id).value, p).value)
    ensures PlayersUpdateAsWritten(PlayersUpdate(fs, p, id).value, p, id) == PlayersUpdate(fs, p, id)
  {
    hide ScanLines, Listed, Encode;
    PlayersUpdateNames(fs, p, id);
    var after := PlayersUpdate(fs, p, id).value;
    if Stat(fs, p) != Missing {
      var data := ReadFile(fs, p).value;
      ScanForListed(data, id);
      if !Listed(data, id) {
        ReadBack(fs, p, data + Appended(data, id));
      }
    } else {
      ParentDirNotUnderFile(fs, p);
      ReadBack(fs, p, Encode(id) + [NL]);
    }
    PlayersUpdateIdempotent(fs, p, id);
    PlayersUpdateAsWrittenAgrees(after, p, id);
  }

  /** Updating the manifest twice is updating it once. */
  lemma PlayersUpdateIdempotent(fs: FileSystem, p: Path, id: string)
    requires Nameable(id) && PlayersUpdate(fs, p, id).Ok?
    ensures PlayersUpdate(PlayersUpdate(fs, p, id).value, p, id) == PlayersUpdate(fs, p, id)
  {
    hide ScanFor, ScanLines, Listed, Matches, Appended, Encode;
    if Stat(fs, p) != Missing {
      var data := ReadFile(fs, p).value;
      if ScanFor(data, id) == Ok(false) {
        AppendedFound(data, id);
        ReadBack(fs, p, data + Appended(data, id));
      }
    } else {
      ParentDirNotUnderFile(fs, p);
      ReadBack(fs, p, Encode(id) + [NL]);
      CreatedFound(id);
    }
  }

  /** A manifest whose first line fills the scanner's buffer without a line break ends
      the update with `ErrTooLong`, even when a later line names the player. */
  lemma OverlongManifestEndsUpdate(fs: FileSystem, p: Path, id: string)
    requires Stat(fs, p) != Missing && ReadFile(fs, p).Ok?
    requires |ReadFile(fs, p).value| >= MaxScanTokenSize && NL !in ReadFile(fs, p).value[..MaxScanTokenSize]
    ensures PlayersUpdate(fs, p, id) == Err(TokenTooLong)
    ensures PlayersUpdateAsWritten(fs, p, id) == Err(TokenTooLong)
  {
    OverlongFirstLine(ReadFile(fs, p).value, id);
  }

  // ---------------------------------------------------------------- the server object

  class SyncedServer {
    var name: string            // Server.Name
    var gitURL: string          // GitURL
    var repo: Option<Path>      // the repository handle, by the worktree it was opened at

    /** `NewSyncedServer`, and the literal `SyncedServer{GitURL: url}` with the empty name. */
    constructor (name: string, gitURL: string)
      ensures this.name == name && this.gitURL == gitURL && repo == None
    {
      this.name := name;
      this.gitURL := gitURL;
      repo := None;
    }

    /** `GetKey`. */
    function GetKey(): (k: Bytes)
      reads this
      ensures IsServerKey(k) && k[|KeyPrefixBytes|..] == Encode(name)
    {
      Key(name)
    }

    /** `Serialize`: the exported fields, which decode back to the same name and URL; the
        repository handle is not part of the record. */
    function Serialize(): (b: Bytes)
      reads this
      ensures DecodeRecord(b) == Some(Record(name, gitURL))
    {
      DecodeEncodeRecord(Record(name, gitURL));
      EncodeRecord(Record(name, gitURL))
    }

    /** `GetServerPath`. */
    function GetServerPath(g: Globals): (p: Path)
      reads this, g
      ensures p == ServerPath(g.serversPath, name)
    {
      ServerPath(g.serversPath, name)
    }

    /** `Save`: one update transaction setting the server's key. */
    method Save(db: Db)
      modifies db
      ensures db.kv == old(db.kv)[Key(name) := EncodeRecord(Record(name, gitURL))]
    {
      db.Set(GetKey(), Serialize());
    }

    /** `Delete`: one update transaction deleting the server's key. */
    method Delete(db: Db)
      modifies db
      ensures db.kv == old(db.kv) - {Key(name)}
    {
      db.Delete(GetKey());
    }

    /** `EnsureDirs`. */
    method EnsureDirs(g: Globals, disk: Disk) returns (st: Status)
      modifies disk
      ensures st.Running? <==> EnsuredDirs(old(disk.fs), GetServerPath(g)).Ok?
      ensures st.Running? ==> disk.fs == EnsuredDirs(old(disk.fs), GetServerPath(g)).value
      ensures st.Exited? ==> st.error == EnsuredDirs(old(disk.fs), GetServerPath(g)).error
    {
      var sp := GetServerPath(g);
      var _, st1 := EnsureDir(disk, sp);
      if st1.Exited? { return st1; }
      var _, st2 := EnsureDir(disk, Join(sp, ConfigDirName));
      if st2.Exited? { return st2; }
      var _, st3 := EnsureDir(disk, Join(sp, SaveDirName));
      return st3;
    }

    /** `CopyLocalServerToSynced`. */
    method CopyLocalServerToSynced(g: Globals, disk: Disk) returns (st: Status)
      modifies disk
      ensures st.Running? <==> CopyUp(old(disk.fs), g.dataPath, GetServerPath(g), name).Ok?
      ensures st.Running? ==> disk.fs == CopyUp(old(disk.fs), g.dataPath, GetServerPath(g), name).value
      ensures st.Exited? ==> st.error == CopyUp(old(disk.fs), g.dataPath, GetServerPath(g), name).error
    {
      var sp := GetServerPath(g);
      st := EnsureDirs(g, disk);
      if st.Exited? { return; }
      var visits := Walk(disk.fs, LocalServers.ServerConfigDir(g.dataPath));
      st := CopyConfigFiles(disk, visits, Join(sp, ConfigDirName));
      if st.Exited? { return; }
      var saves := SavesDir(g.dataPath);
      var entries := ReadDir(disk.fs, saves);
      if entries.Err? { return HandleErr(Some(entries.error)); }
      st := CopySaveEntries(disk, saves, entries.value, Join(sp, SaveDirName));
    }

    /** The walk function of the config copy, visit by visit. */
    method CopyConfigFiles(disk: Disk, vs: seq<Visit>, dst: Path) returns (st: Status)
      modifies disk
      ensures st.Running? <==> ConfigCopies(old(disk.fs), vs, name, dst).Ok?
      ensures st.Running? ==> disk.fs == ConfigCopies(old(disk.fs), vs, name, dst).value
      ensures st.Exited? ==> st.error == ConfigCopies(old(disk.fs), vs, name, dst).error
    {
      var i := 0;
      while i < |vs|
        invariant 0 <= i <= |vs|
        invariant ConfigCopies(old(disk.fs), vs, name, dst) == ConfigCopies(disk.fs, vs[i..], name, dst)
      {
        assert vs[i..][1..] == vs[i + 1..];
        var v := vs[i];
        if !v.ok {
          return HandleErr(Some(ErrorAt(disk.fs, v.path)));
        }
        if IsConfigOf(Base(v.path), name) {
          var c := Copy(disk.fs, v.path, Join(dst, Base(v.path)));
          if c.Err? { return HandleErr(Some(c.error)); }
          disk.fs := c.value;
        }
        i := i + 1;
      }
      return Running;
    }

    /** The save copy, entry by entry; a failed copy ends the process. */
    method CopySaveEntries(disk: Disk, dir: Path, entries: seq<string>, dst: Path) returns (st: Status)
      modifies disk
      ensures st.Running? <==> SaveCopies(old(disk.fs), dir, entries, name, dst).Ok?
      ensures st.Running? ==> disk.fs == SaveCopies(old(disk.fs), dir, entries, name, dst).value
      ensures st.Exited? ==> st.error == SaveCopies(old(disk.fs), dir, entries, name, dst).error
    {
      var i := 0;
      while i < |entries|
        invariant 0 <= i <= |entries|
        invariant SaveCopies(old(disk.fs), dir, entries, name, dst) == SaveCopies(disk.fs, dir, entries[i..], name, dst)
      {
        assert entries[i..][1..] == entries[i + 1..];
        if IsSaveOf(entries[i], name) {
          var c := Copy(disk.fs, dir + [entries[i]], dst);
          if c.Err? { return HandleErr(Some(c.error)); }
          disk.fs := c.value;
        }
        i := i + 1;
      }
      return Running;
    }

    /** `UpdatePlayersFile`: the manifest is scanned line by line for the player's ID and
        the ID appended only when no line names it; a missing manifest is created. */
    method UpdatePlayersFile(g: Globals, disk: Disk) returns (st: Status)
      modifies disk
      ensures st.Running? <==> PlayersUpdate(old(disk.fs), Join(GetServerPath(g), PlayersFileName), g.steamID).Ok?
      ensures st.Running? ==> disk.fs == PlayersUpdate(old(disk.fs), Join(GetServerPath(g), PlayersFileName), g.steamID).value
      ensures st.Exited? ==> st.error == PlayersUpdate(old(disk.fs), Join(GetServerPath(g), PlayersFileName), g.steamID).error
    {
      hide Join, Pieces, Resolve;
      var p := Join(GetServerPath(g), PlayersFileName);
      var id := g.steamID;
      if Stat(disk.fs, p) != Missing {
        var data := ReadFile(disk.fs, p);
        if data.Err? { return HandleErr(Some(data.error)); }
        var found := FindPlayer(data.value, id);
        if found.Err? { return HandleErr(Some(found.error)); }
        if !found.value {
          var appended := AppendFile(disk.fs, p, Appended(data.value, id));
          disk.fs := appended.value;
        }
        return Running;
      } else {
        var created := WriteFile(disk.fs, p, Encode(id) + [NL]);
        if created.Err? { return HandleErr(Some(created.error)); }
        disk.fs := created.value;
        return Running;
      }
    }
  }

  /** The scanner loop of `UpdatePlayersFile`: line by line until one names the player,
      and `scanner.Err()` after it, which is `ErrTooLong` when a line did not fit the
      scanner's buffer. */
  method FindPlayer(data: Bytes, id: string) returns (r: Result<bool, Error>)
    ensures r == ScanFor(data, id)
    ensures r.Ok? ==> (r.value <==> Listed(data, id))
  {
    r := Ok(false);
    var rest := data;
    while rest != [] && r == Ok(false)
      invariant r == Ok(false) ==> ScanFor(rest, id) == ScanFor(data, id)
      invariant r != Ok(false) ==> r == ScanFor(data, id)
      decreases |rest|
    {
      var k := IndexOfByte(rest, NL);
      if k >= MaxScanTokenSize {
        r := Err(TokenTooLong);
      } else if Clean(Decode(DropCR(rest[..k]))) == id {
        r := Ok(true);
      }
      rest := if k < |rest| then rest[k + 1..] else [];
    }
    if r.Ok? {
      ScanForListed(data, id);
    }
  }

  // ---------------------------------------------------------------- loading

  /** `LoadSyncedServer`: a new server object from the stored record; a missing key or a
      record that cannot be decoded ends the process. */
  method LoadSyncedServer(db: Db, name: string) returns (ss: SyncedServer, st: Status)
    ensures fresh(ss) && ss.repo == None
    ensures st.Running? <==> LoadRecord(db.kv, name).Ok?
    ensures st.Exited? ==> st.error == LoadRecord(db.kv, name).error
    ensures st.Running? ==> Record(ss.name, ss.gitURL) == LoadRecord(db.kv, name).value
  {
    var rec := LoadRecord(db.kv, name);
    if rec.Err? {
      ss := new SyncedServer("", "");
      return ss, HandleErr(Some(rec.error));
    }
    ss := new SyncedServer(rec.value.name, rec.value.gitURL);
    return ss, Running;
  }

  /** `GetSyncedServers`: the records of every server key, by the name they hold (a later
      record of the same name replaces an earlier one); a record that cannot be decoded
      makes the whole result empty. */
  method GetSyncedServers(db: Db) returns (servers: map<string, Record>)
    ensures !AllDecode(db.kv) ==> servers == map[]
    ensures AllDecode(db.kv) ==> forall k :: k in db.kv && IsServerKey(k) ==> DecodeRecord(db.kv[k]).value.name in servers
    ensures forall n :: n in servers ==> (servers[n].name == n
              && exists k :: k in ServerKeys(db.kv) && DecodeRecord(db.kv[k]) == Some(servers[n]))
    ensures Consistent(db.kv) ==> servers == Registry(db.kv)
  {
    servers := map[];
    var pending := ServerKeys(db.kv);
    while pending != {}
      invariant pending <= ServerKeys(db.kv)
      invariant forall k :: k in ServerKeys(db.kv) - pending ==> DecodeRecord(db.kv[k]).Some? && DecodeRecord(db.kv[k]).value.name in servers
      invariant forall n :: n in servers ==> (servers[n].name == n
                  && exists k :: k in ServerKeys(db.kv) - pending && DecodeRecord(db.kv[k]) == Some(servers[n]))
      decreases |pending|
    {
      var k :| k in pending;
      var rec := DecodeRecord(db.kv[k]);
      if rec.None? {
        return map[];
      }
      servers := servers[rec.value.name := rec.value];
      pending := pending - {k};
    }
    if Consistent(db.kv) {
      ListedIsRegistry(db.kv, servers);
    }
  }

  /** A record found under a server key of a consistent registry is the record of its name. */
  lemma ListedUnderOwnKey(kv: map<Bytes, Bytes>, k: Bytes, rec: Record)
    requires Consistent(kv)
    requires k in ServerKeys(kv) && DecodeRecord(kv[k]) == Some(rec)
    ensures rec.name in Registry(kv) && Registry(kv)[rec.name] == rec
  {
    assert Key(rec.name) == k;
  }

  /** In a consistent registry, a map with the records of every server key, by their
      names, is the registry. */
  lemma ListedIsRegistry(kv: map<Bytes, Bytes>, m: map<string, Record>)
    requires Consistent(kv)
    requires forall k :: k in ServerKeys(kv) ==> DecodeRecord(kv[k]).value.name in m
    requires forall n :: n in m ==> (m[n].name == n && exists k :: k in ServerKeys(kv) && DecodeRecord(kv[k]) == Some(m[n]))
    ensures m == Registry(kv)
  {
    hide Key, DecodeRecord, EncodeRecord, IsServerKey, Registry;
    var r := Registry(kv);
    forall n | n in r ensures n in m {
      KeyShape(n);
      assert Key(n) in ServerKeys(kv);
    }
    forall n | n in m ensures n in r && m[n] == r[n] {
      var k :| k in ServerKeys(kv) && DecodeRecord(kv[k]) == Some(m[n]);
      ListedUnderOwnKey(kv, k, m[n]);
    }
  }
}
