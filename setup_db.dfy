/** `setup_db.go`: loading the configuration from the registry into the package
    variables, and validating, storing and reloading it. */
module SetupDb {
  import opened Wrappers
  import opened Utf8
  import opened Paths
  import opened Errors
  import opened Fs
  import opened Machine
  import opened Store
  import opened Codec
  import opened Config
  import opened Utils

  // The registry keys: the bytes of "pz_exe_path", "pz_data_path", "steam_id",
  // "git_username", "git_password" and "language".
  function ExeKey(): Bytes { [0x70, 0x7A, 0x5F, 0x65, 0x78, 0x65, 0x5F, 0x70, 0x61, 0x74, 0x68] }
  function DataKey(): Bytes { [0x70, 0x7A, 0x5F, 0x64, 0x61, 0x74, 0x61, 0x5F, 0x70, 0x61, 0x74, 0x68] }
  function SteamKey(): Bytes { [0x73, 0x74, 0x65, 0x61, 0x6D, 0x5F, 0x69, 0x64] }
  function UserKey(): Bytes { [0x67, 0x69, 0x74, 0x5F, 0x75, 0x73, 0x65, 0x72, 0x6E, 0x61, 0x6D, 0x65] }
  function PassKey(): Bytes { [0x67, 0x69, 0x74, 0x5F, 0x70, 0x61, 0x73, 0x73, 0x77, 0x6F, 0x72, 0x64] }
  function LanguageKey(): Bytes { [0x6C, 0x61, 0x6E, 0x67, 0x75, 0x61, 0x67, 0x65] }

  /** The configuration keys are six different keys. */
  lemma KeysDiffer()
    ensures ExeKey() != DataKey() && ExeKey() != SteamKey() && ExeKey() != UserKey() && ExeKey() != PassKey()
    ensures DataKey() != SteamKey() && DataKey() != UserKey() && DataKey() != PassKey()
    ensures SteamKey() != UserKey() && SteamKey() != PassKey() && UserKey() != PassKey()
    ensures LanguageKey() !in {ExeKey(), DataKey(), SteamKey(), UserKey(), PassKey()}
  {
  }

  /** The existence check of `LoadPzDirs` and `SetupPzDirs`: only "does not exist" fails
      it, and `os.Stat` of the empty path gives "does not exist". */
  function MissingDir(disk: FileSystem, path: string): (err: Option<Error>)
    ensures err.Some? <==> path == "" || Stat(disk, ToPath(path)).Missing?
  {
    if path == "" || Stat(disk, ToPath(path)).Missing? then Some(Invalid(path + " dir does not exists\n")) else None
  }

  /** `LoadPzDirs`: an absent key is an error; the exe path is assigned before the data
      key is read, so a missing data key leaves a partial update; then each path must
      exist. */
  method LoadPzDirs(g: Globals, db: Db, disk: Disk) returns (err: Option<Error>)
    modifies g`exePath, g`dataPath
    ensures ExeKey() !in db.kv ==>
              err == Some(KeyNotFound(ExeKey())) && g.exePath == old(g.exePath) && g.dataPath == old(g.dataPath)
    ensures ExeKey() in db.kv && DataKey() !in db.kv ==>
              err == Some(KeyNotFound(DataKey())) && g.exePath == Decode(db.kv[ExeKey()]) && g.dataPath == old(g.dataPath)
    ensures ExeKey() in db.kv && DataKey() in db.kv ==>
              g.exePath == Decode(db.kv[ExeKey()]) && g.dataPath == Decode(db.kv[DataKey()])
              && err == (if MissingDir(disk.fs, g.exePath).Some? then MissingDir(disk.fs, g.exePath)
                         else MissingDir(disk.fs, g.dataPath))
    ensures err.None? ==> g.exePath != "" && g.dataPath != ""
  {
    var exe := db.Get(ExeKey());
    if exe.Err? { return Some(exe.error); }
    g.exePath := Decode(exe.value);
    var data := db.Get(DataKey());
    if data.Err? { return Some(data.error); }
    g.dataPath := Decode(data.value);
    err := MissingDir(disk.fs, g.exePath);
    if err.Some? { return; }
    err := MissingDir(disk.fs, g.dataPath);
  }

  /** `SetupPzDirs`: both paths must exist before anything is written; both keys are then
      written in one transaction and reloaded. */
  method SetupPzDirs(g: Globals, db: Db, disk: Disk, exePath: string, dataPath: string) returns (st: Status)
    modifies db, g`exePath, g`dataPath
    ensures st.Running? <==> MissingDir(disk.fs, exePath).None? && MissingDir(disk.fs, dataPath).None?
    ensures MissingDir(disk.fs, exePath).Some? || MissingDir(disk.fs, dataPath).Some? ==> db.kv == old(db.kv)
    ensures st.Running? ==> db.kv == old(db.kv)[ExeKey() := Encode(exePath)][DataKey() := Encode(dataPath)]
    ensures st.Running? ==> g.exePath == exePath && g.dataPath == dataPath
    ensures st.Running? ==> exePath != "" && dataPath != ""
  {
    var e := MissingDir(disk.fs, exePath);
    if e.Some? { return Exited(e.value); }
    e := MissingDir(disk.fs, dataPath);
    if e.Some? { return Exited(e.value); }
    db.SetPair(ExeKey(), Encode(exePath), DataKey(), Encode(dataPath));
    KeysDiffer();
    assert Decode(db.kv[ExeKey()]) == exePath by { DecodeEncode(exePath); }
    assert Decode(db.kv[DataKey()]) == dataPath by { DecodeEncode(dataPath); }
    var err := LoadPzDirs(g, db, disk);
    st := HandleErr(err);
  }

  /** `LoadSteamID`: an absent key and an empty ID are errors. */
  method LoadSteamID(g: Globals, db: Db) returns (err: Option<Error>)
    modifies g`steamID
    ensures SteamKey() !in db.kv ==> err == Some(KeyNotFound(SteamKey())) && g.steamID == old(g.steamID)
    ensures SteamKey() in db.kv ==> g.steamID == Decode(db.kv[SteamKey()])
    ensures SteamKey() in db.kv ==> (err.None? <==> g.steamID != "")
  {
    var v := db.Get(SteamKey());
    if v.Err? { return Some(v.error); }
    g.steamID := Decode(v.value);
    if g.steamID == "" { return Some(Invalid("Steam ID cannot be empty")); }
    return None;
  }

  /** `SetupSteamId`: an empty ID ends the process before anything is written; otherwise it
      is stored and reloaded. */
  method SetupSteamId(g: Globals, db: Db, steamID: string) returns (st: Status)
    modifies db, g`steamID
    ensures st.Running? <==> steamID != ""
    ensures steamID == "" ==> db.kv == old(db.kv)
    ensures st.Running? ==> db.kv == old(db.kv)[SteamKey() := Encode(steamID)] && g.steamID == steamID
  {
    if steamID == "" { return Exited(Invalid("Steam ID cannot be empty")); }
    db.Set(SteamKey(), Encode(steamID));
    DecodeEncode(steamID);
    var err := LoadSteamID(g, db);
    st := HandleErr(err);
  }

  /** `LoadGitAuth`: both keys must be present and both values non-empty; only then is the
      basic auth assigned. */
  method LoadGitAuth(g: Globals, db: Db) returns (err: Option<Error>)
    modifies g`gitAuth
    ensures UserKey() !in db.kv ==> err == Some(KeyNotFound(UserKey()))
    ensures UserKey() in db.kv && PassKey() !in db.kv ==> err == Some(KeyNotFound(PassKey()))
    ensures err.None? <==> UserKey() in db.kv && PassKey() in db.kv
                           && Decode(db.kv[UserKey()]) != "" && Decode(db.kv[PassKey()]) != ""
    ensures err.None? ==> g.gitAuth == Some(BasicAuth(Decode(db.kv[UserKey()]), Decode(db.kv[PassKey()])))
    ensures err.Some? ==> g.gitAuth == old(g.gitAuth)
  {
    var u := db.Get(UserKey());
    if u.Err? { return Some(u.error); }
    var p := db.Get(PassKey());
    if p.Err? { return Some(p.error); }
    var user, pass := Decode(u.value), Decode(p.value);
    if user == "" || pass == "" { return Some(Invalid("Git username or password cannot be empty")); }
    g.gitAuth := Some(BasicAuth(user, pass));
    return None;
  }

  /** `SetupGitAuth`: both fields must be non-empty before anything is written; both keys are
      written in one transaction and reloaded. */
  method SetupGitAuth(g: Globals, db: Db, username: string, password: string) returns (st: Status)
    modifies db, g`gitAuth
    ensures st.Running? <==> username != "" && password != ""
    ensures !st.Running? ==> db.kv == old(db.kv)
    ensures st.Running? ==> db.kv == old(db.kv)[UserKey() := Encode(username)][PassKey() := Encode(password)]
    ensures st.Running? ==> g.gitAuth == Some(BasicAuth(username, password))
  {
    if username == "" || password == "" {
      return Exited(Invalid("Git username or password cannot be empty"));
    }
    db.SetPair(UserKey(), Encode(username), PassKey(), Encode(password));
    KeysDiffer();
    assert Decode(db.kv[UserKey()]) == username by { DecodeEncode(username); }
    assert Decode(db.kv[PassKey()]) == password by { DecodeEncode(password); }
    var err := LoadGitAuth(g, db);
    st := HandleErr(err);
  }

  /** `LoadLanguage`: an absent key is an error, fewer than four bytes is a run-time panic;
      otherwise the value is assigned and then checked. */
  method LoadLanguage(g: Globals, db: Db) returns (err: Option<Error>)
    modifies g`language
    ensures LanguageKey() !in db.kv ==> err == Some(KeyNotFound(LanguageKey())) && g.language == old(g.language)
    ensures LanguageKey() in db.kv && |db.kv[LanguageKey()]| < 4 ==> err.Some? && err.value.Panic?
    ensures LanguageKey() in db.kv && |db.kv[LanguageKey()]| >= 4 ==>
              g.language == Uint32(db.kv[LanguageKey()]) && (err.None? <==> IsLanguageValid(g.language))
  {
    var v := db.Get(LanguageKey());
    if v.Err? { return Some(v.error); }
    if |v.value| < 4 { return Some(Panic("index out of range")); }
    g.language := Uint32(v.value);
    if !IsLanguageValid(g.language) { return Some(Invalid("Invalid language")); }
    return None;
  }

  /** A valid language survives storing as four big-endian bytes and reading back. */
  lemma LanguageRoundTrip(lang: int)
    requires IsLanguageValid(lang)
    ensures Uint32(PutUint32(ToUint32(lang))) == lang
  {
    IntRoundTrip(lang);
  }

  /** `SetupLanguage`: an invalid language ends the process before anything is written;
      otherwise it is stored as four big-endian bytes and reloaded, giving the same value. */
  method SetupLanguage(g: Globals, db: Db, lang: int) returns (st: Status)
    modifies db, g`language
    ensures st.Running? <==> IsLanguageValid(lang)
    ensures !IsLanguageValid(lang) ==> db.kv == old(db.kv)
    ensures st.Running? ==> db.kv == old(db.kv)[LanguageKey() := PutUint32(ToUint32(lang))] && g.language == lang
  {
    if !IsLanguageValid(lang) { return Exited(Invalid("Invalid language")); }
    db.Set(LanguageKey(), PutUint32(ToUint32(lang)));
    LanguageRoundTrip(lang);
    var err := LoadLanguage(g, db);
    st := HandleErr(err);
  }
}
