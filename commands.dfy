/** `commands.go`: the interactive commands that set up the configuration and add,
    delete, clone and synchronise synced servers.  Each command reads its answers from
    the console; the effects on the file system, the remotes and the registry are stated
    against specification functions built from the operations they call. */
module Commands {
  import opened Wrappers
  import opened Utf8
  import opened Text
  import opened Paths
  import opened Errors
  import opened GitModel
  import opened Fs
  import opened Machine
  import Git
  import opened Codec
  import opened Store
  import opened Config
  import opened Utils
  import opened Input
  import opened SetupDb
  import opened LocalServers
  import opened Players
  import opened SyncedServers
  import ServerGit

  // ---------------------------------------------------------------- prompts

  /** The answer to the `k`-th prompt: the normalised `k`-th line, or the empty answer
      once input has ended. */
  function Answer(lines: seq<string>, k: nat): string
  {
    if k < |lines| then Normalize(lines[k]) else ""
  }

  /** The lines left once `k` prompts are answered. */
  function Rest(lines: seq<string>, k: nat): seq<string>
  {
    if k < |lines| then lines[k..] else []
  }

  lemma RestNone(lines: seq<string>)
    ensures Rest(lines, 0) == lines
  {
    hide Normalize;
  }

  /** The answers a prompt that asks again until it is satisfied accepts: an index below
      `count`, or a valid language. */
  datatype Accept = IndexBelow(count: nat) | ValidLanguage

  /** The index an answer selects among `count` entries: an integer in [0, count). */
  function Choice(answer: string, count: nat): (r: Option<nat>)
    ensures r.Some? <==> Atoi(answer).Some? && 0 <= Atoi(answer).value < count
    ensures r.Some? ==> r.value == Atoi(answer).value && r.value < count
  {
    var c := Atoi(answer);
    if c.Some? && 0 <= c.value < count then Some(c.value) else None
  }

  predicate Accepts(acc: Accept, answer: string)
  {
    match acc
    case IndexBelow(count) => Choice(answer, count).Some?
    case ValidLanguage => Atoi(answer).Some? && IsLanguageValid(Atoi(answer).value)
  }

  /** The position of the first line whose answer is accepted, `|lines|` when there is none. */
  function FirstAccepted(lines: seq<string>, acc: Accept): (i: nat)
    ensures i <= |lines|
    ensures i < |lines| ==> Accepts(acc, Normalize(lines[i]))
    ensures forall j :: 0 <= j < i ==> !Accepts(acc, Normalize(lines[j]))
  {
    if lines == [] || Accepts(acc, Normalize(lines[0])) then 0
    else
      var t := FirstAccepted(lines[1..], acc);
      FirstAcceptedShift(lines, acc, t);
      1 + t
  }

  /** A refused first line moves every position of the rest one further on. */
  lemma FirstAcceptedShift(lines: seq<string>, acc: Accept, t: nat)
    requires lines != [] && !Accepts(acc, Normalize(lines[0]))
    requires t <= |lines[1..]| && (t < |lines[1..]| ==> Accepts(acc, Normalize(lines[1..][t])))
    requires forall j :: 0 <= j < t ==> !Accepts(acc, Normalize(lines[1..][j]))
    ensures 1 + t <= |lines| && (1 + t < |lines| ==> Accepts(acc, Normalize(lines[1 + t])))
    ensures forall j :: 0 <= j < 1 + t ==> !Accepts(acc, Normalize(lines[j]))
  {
    hide Normalize, Accepts;
    assert forall j :: 1 <= j < |lines| ==> lines[1..][j - 1] == lines[j];
  }

  /** A prompt asked again until its answer is accepted.  The source asks again forever
      once input has ended; the model ends the process there. */
  method AskUntil(con: Console, acc: Accept) returns (answer: string, st: Status)
    modifies con
    ensures var i := FirstAccepted(old(con.lines), acc);
            && (st.Running? <==> i < |old(con.lines)|)
            && (st.Running? ==> answer == Normalize(old(con.lines)[i]) && Accepts(acc, answer)
                                && con.lines == old(con.lines)[i + 1..])
            && (st.Exited? ==> st == Exited(InputExhausted) && con.lines == [])
  {
    hide Normalize;
    ghost var k := 0;
    while true
      invariant k <= FirstAccepted(old(con.lines), acc) && k <= |old(con.lines)|
      invariant con.lines == old(con.lines)[k..]
      decreases |con.lines|
    {
      if con.lines == [] {
        return "", Exited(InputExhausted);
      }
      answer := con.AskForInput();
      if Accepts(acc, answer) {
        return answer, Running;
      }
      k := k + 1;
    }
  }

  /** `addServer`'s check of the chosen index, as written: an integer in [0, count]. */
  predicate AcceptedAsWritten(answer: string, count: nat)
  {
    Atoi(answer).Some? && 0 <= Atoi(answer).value <= count
  }

  /** As written, the answer naming the number of local servers passes the check although
      no local server has that index: with no local server, the answer "0" is accepted
      and `localServers[0]` is out of range. */
  lemma AcceptedAsWrittenOverruns()
    ensures AcceptedAsWritten("0", 0)
    ensures Choice("0", 0).None?
  {
    assert "0"[..0] == [];
    assert DigitsValue("0") == 0;
  }

  /** Every index the corrected check accepts is one the as-written check accepts, and
      it is an index of the list; only the count itself is given up. */
  lemma ChoiceNarrowsAsWritten(answer: string, count: nat)
    ensures Choice(answer, count).Some? ==> AcceptedAsWritten(answer, count)
    ensures AcceptedAsWritten(answer, count) && Choice(answer, count).None? ==> Atoi(answer) == Some(count)
  {
  }

  // ---------------------------------------------------------------- setup

  /** What `setup` reads and writes. */
  datatype Snapshot = Snapshot(exePath: string, dataPath: string, steamID: string, gitAuth: Option<BasicAuth>,
                               kv: map<Bytes, Bytes>, lines: seq<string>)

  function Snap(g: Globals, db: Db, con: Console): Snapshot
    reads g, db, con
  {
    Snapshot(g.exePath, g.dataPath, g.steamID, g.gitAuth, db.kv, con.lines)
  }

  /** An empty answer keeps the previous value. */
  function Fallback(answer: string, previous: string): string
  {
    if answer == "" then previous else answer
  }

  /** The prompts for the two directories: an empty answer keeps the previous value;
      both directories must exist, and both are then stored.  `None` ends the process. */
  function AnsweredDirs(b: Snapshot, fs: FileSystem): Option<Snapshot>
  {
    var exe := Fallback(Answer(b.lines, 0), b.exePath);
    var data := Fallback(Answer(b.lines, 1), b.dataPath);
    if MissingDir(fs, exe).Some? || MissingDir(fs, data).Some? then None
    else Some(b.(exePath := exe, dataPath := data, kv := b.kv[ExeKey() := Encode(exe)][DataKey() := Encode(data)],
                 lines := Rest(b.lines, 2)))
  }

  /** The prompt for the steam ID: an empty answer keeps the previous ID, which must not
      be empty, and the ID is then stored. */
  function AnsweredSteamId(b: Snapshot): Option<Snapshot>
  {
    var id := Fallback(Answer(b.lines, 0), b.steamID);
    if id == "" then None else Some(b.(steamID := id, kv := b.kv[SteamKey() := Encode(id)], lines := Rest(b.lines, 1)))
  }

  /** The prompts for the git credentials: both empty stores nothing; otherwise both must
      be given, and both are stored. */
  function AnsweredCredentials(b: Snapshot): Option<Snapshot>
  {
    var user := Answer(b.lines, 0);
    var pass := Answer(b.lines, 1);
    if user == "" && pass == "" then Some(b.(lines := Rest(b.lines, 2)))
    else if user == "" || pass == "" then None
    else Some(b.(gitAuth := Some(BasicAuth(user, pass)),
                 kv := b.kv[UserKey() := Encode(user)][PassKey() := Encode(pass)], lines := Rest(b.lines, 2)))
  }

  /** The first-time branch of `setup`: the three steps in turn, the first that fails
      ending the process. */
  function AnsweredSetup(b: Snapshot, fs: FileSystem): Option<Snapshot>
  {
    var dirs := AnsweredDirs(b, fs);
    if dirs.None? then None else AnsweredIdentity(dirs.value)
  }

  /** The steam ID and then the git credentials. */
  function AnsweredIdentity(b: Snapshot): Option<Snapshot>
  {
    var id := AnsweredSteamId(b);
    if id.None? then None else AnsweredCredentials(id.value)
  }

  /** On the first run, with no directories known yet, pressing Enter at the directory
      prompts ends the process: the empty path does not exist. */
  lemma FirstRunEmptyDirsStop(b: Snapshot, fs: FileSystem)
    requires b.exePath == "" || b.dataPath == ""
    requires Answer(b.lines, 0) == "" && Answer(b.lines, 1) == ""
    ensures AnsweredDirs(b, fs).None? && AnsweredSetup(b, fs).None?
  {
  }

  lemma {:induction false} RestRest(lines: seq<string>, j: nat, k: nat)
    ensures Rest(Rest(lines, j), k) == Rest(lines, j + k)
    ensures Answer(Rest(lines, j), k) == Answer(lines, j + k)
  {
    if j + k < |lines| {
      assert lines[j..][k..] == lines[j + k..];
    }
  }

  /** The whole first-time setup in terms of the five answers: the executable path, the
      data path and the steam ID (each falling back to the previous value), the git user
      and the git password.  It goes on exactly when both directories exist, the ID is
      not empty, and the credentials are both given or both left empty. */
  lemma SetupGoesOn(b: Snapshot, fs: FileSystem)
    ensures var exe := Fallback(Answer(b.lines, 0), b.exePath);
            var data := Fallback(Answer(b.lines, 1), b.dataPath);
            var id := Fallback(Answer(b.lines, 2), b.steamID);
            var user := Answer(b.lines, 3);
            var pass := Answer(b.lines, 4);
            && (AnsweredSetup(b, fs).Some? <==> MissingDir(fs, exe).None? && MissingDir(fs, data).None? && id != ""
                                                && ((user == "" && pass == "") || (user != "" && pass != "")))
            && (AnsweredSetup(b, fs).Some? ==> exe != "" && data != "")
  {
    hide Normalize;
    var d := AnsweredDirs(b, fs);
    if d.Some? {
      RestRest(b.lines, 2, 0);
      RestRest(b.lines, 2, 1);
      RestRest(b.lines, 3, 0);
      RestRest(b.lines, 3, 1);
      SteamIdGoesOn(d.value);
    }
  }

  lemma SteamIdGoesOn(b: Snapshot)
    ensures var id := Fallback(Answer(b.lines, 0), b.steamID);
            var user := Answer(b.lines, 1);
            var pass := Answer(b.lines, 2);
            AnsweredIdentity(b).Some? <==> id != "" && ((user == "" && pass == "") || (user != "" && pass != ""))
  {
    hide Normalize;
    var i := AnsweredSteamId(b);
    if i.Some? {
      RestRest(b.lines, 1, 0);
      RestRest(b.lines, 1, 1);
      CredentialsAnswers(i.value);
    }
  }

  /** A first-time setup that goes on holds the five answers, and the registry holds
      them too: the credentials only when one of them was given. */
  lemma SetupAnswers(b: Snapshot, fs: FileSystem)
    requires AnsweredSetup(b, fs).Some?
    ensures var exe := Fallback(Answer(b.lines, 0), b.exePath);
            var data := Fallback(Answer(b.lines, 1), b.dataPath);
            var id := Fallback(Answer(b.lines, 2), b.steamID);
            var user := Answer(b.lines, 3);
            var pass := Answer(b.lines, 4);
            AnsweredSetup(b, fs).value
              == Snapshot(exe, data, id, if user == "" && pass == "" then b.gitAuth else Some(BasicAuth(user, pass)),
                          WithAuth(b.kv[ExeKey() := Encode(exe)][DataKey() := Encode(data)][SteamKey() := Encode(id)], user, pass),
                          Rest(b.lines, 5))
  {
    hide Normalize;
    var d := AnsweredDirs(b, fs).value;
    RestRest(b.lines, 2, 0);
    var i := AnsweredSteamId(d).value;
    RestRest(b.lines, 2, 1);
    RestRest(b.lines, 3, 0);
    RestRest(b.lines, 3, 1);
    RestRest(b.lines, 3, 2);
    CredentialsAnswers(i);
  }

  lemma CredentialsAnswers(b: Snapshot)
    ensures var user := Answer(b.lines, 0);
            var pass := Answer(b.lines, 1);
            var r := AnsweredCredentials(b);
            && (r.Some? <==> (user == "" && pass == "") || (user != "" && pass != ""))
            && (r.Some? ==> r.value == b.(gitAuth := if user == "" && pass == "" then b.gitAuth else Some(BasicAuth(user, pass)),
                                          kv := WithAuth(b.kv, user, pass), lines := Rest(b.lines, 2)))
  {
    hide Normalize;
  }

  /** The registry with the credentials written, unless both answers are empty. */
  function WithAuth(kv: map<Bytes, Bytes>, user: string, pass: string): map<Bytes, Bytes>
  {
    if user == "" && pass == "" then kv else kv[UserKey() := Encode(user)][PassKey() := Encode(pass)]
  }

  /** A configuration that loads: the steam ID and both directories are stored, the
      settings hold what is stored, the ID is not empty and both directories exist. */
  predicate Configured(exePath: string, dataPath: string, steamID: string, kv: map<Bytes, Bytes>, fs: FileSystem)
  {
    && SteamKey() in kv && Decode(kv[SteamKey()]) == steamID && steamID != ""
    && ExeKey() in kv && Decode(kv[ExeKey()]) == exePath && MissingDir(fs, exePath).None?
    && DataKey() in kv && Decode(kv[DataKey()]) == dataPath && MissingDir(fs, dataPath).None?
  }

  /** A first-time setup that goes on leaves a configuration that loads. */
  lemma AnsweredSetupConfigured(b: Snapshot, fs: FileSystem)
    requires AnsweredSetup(b, fs).Some?
    ensures var a := AnsweredSetup(b, fs).value;
            Configured(a.exePath, a.dataPath, a.steamID, a.kv, fs)
  {
    hide Normalize;
    var dirs := AnsweredDirs(b, fs).value;
    var id := AnsweredSteamId(dirs).value;
    var a := AnsweredCredentials(id).value;
    StoredValues(b.kv, Encode(a.exePath), Encode(a.dataPath), Encode(a.steamID), Answer(id.lines, 0), Answer(id.lines, 1));
    assert a.kv == WithAuth(id.kv, Answer(id.lines, 0), Answer(id.lines, 1));
    DecodeEncode(a.exePath);
    DecodeEncode(a.dataPath);
    DecodeEncode(a.steamID);
  }

  lemma StoredValues(kv: map<Bytes, Bytes>, exe: Bytes, data: Bytes, id: Bytes, user: string, pass: string)
    ensures var after := WithAuth(kv[ExeKey() := exe][DataKey() := data][SteamKey() := id], user, pass);
            && ExeKey() in after && after[ExeKey()] == exe
            && DataKey() in after && after[DataKey()] == data
            && SteamKey() in after && after[SteamKey()] == id
  {
    KeysDiffer();
  }

  /** Leaving both credentials empty writes neither key and keeps the credentials loaded
      before. */
  lemma EmptyCredentialsKeepAuth(b: Snapshot, fs: FileSystem)
    requires AnsweredSetup(b, fs).Some? && Answer(b.lines, 3) == "" && Answer(b.lines, 4) == ""
    ensures var a := AnsweredSetup(b, fs).value;
            && a.gitAuth == b.gitAuth
            && (UserKey() in a.kv <==> UserKey() in b.kv) && (UserKey() in b.kv ==> a.kv[UserKey()] == b.kv[UserKey()])
            && (PassKey() in a.kv <==> PassKey() in b.kv) && (PassKey() in b.kv ==> a.kv[PassKey()] == b.kv[PassKey()])
  {
    hide Normalize;
    var dirs := AnsweredDirs(b, fs).value;
    var id := AnsweredSteamId(dirs).value;
    RestRest(b.lines, 3, 0);
    RestRest(b.lines, 3, 1);
    KeysDiffer();
  }

  /** The first-time branch of `setup`. */
  method AskSetup(g: Globals, db: Db, disk: Disk, con: Console) returns (st: Status)
    modifies g`exePath, g`dataPath, g`steamID, g`gitAuth, db, con
    ensures var r := AnsweredSetup(old(Snap(g, db, con)), disk.fs);
            (st.Running? <==> r.Some?) && (r.Some? ==> Snap(g, db, con) == r.value)
  {
    hide Normalize;
    st := AskDirs(g, db, disk, con);
    if st.Running? {
      st := AskIdentity(g, db, con);
    }
  }

  /** The prompts for the steam ID and the git credentials. */
  method AskIdentity(g: Globals, db: Db, con: Console) returns (st: Status)
    modifies g`steamID, g`gitAuth, db, con
    ensures var r := AnsweredIdentity(old(Snap(g, db, con)));
            (st.Running? <==> r.Some?) && (r.Some? ==> Snap(g, db, con) == r.value)
  {
    hide Normalize;
    st := AskSteamId(g, db, con);
    if st.Running? {
      st := AskCredentials(g, db, con);
    }
  }

  /** The prompts for the two directories. */
  method AskDirs(g: Globals, db: Db, disk: Disk, con: Console) returns (st: Status)
    modifies g`exePath, g`dataPath, db, con
    ensures var r := AnsweredDirs(old(Snap(g, db, con)), disk.fs);
            (st.Running? <==> r.Some?) && (r.Some? ==> Snap(g, db, con) == r.value)
  {
    hide Normalize;
    ghost var lines := con.lines;
    var exe := Ask(con, lines, 0);
    var data := Ask(con, lines, 1);
    st := StoreDirs(g, db, disk, exe, data);
  }

  /** An empty answer keeps the previous directory; both directories are then checked
      and stored. */
  method StoreDirs(g: Globals, db: Db, disk: Disk, exe: string, data: string) returns (st: Status)
    modifies g`exePath, g`dataPath, db
    ensures var e := Fallback(exe, old(g.exePath));
            var d := Fallback(data, old(g.dataPath));
            && (st.Running? <==> MissingDir(disk.fs, e).None? && MissingDir(disk.fs, d).None?)
            && (st.Running? ==> g.exePath == e && g.dataPath == d && db.kv == old(db.kv)[ExeKey() := Encode(e)][DataKey() := Encode(d)])
  {
    st := SetupPzDirs(g, db, disk, Fallback(exe, g.exePath), Fallback(data, g.dataPath));
  }

  /** The prompt for the steam ID. */
  method AskSteamId(g: Globals, db: Db, con: Console) returns (st: Status)
    modifies g`steamID, db, con
    ensures var r := AnsweredSteamId(old(Snap(g, db, con)));
            (st.Running? <==> r.Some?) && (r.Some? ==> Snap(g, db, con) == r.value)
  {
    hide Normalize;
    ghost var lines := con.lines;
    var id := Ask(con, lines, 0);
    st := SetupSteamId(g, db, Fallback(id, g.steamID));
  }

  /** The prompts for the git credentials. */
  method AskCredentials(g: Globals, db: Db, con: Console) returns (st: Status)
    modifies g`gitAuth, db, con
    ensures var r := AnsweredCredentials(old(Snap(g, db, con)));
            (st.Running? <==> r.Some?) && (r.Some? ==> Snap(g, db, con) == r.value)
  {
    hide Normalize;
    ghost var lines := con.lines;
    var user := Ask(con, lines, 0);
    var pass := Ask(con, lines, 1);
    st := StoreCredentials(g, db, user, pass);
  }

  /** The credentials are stored only when one of them is given. */
  method StoreCredentials(g: Globals, db: Db, user: string, pass: string) returns (st: Status)
    modifies g`gitAuth, db
    ensures st.Running? <==> (user == "" && pass == "") || (user != "" && pass != "")
    ensures st.Running? ==> db.kv == WithAuth(old(db.kv), user, pass)
    ensures st.Running? ==> g.gitAuth == if user == "" && pass == "" then old(g.gitAuth) else Some(BasicAuth(user, pass))
  {
    st := Running;
    if user != "" || pass != "" {
      st := SetupGitAuth(g, db, user, pass);
    }
  }

  /** The `k`-th prompt of a run of prompts over `lines`. */
  method Ask(con: Console, ghost lines: seq<string>, ghost k: nat) returns (answer: string)
    modifies con
    requires con.lines == Rest(lines, k)
    ensures answer == Answer(lines, k) && con.lines == Rest(lines, k + 1)
  {
    answer := con.AskForInput();
    if k < |lines| {
      assert lines[k..][1..] == lines[k + 1..];
    }
  }

  /** `setup`: the first time, every value is asked for; otherwise the steam ID, the
      directories and the credentials are loaded, and each that fails to load switches
      to the first-time behaviour and runs the setup again before the next is loaded.  A
      setup that loads everything writes and reads nothing else. */
  method Setup(g: Globals, db: Db, disk: Disk, con: Console) returns (st: Status)
    modifies g`exePath, g`dataPath, g`steamID, g`gitAuth, g`firstTimeSetup, db, con
    decreases if g.firstTimeSetup then 0 else 1
    ensures old(g.firstTimeSetup) ==> g.firstTimeSetup
    ensures old(g.firstTimeSetup) ==>
              var r := AnsweredSetup(old(Snap(g, db, con)), disk.fs);
              (st.Running? <==> r.Some?) && (r.Some? ==> Snap(g, db, con) == r.value)
    ensures st.Running? ==> Configured(g.exePath, g.dataPath, g.steamID, db.kv, disk.fs)
    ensures !old(g.firstTimeSetup) && !g.firstTimeSetup ==>
              st.Running? && db.kv == old(db.kv) && con.lines == old(con.lines)
              && UserKey() in db.kv && PassKey() in db.kv
              && g.gitAuth == Some(BasicAuth(Decode(db.kv[UserKey()]), Decode(db.kv[PassKey()])))
  {
    hide Normalize, AnsweredSetup, AnsweredDirs, AnsweredIdentity, AnsweredSteamId, AnsweredCredentials, Decode, Encode;
    if g.firstTimeSetup {
      ghost var b := Snap(g, db, con);
      st := AskSetup(g, db, disk, con);
      if st.Running? {
        AnsweredSetupConfigured(b, disk.fs);
      }
      return;
    }
    var err := LoadSteamID(g, db);
    if err.Some? {
      g.firstTimeSetup := true;
      st := Setup(g, db, disk, con);
      if st.Exited? { return; }
    }
    err := LoadPzDirs(g, db, disk);
    if err.Some? {
      g.firstTimeSetup := true;
      st := Setup(g, db, disk, con);
      if st.Exited? { return; }
    }
    err := LoadGitAuth(g, db);
    if err.Some? {
      g.firstTimeSetup := true;
      st := Setup(g, db, disk, con);
      if st.Exited? { return; }
    }
    st := Running;
  }

  // ---------------------------------------------------------------- setLanguage

  /** `setLanguage`: asked until the answer is a valid language, which is then stored. */
  method SetLanguage(g: Globals, db: Db, con: Console) returns (st: Status)
    modifies g`language, db, con
    ensures var i := FirstAccepted(old(con.lines), ValidLanguage);
            && (st.Running? <==> i < |old(con.lines)|)
            && (st.Exited? ==> st == Exited(InputExhausted) && db.kv == old(db.kv))
            && (st.Running? ==>
                  var lang := Atoi(Normalize(old(con.lines)[i])).value;
                  IsLanguageValid(lang) && g.language == lang
                  && db.kv == old(db.kv)[LanguageKey() := PutUint32(ToUint32(lang))]
                  && con.lines == old(con.lines)[i + 1..])
  {
    hide Normalize;
    var answer;
    answer, st := AskUntil(con, ValidLanguage);
    if st.Exited? { return; }
    st := SetupLanguage(g, db, Atoi(answer).value);
  }

  // ---------------------------------------------------------------- the world the commands change

  /** The file system and the remotes. */
  datatype World = World(fs: FileSystem, remotes: map<string, History>)

  /** The settings the server operations read. */
  datatype Settings = Settings(serversPath: Path, dataPath: string, steamID: string)

  function SettingsOf(g: Globals): Settings
    reads g
  {
    Settings(g.serversPath, g.dataPath, g.steamID)
  }

  lemma SettingsOfFields(g: Globals)
    ensures SettingsOf(g) == Settings(g.serversPath, g.dataPath, g.steamID)
  {
  }

  /** A stage the file system goes through: its error ends the process. */
  function Staged(r: Result<FileSystem, Error>, remotes: map<string, History>): Result<World, Error>
  {
    if r.Err? then Err(r.error) else Ok(World(r.value, remotes))
  }

  /** `InitGit` then `Pull` on a server object that has no handle yet: the server's
      directory is opened, or made a repository, and pulled; the flag tells whether the
      pull brought changes. */
  function PullStep(w: World, sp: Path, url: string): (r: Result<(FileSystem, bool), Error>)
    ensures r.Ok? && r.value.1 ==> sp in r.value.0.repos && ServerGit.OpenOrInit(w.fs, sp, url).Ok?
    ensures r.Ok? && r.value.1 ==> var before := ServerGit.OpenOrInit(w.fs, sp, url).value;
              sp in before.repos && HasOrigin(before.repos[sp]) && OriginURL(before.repos[sp]) in w.remotes
              && r.value.0.repos[sp].head == w.remotes[OriginURL(before.repos[sp])]
  {
    var p := ServerGit.OpenOrInit(w.fs, sp, url);
    if p.Err? then Err(p.error)
    else
      var o := Git.Pull(p.value, sp, w.remotes);
      var s := ServerGit.Settle(o.err, ServerGit.PullTolerated);
      if s.Exited? then Err(s.error) else Ok((o.fs, o.err.None?))
  }

  /** The players manifest updated, then `CommitAndPush`.  The remote's last commit then
      records the worktree with the updated manifest. */
  function Announced(w: World, s: Settings, sp: Path): (r: Result<World, Error>)
    ensures r.Ok? ==> PlayersUpdate(w.fs, Join(sp, PlayersFileName), s.steamID).Ok?
    ensures r.Ok? ==> var f := PlayersUpdate(w.fs, Join(sp, PlayersFileName), s.steamID).value;
              && sp in f.repos && HasOrigin(f.repos[sp]) && OriginURL(f.repos[sp]) in r.value.remotes
              && Tip(r.value.remotes[OriginURL(f.repos[sp])]) == Git.Worktree(f, sp)
  {
    var pl := PlayersUpdate(w.fs, Join(sp, PlayersFileName), s.steamID);
    if pl.Err? then Err(pl.error)
    else
      var pub := ServerGit.Published(pl.value, sp, ServerGit.CommitMessage(s.steamID), w.remotes);
      if pub.Err? then Err(pub.error) else Ok(World(pub.value.0, pub.value.1))
  }

  /** `CopyLocalServerToSynced` then `CommitAndPush`.  The remote's last commit then
      records the worktree with the local content copied in. */
  function Uploaded(w: World, s: Settings, sp: Path, name: string): (r: Result<World, Error>)
    ensures r.Ok? ==> CopyUp(w.fs, s.dataPath, sp, name).Ok?
    ensures r.Ok? ==> var f := CopyUp(w.fs, s.dataPath, sp, name).value;
              && sp in f.repos && HasOrigin(f.repos[sp]) && OriginURL(f.repos[sp]) in r.value.remotes
              && Tip(r.value.remotes[OriginURL(f.repos[sp])]) == Git.Worktree(f, sp)
  {
    var up := CopyUp(w.fs, s.dataPath, sp, name);
    if up.Err? then Err(up.error)
    else
      var pub := ServerGit.Published(up.value, sp, ServerGit.CommitMessage(s.steamID), w.remotes);
      if pub.Err? then Err(pub.error) else Ok(World(pub.value.0, pub.value.1))
  }

  lemma PlayersFileIsComponent()
    ensures IsComponent(PlayersFileName)
  {
  }

  /** After the manifest is updated and pushed, the remote's last commit holds a
      manifest that names the player. */
  lemma AnnouncedListsPlayer(w: World, s: Settings, sp: Path)
    requires Nameable(s.steamID) && Announced(w, s, sp).Ok?
    ensures var f := PlayersUpdate(w.fs, Join(sp, PlayersFileName), s.steamID).value;
            var tip := Tip(Announced(w, s, sp).value.remotes[OriginURL(f.repos[sp])]);
            [PlayersFileName] in tip && Listed(tip[[PlayersFileName]], s.steamID)
  {
    var p := Join(sp, PlayersFileName);
    var f := PlayersUpdate(w.fs, p, s.steamID).value;
    PlayersFileIsComponent();
    PlayersUpdateNames(w.fs, p, s.steamID);
    Git.WorktreeAt(f, sp, [PlayersFileName]);
  }

  // ---------------------------------------------------------------- syncServers

  /** The two steps `syncServers` calls that are declared outside the modelled files,
      `CopySyncedServerToLocal` and `EnsureUpdatedPlayerSaveFolders`, as given functions
      of the file system and the server's name; an error ends the process. */
  datatype Hooks = Hooks(copyDown: (FileSystem, string) -> Result<FileSystem, Error>,
                         playerFolders: (FileSystem, string) -> Result<FileSystem, Error>)

  /** One server's pass of `syncServers`: the pull; then, when it brought changes, the
      copy down, and otherwise the copy up with commit and push; then the player folders. */
  function SyncedOne(w: World, s: Settings, h: Hooks, rec: Record): Result<World, Error>
  {
    var sp := ServerPath(s.serversPath, rec.name);
    var pulled := PullStep(w, sp, rec.gitURL);
    if pulled.Err? then Err(pulled.error)
    else
      var here := World(pulled.value.0, w.remotes);
      var mid := if pulled.value.1 then Staged(h.copyDown(here.fs, rec.name), w.remotes)
                 else Uploaded(here, s, sp, rec.name);
      if mid.Err? then mid else Staged(h.playerFolders(mid.value.fs, rec.name), mid.value.remotes)
  }

  /** When the pull brings changes, the pass copies down and updates the player folders,
      and pushes nothing. */
  lemma SyncPulledStaysLocal(w: World, s: Settings, h: Hooks, rec: Record)
    requires PullStep(w, ServerPath(s.serversPath, rec.name), rec.gitURL).Ok?
    requires PullStep(w, ServerPath(s.serversPath, rec.name), rec.gitURL).value.1
    requires SyncedOne(w, s, h, rec).Ok?
    ensures SyncedOne(w, s, h, rec).value.remotes == w.remotes
    ensures var pulled := PullStep(w, ServerPath(s.serversPath, rec.name), rec.gitURL).value.0;
            && h.copyDown(pulled, rec.name).Ok?
            && h.playerFolders(h.copyDown(pulled, rec.name).value, rec.name) == Ok(SyncedOne(w, s, h, rec).value.fs)
  {
  }

  /** When the pull brings nothing, the pass copies up, commits and pushes, so that the
      remote's last commit records the local content as copied, and then updates the
      player folders. */
  lemma SyncUnchangedUploads(w: World, s: Settings, h: Hooks, rec: Record)
    requires PullStep(w, ServerPath(s.serversPath, rec.name), rec.gitURL).Ok?
    requires !PullStep(w, ServerPath(s.serversPath, rec.name), rec.gitURL).value.1
    requires SyncedOne(w, s, h, rec).Ok?
    ensures var sp := ServerPath(s.serversPath, rec.name);
            var here := World(PullStep(w, sp, rec.gitURL).value.0, w.remotes);
            var up := Uploaded(here, s, sp, rec.name);
            && up.Ok? && up.value.remotes == SyncedOne(w, s, h, rec).value.remotes
            && h.playerFolders(up.value.fs, rec.name) == Ok(SyncedOne(w, s, h, rec).value.fs)
            && var f := CopyUp(here.fs, s.dataPath, sp, rec.name).value;
               Tip(up.value.remotes[OriginURL(f.repos[sp])]) == Git.Worktree(f, sp)
  {
    hide PullStep, CopyUp, ServerGit.Published, ServerPath;
  }

  /** The passes over `recs`, in that order, the first failing one ending the process. */
  function SyncAll(w: World, s: Settings, h: Hooks, recs: seq<Record>): Result<World, Error>
  {
    if recs == [] then Ok(w)
    else
      var before := SyncAll(w, s, h, recs[..|recs| - 1]);
      if before.Err? then before else SyncedOne(before.value, s, h, recs[|recs| - 1])
  }

  lemma SyncAllSnoc(w: World, s: Settings, h: Hooks, recs: seq<Record>, rec: Record)
    ensures SyncAll(w, s, h, recs + [rec])
            == if SyncAll(w, s, h, recs).Err? then SyncAll(w, s, h, recs) else SyncedOne(SyncAll(w, s, h, recs).value, s, h, rec)
  {
    hide SyncedOne;
    assert (recs + [rec])[..|recs|] == recs;
  }

  /** Each pass starts from the state the passes before it left. */
  lemma {:induction false} SyncAllSteps(w: World, s: Settings, h: Hooks, recs: seq<Record>, k: nat)
    requires k < |recs| && SyncAll(w, s, h, recs).Ok?
    ensures SyncAll(w, s, h, recs[..k]).Ok?
    ensures SyncAll(w, s, h, recs[..k + 1]) == SyncedOne(SyncAll(w, s, h, recs[..k]).value, s, h, recs[k])
    decreases |recs|
  {
    hide SyncedOne;
    if k + 1 < |recs| {
      var init := recs[..|recs| - 1];
      assert SyncAll(w, s, h, init).Ok?;
      SyncAllSteps(w, s, h, init, k);
      assert init[..k] == recs[..k] && init[..k + 1] == recs[..k + 1];
    } else {
      assert recs[..k + 1] == recs;
      assert recs[..k + 1][..k] == recs[..k];
    }
  }

  function Pick(servers: map<string, Record>, names: seq<string>): (r: seq<Record>)
    requires forall i :: 0 <= i < |names| ==> names[i] in servers
    ensures |r| == |names| && forall i :: 0 <= i < |names| ==> r[i] == servers[names[i]]
  {
    if names == [] then [] else Pick(servers, names[..|names| - 1]) + [servers[names[|names| - 1]]]
  }

  lemma PickSnoc(servers: map<string, Record>, names: seq<string>, n: string)
    requires (forall i :: 0 <= i < |names| ==> names[i] in servers) && n in servers
    ensures Pick(servers, names + [n]) == Pick(servers, names) + [servers[n]]
  {
    assert (names + [n])[..|names|] == names;
  }

  lemma DistinctSnoc(names: seq<string>, n: string)
    requires Distinct(names) && forall i :: 0 <= i < |names| ==> names[i] != n
    ensures Distinct(names + [n])
  {
  }

  /** Names without repetition. */
  predicate Distinct(names: seq<string>)
  {
    forall i, j :: 0 <= i < j < |names| ==> names[i] != names[j]
  }

  /** What `GetSyncedServers` can return for the registry `kv`. */
  predicate Lists(kv: map<Bytes, Bytes>, servers: map<string, Record>)
  {
    && (!AllDecode(kv) ==> servers == map[])
    && (AllDecode(kv) ==> forall k :: k in kv && IsServerKey(k) ==> DecodeRecord(kv[k]).value.name in servers)
    && (forall n :: n in servers ==> (servers[n].name == n
          && exists k :: k in ServerKeys(kv) && DecodeRecord(kv[k]) == Some(servers[n])))
  }

  /** Two listings of one registry list the same names. */
  lemma ListingsShareNames(kv: map<Bytes, Bytes>, a: map<string, Record>, b: map<string, Record>)
    requires Lists(kv, a) && Lists(kv, b)
    ensures a.Keys == b.Keys && |a| == |b|
  {
    hide DecodeRecord, IsServerKey;
    assert a.Keys == b.Keys by {
      if AllDecode(kv) {
        forall n | n in a ensures n in b {
          var k :| k in ServerKeys(kv) && DecodeRecord(kv[k]) == Some(a[n]);
        }
        forall n | n in b ensures n in a {
          var k :| k in ServerKeys(kv) && DecodeRecord(kv[k]) == Some(b[n]);
        }
      }
    }
    assert |a| == |a.Keys| && |b| == |b.Keys|;
  }

  /** One pass, on a server object made from the stored record. */
  method SyncServer(rec: Record, g: Globals, disk: Disk, net: Network, h: Hooks) returns (st: Status)
    modifies disk, net
    ensures var r := SyncedOne(World(old(disk.fs), old(net.remotes)), SettingsOf(g), h, rec);
            && (st.Running? <==> r.Ok?)
            && (r.Err? ==> st == Exited(r.error))
            && (r.Ok? ==> World(disk.fs, net.remotes) == r.value)
  {
    hide Uploaded, ServerGit.OpenOrInit, Git.Pull, ServerPath;
    var ss := new SyncedServer(rec.name, rec.gitURL);
    var changed;
    changed, st := AddPull(ss, g, disk, net);
    if st.Exited? { return; }
    if changed {
      var copied := h.copyDown(disk.fs, ss.name);
      if copied.Err? { return HandleErr(Some(copied.error)); }
      disk.fs := copied.value;
    } else {
      st := Upload(ss, g, disk, net);
      if st.Exited? { return; }
    }
    var updated := h.playerFolders(disk.fs, ss.name);
    if updated.Err? { return HandleErr(Some(updated.error)); }
    disk.fs := updated.value;
  }

  /** `CopyLocalServerToSynced` then `CommitAndPush`, on a server object whose handle is open. */
  method Upload(ss: SyncedServer, g: Globals, disk: Disk, net: Network) returns (st: Status)
    modifies ss, disk, net
    requires ss.repo == Some(ServerPath(g.serversPath, ss.name))
    ensures ss.name == old(ss.name) && ss.gitURL == old(ss.gitURL)
    ensures var r := Uploaded(World(old(disk.fs), old(net.remotes)), SettingsOf(g), ServerPath(g.serversPath, ss.name), ss.name);
            && (st.Running? <==> r.Ok?)
            && (r.Err? ==> st == Exited(r.error))
            && (r.Ok? ==> World(disk.fs, net.remotes) == r.value)
  {
    hide Uploaded, CopyUp, ServerGit.Published, ServerPath;
    UploadedSteps(World(disk.fs, net.remotes), SettingsOf(g), ServerPath(g.serversPath, ss.name), ss.name);
    st := ss.CopyLocalServerToSynced(g, disk);
    if st.Exited? { return; }
    st := ServerGit.CommitAndPush(ss, g, disk, net);
  }

  /** `Uploaded` in its three outcomes. */
  lemma UploadedSteps(w: World, s: Settings, sp: Path, name: string)
    ensures var up := CopyUp(w.fs, s.dataPath, sp, name);
            && (up.Err? ==> Uploaded(w, s, sp, name) == Err(up.error))
            && (up.Ok? ==> var pub := ServerGit.Published(up.value, sp, ServerGit.CommitMessage(s.steamID), w.remotes);
                  && (pub.Err? ==> Uploaded(w, s, sp, name) == Err(pub.error))
                  && (pub.Ok? ==> Uploaded(w, s, sp, name) == Ok(World(pub.value.0, pub.value.1))))
  {
    hide CopyUp, ServerGit.Published;
  }

  /** `GetSyncedServers`, as the listing `Lists` describes. */
  method ListServers(db: Db) returns (servers: map<string, Record>)
    ensures Lists(db.kv, servers)
    ensures Consistent(db.kv) ==> servers == Registry(db.kv)
  {
    servers := GetSyncedServers(db);
  }

  /** `syncServers`: one pass per registered server, in the map's (unspecified) order. */
  method SyncServers(g: Globals, db: Db, disk: Disk, net: Network, h: Hooks)
    returns (st: Status, ghost servers: map<string, Record>, ghost names: seq<string>)
    modifies disk, net
    ensures Lists(db.kv, servers)
    ensures Consistent(db.kv) ==> servers == Registry(db.kv)
    ensures (forall i :: 0 <= i < |names| ==> names[i] in servers) && Distinct(names)
    ensures var r := SyncAll(World(old(disk.fs), old(net.remotes)), SettingsOf(g), h, Pick(servers, names));
            && (st.Running? ==> (forall n :: n in servers ==> n in names) && r == Ok(World(disk.fs, net.remotes)))
            && (st.Exited? ==> r == Err(st.error))
  {
    hide Lists, Registry, Consistent, SyncAll, Pick, Distinct;
    var listed := ListServers(db);
    servers := listed;
    st, names := SyncEach(listed, g, disk, net, h);
  }

  /** The loop of `syncServers`: the servers of `listed`, each once, in some order. */
  method SyncEach(listed: map<string, Record>, g: Globals, disk: Disk, net: Network, h: Hooks)
    returns (st: Status, ghost names: seq<string>)
    modifies disk, net
    ensures (forall i :: 0 <= i < |names| ==> names[i] in listed) && Distinct(names)
    ensures var r := SyncAll(World(old(disk.fs), old(net.remotes)), SettingsOf(g), h, Pick(listed, names));
            && (st.Running? ==> (forall n :: n in listed ==> n in names) && r == Ok(World(disk.fs, net.remotes)))
            && (st.Exited? ==> r == Err(st.error))
  {
    hide *;
    names := [];
    ghost var w0 := World(disk.fs, net.remotes);
    var pending := listed.Keys;
    SweptStart(listed, w0, SettingsOf(g), h);
    st := Running;
    while pending != {}
      invariant Swept(listed, pending, names, w0, SettingsOf(g), h, World(disk.fs, net.remotes))
      invariant st.Running?
      decreases |pending|
    {
      var n :| n in pending;
      ghost var w := World(disk.fs, net.remotes);
      SweptStep(listed, pending, names, w0, SettingsOf(g), h, w, n);
      st := SyncServer(listed[n], g, disk, net, h);
      names := names + [n];
      pending := pending - {n};
      if st.Exited? {
        return;
      }
    }
    SweptDone(listed, pending, names, w0, SettingsOf(g), h, World(disk.fs, net.remotes));
  }

  /** The loop of `syncServers` part way: `names` have been synchronised, in that order,
      taking the world from `w0` to `w`, and `pending` are still to go. */
  ghost predicate Swept(listed: map<string, Record>, pending: set<string>, names: seq<string>,
                        w0: World, s: Settings, h: Hooks, w: World)
  {
    && Visiting(listed, pending, names)
    && (forall i :: 0 <= i < |names| ==> names[i] in listed)
    && SyncAll(w0, s, h, Pick(listed, names)) == Ok(w)
  }

  lemma SweptStart(listed: map<string, Record>, w0: World, s: Settings, h: Hooks)
    ensures Swept(listed, listed.Keys, [], w0, s, h, w0)
  {
  }

  /** One more server synchronised: the sweep goes on, or ends with that server's error. */
  lemma SweptStep(listed: map<string, Record>, pending: set<string>, names: seq<string>,
                  w0: World, s: Settings, h: Hooks, w: World, n: string)
    requires Swept(listed, pending, names, w0, s, h, w) && n in pending
    ensures n in listed
    ensures var r := SyncedOne(w, s, h, listed[n]);
            && (r.Ok? ==> Swept(listed, pending - {n}, names + [n], w0, s, h, r.value))
            && (r.Err? ==> (forall i :: 0 <= i < |names + [n]| ==> (names + [n])[i] in listed)
                           && Distinct(names + [n])
                           && SyncAll(w0, s, h, Pick(listed, names + [n])) == Err(r.error))
  {
    hide SyncedOne;
    VisitingStep(listed, pending, names, n);
    PickSnoc(listed, names, n);
    SyncAllSnoc(w0, s, h, Pick(listed, names), listed[n]);
    assert Visiting(listed, pending - {n}, names + [n]);
  }

  /** Nothing left to visit: every listed server has been synchronised, once. */
  lemma SweptDone(listed: map<string, Record>, pending: set<string>, names: seq<string>,
                  w0: World, s: Settings, h: Hooks, w: World)
    requires Swept(listed, pending, names, w0, s, h, w) && pending == {}
    ensures (forall i :: 0 <= i < |names| ==> names[i] in listed) && Distinct(names)
    ensures (forall n :: n in listed ==> n in names) && SyncAll(w0, s, h, Pick(listed, names)) == Ok(w)
  {
  }

  /** The loop of `syncServers` part way: the servers visited, in order and each once,
      and the servers still to visit make up the listing. */
  ghost predicate Visiting(listed: map<string, Record>, pending: set<string>, names: seq<string>)
  {
    && pending <= listed.Keys
    && (forall x :: x in names ==> x in listed && x !in pending)
    && (forall x :: x in listed ==> x in pending || x in names)
    && Distinct(names)
  }

  lemma VisitingStep(listed: map<string, Record>, pending: set<string>, names: seq<string>, n: string)
    requires Visiting(listed, pending, names) && n in pending
    ensures Visiting(listed, pending - {n}, names + [n]) && n in listed
  {
    assert forall i :: 0 <= i < |names| ==> names[i] in names;
  }

  // ---------------------------------------------------------------- addServer

  /** The registry and the world after a command. */
  datatype Registered = Registered(world: World, kv: map<Bytes, Bytes>)

  /** `addServer` once the local server `name` and the URL are chosen; `confirm` is the
      answer to the question asked when the pull brings content. */
  function Added(w: World, kv: map<Bytes, Bytes>, s: Settings, name: string, url: string, confirm: string)
    : Result<Registered, Error>
  {
    var pulled := PullStep(w, ServerPath(s.serversPath, name), url);
    if pulled.Err? then Err(pulled.error)
    else if pulled.value.1 && TrimSpace(ToLower(confirm)) != "y" then Ok(Registered(World(pulled.value.0, w.remotes), kv))
    else Registering(World(pulled.value.0, w.remotes), kv, s, name, url)
  }

  /** The part of `addServer` after the pull: the local content copied in, the manifest
      updated, commit and push, and the record saved. */
  function Registering(w: World, kv: map<Bytes, Bytes>, s: Settings, name: string, url: string)
    : Result<Registered, Error>
  {
    var sp := ServerPath(s.serversPath, name);
    var up := CopyUp(w.fs, s.dataPath, sp, name);
    if up.Err? then Err(up.error)
    else
      var a := Announced(World(up.value, w.remotes), s, sp);
      if a.Err? then Err(a.error) else Ok(Registered(a.value, kv[Key(name) := EncodeRecord(Record(name, url))]))
  }

  /** When the pull brings content and the answer is not "y", nothing is copied, pushed
      or saved. */
  lemma AddAbortKeepsRegistry(w: World, kv: map<Bytes, Bytes>, s: Settings, name: string, url: string, confirm: string)
    requires PullStep(w, ServerPath(s.serversPath, name), url).Ok?
    requires PullStep(w, ServerPath(s.serversPath, name), url).value.1 && TrimSpace(ToLower(confirm)) != "y"
    ensures Added(w, kv, s, name, url, confirm).Ok?
    ensures Added(w, kv, s, name, url, confirm).value.kv == kv
    ensures Added(w, kv, s, name, url, confirm).value.world.remotes == w.remotes
  {
  }

  /** Otherwise, an added server is saved, loads back with its name and URL, and the
      remote holds a manifest naming the player. */
  lemma AddedRegisters(w: World, kv: map<Bytes, Bytes>, s: Settings, name: string, url: string, confirm: string)
    requires Added(w, kv, s, name, url, confirm).Ok?
    requires !PullStep(w, ServerPath(s.serversPath, name), url).value.1 || TrimSpace(ToLower(confirm)) == "y"
    requires Nameable(s.steamID)
    ensures LoadRecord(Added(w, kv, s, name, url, confirm).value.kv, name) == Ok(Record(name, url))
    ensures var sp := ServerPath(s.serversPath, name);
            var up := CopyUp(PullStep(w, sp, url).value.0, s.dataPath, sp, name).value;
            var f := PlayersUpdate(up, Join(sp, PlayersFileName), s.steamID).value;
            var tip := Tip(Added(w, kv, s, name, url, confirm).value.world.remotes[OriginURL(f.repos[sp])]);
            [PlayersFileName] in tip && Listed(tip[[PlayersFileName]], s.steamID)
  {
    var sp := ServerPath(s.serversPath, name);
    var up := CopyUp(PullStep(w, sp, url).value.0, s.dataPath, sp, name).value;
    LoadAfterSave(kv, Record(name, url));
    AnnouncedListsPlayer(World(up, w.remotes), s, sp);
  }

  /** The part of `addServer` after the URL is read. */
  method AddSynced(name: string, url: string, g: Globals, db: Db, disk: Disk, net: Network, con: Console)
    returns (st: Status)
    modifies disk, net, db, con
    ensures var r := Added(World(old(disk.fs), old(net.remotes)), old(db.kv), SettingsOf(g), name, url, Answer(old(con.lines), 0));
            && (st.Running? <==> r.Ok?)
            && (r.Err? ==> st == Exited(r.error))
            && (r.Ok? ==> World(disk.fs, net.remotes) == r.value.world && db.kv == r.value.kv)
  {
    hide Added, PullStep, Registering, TrimSpace, ToLower, Normalize, ServerPath;
    ghost var w := World(disk.fs, net.remotes);
    ghost var lines := con.lines;
    var ss := new SyncedServer(name, url);
    var changes;
    changes, st := AddPull(ss, g, disk, net);
    AddedSteps(w, db.kv, SettingsOf(g), name, url, Answer(lines, 0));
    if st.Exited? { return; }
    if changes {
      var answer := Ask(con, lines, 0);
      if TrimSpace(ToLower(answer)) != "y" {
        return Running;
      }
    }
    st := AddRegister(ss, g, db, disk, net);
  }

  /** `Added` in its three outcomes. */
  lemma AddedSteps(w: World, kv: map<Bytes, Bytes>, s: Settings, name: string, url: string, confirm: string)
    ensures var pulled := PullStep(w, ServerPath(s.serversPath, name), url);
            && (pulled.Err? ==> Added(w, kv, s, name, url, confirm) == Err(pulled.error))
            && (pulled.Ok? && pulled.value.1 && TrimSpace(ToLower(confirm)) != "y" ==>
                  Added(w, kv, s, name, url, confirm) == Ok(Registered(World(pulled.value.0, w.remotes), kv)))
            && (pulled.Ok? && !(pulled.value.1 && TrimSpace(ToLower(confirm)) != "y") ==>
                  Added(w, kv, s, name, url, confirm) == Registering(World(pulled.value.0, w.remotes), kv, s, name, url))
  {
    hide PullStep, Registering, TrimSpace, ToLower;
  }

  /** `InitGit` then `Pull`, on a server object without a handle. */
  method AddPull(ss: SyncedServer, g: Globals, disk: Disk, net: Network) returns (changes: bool, st: Status)
    modifies ss, disk
    requires ss.repo == None
    ensures ss.name == old(ss.name) && ss.gitURL == old(ss.gitURL)
    ensures var p := PullStep(World(old(disk.fs), net.remotes), ServerPath(g.serversPath, ss.name), ss.gitURL);
            && (st.Running? <==> p.Ok?)
            && (p.Err? ==> st == Exited(p.error))
            && (p.Ok? ==> disk.fs == p.value.0 && changes == p.value.1 && ss.repo == Some(ServerPath(g.serversPath, ss.name)))
  {
    hide Git.Pull, ServerGit.OpenOrInit, ServerPath;
    st := ServerGit.InitGit(ss, g, disk);
    if st.Exited? { return false, st; }
    changes, st := ServerGit.Pull(ss, g, disk, net);
  }

  /** The steps of `Registering` on a server object whose handle is open. */
  method AddRegister(ss: SyncedServer, g: Globals, db: Db, disk: Disk, net: Network) returns (st: Status)
    modifies ss, disk, net, db
    requires ss.repo == Some(ServerPath(g.serversPath, ss.name))
    ensures ss.name == old(ss.name) && ss.gitURL == old(ss.gitURL)
    ensures var r := Registering(World(old(disk.fs), old(net.remotes)), old(db.kv), SettingsOf(g), ss.name, ss.gitURL);
            && (st.Running? <==> r.Ok?)
            && (r.Err? ==> st == Exited(r.error))
            && (r.Ok? ==> World(disk.fs, net.remotes) == r.value.world && db.kv == r.value.kv)
  {
    hide Registering, CopyUp, Announced, Key, EncodeRecord;
    ghost var w := World(disk.fs, net.remotes);
    RegisteringSteps(w, db.kv, SettingsOf(g), ss.name, ss.gitURL);
    st := ss.CopyLocalServerToSynced(g, disk);
    if st.Exited? { return; }
    st := Announce(ss, g, disk, net);
    if st.Exited? { return; }
    ss.Save(db);
  }

  /** `Registering` in its three outcomes. */
  lemma RegisteringSteps(w: World, kv: map<Bytes, Bytes>, s: Settings, name: string, url: string)
    ensures var sp := ServerPath(s.serversPath, name);
            var up := CopyUp(w.fs, s.dataPath, sp, name);
            && (up.Err? ==> Registering(w, kv, s, name, url) == Err(up.error))
            && (up.Ok? ==> var a := Announced(World(up.value, w.remotes), s, sp);
                  && (a.Err? ==> Registering(w, kv, s, name, url) == Err(a.error))
                  && (a.Ok? ==> Registering(w, kv, s, name, url)
                                == Ok(Registered(a.value, kv[Key(name) := EncodeRecord(Record(name, url))]))))
  {
    hide CopyUp, Announced, Key, EncodeRecord, ServerPath;
  }

  /** `UpdatePlayersFile` then `CommitAndPush`, on a server object whose handle is open. */
  method Announce(ss: SyncedServer, g: Globals, disk: Disk, net: Network) returns (st: Status)
    modifies ss, disk, net
    requires ss.repo == Some(ServerPath(g.serversPath, ss.name))
    ensures ss.name == old(ss.name) && ss.gitURL == old(ss.gitURL)
    ensures var r := Announced(World(old(disk.fs), old(net.remotes)), SettingsOf(g), ServerPath(g.serversPath, ss.name));
            && (st.Running? <==> r.Ok?)
            && (r.Err? ==> st == Exited(r.error))
            && (r.Ok? ==> World(disk.fs, net.remotes) == r.value)
  {
    hide PlayersUpdate, ServerGit.Published, ServerPath, Join;
    st := ss.UpdatePlayersFile(g, disk);
    if st.Exited? { return; }
    st := ServerGit.CommitAndPush(ss, g, disk, net);
  }

  /** `addServer`: a local server is chosen by its index, asked for again until the
      answer is an index of the list; then the URL is read and the server added. */
  method AddServer(g: Globals, db: Db, disk: Disk, net: Network, con: Console) returns (st: Status)
    modifies disk, net, db, con
    ensures var servers := ServersOf(Walk(old(disk.fs), ServerConfigDir(g.dataPath)));
            var lines := old(con.lines);
            var i := FirstAccepted(lines, IndexBelow(|servers|));
            && (i == |lines| ==> st == Exited(InputExhausted) && disk.fs == old(disk.fs)
                                 && db.kv == old(db.kv) && net.remotes == old(net.remotes))
            && (i < |lines| ==>
                  var name := servers[Choice(Normalize(lines[i]), |servers|).value].name;
                  var r := Added(World(old(disk.fs), old(net.remotes)), old(db.kv), SettingsOf(g), name,
                                 Answer(lines, i + 1), Answer(lines, i + 2));
                  && (st.Running? <==> r.Ok?)
                  && (r.Err? ==> st == Exited(r.error))
                  && (r.Ok? ==> World(disk.fs, net.remotes) == r.value.world && db.kv == r.value.kv))
  {
    hide Added, Normalize, FirstAccepted, Walk, ServersOf, ServerConfigDir, Choice, Atoi;
    var localServers := GetLocalServers(g, disk);
    ghost var lines := con.lines;
    var answer;
    answer, st := AskUntil(con, IndexBelow(|localServers|));
    if st.Exited? { return; }
    ghost var i := FirstAccepted(lines, IndexBelow(|localServers|));
    var server := localServers[Choice(answer, |localServers|).value];
    var url := con.AskForInput();
    assert url == Answer(lines, i + 1);
    assert Answer(con.lines, 0) == Answer(lines, i + 2);
    st := AddSynced(server.name, url, g, db, disk, net, con);
  }

  // ---------------------------------------------------------------- deleteServer

  /** The order a listing is shown in: every listed name once. */
  predicate Ordering(servers: map<string, Record>, names: seq<string>)
  {
    && |names| == |servers|
    && (forall i :: 0 <= i < |names| ==> names[i] in servers)
    && (forall n :: n in servers ==> n in names)
    && Distinct(names)
  }

  /** The loop of `deleteServer` that numbers the servers, in the map's (unspecified) order. */
  method ListOrder(servers: map<string, Record>) returns (names: seq<string>)
    ensures Ordering(servers, names)
  {
    names := [];
    var pending := servers.Keys;
    while pending != {}
      invariant pending <= servers.Keys
      invariant forall i :: 0 <= i < |names| ==> names[i] in servers && names[i] !in pending
      invariant forall n :: n in servers ==> n in pending || n in names
      invariant Distinct(names)
      invariant |names| + |pending| == |servers|
      decreases |pending|
    {
      var n :| n in pending;
      names := names + [n];
      pending := pending - {n};
    }
  }

  /** `deleteServer`: nothing to delete leaves the registry alone; otherwise the servers
      are numbered and an answer that is not an index of the list starts the command
      again; a valid index deletes that server's key and no other. */
  method DeleteServer(db: Db, con: Console) returns (st: Status, ghost servers: map<string, Record>, ghost names: seq<string>)
    modifies db, con
    decreases |con.lines|
    ensures Lists(old(db.kv), servers)
    ensures Consistent(old(db.kv)) ==> servers == Registry(old(db.kv))
    ensures servers == map[] ==> st == Running && db.kv == old(db.kv) && con.lines == old(con.lines)
    ensures servers != map[] ==> Deleted(old(db.kv), old(con.lines), servers, names, st, db.kv, con.lines)
  {
    hide Normalize, Choice, Atoi, Lists, Registry, Consistent, Key, DecodeRecord, IsServerKey, Deleted, FirstAccepted;
    var listed := ListServers(db);
    servers := listed;
    if |listed| == 0 {
      return Running, servers, [];
    }
    var order := ListOrder(listed);
    names := order;
    if con.lines == [] {
      DeletedExhausted(db.kv, listed, order);
      return Exited(InputExhausted), servers, names;
    }
    ghost var lines := con.lines;
    var answer := con.AskForInput();
    var choice := Choice(answer, |listed|);
    if choice.None? {
      st, servers, names := DeleteServer(db, con);
      ListingsShareNames(old(db.kv), listed, servers);
      DeletedRetry(old(db.kv), lines, servers, names, st, db.kv, con.lines);
      return;
    }
    var picked := listed[order[choice.value]];
    var ss := new SyncedServer(picked.name, picked.gitURL);
    ss.Delete(db);
    st := Running;
    DeletedChosen(old(db.kv), lines, listed, order);
  }

  /** The outcome of `deleteServer` on a non-empty listing `servers`, numbered in the
      order `names`: the first answer that is an index of the list deletes the key of
      the server it names, and no other key, and leaves the lines after it unread; at
      the end of input the registry is as it was. */
  ghost predicate Deleted(kv0: map<Bytes, Bytes>, lines0: seq<string>, servers: map<string, Record>, names: seq<string>,
                          st: Status, kv: map<Bytes, Bytes>, lines: seq<string>)
  {
    && Ordering(servers, names)
    && var i := FirstAccepted(lines0, IndexBelow(|servers|));
       && (st.Running? <==> i < |lines0|)
       && (st.Exited? ==> st == Exited(InputExhausted) && kv == kv0)
       && (st.Running? ==>
             kv == kv0 - {Key(names[Choice(Normalize(lines0[i]), |servers|).value])}
             && lines == lines0[i + 1..])
  }

  lemma DeletedExhausted(kv0: map<Bytes, Bytes>, servers: map<string, Record>, names: seq<string>)
    requires Ordering(servers, names)
    ensures Deleted(kv0, [], servers, names, Exited(InputExhausted), kv0, [])
  {
  }

  lemma DeletedRetry(kv0: map<Bytes, Bytes>, lines0: seq<string>, servers: map<string, Record>, names: seq<string>,
                     st: Status, kv: map<Bytes, Bytes>, lines: seq<string>)
    requires lines0 != [] && !Accepts(IndexBelow(|servers|), Normalize(lines0[0]))
    requires Deleted(kv0, lines0[1..], servers, names, st, kv, lines)
    ensures Deleted(kv0, lines0, servers, names, st, kv, lines)
  {
    hide Key, Choice, Normalize, Accepts, FirstAccepted, Ordering;
    AskAgainShifts(lines0, |servers|);
  }

  lemma DeletedChosen(kv0: map<Bytes, Bytes>, lines0: seq<string>, servers: map<string, Record>, names: seq<string>)
    requires Ordering(servers, names)
    requires lines0 != [] && Choice(Normalize(lines0[0]), |servers|).Some?
    ensures Deleted(kv0, lines0, servers, names, Running,
                    kv0 - {Key(names[Choice(Normalize(lines0[0]), |servers|).value])}, lines0[1..])
  {
    hide Key, Choice, Normalize;
  }

  /** A refused first answer moves the first accepted one a line further on. */
  lemma AskAgainShifts(lines: seq<string>, count: nat)
    requires lines != [] && !Accepts(IndexBelow(count), Normalize(lines[0]))
    ensures var i := FirstAccepted(lines, IndexBelow(count));
            var t := FirstAccepted(lines[1..], IndexBelow(count));
            && i == t + 1
            && (t < |lines[1..]| ==> lines[1..][t] == lines[i] && lines[1..][t + 1..] == lines[i + 1..])
  {
    hide Normalize, Accepts;
  }

  /** Deleting a listed server of a consistent registry takes it, and only it, off the
      registry. */
  lemma DeleteTakesOffRegistry(kv: map<Bytes, Bytes>, names: seq<string>, answer: string)
    requires Consistent(kv) && Ordering(Registry(kv), names)
    requires Choice(answer, |Registry(kv)|).Some?
    ensures Registry(kv - {Key(names[Choice(answer, |Registry(kv)|).value])})
              == Registry(kv) - {names[Choice(answer, |Registry(kv)|).value]}
  {
    DeleteUpdatesRegistry(kv, names[Choice(answer, |Registry(kv)|).value]);
  }

  // ---------------------------------------------------------------- cloneServer

  /** `cloneServer` once the URL is read: the clone, on a server object without a name;
      then the manifest updated, commit and push, and the record saved. */
  function ClonedServer(w: World, kv: map<Bytes, Bytes>, s: Settings, url: string)
    : Result<(Registered, string), Error>
  {
    var c := ServerGit.Cloned(w.fs, s.serversPath, url, "", w.remotes);
    if c.Err? then Err(c.error)
    else
      var name := c.value.1;
      var a := Announced(World(c.value.0, w.remotes), s, ServerPath(s.serversPath, name));
      if a.Err? then Err(a.error)
      else Ok((Registered(a.value, kv[Key(name) := EncodeRecord(Record(name, url))]), name))
  }

  /** `ClonedServer` in its three outcomes. */
  lemma ClonedSteps(w: World, kv: map<Bytes, Bytes>, s: Settings, url: string)
    ensures var c := ServerGit.Cloned(w.fs, s.serversPath, url, "", w.remotes);
            && (c.Err? ==> ClonedServer(w, kv, s, url) == Err(c.error))
            && (c.Ok? ==> var a := Announced(World(c.value.0, w.remotes), s, ServerPath(s.serversPath, c.value.1));
                  && (a.Err? ==> ClonedServer(w, kv, s, url) == Err(a.error))
                  && (a.Ok? ==> ClonedServer(w, kv, s, url)
                                == Ok((Registered(a.value, kv[Key(c.value.1) := EncodeRecord(Record(c.value.1, url))]), c.value.1))))
  {
    hide ServerGit.Cloned, Announced, Key, EncodeRecord, ServerPath;
  }

  /** A cloned server has a name, loads back with that name and the URL, and the remote
      holds a manifest naming the player. */
  lemma ClonedServerRegisters(w: World, kv: map<Bytes, Bytes>, s: Settings, url: string)
    requires ClonedServer(w, kv, s, url).Ok? && Nameable(s.steamID)
    requires IsComponent(BaseOf(url))
    ensures var (r, name) := ClonedServer(w, kv, s, url).value;
            && name != ""
            && LoadRecord(r.kv, name) == Ok(Record(name, url))
            && var sp := ServerPath(s.serversPath, name);
               var f := PlayersUpdate(ServerGit.Cloned(w.fs, s.serversPath, url, "", w.remotes).value.0,
                                      Join(sp, PlayersFileName), s.steamID).value;
               var tip := Tip(r.world.remotes[OriginURL(f.repos[sp])]);
               [PlayersFileName] in tip && Listed(tip[[PlayersFileName]], s.steamID)
  {
    hide ClonedServer, ServerGit.Cloned, Announced, Key, EncodeRecord, LoadRecord, PlayersUpdate;
    ClonedSteps(w, kv, s, url);
    ServerGit.ClonedNamed(w.fs, s.serversPath, url, w.remotes);
    var c := ServerGit.Cloned(w.fs, s.serversPath, url, "", w.remotes).value;
    LoadAfterSave(kv, Record(c.1, url));
    AnnouncedListsPlayer(World(c.0, w.remotes), s, ServerPath(s.serversPath, c.1));
  }

  /** A clone registers exactly the cloned server: a consistent registry is the one it
      was with that server's record, under its name, added or replaced. */
  lemma ClonedServerRegistry(w: World, kv: map<Bytes, Bytes>, s: Settings, url: string)
    requires ClonedServer(w, kv, s, url).Ok? && Consistent(kv)
    ensures var (r, name) := ClonedServer(w, kv, s, url).value;
            && Consistent(r.kv)
            && Registry(r.kv) == Registry(kv)[name := Record(name, url)]
  {
    hide ClonedServer, ServerGit.Cloned, Announced, Key, EncodeRecord, Registry, Consistent;
    ClonedSteps(w, kv, s, url);
    var c := ServerGit.Cloned(w.fs, s.serversPath, url, "", w.remotes).value;
    SaveUpdatesRegistry(kv, Record(c.1, url));
  }

  /** `cloneServer`. */
  method CloneServer(g: Globals, db: Db, disk: Disk, net: Network, con: Console) returns (st: Status)
    modifies disk, net, db, con
    ensures con.lines == Rest(old(con.lines), 1)
    ensures var r := ClonedServer(World(old(disk.fs), old(net.remotes)), old(db.kv), SettingsOf(g), Answer(old(con.lines), 0));
            && (st.Running? <==> r.Ok?)
            && (r.Err? ==> st == Exited(r.error))
            && (r.Ok? ==> World(disk.fs, net.remotes) == r.value.0.world && db.kv == r.value.0.kv)
  {
    hide *;
    ghost var lines := con.lines;
    RestNone(lines);
    var url := Ask(con, lines, 0);
    st := CloneFrom(url, g, db, disk, net);
  }

  /** `cloneServer` once the URL is read. */
  method CloneFrom(url: string, g: Globals, db: Db, disk: Disk, net: Network) returns (st: Status)
    modifies disk, net, db
    ensures var r := ClonedServer(World(old(disk.fs), old(net.remotes)), old(db.kv), SettingsOf(g), url);
            && (st.Running? <==> r.Ok?)
            && (r.Err? ==> st == Exited(r.error))
            && (r.Ok? ==> World(disk.fs, net.remotes) == r.value.0.world && db.kv == r.value.0.kv)
  {
    hide *;
    SettingsOfFields(g);
    ClonedSteps(World(disk.fs, net.remotes), db.kv, SettingsOf(g), url);
    var ss := new SyncedServer("", url);
    st := ServerGit.Clone(ss, g, disk, net, db);
    if st.Exited? { return; }
    st := Announce(ss, g, disk, net);
    if st.Exited? { return; }
    ss.Save(db);
    SaveTwice(old(db.kv), Key(ss.name), EncodeRecord(Record(ss.name, ss.gitURL)));
  }

  /** Saving a record already saved changes nothing. */
  lemma SaveTwice(kv: map<Bytes, Bytes>, k: Bytes, v: Bytes)
    ensures kv[k := v][k := v] == kv[k := v]
  {
  }
}
