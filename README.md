# syncedpz: a verified model of the synchronisation core

syncedpz keeps a Project Zomboid multiplayer server's files in a git repository so
that the players of the server can take turns hosting it. It has four parts:

- **The registry.** A small key-value database holds the configuration and the synced
  servers. The configuration is the game's executable and data directories, the steam
  ID, the git credentials and the interface language. Each synced server is stored as
  a record, under the key `server_<name>`.
- **Adding and cloning.** A server is added from the local game data, or cloned from
  its repository. Either way the player's steam ID is written into the server's
  `players.txt` manifest, committed and pushed.
- **Synchronising.** Each registered server is pulled. When the pull brought changes,
  the synced copy is copied down to the game. Otherwise the local copy is copied up,
  committed and pushed. After either branch, the player save folders are updated.
- **The command line.** Commands ask questions on standard input, and their messages
  are translated through a per-language dictionary.

This project states that behaviour in Dafny and proves properties of it. The model is
organised as follows:

- **The process-wide settings.** They are a class `Config.Globals`. The registry is a
  class `Store.Db` over a map from bytes to bytes.
- **The machine.** The file system is a class `Machine.Disk`, and the reachable remote
  repositories are a class `Machine.Network`.
- **Input.** Standard input is a class `Input.Console` holding the lines still to come.
- **Methods.** Each operation that changes state in the source is a method. Its
  contract ties the new state to a specification function of the old state. The
  properties the program promises are lemmas about those functions.
- **Fatal errors.** `log.Fatal` and `utils.HandleErr` end the process. In the model this
  is a `Status` of `Exited(error)`, and the caller stops there. Nothing is rolled back:
  whatever the steps before the failure changed stays changed.
- **Libraries.** The library operations the core relies on are written out as
  functions over abstract state:
  - from Go's standard library: `os.Stat`, `os.MkdirAll`, `os.Rename`, `os.ReadDir`,
    `filepath.Walk`, `strings.TrimSpace`, `strconv.Atoi`, `encoding/binary` and the
    UTF-8 conversion between `string` and `[]byte`;
  - `cp.Copy`;
  - go-git's open, init, clone, pull, fetch, commit, push, status and hard reset.

Modules follow the source: `Commands` is `pkg/cli/commands.go`, and `Input` is
`pkg/cli/input.go`. `SyncedServers`, `ServerGit`, `GitUtils`, `SetupDb` and
`LocalServers` are the files of `pkg/syncedpz`. `Polyglot` is
`config/polyglot_msgs.go`, and `Utils` is `pkg/utils/utils.go`. The library models are
in these modules:
- `Fs` and `Machine`: the file system;
- `Git` and `GitModel`: go-git;
- `Store`: badger;
- `Codec`: the record encoding and `encoding/binary`;
- `Text`, `Utf8`, `Paths` and `Order`: strings, UTF-8, paths and sorting.

Two details of the source decide how it is modelled:
- **Duplicate git methods.** `pkg/syncedpz/synced_server.go` and
  `pkg/syncedpz/synced_server_git.go` both define `InitGit`, `Pull`, `Commit`, `Push`
  and `CommitAndPush`. The model follows the `synced_server_git.go` versions. These use
  pointer receivers, treat an empty remote as "no changes" in `Pull`, and treat an
  empty commit as no error.
- **`syncServers`.** It pulls without calling `InitGit` first. The guard inside `Pull`
  opens the repository.

## Model

| member | source | states |
|---|---|---|
| Utils.HandleErr | pkg/utils/utils.go:47-51 | the process goes on exactly when the error is nil; otherwise it ends with that error |
| Utils.Ensure | pkg/utils/utils.go:12-20 | the file system is unchanged when the path is there or its stat fails for another reason; on success the path is there and nothing that was there changes |
| Utils.EnsureKeeps | pkg/utils/utils.go:12-20 | a path that existed before `EnsureDir` of another path still exists |
| Utils.EnsureIdempotent | pkg/utils/utils.go:12-20 | a second `EnsureDir` of the same path changes nothing |
| Utils.EnsureDir | pkg/utils/utils.go:12-20 | returns true exactly when the stat is not "does not exist"; otherwise it creates the path and its ancestors, and a failure ends the process; on success the path exists |
| Input.StripLineBreaks | pkg/cli/input.go:16-17 | the result has no `\r` and no `\n`; a line without them is unchanged |
| Input.Normalize | pkg/cli/input.go:16-18 | the answer has no `\r`, no `\n`, and no white space at either end |
| Input.NormalizeKeepsOrder | pkg/cli/input.go:16-19 | the answer is a contiguous slice of the line without its line breaks, with only white space cut off on either side, so the other characters keep their order |
| Input.NormalizeIdempotent | pkg/cli/input.go:16-19 | normalising an answer again changes nothing |
| Input.Console.constructor | pkg/cli/input.go:14 | standard input holds the given lines |
| Input.Console.AskForInput | pkg/cli/input.go:10-20 | consumes one line and returns its normalised form; at end of input the answer is empty |
| Polyglot.Messages.constructor | config/polyglot_msgs.go:5-97 | after package initialisation the dictionary has exactly one language, pt-BR, holding the registered translations |
| Polyglot.Messages.GetTranslatedMsg | config/polyglot_msgs.go:8-34 | an invalid language counts as English, and English is the identity; a valid language without a dictionary ends the process with the message "Language not found"; a missing message is returned unchanged, and a present one is translated |
| Polyglot.PortugueseAfterInit | config/polyglot_msgs.go:13-33 | after initialisation a pt-BR lookup gives the registered translation or the message itself, and an invalid language gives the message itself |
| Config.Globals.constructor | config/syncedpz.go:9-14 | the zero values of the settings, with the servers directory set |
| Config.ToPath | pkg/syncedpz/setup_db.go:42 | a path string as a cleaned path: every component is a proper name (no `.`, `..` or empty component) |
| Store.Db.constructor | config/badger.go:37-41 | the opened database holds the given map |
| Store.Db.Get | pkg/syncedpz/setup_db.go:17-19 | a present key gives its value; an absent key gives the not-found error for that key |
| Store.Db.Set | pkg/syncedpz/synced_server.go:68-73 | one update transaction writes the key, and no other key changes |
| Store.Db.SetPair | pkg/syncedpz/setup_db.go:59-66 | both keys are written in one transaction, and no other key changes |
| Store.Db.Delete | pkg/syncedpz/synced_server.go:76-81 | exactly the key is removed; an absent key is no error |
| SetupDb.KeysDiffer | pkg/syncedpz/setup_db.go:17-166 | the six configuration keys are pairwise different, so no write of one clobbers another |
| SetupDb.MissingDir | pkg/syncedpz/setup_db.go:42-47 | the directory check fails exactly when the path is empty or the stat says "does not exist"; the empty path never exists, as `os.Stat("")` fails |
| SetupDb.LoadPzDirs | pkg/syncedpz/setup_db.go:15-49 | an absent key is an error; the exe path is assigned before the data key is read, so a missing data key leaves a partial update; both paths must exist, so a stored empty path is an error and a load without error holds two non-empty paths |
| SetupDb.SetupPzDirs | pkg/syncedpz/setup_db.go:51-70 | goes on exactly when both paths exist, so an empty path ends the process; nothing is written otherwise; on success both keys are written together and the settings hold both paths, neither empty |
| SetupDb.LoadSteamID | pkg/syncedpz/setup_db.go:72-92 | an absent key is an error and leaves the ID alone; otherwise the stored ID is assigned, and it is an error exactly when empty |
| SetupDb.SetupSteamId | pkg/syncedpz/setup_db.go:94-106 | goes on exactly when the ID is non-empty; nothing is written otherwise; on success the key holds the ID and the ID loads back unchanged |
| SetupDb.LoadGitAuth | pkg/syncedpz/setup_db.go:108-144 | succeeds exactly when both keys are present and both values non-empty; only then is the basic auth assigned, holding both values |
| SetupDb.SetupGitAuth | pkg/syncedpz/setup_db.go:146-162 | goes on exactly when both fields are non-empty; nothing is written otherwise; on success both keys are written together and the auth holds both fields |
| SetupDb.LoadLanguage | pkg/syncedpz/setup_db.go:164-184 | an absent key is an error; fewer than four bytes panics; otherwise the big-endian value is assigned, and it is an error exactly when the language is invalid |
| SetupDb.LanguageRoundTrip | pkg/syncedpz/setup_db.go:172-193 | a valid language stored as four big-endian bytes reads back as itself |
| SetupDb.SetupLanguage | pkg/syncedpz/setup_db.go:186-200 | goes on exactly when the language is valid; nothing is written otherwise; on success the key holds its four bytes and the setting equals the language |
| Codec.ToUint32 | pkg/syncedpz/setup_db.go:193 | `uint32(x)` is `x` modulo 2^32 |
| Codec.PutUint32 | pkg/syncedpz/setup_db.go:192-193 | four bytes, most significant first |
| Codec.Uint32 | pkg/syncedpz/setup_db.go:172 | the value of the first four bytes read big-endian |
| Codec.Uint32OfPutUint32 | pkg/syncedpz/setup_db.go:172-193 | reading the four bytes back gives every 32-bit value exactly |
| Codec.IntRoundTrip | pkg/syncedpz/setup_db.go:172-193 | storing and reading back an `int` gives it back exactly when it fits in 32 unsigned bits, and modulo 2^32 always |
| Codec.Uvarint | pkg/syncedpz/synced_server.go:59-65 | the length prefix of the record encoding: all bytes but the last have the high bit set |
| Codec.ReadUvarint | pkg/syncedpz/synced_server.go:45-46 | a successful read takes a non-empty prefix of the input |
| Codec.ReadUvarintOfUvarint | pkg/syncedpz/synced_server.go:45-65 | reading the varint of `n` back gives `n`, whatever follows |
| Codec.DecodeField | pkg/syncedpz/synced_server.go:45-46 | a successful read stays in the input |
| Codec.DecodeFieldOfEncodeField | pkg/syncedpz/synced_server.go:45-65 | an encoded string field decodes to the string, whatever follows |
| Codec.DecodeEncodeRecord | pkg/syncedpz/synced_server.go:37-65 | a serialised record decodes to the same name and URL |
| SyncedServers.KeyShape | pkg/syncedpz/synced_server.go:54-56 | a server key starts with the bytes of `server_`, followed by the bytes of the name |
| SyncedServers.KeyIsEncoding | pkg/syncedpz/synced_server.go:54-56 | the key is the UTF-8 of `"server_" + name` |
| SyncedServers.KeyInjective | pkg/syncedpz/synced_server.go:54-56 | different names have different keys |
| SyncedServers.NotServerKey | pkg/syncedpz/synced_server.go:265 | the configuration keys are not seen by the prefix scan for servers |
| SyncedServers.Registry | pkg/syncedpz/synced_server.go:256-288 | the servers of a consistent registry, by name, are exactly those stored under a server key |
| SyncedServers.LoadRecord | pkg/syncedpz/synced_server.go:37-51 | an absent key gives the not-found error; a present one gives the decoded record |
| SyncedServers.LoadAfterSave | pkg/syncedpz/synced_server.go:37-73 | loading a name right after saving its record gives the same name and URL back |
| SyncedServers.LoadIsListed | pkg/syncedpz/synced_server.go:37-51 | in a consistent registry a name loads exactly when the listing has it, and gives the listed record |
| SyncedServers.SaveUpdatesRegistry | pkg/syncedpz/synced_server.go:68-73 | `Save` keeps the registry consistent and sets exactly the record's name, overwriting an earlier record of that name |
| SyncedServers.SaveKeepsConsistent | pkg/syncedpz/synced_server.go:68-73 | a saved record keeps every server key holding its own server's record |
| SyncedServers.DeleteKeepsConsistent | pkg/syncedpz/synced_server.go:76-81 | removing a key keeps the registry consistent |
| SyncedServers.DeleteKeepsNames | pkg/syncedpz/synced_server.go:76-81 | after `Delete` the listed names are those listed before, less the deleted one |
| SyncedServers.DeleteUpdatesRegistry | pkg/syncedpz/synced_server.go:76-81 | `Delete` removes exactly the entry of the name from the registry |
| SyncedServers.OtherKeysIgnored | pkg/syncedpz/synced_server.go:265 | writing a non-server key leaves the registry's servers unchanged |
| SyncedServers.ServerPath | pkg/syncedpz/synced_server.go:92-94 | the server's directory is its name, one level below the servers directory |
| SyncedServers.EnsuredDirsPresent | pkg/syncedpz/synced_server.go:84-89 | after `EnsureDirs` the server's directory exists, and so do its `config` and `save` |
| SyncedServers.EnsuredDirsIdempotent | pkg/syncedpz/synced_server.go:84-89 | when the three directories are already there, nothing changes |
| SyncedServers.ConfigSelected | pkg/syncedpz/synced_server.go:103-113 | the visits the config copy acts on are exactly the errors and the files whose base name starts with the server's name |
| SyncedServers.ConfigCopiesOnlySelected | pkg/syncedpz/synced_server.go:103-114 | the config copy depends only on those selected visits |
| SyncedServers.ConfigCopiesKeep | pkg/syncedpz/synced_server.go:103-114 | the config copy deletes nothing |
| SyncedServers.ConfigCopiesArrive | pkg/syncedpz/synced_server.go:109-111 | each selected config file visited is at `config/<its base name>` afterwards (a later file with the same base name may overwrite its contents) |
| SyncedServers.SaveCopiesKeep | pkg/syncedpz/synced_server.go:118-133 | the save copy deletes nothing |
| SyncedServers.SaveEntryArrives | pkg/syncedpz/synced_server.go:129 | copying one save entry puts everything below it at the same place below `save/` |
| SyncedServers.SaveCopiesArrive | pkg/syncedpz/synced_server.go:121-133 | everything below a save entry whose name starts with the name (spaces as underscores) and does not end in `_player` is below `save/` afterwards |
| SyncedServers.ReadBack | pkg/syncedpz/synced_server.go:165-173 | a file just written reads back with what was written |
| SyncedServers.ParentDirNotUnderFile | pkg/syncedpz/synced_server.go:139-141 | a file whose parent is a directory has no file among its ancestors |
| SyncedServers.PlayersUpdateNames | pkg/syncedpz/synced_server.go:138-176 | afterwards the manifest names the player on a line of its own and keeps every line it had; a manifest that named the player already is unchanged; a missing one holds just the ID |
| SyncedServers.PlayersUpdateIdempotent | pkg/syncedpz/synced_server.go:138-176 | updating the manifest twice is updating it once |
| SyncedServers.PlayersUpdateAsWrittenRepeats | pkg/syncedpz/synced_server.go:146-167 | as written, on the manifest `a` without a final line break, a second update for `b` appends `b` again, so the update is not idempotent |
| SyncedServers.PlayersUpdateAsWrittenAgrees | pkg/syncedpz/synced_server.go:138-176 | on a manifest that is missing or ends with a line break, the update as the source writes it is the corrected update |
| SyncedServers.PlayersUpdateTerminates | pkg/syncedpz/synced_server.go:138-176 | the update keeps the manifest ending with a line break, so on every manifest the program writes itself a further update as written is the corrected one |
| SyncedServers.SyncedServer.constructor | pkg/syncedpz/synced_server.go:29-34 | a server object with the name and URL and no repository handle |
| SyncedServers.SyncedServer.GetKey | pkg/syncedpz/synced_server.go:54-56 | the key is the server key of the object's name |
| SyncedServers.SyncedServer.Serialize | pkg/syncedpz/synced_server.go:59-65 | the bytes decode back to the object's name and URL; the handle is not stored |
| SyncedServers.SyncedServer.GetServerPath | pkg/syncedpz/synced_server.go:92-94 | the server's directory below the servers directory |
| SyncedServers.SyncedServer.Save | pkg/syncedpz/synced_server.go:68-73 | the registry gets the record under the server's key |
| SyncedServers.SyncedServer.Delete | pkg/syncedpz/synced_server.go:76-81 | the registry loses the server's key, and nothing else |
| SyncedServers.SyncedServer.EnsureDirs | pkg/syncedpz/synced_server.go:84-89 | the three directories are ensured in turn; on success they all exist |
| SyncedServers.SyncedServer.CopyLocalServerToSynced | pkg/syncedpz/synced_server.go:97-134 | the directories are ensured, the selected config files are copied, then the selected save entries; the first failure ends the process |
| SyncedServers.SyncedServer.CopyConfigFiles | pkg/syncedpz/synced_server.go:103-115 | the walk function applied visit by visit gives the config copy |
| SyncedServers.SyncedServer.CopySaveEntries | pkg/syncedpz/synced_server.go:125-133 | the loop over the sorted save entries gives the save copy; a failed copy ends the process |
| SyncedServers.SyncedServer.UpdatePlayersFile | pkg/syncedpz/synced_server.go:138-176 | the manifest is scanned for the ID and the ID appended only when no line names it; a line too long for the scanner before the one naming the ID ends the process with `ErrTooLong`; a missing manifest is created; the effect is the manifest update |
| SyncedServers.FindPlayer | pkg/syncedpz/synced_server.go:146-158 | the scan ends as `ScanFor` says: `ErrTooLong` at a line that does not fit the 64 KiB buffer before a match, otherwise true exactly when some line, once trimmed, equals the ID |
| SyncedServers.OverlongManifestEndsUpdate | pkg/syncedpz/synced_server.go:146-158 | a manifest whose first 65536 bytes hold no line break ends the update (as written and corrected) with `ErrTooLong`, even when a later line names the player |
| SyncedServers.LoadSyncedServer | pkg/syncedpz/synced_server.go:37-51 | the object holds the stored name and URL; a missing key or a record that does not decode ends the process |
| SyncedServers.GetSyncedServers | pkg/syncedpz/synced_server.go:256-288 | one entry per server key, by decoded name; a record that does not decode makes the result empty; of a consistent registry it is the registry |
| SyncedServers.ListedUnderOwnKey | pkg/syncedpz/synced_server.go:265-274 | a record found under a server key of a consistent registry is stored under its own name's key |
| SyncedServers.ListedIsRegistry | pkg/syncedpz/synced_server.go:265-287 | in a consistent registry, the map the scan builds equals the registry |
| LocalServers.StemNameOf | pkg/syncedpz/server.go:24 | the name is the base name cut before its extension, or the parent directory's name when the base name is all extension |
| LocalServers.IniStem | pkg/syncedpz/server.go:22-24 | an `.ini` file's server is its base name without `.ini` |
| LocalServers.ServersOf | pkg/syncedpz/server.go:17-30 | one server per `.ini` path visited, in walk order; nothing from the first walk error on |
| LocalServers.ServersOfStep | pkg/syncedpz/server.go:17-30 | one more visit without error adds exactly what that visit contributes |
| LocalServers.GetLocalServers | pkg/syncedpz/server.go:13-33 | the servers of the walk of the data directory's `Server` folder |
| LocalServers.CollectServers | pkg/syncedpz/server.go:17-30 | the walk function applied visit by visit appends what `ServersOf` lists |
| LocalServers.OtherExtensionsIgnored | pkg/syncedpz/server.go:22 | a path with another extension contributes nothing |
| LocalServers.ServersOfAppend | pkg/syncedpz/server.go:17-30 | the lists of two walk segments concatenate while no error comes between them |
| LocalServers.ServersTruncatedAtError | pkg/syncedpz/server.go:17-32 | a walk error silently cuts the list off: nothing visited after it counts |
| LocalServers.ServersComeFromIniVisits | pkg/syncedpz/server.go:17-27 | every listed server is named after an `.ini` path visited before any error |
| GitUtils.UntrackedPaths | pkg/syncedpz/git_utils.go:13-14 | exactly the status entries whose worktree state is untracked |
| GitUtils.WithoutUntrackedTracked | pkg/syncedpz/git_utils.go:13-18 | once the untracked files are gone, the worktree's files are exactly those the status does not report as untracked, with the same contents |
| GitUtils.RemoveUnstagedFiles | pkg/syncedpz/git_utils.go:9-19 | the worktree is never changed: a status failure ends the process with that error; otherwise the process goes on exactly when nothing is untracked, and ends with `ErrEntryNotFound` when something is |
| GitUtils.RemoveEntries | pkg/syncedpz/git_utils.go:13-18 | `wt.Remove` entry by entry until one fails: it goes on only when every entry is tracked, and then all are gone; with only untracked entries the first call fails and nothing changes; in any case only some of the entries are gone |
| GitUtils.NothingUntracked | pkg/syncedpz/git_utils.go:13-18 | with no untracked entry, removing the untracked files leaves the file system as it was |
| GitUtils.CleanUntracked | pkg/syncedpz/git_utils.go:9-19 | the corrected removal: a status failure ends the process before any deletion; when it goes on, exactly the untracked files are gone; when a deletion fails, only untracked files are gone |
| GitUtils.DeleteFiles | pkg/syncedpz/git_utils.go:13-18 | the corrected loop: the files are deleted one at a time until one cannot be, and only files of the set are gone |
| GitModel.Initial | pkg/syncedpz/synced_server_git.go:26-31 | a fresh repository with no commits and the single remote `origin` holding the URL |
| ServerGit.Settle | pkg/syncedpz/synced_server_git.go:124-153 | a nil error and the tolerated sentinels let the process go on; every other error ends it |
| ServerGit.OpenOrInit | pkg/syncedpz/synced_server_git.go:19-40 | an existing repository is left as it is; where there is none, a fresh one with `origin` is created; any other open failure is fatal |
| ServerGit.OpenOrInitIdempotent | pkg/syncedpz/synced_server_git.go:19-40 | calling `InitGit` again changes nothing |
| ServerGit.Prepared | pkg/syncedpz/synced_server_git.go:92-94 | with a handle, the file system is as it was; without one it is what `InitGit` leaves |
| ServerGit.InitGit | pkg/syncedpz/synced_server_git.go:19-40 | the effect is `OpenOrInit`, and on success the handle is the server's directory |
| ServerGit.OpenRepo | pkg/syncedpz/synced_server_git.go:136-138 | a nil handle is opened first, as the guard of every git operation does |
| ServerGit.RestoredAsWritten | pkg/syncedpz/synced_server_git.go:101-105 | as written: a restore that goes on is exactly the hard reset, and leaves nothing untracked |
| ServerGit.ResetKeepsUntracked | pkg/syncedpz/synced_server_git.go:101-103 | a file the last commit does not track is still in the worktree after the hard reset |
| ServerGit.UntrackedEndsRestore | pkg/syncedpz/synced_server_git.go:101-105 | as written, any worktree file the last commit does not track makes `Restore` end the process with `ErrEntryNotFound` |
| ServerGit.Restored | pkg/syncedpz/synced_server_git.go:101-105 | the corrected restore: the hard reset, then the deletion of what the last commit does not track |
| ServerGit.RestoredAsWrittenAgrees | pkg/syncedpz/synced_server_git.go:101-105 | where the written restore goes on, the corrected one has the same effect |
| ServerGit.ResetWritesTip | pkg/syncedpz/synced_server_git.go:101-104 | after a hard reset every file of the last commit is in the worktree with its committed contents |
| ServerGit.CleanedMatchesTip | pkg/syncedpz/git_utils.go:13-18 | a worktree holding every file of the last commit holds exactly those once the untracked files are gone |
| ServerGit.RestoredMatchesCommit | pkg/syncedpz/synced_server_git.go:98-105 | after the corrected restore the worktree holds exactly the files of the last commit, with their committed contents |
| ServerGit.Restore | pkg/syncedpz/synced_server_git.go:91-108 | the handle opened if nil, then the hard reset and `removeUnstagedFiles` as written; failures end the process, and the worktree is left as the reset made it |
| ServerGit.Fetch | pkg/syncedpz/synced_server_git.go:113-131 | false for "already up to date", true after new commits arrive; every other error, an empty remote included, ends the process |
| ServerGit.Pull | pkg/syncedpz/synced_server_git.go:135-158 | false for "already up to date" and for an empty remote, true after a pull that brought changes; every other error ends the process |
| ServerGit.PullBringsRemote | pkg/syncedpz/synced_server_git.go:145-157 | a pull that reports changes leaves the branch at the remote's history, which extends the local one, and the worktree holding its last commit; pulling again reports none |
| ServerGit.CommitMessage | pkg/syncedpz/synced_server_git.go:173 | the message is `SyncedPZ: synced by ` followed by the steam ID |
| ServerGit.Commit | pkg/syncedpz/synced_server_git.go:160-181 | everything is staged and committed with that message; an empty commit is no error, and any other error ends the process |
| ServerGit.Push | pkg/syncedpz/synced_server_git.go:183-201 | "already up to date" is no error; otherwise the remote takes the local history, and a refusal ends the process |
| ServerGit.Published | pkg/syncedpz/synced_server_git.go:203-206 | commit and then push, when neither fails, leave the remote's last commit recording exactly the worktree |
| ServerGit.CommitAndPush | pkg/syncedpz/synced_server_git.go:203-206 | `Commit` then `Push`; the first fatal error ends the process |
| ServerGit.FirstStop | pkg/syncedpz/synced_server_git.go:60-70 | the walk stops at the first error or `.ini` visit |
| ServerGit.CloneName | pkg/syncedpz/synced_server_git.go:60-73 | the name is the first `.ini` base name less `.ini`, or the name as it was when there is none; an error visit before it is fatal |
| ServerGit.NameFromWalk | pkg/syncedpz/synced_server_git.go:60-73 | the walk function applied visit by visit sets the name as `CloneName` says |
| ServerGit.CloneDir | pkg/syncedpz/synced_server_git.go:45-46 | the clone directory is the URL's base name below the servers directory |
| ServerGit.RenameCarriesClone | pkg/syncedpz/synced_server_git.go:76-78 | renaming the clone keeps its repository and its files |
| ServerGit.SameNameCloneAsWrittenFails | pkg/syncedpz/synced_server_git.go:75-78 | as written, a clone whose `.ini` file is named like the URL's last component is renamed onto itself, which `os.Rename` refuses, so the process ends |
| ServerGit.SameNameCloneStays | pkg/syncedpz/synced_server_git.go:75-82 | with the rename skipped for a clone already in place, such a clone is named and opened where it is, the file system unchanged |
| ServerGit.RelocatedOtherwiseAsWritten | pkg/syncedpz/synced_server_git.go:58-82 | for every other clone the corrected relocation is the one the source writes |
| ServerGit.ClonedInPlace | pkg/syncedpz/synced_server_git.go:42-84 | after a clone the server's directory holds the remote's repository, with its history and `origin`, and a worktree with the files of the remote's last commit |
| ServerGit.NamelessCloneFails | pkg/syncedpz/synced_server_git.go:76-78 | a clone that leaves the name empty is refused, because the rename would target the servers directory, an existing directory |
| ServerGit.ClonedNamed | pkg/syncedpz/synced_server_git.go:45-78 | a clone whose URL ends in a proper path component never ends up without a name |
| ServerGit.CloneRepo | pkg/syncedpz/synced_server_git.go:45-56 | both directories are ensured and the remote is cloned into the clone directory |
| ServerGit.Clone | pkg/syncedpz/synced_server_git.go:42-87 | clone, name from the walk, rename (skipped when the clone is already in place), reopen and save; the effect is the specification of the clone, and the registry gets the named record |
| ServerGit.Relocate | pkg/syncedpz/synced_server_git.go:58-82 | the server is named, its directory moved into place unless already there, and opened there; a rename onto an existing directory ends the process |
| Commands.Choice | pkg/cli/commands.go:194-195 | an answer selects an index exactly when it parses to an integer in [0, count) |
| Commands.FirstAccepted | pkg/cli/commands.go:137-149 | the position of the first accepted answer, or the end of input |
| Commands.FirstAcceptedShift | pkg/cli/commands.go:137-149 | a refused first line moves the first accepted position one further on |
| Commands.AskUntil | pkg/cli/commands.go:137-149 | the answer is the first accepted one, and the lines after it are left unread |
| Commands.AcceptedAsWrittenOverruns | pkg/cli/commands.go:137-151 | with no local servers the guard as written accepts "0", which is no index of the list |
| Commands.ChoiceNarrowsAsWritten | pkg/cli/commands.go:137-145 | every answer the corrected guard accepts, the written one accepts too; they differ only on the count itself |
| Commands.SetupGoesOn | pkg/cli/commands.go:80-102 | the first-time setup goes on exactly when both directories exist (empty answers keep the previous values, and an empty path never exists), the ID is non-empty (same fallback), and the credentials are both given or both empty; a setup that goes on holds two non-empty directories |
| Commands.FirstRunEmptyDirsStop | pkg/cli/commands.go:82-90 | with no previous directory, pressing Enter at both directory prompts ends the process before anything is stored, as `SetupPzDirs("", "")` does |
| Commands.SetupAnswers | pkg/cli/commands.go:80-102 | a setup that goes on holds the answers, with the fallbacks, and the registry holds them too; the credentials are stored only when one was given |
| Commands.AnsweredSetupConfigured | pkg/cli/commands.go:80-102 | a setup that goes on leaves a configuration that loads |
| Commands.EmptyCredentialsKeepAuth | pkg/cli/commands.go:98-102 | leaving both credentials empty writes neither key and keeps the loaded credentials |
| Commands.AskSetup | pkg/cli/commands.go:80-102 | the first-time branch: the new state is what the answers give, and it stops at the first failing step (an empty or missing directory, an empty ID, one credential without the other) |
| Commands.AskDirs | pkg/cli/commands.go:82-90 | the two directory prompts, with fallback to the previous values; it goes on exactly when neither resulting path is empty or missing, and only then stores both |
| Commands.AskSteamId | pkg/cli/commands.go:92-96 | the steam ID prompt, with fallback, checked and stored |
| Commands.AskCredentials | pkg/cli/commands.go:98-102 | the credential prompts, stored only when one is given |
| Commands.Setup | pkg/cli/commands.go:72-108 | the first time every value is asked for, and empty or missing directories end the process; otherwise the values are loaded, and each failed load switches to the first time and runs the setup again; on success the configuration loads |
| Commands.SetLanguage | pkg/cli/commands.go:231-247 | asks until the answer is a valid language; that language is set and stored as four bytes, and the later lines are left unread |
| Commands.PullStep | pkg/cli/commands.go:221 | the server's directory is opened or initialised, then pulled; the flag tells whether changes came |
| Commands.Announced | pkg/cli/commands.go:172-173 | after the manifest update, commit and push, the remote's last commit is the worktree with the updated manifest |
| Commands.Uploaded | pkg/cli/commands.go:224-225 | after the copy up, commit and push, the remote's last commit is the worktree with the local content copied in |
| Commands.AnnouncedListsPlayer | pkg/cli/commands.go:172-173 | the remote's last commit then holds a manifest that names the player |
| Commands.SyncPulledStaysLocal | pkg/cli/commands.go:221-222 | when the pull brings changes, the pass copies down and then updates the player folders, and pushes nothing |
| Commands.SyncUnchangedUploads | pkg/cli/commands.go:223-227 | when the pull brings nothing, the pass copies up, commits and pushes, so the remote records the copied content, and then updates the player folders |
| Commands.SyncAllSteps | pkg/cli/commands.go:219-228 | each server's pass starts from the state the passes before it left |
| Commands.ListingsShareNames | pkg/syncedpz/synced_server.go:256-288 | every listing of one registry has the same names |
| Commands.SyncServer | pkg/cli/commands.go:220-227 | one pass on a server object made from the stored record; the new state is that pass's |
| Commands.Upload | pkg/cli/commands.go:224-225 | the copy up then commit and push; the new state is `Uploaded` |
| Commands.ListServers | pkg/cli/commands.go:218 | the listing of the registry; of a consistent registry, the registry |
| Commands.SyncServers | pkg/cli/commands.go:217-229 | every listed server exactly once, in some order; the new state is the sequence of their passes; the first fatal error stops the rest |
| Commands.SyncEach | pkg/cli/commands.go:219-228 | the loop visits every listed server once, and its effect is the passes in visiting order |
| Commands.AddAbortKeepsRegistry | pkg/cli/commands.go:157-168 | existing content and an answer other than "y" (after `ToLower` and `TrimSpace`) save nothing and push nothing |
| Commands.AddedRegisters | pkg/cli/commands.go:171-174 | otherwise the server is saved, loads back with its name and URL, and the remote holds a manifest naming the player |
| Commands.AddSynced | pkg/cli/commands.go:152-174 | the part after the index is read; the new state is `Added` |
| Commands.AddPull | pkg/cli/commands.go:155-156 | `InitGit` then `Pull`; the new state and the flag are what `PullStep` gives |
| Commands.AddRegister | pkg/cli/commands.go:171-174 | copy up, manifest update, commit and push, save, in that order |
| Commands.Announce | pkg/cli/commands.go:172-173 | manifest update, then commit and push |
| Commands.AddServer | pkg/cli/commands.go:132-177 | asks until the answer is an index of the local server list (corrected guard), then reads the URL and adds that server |
| Commands.ListOrder | pkg/cli/commands.go:186-192 | the numbering lists every server once |
| Commands.DeleteServer | pkg/cli/commands.go:179-203 | no servers leaves the registry alone; otherwise the first answer that is an index of the numbering deletes that server's key, and no other key |
| Commands.DeletedRetry | pkg/cli/commands.go:195-198 | an invalid answer starts the command again on the rest of the input |
| Commands.AskAgainShifts | pkg/cli/commands.go:193-198 | a refused answer moves the first accepted one a line further on |
| Commands.DeleteTakesOffRegistry | pkg/cli/commands.go:201-202 | deleting a listed server of a consistent registry takes just that server off the registry |
| Commands.ClonedServerRegisters | pkg/cli/commands.go:205-212 | a cloned server has a name, loads back with that name and the URL, and the remote holds a manifest naming the player |
| Commands.CloneServer | pkg/cli/commands.go:205-215 | reads the URL; the new state is the clone, the manifest update, commit and push, and the save |
| Commands.CloneFrom | pkg/cli/commands.go:207-212 | the part after the URL is read |
| Commands.ClonedServerRegistry | pkg/cli/commands.go:205-212 | after a clone a consistent registry is the one before with the cloned server's record, under its name, added or replaced |
| Players.ScanLines | pkg/syncedpz/synced_server.go:146-149 | the scanner's lines, without their `\n` and trailing `\r`; the buffer limit that can end the scan early is `Players.ScanFor`'s, stated by `Players.OverlongFirstLine` |
| Players.ScanLinesSplit | pkg/syncedpz/synced_server.go:146-149 | a line ended by `\n` is the first line, and scanning goes on after it |
| Players.ScanLinesAppendLine | pkg/syncedpz/synced_server.go:160-167 | a complete line after complete lines is one more line |
| Players.ScanLinesTerminate | pkg/syncedpz/synced_server.go:160-167 | ending an unfinished last line with `\n` changes no line |
| Players.ScanForListed | pkg/syncedpz/synced_server.go:146-158 | when the scan gets through, it reports a match exactly when the manifest names the player |
| Players.OverlongFirstLine | pkg/syncedpz/synced_server.go:146-158 | a first line that fills the scanner's 64 KiB buffer without a line break gives `ErrTooLong`, whatever follows |
| Players.ScanForSplit | pkg/syncedpz/synced_server.go:146-158 | a `\n`-ended line is scanned first: too long gives `ErrTooLong`, a match stops the scan, anything else goes on to the rest |
| Players.ScanForAppendLine | pkg/syncedpz/synced_server.go:146-167 | after complete lines with no match, a complete line that fits the buffer and names the player is found |
| Players.ScanForTerminate | pkg/syncedpz/synced_server.go:146-167 | ending an unfinished last line with `\n` changes nothing the scan finds |
| Players.AppendedFound | pkg/syncedpz/synced_server.go:146-167 | after a scan with no match, the appended ID is found by the next scan |
| Players.CreatedFound | pkg/syncedpz/synced_server.go:168-175 | the manifest created for a missing file holds a line the scan finds |
| Players.Appended | pkg/syncedpz/synced_server.go:160-167 | the corrected append: end an unfinished last line, then the ID and `\n` |
| Players.EncodedMatches | pkg/syncedpz/synced_server.go:150-153 | a trimmed ID read back as a line matches itself |
| Players.ListedByLast | pkg/syncedpz/synced_server.go:148-156 | the manifest names every player its last line names |
| Players.EntryIsLine | pkg/syncedpz/synced_server.go:165-173 | an ID written after complete lines and ended by `\n` is one more line, and that line names it |
| Players.AppendedIsLine | pkg/syncedpz/synced_server.go:160-167 | the corrected append keeps every line and adds the ID as a line of its own that names the player |
| Players.AppendedAsWrittenNotLine | pkg/syncedpz/synced_server.go:165 | as written, appending `b` to the manifest `a` leaves no line that names `b` |
| Players.AsWrittenScansMiss | pkg/syncedpz/synced_server.go:146-167 | as written, the scan of `a` finds no `b`, and after `b` is appended it still finds none |
| Fs.Stat | pkg/utils/utils.go:13 | "does not exist" exactly when nothing is at the path and access works; a directory exactly when one is there and reachable |
| Fs.MkdirAll | pkg/utils/utils.go:17 | succeeds exactly when access works and no file stands on the way; it then makes every missing directory up to the path and changes nothing else |
| Fs.MkdirAllMakesDir | pkg/utils/utils.go:17 | afterwards the path is a directory |
| Fs.WriteFile | pkg/syncedpz/synced_server.go:169-174 | succeeds exactly when the parent is a directory and the path is not one; the file then holds the data |
| Fs.AppendFile | pkg/syncedpz/synced_server.go:161-166 | succeeds exactly on an existing file, which then ends with the data |
| Fs.ReadFile | pkg/syncedpz/synced_server.go:142-149 | succeeds exactly on an existing file, giving its contents |
| Fs.ReadDir | pkg/syncedpz/synced_server.go:123 | succeeds exactly on a directory, giving exactly its entry names |
| Fs.Walk | pkg/syncedpz/server.go:17 | the walk starts at the root; every visit is below it; only the last visit can carry an error |
| Fs.Copy | pkg/syncedpz/synced_server.go:111 | on success the source existed and nothing below it was unreadable, nothing was deleted, and everything below the source is below the destination with the same contents |
| Fs.Rename | pkg/syncedpz/synced_server_git.go:77 | on success the destination was no existing directory (not even the source itself), the subtree, with its repositories, is at the destination and nothing is left below the source |
| Fs.RemoveFile | pkg/syncedpz/git_utils.go:15 | `os.Remove` of a file, the deletion the corrected removal makes: succeeds exactly on a reachable file, which is then gone |
| Git.Remove | pkg/syncedpz/git_utils.go:15 | `Worktree.Remove`: a path the index (the last commit's tree) does not hold is `ErrEntryNotFound` and nothing changes; on success the path was tracked and only it is gone |
| Git.PlainOpen | pkg/syncedpz/synced_server_git.go:24 | the repository at the directory, or "repository does not exist" |
| Git.PlainInitWithOrigin | pkg/syncedpz/synced_server_git.go:26-31 | a fresh repository with `origin` at the directory |
| Git.CheckoutNodesEffect | pkg/syncedpz/synced_server_git.go:145 | a checkout writes every file of the new tree and removes only the files of the old tree the new one lacks |
| Git.Fetch | pkg/syncedpz/synced_server_git.go:120 | "already up to date" when nothing new arrived; an unreachable or empty remote is an error |
| Git.Pull | pkg/syncedpz/synced_server_git.go:145 | go-git's pull: up to date, non-fast-forward, or the branch moved to the remote history with the worktree updated |
| Git.CommitAll | pkg/syncedpz/synced_server_git.go:170-174 | everything staged; a tree equal to the last commit's is refused as empty |
| Git.Push | pkg/syncedpz/synced_server_git.go:190 | nothing to send is up to date; a history the remote does not share is refused; otherwise the remote takes the local history |
| Git.PullSettles | pkg/syncedpz/synced_server_git.go:145-151 | a pull right after a successful one finds nothing new |
| Git.CommitSettles | pkg/syncedpz/synced_server_git.go:174-179 | a commit right after a successful one is refused as empty, whatever its message |
| Git.PushSettles | pkg/syncedpz/synced_server_git.go:190-199 | a push right after a successful one finds the remote up to date |
| Git.CommitPushPublishes | pkg/syncedpz/synced_server_git.go:203-206 | commit then push, each succeeding or finding nothing to do, leave the remote's last commit recording exactly the worktree |
| Git.PlainClone | pkg/syncedpz/synced_server_git.go:50-53 | a repository with the remote's history and `origin`, and the last commit's files in the worktree |
| Git.WorktreeStatus | pkg/syncedpz/git_utils.go:10 | every path that differs between the last commit and the worktree |
| Git.HardReset | pkg/syncedpz/synced_server_git.go:101-103 | every file of the last commit is written back; untracked files stay |
| Text.TrimSpace | pkg/cli/input.go:18 | no white space at either end |
| Text.TrimSpaceSlice | pkg/cli/input.go:18 | the result is a slice of the input with only white space outside it |
| Text.TrimSpaceIdempotent | pkg/cli/input.go:18 | trimming twice is trimming once |
| Text.RemoveChar | pkg/cli/input.go:16-17 | every occurrence of the character is removed |
| Text.RemoveCharKeeps | pkg/cli/input.go:16-17 | every other character is kept |
| Text.TrimChar | pkg/syncedpz/synced_server.go:151-152 | no occurrence of the character at either end; a string without one there is unchanged |
| Text.ReplaceChar | pkg/syncedpz/synced_server.go:121 | each occurrence of one character becomes the other, and the rest is unchanged |
| Text.TrimSuffix | pkg/syncedpz/synced_server_git.go:66 | with the suffix, the result followed by the suffix is the input; without it, the input is unchanged |
| Text.ToLower | pkg/cli/commands.go:162 | each ASCII capital letter becomes lower case, and every other character is kept |
| Text.Atoi | pkg/cli/commands.go:144 | a parsed value fits in 64 bits and is the decimal value of the digits after an optional sign, negated after `-` |
| Text.AtoiOfDecimal | pkg/cli/commands.go:144 | every 64-bit value written in decimal, with or without a sign, reads back as itself |
| Utf8.DecodeEncode | pkg/syncedpz/setup_db.go:22 | converting a string to bytes and back gives the string |
| Utf8.EncodeInjective | pkg/syncedpz/synced_server.go:55 | different strings have different bytes |
| Utf8.EncodeAppend | pkg/syncedpz/synced_server.go:55 | the bytes of a concatenation are the concatenated bytes |
| Paths.Join | pkg/syncedpz/synced_server.go:93 | `filepath.Join` of a cleaned path and one more name, cleaned: a proper name is appended, `""` changes nothing, `..` goes to the parent, and a name without `..` stays below the path |
| Paths.Resolve | pkg/syncedpz/synced_server.go:93 | `filepath.Clean` of the pieces after a cleaned path: the result is again a cleaned path, and without `..` it stays below the starting path |
| Paths.BaseOf | pkg/syncedpz/synced_server_git.go:45 | `filepath.Base` of a URL: its last non-empty slash-separated piece |
| Paths.Ext | pkg/syncedpz/server.go:22 | the suffix from the last `.` of the base name |
| Order.Sorted | pkg/syncedpz/synced_server.go:123 | the directory listing holds every name once, in increasing order |
| Order.SortedIncreasing | pkg/syncedpz/synced_server.go:123 | the listing is strictly increasing |

## Left out

- Printing, logging, `time.Sleep`, the menu loop (`menu`, pkg/cli/commands.go:26-70),
  `printUsage` and the listing commands `listConfig`, `listLocalServers` and
  `listSyncedServers`: they only display things. The listings rest on `GetLocalServers`
  and `GetSyncedServers`, which are modelled.
- `GTM` is the same lookup as `GetTranslatedMsg`, so it has no member of its own.
- main.go, pkg/cli/cli.go, config/badger.go and `RunCommandOnDir`: signal handling,
  argument dispatch, opening the database and running processes are not part of this
  model. So is the `init` of config/syncedpz.go (ensuring the data directories, the git
  check); the servers directory is a parameter of `Config.Globals.constructor`.
- The language constants `LANG_START`, `LANG_EN`, `LANG_PTBR`, `LANG_END` and
  `IsLanguageValid` are declared in a file that is not part of this model. They are
  taken as 0, 1, 2, 3, and a language is valid strictly between the first and the last.
- `CopySyncedServerToLocal` and `EnsureUpdatedPlayerSaveFolders` are declared in files
  that are not part of this model. Their effects are parameters of `syncServers` (the
  `Hooks` datatype), and nothing is assumed about them.
- The gob format: a record is encoded with length-prefixed UTF-8 fields instead.
  Every property of the model rests only on the round trip, which gob also has.
- badger: storage failures, iteration order and transaction conflicts. Every
  transaction commits.
- go-git internals: the index, object storage, authentication and the transport. The
  credentials are never passed to the transport (`Auth`). A remote is reachable exactly
  when its URL is a key of `Machine.Network`.
- Concurrency and interleaving with another host pushing in the middle of a pass.
- The `repo` handle is modelled as the path the repository was opened at.
- Commands.AskUntil: the source asks again forever once standard input has ended. The
  model ends the process with `InputExhausted` instead. The same holds for
  `Commands.SetLanguage`, `Commands.AddServer` and `Commands.DeleteServer`.
- Polyglot.PortugueseAfterInit: it states the lookup in terms of the whole pt-BR
  dictionary, `Polyglot.PtBr`. It does not check the translations one by one.
- Players.Appended: the model appends the ID on a line of its own (the corrected
  behaviour; see Findings). `Players.AppendedAsWritten` keeps the source's behaviour.
- SyncedServers.SyncedServer.UpdatePlayersFile, SyncedServers.PlayersUpdateNames,
  SyncedServers.PlayersUpdateIdempotent: these use the corrected append. On a manifest
  without a final line break the source's update differs: it glues the ID to the last
  line, and it appends the ID again on every later update
  (`SyncedServers.PlayersUpdateAsWrittenRepeats`).
  `SyncedServers.PlayersUpdateAsWrittenAgrees` and
  `SyncedServers.PlayersUpdateTerminates` show the two agree on every manifest the
  program writes itself.
- ServerGit.Clone, ServerGit.Relocate, ServerGit.ClonedInPlace,
  Commands.ClonedServerRegisters, Commands.ClonedServerRegistry: these use the
  corrected relocation (see Findings), which does not rename a clone that is already at
  the server's directory. As written, such a clone ends the process.
  `ServerGit.RelocatedAsWritten` keeps the source's behaviour.
- Fs.Rename: `os.Rename` is modelled as Go implements it on Unix. Go refuses an existing
  directory as the destination before calling rename(2). Other platforms, where renaming
  a directory onto itself may succeed, are not modelled.
- Commands.AddServer: the index guard is the corrected one (see Findings). The written
  guard lets the count itself through, and that answer crashes on the out-of-range
  index.
- GitUtils.RemoveUnstagedFiles, GitUtils.RemoveEntries, Git.Remove, ServerGit.Restore:
  these follow the source. `Worktree.Remove` takes a path out of the index before it
  deletes the file, and the index never holds an untracked path. So the loop ends the
  process at the first untracked file, and `Restore` fails whenever the hard reset left
  one (see Findings). The model keeps no index apart from the last commit's tree.
- Commands.SyncServers, Commands.SyncEach, Commands.SyncServer, Commands.AddServer,
  Commands.AddSynced, Commands.CloneServer, Commands.CloneFrom, Commands.Setup: on a
  fatal error their contracts give the error but not the state left behind: the file
  system, the remotes, the registry and the settings. Nothing is rolled back in the
  source. In `syncServers` the servers synced before the failing one stay copied,
  committed and pushed. In `cloneServer` a failed announce leaves the clone on disk and
  the record saved by `Clone` in the registry.
- Git.HardReset: the model keeps untracked files, as git's own hard reset does. Some
  go-git versions delete them during the reset. There `Restore` finds nothing
  untracked and ends as the corrected `ServerGit.Restored` does. Which go-git version
  the program builds with is not part of this model.
- ServerGit.Restored, ServerGit.RestoredMatchesCommit, ServerGit.CleanedMatchesTip,
  GitUtils.CleanUntracked, GitUtils.DeleteFiles, GitUtils.WithoutUntrackedTracked,
  Fs.RemoveFile: these describe the corrected removal, which deletes the untracked
  files from the worktree (see Findings). The source does not make that removal.
- `Restore` and `Fetch` are modelled, but no command calls them.
- Config.ToPath: a relative path is resolved from `/`, not from the working directory.
  The core reads paths the operator types; the model takes them as absolute.
- Input.Console.AskForInput: the model consumes exactly one line per prompt, which is
  what a terminal gives one read. On piped input, the new `bufio.Reader` that each call
  creates reads ahead and drops the lines after the first. Those lost lines are not
  modelled.
- Text.ToLower: only the ASCII letters are lowered. Other case mappings of
  `strings.ToLower` are not modelled; they do not change whether an answer is "y".

## Findings

| source | as written | input that shows it | evidently intended | confidence | as-written member | corrected member |
|---|---|---|---|---|---|---|
| pkg/cli/commands.go:137-151 | the loop in `addServer` accepts `0 <= choice <= len(localServers)`, then indexes `localServers[choiceInt]` | no local servers and the answer `0` (in general, the answer `len(localServers)`) passes the guard and indexes out of range | accept only `0 <= choice < len(localServers)`, as `deleteServer` does at line 195 | not executed | Commands.AcceptedAsWrittenOverruns | Commands.AddServer |
| pkg/syncedpz/synced_server_git.go:75-78 | the clone directory `servers/<last URL component>` is always renamed to the server's directory `servers/<name of the .ini file>` | a repository URL ending in `myserver` whose `config` directory holds `myserver.ini`: both directories are the same, `os.Rename` on Unix refuses a directory as its own destination (`EEXIST`), and `utils.HandleErr` ends the process | skip the rename when the clone is already at the server's directory | not executed | ServerGit.SameNameCloneAsWrittenFails | ServerGit.SameNameCloneStays |
| pkg/syncedpz/synced_server.go:160-167 | the ID and `\n` are appended right after the file's last byte | the manifest `a` without a final newline, and the ID `b`: the file becomes `ab\n`, and no line names `b` | the ID is added as a line of its own, ending an unfinished last line first | not executed | Players.AppendedAsWrittenNotLine | Players.AppendedIsLine |
| pkg/syncedpz/git_utils.go:13-18 | `removeUnstagedFiles` calls `wt.Remove` on each untracked file, which go-git refuses with `ErrEntryNotFound` because the index does not hold the path; `utils.HandleErr` then ends the process | `Restore` on a worktree holding one file `x` that the last commit does not track: the hard reset keeps `x`, `wt.Remove("x")` fails, and the process ends with `x` still there | delete each untracked file from the worktree, so that the worktree matches the last commit | not executed; depends on a go-git version whose hard reset keeps untracked files | ServerGit.UntrackedEndsRestore | ServerGit.RestoredMatchesCommit |
