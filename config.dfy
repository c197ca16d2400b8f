/** The process-wide settings of the `config` package that the core reads and assigns:
    the Project Zomboid paths, the steam ID, the git credentials, the language, where
    synced servers live, and whether the next setup asks for every value.
    The language constants are declared outside the modelled files; they are taken here
    as an enumeration START, EN, PTBR, END numbered from 0, and a language is valid
    strictly between START and END. */
module Config {
  import opened Wrappers
  import opened Paths

  const LangStart: int := 0
  const LangEn: int := 1
  const LangPtBr: int := 2
  const LangEnd: int := 3

  predicate IsLanguageValid(lang: int) { LangStart < lang < LangEnd }

  /** `http.BasicAuth`. */
  datatype BasicAuth = BasicAuth(username: string, password: string)

  /** A path as the core receives it, as a string, cleaned and taken as an absolute path. */
  function ToPath(s: string): (p: Path)
    ensures Proper(p)
  {
    Resolve([], Pieces(s))
  }

  class Globals {
    var exePath: string            // PZ_ExePath
    var dataPath: string           // PZ_DataPath
    var steamID: string            // PZ_SteamID
    var gitAuth: Option<BasicAuth> // GitAuth; None is a nil *http.BasicAuth
    var language: int              // Launguage
    var serversPath: Path          // ServersPath
    var firstTimeSetup: bool       // FirstTimeSetup

    /** The zero values of the package variables, with the servers directory that the
        package initialisation computes. */
    constructor (serversPath: Path)
      ensures this.serversPath == serversPath
      ensures exePath == "" && dataPath == "" && steamID == "" && gitAuth == None
      ensures language == 0 && !firstTimeSetup
    {
      exePath := "";
      dataPath := "";
      steamID := "";
      gitAuth := None;
      language := 0;
      this.serversPath := serversPath;
      firstTimeSetup := false;
    }
  }
}
