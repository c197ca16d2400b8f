/** Message translation: English messages are keys into a dictionary per language. */
module Polyglot {
  import opened Wrappers
  import opened Errors
  import opened Config

  /** The pt-BR dictionary that package initialisation registers. */
  function PtBr(): map<string, string>
  {
    map[
      "Press any key to exit..." := "Pressione qualquer tecla para sair...",
      "Press any key to continue..." := "Pressione qualquer tecla para continuar...",
      "First time setup" := "Configuração inicial",
      "Type of servers to list" := "Tipo de servidores para listar",
      "No argument for config" := "Nenhum foi argumento para config",
      "Usage: " := "Uso: ",
      "  syncedpz help = shows this message" := "  syncedpz help = mostra esta mensagem",
      "  syncedpz menu = use menu mode" := "  syncedpz menu = usa o modo menu",
      "  syncedpz config [setup | list] = sets up or list the syncedpz configuration" := "  syncedpz config [setup | list] = configura ou lista a configuração do syncedpz",
      "  syncedpz list -type [local | synced] = list servers according to its type (default is local))" := "  syncedpz list -type [local | synced] = lista servidores de acordo com seu tipo (padrão é local))",
      "  syncedpz add = adds a new synced PZ server from your local files" := "  syncedpz add = adiciona um novo servidor PZ sincronizado a partir de seus arquivos locais",
      "  syncedpz delete = deletes a synced PZ server from the database only" := "  syncedpz delete = exclui um servidor PZ sincronizado apenas do banco de dados",
      "  syncedpz clone = adds a new synced PZ server from a git repository" := "  syncedpz clone = adiciona um novo servidor PZ sincronizado de um repositório git",
      "  syncedpz sync = syncs all servers" := "  syncedpz sync = sincroniza todos os servidores",
      "  syncedpz play = syncs all servers at the start, every 5 minutes and at the end. And starts Project Zomboid" := "  syncedpz play = sincroniza todo servidor no início, a cada 5 minutos e no final. E inicia o Project Zomboid",
      "  syncedpz language = sets the language of the application" := "  syncedpz language = define o idioma da aplicação",
      "Menu:" := "Menu:",
      "  [0] Help" := "  [0] Ajuda",
      "  [1] Setup config" := "  [1] Configuração",
      "  [2] List config" := "  [2] Listar configuração",
      "  [3] List local servers" := "  [3] Listar servidores locais",
      "  [4] List synced servers" := "  [4] Listar servidores sincronizados",
      "  [5] Add synced server" := "  [5] Adicionar servidor sincronizado",
      "  [6] Delete synced server" := "  [6] Excluir servidor sincronizado",
      "  [7] Clone synced server" := "  [7] Clonar servidor sincronizado",
      "  [8] Sync servers" := "  [8] Sincronizar servidores",
      "  [9] Play" := "  [9] Jogar",
      "  [10] Set language" := "  [10] Definir idioma",
      "  [11] Exit" := "  [11] Sair",
      "Enter the number of the option you want to choose: " := "Digite o número da opção que deseja escolher: ",
      "Invalid choice" := "Escolha inválida",
      "Leave the field empty to use the previous value (if it exists)" := "Deixe o campo vazio para usar o valor anterior (se existir)",
      "Enter the path to the pz executable (.bat file): " := "Digite o caminho para o executável do pz (arquivo .bat): ",
      "Enter the path to the pz data directory: " := "Digite o caminho para a pasta de dados do pz: ",
      "Enter your steam id: " := "Digite seu id da steam: ",
      "Enter your git username: " := "Digite seu nome de usuário do git: ",
      "Enter your git password (or your github token)): " := "Digite sua senha do git (ou seu token do github): ",
      "PZ Bat Path: " := "Caminho do executável Bat executável Bat do PZ: ",
      "PZ Data Path: " := "Caminho dos dados do PZ: ",
      "Steam ID: " := "ID da Steam: ",
      "Local Servers:" := "Servidores Locais:",
      "Enter the number of the server you want to add: " := "Digite o número do servidor que deseja adicionar: ",
      "Enter the git repository link to the server: " := "Digite o link do repositório git para o servidor: ",
      "Warning! Apparently a server using this git repository already exists" := "Atenção! Aparentemente um servidor usando este repositório git já existe",
      "and it already has some content." := "e ele já possui algum conteúdo.",
      "Do you want to continue copying your local content to it?" := "Você deseja continuar copiando seu conteúdo local para ele?",
      "Enter y/N: " := "Digite y/N (y para sim, n para não): ",
      "Aborting." := "Abortando.",
      "Server added successfully" := "Servidor adicionado com sucesso",
      "No servers to delete" := "Nenhum servidor para excluir",
      "Enter the number of the server you want to delete: " := "Digite o número do servidor que deseja excluir: ",
      "Enter the git repository link to the server: " := "Digite o link do repositório git para o servidor: ",
      "Server cloned successfully" := "Servidor clonado com sucesso",
      "Enter the number of the language you want to choose: " := "Digite o número do idioma que deseja escolher: ",
      "WARNING: Commiting and pushing can take a while, please wait..." := "AVISO: Comitar e fazer push pode demorar um pouco, por favor aguarde..."
    ]
  }

  /** The package's `dict`: a dictionary per language other than English. */
  class Messages {
    var dict: map<int, map<string, string>>

    /** Package initialisation: an empty `dict`, then the pt-BR dictionary under `LANG_PTBR`. */
    constructor ()
      ensures dict.Keys == {LangPtBr} && dict[LangPtBr] == PtBr()
    {
      hide PtBr;
      dict := map[];
      new;
      dict := dict[LangPtBr := PtBr()];
    }

    /** `GetTranslatedMsg(msg)` under the configured `language`: an invalid language counts
        as English, English is the identity, a message the dictionary lacks stays as it
        is, and a valid language without a dictionary ends the process. */
    function GetTranslatedMsg(language: int, msg: string): (r: Result<string, Error>)
      reads this
      ensures (language == LangEn || !IsLanguageValid(language)) ==> r == Ok(msg)
      ensures (IsLanguageValid(language) && language != LangEn && language !in dict) ==> r == Err(Invalid("Language not found"))
      ensures (IsLanguageValid(language) && language != LangEn && language in dict) ==>
                r == Ok(if msg in dict[language] then dict[language][msg] else msg)
    {
      var lang := if IsLanguageValid(language) then language else LangEn;
      if lang == LangEn then Ok(msg)
      else if lang !in dict then Err(Invalid("Language not found"))
      else if msg !in dict[lang] then Ok(msg)
      else Ok(dict[lang][msg])
    }
  }

  /** After initialisation every registered message comes out translated under pt-BR,
      any other message unchanged, and every message unchanged under an invalid
      language. */
  lemma PortugueseAfterInit(m: Messages, msg: string)
    requires m.dict == map[LangPtBr := PtBr()]
    ensures m.GetTranslatedMsg(LangPtBr, msg) == Ok(if msg in PtBr() then PtBr()[msg] else msg)
    ensures m.GetTranslatedMsg(LangEnd, msg) == Ok(msg)
  {
    hide PtBr;
  }
}
