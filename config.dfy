/** The configuration file: its record, the provider check, and the first-run
    setup that writes the default configuration (internal/config/init.go,
    with the locations of internal/config/paths.go). */
module Settings {
  import opened Wrappers

  datatype AnthropicConfig = AnthropicConfig(model: string)

  datatype OllamaConfig = OllamaConfig(endpoint: string, model: string)

  /** The contents of `config.yaml`. */
  datatype Config = Config(
    defaultModel: string,
    editor: string,
    instructionsDir: string,
    provider: string,
    anthropic: AnthropicConfig,
    ollama: OllamaConfig)

  datatype ProviderError = InvalidProvider(provider: string)

  const Anthropic: string := "anthropic"
  const Ollama: string := "ollama"

  /** `Config.ValidateProvider`: exactly the two provider names, spelt in lower
      case, are accepted; the error quotes the value refused. */
  function ValidateProvider(c: Config): (r: Outcome<ProviderError>)
    ensures r == Pass <==> c.provider == Anthropic || c.provider == Ollama
    ensures r.Fail? ==> r.error == InvalidProvider(c.provider)
  {
    if c.provider != Anthropic && c.provider != Ollama then Fail(InvalidProvider(c.provider))
    else Pass
  }

  /** The empty name and other spellings of the two providers are refused. */
  lemma ProviderNamesAreExact(c: Config)
    requires c.provider in ["", "Anthropic", "OLLAMA", "openai", "anthropic "]
    ensures ValidateProvider(c) == Fail(InvalidProvider(c.provider))
  {
  }

  const DefaultModel: string := "claude-sonnet-4-20250514"
  const DefaultEditor: string := "vim"
  const DefaultOllamaEndpoint: string := "http://localhost:11434"
  const DefaultOllamaModel: string := "llama3.2"

  /** The configuration `Initialize` writes: the Anthropic provider with the
      default model, vim as editor, the local Ollama server, and the
      instructions directory given on the command line. */
  function DefaultConfig(instructionsDir: string): (c: Config)
    ensures ValidateProvider(c) == Pass
    ensures c.provider == Anthropic
    ensures c.defaultModel == DefaultModel && c.anthropic.model == DefaultModel
    ensures c.instructionsDir == instructionsDir
  {
    Config(DefaultModel, DefaultEditor, instructionsDir, Anthropic,
           AnthropicConfig(DefaultModel), OllamaConfig(DefaultOllamaEndpoint, DefaultOllamaModel))
  }

  /** The locations below the user's home directory (internal/config/paths.go). */
  const GliikHome: string := ".gliik"
  const ConfigFile: string := ".gliik/config.yaml"
  const InstructionsPath: string := ".gliik/instructions"

  /** The part of the user's home directory that `Initialize` looks at and
      changes: the directories and the files present, by path. */
  class Home {
    var dirs: set<string>
    var files: map<string, string>

    constructor (dirs: set<string>, files: map<string, string>)
      ensures this.dirs == dirs && this.files == files
    {
      this.dirs := dirs;
      this.files := files;
    }

    /** `os.Stat(path)` succeeds: a file or a directory is there. */
    function Exists(path: string): bool
      reads this
    {
      path in files || path in dirs
    }

    method MkdirAll(path: string)
      modifies this
      ensures dirs == old(dirs) + {path} && files == old(files)
    {
      dirs := dirs + {path};
    }

    method WriteFile(path: string, data: string)
      modifies this
      ensures dirs == old(dirs) && files == old(files)[path := data]
    {
      files := files[path := data];
    }
  }

  datatype InitError = AlreadyInitialized(home: string)

  /** `Initialize`: refuse when anything is at the config file's path, before
      any change; otherwise create the home directory, write the default
      configuration (serialised by `encode`, yaml.v3's `Marshal`) and create
      the instructions directory. The directory created is always
      `.gliik/instructions`: the argument only lands in the configuration. */
  method Initialize(home: Home, instructionsDir: string, encode: Config -> string)
    returns (r: Outcome<InitError>)
    modifies home
    ensures old(home.Exists(ConfigFile)) ==>
              r == Fail(AlreadyInitialized(GliikHome))
              && home.dirs == old(home.dirs) && home.files == old(home.files)
    ensures !old(home.Exists(ConfigFile)) ==>
              r == Pass
              && home.dirs == old(home.dirs) + {GliikHome, InstructionsPath}
              && home.files == old(home.files)[ConfigFile := encode(DefaultConfig(instructionsDir))]
  {
    if home.Exists(ConfigFile) {
      return Fail(AlreadyInitialized(GliikHome));
    }
    home.MkdirAll(GliikHome);
    var defaultConfig := DefaultConfig(instructionsDir);
    var data := encode(defaultConfig);
    home.WriteFile(ConfigFile, data);
    home.MkdirAll(InstructionsPath);
    return Pass;
  }
}
