/** The application configuration: the sections the core reads, the three-field
    validation, the environment overrides for secrets and the folder-path helper. */
module AppConfig {
  import opened Text
  import opened Paths

  datatype DropboxConfig = DropboxConfig(basePath: string, folderLanguage: string)

  datatype OpenRouterConfig = OpenRouterConfig(apiKey: string, model: string, endpoint: string)

  datatype EmailConfig = EmailConfig(
    smtpHost: string, smtpPort: int, smtpUser: string, smtpPassword: string,
    fromAddress: string, approvalRecipient: string,
    imapHost: string, imapPort: int, imapUser: string, imapPassword: string)

  datatype ApprovalConfig = ApprovalConfig(host: string, port: int, tailscaleHostname: string)

  datatype NtfyConfig = NtfyConfig(enabled: bool, server: string, topic: string)

  datatype HugoConfig = HugoConfig(siteDir: string, publicDir: string, mirrorDir: string)

  /** The configuration; the git, rsync, image and deploy sections are never read by
      the core and are not part of this model. */
  datatype Config = Config(
    dropbox: DropboxConfig, openRouter: OpenRouterConfig, email: EmailConfig,
    approval: ApprovalConfig, ntfy: NtfyConfig, hugo: HugoConfig, languages: seq<string>)

  // ---------------------------------------------------------------------------
  // Validate
  // ---------------------------------------------------------------------------

  datatype ValidationError = MissingBasePath | MissingFolderLanguage | MissingSiteDir

  function ValidationMessage(e: ValidationError): string {
    match e
    case MissingBasePath => "dropbox.base_path is required"
    case MissingFolderLanguage => "dropbox.folder_language is required"
    case MissingSiteDir => "hugo.site_dir is required"
  }

  /** Validate: the first missing required field, checked in the order base path,
      folder language, site directory. */
  function Validate(c: Config): (r: Option<ValidationError>)
    ensures r == Some(MissingBasePath) <==> c.dropbox.basePath == ""
    ensures r == Some(MissingFolderLanguage) <==> c.dropbox.basePath != "" && c.dropbox.folderLanguage == ""
    ensures r == Some(MissingSiteDir) <==>
      c.dropbox.basePath != "" && c.dropbox.folderLanguage != "" && c.hugo.siteDir == ""
    ensures r.None? <==> c.dropbox.basePath != "" && c.dropbox.folderLanguage != "" && c.hugo.siteDir != ""
  {
    if c.dropbox.basePath == "" then Some(MissingBasePath)
    else if c.dropbox.folderLanguage == "" then Some(MissingFolderLanguage)
    else if c.hugo.siteDir == "" then Some(MissingSiteDir)
    else None
  }

  /** No field other than the three required ones influences validation. */
  lemma ValidateReadsOnlyRequired(c1: Config, c2: Config)
    requires c1.dropbox == c2.dropbox && c1.hugo.siteDir == c2.hugo.siteDir
    ensures Validate(c1) == Validate(c2)
  {
  }

  // ---------------------------------------------------------------------------
  // Environment overrides in Load
  // ---------------------------------------------------------------------------

  const ApiKeyVar: string := "OPENROUTER_API_KEY"
  const SmtpPasswordVar: string := "SMTP_PASSWORD"
  const ImapPasswordVar: string := "IMAP_PASSWORD"
  const NtfyTopicVar: string := "NTFY_TOPIC"

  /** os.Getenv: an unset variable reads as the empty string. */
  function Getenv(env: map<string, string>, name: string): string {
    if name in env then env[name] else ""
  }

  /** A non-empty environment value replaces the file's value. */
  function Override(fileValue: string, envValue: string): (r: string)
    ensures envValue != "" ==> r == envValue
    ensures envValue == "" ==> r == fileValue
  {
    if envValue != "" then envValue else fileValue
  }

  /** The configuration after the four secret overrides. */
  function ApplyEnv(c: Config, env: map<string, string>): Config {
    c.(openRouter := c.openRouter.(apiKey := Override(c.openRouter.apiKey, Getenv(env, ApiKeyVar))),
       email := c.email.(smtpPassword := Override(c.email.smtpPassword, Getenv(env, SmtpPasswordVar)),
                         imapPassword := Override(c.email.imapPassword, Getenv(env, ImapPasswordVar))),
       ntfy := c.ntfy.(topic := Override(c.ntfy.topic, Getenv(env, NtfyTopicVar))))
  }

  /** Exactly the four secret fields may change, and each takes the environment value
      when that is set and non-empty. */
  lemma EnvOverrides(c: Config, env: map<string, string>)
    ensures var a := ApplyEnv(c, env);
      a.dropbox == c.dropbox && a.approval == c.approval && a.hugo == c.hugo
      && a.languages == c.languages
      && a.openRouter == c.openRouter.(apiKey := a.openRouter.apiKey)
      && a.email == c.email.(smtpPassword := a.email.smtpPassword, imapPassword := a.email.imapPassword)
      && a.ntfy == c.ntfy.(topic := a.ntfy.topic)
    ensures var a := ApplyEnv(c, env);
      (ApiKeyVar in env && env[ApiKeyVar] != "" ==> a.openRouter.apiKey == env[ApiKeyVar])
      && (!(ApiKeyVar in env && env[ApiKeyVar] != "") ==> a.openRouter.apiKey == c.openRouter.apiKey)
      && (SmtpPasswordVar in env && env[SmtpPasswordVar] != "" ==> a.email.smtpPassword == env[SmtpPasswordVar])
      && (!(SmtpPasswordVar in env && env[SmtpPasswordVar] != "") ==> a.email.smtpPassword == c.email.smtpPassword)
      && (ImapPasswordVar in env && env[ImapPasswordVar] != "" ==> a.email.imapPassword == env[ImapPasswordVar])
      && (!(ImapPasswordVar in env && env[ImapPasswordVar] != "") ==> a.email.imapPassword == c.email.imapPassword)
      && (NtfyTopicVar in env && env[NtfyTopicVar] != "" ==> a.ntfy.topic == env[NtfyTopicVar])
      && (!(NtfyTopicVar in env && env[NtfyTopicVar] != "") ==> a.ntfy.topic == c.ntfy.topic)
  {
  }

  /** Secrets from the environment never change whether a configuration is valid. */
  lemma EnvDoesNotAffectValidity(c: Config, env: map<string, string>)
    ensures Validate(ApplyEnv(c, env)) == Validate(c)
  {
    ValidateReadsOnlyRequired(ApplyEnv(c, env), c);
  }

  /** What loading the optional .env file did. */
  datatype EnvFile = EnvLoaded | EnvMissing | EnvUnreadable

  datatype LoadError =
    | EnvFileFailed
    | ReadFailed
    | ParseFailed
    | Invalid(reason: ValidationError)

  /** Load: the .env outcome, the configuration file's text (None when it cannot be read),
      the YAML decoder and the environment are inputs. The four overrides are applied one
      by one, then the result is validated. */
  method Load(envFile: EnvFile, data: Option<string>, unmarshal: string -> Option<Config>, env: map<string, string>)
    returns (r: Result<Config, LoadError>)
    ensures envFile == EnvUnreadable ==> r == Err(EnvFileFailed)
    ensures envFile != EnvUnreadable && data.None? ==> r == Err(ReadFailed)
    ensures envFile != EnvUnreadable && data.Some? && unmarshal(data.value).None? ==> r == Err(ParseFailed)
    ensures envFile != EnvUnreadable && data.Some? && unmarshal(data.value).Some? ==>
      var c := ApplyEnv(unmarshal(data.value).value, env);
      r == if Validate(c).Some? then Err(Invalid(Validate(c).value)) else Ok(c)
    ensures r.Ok? ==> Validate(r.value).None?
  {
    if envFile == EnvUnreadable {
      return Err(EnvFileFailed);
    }
    if data.None? {
      return Err(ReadFailed);
    }
    var parsed := unmarshal(data.value);
    if parsed.None? {
      return Err(ParseFailed);
    }
    var cfg := parsed.value;
    var apiKey := Getenv(env, ApiKeyVar);
    if apiKey != "" {
      cfg := cfg.(openRouter := cfg.openRouter.(apiKey := apiKey));
    }
    var smtpPass := Getenv(env, SmtpPasswordVar);
    if smtpPass != "" {
      cfg := cfg.(email := cfg.email.(smtpPassword := smtpPass));
    }
    var imapPass := Getenv(env, ImapPasswordVar);
    if imapPass != "" {
      cfg := cfg.(email := cfg.email.(imapPassword := imapPass));
    }
    var ntfyTopic := Getenv(env, NtfyTopicVar);
    if ntfyTopic != "" {
      cfg := cfg.(ntfy := cfg.ntfy.(topic := ntfyTopic));
    }
    var err := Validate(cfg);
    if err.Some? {
      return Err(Invalid(err.value));
    }
    return Ok(cfg);
  }

  // ---------------------------------------------------------------------------
  // GetFolderPath
  // ---------------------------------------------------------------------------

  /** GetFolderPath: the base path, a slash and the folder type; it never fails. */
  function GetFolderPath(c: Config, folderType: string): (r: Result<string, string>)
    ensures r.Ok?
  {
    Ok(c.dropbox.basePath + "/" + folderType)
  }

  /** The folder path names the folder type directly under the base path. */
  lemma FolderPathIsChild(c: Config, folderType: string)
    requires folderType != "" && NoSlash(folderType)
    ensures IsChild(GetFolderPath(c, folderType).value, c.dropbox.basePath)
    ensures Base(GetFolderPath(c, folderType).value) == folderType
  {
    JoinIsChild(c.dropbox.basePath, folderType);
    BaseOfJoin(c.dropbox.basePath, folderType);
  }
}
