/** The organiser's configuration, taken as an immutable input record, and the
    log severities. Only the entries the modelled logic reads are kept. */
module Config {

  /** Log severities, ordered as the `IntEnum` at main.py:11-16. */
  datatype Level = Debug | Info | Warning | Error | Critical

  function Rank(level: Level): nat {
    match level
    case Debug => 0
    case Info => 1
    case Warning => 2
    case Error => 3
    case Critical => 4
  }

  /** A log entry goes to the log file when its level is at least the configured one. */
  predicate WrittenToFile(level: Level, configured: Level) {
    Rank(level) >= Rank(configured)
  }

  datatype Config = Config(
    targetDir: string,
    filenameRule: string,
    folderStructure: string,
    pixivCookie: string,
    maxRetries: int,
    baseRetryDelay: int,
    maxRetryDelay: int,
    enableExponentialBackoff: bool,
    enableJitter: bool,
    retryOn429: bool,
    retryOnTimeout: bool,
    idRegexPattern: string,
    tagSeparator: string,
    tagTranslationSeparator: string,
    logLevel: Level)

  /** The values the organiser starts from before any saved configuration is
      loaded; `tag_translation_separator` is never set and is read with `" "` as
      its default. */
  const Defaults: Config := Config(
    targetDir := "",
    filenameRule := "{id}",
    folderStructure := "{user}/{title}",
    pixivCookie := "",
    maxRetries := 5,
    baseRetryDelay := 3,
    maxRetryDelay := 60,
    enableExponentialBackoff := true,
    enableJitter := true,
    retryOn429 := true,
    retryOnTimeout := true,
    idRegexPattern := "(\\d+)",
    tagSeparator := ", ",
    tagTranslationSeparator := " ",
    logLevel := Info)

  /** Under the default level `INFO`, everything but DEBUG entries is written. */
  lemma DefaultLevelSkipsOnlyDebug(level: Level)
    ensures WrittenToFile(level, Defaults.logLevel) <==> level != Debug
  {
  }

  /** A level at or above one that is written is written too. */
  lemma WrittenToFileUpward(level: Level, higher: Level, configured: Level)
    ensures WrittenToFile(level, configured) && Rank(level) <= Rank(higher) ==> WrittenToFile(higher, configured)
  {
  }
}
