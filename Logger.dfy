/**
 * The level filter of src/utils/logger.ts. The configured level is the raw
 * configuration string; the console and file writes are represented by the
 * line a logger method emits, or by nothing.
 */
module Logger {
  import opened Wrappers

  datatype Level = Debug | Info | Warn | Error

  /** The `levels` table. */
  function Rank(l: Level): (n: nat)
    ensures n <= 3
  {
    match l
    case Debug => 0
    case Info => 1
    case Warn => 2
    case Error => 3
  }

  /** The table entry for a configured level string; an unknown string has none. */
  function ConfiguredRank(config: string): (r: Option<nat>)
    ensures r.Some? <==> config in {"debug", "info", "warn", "error"}
    ensures r.Some? ==> r.value <= 3
  {
    if config == "debug" then Some(0)
    else if config == "info" then Some(1)
    else if config == "warn" then Some(2)
    else if config == "error" then Some(3)
    else None
  }

  /**
   * `shouldLog`: the message's rank against the configured rank. A missing
   * table entry is `undefined`, and a number compared with `undefined` is
   * never `>=`.
   */
  function ShouldLog(level: Level, config: string): bool {
    match ConfiguredRank(config)
    case None => false
    case Some(c) => Rank(level) >= c
  }

  /** One console line written by a logger method. */
  datatype Line = Line(level: Level, message: string)

  /** `logger.debug` / `info` / `warn` / `error`: the guard, then the write. */
  function Log(level: Level, config: string, message: string): (out: seq<Line>)
    ensures out == [Line(level, message)] || out == []
    ensures out != [] <==> ShouldLog(level, config)
  {
    if !ShouldLog(level, config) then [] else [Line(level, message)]
  }

  /** Ranks strictly increase from debug to error. */
  lemma RanksOrdered()
    ensures Rank(Debug) < Rank(Info) < Rank(Warn) < Rank(Error)
  {
  }

  /** Whatever level is emitted, every higher level is emitted too. */
  lemma Monotonic(a: Level, b: Level, config: string)
    requires Rank(a) <= Rank(b)
    ensures ShouldLog(a, config) ==> ShouldLog(b, config)
  {
  }

  /** Errors are emitted under every recognised configuration. */
  lemma ErrorsAlwaysEmitted(config: string)
    requires ConfiguredRank(config).Some?
    ensures ShouldLog(Error, config)
  {
  }

  /** An unrecognised configured level silences every level. */
  lemma UnknownConfigSilences(level: Level, config: string)
    requires config !in {"debug", "info", "warn", "error"}
    ensures Log(level, config, "") == []
  {
  }

  /** A configured level lets exactly the levels of at least its own rank through. */
  lemma ThresholdExact(level: Level, config: Level, name: string)
    requires name == ["debug", "info", "warn", "error"][Rank(config)]
    ensures ShouldLog(level, name) <==> Rank(level) >= Rank(config)
  {
  }
}
