/** The process-wide template configuration cell (`templateConfig`) and
    `updateTemplateConfig` / `getTemplateConfig`. */
module TemplateConfig {
  import opened Wrappers

  /** The configuration object: `variables` is what template references are
      resolved against; the other top-level keys an update supplies are kept
      but never read by the handler. Values are strings. */
  datatype Config = Config(variables: map<string, string>, others: map<string, string>)

  /** The argument of `updateTemplateConfig`: an optional `variables` object and
      any other top-level keys. */
  datatype Update = Update(variables: Option<map<string, string>>, others: map<string, string>)

  /** The built-in variable set; `today` is the start-up date string, which the
      source takes from the clock and locale. */
  function DefaultVariables(today: string): (m: map<string, string>)
    ensures m.Keys == {"title", "author", "date", "version", "organization"}
    ensures m["date"] == today && m["title"] == "Document"
  {
    map[
      "title" := "Document",
      "author" := "Unknown",
      "date" := today,
      "version" := "1.0.0",
      "organization" := "Your Organization"
    ]
  }

  function DefaultConfig(today: string): Config {
    Config(DefaultVariables(today), map[])
  }

  /** `{ ...defaultTemplateConfig, ...config }`: the result is rebuilt from the
      defaults, never from the current cell, and a supplied `variables` object
      replaces the whole default set instead of being merged key by key. */
  function Rebuilt(today: string, u: Update): (c: Config)
    ensures u.variables.Some? ==> c.variables == u.variables.value
    ensures u.variables.None? ==> c.variables == DefaultVariables(today)
    ensures c.others == u.others
  {
    Config(u.variables.GetOr(DefaultVariables(today)), u.others)
  }

  /** The cell after a series of updates, starting from `start`. */
  function AfterUpdates(today: string, start: Config, updates: seq<Update>): Config
    decreases |updates|
  {
    if updates == [] then start
    else AfterUpdates(today, Rebuilt(today, updates[0]), updates[1..])
  }

  /** Only the last update matters: whatever came before is forgotten. */
  lemma {:induction false} LastUpdateWins(today: string, start: Config, updates: seq<Update>)
    requires updates != []
    ensures AfterUpdates(today, start, updates) == Rebuilt(today, updates[|updates| - 1])
    decreases |updates|
  {
    if |updates| > 1 {
      LastUpdateWins(today, Rebuilt(today, updates[0]), updates[1..]);
    }
  }

  /** The module-level cell. */
  class TemplateStore {
    const today: string
    var config: Config

    /** `let templateConfig = { ...defaultTemplateConfig }` */
    constructor (today: string)
      ensures this.today == today && config == DefaultConfig(today)
    {
      this.today := today;
      config := DefaultConfig(today);
    }

    /** `updateTemplateConfig(config)` */
    method UpdateTemplateConfig(u: Update)
      modifies this
      ensures config == Rebuilt(today, u)
    {
      config := Config(u.variables.GetOr(DefaultVariables(today)), u.others);
    }

    /** `getTemplateConfig()` */
    method GetTemplateConfig() returns (c: Config)
      ensures c == config
    {
      c := config;
    }
  }
}
