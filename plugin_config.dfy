/**
 * The plugin's settings: whether it is enabled, and the default number of
 * processes the `top` and `mem` operations list.
 */
module PluginConfig {
  import opened Wrappers

  /** The configuration object as given; either field may be absent. */
  datatype Config = Config(enabled: Option<bool>, topLimit: Option<int>)

  datatype Settings = Settings(enabled: bool, topLimit: int)

  const DefaultTopLimit := 10

  /** `enabled = config?.enabled !== false` and `topLimit = config?.topLimit ?? 10`. */
  function Resolve(config: Option<Config>): (r: Settings)
    ensures r.enabled <==> !(config.Some? && config.value.enabled == Some(false))
    ensures config.Some? && config.value.topLimit.Some? ==> r.topLimit == config.value.topLimit.value
    ensures !(config.Some? && config.value.topLimit.Some?) ==> r.topLimit == DefaultTopLimit
  {
    var enabled := if config.Some? && config.value.enabled.Some? then config.value.enabled.value != false else true;
    var topLimit := if config.Some? && config.value.topLimit.Some? then config.value.topLimit.value else DefaultTopLimit;
    Settings(enabled, topLimit)
  }

  /**
   * A configured limit of 0 (or any other value) is kept: only an absent one
   * falls back to 10, unlike a falsy-default.
   */
  lemma ZeroLimitKept(enabled: Option<bool>)
    ensures Resolve(Some(Config(enabled, Some(0)))).topLimit == 0
    ensures Resolve(Some(Config(enabled, None))).topLimit == DefaultTopLimit
    ensures Resolve(None) == Settings(true, DefaultTopLimit)
  {
  }
}
