/** The localStorage wrappers of the URL generator (lib/storage-utils.ts).
    The browser's storage is a map from keys to texts; `failing` stands for
    a storage whose every access throws (storage disabled, quota exceeded),
    which the wrappers catch and turn into `false`, `null` or `[]`. No
    wrapper checks the shape of what it reads back: a load yields the parsed
    JSON value, and the typed decoders of UrlJson say when that value is a
    configuration or a history. */
module StorageUtils {
  import opened Wrappers
  import opened Json
  import opened UrlTypes
  import opened UrlJson

  /** `JSON.stringify(config)` and `JSON.stringify(history)`. */
  function ConfigurationText(config: UrlConfiguration): string {
    Serialize(ConfigurationToJson(config))
  }

  function HistoryText(history: seq<HistoryEntry>): string {
    Serialize(HistoryToJson(history))
  }

  /** What `loadConfiguration` returns for a storage state: nothing when the
      storage throws, the key is missing or holds '', the text does not parse
      (JSON.parse throws) or parses to `null`; otherwise the parsed value. */
  function ConfigurationIn(items: map<string, string>, failing: bool): (r: Option<Json>)
    ensures r.Some? ==> !failing && CURRENT_CONFIG_KEY in items && Parse(items[CURRENT_CONFIG_KEY]) == r
    ensures r.Some? ==> r.value != JNull
  {
    if failing || CURRENT_CONFIG_KEY !in items || items[CURRENT_CONFIG_KEY] == "" then None
    else match Parse(items[CURRENT_CONFIG_KEY])
      case Some(JNull) => None
      case other => other
  }

  /** What `loadHistory` returns: the elements of the stored array, and []
      whenever the storage throws, the key is missing or '', the text does
      not parse or it parses to something other than an array. */
  function HistoryIn(items: map<string, string>, failing: bool): (r: seq<Json>)
    ensures |r| > 0 ==> !failing && HISTORY_KEY in items && Parse(items[HISTORY_KEY]) == Some(JArray(r))
  {
    if failing || HISTORY_KEY !in items || items[HISTORY_KEY] == "" then []
    else match Parse(items[HISTORY_KEY])
      case Some(JArray(elements)) => elements
      case _ => []
  }

  class Store {
    var items: map<string, string>
    var failing: bool

    constructor(items0: map<string, string>, failing0: bool)
      ensures items == items0 && failing == failing0
    {
      items := items0;
      failing := failing0;
    }

    /** `saveConfiguration`: true and the text stored under the current-
        configuration key, or false and nothing changed. */
    method SaveConfiguration(config: UrlConfiguration) returns (ok: bool)
      modifies this
      ensures ok == !old(failing) && failing == old(failing)
      ensures items == if ok then old(items)[CURRENT_CONFIG_KEY := ConfigurationText(config)] else old(items)
    {
      if failing {
        return false;
      }
      items := items[CURRENT_CONFIG_KEY := ConfigurationText(config)];
      return true;
    }

    method LoadConfiguration() returns (config: Option<Json>)
      ensures config == ConfigurationIn(items, failing)
    {
      if failing || CURRENT_CONFIG_KEY !in items {
        return None;
      }
      var serialized := items[CURRENT_CONFIG_KEY];
      if serialized == "" {
        return None;
      }
      var parsed := Parse(serialized);
      if parsed == Some(JNull) {
        return None;
      }
      return parsed;
    }

    /** `saveHistory`: true and the text stored under the history key, or
        false and nothing changed. */
    method SaveHistory(history: seq<HistoryEntry>) returns (ok: bool)
      modifies this
      ensures ok == !old(failing) && failing == old(failing)
      ensures items == if ok then old(items)[HISTORY_KEY := HistoryText(history)] else old(items)
    {
      if failing {
        return false;
      }
      items := items[HISTORY_KEY := HistoryText(history)];
      return true;
    }

    method LoadHistory() returns (history: seq<Json>)
      ensures history == HistoryIn(items, failing)
    {
      if failing || HISTORY_KEY !in items {
        return [];
      }
      var serialized := items[HISTORY_KEY];
      if serialized == "" {
        return [];
      }
      var parsed := Parse(serialized);
      if parsed.Some? && parsed.value.JArray? {
        return parsed.value.items;
      }
      return [];
    }
  }

  // ---- what a save makes the next load return -------------------------------

  /** A saved configuration loads back as the same configuration. */
  lemma ConfigurationSaveLoad(items: map<string, string>, config: UrlConfiguration)
    ensures var loaded := ConfigurationIn(items[CURRENT_CONFIG_KEY := ConfigurationText(config)], false);
      loaded == Some(ConfigurationToJson(config)) && ConfigurationFromJson(loaded.value) == Some(config)
  {
    RoundTrip(ConfigurationToJson(config));
    ConfigurationRoundTrip(config);
    assert ConfigurationText(config) != "" by { ConfigurationStarts(config); }
  }

  lemma ConfigurationStarts(config: UrlConfiguration)
    ensures |ConfigurationText(config)| >= 1
  {
  }

  /** A saved history loads back as the same entries, in the same order. */
  lemma HistorySaveLoad(items: map<string, string>, history: seq<HistoryEntry>)
    ensures var loaded := HistoryIn(items[HISTORY_KEY := HistoryText(history)], false);
      loaded == HistoryToJson(history).items && HistoryFromJson(loaded) == Some(history)
  {
    RoundTrip(HistoryToJson(history));
    HistoryRoundTrip(history);
  }

  /** The two keys are distinct: saving one never changes what the other
      loads. */
  lemma KeysIndependent(items: map<string, string>, failing: bool, text: string)
    ensures ConfigurationIn(items[HISTORY_KEY := text], failing) == ConfigurationIn(items, failing)
    ensures HistoryIn(items[CURRENT_CONFIG_KEY := text], failing) == HistoryIn(items, failing)
  {
    assert HISTORY_KEY != CURRENT_CONFIG_KEY by { assert HISTORY_KEY[14] != CURRENT_CONFIG_KEY[14]; }
  }

  /** A storage that throws loads nothing, whatever it holds. */
  lemma FailingLoadsNothing(items: map<string, string>)
    ensures ConfigurationIn(items, true) == None && HistoryIn(items, true) == []
  {
  }

  /** A stored value that is not an array loads as the empty history. */
  lemma NonArrayHistory(items: map<string, string>, j: Json)
    requires !j.JArray?
    ensures HistoryIn(items[HISTORY_KEY := Serialize(j)], false) == []
  {
    RoundTrip(j);
  }

  /** A stored `null` loads as no configuration. */
  lemma NullConfiguration(items: map<string, string>)
    ensures ConfigurationIn(items[CURRENT_CONFIG_KEY := Serialize(JNull)], false) == None
  {
    RoundTrip(JNull);
  }
}
