/** The state rules of the URL generator component
    (components/url-generator/url-generator.tsx): the history policy of
    `addToHistory`, the parameter handlers and the history handlers as
    transformations of sequences, and the component itself as an object
    whose handlers apply them and then run the component's two effects
    (regenerate the URL, save the configuration) or save the history.
    Fresh ids and the current time are parameters. */
module UrlGenerator {
  import opened Wrappers
  import opened Text
  import opened Seqs
  import opened Json
  import opened UrlTypes
  import opened UrlUtils
  import opened UrlJson
  import opened StorageUtils

  function Min(a: int, b: int): int {
    if a <= b then a else b
  }

  // ---- the history policy ---------------------------------------------------

  /** The entry `addToHistory` builds from the current state. */
  function NewEntry(baseUrl: string, parameters: seq<QueryParameter>, generatedUrl: string,
                    id: string, now: int): HistoryEntry
  {
    HistoryEntry(id, UrlConfiguration(baseUrl, parameters), now, generatedUrl)
  }

  /** The history after `addToHistory`, or None when the history stays as it
      is and nothing is saved: when there is neither a base URL nor a
      parameter, when the generated URL is blank, and when the most recent
      entry has the same base URL and the same parameter JSON. Otherwise the
      new entry goes in front and the list is cut to MAX_HISTORY_ENTRIES. */
  function AddToHistory(history: seq<HistoryEntry>, baseUrl: string, parameters: seq<QueryParameter>,
                        generatedUrl: string, id: string, now: int): (r: Option<seq<HistoryEntry>>)
    ensures r.Some? ==> 1 <= |r.value| <= MAX_HISTORY_ENTRIES
    ensures r.Some? ==> r.value[0] == NewEntry(baseUrl, parameters, generatedUrl, id, now)
  {
    if IsBlank(baseUrl) && |parameters| == 0 then None
    else if IsBlank(generatedUrl) then None
    else if |history| > 0 && history[0].configuration.baseUrl == baseUrl
            && Serialize(ParametersToJson(history[0].configuration.parameters))
               == Serialize(ParametersToJson(parameters)) then None
    else
      var updated := [NewEntry(baseUrl, parameters, generatedUrl, id, now)] + history;
      Some(updated[..Min(|updated|, MAX_HISTORY_ENTRIES)])
  }

  /** The most recent entry holds exactly this configuration. */
  predicate DuplicatesHead(history: seq<HistoryEntry>, baseUrl: string, parameters: seq<QueryParameter>) {
    |history| > 0 && history[0].configuration == UrlConfiguration(baseUrl, parameters)
  }

  /** The history is kept exactly in the three skip cases; comparing the
      parameters' JSON texts is the same as comparing the parameter lists
      element by element (id, name and value, in order). */
  lemma AddToHistorySkips(history: seq<HistoryEntry>, baseUrl: string, parameters: seq<QueryParameter>,
                          generatedUrl: string, id: string, now: int)
    ensures AddToHistory(history, baseUrl, parameters, generatedUrl, id, now).None?
        <==> (IsBlank(baseUrl) && |parameters| == 0) || IsBlank(generatedUrl)
             || DuplicatesHead(history, baseUrl, parameters)
  {
    if |history| > 0 {
      ParametersTextIff(history[0].configuration.parameters, parameters);
    }
  }

  /** An added entry comes first, the previous entries follow in order, and
      the list holds min(|history| + 1, 10) entries. */
  lemma AddToHistoryPrepends(history: seq<HistoryEntry>, baseUrl: string, parameters: seq<QueryParameter>,
                             generatedUrl: string, id: string, now: int)
    requires AddToHistory(history, baseUrl, parameters, generatedUrl, id, now).Some?
    ensures var h := AddToHistory(history, baseUrl, parameters, generatedUrl, id, now).value;
      && |h| == Min(|history| + 1, MAX_HISTORY_ENTRIES)
      && h[0] == NewEntry(baseUrl, parameters, generatedUrl, id, now)
      && h[1..] == history[..|h| - 1]
  {
  }

  /** When the generated URL is the one the state renders to, the two
      emptiness checks together skip exactly the states whose URL is blank:
      a blank base URL with no parameter whose name survives. */
  lemma EmptinessChecks(baseUrl: string, parameters: seq<QueryParameter>)
    ensures (IsBlank(baseUrl) && |parameters| == 0) || IsBlank(GenerateUrl(baseUrl, parameters))
        <==> IsBlank(baseUrl) && |ValidParameters(parameters)| == 0
  {
    BlankUrlIff(baseUrl, parameters);
  }

  /** An entry whose URL is the one its configuration renders to. */
  predicate Consistent(e: HistoryEntry) {
    e.generatedUrl == GenerateUrl(e.configuration.baseUrl, e.configuration.parameters)
  }

  /** Adding from a state whose URL is up to date keeps every entry
      consistent. */
  lemma AddToHistoryConsistent(history: seq<HistoryEntry>, baseUrl: string, parameters: seq<QueryParameter>,
                               id: string, now: int)
    requires forall i :: 0 <= i < |history| ==> Consistent(history[i])
    requires AddToHistory(history, baseUrl, parameters, GenerateUrl(baseUrl, parameters), id, now).Some?
    ensures var h := AddToHistory(history, baseUrl, parameters, GenerateUrl(baseUrl, parameters), id, now).value;
      forall i :: 0 <= i < |h| ==> Consistent(h[i])
  {
    var h := AddToHistory(history, baseUrl, parameters, GenerateUrl(baseUrl, parameters), id, now).value;
    AddToHistoryPrepends(history, baseUrl, parameters, GenerateUrl(baseUrl, parameters), id, now);
    forall i | 0 <= i < |h| ensures Consistent(h[i]) {
      if i > 0 {
        assert h[i] == h[1..][i - 1] == history[i - 1];
      }
    }
  }

  // ---- the parameter handlers -----------------------------------------------

  /** `handleAddParameter`: a new row with empty name and value at the end. */
  function AddParameter(parameters: seq<QueryParameter>, id: string): (r: seq<QueryParameter>)
    ensures |r| == |parameters| + 1 && r[..|parameters|] == parameters
    ensures r[|parameters|].id == id && IsBlank(r[|parameters|].name) && r[|parameters|].value == ""
  {
    assert IsBlank("");
    parameters + [QueryParameter(id, "", "")]
  }

  /** The new row has a blank name, so the generated URL does not change. */
  lemma AddParameterKeepsUrl(baseUrl: string, parameters: seq<QueryParameter>, id: string)
    ensures var added := AddParameter(parameters, id);
      && |added| == |parameters| + 1 && added[..|parameters|] == parameters
      && GenerateUrl(baseUrl, added) == GenerateUrl(baseUrl, parameters)
  {
    var extra := [QueryParameter(id, "", "")];
    FilterAppend(parameters, extra, HasName);
    assert Filter(extra, HasName) == [];
    assert ValidParameters(AddParameter(parameters, id)) == ValidParameters(parameters);
  }

  datatype ParameterField = Name | Value

  function SetField(p: QueryParameter, field: ParameterField, value: string): QueryParameter {
    match field
    case Name => p.(name := value)
    case Value => p.(value := value)
  }

  /** `handleUpdateParameter`: every row with the id gets the chosen field
      replaced; the length, the order and every other row stay. */
  function UpdateParameter(parameters: seq<QueryParameter>, id: string, field: ParameterField,
                           value: string): (r: seq<QueryParameter>)
    ensures |r| == |parameters|
    ensures forall i :: 0 <= i < |r| && parameters[i].id != id ==> r[i] == parameters[i]
    ensures forall i :: 0 <= i < |r| && parameters[i].id == id ==>
      && r[i].id == id
      && r[i].name == (if field == Name then value else parameters[i].name)
      && r[i].value == (if field == Value then value else parameters[i].value)
  {
    seq(|parameters|, i requires 0 <= i < |parameters| =>
      if parameters[i].id == id then SetField(parameters[i], field, value) else parameters[i])
  }

  /** Updating twice with the same arguments is updating once, and an id no
      row has changes nothing. */
  lemma UpdateParameterIdempotent(parameters: seq<QueryParameter>, id: string, field: ParameterField, value: string)
    ensures var once := UpdateParameter(parameters, id, field, value);
      UpdateParameter(once, id, field, value) == once
  {
  }

  lemma UpdateUnknownId(parameters: seq<QueryParameter>, id: string, field: ParameterField, value: string)
    requires forall i :: 0 <= i < |parameters| ==> parameters[i].id != id
    ensures UpdateParameter(parameters, id, field, value) == parameters
  {
  }

  function ParameterIdIsNot(id: string): QueryParameter -> bool {
    (p: QueryParameter) => p.id != id
  }

  /** `handleDeleteParameter`: no row with the id is left. */
  function DeleteParameter(parameters: seq<QueryParameter>, id: string): (r: seq<QueryParameter>)
    ensures IsSubsequence(r, parameters)
    ensures forall i :: 0 <= i < |r| ==> r[i].id != id
  {
    Filter(parameters, ParameterIdIsNot(id))
  }

  /** Deleting removes exactly the rows with the id and keeps the others,
      each as often as before and in their order; deleting again changes
      nothing. */
  lemma DeleteParameterRemoves(parameters: seq<QueryParameter>, id: string)
    ensures var r := DeleteParameter(parameters, id);
      && IsSubsequence(r, parameters)
      && (forall p :: p in r <==> p in parameters && p.id != id)
      && (forall p: QueryParameter :: p.id != id ==> multiset(r)[p] == multiset(parameters)[p])
      && DeleteParameter(r, id) == r
  {
    var r := DeleteParameter(parameters, id);
    forall p ensures p in r <==> p in parameters && p.id != id {
      assert multiset(r)[p] == if p.id != id then multiset(parameters)[p] else 0;
    }
    FilterAll(r, ParameterIdIsNot(id));
  }

  // ---- the history handlers -------------------------------------------------

  function EntryIdIsNot(id: string): HistoryEntry -> bool {
    (e: HistoryEntry) => e.id != id
  }

  /** `handleDeleteHistoryEntry`: no entry with the id is left. */
  function DeleteHistoryEntry(history: seq<HistoryEntry>, id: string): (r: seq<HistoryEntry>)
    ensures IsSubsequence(r, history)
    ensures forall i :: 0 <= i < |r| ==> r[i].id != id
  {
    Filter(history, EntryIdIsNot(id))
  }

  lemma DeleteHistoryEntryRemoves(history: seq<HistoryEntry>, id: string)
    ensures var r := DeleteHistoryEntry(history, id);
      && IsSubsequence(r, history)
      && (forall e :: e in r <==> e in history && e.id != id)
      && (forall e: HistoryEntry :: e.id != id ==> multiset(r)[e] == multiset(history)[e])
      && DeleteHistoryEntry(r, id) == r
  {
    var r := DeleteHistoryEntry(history, id);
    forall e ensures e in r <==> e in history && e.id != id {
      assert multiset(r)[e] == if e.id != id then multiset(history)[e] else 0;
    }
    FilterAll(r, EntryIdIsNot(id));
  }

  /** Loading a consistent entry back reproduces the URL it recorded. */
  lemma LoadConsistentEntry(e: HistoryEntry)
    requires Consistent(e)
    ensures GenerateUrl(e.configuration.baseUrl, e.configuration.parameters) == e.generatedUrl
  {
  }

  /** What a save leaves in the storage: the new text under the key, or the
      old contents when the storage throws. */
  function Written(items: map<string, string>, failing: bool, key: string, text: string): map<string, string> {
    if failing then items else items[key := text]
  }

  /** The configuration the component shows after mounting: the stored one
      when it loads and decodes, else the empty initial one. A stored value
      that does not decode as a configuration is ignored. */
  function Loaded(items: map<string, string>, failing: bool): (c: UrlConfiguration)
    ensures failing ==> c == UrlConfiguration("", [])
    ensures c != UrlConfiguration("", []) ==>
      && ConfigurationIn(items, failing).Some?
      && ConfigurationFromJson(ConfigurationIn(items, failing).value) == Some(c)
  {
    var loaded := ConfigurationIn(items, failing);
    var decoded := if loaded.Some? then ConfigurationFromJson(loaded.value) else None;
    decoded.GetOr(UrlConfiguration("", []))
  }

  /** The history after mounting: the stored one when every element decodes
      as an entry, else []. A stored array with one element that is not an
      entry therefore loads as [], where the component keeps the whole
      array as parsed and goes on with undefined fields. */
  function LoadedHistory(items: map<string, string>, failing: bool): (h: seq<HistoryEntry>)
    ensures failing ==> h == []
    ensures h != [] ==> HistoryFromJson(HistoryIn(items, failing)) == Some(h)
    ensures HistoryFromJson(HistoryIn(items, failing)).None? ==> h == []
  {
    HistoryFromJson(HistoryIn(items, failing)).GetOr([])
  }

  /** Mounting over a storage that holds a saved configuration and history
      shows exactly them. */
  lemma MountRestores(items: map<string, string>, config: UrlConfiguration, history: seq<HistoryEntry>)
    ensures var stored := items[CURRENT_CONFIG_KEY := ConfigurationText(config)][HISTORY_KEY := HistoryText(history)];
      Loaded(stored, false) == config && LoadedHistory(stored, false) == history
  {
    var saved := items[CURRENT_CONFIG_KEY := ConfigurationText(config)];
    ConfigurationSaveLoad(items, config);
    KeysIndependent(saved, false, HistoryText(history));
    HistorySaveLoad(saved, history);
  }

  /** A storage that throws gives the empty configuration and history. */
  lemma MountFailing(items: map<string, string>)
    ensures Loaded(items, true) == UrlConfiguration("", []) && LoadedHistory(items, true) == []
  {
  }

  // ---- the component --------------------------------------------------------

  /** A second write to a key replaces the first. */
  lemma OverwriteTwice(m: map<string, string>, k: string, v1: string, v2: string)
    ensures m[k := v1][k := v2] == m[k := v2]
  {
  }

  /** The storage side of mounting: load both keys, save the empty initial
      configuration, and save the loaded configuration back when it decodes. */
  method Restore(s: Store) returns (config: UrlConfiguration, history: seq<HistoryEntry>)
    modifies s
    ensures config == Loaded(old(s.items), old(s.failing))
    ensures history == LoadedHistory(old(s.items), old(s.failing))
    ensures s.failing == old(s.failing)
    ensures s.items == Written(old(s.items), old(s.failing), CURRENT_CONFIG_KEY, ConfigurationText(config))
  {
    ghost var items0, failing := s.items, s.failing;
    var savedConfig := s.LoadConfiguration();
    var savedHistory := s.LoadHistory();
    config := UrlConfiguration("", []);
    var _ := s.SaveConfiguration(config);
    var decoded := if savedConfig.Some? then ConfigurationFromJson(savedConfig.value) else None;
    if decoded.Some? {
      config := decoded.value;
      var _ := s.SaveConfiguration(config);
      if !failing {
        OverwriteTwice(items0, CURRENT_CONFIG_KEY, ConfigurationText(UrlConfiguration("", [])),
                       ConfigurationText(config));
      }
    }
    history := HistoryFromJson(savedHistory).GetOr([]);
  }

  class Generator {
    var baseUrl: string
    var parameters: seq<QueryParameter>
    var generatedUrl: string
    var history: seq<HistoryEntry>
    const store: Store

    /** The URL on display is the one the inputs render to. */
    ghost predicate Valid()
      reads this
    {
      generatedUrl == GenerateUrl(baseUrl, parameters)
    }

    /** Mounting: the first render's effects load the stored configuration
        and history, then regenerate and save the empty initial
        configuration; when a configuration was loaded the second render
        regenerates from it and saves it back. */
    constructor Mount(s: Store)
      modifies s
      ensures store == s && Valid()
      ensures Loaded(old(s.items), old(s.failing)) == UrlConfiguration(baseUrl, parameters)
      ensures history == LoadedHistory(old(s.items), old(s.failing))
      ensures s.failing == old(s.failing)
      ensures s.items == Written(old(s.items), old(s.failing), CURRENT_CONFIG_KEY,
                                 ConfigurationText(UrlConfiguration(baseUrl, parameters)))
    {
      var config, loadedHistory := Restore(s);
      store := s;
      baseUrl, parameters := config.baseUrl, config.parameters;
      generatedUrl := GenerateUrl(config.baseUrl, config.parameters);
      history := loadedHistory;
    }

    /** The two effects that follow a change of the base URL or the
        parameters. */
    method Refresh()
      modifies this, store
      ensures Valid()
      ensures baseUrl == old(baseUrl) && parameters == old(parameters) && history == old(history)
      ensures store.failing == old(store.failing)
      ensures store.items == Written(old(store.items), old(store.failing), CURRENT_CONFIG_KEY,
                                     ConfigurationText(UrlConfiguration(baseUrl, parameters)))
    {
      generatedUrl := GenerateUrl(baseUrl, parameters);
      var _ := store.SaveConfiguration(UrlConfiguration(baseUrl, parameters));
    }

    /** The base URL input's `setBaseUrl`; setting the same text again does
        not re-render, so the effects do not run. */
    method SetBaseUrl(b: string)
      requires Valid()
      modifies this, store
      ensures Valid()
      ensures baseUrl == b && parameters == old(parameters) && history == old(history)
      ensures store.failing == old(store.failing)
      ensures store.items == if b == old(baseUrl) then old(store.items)
        else Written(old(store.items), old(store.failing), CURRENT_CONFIG_KEY,
                     ConfigurationText(UrlConfiguration(b, parameters)))
    {
      if b != baseUrl {
        baseUrl := b;
        Refresh();
      }
    }

    method HandleAddParameter(id: string)
      modifies this, store
      ensures Valid()
      ensures parameters == AddParameter(old(parameters), id)
      ensures baseUrl == old(baseUrl) && history == old(history)
      ensures store.failing == old(store.failing)
      ensures store.items == Written(old(store.items), old(store.failing), CURRENT_CONFIG_KEY,
                                     ConfigurationText(UrlConfiguration(baseUrl, parameters)))
    {
      parameters := AddParameter(parameters, id);
      Refresh();
    }

    method HandleUpdateParameter(id: string, field: ParameterField, value: string)
      modifies this, store
      ensures Valid()
      ensures parameters == UpdateParameter(old(parameters), id, field, value)
      ensures baseUrl == old(baseUrl) && history == old(history)
      ensures store.failing == old(store.failing)
      ensures store.items == Written(old(store.items), old(store.failing), CURRENT_CONFIG_KEY,
                                     ConfigurationText(UrlConfiguration(baseUrl, parameters)))
    {
      parameters := UpdateParameter(parameters, id, field, value);
      Refresh();
    }

    method HandleDeleteParameter(id: string)
      modifies this, store
      ensures Valid()
      ensures parameters == DeleteParameter(old(parameters), id)
      ensures baseUrl == old(baseUrl) && history == old(history)
      ensures store.failing == old(store.failing)
      ensures store.items == Written(old(store.items), old(store.failing), CURRENT_CONFIG_KEY,
                                     ConfigurationText(UrlConfiguration(baseUrl, parameters)))
    {
      parameters := DeleteParameter(parameters, id);
      Refresh();
    }

    /** `handleCopy`'s call of `addToHistory`: the history and the stored
        history change together, or neither does. */
    method HandleCopy(id: string, now: int)
      modifies this, store
      ensures baseUrl == old(baseUrl) && parameters == old(parameters) && generatedUrl == old(generatedUrl)
      ensures store.failing == old(store.failing)
      ensures var added := AddToHistory(old(history), baseUrl, parameters, generatedUrl, id, now);
        && history == added.GetOr(old(history))
        && store.items == if added.None? then old(store.items)
             else Written(old(store.items), old(store.failing), HISTORY_KEY, HistoryText(added.value))
    {
      var added := AddToHistory(history, baseUrl, parameters, generatedUrl, id, now);
      if added.Some? {
        history := added.value;
        var _ := store.SaveHistory(history);
      }
    }

    /** `handleLoadHistory`: the entry's configuration becomes the current
        one. */
    method HandleLoadHistory(entry: HistoryEntry)
      modifies this, store
      ensures Valid()
      ensures baseUrl == entry.configuration.baseUrl && parameters == entry.configuration.parameters
      ensures history == old(history)
      ensures Consistent(entry) ==> generatedUrl == entry.generatedUrl
      ensures store.failing == old(store.failing)
      ensures store.items == Written(old(store.items), old(store.failing), CURRENT_CONFIG_KEY,
                                     ConfigurationText(entry.configuration))
    {
      baseUrl, parameters := entry.configuration.baseUrl, entry.configuration.parameters;
      Refresh();
    }

    method HandleClearHistory()
      modifies this, store
      ensures history == []
      ensures baseUrl == old(baseUrl) && parameters == old(parameters) && generatedUrl == old(generatedUrl)
      ensures store.failing == old(store.failing)
      ensures store.items == Written(old(store.items), old(store.failing), HISTORY_KEY, HistoryText([]))
    {
      history := [];
      var _ := store.SaveHistory([]);
    }

    method HandleDeleteHistoryEntry(id: string)
      modifies this, store
      ensures history == DeleteHistoryEntry(old(history), id)
      ensures baseUrl == old(baseUrl) && parameters == old(parameters) && generatedUrl == old(generatedUrl)
      ensures store.failing == old(store.failing)
      ensures store.items == Written(old(store.items), old(store.failing), HISTORY_KEY, HistoryText(history))
    {
      history := DeleteHistoryEntry(history, id);
      var _ := store.SaveHistory(history);
    }
  }
}
