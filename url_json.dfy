/** The JSON form of the URL generator's records. `JSON.stringify` writes an
    object's members in the order the object was built, and every record
    here is built as `{ id, name, value }`, `{ baseUrl, parameters }` and
    `{ id, configuration, timestamp, generatedUrl }` (a spread update keeps
    the order). Reading a record back looks members up by name, the last
    occurrence winning as in `JSON.parse`. */
module UrlJson {
  import opened Wrappers
  import opened Json
  import opened UrlTypes
  import Seqs

  // ---- records to JSON ------------------------------------------------------

  function ParameterToJson(p: QueryParameter): Json {
    JObject([Field("id", JString(p.id)), Field("name", JString(p.name)), Field("value", JString(p.value))])
  }

  function ParametersToJson(ps: seq<QueryParameter>): (j: Json)
    ensures j.JArray? && |j.items| == |ps|
    ensures forall i :: 0 <= i < |ps| ==> j.items[i] == ParameterToJson(ps[i])
  {
    JArray(seq(|ps|, i requires 0 <= i < |ps| => ParameterToJson(ps[i])))
  }

  /** `{ baseUrl, parameters }`: each member reads back by its name. */
  function ConfigurationToJson(c: UrlConfiguration): (j: Json)
    ensures j.JObject? && StringMember(j, "baseUrl") == Some(c.baseUrl)
    ensures Lookup(j.fields, "parameters") == Some(ParametersToJson(c.parameters))
  {
    var f0, f1 := Field("baseUrl", JString(c.baseUrl)), Field("parameters", ParametersToJson(c.parameters));
    assert "baseUrl" != "parameters";
    Lookup2(f0, f1, "baseUrl");
    Lookup2(f0, f1, "parameters");
    JObject([f0, f1])
  }

  /** `{ id, configuration, timestamp, generatedUrl }`: each member reads
      back by its name. */
  function EntryToJson(e: HistoryEntry): (j: Json)
    ensures j.JObject? && StringMember(j, "id") == Some(e.id)
    ensures Lookup(j.fields, "configuration") == Some(ConfigurationToJson(e.configuration))
    ensures Lookup(j.fields, "timestamp") == Some(JNumber(e.timestamp))
    ensures StringMember(j, "generatedUrl") == Some(e.generatedUrl)
  {
    var f0, f1, f2, f3 := Field("id", JString(e.id)), Field("configuration", ConfigurationToJson(e.configuration)),
                          Field("timestamp", JNumber(e.timestamp)), Field("generatedUrl", JString(e.generatedUrl));
    EntryFields(f0, f1, f2, f3);
    JObject([f0, f1, f2, f3])
  }

  function HistoryToJson(h: seq<HistoryEntry>): (j: Json)
    ensures j.JArray? && |j.items| == |h|
    ensures forall i :: 0 <= i < |h| ==> j.items[i] == EntryToJson(h[i])
  {
    JArray(seq(|h|, i requires 0 <= i < |h| => EntryToJson(h[i])))
  }

  // ---- JSON to records ------------------------------------------------------

  /** The value of the last member named `key`. */
  function Lookup(fields: seq<Field>, key: string): (r: Option<Json>)
    ensures r.Some? <==> exists i :: 0 <= i < |fields| && fields[i].key == key
    decreases |fields|
  {
    if fields == [] then None
    else if fields[|fields| - 1].key == key then Some(fields[|fields| - 1].value)
    else Lookup(fields[..|fields| - 1], key)
  }

  function StringMember(j: Json, key: string): Option<string> {
    if !j.JObject? then None
    else match Lookup(j.fields, key)
      case Some(JString(s)) => Some(s)
      case _ => None
  }

  function ParameterFromJson(j: Json): Option<QueryParameter> {
    match (StringMember(j, "id"), StringMember(j, "name"), StringMember(j, "value"))
    case (Some(id), Some(name), Some(value)) => Some(QueryParameter(id, name, value))
    case _ => None
  }

  function ParametersFromJson(items: seq<Json>): (r: Option<seq<QueryParameter>>)
    ensures r.Some? ==> |r.value| == |items|
    decreases |items|
  {
    if items == [] then Some([])
    else match (ParameterFromJson(items[0]), ParametersFromJson(items[1..]))
      case (Some(p), Some(ps)) => Some([p] + ps)
      case _ => None
  }

  /** A configuration is read only from an object whose baseUrl member is
      a string and whose parameters member is an array of parameters. */
  function ConfigurationFromJson(j: Json): (r: Option<UrlConfiguration>)
    ensures r.Some? ==> j.JObject? && StringMember(j, "baseUrl") == Some(r.value.baseUrl)
    ensures r.Some? ==> var m := Lookup(j.fields, "parameters");
      m.Some? && m.value.JArray? && ParametersFromJson(m.value.items) == Some(r.value.parameters)
  {
    if !j.JObject? then None
    else match (StringMember(j, "baseUrl"), Lookup(j.fields, "parameters"))
      case (Some(b), Some(JArray(items))) =>
        (match ParametersFromJson(items)
         case Some(ps) => Some(UrlConfiguration(b, ps))
         case None => None)
      case _ => None
  }

  function EntryFromJson(j: Json): Option<HistoryEntry> {
    if !j.JObject? then None
    else match (StringMember(j, "id"), Lookup(j.fields, "configuration"),
                Lookup(j.fields, "timestamp"), StringMember(j, "generatedUrl"))
      case (Some(id), Some(c), Some(JNumber(t)), Some(url)) =>
        (match ConfigurationFromJson(c)
         case Some(config) => Some(HistoryEntry(id, config, t, url))
         case None => None)
      case _ => None
  }

  function HistoryFromJson(items: seq<Json>): (r: Option<seq<HistoryEntry>>)
    ensures r.Some? ==> |r.value| == |items|
    decreases |items|
  {
    if items == [] then Some([])
    else match (EntryFromJson(items[0]), HistoryFromJson(items[1..]))
      case (Some(e), Some(es)) => Some([e] + es)
      case _ => None
  }

  // ---- round trips --------------------------------------------------------

  /** The members of an entry object are found by their names. */
  lemma EntryFields(f0: Field, f1: Field, f2: Field, f3: Field)
    requires f0.key == "id" && f1.key == "configuration" && f2.key == "timestamp" && f3.key == "generatedUrl"
    ensures Lookup([f0, f1, f2, f3], "id") == Some(f0.value)
    ensures Lookup([f0, f1, f2, f3], "configuration") == Some(f1.value)
    ensures Lookup([f0, f1, f2, f3], "timestamp") == Some(f2.value)
    ensures Lookup([f0, f1, f2, f3], "generatedUrl") == Some(f3.value)
  {
    assert "id" != "configuration" && "id" != "timestamp" && "id" != "generatedUrl";
    assert "configuration" != "timestamp" && "configuration" != "generatedUrl";
    assert "timestamp" != "generatedUrl";
    Lookup4(f0, f1, f2, f3, "id");
    Lookup3(f0, f1, f2, "id");
    Lookup2(f0, f1, "id");
    Lookup4(f0, f1, f2, f3, "configuration");
    Lookup3(f0, f1, f2, "configuration");
    Lookup2(f0, f1, "configuration");
    Lookup4(f0, f1, f2, f3, "timestamp");
    Lookup3(f0, f1, f2, "timestamp");
    Lookup4(f0, f1, f2, f3, "generatedUrl");
  }

  /** The last member decides; an earlier one is reached past members
      with other names. */
  lemma LookupLast(fields: seq<Field>, f: Field, key: string)
    ensures Lookup(fields + [f], key) == if f.key == key then Some(f.value) else Lookup(fields, key)
  {
    assert (fields + [f])[..|fields|] == fields;
  }

  /** Lookups in objects of two, three and four members. */
  lemma Lookup2(f0: Field, f1: Field, key: string)
    ensures Lookup([f0, f1], key)
         == if f1.key == key then Some(f1.value) else if f0.key == key then Some(f0.value) else None
  {
    assert [f0, f1] == [f0] + [f1];
    LookupLast([f0], f1, key);
    LookupLast([], f0, key);
  }

  lemma Lookup3(f0: Field, f1: Field, f2: Field, key: string)
    ensures Lookup([f0, f1, f2], key) == if f2.key == key then Some(f2.value) else Lookup([f0, f1], key)
  {
    assert [f0, f1, f2] == [f0, f1] + [f2];
    LookupLast([f0, f1], f2, key);
  }

  lemma Lookup4(f0: Field, f1: Field, f2: Field, f3: Field, key: string)
    ensures Lookup([f0, f1, f2, f3], key) == if f3.key == key then Some(f3.value) else Lookup([f0, f1, f2], key)
  {
    assert [f0, f1, f2, f3] == [f0, f1, f2] + [f3];
    LookupLast([f0, f1, f2], f3, key);
  }

  lemma ParameterRoundTrip(p: QueryParameter)
    ensures ParameterFromJson(ParameterToJson(p)) == Some(p)
  {
    var f0, f1, f2 := Field("id", JString(p.id)), Field("name", JString(p.name)), Field("value", JString(p.value));
    assert "id" != "name" && "id" != "value" && "name" != "value";
    Lookup3(f0, f1, f2, "id");
    Lookup2(f0, f1, "id");
    Lookup3(f0, f1, f2, "name");
    Lookup2(f0, f1, "name");
    Lookup3(f0, f1, f2, "value");
  }

  lemma {:induction false} ParametersRoundTrip(ps: seq<QueryParameter>)
    ensures ParametersFromJson(ParametersToJson(ps).items) == Some(ps)
    decreases |ps|
  {
    if ps != [] {
      var items := ParametersToJson(ps).items;
      ParameterRoundTrip(ps[0]);
      ParametersRoundTrip(ps[1..]);
      assert items[1..] == ParametersToJson(ps[1..]).items;
      ParametersStep(items, ps[0], ps[1..]);
      Seqs.HeadTail(ps);
    }
  }

  lemma ParametersStep(items: seq<Json>, p: QueryParameter, ps: seq<QueryParameter>)
    requires items != [] && ParameterFromJson(items[0]) == Some(p) && ParametersFromJson(items[1..]) == Some(ps)
    ensures ParametersFromJson(items) == Some([p] + ps)
  {
  }

  lemma ConfigurationRoundTrip(c: UrlConfiguration)
    ensures ConfigurationFromJson(ConfigurationToJson(c)) == Some(c)
  {
    ParametersRoundTrip(c.parameters);
  }

  lemma EntryRoundTrip(e: HistoryEntry)
    ensures EntryFromJson(EntryToJson(e)) == Some(e)
  {
    ConfigurationRoundTrip(e.configuration);
    EntryOf(EntryToJson(e), e.id, ConfigurationToJson(e.configuration), e.timestamp, e.generatedUrl,
            e.configuration);
  }

  /** An object with the four members of an entry reads as that entry. */
  lemma EntryOf(j: Json, id: string, c: Json, t: int, url: string, config: UrlConfiguration)
    requires j.JObject? && StringMember(j, "id") == Some(id) && StringMember(j, "generatedUrl") == Some(url)
    requires Lookup(j.fields, "configuration") == Some(c) && Lookup(j.fields, "timestamp") == Some(JNumber(t))
    requires ConfigurationFromJson(c) == Some(config)
    ensures EntryFromJson(j) == Some(HistoryEntry(id, config, t, url))
  {
  }

  lemma HistoryRoundTrip(h: seq<HistoryEntry>)
    ensures HistoryFromJson(HistoryToJson(h).items) == Some(h)
  {
    var items := HistoryToJson(h).items;
    forall i | 0 <= i < |h| ensures EntryFromJson(items[i]) == Some(h[i]) {
      EntryRoundTrip(h[i]);
    }
    HistoryEach(items, h);
  }

  /** Elements that each decode as an entry read back as the history of
      those entries. */
  lemma {:induction false} HistoryEach(items: seq<Json>, h: seq<HistoryEntry>)
    requires |items| == |h| && forall i :: 0 <= i < |items| ==> EntryFromJson(items[i]) == Some(h[i])
    ensures HistoryFromJson(items) == Some(h)
    decreases |items|
  {
    if items != [] {
      HistoryEach(items[1..], h[1..]);
      HistoryStep(items, h[0], h[1..]);
      Seqs.HeadTail(h);
    }
  }

  lemma HistoryStep(items: seq<Json>, e: HistoryEntry, es: seq<HistoryEntry>)
    requires items != [] && EntryFromJson(items[0]) == Some(e) && HistoryFromJson(items[1..]) == Some(es)
    ensures HistoryFromJson(items) == Some([e] + es)
  {
  }

  /** Two parameter lists are equal exactly when their JSON texts are: the
      duplicate check of the history compares the texts. */
  lemma ParametersTextIff(a: seq<QueryParameter>, b: seq<QueryParameter>)
    ensures Serialize(ParametersToJson(a)) == Serialize(ParametersToJson(b)) <==> a == b
  {
    if Serialize(ParametersToJson(a)) == Serialize(ParametersToJson(b)) {
      SerializeInjective(ParametersToJson(a), ParametersToJson(b));
      ParametersRoundTrip(a);
      ParametersRoundTrip(b);
    }
  }
}
