/** `generateUrl` (lib/url-utils.ts): a base URL followed by the encoded
    `name=value` pairs of the parameters whose names are not blank. */
module UrlUtils {
  import opened Wrappers
  import opened Text
  import opened Seqs
  import opened UriComponent
  import opened UrlTypes

  /** A parameter survives when its name does not trim to ''. */
  predicate HasName(p: QueryParameter) {
    !IsBlank(p.name)
  }

  function ValidParameters(parameters: seq<QueryParameter>): (valid: seq<QueryParameter>)
    ensures IsSubsequence(valid, parameters)
    ensures forall i :: 0 <= i < |valid| ==> HasName(valid[i])
    ensures forall p :: multiset(valid)[p] == if HasName(p) then multiset(parameters)[p] else 0
  {
    Filter(parameters, HasName)
  }

  /** `${encodeURIComponent(name)}=${encodeURIComponent(value)}`; the name is
      encoded as it stands, not trimmed. The pair holds no '&', so the
      pairs of a query string stay apart. */
  function EncodePair(p: QueryParameter): (pair: string)
    ensures '&' !in pair
  {
    NoDelimiters(p.name);
    NoDelimiters(p.value);
    EncodeURIComponent(p.name) + "=" + EncodeURIComponent(p.value)
  }

  function EncodePairs(ps: seq<QueryParameter>): (pairs: seq<string>)
    ensures |pairs| == |ps|
    ensures forall i :: 0 <= i < |ps| ==> pairs[i] == EncodePair(ps[i])
  {
    seq(|ps|, i requires 0 <= i < |ps| => EncodePair(ps[i]))
  }

  /** The encoded pairs joined with '&': splitting at '&' gives them back. */
  function QueryString(ps: seq<QueryParameter>): (query: string)
    ensures |ps| >= 1 ==> Split(query, '&') == EncodePairs(ps)
  {
    if |ps| >= 1 then SplitJoin(EncodePairs(ps), '&'); Join(EncodePairs(ps), '&')
    else Join(EncodePairs(ps), '&')
  }

  /** Without a surviving parameter the URL is the base URL; otherwise the
      query string ends it, and a base URL that is not blank begins it. */
  function GenerateUrl(baseUrl: string, parameters: seq<QueryParameter>): (url: string)
    ensures |ValidParameters(parameters)| == 0 ==> url == baseUrl
    ensures var valid := ValidParameters(parameters);
      |valid| >= 1 ==> var query := QueryString(valid);
        && |url| > |query| && url[|url| - |query|..] == query
        && (!IsBlank(baseUrl) ==> |baseUrl| < |url| && url[..|baseUrl|] == baseUrl)
  {
    var valid := ValidParameters(parameters);
    if |valid| == 0 then baseUrl
    else
      var query := QueryString(valid);
      if IsBlank(baseUrl) then
        Ends("?", query);
        "?" + query
      else
        var head := baseUrl + [if '?' in baseUrl then '&' else '?'];
        Ends(head, query);
        Ends(baseUrl, head[|baseUrl|..]);
        head + query
  }

  /** The two parts of a concatenation are its prefix and its suffix. */
  lemma Ends(a: string, b: string)
    ensures (a + b)[..|a|] == a && (a + b)[|a + b| - |b|..] == b
  {
  }

  // ---- reading a query string back ----------------------------------------

  /** Splits `name=value` at its only '=' and decodes both sides. */
  function ParsePair(pair: string): Option<(string, string)> {
    var sides := Split(pair, '=');
    if |sides| != 2 then None
    else match (DecodeURIComponent(sides[0]), DecodeURIComponent(sides[1]))
      case (Some(n), Some(v)) => Some((n, v))
      case _ => None
  }

  function ParsePairs(pairs: seq<string>): Option<seq<(string, string)>>
    decreases |pairs|
  {
    if pairs == [] then Some([])
    else match (ParsePair(pairs[0]), ParsePairs(pairs[1..]))
      case (Some(p), Some(ps)) => Some([p] + ps)
      case _ => None
  }

  /** The name/value pairs of a query string; None if some pair is not of the
      form produced by the encoder. */
  function ParseQuery(query: string): Option<seq<(string, string)>> {
    ParsePairs(Split(query, '&'))
  }

  function NamesAndValues(ps: seq<QueryParameter>): (nv: seq<(string, string)>)
    ensures |nv| == |ps|
    ensures forall i :: 0 <= i < |ps| ==> nv[i] == (ps[i].name, ps[i].value)
  {
    seq(|ps|, i requires 0 <= i < |ps| => (ps[i].name, ps[i].value))
  }

  lemma PairRoundTrip(p: QueryParameter)
    ensures '&' !in EncodePair(p)
    ensures ParsePair(EncodePair(p)) == Some((p.name, p.value))
  {
    var n, v := EncodeURIComponent(p.name), EncodeURIComponent(p.value);
    NoDelimiters(p.name);
    NoDelimiters(p.value);
    assert EncodePair(p) == n + ['='] + v;
    SplitAtSeparator(n, v, '=');
    SplitNoSeparator(v, '=');
    RoundTrip(p.name);
    RoundTrip(p.value);
  }

  lemma PairsRoundTrip(ps: seq<QueryParameter>)
    ensures ParsePairs(EncodePairs(ps)) == Some(NamesAndValues(ps))
  {
    var pairs, nv := EncodePairs(ps), NamesAndValues(ps);
    forall i | 0 <= i < |ps| ensures ParsePair(pairs[i]) == Some(nv[i]) {
      PairRoundTrip(ps[i]);
    }
    ParsePairsEach(pairs, nv);
  }

  /** Pairs that each parse read back as the sequence of their results. */
  lemma {:induction false} ParsePairsEach(pairs: seq<string>, nv: seq<(string, string)>)
    requires |pairs| == |nv| && forall i :: 0 <= i < |pairs| ==> ParsePair(pairs[i]) == Some(nv[i])
    ensures ParsePairs(pairs) == Some(nv)
    decreases |pairs|
  {
    if pairs != [] {
      ParsePairsEach(pairs[1..], nv[1..]);
      ParsePairsStep(pairs, nv[0], nv[1..]);
      HeadTail(nv);
    }
  }

  lemma ParsePairsStep(pairs: seq<string>, p: (string, string), rest: seq<(string, string)>)
    requires pairs != [] && ParsePair(pairs[0]) == Some(p) && ParsePairs(pairs[1..]) == Some(rest)
    ensures ParsePairs(pairs) == Some([p] + rest)
  {
  }

  /** Reading the query string back yields each surviving parameter's name
      and value, in order: encoding loses nothing and the '&' and '=' of
      the pairs cannot be confused with text inside them. */
  lemma QueryRoundTrip(ps: seq<QueryParameter>)
    requires |ps| >= 1
    ensures ParseQuery(QueryString(ps)) == Some(NamesAndValues(ps))
  {
    var pairs := EncodePairs(ps);
    forall i | 0 <= i < |pairs| ensures '&' !in pairs[i] { PairRoundTrip(ps[i]); }
    SplitJoin(pairs, '&');
    PairsRoundTrip(ps);
  }

  /** A query string of n pairs holds exactly n - 1 '&' characters. */
  lemma QueryAmpersands(ps: seq<QueryParameter>)
    requires |ps| >= 1
    ensures Count(QueryString(ps), '&') == |ps| - 1
  {
    var pairs := EncodePairs(ps);
    forall i | 0 <= i < |pairs| ensures '&' !in pairs[i] { PairRoundTrip(ps[i]); }
    JoinCount(pairs, '&');
  }

  // ---- the shape of the result --------------------------------------------

  /** With no surviving parameter the base URL comes back exactly, whatever
      it holds. */
  lemma NoValidParameters(baseUrl: string, parameters: seq<QueryParameter>)
    requires forall i :: 0 <= i < |parameters| ==> !HasName(parameters[i])
    ensures GenerateUrl(baseUrl, parameters) == baseUrl
  {
  }

  /** The three shapes of the result and how to read its parameters back:
      a blank base URL is replaced by '?', otherwise the separator is '&'
      exactly when the base URL already holds '?'. */
  lemma GenerateUrlShape(baseUrl: string, parameters: seq<QueryParameter>)
    requires |ValidParameters(parameters)| >= 1
    ensures var url, valid := GenerateUrl(baseUrl, parameters), ValidParameters(parameters);
      && (IsBlank(baseUrl) ==> url == "?" + QueryString(valid))
      && (!IsBlank(baseUrl) ==> url == baseUrl + [if '?' in baseUrl then '&' else '?'] + QueryString(valid))
      && var start := if IsBlank(baseUrl) then 1 else |baseUrl| + 1;
         ParseQuery(url[start..]) == Some(NamesAndValues(valid))
  {
    var valid := ValidParameters(parameters);
    var url := GenerateUrl(baseUrl, parameters);
    QueryRoundTrip(valid);
    if IsBlank(baseUrl) {
      assert url[1..] == QueryString(valid);
    } else {
      assert url[|baseUrl| + 1..] == QueryString(valid);
    }
  }

  /** The result is blank exactly when nothing survives and the base URL is
      blank: a surviving parameter always brings a '?' or '&'. */
  lemma BlankUrlIff(baseUrl: string, parameters: seq<QueryParameter>)
    ensures IsBlank(GenerateUrl(baseUrl, parameters))
        <==> IsBlank(baseUrl) && |ValidParameters(parameters)| == 0
  {
    var url := GenerateUrl(baseUrl, parameters);
    var valid := ValidParameters(parameters);
    if |valid| > 0 {
      if IsBlank(baseUrl) {
        assert url[0] == '?';
      } else {
        var k := |baseUrl|;
        assert url[k] == '?' || url[k] == '&';
      }
    }
  }
}
