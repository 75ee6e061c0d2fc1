/** The JSON text the store holds: `JSON.stringify` for the values the URL
    generator saves (null, booleans, integers, strings, arrays, objects), and
    a parser for the same grammar without insignificant whitespace, which
    is all `JSON.stringify` ever writes. The round trip
    `Parse(Serialize(v)) == Some(v)` is proved. */
module Json {
  import opened Wrappers
  import opened Text
  import UriComponent
  import Seqs

  datatype Json =
    | JNull
    | JBool(b: bool)
    | JNumber(n: int)
    | JString(s: string)
    | JArray(items: seq<Json>)
    | JObject(fields: seq<Field>)

  datatype Field = Field(key: string, value: Json)

  // ---- serialization --------------------------------------------------------

  function LowerHex(d: nat): (c: char)
    requires d < 16
    ensures UriComponent.HexValue(c) == Some(d)
  {
    if d < 10 then (('0' as int) + d) as char else (('a' as int) + d - 10) as char
  }

  /** How `JSON.stringify` writes one character of a string: the two-letter
      escapes for quote, backslash and the five named controls, `\u00xx`
      (lower-case hexadecimal) for the other controls, anything else as it
      stands. */
  function EscapeChar(c: char): (e: string)
    ensures |e| >= 1 && e[0] != '"'
  {
    if c == '"' then "\\\""
    else if c == '\\' then "\\\\"
    else if c == '\U{0008}' then "\\b"
    else if c == '\U{000C}' then "\\f"
    else if c == '\n' then "\\n"
    else if c == '\r' then "\\r"
    else if c == '\t' then "\\t"
    else if c < ' ' then "\\u00" + [LowerHex((c as int) / 16), LowerHex((c as int) % 16)]
    else [c]
  }

  function EscapeBody(s: string): string
    decreases |s|
  {
    if s == [] then "" else EscapeChar(s[0]) + EscapeBody(s[1..])
  }

  function Quote(s: string): string {
    "\"" + EscapeBody(s) + "\""
  }

  /** `String(n)` for an integer. */
  function Number(n: int): (r: string)
    ensures |r| >= 1
  {
    if n < 0 then "-" + NatToDecimal(-n) else NatToDecimal(n)
  }

  /** The characters a serialized value can start with. */
  predicate StartsValue(c: char) {
    c == 'n' || c == 't' || c == 'f' || c == '"' || c == '[' || c == '{' || c == '-' || IsDigit(c)
  }

  /** `JSON.stringify(j)`. */
  function Serialize(j: Json): (r: string)
    ensures |r| >= 1 && StartsValue(r[0])
    decreases j
  {
    match j
    case JNull => "null"
    case JBool(b) => if b then "true" else "false"
    case JNumber(n) => Number(n)
    case JString(s) => Quote(s)
    case JArray(items) => "[" + SerializeItems(items) + "]"
    case JObject(fields) => "{" + SerializeFields(fields) + "}"
  }

  function SerializeItems(items: seq<Json>): string
    decreases items
  {
    if items == [] then ""
    else if |items| == 1 then Serialize(items[0])
    else Serialize(items[0]) + "," + SerializeItems(items[1..])
  }

  function SerializeField(f: Field): (r: string)
    ensures |r| >= 1 && r[0] == '"'
    decreases f
  {
    Quote(f.key) + ":" + Serialize(f.value)
  }

  function SerializeFields(fields: seq<Field>): string
    decreases fields
  {
    if fields == [] then ""
    else if |fields| == 1 then SerializeField(fields[0])
    else SerializeField(fields[0]) + "," + SerializeFields(fields[1..])
  }

  // ---- parsing ------------------------------------------------------------

  function Hex4(s: string): Option<nat>
    requires |s| >= 4
  {
    var h := [UriComponent.HexValue(s[0]), UriComponent.HexValue(s[1]),
              UriComponent.HexValue(s[2]), UriComponent.HexValue(s[3])];
    if h[0].None? || h[1].None? || h[2].None? || h[3].None? then None
    else Some(((h[0].value * 16 + h[1].value) * 16 + h[2].value) * 16 + h[3].value)
  }

  /** One character of a string literal other than its closing quote, with
      the number of characters it takes. A raw control character or an
      unknown escape is an error, as in `JSON.parse`. */
  function ReadChar(s: string): (r: Option<(char, nat)>)
    requires |s| >= 1 && s[0] != '"'
    ensures r.Some? ==> 1 <= r.value.1 <= |s|
  {
    if s[0] == '\\' then
      if |s| < 2 then None
      else if s[1] == '"' then Some(('"', 2))
      else if s[1] == '\\' then Some(('\\', 2))
      else if s[1] == '/' then Some(('/', 2))
      else if s[1] == 'b' then Some(('\U{0008}', 2))
      else if s[1] == 'f' then Some(('\U{000C}', 2))
      else if s[1] == 'n' then Some(('\n', 2))
      else if s[1] == 'r' then Some(('\r', 2))
      else if s[1] == 't' then Some(('\t', 2))
      else if s[1] == 'u' && |s| >= 6 then
        match Hex4(s[2..6])
        case None => None
        case Some(code) =>
          if 0xD800 <= code < 0xE000 then None else Some((code as char, 6))
      else None
    else if s[0] < ' ' then None
    else Some((s[0], 1))
  }

  /** The text of a string literal whose opening quote has been read, and
      what follows its closing quote. */
  function ParseStringBody(s: string): (r: Option<(string, string)>)
    ensures r.Some? ==> |r.value.1| < |s|
    decreases |s|
  {
    if s == [] then None
    else if s[0] == '"' then Some(([], s[1..]))
    else
      match ReadChar(s)
      case None => None
      case Some((c, n)) =>
        match ParseStringBody(s[n..])
        case None => None
        case Some((t, rest)) => Some(([c] + t, rest))
  }

  /** The length of the run of decimal digits at the front of `s`. */
  function DigitRun(s: string): (n: nat)
    ensures n <= |s| && AllDigits(s[..n])
    ensures n < |s| ==> !IsDigit(s[n])
    decreases |s|
  {
    if s == [] || !IsDigit(s[0]) then 0
    else
      var n := 1 + DigitRun(s[1..]);
      assert s[..n] == [s[0]] + s[1..][..n - 1];
      n
  }

  /** An optional minus and a run of digits without a redundant leading
      zero. A fraction or an exponent is not read. */
  function ParseNumber(s: string): (r: Option<(Json, string)>)
    ensures r.Some? ==> |r.value.1| < |s|
  {
    var negative := |s| > 0 && s[0] == '-';
    var body := if negative then s[1..] else s;
    var d := DigitRun(body);
    if d == 0 || (d > 1 && body[0] == '0') then None
    else
      var rest := body[d..];
      if |rest| > 0 && (rest[0] == '.' || rest[0] == 'e' || rest[0] == 'E') then None
      else
        var v: int := DecimalValue(body[..d]);
        Some((JNumber(if negative then -v else v), rest))
  }

  function Literal(s: string, word: string, v: Json): (r: Option<(Json, string)>)
    requires |word| >= 1
    ensures r.Some? ==> |r.value.1| < |s|
  {
    if |s| >= |word| && s[..|word|] == word then Some((v, s[|word|..])) else None
  }

  /** One value at the front of `s` and the text after it. */
  function ParseValue(s: string): (r: Option<(Json, string)>)
    ensures r.Some? ==> |r.value.1| < |s|
    decreases |s|, 1
  {
    if s == [] then None
    else if s[0] == 'n' then Literal(s, "null", JNull)
    else if s[0] == 't' then Literal(s, "true", JBool(true))
    else if s[0] == 'f' then Literal(s, "false", JBool(false))
    else if s[0] == '"' then
      match ParseStringBody(s[1..])
      case None => None
      case Some((t, rest)) => Some((JString(t), rest))
    else if s[0] == '[' then
      if |s| >= 2 && s[1] == ']' then Some((JArray([]), s[2..]))
      else
        match ParseElements(s[1..])
        case None => None
        case Some((items, rest)) => Some((JArray(items), rest))
    else if s[0] == '{' then
      if |s| >= 2 && s[1] == '}' then Some((JObject([]), s[2..]))
      else
        match ParseMembers(s[1..])
        case None => None
        case Some((fields, rest)) => Some((JObject(fields), rest))
    else if s[0] == '-' || IsDigit(s[0]) then ParseNumber(s)
    else None
  }

  /** Array elements up to and including the closing bracket. */
  function ParseElements(s: string): (r: Option<(seq<Json>, string)>)
    ensures r.Some? ==> |r.value.1| < |s|
    decreases |s|, 2
  {
    match ParseValue(s)
    case None => None
    case Some((v, rest)) =>
      if rest == [] then None
      else if rest[0] == ']' then Some(([v], rest[1..]))
      else if rest[0] == ',' then
        match ParseElements(rest[1..])
        case None => None
        case Some((vs, after)) => Some(([v] + vs, after))
      else None
  }

  /** One `"key":value` member. */
  function ParseMember(s: string): (r: Option<(Field, string)>)
    ensures r.Some? ==> |r.value.1| < |s|
    decreases |s|, 1
  {
    if s == [] || s[0] != '"' then None
    else
      match ParseStringBody(s[1..])
      case None => None
      case Some((key, afterKey)) =>
        if afterKey == [] || afterKey[0] != ':' then None
        else
          match ParseValue(afterKey[1..])
          case None => None
          case Some((v, rest)) => Some((Field(key, v), rest))
  }

  /** Object members up to and including the closing brace. */
  function ParseMembers(s: string): (r: Option<(seq<Field>, string)>)
    ensures r.Some? ==> |r.value.1| < |s|
    decreases |s|, 2
  {
    match ParseMember(s)
    case None => None
    case Some((f, rest)) =>
      if rest == [] then None
      else if rest[0] == '}' then Some(([f], rest[1..]))
      else if rest[0] == ',' then
        match ParseMembers(rest[1..])
        case None => None
        case Some((fs, after)) => Some(([f] + fs, after))
      else None
  }

  /** `JSON.parse`: one value and nothing after it; the empty text is no
      JSON text. */
  function Parse(s: string): (r: Option<Json>)
    ensures r.Some? ==> |s| >= 1
  {
    match ParseValue(s)
    case Some((v, rest)) => if rest == [] then Some(v) else None
    case None => None
  }

  // ---- the round trip -----------------------------------------------------

  /** What may follow a value inside the text of an enclosing value. */
  predicate Delimited(rest: string) {
    rest == [] || rest[0] == ',' || rest[0] == ']' || rest[0] == '}'
  }

  lemma ReadEscaped(c: char, t: string)
    ensures var e := EscapeChar(c) + t; ReadChar(e) == Some((c, |EscapeChar(c)|))
  {
    var e := EscapeChar(c) + t;
    if c < ' ' && !(c == '\U{0008}' || c == '\U{000C}' || c == '\n' || c == '\r' || c == '\t') {
      var hi, lo := (c as int) / 16, (c as int) % 16;
      assert e[2..6] == ['0', '0', LowerHex(hi), LowerHex(lo)];
      assert Hex4(e[2..6]) == Some(((0 * 16 + 0) * 16 + hi) * 16 + lo);
    }
  }

  lemma {:induction false} StringRoundTrip(s: string, rest: string)
    ensures ParseStringBody(EscapeBody(s) + "\"" + rest) == Some((s, rest))
    decreases |s|
  {
    var e := EscapeBody(s) + "\"" + rest;
    if s == [] {
      assert e == "\"" + rest;
    } else {
      var head := EscapeChar(s[0]);
      var tail := EscapeBody(s[1..]) + "\"" + rest;
      assert e == head + tail;
      ReadEscaped(s[0], tail);
      assert e[|head|..] == tail;
      StringRoundTrip(s[1..], rest);
      assert [s[0]] + s[1..] == s;
    }
  }

  lemma NumberRoundTrip(n: int, rest: string)
    requires Delimited(rest)
    ensures ParseValue(Number(n) + rest) == Some((JNumber(n), rest))
  {
    var s := Number(n) + rest;
    NumberParses(n, rest);
    assert s[0] == '-' || IsDigit(s[0]);
  }

  lemma NumberParses(n: int, rest: string)
    requires Delimited(rest)
    ensures ParseNumber(Number(n) + rest) == Some((JNumber(n), rest))
  {
    var m: nat := if n < 0 then -n else n;
    var digits := NatToDecimal(m);
    var body := digits + rest;
    DigitsParse(m, rest);
    if n < 0 {
      var s := Number(n) + rest;
      Regroup3("-", digits, rest);
      assert s[1..] == body;
      NumberFrom(s, true, body, digits, rest, m);
    } else {
      assert Number(n) + rest == body;
      NumberFrom(body, false, body, digits, rest, m);
    }
  }

  /** How ParseNumber reads a sign, a run of digits and what follows. */
  lemma NumberFrom(s: string, negative: bool, body: string, digits: string, rest: string, m: nat)
    requires negative ==> |s| > 0 && s[0] == '-' && s[1..] == body
    requires !negative ==> s == body && |s| > 0 && s[0] != '-'
    requires |digits| >= 1 && AllDigits(digits) && (|digits| > 1 ==> digits[0] != '0')
    requires DigitRun(body) == |digits| && body[..|digits|] == digits && body[|digits|..] == rest
    requires DecimalValue(digits) == m && Delimited(rest)
    ensures ParseNumber(s) == Some((JNumber(if negative then -(m as int) else m), rest))
  {
    assert body[0] == digits[0];
  }

  lemma DigitsParse(m: nat, rest: string)
    requires Delimited(rest)
    ensures var digits, body := NatToDecimal(m), NatToDecimal(m) + rest;
      && DigitRun(body) == |digits|
      && body[..|digits|] == digits && body[|digits|..] == rest
      && DecimalValue(digits) == m
  {
    var digits := NatToDecimal(m);
    DigitRunOf(digits, rest);
    assert (digits + rest)[..|digits|] == digits;
    DecimalRoundTrip(m);
  }

  lemma {:induction false} DigitRunOf(digits: string, rest: string)
    requires AllDigits(digits)
    requires rest == [] || !IsDigit(rest[0])
    ensures DigitRun(digits + rest) == |digits|
    decreases |digits|
  {
    if digits == [] {
      assert digits + rest == rest;
    } else {
      assert (digits + rest)[1..] == digits[1..] + rest;
      DigitRunOf(digits[1..], rest);
    }
  }

  /** A serialized value followed by a delimiter reads back as itself. */
  lemma {:induction false} ValueRoundTrip(j: Json, rest: string)
    requires Delimited(rest)
    ensures ParseValue(Serialize(j) + rest) == Some((j, rest))
    decreases j, 1
  {
    match j
    case JNull => NullRoundTrip(rest);
    case JBool(b) => BoolRoundTrip(b, rest);
    case JNumber(n) => NumberRoundTrip(n, rest);
    case JString(t) => QuotedRoundTrip(t, rest);
    case JArray(items) => ArrayRoundTrip(j, rest);
    case JObject(fields) => ObjectRoundTrip(j, rest);
  }

  lemma NullRoundTrip(rest: string)
    ensures ParseValue(Serialize(JNull) + rest) == Some((JNull, rest))
  {
    var s := "null" + rest;
    assert s[..4] == "null" && s[4..] == rest;
  }

  lemma BoolRoundTrip(b: bool, rest: string)
    ensures ParseValue(Serialize(JBool(b)) + rest) == Some((JBool(b), rest))
  {
    if b {
      var s := "true" + rest;
      assert s[..4] == "true" && s[4..] == rest;
    } else {
      var s := "false" + rest;
      assert s[..5] == "false" && s[5..] == rest;
    }
  }

  lemma QuotedRoundTrip(t: string, rest: string)
    ensures ParseValue(Serialize(JString(t)) + rest) == Some((JString(t), rest))
  {
    var s := Serialize(JString(t)) + rest;
    assert s[0] == '"';
    assert s[1..] == EscapeBody(t) + "\"" + rest;
    StringRoundTrip(t, rest);
  }

  lemma {:induction false} ArrayRoundTrip(j: Json, rest: string)
    requires j.JArray?
    ensures ParseValue(Serialize(j) + rest) == Some((j, rest))
    decreases j, 0
  {
    var items := j.items;
    var s := Serialize(j) + rest;
    assert s == "[" + SerializeItems(items) + "]" + rest;
    if items == [] {
      assert s == "[]" + rest;
    } else {
      assert s[1..] == SerializeItems(items) + "]" + rest;
      ItemsRoundTrip(items, rest);
      ItemsStart(items);
      assert s[1] == Serialize(items[0])[0];
    }
  }

  lemma {:induction false} ObjectRoundTrip(j: Json, rest: string)
    requires j.JObject?
    ensures ParseValue(Serialize(j) + rest) == Some((j, rest))
    decreases j, 0
  {
    var fields := j.fields;
    var s := Serialize(j) + rest;
    assert s == "{" + SerializeFields(fields) + "}" + rest;
    if fields == [] {
      assert s == "{}" + rest;
    } else {
      assert s[1..] == SerializeFields(fields) + "}" + rest;
      FieldsRoundTrip(fields, rest);
      FieldsStart(fields);
      assert s[1] == '"';
    }
  }

  lemma ItemsStart(items: seq<Json>)
    requires items != []
    ensures |SerializeItems(items)| >= 1 && SerializeItems(items)[0] == Serialize(items[0])[0]
  {
  }

  lemma FieldsStart(fields: seq<Field>)
    requires fields != []
    ensures |SerializeFields(fields)| >= 1 && SerializeFields(fields)[0] == '"'
  {
  }

  lemma {:induction false} ItemsRoundTrip(items: seq<Json>, rest: string)
    requires items != []
    ensures ParseElements(SerializeItems(items) + "]" + rest) == Some((items, rest))
    decreases items, 1
  {
    if |items| == 1 {
      LastItem(items, rest);
    } else {
      NextItem(items, rest);
      ItemsRoundTrip(items[1..], rest);
      Seqs.HeadTail(items);
    }
  }

  /** The last element is followed by the closing bracket. */
  lemma {:induction false} LastItem(items: seq<Json>, rest: string)
    requires |items| == 1
    ensures ParseElements(SerializeItems(items) + "]" + rest) == Some((items, rest))
    decreases items, 0
  {
    var s := SerializeItems(items) + "]" + rest;
    assert ParseValue(s) == Some((items[0], "]" + rest)) by {
      assert SerializeItems(items) == Serialize(items[0]);
      Regroup3(Serialize(items[0]), "]", rest);
      ValueRoundTrip(items[0], "]" + rest);
    }
    ElementsStep(s, items[0], "]" + rest);
    assert ("]" + rest)[1..] == rest;
    assert items == [items[0]];
  }

  /** An element other than the last is followed by a comma and the rest. */
  lemma {:induction false} NextItem(items: seq<Json>, rest: string)
    requires |items| > 1
    ensures ParseElements(SerializeItems(items) + "]" + rest)
         == ItemsPrepend(items[0], ParseElements(SerializeItems(items[1..]) + "]" + rest))
    decreases items, 0
  {
    var s := SerializeItems(items) + "]" + rest;
    var tail := SerializeItems(items[1..]) + "]" + rest;
    assert ParseValue(s) == Some((items[0], "," + tail)) by {
      assert SerializeItems(items) == Serialize(items[0]) + "," + SerializeItems(items[1..]);
      Regroup5(Serialize(items[0]), ",", SerializeItems(items[1..]), "]", rest);
      ValueRoundTrip(items[0], "," + tail);
    }
    ElementsStep(s, items[0], "," + tail);
    assert ("," + tail)[1..] == tail;
  }

  function ItemsPrepend(v: Json, r: Option<(seq<Json>, string)>): Option<(seq<Json>, string)> {
    match r
    case None => None
    case Some((vs, rest)) => Some(([v] + vs, rest))
  }

  /** How the element list continues after one value. */
  lemma ElementsStep(s: string, v: Json, after: string)
    requires ParseValue(s) == Some((v, after))
    requires after != [] && (after[0] == ']' || after[0] == ',')
    ensures after[0] == ']' ==> ParseElements(s) == Some(([v], after[1..]))
    ensures after[0] == ',' ==> ParseElements(s) == ItemsPrepend(v, ParseElements(after[1..]))
  {
  }

  lemma {:induction false} FieldRoundTrip(f: Field, after: string)
    requires Delimited(after)
    ensures ParseMember(SerializeField(f) + after) == Some((f, after))
    decreases f, 1
  {
    var s := SerializeField(f) + after;
    var afterKey := ":" + Serialize(f.value) + after;
    Regroup(Quote(f.key), ":", Serialize(f.value), after);
    KeyReads(f.key, afterKey);
    ValueAfterColon(f, after);
    MemberOf(s, f.key, afterKey, f.value, after);
  }

  /** A quoted key reads back, leaving what follows its closing quote. */
  lemma KeyReads(key: string, afterKey: string)
    ensures var s := Quote(key) + afterKey;
      s[0] == '"' && ParseStringBody(s[1..]) == Some((key, afterKey))
  {
    var s := Quote(key) + afterKey;
    assert s[1..] == EscapeBody(key) + "\"" + afterKey;
    StringRoundTrip(key, afterKey);
  }

  lemma {:induction false} ValueAfterColon(f: Field, after: string)
    requires Delimited(after)
    ensures var afterKey := ":" + Serialize(f.value) + after;
      afterKey[0] == ':' && ParseValue(afterKey[1..]) == Some((f.value, after))
    decreases f, 0
  {
    var afterKey := ":" + Serialize(f.value) + after;
    assert afterKey[1..] == Serialize(f.value) + after;
    ValueRoundTrip(f.value, after);
  }

  /** A member is its key's string literal, a colon and a value. */
  lemma MemberOf(s: string, key: string, afterKey: string, v: Json, rest: string)
    requires |s| >= 1 && s[0] == '"' && ParseStringBody(s[1..]) == Some((key, afterKey))
    requires afterKey != [] && afterKey[0] == ':' && ParseValue(afterKey[1..]) == Some((v, rest))
    ensures ParseMember(s) == Some((Field(key, v), rest))
  {
  }

  lemma {:induction false} FieldsRoundTrip(fields: seq<Field>, rest: string)
    requires fields != []
    ensures ParseMembers(SerializeFields(fields) + "}" + rest) == Some((fields, rest))
    decreases fields, 2
  {
    if |fields| == 1 {
      LastField(fields, rest);
    } else {
      NextField(fields, rest);
      FieldsRoundTrip(fields[1..], rest);
      Seqs.HeadTail(fields);
    }
  }

  /** The last member is followed by the closing brace. */
  lemma {:induction false} LastField(fields: seq<Field>, rest: string)
    requires |fields| == 1
    ensures ParseMembers(SerializeFields(fields) + "}" + rest) == Some((fields, rest))
    decreases fields, 1
  {
    var s := SerializeFields(fields) + "}" + rest;
    assert ParseMember(s) == Some((fields[0], "}" + rest)) by {
      assert SerializeFields(fields) == SerializeField(fields[0]);
      Regroup3(SerializeField(fields[0]), "}", rest);
      FieldRoundTrip(fields[0], "}" + rest);
    }
    MembersStep(s, fields[0], "}" + rest);
    assert fields == [fields[0]];
  }

  /** A member other than the last is followed by a comma and the rest. */
  lemma {:induction false} NextField(fields: seq<Field>, rest: string)
    requires |fields| > 1
    ensures ParseMembers(SerializeFields(fields) + "}" + rest)
         == MapPrepend(fields[0], ParseMembers(SerializeFields(fields[1..]) + "}" + rest))
    decreases fields, 1
  {
    var s := SerializeFields(fields) + "}" + rest;
    var tail := SerializeFields(fields[1..]) + "}" + rest;
    assert ParseMember(s) == Some((fields[0], "," + tail)) by {
      assert SerializeFields(fields) == SerializeField(fields[0]) + "," + SerializeFields(fields[1..]);
      Regroup5(SerializeField(fields[0]), ",", SerializeFields(fields[1..]), "}", rest);
      FieldRoundTrip(fields[0], "," + tail);
    }
    MembersStep(s, fields[0], "," + tail);
    assert ("," + tail)[1..] == tail;
  }

  function MapPrepend(f: Field, r: Option<(seq<Field>, string)>): Option<(seq<Field>, string)> {
    match r
    case None => None
    case Some((fs, rest)) => Some(([f] + fs, rest))
  }

  /** How the member list continues after one member. */
  lemma MembersStep(s: string, f: Field, after: string)
    requires ParseMember(s) == Some((f, after))
    requires after != [] && (after[0] == '}' || after[0] == ',')
    ensures after[0] == '}' ==> ParseMembers(s) == Some(([f], after[1..]))
    ensures after[0] == ',' ==>
              ParseMembers(s) == MapPrepend(f, ParseMembers(after[1..]))
  {
  }

  /** What `JSON.stringify` writes, `JSON.parse` reads back. */
  lemma RoundTrip(j: Json)
    ensures Parse(Serialize(j)) == Some(j)
  {
    ValueRoundTrip(j, []);
    assert Serialize(j) + [] == Serialize(j);
  }

  /** Distinct values serialize differently. */
  lemma SerializeInjective(a: Json, b: Json)
    requires Serialize(a) == Serialize(b)
    ensures a == b
  {
    RoundTrip(a);
    RoundTrip(b);
  }
}
