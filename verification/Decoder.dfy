/** lib/decoder/decode.go: reading an event's tagged documents back under a schema. */
module Decoder {
  import opened Prelude
  import opened Text
  import opened Decimal
  import opened Limbs
  import opened ScVals
  import opened Float64

  datatype EventParam = EventParam(name: string, typ: string, location: string, vecIndex: Option<int>)

  /** A schema body as JSON unmarshalling leaves it, or after parseEventDefinition has filled in the defaults. */
  datatype EventDefinition = EventDefinition(
    name: string,
    prefixTopics: seq<string>,
    dataFormat: string,
    params: seq<EventParam>,
    args: seq<EventParam>)

  datatype Value =
    | BoolValue(b: bool)
    | IntValue(n: int)
    | TextValue(s: string)
    | AnyValue(j: Json)

  datatype DecodeError =
    | MissingName | EmptyValue | Malformed | TypeMismatch | InvalidBool | InvalidInteger
    | MissingTopic | UnsupportedLocation | MissingMapField | MissingMapEntry | MissingVec | EmptyVec | VecIndexOutOfRange

  datatype Level2 = Level2(topics: seq<Json>, value: Json)

  datatype Outcome =
    | Raw(level2: Level2)
    | Decoded(eventName: string, fields: map<string, Value>, level2: Level2)

  function ParseEventDefinition(body: Option<EventDefinition>): Result<EventDefinition, DecodeError> {
    match body
    case None => Err(Malformed)
    case Some(def) =>
      if def.name == "" then Err(MissingName)
      else
        var params := if def.params == [] && def.args != [] then def.args else def.params;
        var format := if def.dataFormat == "" then "single_value" else def.dataFormat;
        Ok(def.(params := params, dataFormat := format))
  }

  /** The symbol of a topic; `sprint` is fmt.Sprint on the values that are not strings. */
  function TopicSymbol(raw: Json, sprint: Json -> string): string {
    if !raw.JObj? then ""
    else if "symbol" in raw.fields && raw.fields["symbol"].JStr? then raw.fields["symbol"].s
    else if "sym" in raw.fields && raw.fields["sym"].JStr? then raw.fields["sym"].s
    else if "symbol" in raw.fields then sprint(raw.fields["symbol"])
    else if "sym" in raw.fields then sprint(raw.fields["sym"])
    else ""
  }

  predicate MatchPrefixTopics(topics: seq<Json>, prefixes: seq<string>, sprint: Json -> string) {
    |prefixes| <= |topics| && forall i :: 0 <= i < |prefixes| ==> EqualFold(TopicSymbol(topics[i], sprint), prefixes[i])
  }

  /** Unmarshalling into `any` turns every number into a float64. */
  function Loosen(j: Json): Json {
    match j
    case JNum(n) => JNum(Round(n))
    case JArr(items) => JArr(seq(|items|, i requires 0 <= i < |items| => Loosen(items[i])))
    case JObj(fields) => JObj(map k | k in fields :: Loosen(fields[k]))
    case _ => j
  }

  /** What a value looks like once fmt.Sprint has printed it. */
  function Sprint(v: Value, sprint: Json -> string): string {
    match v
    case BoolValue(b) => sprint(JBool(b))
    case IntValue(n) => IntString(n)
    case TextValue(s) => s
    case AnyValue(j) => sprint(j)
  }

  predicate IsNarrowInteger(typ: string) {
    typ == "u32" || typ == "i32" || typ == "u64" || typ == "i64" || typ == "timepoint" || typ == "duration"
  }

  predicate IsWideInteger(typ: string) { typ == "i128" || typ == "u128" || typ == "i256" || typ == "u256" }

  predicate IsText(typ: string) { typ == "address" || typ == "string" || typ == "symbol" || typ == "bytes" }

  /** `val` has already been through float64. */
  function CoerceValue(typ: string, val: Json, sprint: Json -> string): Result<Value, DecodeError> {
    if typ == "bool" then
      if val.JBool? then Ok(BoolValue(val.b)) else Err(InvalidBool)
    else if IsNarrowInteger(typ) then
      if val.JNum? then Ok(IntValue(ToInt64(val.n))) else Err(InvalidInteger)
    else if IsWideInteger(typ) then
      Ok(TextValue(if val.JStr? then val.s else if val.JNum? then IntString(val.n) else sprint(val)))
    else if IsText(typ) then
      Ok(TextValue(if val.JStr? then val.s else sprint(val)))
    else Ok(AnyValue(val))
  }

  /** A missing raw message is an empty one. The search through single-key documents finds nothing the two lookups have not. */
  function ExtractTypedValue(raw: Option<Json>, typ: string, sprint: Json -> string): Result<Value, DecodeError> {
    if raw.None? || raw.value.JNull? then Err(EmptyValue)
    else if !raw.value.JObj? then Err(Malformed)
    else
      var doc := raw.value.fields;
      var want := ToLower(TrimSpace(typ));
      if want in doc then CoerceValue(want, Loosen(doc[want]), sprint)
      else if want == "string" && "symbol" in doc then CoerceValue("string", Loosen(doc["symbol"]), sprint)
      else Err(TypeMismatch)
  }

  function Lookup(doc: map<string, Json>, key: string): Option<Json> {
    if key in doc then Some(doc[key]) else None
  }

  predicate EntryNamed(entry: Json, name: string, sprint: Json -> string) {
    entry.JObj? &&
    var key := ExtractTypedValue(Lookup(entry.fields, "k"), "symbol", sprint);
    key.Ok? && Sprint(key.value, sprint) == name
  }

  /** The value of the first entry whose key is the parameter's name. */
  function FromEntries(entries: seq<Json>, param: EventParam, sprint: Json -> string): Result<Value, DecodeError> {
    if entries == [] then Err(MissingMapEntry)
    else if EntryNamed(entries[0], param.name, sprint)
    then ExtractTypedValue(Lookup(entries[0].fields, "v"), param.typ, sprint)
    else FromEntries(entries[1..], param, sprint)
  }

  function ExtractFromMapTagged(raw: Json, param: EventParam, sprint: Json -> string): Result<Value, DecodeError> {
    if raw.JNull? then Err(MissingMapEntry)
    else if !raw.JObj? then Err(Malformed)
    else if "entries" !in raw.fields || raw.fields["entries"].JNull? then Err(MissingMapEntry)
    else if !raw.fields["entries"].JArr? then Err(Malformed)
    else
      var entries := raw.fields["entries"].items;
      if exists i :: 0 <= i < |entries| && !entries[i].JObj? && !entries[i].JNull? then Err(Malformed)
      else FromEntries(entries, param, sprint)
  }

  function ExtractFromVecAt(value: Json, index: int, param: EventParam, sprint: Json -> string): Result<Value, DecodeError> {
    if !value.JObj? && !value.JNull? then Err(Malformed)
    else if value.JNull? || "vec" !in value.fields then
      if index == 0 then ExtractTypedValue(Some(value), param.typ, sprint) else Err(MissingVec)
    else if !value.fields["vec"].JArr? || value.fields["vec"].items == [] then Err(EmptyVec)
    else
      var items := value.fields["vec"].items;
      if index < 0 || index >= |items| then Err(VecIndexOutOfRange)
      else ExtractTypedValue(Some(items[index]), param.typ, sprint)
  }

  function IndexOf(param: EventParam): int { if param.vecIndex.Some? then param.vecIndex.value else 0 }

  function ExtractDataParam(format: string, value: Json, param: EventParam, sprint: Json -> string): Result<Value, DecodeError> {
    var f := ToLower(format);
    if f == "map" then
      if value.JNull? then Err(MissingMapField)
      else if !value.JObj? then Err(Malformed)
      else if "map" in value.fields then ExtractFromMapTagged(value.fields["map"], param, sprint)
      else if param.name !in value.fields then Err(MissingMapField)
      else ExtractTypedValue(Some(value.fields[param.name]), param.typ, sprint)
    else if f == "vec" then ExtractFromVecAt(value, IndexOf(param), param, sprint)
    else ExtractTypedValue(Some(value), param.typ, sprint)
  }

  datatype Location = InData | InTopics | Nowhere

  function LocationOf(param: EventParam): Location {
    var l := ToLower(TrimSpace(param.location));
    if l == "data" || l == "" then InData
    else if l == "topic_list" || l == "topic" then InTopics
    else Nowhere
  }

  /** One parameter's value, the next free topic being `topicIndex`. */
  function ExtractParam(def: EventDefinition, topics: seq<Json>, value: Json, param: EventParam, topicIndex: nat, sprint: Json -> string)
    : Result<Value, DecodeError>
  {
    match LocationOf(param)
    case InData => ExtractDataParam(def.dataFormat, value, param, sprint)
    case InTopics => if topicIndex >= |topics| then Err(MissingTopic) else ExtractTypedValue(Some(topics[topicIndex]), param.typ, sprint)
    case Nowhere => Err(UnsupportedLocation)
  }

  predicate IsTopic(param: EventParam) { LocationOf(param) == InTopics }

  /** How many of the first n parameters take a topic. */
  function Taken(params: seq<EventParam>, n: nat, isTopic: EventParam -> bool): nat
    requires n <= |params|
  {
    if n == 0 then 0 else Taken(params, n - 1, isTopic) + (if isTopic(params[n - 1]) then 1 else 0)
  }

  /** The fields of the first n parameters, in order, each read with the number of the next free topic; a later parameter of the
      same name wins, and the first failure is the result. */
  function FieldsOf(params: seq<EventParam>, n: nat, first: nat, isTopic: EventParam -> bool,
                    read: (EventParam, nat) -> Result<Value, DecodeError>): Result<map<string, Value>, DecodeError>
    requires n <= |params|
  {
    if n == 0 then Ok(map[])
    else
      match FieldsOf(params, n - 1, first, isTopic, read)
      case Err(e) => Err(e)
      case Ok(fields) =>
        match read(params[n - 1], first + Taken(params, n - 1, isTopic))
        case Err(e) => Err(e)
        case Ok(v) => Ok(fields[params[n - 1].name := v])
  }

  function Reader(def: EventDefinition, topics: seq<Json>, value: Json, sprint: Json -> string)
    : (EventParam, nat) -> Result<Value, DecodeError>
  {
    (param: EventParam, topicIndex: nat) => ExtractParam(def, topics, value, param, topicIndex, sprint)
  }

  method ExtractFields(def: EventDefinition, topics: seq<Json>, value: Json, sprint: Json -> string)
    returns (result: Result<map<string, Value>, DecodeError>)
    ensures result == FieldsOf(def.params, |def.params|, |def.prefixTopics|, IsTopic, Reader(def, topics, value, sprint))
  {
    result := FillFields(def.params, |def.prefixTopics|, IsTopic, Reader(def, topics, value, sprint));
  }

  method FillFields(params: seq<EventParam>, first: nat, isTopic: EventParam -> bool, read: (EventParam, nat) -> Result<Value, DecodeError>)
    returns (result: Result<map<string, Value>, DecodeError>)
    ensures result == FieldsOf(params, |params|, first, isTopic, read)
  {
    var fields: map<string, Value> := map[];
    var topicIndex := first;
    for i := 0 to |params|
      invariant topicIndex == first + Taken(params, i, isTopic)
      invariant FieldsOf(params, i, first, isTopic, read) == Ok(fields)
    {
      var val := read(params[i], topicIndex);
      if val.Err? {
        FieldsFail(params, i + 1, |params|, first, isTopic, read);
        return Err(val.error);
      }
      fields := fields[params[i].name := val.value];
      if isTopic(params[i]) {
        topicIndex := topicIndex + 1;
      }
    }
    return Ok(fields);
  }

  /** The first failure is the failure of the whole list. */
  lemma {:induction false} FieldsFail(params: seq<EventParam>, i: nat, n: nat, first: nat, isTopic: EventParam -> bool,
                                      read: (EventParam, nat) -> Result<Value, DecodeError>)
    requires i <= n <= |params| && FieldsOf(params, i, first, isTopic, read).Err?
    ensures FieldsOf(params, n, first, isTopic, read) == FieldsOf(params, i, first, isTopic, read)
  {
    if i < n {
      FieldsFail(params, i, n - 1, first, isTopic, read);
    }
  }

  /** The decoding as a function of its inputs. */
  function Decoding(topics: seq<Json>, value: Json, body: Option<EventDefinition>, eventName: string, sprint: Json -> string): Outcome {
    var level2 := Level2(topics, value);
    match ParseEventDefinition(body)
    case Err(_) => Raw(level2)
    case Ok(def) =>
      if eventName != "" && !EqualFold(eventName, def.name) then Raw(level2)
      else if !MatchPrefixTopics(topics, def.prefixTopics, sprint) then Raw(level2)
      else
        match FieldsOf(def.params, |def.params|, |def.prefixTopics|, IsTopic, Reader(def, topics, value, sprint))
        case Err(_) => Raw(level2)
        case Ok(fields) => if fields == map[] then Raw(level2) else Decoded(def.name, fields, level2)
  }

  method DecodeEvent(topics: seq<Json>, value: Json, body: Option<EventDefinition>, eventName: string, sprint: Json -> string)
    returns (outcome: Outcome)
    ensures outcome == Decoding(topics, value, body, eventName, sprint)
    ensures outcome.level2 == Level2(topics, value)
  {
    var level2 := Level2(topics, value);
    var parsed := ParseEventDefinition(body);
    if parsed.Err? {
      return Raw(level2);
    }
    var def := parsed.value;
    if eventName != "" && !EqualFold(eventName, def.name) {
      return Raw(level2);
    }
    if |def.prefixTopics| > 0 && !MatchPrefixTopics(topics, def.prefixTopics, sprint) {
      return Raw(level2);
    }
    var fields := ExtractFields(def, topics, value, sprint);
    if fields.Err? || |fields.value| == 0 {
      return Raw(level2);
    }
    return Decoded(def.name, fields.value, level2);
  }
}
