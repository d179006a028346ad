/** lib/decoder/decode.go in terms of a schema body as it is written: the short forms, and where each parameter is taken from. */
module DecodeForms {
  import opened Prelude
  import opened Text
  import opened Decimal
  import opened ScVals
  import opened Float64
  import opened Decoder
  import opened DecodeRoundTrip
  import opened DecodeExactness

  // ----- The short forms of a body, for any documents

  /** Without a body, or without a name in it, an event stays raw. */
  lemma NamelessIsRaw(topics: seq<Json>, value: Json, body: Option<EventDefinition>, eventName: string, sprint: Json -> string)
    requires body.None? || body.value.name == ""
    ensures Decoding(topics, value, body, eventName, sprint) == Raw(Level2(topics, value))
  {}

  /** Where a body has no params its args are the params, and where it has some its args do not matter. */
  lemma ArgsAreParams(topics: seq<Json>, value: Json, body: EventDefinition, args: seq<EventParam>, eventName: string, sprint: Json -> string)
    ensures body.params == [] ==>
              Decoding(topics, value, Some(body), eventName, sprint)
              == Decoding(topics, value, Some(body.(params := body.args)), eventName, sprint)
    ensures body.params != [] ==>
              Decoding(topics, value, Some(body), eventName, sprint)
              == Decoding(topics, value, Some(body.(args := args)), eventName, sprint)
  {
    if body.name != "" {
      if body.params == [] {
        SameDecoding(topics, value, body, body.(params := body.args), eventName, sprint);
      } else {
        SameDecoding(topics, value, body, body.(args := args), eventName, sprint);
      }
    }
  }

  /** What the args are makes no difference once the schema is settled. */
  lemma SameDecoding(topics: seq<Json>, value: Json, body: EventDefinition, body': EventDefinition, eventName: string, sprint: Json -> string)
    requires body.name != "" && body'.name == body.name && body'.prefixTopics == body.prefixTopics
    requires var def, def' := ParseEventDefinition(Some(body)).value, ParseEventDefinition(Some(body')).value;
             def'.params == def.params && def'.dataFormat == def.dataFormat
    ensures Decoding(topics, value, Some(body), eventName, sprint) == Decoding(topics, value, Some(body'), eventName, sprint)
  {
    var def, def' := ParseEventDefinition(Some(body)).value, ParseEventDefinition(Some(body')).value;
    var read, read' := Reader(def, topics, value, sprint), Reader(def', topics, value, sprint);
    SameFields(def.params, |def.params|, |def.prefixTopics|, IsTopic, read, read');
  }

  lemma {:induction false} SameFields(params: seq<EventParam>, n: nat, first: nat, isTopic: EventParam -> bool,
                                      read: (EventParam, nat) -> Result<Value, DecodeError>,
                                      read': (EventParam, nat) -> Result<Value, DecodeError>)
    requires n <= |params| && forall param: EventParam, k: nat :: read(param, k) == read'(param, k)
    ensures FieldsOf(params, n, first, isTopic, read) == FieldsOf(params, n, first, isTopic, read')
  {
    if n > 0 {
      SameFields(params, n - 1, first, isTopic, read, read');
    }
  }

  /** A format that is absent stands for "single_value". */
  lemma AbsentFormatIsSingle(topics: seq<Json>, value: Json, body: EventDefinition, eventName: string, sprint: Json -> string)
    requires body.dataFormat == ""
    ensures Decoding(topics, value, Some(body), eventName, sprint)
            == Decoding(topics, value, Some(body.(dataFormat := "single_value")), eventName, sprint)
  {}

  // ----- Where a parameter is taken from

  /** The value's type, up to case and surrounding spaces, is the one asked for; a string may be a symbol. */
  predicate HasType(v: ScVal, typ: string) {
    var want := ToLower(TrimSpace(typ));
    want == KindOf(v) || (want == "string" && v.Sym?)
  }

  /** The event's data holds the value: as the first entry of the name in a map, as the item of the index in a vector (0 if none is
      given; a value that is no vector being its own item 0), or as a whole. */
  ghost predicate DataHolds(data: ScVal, format: string, name: string, vecIndex: Option<int>, v: ScVal) {
    var f := ToLower(format);
    if f == "map" then
      data.Map? && exists i :: 0 <= i < |data.entries| && data.entries[i] == Entry(Sym(name), v)
                               && forall k :: 0 <= k < i ==> data.entries[k].key != Sym(name)
    else if f == "vec" then
      var index := if vecIndex.Some? then vecIndex.value else 0;
      if data.Vec? then 0 <= index < |data.items| && data.items[index] == v else !data.NoVec? && index == 0 && data == v
    else data == v
  }

  /** The value a single parameter is written to take: from the topic behind the prefix, or from the data. */
  ghost predicate Holds(ev: Event, prefix: nat, format: string, param: EventParam, v: ScVal) {
    var location := ToLower(TrimSpace(param.location));
    if location == "topic" || location == "topic_list" then prefix < |ev.topics| && ev.topics[prefix] == v
    else if location == "data" || location == "" then DataHolds(ev.data, format, param.name, param.vecIndex, v)
    else false
  }

  predicate HasPrefix(topics: seq<ScVal>, prefixes: seq<string>) {
    |prefixes| <= |topics| && forall i :: 0 <= i < |prefixes| ==> topics[i].Sym? && EqualFold(topics[i].sym, prefixes[i])
  }

  lemma NotAVector(data: ScVal)
    requires !data.Vec? && !data.NoVec?
    ensures ArmNumber(data) != 16
  {}

  lemma DataIsCarried(data: ScVal, format: string, param: EventParam, v: ScVal)
    requires DataHolds(data, format, param.name, param.vecIndex, v)
    ensures CarriesData(format, data, param, v)
  {
    if ToLower(format) == "map" {
      assert FirstEntry(data.entries, param.name, v);
    } else if ToLower(format) == "vec" && !data.Vec? {
      NotAVector(data);
    }
  }

  lemma HeldIsCarried(def: EventDefinition, ev: Event, param: EventParam, prefix: nat, format: string, v: ScVal)
    requires Holds(ev, prefix, format, param, v) && HasType(v, param.typ)
    requires def.dataFormat == (if format == "" then "single_value" else format)
    ensures CarriesParam(def, ev, param, prefix, v)
  {
    if LocationOf(param) == InData {
      FormatDefault(ev.data, format, param, v);
      DataIsCarried(ev.data, def.dataFormat, param, v);
    }
  }

  lemma FormatDefault(data: ScVal, format: string, param: EventParam, v: ScVal)
    requires DataHolds(data, format, param.name, param.vecIndex, v)
    ensures DataHolds(data, if format == "" then "single_value" else format, param.name, param.vecIndex, v)
  {
    assert ToLower("single_value")[0] == 's';
  }

  /** A schema with a single parameter, be it under `params` or `args`, decodes an event to the value that its location, its index and
      the format name, if that has the type. */
  lemma OneParamDecodes(body: EventDefinition, param: EventParam, ev: Event, v: ScVal, eventName: string, sprint: Json -> string)
    requires body.name != "" && (body.params == [param] || (body.params == [] && body.args == [param]))
    requires eventName == "" || EqualFold(eventName, body.name)
    requires HasPrefix(ev.topics, body.prefixTopics) && Holds(ev, |body.prefixTopics|, body.dataFormat, param, v) && HasType(v, param.typ)
    ensures var level2 := Level2(TaggedAll(ev.topics), Tagged(ev.data));
            Decoding(level2.topics, level2.value, Some(body), eventName, sprint) == Decoded(body.name, map[param.name := Recovered(v)], level2)
  {
    var def := EventDefinition(body.name, body.prefixTopics, if body.dataFormat == "" then "single_value" else body.dataFormat, [param], body.args);
    var a := map[param.name := v];
    OneIsCarried(def, ev, param, v, body.dataFormat);
    DecodeInvertsPrint(body, def, a, ev, eventName, sprint);
    OneField(param, v);
  }

  lemma OneIsCarried(def: EventDefinition, ev: Event, param: EventParam, v: ScVal, format: string)
    requires def.params == [param] && HasPrefix(ev.topics, def.prefixTopics)
    requires Holds(ev, |def.prefixTopics|, format, param, v) && HasType(v, param.typ)
    requires def.dataFormat == (if format == "" then "single_value" else format)
    ensures Carries(def, map[param.name := v], ev)
  {
    assert Taken(def.params, 0, IsTopic) == 0;
    HeldIsCarried(def, ev, param, |def.prefixTopics|, format, v);
  }

  lemma OneField(param: EventParam, v: ScVal)
    ensures Fields([param], map[param.name := v]) == map[param.name := Recovered(v)]
  {
    assert Names([param]) == {param.name} by {
      assert [param][0].name == param.name;
    }
  }

  /** And it decodes nothing that is not so: the value is there, or the event stays raw; only data that should be a map and is none
      may be read in another way. */
  lemma OneParamDecodesOnly(body: EventDefinition, param: EventParam, ev: Event, eventName: string, sprint: Json -> string)
    requires body.name != "" && (body.params == [param] || (body.params == [] && body.args == [param]))
    requires Decoding(TaggedAll(ev.topics), Tagged(ev.data), Some(body), eventName, sprint).Decoded?
    ensures (eventName == "" || EqualFold(eventName, body.name)) && TakesPrefix(ev.topics, body.prefixTopics)
    ensures (exists v :: Holds(ev, |body.prefixTopics|, body.dataFormat, param, v) && HasType(v, param.typ))
            || (ToLower(body.dataFormat) == "map" && !ev.data.Map? && param.name == KindOf(ev.data)
                && (ToLower(TrimSpace(param.location)) == "data" || ToLower(TrimSpace(param.location)) == ""))
  {
    DecodesIff(Some(body), ev, eventName, sprint);
    var def :| StandsFor(body, def) && IsEventOf(def, ev, eventName);
    assert TakesOne(def, ev, 0) && Taken(def.params, 0, IsTopic) == 0;
    TakenIsHeld(def, ev, param, |def.prefixTopics|, body.dataFormat);
  }

  lemma TakenIsHeld(def: EventDefinition, ev: Event, param: EventParam, prefix: nat, format: string)
    requires TakesParam(def, ev, param, prefix) && def.dataFormat == (if format == "" then "single_value" else format)
    ensures (exists v :: Holds(ev, prefix, format, param, v) && HasType(v, param.typ))
            || (ToLower(format) == "map" && !ev.data.Map? && param.name == KindOf(ev.data)
                && (ToLower(TrimSpace(param.location)) == "data" || ToLower(TrimSpace(param.location)) == ""))
  {
    if LocationOf(param) == InTopics {
      assert Holds(ev, prefix, format, param, ev.topics[prefix]);
    } else {
      TakenDataIsHeld(def.dataFormat, ev.data, param, format);
    }
  }

  lemma TakenDataIsHeld(dataFormat: string, data: ScVal, param: EventParam, format: string)
    requires TakesData(dataFormat, data, param) && dataFormat == (if format == "" then "single_value" else format)
    ensures (exists v :: DataHolds(data, format, param.name, param.vecIndex, v) && HasType(v, param.typ))
            || (ToLower(format) == "map" && !data.Map? && param.name == KindOf(data))
  {
    assert ToLower("single_value")[0] == 's';
    if ToLower(format) == "map" {
      EntryIsHeld(data, format, param);
    } else if ToLower(format) == "vec" {
      ItemIsHeld(data, format, param);
    } else {
      assert DataHolds(data, format, param.name, param.vecIndex, data);
    }
  }

  lemma EntryIsHeld(data: ScVal, format: string, param: EventParam)
    requires ToLower(format) == "map" && TakesData(format, data, param)
    ensures (exists v :: DataHolds(data, format, param.name, param.vecIndex, v) && HasType(v, param.typ))
            || (!data.Map? && param.name == KindOf(data))
  {
    if KindOf(data) == "map" {
      var v :| FirstEntry(data.entries, param.name, v) && Accepts(param.typ, v);
      assert DataHolds(data, format, param.name, param.vecIndex, v);
    }
  }

  lemma ItemIsHeld(data: ScVal, format: string, param: EventParam)
    requires ToLower(format) == "vec" && TakesData(format, data, param)
    ensures exists v :: DataHolds(data, format, param.name, param.vecIndex, v) && HasType(v, param.typ)
  {
    var v :| CarriesAt(data, IndexOf(param), v) && Accepts(param.typ, v);
    assert DataHolds(data, format, param.name, param.vecIndex, v);
  }

  // ----- The documented texts

  /** The location texts: "data" or nothing for the data, "topic" or "topic_list" for the topics, up to case and spaces around. */
  lemma LocationTexts()
    ensures ToLower(TrimSpace("data")) == "data" && ToLower(TrimSpace("")) == "" && ToLower(TrimSpace("  ")) == ""
    ensures ToLower(TrimSpace("topic")) == "topic" && ToLower(TrimSpace("topic_list")) == "topic_list" && ToLower(TrimSpace(" Topic")) == "topic"
  {
    assert TrimRight("data") == "data" && TrimLeft("data") == "data";
    assert TrimRight("topic") == "topic" && TrimLeft("topic") == "topic";
    assert TrimRight("topic_list") == "topic_list" && TrimLeft("topic_list") == "topic_list";
    BlankTexts();
  }

  lemma BlankTexts()
    ensures TrimSpace("  ") == "" && TrimSpace(" Topic") == "Topic" && ToLower("Topic") == "topic"
  {
    assert "  "[1..] == " " && " "[1..] == "" && TrimLeft(" ") == "" && TrimLeft("  ") == "";
    assert " Topic"[1..] == "Topic" && TrimLeft("Topic") == "Topic" && TrimRight("Topic") == "Topic";
  }

  /** The minimal form of the documentation: one argument without a location is taken from the data. */
  lemma MinimalFormDecodes(name: string, field: string, n: UInt32, sprint: Json -> string)
    requires name != ""
    ensures var body := EventDefinition(name, [], "", [], [EventParam(field, "u32", "", None)]);
            Decoding([], Tagged(U32(n)), Some(body), name, sprint)
            == Decoded(name, map[field := Recovered(U32(n))], Level2([], Tagged(U32(n))))
  {
    var param, ev := EventParam(field, "u32", "", None), Event([], U32(n));
    WantNumber();
    FoldsToItself(name);
    assert ToLower("") == "" && TrimSpace("") == "";
    assert TaggedAll(ev.topics) == [];
    OneParamDecodes(EventDefinition(name, [], "", [], [param]), param, ev, U32(n), name, sprint);
  }

  /** Two arguments of different types without locations, as in the documentation's example of a transfer, are both taken from the
      one value an event has as data, so no event is ever decoded. */
  lemma TwoTypesNeverDecode(body: EventDefinition, p: EventParam, q: EventParam, ev: Event, eventName: string, sprint: Json -> string)
    requires body.params == [] && p in body.args && q in body.args && p.location == "" && q.location == "" && body.dataFormat == ""
    requires forall v: ScVal :: !(HasType(v, p.typ) && HasType(v, q.typ))
    ensures Decoding(TaggedAll(ev.topics), Tagged(ev.data), Some(body), eventName, sprint).Raw?
  {
    DecodesIff(Some(body), ev, eventName, sprint);
    if def :| StandsFor(body, def) && IsEventOf(def, ev, eventName) {
      OneTaken(def, ev, p);
      OneTaken(def, ev, q);
      assert false;
    }
  }

  lemma OneTaken(def: EventDefinition, ev: Event, p: EventParam)
    requires p in def.params && p.location == "" && def.dataFormat == "single_value" && TakesAll(def, ev)
    ensures HasType(ev.data, p.typ)
  {
    var i :| 0 <= i < |def.params| && def.params[i] == p;
    assert TakesOne(def, ev, i);
    assert TrimSpace("") == "" && ToLower("") == "" && ToLower("single_value")[0] == 's';
    SingleTaken(def, ev, p, |def.prefixTopics| + Taken(def.params, i, IsTopic));
  }

  lemma SingleTaken(def: EventDefinition, ev: Event, p: EventParam, k: nat)
    requires TakesParam(def, ev, p, k) && LocationOf(p) == InData && ToLower(def.dataFormat) != "map" && ToLower(def.dataFormat) != "vec"
    ensures HasType(ev.data, p.typ)
  {}

  /** The documented transfer: its address and its amount cannot be the same value. */
  lemma DocumentedTransferNeverDecodes(ev: Event, eventName: string, sprint: Json -> string)
    ensures var body := EventDefinition("transfer", [], "", [],
                                        [EventParam("from", "address", "", None), EventParam("to", "address", "", None),
                                         EventParam("amount", "i128", "", None)]);
            Decoding(TaggedAll(ev.topics), Tagged(ev.data), Some(body), eventName, sprint).Raw?
  {
    var p, q := EventParam("from", "address", "", None), EventParam("amount", "i128", "", None);
    var body := EventDefinition("transfer", [], "", [], [p, EventParam("to", "address", "", None), q]);
    AddressIsNoAmount();
    assert body.args[0] == p && body.args[2] == q;
    TwoTypesNeverDecode(body, p, q, ev, eventName, sprint);
  }

  lemma AddressIsNoAmount()
    ensures forall v: ScVal :: !(HasType(v, "address") && HasType(v, "i128"))
  {
    assert TrimRight("address") == "address" && TrimLeft("address") == "address";
    assert TrimRight("i128") == "i128" && TrimLeft("i128") == "i128";
    assert ToLower("address") == "address" && ToLower("i128") == "i128";
  }

  // ----- Documents from elsewhere

  /** Under either spelling of the key a topic's symbol is read, and nothing else is one. */
  lemma SymbolTopics(s: string, kind: string, val: Json, sprint: Json -> string)
    ensures TopicSymbol(JObj(map["symbol" := JStr(s)]), sprint) == s && TopicSymbol(JObj(map["sym" := JStr(s)]), sprint) == s
    ensures kind != "symbol" && kind != "sym" ==> TopicSymbol(JObj(map[kind := val]), sprint) == ""
    ensures !val.JObj? ==> TopicSymbol(val, sprint) == ""
  {}

  /** What is read from a document of one key, if its key is the type asked for: the value as it comes out of JSON, but truth values
      only from truth values, small integers only from numbers, and text from everything. */
  lemma OneKeyDocuments(kind: string, val: Json, sprint: Json -> string)
    requires ToLower(TrimSpace(kind)) == kind
    ensures var read, loose := ExtractTypedValue(Some(JObj(map[kind := val])), kind, sprint), Loosen(val);
            if kind == "bool" then read == (if val.JBool? then Ok(BoolValue(val.b)) else Err(InvalidBool))
            else if kind in {"u32", "i32", "u64", "i64", "timepoint", "duration"} then
              read == (if val.JNum? then Ok(IntValue(ToInt64(Round(val.n)))) else Err(InvalidInteger))
            else if kind in {"i128", "u128", "i256", "u256"} then
              read == Ok(TextValue(if val.JStr? then val.s else if val.JNum? then IntString(Round(val.n)) else sprint(loose)))
            else if kind in {"address", "string", "symbol", "bytes"} then read == Ok(TextValue(if val.JStr? then val.s else sprint(loose)))
            else read == Ok(AnyValue(loose))
  {
    OneKeyIsRead(kind, val, sprint);
    KindSets(kind);
    LooseShape(val);
    CoercionIs(kind, Loosen(val), sprint);
  }

  lemma OneKeyIsRead(kind: string, val: Json, sprint: Json -> string)
    requires ToLower(TrimSpace(kind)) == kind
    ensures ExtractTypedValue(Some(JObj(map[kind := val])), kind, sprint) == CoerceValue(kind, Loosen(val), sprint)
  {
    assert kind in map[kind := val];
  }

  lemma KindSets(kind: string)
    ensures kind in {"u32", "i32", "u64", "i64", "timepoint", "duration"} <==> IsNarrowInteger(kind)
    ensures kind in {"i128", "u128", "i256", "u256"} <==> IsWideInteger(kind)
    ensures kind in {"address", "string", "symbol", "bytes"} <==> IsText(kind)
  {}

  lemma LooseShape(val: Json)
    ensures (val.JBool? || val.JStr? || val.JNull?) ==> Loosen(val) == val
    ensures val.JNum? ==> Loosen(val) == JNum(Round(val.n))
    ensures val.JArr? ==> Loosen(val).JArr?
    ensures val.JObj? ==> Loosen(val).JObj?
  {}

  lemma CoercionIs(kind: string, loose: Json, sprint: Json -> string)
    ensures CoerceValue(kind, loose, sprint) ==
            if kind == "bool" then (if loose.JBool? then Ok(BoolValue(loose.b)) else Err(InvalidBool))
            else if IsNarrowInteger(kind) then (if loose.JNum? then Ok(IntValue(ToInt64(loose.n))) else Err(InvalidInteger))
            else if IsWideInteger(kind) then
              Ok(TextValue(if loose.JStr? then loose.s else if loose.JNum? then IntString(loose.n) else sprint(loose)))
            else if IsText(kind) then Ok(TextValue(if loose.JStr? then loose.s else sprint(loose)))
            else Ok(AnyValue(loose))
  {}

  /** Nothing is read from what is no document, or has neither the type asked for nor, for a string, a symbol. */
  lemma NothingElseIsRead(raw: Json, typ: string, sprint: Json -> string)
    requires raw.JObj? ==> ToLower(TrimSpace(typ)) !in raw.fields && !(ToLower(TrimSpace(typ)) == "string" && "symbol" in raw.fields)
    ensures ExtractTypedValue(Some(raw), typ, sprint).Err? && ExtractTypedValue(None, typ, sprint).Err?
  {}

  /** Entries from elsewhere: one that is neither a document nor null spoils the map, and else the first one whose key is the name,
      read as a symbol, gives the value; without one nothing is read. */
  lemma ForeignEntries(entries: seq<Json>, param: EventParam, i: nat, sprint: Json -> string)
    ensures var read := ExtractFromMapTagged(JObj(map["entries" := JArr(entries)]), param, sprint);
            && ((exists e :: e in entries && !e.JObj? && !e.JNull?) ==> read.Err?)
            && ((forall e :: e in entries ==> e.JObj? || e.JNull?) ==>
                  && (i < |entries| && IsFirstNamed(entries, i, param.name, sprint) ==>
                        read == ExtractTypedValue(Lookup(entries[i].fields, "v"), param.typ, sprint))
                  && ((forall e :: e in entries ==> !EntryNamed(e, param.name, sprint)) ==> read.Err?))
  {
    if e :| e in entries && !e.JObj? && !e.JNull? {
      var k :| 0 <= k < |entries| && entries[k] == e;
    } else {
      if i < |entries| && IsFirstNamed(entries, i, param.name, sprint) {
        FirstNamedIsRead(entries, i, param, sprint);
      }
      if forall e :: e in entries ==> !EntryNamed(e, param.name, sprint) {
        NoneNamed(entries, param, sprint);
      }
    }
  }

  predicate IsFirstNamed(entries: seq<Json>, i: nat, name: string, sprint: Json -> string)
    requires i < |entries|
  {
    EntryNamed(entries[i], name, sprint) && forall k :: 0 <= k < i ==> !EntryNamed(entries[k], name, sprint)
  }

  lemma {:induction false} FirstNamedIsRead(entries: seq<Json>, i: nat, param: EventParam, sprint: Json -> string)
    requires i < |entries| && IsFirstNamed(entries, i, param.name, sprint)
    ensures FromEntries(entries, param, sprint) == ExtractTypedValue(Lookup(entries[i].fields, "v"), param.typ, sprint)
  {
    if i > 0 {
      assert !EntryNamed(entries[0], param.name, sprint);
      assert forall k :: 0 <= k < i ==> entries[1..][k] == entries[k + 1];
      FirstNamedIsRead(entries[1..], i - 1, param, sprint);
    }
  }

  lemma {:induction false} NoneNamed(entries: seq<Json>, param: EventParam, sprint: Json -> string)
    requires forall e :: e in entries ==> !EntryNamed(e, param.name, sprint)
    ensures FromEntries(entries, param, sprint).Err?
  {
    if entries != [] {
      NoneNamed(entries[1..], param, sprint);
    }
  }
}
