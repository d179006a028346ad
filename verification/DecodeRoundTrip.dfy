/** Decoding inverts printing: what lib/scval prints for an event is what lib/decoder reads back under the event's schema. */
module DecodeRoundTrip {
  import opened Prelude
  import opened Text
  import opened Decimal
  import opened Limbs
  import opened ScVals
  import opened Float64
  import opened Decoder

  function Want(typ: string): string { ToLower(TrimSpace(typ)) }

  /** A parameter type takes the values of its kind, and `string` takes symbols as well. */
  predicate Accepts(typ: string, v: ScVal) {
    Want(typ) == KindOf(v) || (Want(typ) == "string" && v.Sym?)
  }

  predicate IsNarrow(v: ScVal) { 2 <= ArmNumber(v) <= 7 }

  function NarrowValue(v: ScVal): int
    requires IsNarrow(v)
  {
    match v
    case U32(n) => n
    case I32(n) => n
    case U64(n) => n
    case I64(n) => n
    case Timepoint(n) => n
    case Duration(n) => n
  }

  /** The value itself, as a field. */
  function Faithful(v: ScVal): Value {
    if v.Bool? then BoolValue(v.b)
    else if IsNarrow(v) then IntValue(NarrowValue(v))
    else if Payload(v).JStr? && !v.ExecutableTag? then TextValue(Payload(v).s)
    else AnyValue(Payload(v))
  }

  /** What comes back, numbers having passed through float64. */
  function Recovered(v: ScVal): Value {
    if v.Bool? then BoolValue(v.b)
    else if IsNarrow(v) then IntValue(ToInt64(Round(NarrowValue(v))))
    else if Payload(v).JStr? && !v.ExecutableTag? then TextValue(Payload(v).s)
    else AnyValue(Loosen(Payload(v)))
  }

  // ----- One value

  lemma CoerceNarrow(v: ScVal, sprint: Json -> string)
    requires IsNarrow(v)
    ensures CoerceValue(KindOf(v), Loosen(Payload(v)), sprint) == Ok(Recovered(v))
  {
    assert IsNarrowInteger(KindOf(v));
  }

  lemma CoerceWide(v: ScVal, sprint: Json -> string)
    requires 8 <= ArmNumber(v) <= 11
    ensures CoerceValue(KindOf(v), Loosen(Payload(v)), sprint) == Ok(Recovered(v))
  {
    assert IsWideInteger(KindOf(v)) && !IsNarrowInteger(KindOf(v));
  }

  lemma CoerceText(v: ScVal, sprint: Json -> string)
    requires 12 <= ArmNumber(v) <= 15
    ensures CoerceValue(KindOf(v), Loosen(Payload(v)), sprint) == Ok(Recovered(v))
    ensures v.Sym? ==> CoerceValue("string", Loosen(Payload(v)), sprint) == Ok(Recovered(v))
  {
    assert IsText(KindOf(v)) && !IsNarrowInteger(KindOf(v)) && !IsWideInteger(KindOf(v));
    assert IsText("string") && !IsNarrowInteger("string") && !IsWideInteger("string");
  }

  /** The kinds whose values are passed through as they are. */
  lemma UntypedKind(kind: string)
    requires KindNumber(kind) == 1 || KindNumber(kind) >= 16
    ensures kind != "bool" && !IsText(kind) && !IsNarrowInteger(kind) && !IsWideInteger(kind)
  {
    assert KindNumber("bool") == 0;
    assert IsNarrowInteger(kind) ==> 2 <= KindNumber(kind) <= 7;
    assert IsWideInteger(kind) ==> 8 <= KindNumber(kind) <= 11;
    assert IsText(kind) ==> 12 <= KindNumber(kind) <= 15;
  }

  lemma UntypedField(v: ScVal)
    requires ArmNumber(v) == 1 || ArmNumber(v) >= 16
    ensures Faithful(v) == AnyValue(Payload(v)) && Recovered(v) == AnyValue(Loosen(Payload(v)))
  {
    if ArmNumber(v) <= 17 {
      NoTextUpToMaps(v);
    } else {
      NoTextFromInstances(v);
    }
  }

  lemma NoTextUpToMaps(v: ScVal)
    requires ArmNumber(v) == 1 || 16 <= ArmNumber(v) <= 17
    ensures !Payload(v).JStr?
  {}

  lemma NoTextFromInstances(v: ScVal)
    requires ArmNumber(v) >= 18
    ensures v.ExecutableTag? || !Payload(v).JStr?
  {}

  lemma TextField(v: ScVal)
    requires 8 <= ArmNumber(v) <= 15
    ensures Payload(v).JStr? && Faithful(v) == TextValue(Payload(v).s)
  {}

  lemma CoerceAny(v: ScVal, sprint: Json -> string)
    requires ArmNumber(v) == 1 || ArmNumber(v) >= 16
    ensures CoerceValue(KindOf(v), Loosen(Payload(v)), sprint) == Ok(Recovered(v))
  {
    KindsDiffer(v);
    UntypedKind(KindOf(v));
    UntypedField(v);
  }

  lemma Coerced(v: ScVal, sprint: Json -> string)
    ensures CoerceValue(KindOf(v), Loosen(Payload(v)), sprint) == Ok(Recovered(v))
    ensures v.Sym? ==> CoerceValue("string", Loosen(Payload(v)), sprint) == Ok(Recovered(v))
  {
    if IsNarrow(v) {
      CoerceNarrow(v, sprint);
    } else if 8 <= ArmNumber(v) <= 11 {
      CoerceWide(v, sprint);
    } else if 12 <= ArmNumber(v) <= 15 {
      CoerceText(v, sprint);
    } else if ArmNumber(v) != 0 {
      CoerceAny(v, sprint);
    }
  }

  /** Reading one printed value under a type that accepts it. */
  lemma ExtractsTagged(typ: string, v: ScVal, sprint: Json -> string)
    requires Accepts(typ, v)
    ensures ExtractTypedValue(Some(Tagged(v)), typ, sprint) == Ok(Recovered(v))
  {
    var doc := Tagged(v).fields;
    Coerced(v, sprint);
    assert doc == map[KindOf(v) := Payload(v)];
    if Want(typ) != KindOf(v) {
      assert KindOf(v) == "symbol" && "string" !in doc;
    }
  }

  /** All numbers of a document have at most 53 significant bits. */
  ghost predicate NumbersFit(j: Json) {
    match j
    case JNum(n) => Fits(n)
    case JArr(items) => forall i :: 0 <= i < |items| ==> NumbersFit(items[i])
    case JObj(fields) => forall k :: k in fields ==> NumbersFit(fields[k])
    case _ => true
  }

  lemma {:induction false} LoosenKeepsIffNumbersFit(j: Json)
    ensures Loosen(j) == j <==> NumbersFit(j)
  {
    match j
    case JNum(n) =>
      RoundKeepsIffFits(n);
    case JArr(items) =>
      forall i | 0 <= i < |items|
        ensures Loosen(items[i]) == items[i] <==> NumbersFit(items[i])
      {
        LoosenKeepsIffNumbersFit(items[i]);
      }
      var out := Loosen(j).items;
      assert |out| == |items| && forall i :: 0 <= i < |items| ==> out[i] == Loosen(items[i]);
      if NumbersFit(j) {
        assert out == items;
      }
    case JObj(fields) =>
      forall k | k in fields
        ensures Loosen(fields[k]) == fields[k] <==> NumbersFit(fields[k])
      {
        LoosenKeepsIffNumbersFit(fields[k]);
      }
      var out := Loosen(j).fields;
      assert out.Keys == fields.Keys && forall k :: k in fields ==> out[k] == Loosen(fields[k]);
      if NumbersFit(j) {
        assert out == fields;
      }
    case _ =>
  }

  /** Which values come back exactly: a condition on the value alone. */
  ghost predicate SurvivesDecoding(v: ScVal) {
    if IsNarrow(v) then Fits(NarrowValue(v)) && NarrowValue(v) < TWO_TO_63 else NumbersFit(Payload(v))
  }

  lemma RecoveredIsFaithfulIff(v: ScVal)
    ensures Recovered(v) == Faithful(v) <==> SurvivesDecoding(v)
  {
    if IsNarrow(v) {
      Int64KeepsIff(NarrowValue(v));
    } else {
      LoosenKeepsIffNumbersFit(Payload(v));
    }
  }

  /** Everything but the six number-tagged kinds and the containers of numbers survives, and so do small numbers. */
  lemma SmallIntegersSurvive(v: ScVal)
    requires IsNarrow(v) && -TWO_TO_53 <= NarrowValue(v) <= TWO_TO_53
    ensures SurvivesDecoding(v)
  {
    SmallFits(NarrowValue(v));
  }

  /** 2^53 + 1 does not: it is read back as 2^53. */
  lemma FirstLostInteger()
    ensures Recovered(U64(TWO_TO_53 + 1)) == IntValue(TWO_TO_53) && !SurvivesDecoding(U64(TWO_TO_53 + 1))
  {
    FirstLoss();
  }

  /** A field that is faithful tells the value, up to absent containers, once the kind is known. */
  lemma FaithfulIsInjective(v: ScVal, w: ScVal)
    requires KindOf(v) == KindOf(w) && Faithful(v) == Faithful(w)
    ensures Present(v) == Present(w)
  {
    KindsDiffer(v);
    KindsDiffer(w);
    SamePayload(v, w);
    TaggedIsInjective(v, w);
  }

  lemma SamePayload(v: ScVal, w: ScVal)
    requires ArmNumber(v) == ArmNumber(w) && Faithful(v) == Faithful(w)
    ensures Payload(v) == Payload(w)
  {
    if IsNarrow(v) {
      NarrowPayload(v);
      NarrowPayload(w);
    } else if 8 <= ArmNumber(v) <= 15 {
      TextField(v);
      TextField(w);
    } else if ArmNumber(v) != 0 {
      UntypedField(v);
      UntypedField(w);
    }
  }

  lemma NarrowPayload(v: ScVal)
    requires IsNarrow(v)
    ensures Payload(v) == JNum(NarrowValue(v))
  {}

  // ----- Whole events

  /** What a contract emits. */
  datatype Event = Event(topics: seq<ScVal>, data: ScVal)

  function TaggedAll(vs: seq<ScVal>): seq<Json> {
    seq(|vs|, i requires 0 <= i < |vs| => Tagged(vs[i]))
  }

  ghost predicate CarriesPrefix(topics: seq<ScVal>, prefixes: seq<string>) {
    |prefixes| <= |topics| &&
    forall i :: 0 <= i < |prefixes| ==> topics[i].Sym? && EqualFold(topics[i].sym, prefixes[i])
  }

  /** The map's first entry under the name, which is a symbol. */
  ghost predicate FirstEntry(entries: seq<Entry>, name: string, v: ScVal) {
    exists i :: 0 <= i < |entries| && entries[i] == Entry(Sym(name), v)
                && forall k :: 0 <= k < i ==> entries[k].key != Sym(name)
  }

  ghost predicate CarriesData(format: string, data: ScVal, param: EventParam, v: ScVal) {
    var f := ToLower(format);
    if f == "map" then data.Map? && FirstEntry(data.entries, param.name, v)
    else if f == "vec" then CarriesAt(data, IndexOf(param), v)
    else data == v
  }

  /** The vector's item; a value that is no vector counts as its own item 0. */
  ghost predicate CarriesAt(data: ScVal, index: int, v: ScVal) {
    if data.Vec? then 0 <= index < |data.items| && data.items[index] == v
    else ArmNumber(data) != 16 && index == 0 && data == v
  }

  /** The event carries the value where the schema says the parameter is. */
  ghost predicate CarriesParam(def: EventDefinition, ev: Event, param: EventParam, topicIndex: nat, v: ScVal) {
    && Accepts(param.typ, v)
    && match LocationOf(param)
       case InData => CarriesData(def.dataFormat, ev.data, param, v)
       case InTopics => topicIndex < |ev.topics| && ev.topics[topicIndex] == v
       case Nowhere => false
  }

  /** The event carries the i-th parameter's value. */
  ghost predicate CarriesOne(def: EventDefinition, a: map<string, ScVal>, ev: Event, i: nat)
    requires i < |def.params|
  {
    def.params[i].name in a
    && CarriesParam(def, ev, def.params[i], |def.prefixTopics| + Taken(def.params, i, IsTopic), a[def.params[i].name])
  }

  /** The event carries the assignment under the (parsed) schema. */
  ghost predicate Carries(def: EventDefinition, a: map<string, ScVal>, ev: Event) {
    CarriesPrefix(ev.topics, def.prefixTopics) && forall i :: 0 <= i < |def.params| ==> CarriesOne(def, a, ev, i)
  }

  lemma SymbolIsTopicSymbol(s: string, sprint: Json -> string)
    ensures TopicSymbol(Tagged(Sym(s)), sprint) == s
  {}

  lemma PrefixMatches(topics: seq<ScVal>, prefixes: seq<string>, sprint: Json -> string)
    requires CarriesPrefix(topics, prefixes)
    ensures MatchPrefixTopics(TaggedAll(topics), prefixes, sprint)
  {
    forall i | 0 <= i < |prefixes|
      ensures EqualFold(TopicSymbol(TaggedAll(topics)[i], sprint), prefixes[i])
    {
      SymbolIsTopicSymbol(topics[i].sym, sprint);
    }
  }

  lemma OtherKey(key: ScVal, sprint: Json -> string)
    requires !key.Sym?
    ensures ExtractTypedValue(Some(Tagged(key)), "symbol", sprint).Err?
  {
    WantSymbol();
    KindsDiffer(key);
    assert KindNumber("symbol") == 14;
    assert "symbol" !in Tagged(key).fields;
  }

  lemma WantSymbol()
    ensures Want("symbol") == "symbol"
  {
    assert TrimRight("symbol") == "symbol" && TrimLeft("symbol") == "symbol";
  }

  lemma EntryNamedIff(e: Entry, name: string, sprint: Json -> string)
    ensures EntryNamed(TaggedEntry(e), name, sprint) <==> e.key == Sym(name)
  {
    assert Lookup(TaggedEntry(e).fields, "k") == Some(Tagged(e.key));
    if e.key.Sym? {
      WantSymbol();
      ExtractsTagged("symbol", e.key, sprint);
    } else {
      OtherKey(e.key, sprint);
    }
  }

  lemma {:induction false} EntryFound(entries: seq<Entry>, param: EventParam, v: ScVal, sprint: Json -> string)
    requires FirstEntry(entries, param.name, v) && Accepts(param.typ, v)
    ensures FromEntries(Documents(entries), param, sprint) == Ok(Recovered(v))
  {
    var i :| 0 <= i < |entries| && entries[i] == Entry(Sym(param.name), v) && forall k :: 0 <= k < i ==> entries[k].key != Sym(param.name);
    EntryNamedIff(entries[0], param.name, sprint);
    assert Documents(entries)[0] == TaggedEntry(entries[0]);
    if i == 0 {
      assert Lookup(TaggedEntry(entries[0]).fields, "v") == Some(Tagged(v));
      ExtractsTagged(param.typ, v, sprint);
    } else {
      assert entries[1..][i - 1] == entries[i];
      assert FirstEntry(entries[1..], param.name, v);
      EntryFound(entries[1..], param, v, sprint);
      assert Documents(entries)[1..] == Documents(entries[1..]);
    }
  }

  lemma DataFound(format: string, data: ScVal, param: EventParam, v: ScVal, sprint: Json -> string)
    requires CarriesData(format, data, param, v) && Accepts(param.typ, v)
    ensures ExtractDataParam(format, Tagged(data), param, sprint) == Ok(Recovered(v))
  {
    Dispatch(format, Tagged(data), param, sprint);
    if ToLower(format) == "map" {
      MapFound(data, param, v, sprint);
    } else if ToLower(format) == "vec" {
      VecFound(data, param, v, sprint);
    } else {
      ExtractsTagged(param.typ, v, sprint);
    }
  }

  lemma Dispatch(format: string, value: Json, param: EventParam, sprint: Json -> string)
    requires value.JObj?
    ensures ExtractDataParam(format, value, param, sprint) ==
            if ToLower(format) == "map" && "map" in value.fields then ExtractFromMapTagged(value.fields["map"], param, sprint)
            else if ToLower(format) == "map" && param.name !in value.fields then Err(MissingMapField)
            else if ToLower(format) == "map" then ExtractTypedValue(Some(value.fields[param.name]), param.typ, sprint)
            else if ToLower(format) == "vec" then ExtractFromVecAt(value, IndexOf(param), param, sprint)
            else ExtractTypedValue(Some(value), param.typ, sprint)
  {}

  lemma MapFound(data: ScVal, param: EventParam, v: ScVal, sprint: Json -> string)
    requires data.Map? && FirstEntry(data.entries, param.name, v) && Accepts(param.typ, v)
    ensures Tagged(data).JObj? && "map" in Tagged(data).fields
    ensures ExtractFromMapTagged(Tagged(data).fields["map"], param, sprint) == Ok(Recovered(v))
  {
    EntryFound(data.entries, param, v, sprint);
    MapDocument(data);
    AllObjects(data.entries);
    ReadsEntries(Payload(data), Documents(data.entries), param, sprint);
  }

  lemma MapDocument(data: ScVal)
    requires data.Map?
    ensures Tagged(data) == JObj(map["map" := Payload(data)])
    ensures Payload(data) == JObj(map["entries" := JArr(Documents(data.entries))])
  {}

  lemma AllObjects(entries: seq<Entry>)
    ensures forall i :: 0 <= i < |Documents(entries)| ==> Documents(entries)[i].JObj?
  {}

  lemma ReadsEntries(raw: Json, docs: seq<Json>, param: EventParam, sprint: Json -> string)
    requires raw == JObj(map["entries" := JArr(docs)]) && forall i :: 0 <= i < |docs| ==> docs[i].JObj?
    ensures ExtractFromMapTagged(raw, param, sprint) == FromEntries(docs, param, sprint)
  {}

  lemma VecFound(data: ScVal, param: EventParam, v: ScVal, sprint: Json -> string)
    requires CarriesAt(data, IndexOf(param), v) && Accepts(param.typ, v)
    ensures ExtractFromVecAt(Tagged(data), IndexOf(param), param, sprint) == Ok(Recovered(v))
  {
    ExtractsTagged(param.typ, v, sprint);
    if data.Vec? {
      VecDocument(data);
      assert TaggedAll(data.items)[IndexOf(param)] == Tagged(v);
      ReadsItem(Tagged(data), TaggedAll(data.items), IndexOf(param), param, sprint);
    } else {
      NotAVec(data);
      ReadsWhole(Tagged(data), param, sprint);
    }
  }

  lemma ReadsWhole(raw: Json, param: EventParam, sprint: Json -> string)
    requires raw.JObj? && "vec" !in raw.fields
    ensures ExtractFromVecAt(raw, 0, param, sprint) == ExtractTypedValue(Some(raw), param.typ, sprint)
  {}

  lemma VecDocument(data: ScVal)
    requires data.Vec?
    ensures Tagged(data) == JObj(map["vec" := JArr(TaggedAll(data.items))])
  {}

  lemma ReadsItem(raw: Json, items: seq<Json>, index: nat, param: EventParam, sprint: Json -> string)
    requires raw == JObj(map["vec" := JArr(items)]) && index < |items|
    ensures ExtractFromVecAt(raw, index, param, sprint) == ExtractTypedValue(Some(items[index]), param.typ, sprint)
  {}

  lemma NotAVec(data: ScVal)
    requires ArmNumber(data) != 16
    ensures "vec" !in Tagged(data).fields
  {
    KindsDiffer(data);
    assert KindNumber("vec") == 16;
    assert KindOf(data) != "vec";
  }

  lemma ParamFound(def: EventDefinition, ev: Event, param: EventParam, topicIndex: nat, v: ScVal, sprint: Json -> string)
    requires CarriesParam(def, ev, param, topicIndex, v)
    ensures Reader(def, TaggedAll(ev.topics), Tagged(ev.data), sprint)(param, topicIndex) == Ok(Recovered(v))
  {
    match LocationOf(param)
    case InData => DataFound(def.dataFormat, ev.data, param, v, sprint);
    case InTopics => ExtractsTagged(param.typ, v, sprint);
  }

  function NamesUpTo(params: seq<EventParam>, n: nat): set<string>
    requires n <= |params|
  {
    set i | 0 <= i < n :: params[i].name
  }

  function Names(params: seq<EventParam>): set<string> { NamesUpTo(params, |params|) }

  function Select(values: map<string, Value>, names: set<string>): map<string, Value> {
    map n | n in values && n in names :: values[n]
  }

  function Recoveries(a: map<string, ScVal>): map<string, Value> { map n | n in a :: Recovered(a[n]) }

  /** Every parameter's value under its name. */
  function Fields(params: seq<EventParam>, a: map<string, ScVal>): map<string, Value> {
    Select(Recoveries(a), Names(params))
  }

  lemma SelectMore(values: map<string, Value>, names: set<string>, n: string)
    requires n in values
    ensures Select(values, names + {n}) == Select(values, names)[n := values[n]]
  {}

  /** Parameter i is read as the value under its name. */
  ghost predicate ReadsAs(params: seq<EventParam>, i: nat, values: map<string, Value>, first: nat, isTopic: EventParam -> bool,
                          read: (EventParam, nat) -> Result<Value, DecodeError>)
    requires i < |params|
  {
    params[i].name in values && read(params[i], first + Taken(params, i, isTopic)) == Ok(values[params[i].name])
  }

  lemma {:induction false} FieldsFound(params: seq<EventParam>, n: nat, values: map<string, Value>, first: nat, isTopic: EventParam -> bool,
                                       read: (EventParam, nat) -> Result<Value, DecodeError>)
    requires n <= |params| && forall i :: 0 <= i < n ==> ReadsAs(params, i, values, first, isTopic, read)
    ensures FieldsOf(params, n, first, isTopic, read) == Ok(Select(values, NamesUpTo(params, n)))
  {
    if n == 0 {
      assert NamesUpTo(params, 0) == {};
    } else {
      FieldsFound(params, n - 1, values, first, isTopic, read);
      assert NamesUpTo(params, n) == NamesUpTo(params, n - 1) + {params[n - 1].name};
      assert ReadsAs(params, n - 1, values, first, isTopic, read);
      SelectMore(values, NamesUpTo(params, n - 1), params[n - 1].name);
    }
  }

  lemma ParamFoundAt(def: EventDefinition, a: map<string, ScVal>, ev: Event, sprint: Json -> string, i: nat)
    requires Carries(def, a, ev) && i < |def.params|
    ensures ReadsAs(def.params, i, Recoveries(a), |def.prefixTopics|, IsTopic, Reader(def, TaggedAll(ev.topics), Tagged(ev.data), sprint))
  {
    assert CarriesOne(def, a, ev, i);
    ParamFound(def, ev, def.params[i], |def.prefixTopics| + Taken(def.params, i, IsTopic), a[def.params[i].name], sprint);
  }

  lemma ParamsFound(def: EventDefinition, a: map<string, ScVal>, ev: Event, sprint: Json -> string,
                    read: (EventParam, nat) -> Result<Value, DecodeError>)
    requires Carries(def, a, ev) && read == Reader(def, TaggedAll(ev.topics), Tagged(ev.data), sprint)
    ensures FieldsOf(def.params, |def.params|, |def.prefixTopics|, IsTopic, read) == Ok(Fields(def.params, a))
  {
    forall i | 0 <= i < |def.params|
      ensures ReadsAs(def.params, i, Recoveries(a), |def.prefixTopics|, IsTopic, read)
    {
      ParamFoundAt(def, a, ev, sprint, i);
    }
    FieldsFound(def.params, |def.params|, Recoveries(a), |def.prefixTopics|, IsTopic, read);
  }

  /** The schema a body stands for: its args where it has no params, and a single value where it names no format. */
  predicate StandsFor(body: EventDefinition, def: EventDefinition) {
    && body.name != "" && def.name == body.name && def.prefixTopics == body.prefixTopics && def.args == body.args
    && def.params == (if body.params == [] then body.args else body.params)
    && def.dataFormat == (if body.dataFormat == "" then "single_value" else body.dataFormat)
  }

  /** Parsing gives the schema a body stands for, and fails without a body or a name. */
  lemma ParsedIff(body: Option<EventDefinition>, def: EventDefinition)
    ensures ParseEventDefinition(body) == Ok(def) <==> body.Some? && StandsFor(body.value, def)
  {}

  lemma DecodingOfFields(topics: seq<Json>, value: Json, body: EventDefinition, def: EventDefinition, eventName: string,
                         sprint: Json -> string, fields: map<string, Value>)
    requires ParseEventDefinition(Some(body)) == Ok(def)
    requires MatchPrefixTopics(topics, def.prefixTopics, sprint)
    requires eventName == "" || EqualFold(eventName, body.name)
    requires FieldsOf(def.params, |def.params|, |def.prefixTopics|, IsTopic, Reader(def, topics, value, sprint)) == Ok(fields)
    ensures Decoding(topics, value, Some(body), eventName, sprint) ==
            if fields == map[] then Raw(Level2(topics, value)) else Decoded(body.name, fields, Level2(topics, value))
  {}

  /** Decoding inverts printing: an event that carries an assignment under a schema is decoded to exactly that assignment,
      each value as it comes back from JSON, with the level-2 documents untouched; only a schema without parameters gives "raw". */
  lemma DecodeInvertsPrint(body: EventDefinition, def: EventDefinition, a: map<string, ScVal>, ev: Event, eventName: string,
                           sprint: Json -> string)
    requires StandsFor(body, def) && Carries(def, a, ev)
    requires eventName == "" || EqualFold(eventName, body.name)
    ensures var level2 := Level2(TaggedAll(ev.topics), Tagged(ev.data));
            Decoding(level2.topics, level2.value, Some(body), eventName, sprint) ==
            if def.params == [] then Raw(level2) else Decoded(body.name, Fields(def.params, a), level2)
    ensures Fields(def.params, a) == map n | n in Names(def.params) && n in a :: Recovered(a[n])
    ensures Names(def.params) <= a.Keys
  {
    ParsedIff(Some(body), def);
    PrefixMatches(ev.topics, def.prefixTopics, sprint);
    ParamsFound(def, a, ev, sprint, Reader(def, TaggedAll(ev.topics), Tagged(ev.data), sprint));
    DecodingOfFields(TaggedAll(ev.topics), Tagged(ev.data), body, def, eventName, sprint, Fields(def.params, a));
    forall i | 0 <= i < |def.params|
      ensures def.params[i].name in a
    {
      assert CarriesOne(def, a, ev, i);
    }
    FieldsEmptyIff(def.params, a);
  }

  lemma FieldsEmptyIff(params: seq<EventParam>, a: map<string, ScVal>)
    requires Names(params) <= a.Keys
    ensures Fields(params, a) == map[] <==> params == []
  {
    if params != [] {
      assert params[0].name in Names(params);
      assert params[0].name in Fields(params, a);
    }
  }

  /** The fields are the assigned values themselves exactly when every assigned value survives float64. */
  lemma FieldsAreExactIff(params: seq<EventParam>, a: map<string, ScVal>)
    requires Names(params) <= a.Keys
    ensures Fields(params, a) == (map n | n in Names(params) && n in a :: Faithful(a[n]))
            <==> forall n :: n in Names(params) ==> SurvivesDecoding(a[n])
  {
    var faithful := map n | n in Names(params) && n in a :: Faithful(a[n]);
    forall n | n in Names(params)
      ensures Fields(params, a)[n] == faithful[n] <==> SurvivesDecoding(a[n])
    {
      RecoveredIsFaithfulIff(a[n]);
    }
    assert Fields(params, a).Keys == faithful.Keys;
    if Fields(params, a) == faithful {
      forall n | n in Names(params)
        ensures SurvivesDecoding(a[n])
      {
        assert Fields(params, a)[n] == faithful[n];
      }
    }
  }

  // ----- Laying an event out

  predicate IsData(param: EventParam) { LocationOf(param) == InData }

  function ValueOf(a: map<string, ScVal>, name: string): ScVal { if name in a then a[name] else Void }

  /** The values of the parameters among the first n that take a topic, in order. */
  function TopicValues(params: seq<EventParam>, n: nat, a: map<string, ScVal>, isTopic: EventParam -> bool): seq<ScVal>
    requires n <= |params|
  {
    if n == 0 then []
    else TopicValues(params, n - 1, a, isTopic) + (if isTopic(params[n - 1]) then [ValueOf(a, params[n - 1].name)] else [])
  }

  function DataEntries(params: seq<EventParam>, n: nat, a: map<string, ScVal>, isData: EventParam -> bool): seq<Entry>
    requires n <= |params|
  {
    if n == 0 then []
    else DataEntries(params, n - 1, a, isData)
         + (if isData(params[n - 1]) then [Entry(Sym(params[n - 1].name), ValueOf(a, params[n - 1].name))] else [])
  }

  /** One more than the largest index in use. */
  function Width(params: seq<EventParam>, n: nat): nat
    requires n <= |params|
  {
    if n == 0 then 0
    else if IsData(params[n - 1]) && IndexOf(params[n - 1]) >= Width(params, n - 1) then IndexOf(params[n - 1]) + 1
    else Width(params, n - 1)
  }

  /** The value placed by the data parameters that are `here`; void where there is none. */
  function Placed(params: seq<EventParam>, n: nat, a: map<string, ScVal>, here: EventParam -> bool): ScVal
    requires n <= |params|
  {
    if n == 0 then Void
    else if IsData(params[n - 1]) && here(params[n - 1]) then ValueOf(a, params[n - 1].name)
    else Placed(params, n - 1, a, here)
  }

  function At(k: int): EventParam -> bool { (param: EventParam) => IndexOf(param) == k }

  function Anywhere(): EventParam -> bool { (param: EventParam) => true }

  function LaidOutData(def: EventDefinition, a: map<string, ScVal>): ScVal {
    var n := |def.params|;
    var f := ToLower(def.dataFormat);
    if f == "map" then Map(DataEntries(def.params, n, a, IsData))
    else if f == "vec" then Vec(seq(Width(def.params, n), k => Placed(def.params, n, a, At(k))))
    else Placed(def.params, n, a, Anywhere())
  }

  /** The event of an assignment: the prefix symbols, the topic parameters in order, and the data in the schema's format. */
  function Layout(def: EventDefinition, a: map<string, ScVal>): Event {
    Event(seq(|def.prefixTopics|, i requires 0 <= i < |def.prefixTopics| => Sym(def.prefixTopics[i]))
            + TopicValues(def.params, |def.params|, a, IsTopic),
          LaidOutData(def, a))
  }

  /** Two data parameters never share a place. */
  ghost predicate Apart(params: seq<EventParam>, same: (EventParam, EventParam) -> bool) {
    forall i, j :: 0 <= i < j < |params| && IsData(params[i]) && IsData(params[j]) ==> !same(params[i], params[j])
  }

  function SameName(): (EventParam, EventParam) -> bool { (p: EventParam, q: EventParam) => p.name == q.name }

  function SameIndex(): (EventParam, EventParam) -> bool { (p: EventParam, q: EventParam) => IndexOf(p) == IndexOf(q) }

  function Always(): (EventParam, EventParam) -> bool { (p: EventParam, q: EventParam) => true }

  /** The schemas an event can be laid out under: known locations, and in the data distinct names for a map, distinct indexes
      for a vector, one parameter for a single value. */
  ghost predicate WellFormed(def: EventDefinition) {
    var f := ToLower(def.dataFormat);
    && (forall i :: 0 <= i < |def.params| ==> IsTopic(def.params[i]) || IsData(def.params[i]))
    && (f == "map" ==> Apart(def.params, SameName()))
    && (f == "vec" ==> Apart(def.params, SameIndex()) && forall i :: 0 <= i < |def.params| && IsData(def.params[i]) ==> IndexOf(def.params[i]) >= 0)
    && (f != "map" && f != "vec" ==> Apart(def.params, Always()))
  }

  ghost predicate Typed(params: seq<EventParam>, a: map<string, ScVal>) {
    forall i :: 0 <= i < |params| ==> params[i].name in a && Accepts(params[i].typ, a[params[i].name])
  }

  lemma {:induction false} TopicPlaced(params: seq<EventParam>, n: nat, a: map<string, ScVal>, isTopic: EventParam -> bool, i: nat)
    requires i < n <= |params| && isTopic(params[i])
    ensures |TopicValues(params, n, a, isTopic)| == Taken(params, n, isTopic)
    ensures Taken(params, i, isTopic) < Taken(params, n, isTopic)
    ensures TopicValues(params, n, a, isTopic)[Taken(params, i, isTopic)] == ValueOf(a, params[i].name)
  {
    if i < n - 1 {
      TopicPlaced(params, n - 1, a, isTopic, i);
    } else {
      TopicCount(params, n - 1, a, isTopic);
    }
  }

  lemma {:induction false} TopicCount(params: seq<EventParam>, n: nat, a: map<string, ScVal>, isTopic: EventParam -> bool)
    requires n <= |params|
    ensures |TopicValues(params, n, a, isTopic)| == Taken(params, n, isTopic)
  {
    if n > 0 {
      TopicCount(params, n - 1, a, isTopic);
    }
  }

  lemma {:induction false} EntryKeys(params: seq<EventParam>, n: nat, a: map<string, ScVal>, isData: EventParam -> bool, k: nat)
    requires n <= |params| && k < |DataEntries(params, n, a, isData)|
    ensures exists j :: 0 <= j < n && isData(params[j]) && DataEntries(params, n, a, isData)[k].key == Sym(params[j].name)
  {
    if k < |DataEntries(params, n - 1, a, isData)| {
      EntryKeys(params, n - 1, a, isData, k);
    }
  }

  lemma {:induction false} EntryPlaced(params: seq<EventParam>, n: nat, a: map<string, ScVal>, isData: EventParam -> bool, i: nat)
    requires i < n <= |params| && isData(params[i])
    requires forall j, k :: 0 <= j < k < |params| && isData(params[j]) && isData(params[k]) ==> params[j].name != params[k].name
    ensures FirstEntry(DataEntries(params, n, a, isData), params[i].name, ValueOf(a, params[i].name))
  {
    var before := DataEntries(params, n - 1, a, isData);
    var name, v := params[i].name, ValueOf(a, params[i].name);
    if i == n - 1 {
      forall k | 0 <= k < |before|
        ensures before[k].key != Sym(name)
      {
        EntryKeys(params, n - 1, a, isData, k);
      }
      FirstAtEnd(before, name, v);
    } else {
      EntryPlaced(params, n - 1, a, isData, i);
      var last := params[n - 1];
      FirstStays(before, if isData(last) then [Entry(Sym(last.name), ValueOf(a, last.name))] else [], name, v);
    }
  }

  lemma FirstAtEnd(before: seq<Entry>, name: string, v: ScVal)
    requires forall k :: 0 <= k < |before| ==> before[k].key != Sym(name)
    ensures FirstEntry(before + [Entry(Sym(name), v)], name, v)
  {
    assert (before + [Entry(Sym(name), v)])[|before|] == Entry(Sym(name), v);
  }

  lemma FirstStays(before: seq<Entry>, more: seq<Entry>, name: string, v: ScVal)
    requires FirstEntry(before, name, v)
    ensures FirstEntry(before + more, name, v)
  {
    var k :| 0 <= k < |before| && before[k] == Entry(Sym(name), v) && forall m :: 0 <= m < k ==> before[m].key != Sym(name);
    assert (before + more)[k] == before[k];
  }

  lemma {:induction false} ItemPlaced(params: seq<EventParam>, n: nat, a: map<string, ScVal>, i: nat, here: EventParam -> bool,
                                      same: (EventParam, EventParam) -> bool)
    requires i < n <= |params| && IsData(params[i]) && here(params[i]) && Apart(params, same)
    requires forall p, q :: here(p) && here(q) ==> same(p, q)
    ensures Placed(params, n, a, here) == ValueOf(a, params[i].name)
  {
    if i < n - 1 {
      assert IsData(params[n - 1]) ==> !same(params[i], params[n - 1]);
      ItemPlaced(params, n - 1, a, i, here, same);
    }
  }

  lemma {:induction false} WithinWidth(params: seq<EventParam>, n: nat, i: nat)
    requires i < n <= |params| && IsData(params[i])
    ensures IndexOf(params[i]) < Width(params, n)
  {
    if i < n - 1 {
      WithinWidth(params, n - 1, i);
    }
  }

  lemma DataPlaced(def: EventDefinition, a: map<string, ScVal>, i: nat)
    requires WellFormed(def) && i < |def.params| && IsData(def.params[i])
    ensures CarriesData(def.dataFormat, LaidOutData(def, a), def.params[i], ValueOf(a, def.params[i].name))
  {
    var f, n, index := ToLower(def.dataFormat), |def.params|, IndexOf(def.params[i]);
    if f == "map" {
      forall j, k | 0 <= j < k < n && IsData(def.params[j]) && IsData(def.params[k])
        ensures def.params[j].name != def.params[k].name
      {
        assert !SameName()(def.params[j], def.params[k]);
      }
      EntryPlaced(def.params, n, a, IsData, i);
    } else if f == "vec" {
      ItemPlaced(def.params, n, a, i, At(index), SameIndex());
      WithinWidth(def.params, n, i);
    } else {
      ItemPlaced(def.params, n, a, i, Anywhere(), Always());
    }
  }

  lemma FoldsToItself(s: string)
    ensures EqualFold(s, s)
  {}

  lemma LayoutPrefix(def: EventDefinition, a: map<string, ScVal>)
    ensures CarriesPrefix(Layout(def, a).topics, def.prefixTopics)
  {
    forall i | 0 <= i < |def.prefixTopics|
      ensures Layout(def, a).topics[i] == Sym(def.prefixTopics[i]) && EqualFold(def.prefixTopics[i], def.prefixTopics[i])
    {
      FoldsToItself(def.prefixTopics[i]);
    }
  }

  lemma LayoutTopic(def: EventDefinition, a: map<string, ScVal>, i: nat)
    requires i < |def.params| && IsTopic(def.params[i])
    ensures var k := |def.prefixTopics| + Taken(def.params, i, IsTopic);
            k < |Layout(def, a).topics| && Layout(def, a).topics[k] == ValueOf(a, def.params[i].name)
  {
    TopicPlaced(def.params, |def.params|, a, IsTopic, i);
  }

  lemma ParamLaidOut(def: EventDefinition, a: map<string, ScVal>, ev: Event, i: nat)
    requires WellFormed(def) && Typed(def.params, a) && i < |def.params| && ev == Layout(def, a)
    ensures CarriesOne(def, a, ev, i)
  {
    if IsData(def.params[i]) {
      DataPlaced(def, a, i);
    } else {
      LayoutTopic(def, a, i);
    }
  }

  /** A laid-out event carries its assignment. */
  lemma LayoutCarries(def: EventDefinition, a: map<string, ScVal>, ev: Event)
    requires WellFormed(def) && Typed(def.params, a) && ev == Layout(def, a)
    ensures Carries(def, a, ev)
  {
    LayoutPrefix(def, a);
    forall i | 0 <= i < |def.params|
      ensures CarriesOne(def, a, ev, i)
    {
      ParamLaidOut(def, a, ev, i);
    }
  }

  /** The round trip: laying out an assignment whose values survive float64, printing it and decoding the documents gives the
      values themselves, every parameter under its name and nothing else. */
  lemma RoundTrip(body: EventDefinition, def: EventDefinition, a: map<string, ScVal>, eventName: string, sprint: Json -> string)
    requires StandsFor(body, def) && WellFormed(def) && Typed(def.params, a) && def.params != []
    requires eventName == "" || EqualFold(eventName, body.name)
    requires forall n :: n in Names(def.params) && n in a ==> SurvivesDecoding(a[n])
    ensures var level2 := Level2(TaggedAll(Layout(def, a).topics), Tagged(Layout(def, a).data));
            Decoding(level2.topics, level2.value, Some(body), eventName, sprint)
            == Decoded(body.name, map n | n in Names(def.params) && n in a :: Faithful(a[n]), level2)
    ensures Names(def.params) <= a.Keys
  {
    LayoutCarries(def, a, Layout(def, a));
    DecodeInvertsPrint(body, def, a, Layout(def, a), eventName, sprint);
    FieldsAreExactIff(def.params, a);
  }
}
