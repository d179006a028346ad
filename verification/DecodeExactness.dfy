/** The other half of the round trip: a printed event is decoded only if it carries an assignment under the schema. */
module DecodeExactness {
  import opened Prelude
  import opened Text
  import opened ScVals
  import opened Decoder
  import opened DecodeRoundTrip

  // ----- One value

  lemma RefusedDocument(kind: string, payload: Json, typ: string, sprint: Json -> string)
    requires Want(typ) != kind && !(Want(typ) == "string" && kind == "symbol")
    ensures ExtractTypedValue(Some(JObj(map[kind := payload])), typ, sprint).Err?
  {}

  lemma OnlySymbols(v: ScVal)
    requires KindOf(v) == "symbol"
    ensures v.Sym?
  {
    KindsDiffer(v);
    assert KindNumber("symbol") == 14;
  }

  lemma RefusedTag(typ: string, v: ScVal, sprint: Json -> string)
    requires !Accepts(typ, v)
    ensures ExtractTypedValue(Some(Tagged(v)), typ, sprint).Err?
  {
    if KindOf(v) == "symbol" {
      OnlySymbols(v);
    }
    RefusedDocument(KindOf(v), Payload(v), typ, sprint);
  }

  /** A printed value is read under exactly the types that accept it. */
  lemma ExtractsIffAccepted(typ: string, v: ScVal, sprint: Json -> string)
    ensures ExtractTypedValue(Some(Tagged(v)), typ, sprint).Ok? <==> Accepts(typ, v)
  {
    if Accepts(typ, v) {
      ExtractsTagged(typ, v, sprint);
    } else {
      RefusedTag(typ, v, sprint);
    }
  }

  // ----- Data

  ghost predicate HasEntry(entries: seq<Entry>, param: EventParam) {
    exists v :: FirstEntry(entries, param.name, v) && Accepts(param.typ, v)
  }

  lemma LaterEntry(entries: seq<Entry>, name: string, v: ScVal)
    requires entries != [] && entries[0].key != Sym(name) && FirstEntry(entries[1..], name, v)
    ensures FirstEntry(entries, name, v)
  {
    var i :| 0 <= i < |entries| - 1 && entries[1..][i] == Entry(Sym(name), v) && forall k :: 0 <= k < i ==> entries[1..][k].key != Sym(name);
    forall k | 0 <= k < i + 1
      ensures entries[k].key != Sym(name)
    {
      assert k > 0 ==> entries[k] == entries[1..][k - 1];
    }
    assert entries[i + 1] == entries[1..][i];
  }

  lemma {:induction false} ReadEntry(entries: seq<Entry>, param: EventParam, sprint: Json -> string)
    requires FromEntries(Documents(entries), param, sprint).Ok?
    ensures HasEntry(entries, param)
  {
    assert |Documents(entries)| == |entries|;
    var e := entries[0];
    assert Documents(entries)[0] == TaggedEntry(e);
    EntryNamedIff(e, param.name, sprint);
    if e.key == Sym(param.name) {
      assert Lookup(TaggedEntry(e).fields, "v") == Some(Tagged(e.val));
      ExtractsIffAccepted(param.typ, e.val, sprint);
      assert entries[0] == Entry(Sym(param.name), e.val);
      assert FirstEntry(entries, param.name, e.val);
    } else {
      assert Documents(entries)[1..] == Documents(entries[1..]);
      ReadEntry(entries[1..], param, sprint);
      var v :| FirstEntry(entries[1..], param.name, v) && Accepts(param.typ, v);
      LaterEntry(entries, param.name, v);
    }
  }

  /** Of a printed map exactly the first entry of that name is read, if its value has the type. */
  lemma EntryIff(entries: seq<Entry>, param: EventParam, sprint: Json -> string)
    ensures FromEntries(Documents(entries), param, sprint).Ok? <==> HasEntry(entries, param)
  {
    if FromEntries(Documents(entries), param, sprint).Ok? {
      ReadEntry(entries, param, sprint);
    }
    if HasEntry(entries, param) {
      var v :| FirstEntry(entries, param.name, v) && Accepts(param.typ, v);
      EntryFound(entries, param, v, sprint);
    }
  }

  ghost predicate HasItem(data: ScVal, index: int, typ: string) { exists v :: CarriesAt(data, index, v) && Accepts(typ, v) }

  lemma ReadItem(data: ScVal, index: int, param: EventParam, sprint: Json -> string)
    requires ExtractFromVecAt(Tagged(data), index, param, sprint).Ok?
    ensures HasItem(data, index, param.typ)
  {
    if data.Vec? {
      VecDocument(data);
      ReadVecItem(data, index, param, sprint);
    } else if data.NoVec? {
      NoVecDocument();
      EmptyVecFails(Tagged(data), index, param, sprint);
      assert false;
    } else {
      NotAVec(data);
      WholeOnlyAtZero(Tagged(data), index, param, sprint);
      ExtractsIffAccepted(param.typ, data, sprint);
      assert CarriesAt(data, index, data);
    }
  }

  lemma ReadVecItem(data: ScVal, index: int, param: EventParam, sprint: Json -> string)
    requires data.Vec? && Tagged(data) == JObj(map["vec" := JArr(TaggedAll(data.items))])
    requires ExtractFromVecAt(Tagged(data), index, param, sprint).Ok?
    ensures HasItem(data, index, param.typ)
  {
    ItemOnlyInRange(Tagged(data), TaggedAll(data.items), index, param, sprint);
    assert TaggedAll(data.items)[index] == Tagged(data.items[index]);
    ExtractsIffAccepted(param.typ, data.items[index], sprint);
    assert CarriesAt(data, index, data.items[index]);
  }

  lemma NoVecDocument()
    ensures Tagged(NoVec) == JObj(map["vec" := JArr([])])
  {}

  lemma EmptyVecFails(raw: Json, index: int, param: EventParam, sprint: Json -> string)
    requires raw == JObj(map["vec" := JArr([])])
    ensures ExtractFromVecAt(raw, index, param, sprint).Err?
  {}

  lemma ItemOnlyInRange(raw: Json, items: seq<Json>, index: int, param: EventParam, sprint: Json -> string)
    requires raw == JObj(map["vec" := JArr(items)]) && ExtractFromVecAt(raw, index, param, sprint).Ok?
    ensures 0 <= index < |items| && ExtractTypedValue(Some(items[index]), param.typ, sprint).Ok?
  {}

  lemma WholeOnlyAtZero(raw: Json, index: int, param: EventParam, sprint: Json -> string)
    requires raw.JObj? && "vec" !in raw.fields && ExtractFromVecAt(raw, index, param, sprint).Ok?
    ensures index == 0 && ExtractTypedValue(Some(raw), param.typ, sprint).Ok?
  {}

  /** With map data that is no map the decoder looks for the parameter's name at the top of the document, where only the data's
      kind is, and reads the type from inside it. */
  predicate HasKind(data: ScVal, param: EventParam) {
    param.name == KindOf(data) && Payload(data).JObj? && Want(param.typ) in Payload(data).fields
  }

  /** What is read as the parameter: a map's entry, a vector's item, or the whole. */
  ghost predicate TakesData(format: string, data: ScVal, param: EventParam) {
    var f := ToLower(format);
    if f == "map" then (if KindOf(data) == "map" then data.Map? && HasEntry(data.entries, param) else HasKind(data, param))
    else if f == "vec" then HasItem(data, IndexOf(param), param.typ)
    else Accepts(param.typ, data)
  }

  lemma ErrorKeys(data: ScVal, key: string)
    requires data.Error? && key in Payload(data).fields
    ensures key == "type" || key == "contract_code" || key == "code"
  {}

  lemma OpaqueKeys(data: ScVal, key: string)
    requires data.Other? && key in Payload(data).fields
    ensures key == "reason" || key == "encoding" || key == "data" || key == "sc_type"
  {}

  lemma ContractKeys(data: ScVal, key: string)
    requires (ArmNumber(data) == 18 || data.LedgerKeyNonce?) && key in Payload(data).fields
    ensures key == "executable" || key == "storage" || key == "nonce"
  {}

  lemma ErrorKeysUntyped(key: string)
    requires key == "type" || key == "contract_code" || key == "code"
    ensures KindNumber(key) == 22
  {}

  lemma OpaqueKeysUntyped(key: string)
    requires key == "reason" || key == "encoding" || key == "data" || key == "sc_type"
    ensures KindNumber(key) == 22
  {}

  lemma ContractKeysUntyped(key: string)
    requires key == "executable" || key == "storage" || key == "nonce"
    ensures KindNumber(key) == 22
  {}

  /** The keys inside a printed value are none of the typed kinds. */
  lemma InnerKeys(data: ScVal, key: string)
    requires KindOf(data) != "map" && Payload(data).JObj? && key in Payload(data).fields
    ensures KindNumber(key) == 22
  {
    InnerArms(data);
    if data.Error? {
      ErrorKeys(data, key);
      ErrorKeysUntyped(key);
    } else if data.Other? {
      OpaqueKeys(data, key);
      OpaqueKeysUntyped(key);
    } else {
      ContractKeys(data, key);
      ContractKeysUntyped(key);
    }
  }

  lemma InnerArms(data: ScVal)
    requires KindOf(data) != "map" && Payload(data).JObj?
    ensures 18 <= ArmNumber(data) <= 22 && ArmNumber(data) != 20
  {
    KindsDiffer(data);
    assert KindNumber("map") == 17;
    if ArmNumber(data) <= 15 {
      NoObject(data);
    }
  }

  lemma NoObject(data: ScVal)
    requires ArmNumber(data) <= 15
    ensures !Payload(data).JObj?
  {}

  lemma UntypedIff(inner: Json, typ: string, sprint: Json -> string)
    requires inner.JObj? && "symbol" !in inner.fields && (Want(typ) in inner.fields ==> KindNumber(Want(typ)) == 22)
    ensures ExtractTypedValue(Some(inner), typ, sprint).Ok? <==> Want(typ) in inner.fields
  {
    if Want(typ) in inner.fields {
      UntypedKind(Want(typ));
    }
  }

  lemma SymbolIsTyped()
    ensures KindNumber("symbol") != 22
  {}

  lemma InnerIff(data: ScVal, typ: string, sprint: Json -> string)
    requires KindOf(data) != "map"
    ensures ExtractTypedValue(Some(Payload(data)), typ, sprint).Ok? <==> Payload(data).JObj? && Want(typ) in Payload(data).fields
  {
    if Payload(data).JObj? {
      if Want(typ) in Payload(data).fields {
        InnerKeys(data, Want(typ));
      }
      if "symbol" in Payload(data).fields {
        InnerKeys(data, "symbol");
        SymbolIsTyped();
        assert false;
      }
      UntypedIff(Payload(data), typ, sprint);
    }
  }

  lemma MapIff(data: ScVal, param: EventParam, sprint: Json -> string)
    requires KindOf(data) == "map"
    ensures ExtractFromMapTagged(Payload(data), param, sprint).Ok? <==> data.Map? && HasEntry(data.entries, param)
  {
    KindsDiffer(data);
    assert KindNumber("map") == 17;
    if data.Map? {
      MapDocument(data);
      AllObjects(data.entries);
      ReadsEntries(Payload(data), Documents(data.entries), param, sprint);
      EntryIff(data.entries, param, sprint);
    } else {
      assert Payload(NoMap) == JObj(map["entries" := JArr([])]);
      ReadsEntries(Payload(NoMap), [], param, sprint);
    }
  }

  lemma TopIff(format: string, data: ScVal, param: EventParam, sprint: Json -> string)
    requires ToLower(format) == "map" && KindOf(data) != "map"
    ensures ExtractDataParam(format, Tagged(data), param, sprint).Ok? <==> HasKind(data, param)
  {
    Dispatch(format, Tagged(data), param, sprint);
    InnerIff(data, param.typ, sprint);
  }

  lemma ItemIff(data: ScVal, param: EventParam, sprint: Json -> string)
    ensures ExtractFromVecAt(Tagged(data), IndexOf(param), param, sprint).Ok? <==> HasItem(data, IndexOf(param), param.typ)
  {
    if ExtractFromVecAt(Tagged(data), IndexOf(param), param, sprint).Ok? {
      ReadItem(data, IndexOf(param), param, sprint);
    }
    if HasItem(data, IndexOf(param), param.typ) {
      var v :| CarriesAt(data, IndexOf(param), v) && Accepts(param.typ, v);
      VecFound(data, param, v, sprint);
    }
  }

  /** A data parameter is read if and only if there is something for it to take. */
  lemma DataIff(format: string, data: ScVal, param: EventParam, sprint: Json -> string)
    ensures ExtractDataParam(format, Tagged(data), param, sprint).Ok? <==> TakesData(format, data, param)
  {
    Dispatch(format, Tagged(data), param, sprint);
    if ToLower(format) == "map" {
      if KindOf(data) == "map" {
        MapIff(data, param, sprint);
      } else {
        TopIff(format, data, param, sprint);
      }
    } else if ToLower(format) == "vec" {
      ItemIff(data, param, sprint);
    } else {
      ExtractsIffAccepted(param.typ, data, sprint);
    }
  }

  /** A parameter in map data needs a map. */
  predicate HasPlace(format: string, data: ScVal, param: EventParam) {
    LocationOf(param) == InData && ToLower(format) == "map" ==> data.Map?
  }

  lemma TakenIsCarried(format: string, data: ScVal, param: EventParam)
    requires TakesData(format, data, param) && (ToLower(format) == "map" ==> data.Map?)
    ensures exists v :: CarriesData(format, data, param, v) && Accepts(param.typ, v)
  {
    if ToLower(format) == "map" {
      var v :| FirstEntry(data.entries, param.name, v) && Accepts(param.typ, v);
      assert CarriesData(format, data, param, v);
    } else if ToLower(format) == "vec" {
      var v :| CarriesAt(data, IndexOf(param), v) && Accepts(param.typ, v);
      assert CarriesData(format, data, param, v);
    } else {
      assert CarriesData(format, data, param, data);
    }
  }

  // ----- Parameters

  ghost predicate TakesParam(def: EventDefinition, ev: Event, param: EventParam, topicIndex: nat) {
    match LocationOf(param)
    case InData => TakesData(def.dataFormat, ev.data, param)
    case InTopics => topicIndex < |ev.topics| && Accepts(param.typ, ev.topics[topicIndex])
    case Nowhere => false
  }

  /** A parameter is read if and only if there is something for it to take. */
  lemma ParamIff(def: EventDefinition, ev: Event, param: EventParam, topicIndex: nat, sprint: Json -> string)
    ensures Reader(def, TaggedAll(ev.topics), Tagged(ev.data), sprint)(param, topicIndex).Ok? <==> TakesParam(def, ev, param, topicIndex)
  {
    match LocationOf(param)
    case InData =>
      DataIff(def.dataFormat, ev.data, param, sprint);
    case InTopics =>
      if topicIndex < |ev.topics| {
        assert TaggedAll(ev.topics)[topicIndex] == Tagged(ev.topics[topicIndex]);
        ExtractsIffAccepted(param.typ, ev.topics[topicIndex], sprint);
      }
    case Nowhere =>
  }

  /** Parameter i has something to take. */
  predicate TakesAt(params: seq<EventParam>, i: nat, first: nat, isTopic: EventParam -> bool, takes: (EventParam, nat) -> bool)
    requires i < |params|
  {
    takes(params[i], first + Taken(params, i, isTopic))
  }

  /** Reading succeeds exactly where there is something to take. */
  predicate Agree(read: (EventParam, nat) -> Result<Value, DecodeError>, takes: (EventParam, nat) -> bool, param: EventParam, k: nat) {
    read(param, k).Ok? <==> takes(param, k)
  }

  /** The fields come from all parameters or from none. */
  lemma {:induction false} FieldsIff(params: seq<EventParam>, n: nat, first: nat, isTopic: EventParam -> bool,
                                     read: (EventParam, nat) -> Result<Value, DecodeError>, takes: (EventParam, nat) -> bool)
    requires n <= |params| && forall param: EventParam, k: nat :: Agree(read, takes, param, k)
    ensures FieldsOf(params, n, first, isTopic, read).Ok? <==> forall i: nat :: i < n ==> TakesAt(params, i, first, isTopic, takes)
  {
    if n > 0 {
      FieldsIff(params, n - 1, first, isTopic, read, takes);
      assert Agree(read, takes, params[n - 1], first + Taken(params, n - 1, isTopic));
      assert FieldsOf(params, n, first, isTopic, read).Ok? <==>
             FieldsOf(params, n - 1, first, isTopic, read).Ok? && TakesAt(params, n - 1, first, isTopic, takes);
    }
  }

  lemma SomeFields(params: seq<EventParam>, first: nat, isTopic: EventParam -> bool,
                   read: (EventParam, nat) -> Result<Value, DecodeError>)
    requires FieldsOf(params, |params|, first, isTopic, read).Ok?
    ensures FieldsOf(params, |params|, first, isTopic, read).value == map[] <==> params == []
  {
    if params != [] {
      assert params[|params| - 1].name in FieldsOf(params, |params|, first, isTopic, read).value;
    }
  }

  ghost function Taker(def: EventDefinition, ev: Event): (EventParam, nat) -> bool {
    (param: EventParam, k: nat) => TakesParam(def, ev, param, k)
  }

  ghost predicate TakesOne(def: EventDefinition, ev: Event, i: nat)
    requires i < |def.params|
  {
    TakesAt(def.params, i, |def.prefixTopics|, IsTopic, Taker(def, ev))
  }

  ghost predicate TakesAll(def: EventDefinition, ev: Event) { forall i: nat :: i < |def.params| ==> TakesOne(def, ev, i) }

  /** Fields are read if and only if every parameter has something to take. */
  lemma FieldsIffTaken(def: EventDefinition, ev: Event, sprint: Json -> string)
    ensures FieldsOf(def.params, |def.params|, |def.prefixTopics|, IsTopic, Reader(def, TaggedAll(ev.topics), Tagged(ev.data), sprint)).Ok?
            <==> TakesAll(def, ev)
  {
    var read, takes := Reader(def, TaggedAll(ev.topics), Tagged(ev.data), sprint), Taker(def, ev);
    forall param: EventParam, k: nat
      ensures Agree(read, takes, param, k)
    {
      ParamIff(def, ev, param, k, sprint);
    }
    FieldsIff(def.params, |def.params|, |def.prefixTopics|, IsTopic, read, takes);
    forall i: nat | i < |def.params|
      ensures TakesOne(def, ev, i) <==> TakesAt(def.params, i, |def.prefixTopics|, IsTopic, takes)
    {}
  }

  // ----- From what is taken to an assignment

  ghost predicate CanFit(fits: (nat, ScVal) -> bool, i: nat) { exists v :: fits(i, v) }

  /** Parameters of one name have one value. */
  ghost predicate Agreeing(params: seq<EventParam>, fits: (nat, ScVal) -> bool) {
    forall i: nat, j: nat, v, w :: i < j < |params| && fits(i, v) && fits(j, w) && params[i].name == params[j].name ==> v == w
  }

  /** One value for each name, as long as parameters of one name agree. */
  lemma {:induction false} Assigned(params: seq<EventParam>, n: nat, fits: (nat, ScVal) -> bool) returns (a: map<string, ScVal>)
    requires n <= |params| && Agreeing(params, fits)
    requires forall i: nat :: i < n ==> CanFit(fits, i)
    ensures forall i: nat :: i < n ==> params[i].name in a && fits(i, a[params[i].name])
  {
    if n == 0 {
      a := map[];
    } else {
      var before := Assigned(params, n - 1, fits);
      assert CanFit(fits, n - 1);
      var v :| fits(n - 1, v);
      a := before[params[n - 1].name := v];
    }
  }

  ghost predicate Fits(def: EventDefinition, ev: Event, i: nat, v: ScVal) {
    i < |def.params| && CarriesParam(def, ev, def.params[i], |def.prefixTopics| + Taken(def.params, i, IsTopic), v)
  }

  /** A parameter has at most one value. */
  lemma OneIsCarried(def: EventDefinition, ev: Event, param: EventParam, k: nat, v: ScVal, w: ScVal)
    requires CarriesParam(def, ev, param, k, v) && CarriesParam(def, ev, param, k, w)
    ensures v == w
  {
    if LocationOf(param) == InData {
      OneInData(def.dataFormat, ev.data, param, v, w);
    }
  }

  lemma OneInData(format: string, data: ScVal, param: EventParam, v: ScVal, w: ScVal)
    requires CarriesData(format, data, param, v) && CarriesData(format, data, param, w)
    ensures v == w
  {
    if ToLower(format) == "map" {
      OneFirstEntry(data.entries, param.name, v, w);
    } else if ToLower(format) == "vec" {
      OneItem(data, IndexOf(param), v, w);
    }
  }

  lemma OneItem(data: ScVal, index: int, v: ScVal, w: ScVal)
    requires CarriesAt(data, index, v) && CarriesAt(data, index, w)
    ensures v == w
  {}

  lemma OneFirstEntry(entries: seq<Entry>, name: string, v: ScVal, w: ScVal)
    requires FirstEntry(entries, name, v) && FirstEntry(entries, name, w)
    ensures v == w
  {
    var i :| 0 <= i < |entries| && entries[i] == Entry(Sym(name), v) && forall k :: 0 <= k < i ==> entries[k].key != Sym(name);
    var j :| 0 <= j < |entries| && entries[j] == Entry(Sym(name), w) && forall k :: 0 <= k < j ==> entries[k].key != Sym(name);
    assert !(i < j) && !(j < i);
  }

  lemma SomeIsCarried(def: EventDefinition, ev: Event, param: EventParam, k: nat)
    requires TakesParam(def, ev, param, k) && HasPlace(def.dataFormat, ev.data, param)
    ensures exists v :: CarriesParam(def, ev, param, k, v)
  {
    if LocationOf(param) == InData {
      TakenIsCarried(def.dataFormat, ev.data, param);
      var v :| CarriesData(def.dataFormat, ev.data, param, v) && Accepts(param.typ, v);
      assert CarriesParam(def, ev, param, k, v);
    } else {
      assert CarriesParam(def, ev, param, k, ev.topics[k]);
    }
  }

  lemma SomeFits(def: EventDefinition, ev: Event, i: nat)
    requires i < |def.params| && TakesOne(def, ev, i) && HasPlace(def.dataFormat, ev.data, def.params[i])
    ensures exists v :: Fits(def, ev, i, v)
  {
    var k := |def.prefixTopics| + Taken(def.params, i, IsTopic);
    SomeIsCarried(def, ev, def.params[i], k);
    var v :| CarriesParam(def, ev, def.params[i], k, v);
    assert Fits(def, ev, i, v);
  }

  ghost function Fitting(def: EventDefinition, ev: Event): (nat, ScVal) -> bool { (i: nat, v: ScVal) => Fits(def, ev, i, v) }

  ghost predicate AllHavePlaces(def: EventDefinition, data: ScVal) {
    forall i :: 0 <= i < |def.params| ==> HasPlace(def.dataFormat, data, def.params[i])
  }

  /** The values that are there, under their names. */
  lemma AssignmentOf(def: EventDefinition, ev: Event) returns (a: map<string, ScVal>)
    requires TakesAll(def, ev) && AllHavePlaces(def, ev.data) && Agreeing(def.params, Fitting(def, ev))
    ensures forall i: nat :: i < |def.params| ==> CarriesOne(def, a, ev, i)
  {
    var fits := Fitting(def, ev);
    forall i: nat | i < |def.params|
      ensures CanFit(fits, i)
    {
      assert TakesOne(def, ev, i);
      SomeFits(def, ev, i);
      var v :| Fits(def, ev, i, v);
      assert fits(i, v);
    }
    a := Assigned(def.params, |def.params|, fits);
    forall i: nat | i < |def.params|
      ensures CarriesOne(def, a, ev, i)
    {
      assert fits(i, a[def.params[i].name]);
    }
  }

  /** What an assignment that is carried says of its i-th parameter. */
  lemma CarriedOne(def: EventDefinition, a: map<string, ScVal>, ev: Event, i: nat)
    requires i < |def.params|
    ensures Carries(def, a, ev) ==> CarriesOne(def, a, ev, i)
  {}

  lemma ParamCarried(def: EventDefinition, a: map<string, ScVal>, ev: Event, i: nat)
    requires i < |def.params| && CarriesOne(def, a, ev, i)
    ensures def.params[i].name in a
    ensures CarriesParam(def, ev, def.params[i], |def.prefixTopics| + Taken(def.params, i, IsTopic), a[def.params[i].name])
  {}

  lemma CarriedFits(def: EventDefinition, a: map<string, ScVal>, ev: Event, i: nat, v: ScVal)
    requires i < |def.params| && CarriesOne(def, a, ev, i) && Fits(def, ev, i, v)
    ensures def.params[i].name in a && v == a[def.params[i].name]
  {
    var k := |def.prefixTopics| + Taken(def.params, i, IsTopic);
    OneIsCarried(def, ev, def.params[i], k, v, a[def.params[i].name]);
  }

  lemma CarriedHasPlace(def: EventDefinition, ev: Event, param: EventParam, k: nat, v: ScVal)
    requires CarriesParam(def, ev, param, k, v)
    ensures HasPlace(def.dataFormat, ev.data, param)
  {}

  lemma CarriedIsClean(def: EventDefinition, a: map<string, ScVal>, ev: Event)
    requires Carries(def, a, ev)
    ensures AllHavePlaces(def, ev.data) && Agreeing(def.params, Fitting(def, ev))
  {
    forall i | 0 <= i < |def.params|
      ensures HasPlace(def.dataFormat, ev.data, def.params[i])
    {
      CarriedOne(def, a, ev, i);
      ParamCarried(def, a, ev, i);
      CarriedHasPlace(def, ev, def.params[i], |def.prefixTopics| + Taken(def.params, i, IsTopic), a[def.params[i].name]);
    }
    var fits := Fitting(def, ev);
    forall i: nat, j: nat, v, w | i < j < |def.params| && fits(i, v) && fits(j, w) && def.params[i].name == def.params[j].name
      ensures v == w
    {
      CarriedOne(def, a, ev, i);
      CarriedOne(def, a, ev, j);
      CarriedFits(def, a, ev, i, v);
      CarriedFits(def, a, ev, j, w);
    }
  }

  // ----- Prefixes

  lemma SymbolNumbers()
    ensures KindNumber("symbol") == 14 && KindNumber("sym") == 22 && "opaque" != "sym"
  {}

  lemma OpaqueKind(v: ScVal)
    requires ArmNumber(v) == 22
    ensures KindOf(v) == "opaque"
  {}

  lemma NoSymbolKey(v: ScVal)
    requires !v.Sym?
    ensures KindOf(v) != "symbol" && KindOf(v) != "sym"
  {
    KindsDiffer(v);
    SymbolNumbers();
    if ArmNumber(v) == 22 {
      OpaqueKind(v);
    }
  }

  lemma NoSymbol(v: ScVal, sprint: Json -> string)
    requires !v.Sym?
    ensures TopicSymbol(Tagged(v), sprint) == ""
  {
    NoSymbolKey(v);
    NoSymbolDocument(Tagged(v), KindOf(v), sprint);
  }

  lemma NoSymbolDocument(doc: Json, kind: string, sprint: Json -> string)
    requires doc.JObj? && doc.fields.Keys == {kind} && kind != "symbol" && kind != "sym"
    ensures TopicSymbol(doc, sprint) == ""
  {}

  lemma NothingFoldsToEmpty(prefix: string)
    requires prefix != ""
    ensures !EqualFold("", prefix)
  {
    assert |ToLower(prefix)| == |prefix|;
  }

  /** A symbol meets its prefix up to case, and anything else an empty one. */
  predicate TakesPrefix(topics: seq<ScVal>, prefixes: seq<string>) {
    |prefixes| <= |topics| &&
    forall i :: 0 <= i < |prefixes| ==> if topics[i].Sym? then EqualFold(topics[i].sym, prefixes[i]) else prefixes[i] == ""
  }

  lemma PrefixIff(topics: seq<ScVal>, prefixes: seq<string>, sprint: Json -> string)
    ensures MatchPrefixTopics(TaggedAll(topics), prefixes, sprint) <==> TakesPrefix(topics, prefixes)
  {
    if |prefixes| <= |topics| {
      forall i | 0 <= i < |prefixes|
        ensures EqualFold(TopicSymbol(TaggedAll(topics)[i], sprint), prefixes[i]) <==>
                if topics[i].Sym? then EqualFold(topics[i].sym, prefixes[i]) else prefixes[i] == ""
      {
        assert TaggedAll(topics)[i] == Tagged(topics[i]);
        if topics[i].Sym? {
          SymbolIsTopicSymbol(topics[i].sym, sprint);
        } else {
          NoSymbol(topics[i], sprint);
          if prefixes[i] != "" {
            NothingFoldsToEmpty(prefixes[i]);
          }
        }
      }
    }
  }

  // ----- Whole events

  /** What makes an event of the schema: its name is asked for, or none; prefix and parameters are all there, and there is one. */
  ghost predicate IsEventOf(def: EventDefinition, ev: Event, eventName: string) {
    && (eventName == "" || EqualFold(eventName, def.name))
    && TakesPrefix(ev.topics, def.prefixTopics)
    && def.params != [] && TakesAll(def, ev)
  }

  lemma DecodingIff(topics: seq<Json>, value: Json, body: Option<EventDefinition>, def: EventDefinition, eventName: string,
                    sprint: Json -> string, read: (EventParam, nat) -> Result<Value, DecodeError>)
    requires ParseEventDefinition(body) == Ok(def) && read == Reader(def, topics, value, sprint)
    ensures var fields := FieldsOf(def.params, |def.params|, |def.prefixTopics|, IsTopic, read);
            Decoding(topics, value, body, eventName, sprint).Decoded? <==>
              && (eventName == "" || EqualFold(eventName, def.name)) && MatchPrefixTopics(topics, def.prefixTopics, sprint)
              && fields.Ok? && fields.value != map[]
  {}

  lemma ParsedDecodesIff(body: Option<EventDefinition>, def: EventDefinition, ev: Event, eventName: string, sprint: Json -> string,
                         read: (EventParam, nat) -> Result<Value, DecodeError>)
    requires ParseEventDefinition(body) == Ok(def) && read == Reader(def, TaggedAll(ev.topics), Tagged(ev.data), sprint)
    ensures Decoding(TaggedAll(ev.topics), Tagged(ev.data), body, eventName, sprint).Decoded? <==> IsEventOf(def, ev, eventName)
  {
    DecodingIff(TaggedAll(ev.topics), Tagged(ev.data), body, def, eventName, sprint, read);
    PrefixIff(ev.topics, def.prefixTopics, sprint);
    FieldsIffTaken(def, ev, sprint);
    if FieldsOf(def.params, |def.params|, |def.prefixTopics|, IsTopic, read).Ok? {
      SomeFields(def.params, |def.prefixTopics|, IsTopic, read);
    }
  }

  /** Exactly which printed events are decoded, for every schema body, event and name: those of a body with a name whose schema has
      that name, whose prefix is met and whose parameters are all there. Every other one comes back raw. */
  lemma DecodesIff(body: Option<EventDefinition>, ev: Event, eventName: string, sprint: Json -> string)
    ensures Decoding(TaggedAll(ev.topics), Tagged(ev.data), body, eventName, sprint).Decoded? <==>
            body.Some? && exists def :: StandsFor(body.value, def) && IsEventOf(def, ev, eventName)
  {
    if def :| body.Some? && StandsFor(body.value, def) && IsEventOf(def, ev, eventName) {
      ParsedIff(body, def);
    }
    match ParseEventDefinition(body)
    case Err(_) =>
    case Ok(def) =>
      ParsedIff(body, def);
      ParsedDecodesIff(body, def, ev, eventName, sprint, Reader(def, TaggedAll(ev.topics), Tagged(ev.data), sprint));
  }

  lemma DecodesUnder(body: EventDefinition, def: EventDefinition, ev: Event, eventName: string, sprint: Json -> string)
    requires StandsFor(body, def)
    ensures Decoding(TaggedAll(ev.topics), Tagged(ev.data), Some(body), eventName, sprint).Decoded? <==> IsEventOf(def, ev, eventName)
  {
    DecodesIff(Some(body), ev, eventName, sprint);
    ParsedIff(Some(body), def);
    if other :| StandsFor(body, other) && IsEventOf(other, ev, eventName) {
      ParsedIff(Some(body), other);
    }
  }

  /** The topics of the prefix are symbols, map data with parameters is a map, and parameters of one name have one value. */
  ghost predicate IsClean(def: EventDefinition, ev: Event) {
    && (forall i :: 0 <= i < |def.prefixTopics| && i < |ev.topics| ==> ev.topics[i].Sym?)
    && AllHavePlaces(def, ev.data)
    && Agreeing(def.params, Fitting(def, ev))
  }

  /** For every schema and event: it carries some assignment if and only if it is decoded and clean. */
  lemma CarriesIff(body: EventDefinition, def: EventDefinition, ev: Event, eventName: string, sprint: Json -> string)
    requires StandsFor(body, def)
    requires eventName == "" || EqualFold(eventName, body.name)
    ensures def.params != [] && (exists a :: Carries(def, a, ev)) <==>
            Decoding(TaggedAll(ev.topics), Tagged(ev.data), Some(body), eventName, sprint).Decoded? && IsClean(def, ev)
  {
    DecodesUnder(body, def, ev, eventName, sprint);
    if IsEventOf(def, ev, eventName) && IsClean(def, ev) {
      var a := AssignmentOf(def, ev);
      assert Carries(def, a, ev);
    }
    if a :| def.params != [] && Carries(def, a, ev) {
      DecodeInvertsPrint(body, def, a, ev, eventName, sprint);
      CarriedIsClean(def, a, ev);
    }
  }

  /** A condition on the schema and the kind of the data: no empty prefix, no name twice, and no parameter of map data called like
      the data's kind when that is no map. */
  ghost predicate IsPrecise(def: EventDefinition, ev: Event) {
    && (forall i :: 0 <= i < |def.prefixTopics| ==> def.prefixTopics[i] != "")
    && (forall i, j :: 0 <= i < j < |def.params| ==> def.params[i].name != def.params[j].name)
    && (forall i :: 0 <= i < |def.params| ==> IsNotTheKind(def.dataFormat, ev.data, def.params[i]))
  }

  predicate IsNotTheKind(format: string, data: ScVal, param: EventParam) {
    ToLower(format) == "map" ==> data.Map? || param.name != KindOf(data)
  }

  lemma TakenHasPlace(def: EventDefinition, ev: Event, param: EventParam, k: nat)
    requires TakesParam(def, ev, param, k) && IsNotTheKind(def.dataFormat, ev.data, param)
    ensures HasPlace(def.dataFormat, ev.data, param)
  {}

  lemma PreciseIsClean(def: EventDefinition, ev: Event, eventName: string)
    requires IsEventOf(def, ev, eventName) && IsPrecise(def, ev)
    ensures IsClean(def, ev)
  {
    forall i | 0 <= i < |def.params|
      ensures HasPlace(def.dataFormat, ev.data, def.params[i])
    {
      assert TakesOne(def, ev, i);
      TakenHasPlace(def, ev, def.params[i], |def.prefixTopics| + Taken(def.params, i, IsTopic));
    }
  }

  /** Under it a printed event is decoded if and only if it carries some assignment under the schema. */
  lemma DecodesIffCarries(body: EventDefinition, def: EventDefinition, ev: Event, eventName: string, sprint: Json -> string)
    requires StandsFor(body, def) && IsPrecise(def, ev)
    requires eventName == "" || EqualFold(eventName, body.name)
    ensures Decoding(TaggedAll(ev.topics), Tagged(ev.data), Some(body), eventName, sprint).Decoded?
            <==> def.params != [] && exists a :: Carries(def, a, ev)
  {
    CarriesIff(body, def, ev, eventName, sprint);
    DecodesUnder(body, def, ev, eventName, sprint);
    if IsEventOf(def, ev, eventName) {
      PreciseIsClean(def, ev, eventName);
    }
  }

  // ----- Without those conditions events are decoded that carry no assignment

  function Named(prefixes: seq<string>, format: string, params: seq<EventParam>): EventDefinition {
    EventDefinition("e", prefixes, format, params, [])
  }

  lemma NamedDecodes(def: EventDefinition, ev: Event, sprint: Json -> string)
    requires def == Named(def.prefixTopics, def.dataFormat, def.params) && StandsFor(def, def)
    requires TakesPrefix(ev.topics, def.prefixTopics) && def.params != [] && TakesAll(def, ev)
    ensures Decoding(TaggedAll(ev.topics), Tagged(ev.data), Some(def), "e", sprint).Decoded?
  {
    FoldsToItself("e");
    DecodesUnder(def, def, ev, "e", sprint);
  }

  lemma WantNumber()
    ensures Want("u32") == "u32"
  {
    assert TrimRight("u32") == "u32" && TrimLeft("u32") == "u32";
  }

  lemma WantType()
    ensures Want("type") == "type"
  {
    assert TrimRight("type") == "type" && TrimLeft("type") == "type";
  }

  lemma Topic()
    ensures ToLower(TrimSpace("topic")) == "topic"
  {
    assert TrimRight("topic") == "topic" && TrimLeft("topic") == "topic";
  }

  lemma Data()
    ensures ToLower(TrimSpace("data")) == "data"
  {
    assert TrimRight("data") == "data" && TrimLeft("data") == "data";
  }

  const NUMBER: EventParam := EventParam("a", "u32", "topic", None)

  lemma NumberIsTopic()
    ensures LocationOf(NUMBER) == InTopics
  {
    Topic();
  }

  lemma NumberAccepts(v: ScVal)
    requires v.U32?
    ensures Accepts(NUMBER.typ, v)
  {
    WantNumber();
  }

  lemma TopicTakenAt(def: EventDefinition, ev: Event, param: EventParam, k: nat)
    requires LocationOf(param) == InTopics && k < |ev.topics| && Accepts(param.typ, ev.topics[k])
    ensures TakesParam(def, ev, param, k)
  {}

  lemma TopicTaken(def: EventDefinition, ev: Event, i: nat, k: nat, param: EventParam)
    requires i < |def.params| && param == def.params[i] && k == |def.prefixTopics| + Taken(def.params, i, IsTopic)
    requires TakesParam(def, ev, param, k)
    ensures TakesOne(def, ev, i)
  {}

  lemma TopicCarriedAt(def: EventDefinition, ev: Event, param: EventParam, k: nat, v: ScVal)
    requires LocationOf(param) == InTopics && k < |ev.topics|
    ensures CarriesParam(def, ev, param, k, v) ==> v == ev.topics[k]
  {}

  lemma NumberTaken(def: EventDefinition, ev: Event, i: nat, k: nat)
    requires i < |def.params| && def.params[i] == NUMBER && k == |def.prefixTopics| + Taken(def.params, i, IsTopic)
    requires k < |ev.topics| && ev.topics[k].U32?
    ensures TakesOne(def, ev, i)
  {
    NumberIsTopic();
    NumberAccepts(ev.topics[k]);
    TopicTakenAt(def, ev, NUMBER, k);
    TopicTaken(def, ev, i, k, NUMBER);
  }

  lemma NumberCarried(def: EventDefinition, a: map<string, ScVal>, ev: Event, i: nat, k: nat)
    requires i < |def.params| && def.params[i] == NUMBER && k == |def.prefixTopics| + Taken(def.params, i, IsTopic)
    requires k < |ev.topics|
    ensures CarriesOne(def, a, ev, i) ==> NUMBER.name in a && a[NUMBER.name] == ev.topics[k]
  {
    NumberIsTopic();
    if CarriesOne(def, a, ev, i) {
      ParamCarried(def, a, ev, i);
      TopicCarriedAt(def, ev, NUMBER, k, a[NUMBER.name]);
    }
  }

  lemma EmptyPrefixTaken(topics: seq<ScVal>)
    requires |topics| > 0 && !topics[0].Sym?
    ensures TakesPrefix(topics, [""]) && !CarriesPrefix(topics, [""])
  {}

  /** An empty prefix is met by a topic that is no symbol. */
  lemma EmptyPrefixDecodes(sprint: Json -> string)
    ensures var def, ev := Named([""], "vec", [NUMBER]), Event([Void, U32(7)], Void);
            && Decoding(TaggedAll(ev.topics), Tagged(ev.data), Some(def), "e", sprint).Decoded?
            && forall a :: !Carries(def, a, ev)
  {
    var def, ev := Named([""], "vec", [NUMBER]), Event([Void, U32(7)], Void);
    assert Taken(def.params, 0, IsTopic) == 0;
    NumberTaken(def, ev, 0, 1);
    EmptyPrefixTaken(ev.topics);
    NamedDecodes(def, ev, sprint);
  }

  function Twice(): EventDefinition { Named([], "vec", [NUMBER, NUMBER]) }

  lemma TwiceTaken(def: EventDefinition)
    requires def == Twice()
    ensures Taken(def.params, 0, IsTopic) == 0 && Taken(def.params, 1, IsTopic) == 1
  {
    NumberIsTopic();
    assert Taken(def.params, 0, IsTopic) == 0;
  }

  lemma TwiceNotCarried(def: EventDefinition, ev: Event, a: map<string, ScVal>)
    requires def == Twice() && |ev.topics| == 2 && ev.topics[0] != ev.topics[1]
    ensures !Carries(def, a, ev)
  {
    TwiceTaken(def);
    NumberCarried(def, a, ev, 0, 0);
    NumberCarried(def, a, ev, 1, 1);
    CarriedOne(def, a, ev, 0);
    CarriedOne(def, a, ev, 1);
  }

  lemma TwiceTakesAll(def: EventDefinition, ev: Event)
    requires def == Twice() && |ev.topics| == 2 && ev.topics[0].U32? && ev.topics[1].U32?
    ensures TakesAll(def, ev)
  {
    TwiceTaken(def);
    NumberTaken(def, ev, 0, 0);
    NumberTaken(def, ev, 1, 1);
    forall i: nat | i < |def.params|
      ensures TakesOne(def, ev, i)
    {
      assert i == 0 || i == 1;
    }
  }

  /** Of two parameters of one name the later value wins, and the earlier one is lost. */
  lemma RepeatedNameDecodes(sprint: Json -> string)
    ensures var def, ev := Named([], "vec", [NUMBER, NUMBER]), Event([U32(7), U32(8)], Void);
            && Decoding(TaggedAll(ev.topics), Tagged(ev.data), Some(def), "e", sprint).Decoded?
            && forall a :: !Carries(def, a, ev)
  {
    var def, ev := Twice(), Event([U32(7), U32(8)], Void);
    TwiceTakesAll(def, ev);
    NamedDecodes(def, ev, sprint);
    forall a
      ensures !Carries(def, a, ev)
    {
      TwiceNotCarried(def, ev, a);
    }
  }

  lemma ErrorDocument()
    ensures Payload(Error("budget", None, None)) == JObj(map["type" := JStr("budget")])
  {
    assert map["type" := JStr("budget")] + map[] + map[] == map["type" := JStr("budget")];
  }

  const KIND: EventParam := EventParam("error", "type", "data", None)

  lemma KindTaken(def: EventDefinition, ev: Event)
    requires def.params == [KIND] && def.dataFormat == "map" && ev.data == Error("budget", None, None)
    ensures TakesOne(def, ev, 0) && forall a :: !CarriesOne(def, a, ev, 0)
  {
    WantType();
    Data();
    ErrorDocument();
    assert HasKind(ev.data, KIND);
    assert LocationOf(KIND) == InData;
  }

  /** A map parameter called like the data's kind is read from inside the data, which need not be a map. */
  lemma KindNameDecodes(sprint: Json -> string)
    ensures var def, ev := Named([], "map", [KIND]), Event([], Error("budget", None, None));
            && Decoding(TaggedAll(ev.topics), Tagged(ev.data), Some(def), "e", sprint).Decoded?
            && forall a :: !Carries(def, a, ev)
  {
    var def, ev := Named([], "map", [KIND]), Event([], Error("budget", None, None));
    KindTaken(def, ev);
    NamedDecodes(def, ev, sprint);
    forall a
      ensures !Carries(def, a, ev)
    {
      CarriedOne(def, a, ev, 0);
    }
  }
}
