/** lib/scval/convert.go: a typed Soroban value as a tagged JSON document. */
module ScVals {
  import opened Prelude
  import opened Decimal
  import opened Limbs

  /** A JSON document; an object maps each key to its value. */
  datatype Json =
    | JNull
    | JBool(b: bool)
    | JNum(n: int)
    | JStr(s: string)
    | JArr(items: seq<Json>)
    | JObj(fields: map<string, Json>)

  newtype Byte = x: int | 0 <= x < 256
  type UInt32 = x: int | 0 <= x < TWO_TO_32
  type Int32 = x: int | -TWO_TO_31 <= x < TWO_TO_31

  datatype Executable =
    | Wasm(hash: string)
    | StellarAsset
    | ExternalRef(owner: string, tag: string)
    | OtherExecutable(kind: string, xdr: string)

  datatype Entry = Entry(key: ScVal, val: ScVal)

  /** The values; addresses carry their rendered text, and unknown arms their re-encoded XDR. */
  datatype ScVal =
    | Bool(b: bool)
    | Void
    | U32(u32: UInt32)
    | I32(i32: Int32)
    | U64(u64: Limb)
    | I64(i64: SignedLimb)
    | Timepoint(seconds: Limb)
    | Duration(span: Limb)
    | U128(uhi: Limb, ulo: Limb)
    | I128(ihi: SignedLimb, ilo: Limb)
    | U256(uHiHi: Limb, uHiLo: Limb, uLoHi: Limb, uLoLo: Limb)
    | I256(iHiHi: SignedLimb, iHiLo: Limb, iLoHi: Limb, iLoLo: Limb)
    | Bytes(bytes: seq<Byte>)
    | Str(str: string)
    | Sym(sym: string)
    | Address(addr: string)
    | NoVec
    | Vec(items: seq<ScVal>)
    | NoMap
    | Map(entries: seq<Entry>)
    | BareInstance(bareExecutable: Executable)
    | Instance(executable: Executable, storage: seq<Entry>)
    | LedgerKeyNonce(nonce: SignedLimb)
    | ExecutableTag(tag: string)
    | Error(kind: string, contractCode: Option<UInt32>, code: Option<string>)
    | Other(scType: string, xdr: string)

  function HexDigit(d: nat): char
    requires d < 16
  {
    if d < 10 then (d + 48) as char else (d + 87) as char
  }

  /** hex.EncodeToString. */
  function Hex(bytes: seq<Byte>): string {
    if bytes == [] then ""
    else [HexDigit(bytes[0] as int / 16), HexDigit(bytes[0] as int % 16)] + Hex(bytes[1..])
  }

  lemma HexDigitIsInjective(a: nat, b: nat)
    requires a < 16 && b < 16 && HexDigit(a) == HexDigit(b)
    ensures a == b
  {}

  lemma {:induction false} HexIsInjective(a: seq<Byte>, b: seq<Byte>)
    requires Hex(a) == Hex(b)
    ensures a == b
  {
    if a != [] && b != [] {
      var ta, tb := Hex(a[1..]), Hex(b[1..]);
      assert Hex(a)[0] == Hex(b)[0] && Hex(a)[1] == Hex(b)[1];
      assert Hex(a)[2..] == ta && Hex(b)[2..] == tb;
      HexDigitIsInjective(a[0] as int / 16, b[0] as int / 16);
      HexDigitIsInjective(a[0] as int % 16, b[0] as int % 16);
      HexIsInjective(a[1..], b[1..]);
      assert a == [a[0]] + a[1..] && b == [b[0]] + b[1..];
    }
  }

  /** The one key of the tagged document. */
  function KindOf(v: ScVal): string {
    match v
    case Bool(_) => "bool"
    case Void => "void"
    case U32(_) => "u32"
    case I32(_) => "i32"
    case U64(_) => "u64"
    case I64(_) => "i64"
    case Timepoint(_) => "timepoint"
    case Duration(_) => "duration"
    case U128(_, _) => "u128"
    case I128(_, _) => "i128"
    case U256(_, _, _, _) => "u256"
    case I256(_, _, _, _) => "i256"
    case Bytes(_) => "bytes"
    case Str(_) => "string"
    case Sym(_) => "symbol"
    case Address(_) => "address"
    case NoVec => "vec"
    case Vec(_) => "vec"
    case NoMap => "map"
    case Map(_) => "map"
    case BareInstance(_) => "contract_instance"
    case Instance(_, _) => "contract_instance"
    case LedgerKeyNonce(_) => "ledger_key_nonce"
    case ExecutableTag(_) => "executable_tag"
    case Error(_, _, _) => "error"
    case Other(_, _) => "opaque"
  }

  /** The value under that key. */
  function Payload(v: ScVal): Json
    decreases v, 0
  {
    match v
    case Bool(b) => JBool(b)
    case Void => JNull
    case U32(n) => JNum(n)
    case I32(n) => JNum(n)
    case U64(n) => JNum(n)
    case I64(n) => JNum(n)
    case Timepoint(n) => JNum(n)
    case Duration(n) => JNum(n)
    case U128(hi, lo) => JStr(IntString(Value128(hi, lo)))
    case I128(hi, lo) => JStr(IntString(Value128(hi, lo)))
    case U256(a, b, c, d) => JStr(IntString(Value256(a, b, c, d)))
    case I256(a, b, c, d) => JStr(IntString(Value256(a, b, c, d)))
    case Bytes(bytes) => JStr(Hex(bytes))
    case Str(s) => JStr(s)
    case Sym(s) => JStr(s)
    case Address(a) => JStr(a)
    case NoVec => JArr([])
    case Vec(items) => JArr(seq(|items|, i requires 0 <= i < |items| => Tagged(items[i])))
    case NoMap => JObj(map["entries" := JArr([])])
    case Map(entries) => JObj(map["entries" := JArr(seq(|entries|, i requires 0 <= i < |entries| => TaggedEntry(entries[i])))])
    case BareInstance(e) => JObj(map["executable" := TaggedExecutable(e), "storage" := JArr([])])
    case Instance(e, storage) =>
      JObj(map["executable" := TaggedExecutable(e),
               "storage" := JArr(seq(|storage|, i requires 0 <= i < |storage| => TaggedEntry(storage[i])))])
    case LedgerKeyNonce(nonce) => JObj(map["nonce" := JNum(nonce)])
    case ExecutableTag(tag) => JStr(tag)
    case Error(kind, contractCode, code) =>
      JObj(map["type" := JStr(kind)]
           + (if contractCode.Some? then map["contract_code" := JNum(contractCode.value)] else map[])
           + (if code.Some? then map["code" := JStr(code.value)] else map[]))
    case Other(scType, xdr) => OpaquePayload("unsupported_scval_type", scType, xdr)
  }

  function OpaquePayload(reason: string, scType: string, xdr: string): Json {
    JObj(map["reason" := JStr(reason), "encoding" := JStr("base64_xdr"), "data" := JStr(xdr)]
         + (if scType != "" then map["sc_type" := JStr(scType)] else map[]))
  }

  function TaggedExecutable(e: Executable): Json {
    match e
    case Wasm(hash) => JObj(map["wasm_hash" := JStr(hash)])
    case StellarAsset => JObj(map["stellar_asset" := JBool(true)])
    case ExternalRef(owner, tag) => JObj(map["external_ref" := JObj(map["owner" := JStr(owner), "tag" := JStr(tag)])])
    case OtherExecutable(kind, xdr) => JObj(map["opaque" := OpaquePayload("unsupported_executable_type", kind, xdr)])
  }

  function TaggedEntry(e: Entry): Json
    decreases e, 2
  {
    JObj(map["k" := Tagged(e.key), "v" := Tagged(e.val)])
  }

  /** The tagged document of a value. */
  function Tagged(v: ScVal): Json
    decreases v, 1
  {
    JObj(map[KindOf(v) := Payload(v)])
  }

  // ----- The printer

  method ValToTagged(v: ScVal) returns (doc: Json)
    ensures doc == Tagged(v)
    decreases v, 1
  {
    match v
    case U128(hi, lo) =>
      var s := U128Decimal(hi, lo);
      doc := JObj(map["u128" := JStr(s)]);
    case I128(hi, lo) =>
      var s := I128Decimal(hi, lo);
      doc := JObj(map["i128" := JStr(s)]);
    case U256(a, b, c, d) =>
      var s := U256Decimal(a, b, c, d);
      doc := JObj(map["u256" := JStr(s)]);
    case I256(a, b, c, d) =>
      var s := I256Decimal(a, b, c, d);
      doc := JObj(map["i256" := JStr(s)]);
    case Vec(items) =>
      doc := VecToTagged(v);
    case Map(entries) =>
      var docs := ScMapEntries(entries, v);
      doc := JObj(map["map" := JObj(map["entries" := JArr(docs)])]);
    case Instance(executable, storage) =>
      var docs := ScMapEntries(storage, v);
      doc := JObj(map["contract_instance" := JObj(map["executable" := TaggedExecutable(executable), "storage" := JArr(docs)])]);
    case _ =>
      doc := JObj(map[KindOf(v) := Payload(v)]);
  }

  method VecToTagged(v: ScVal) returns (doc: Json)
    requires v.Vec?
    ensures doc == Tagged(v)
    decreases v, 0
  {
    var docs: seq<Json> := [];
    for i := 0 to |v.items|
      invariant docs == seq(i, k requires 0 <= k < i => Tagged(v.items[k]))
    {
      var decoded := ValToTagged(v.items[i]);
      docs := docs + [decoded];
    }
    doc := JObj(map["vec" := JArr(docs)]);
  }

  method ScMapEntries(m: seq<Entry>, ghost whole: ScVal) returns (docs: seq<Json>)
    requires (whole.Map? && whole.entries == m) || (whole.Instance? && whole.storage == m)
    ensures docs == seq(|m|, i requires 0 <= i < |m| => TaggedEntry(m[i]))
    decreases whole, 0
  {
    docs := [];
    for i := 0 to |m|
      invariant docs == seq(i, k requires 0 <= k < i => TaggedEntry(m[k]))
    {
      var key := ValToTagged(m[i].key);
      var value := ValToTagged(m[i].val);
      docs := docs + [JObj(map["k" := key, "v" := value])];
    }
  }

  // ----- The document determines the value

  /** An absent vector, map or storage prints as an empty one. */
  function Present(v: ScVal): ScVal {
    match v
    case NoVec => Vec([])
    case NoMap => Map([])
    case BareInstance(e) => Instance(e, [])
    case Vec(items) => Vec(seq(|items|, i requires 0 <= i < |items| => Present(items[i])))
    case Map(entries) => Map(seq(|entries|, i requires 0 <= i < |entries| => PresentEntry(entries[i])))
    case Instance(e, storage) => Instance(e, seq(|storage|, i requires 0 <= i < |storage| => PresentEntry(storage[i])))
    case _ => v
  }

  function PresentEntry(e: Entry): Entry { Entry(Present(e.key), Present(e.val)) }

  /** The kinds, numbered. */
  function KindNumber(kind: string): nat {
    if kind == "bool" then 0 else if kind == "void" then 1 else if kind == "u32" then 2 else if kind == "i32" then 3
    else if kind == "u64" then 4 else if kind == "i64" then 5 else if kind == "timepoint" then 6 else if kind == "duration" then 7
    else if kind == "u128" then 8 else if kind == "i128" then 9 else if kind == "u256" then 10 else if kind == "i256" then 11
    else if kind == "bytes" then 12 else if kind == "string" then 13 else if kind == "symbol" then 14 else if kind == "address" then 15
    else if kind == "vec" then 16 else if kind == "map" then 17 else if kind == "contract_instance" then 18
    else if kind == "ledger_key_nonce" then 19 else if kind == "executable_tag" then 20 else if kind == "error" then 21 else 22
  }

  function ArmNumber(v: ScVal): nat {
    match v
    case Bool(_) => 0
    case Void => 1
    case U32(_) => 2
    case I32(_) => 3
    case U64(_) => 4
    case I64(_) => 5
    case Timepoint(_) => 6
    case Duration(_) => 7
    case U128(_, _) => 8
    case I128(_, _) => 9
    case U256(_, _, _, _) => 10
    case I256(_, _, _, _) => 11
    case Bytes(_) => 12
    case Str(_) => 13
    case Sym(_) => 14
    case Address(_) => 15
    case NoVec => 16
    case Vec(_) => 16
    case NoMap => 17
    case Map(_) => 17
    case BareInstance(_) => 18
    case Instance(_, _) => 18
    case LedgerKeyNonce(_) => 19
    case ExecutableTag(_) => 20
    case Error(_, _, _) => 21
    case Other(_, _) => 22
  }

  lemma KindsDiffer(v: ScVal)
    ensures KindNumber(KindOf(v)) == ArmNumber(v)
  {
    if ArmNumber(v) < 12 {
      NumberKindsDiffer(v);
    } else {
      OtherKindsDiffer(v);
    }
  }

  lemma NumberKindsDiffer(v: ScVal)
    requires ArmNumber(v) < 12
    ensures KindNumber(KindOf(v)) == ArmNumber(v)
  {}

  lemma OtherKindsDiffer(v: ScVal)
    requires ArmNumber(v) >= 12
    ensures KindNumber(KindOf(v)) == ArmNumber(v)
  {}

  /** Equal documents have the same key and the same value under it. */
  lemma Untag(v: ScVal, w: ScVal)
    requires Tagged(v) == Tagged(w)
    ensures Payload(v) == Payload(w) && ArmNumber(v) == ArmNumber(w)
  {
    var a, b := map[KindOf(v) := Payload(v)], map[KindOf(w) := Payload(w)];
    assert a == b && KindOf(v) in a && KindOf(v) in b;
    assert KindOf(v) == KindOf(w);
    KindsDiffer(v);
    KindsDiffer(w);
  }

  lemma WideIntegers(v: ScVal, w: ScVal)
    requires 8 <= ArmNumber(v) == ArmNumber(w) <= 11 && Payload(v) == Payload(w)
    ensures v == w
  {
    match v
    case U128(hi, lo) =>
      U128Exact(hi, lo);
      U128Exact(w.uhi, w.ulo);
    case I128(hi, lo) =>
      I128Exact(hi, lo);
      I128Exact(w.ihi, w.ilo);
    case U256(a, b, c, d) =>
      U256Exact(a, b, c, d);
      U256Exact(w.uHiHi, w.uHiLo, w.uLoHi, w.uLoLo);
    case I256(a, b, c, d) =>
      I256Exact(a, b, c, d);
      I256Exact(w.iHiHi, w.iHiLo, w.iLoHi, w.iLoLo);
    case _ =>
  }

  lemma Scalars(v: ScVal, w: ScVal)
    requires ArmNumber(v) == ArmNumber(w) && Payload(v) == Payload(w)
    requires ArmNumber(v) <= 15 || ArmNumber(v) == 19 || ArmNumber(v) == 20
    ensures v == w
  {
    if 8 <= ArmNumber(v) <= 11 {
      WideIntegers(v, w);
    } else if v.Bytes? {
      HexIsInjective(v.bytes, w.bytes);
    } else if v.LedgerKeyNonce? {
      assert Payload(v).fields["nonce"] == Payload(w).fields["nonce"];
    }
  }

  lemma Errors(v: ScVal, w: ScVal)
    requires v.Error? && w.Error? && Payload(v) == Payload(w)
    ensures v == w
  {
    var a, b := Payload(v).fields, Payload(w).fields;
    assert a["type"] == b["type"];
    assert "contract_code" in a <==> v.contractCode.Some?;
    assert "contract_code" in b <==> w.contractCode.Some?;
    assert "code" in a <==> v.code.Some?;
    assert "code" in b <==> w.code.Some?;
  }

  lemma Opaques(reason: string, scType: string, xdr: string, scType': string, xdr': string)
    requires OpaquePayload(reason, scType, xdr) == OpaquePayload(reason, scType', xdr')
    ensures scType == scType' && xdr == xdr'
  {
    var a, b := OpaquePayload(reason, scType, xdr).fields, OpaquePayload(reason, scType', xdr').fields;
    assert a["data"] == b["data"];
    assert "sc_type" in a <==> scType != "";
    assert "sc_type" in b <==> scType' != "";
  }

  lemma Executables(e: Executable, f: Executable)
    requires TaggedExecutable(e) == TaggedExecutable(f)
    ensures e == f
  {
    var a, b := TaggedExecutable(e).fields, TaggedExecutable(f).fields;
    assert "wasm_hash" in a <==> e.Wasm?;
    assert "wasm_hash" in b <==> f.Wasm?;
    assert "stellar_asset" in a <==> e.StellarAsset?;
    assert "stellar_asset" in b <==> f.StellarAsset?;
    assert "opaque" in a <==> e.OtherExecutable?;
    assert "opaque" in b <==> f.OtherExecutable?;
    match e
    case Wasm(_) => assert a["wasm_hash"] == b["wasm_hash"];
    case StellarAsset =>
    case ExternalRef(_, _) => ExternalRefs(e, f);
    case OtherExecutable(kind, xdr) =>
      assert a["opaque"] == b["opaque"];
      Opaques("unsupported_executable_type", kind, xdr, f.kind, f.xdr);
  }

  lemma ExternalRefs(e: Executable, f: Executable)
    requires e.ExternalRef? && f.ExternalRef? && TaggedExecutable(e) == TaggedExecutable(f)
    ensures e == f
  {
    var a, b := TaggedExecutable(e).fields["external_ref"].fields, TaggedExecutable(f).fields["external_ref"].fields;
    assert a["owner"] == b["owner"] && a["tag"] == b["tag"];
  }

  /** The entries a map or an instance prints, absent ones included. */
  function EntriesOf(v: ScVal): seq<Entry>
    requires 17 <= ArmNumber(v) <= 18
  {
    if v.Map? then v.entries else if v.Instance? then v.storage else []
  }

  function ItemsOf(v: ScVal): seq<ScVal>
    requires ArmNumber(v) == 16
  {
    if v.Vec? then v.items else []
  }

  function Documents(entries: seq<Entry>): seq<Json> {
    seq(|entries|, i requires 0 <= i < |entries| => TaggedEntry(entries[i]))
  }

  lemma DocumentsOf(v: ScVal)
    requires 17 <= ArmNumber(v) <= 18
    ensures Payload(v).JObj?
    ensures v.Map? || v.NoMap? ==> "entries" in Payload(v).fields && Payload(v).fields["entries"] == JArr(Documents(EntriesOf(v)))
    ensures v.Instance? || v.BareInstance? ==>
              && "storage" in Payload(v).fields && Payload(v).fields["storage"] == JArr(Documents(EntriesOf(v)))
              && "executable" in Payload(v).fields
              && Payload(v).fields["executable"] == TaggedExecutable(if v.Instance? then v.executable else v.bareExecutable)
  {
    assert Documents([]) == [];
  }

  /** Printing is lossless up to absent containers: equal documents come from equal values. */
  lemma {:induction false} TaggedIsInjective(v: ScVal, w: ScVal)
    requires Tagged(v) == Tagged(w)
    ensures Present(v) == Present(w)
    decreases v, 2
  {
    Untag(v, w);
    match ArmNumber(v)
    case 16 =>
      SameItems(v, w);
    case 17 =>
      SameMaps(v, w);
    case 18 =>
      SameInstances(v, w);
    case 21 =>
      Errors(v, w);
    case 22 =>
      Opaques("unsupported_scval_type", v.scType, v.xdr, w.scType, w.xdr);
    case _ =>
      Scalars(v, w);
  }

  lemma {:induction false} SameItems(v: ScVal, w: ScVal)
    requires ArmNumber(v) == ArmNumber(w) == 16 && Payload(v) == Payload(w)
    ensures Present(v) == Present(w)
    decreases v, 0
  {
    var a, b := ItemsOf(v), ItemsOf(w);
    assert |Payload(v).items| == |a| && |Payload(w).items| == |b|;
    forall i | 0 <= i < |a|
      ensures Present(a[i]) == Present(b[i])
    {
      assert Payload(v).items[i] == Tagged(a[i]) && Payload(w).items[i] == Tagged(b[i]);
      TaggedIsInjective(a[i], b[i]);
    }
    assert Present(v).items == Present(w).items;
  }

  lemma {:induction false} SameMaps(v: ScVal, w: ScVal)
    requires ArmNumber(v) == ArmNumber(w) == 17 && Payload(v) == Payload(w)
    ensures Present(v) == Present(w)
    decreases v, 1
  {
    DocumentsOf(v);
    DocumentsOf(w);
    SameEntries(v, w);
    assert Present(v).entries == Present(w).entries;
  }

  lemma {:induction false} SameInstances(v: ScVal, w: ScVal)
    requires ArmNumber(v) == ArmNumber(w) == 18 && Payload(v) == Payload(w)
    ensures Present(v) == Present(w)
    decreases v, 1
  {
    DocumentsOf(v);
    DocumentsOf(w);
    SameEntries(v, w);
    Executables(if v.Instance? then v.executable else v.bareExecutable, if w.Instance? then w.executable else w.bareExecutable);
    assert Present(v).storage == Present(w).storage;
  }

  lemma {:induction false} SameEntries(v: ScVal, w: ScVal)
    requires 17 <= ArmNumber(v) == ArmNumber(w) <= 18
    requires Documents(EntriesOf(v)) == Documents(EntriesOf(w))
    ensures |EntriesOf(v)| == |EntriesOf(w)|
    ensures forall i :: 0 <= i < |EntriesOf(v)| ==> PresentEntry(EntriesOf(v)[i]) == PresentEntry(EntriesOf(w)[i])
    decreases v, 0
  {
    var a, b := EntriesOf(v), EntriesOf(w);
    assert |Documents(a)| == |a| && |Documents(b)| == |b|;
    forall i | 0 <= i < |a|
      ensures PresentEntry(a[i]) == PresentEntry(b[i])
    {
      assert Documents(a)[i] == TaggedEntry(a[i]) && Documents(b)[i] == TaggedEntry(b[i]);
      EntryDocument(a[i], b[i]);
      TaggedIsInjective(a[i].key, b[i].key);
      TaggedIsInjective(a[i].val, b[i].val);
    }
  }

  lemma EntryDocument(a: Entry, b: Entry)
    requires TaggedEntry(a) == TaggedEntry(b)
    ensures Tagged(a.key) == Tagged(b.key) && Tagged(a.val) == Tagged(b.val)
  {
    var x, y := TaggedEntry(a).fields, TaggedEntry(b).fields;
    assert x["k"] == y["k"] && x["v"] == y["v"];
  }

  // ----- What the documents are

  /** The document of a plain value: its kind, and the value under it. */
  lemma PlainDocuments(v: ScVal)
    ensures match v
            case Bool(b) => Tagged(v) == JObj(map["bool" := JBool(b)])
            case Void => Tagged(v) == JObj(map["void" := JNull])
            case U32(n) => Tagged(v) == JObj(map["u32" := JNum(n)])
            case I32(n) => Tagged(v) == JObj(map["i32" := JNum(n)])
            case U64(n) => Tagged(v) == JObj(map["u64" := JNum(n)])
            case I64(n) => Tagged(v) == JObj(map["i64" := JNum(n)])
            case Timepoint(n) => Tagged(v) == JObj(map["timepoint" := JNum(n)])
            case Duration(n) => Tagged(v) == JObj(map["duration" := JNum(n)])
            case Str(s) => Tagged(v) == JObj(map["string" := JStr(s)])
            case Sym(s) => Tagged(v) == JObj(map["symbol" := JStr(s)])
            case Address(a) => Tagged(v) == JObj(map["address" := JStr(a)])
            case ExecutableTag(t) => Tagged(v) == JObj(map["executable_tag" := JStr(t)])
            case LedgerKeyNonce(n) => Tagged(v) == JObj(map["ledger_key_nonce" := JObj(map["nonce" := JNum(n)])])
            case _ => true
  {}

  /** A document whose one key holds the decimal text of n. */
  predicate IsNumberText(doc: Json, kind: string, n: int) {
    doc.JObj? && doc.fields.Keys == {kind} && doc.fields[kind].JStr? && ParseInt(doc.fields[kind].s) == Some(n)
  }

  lemma NumberText(v: ScVal, n: int)
    requires Payload(v) == JStr(IntString(n))
    ensures IsNumberText(Tagged(v), KindOf(v), n)
  {
    IntStringReadsBack(n);
  }

  lemma Horner(a: int, b: int, c: int, d: int)
    ensures Value256(a, b, c, d) == ((a * TWO_TO_64 + b) * TWO_TO_64 + c) * TWO_TO_64 + d
  {}

  /** The text of a wide integer is the number whose base 2^64 digits are the limbs, the most significant first. */
  lemma Wide128Documents(hi: SignedLimb, high: Limb, lo: Limb)
    ensures IsNumberText(Tagged(U128(high, lo)), "u128", high * TWO_TO_64 + lo)
    ensures IsNumberText(Tagged(I128(hi, lo)), "i128", hi * TWO_TO_64 + lo)
  {
    NumberText(U128(high, lo), high * TWO_TO_64 + lo);
    NumberText(I128(hi, lo), hi * TWO_TO_64 + lo);
  }

  lemma Wide256Documents(a: Limb, b: Limb, c: Limb, d: Limb)
    ensures IsNumberText(Tagged(U256(a, b, c, d)), "u256", ((a * TWO_TO_64 + b) * TWO_TO_64 + c) * TWO_TO_64 + d)
  {
    Horner(a, b, c, d);
    NumberText(U256(a, b, c, d), Value256(a, b, c, d));
  }

  lemma SignedWide256Documents(a: SignedLimb, b: Limb, c: Limb, d: Limb)
    ensures IsNumberText(Tagged(I256(a, b, c, d)), "i256", ((a * TWO_TO_64 + b) * TWO_TO_64 + c) * TWO_TO_64 + d)
  {
    Horner(a, b, c, d);
    NumberText(I256(a, b, c, d), Value256(a, b, c, d));
  }

  function HexValue(c: char): int {
    if '0' <= c <= '9' then c as int - 48 else if 'a' <= c <= 'f' then c as int - 87 else -1
  }

  /** Bytes are two hexadecimal digits each, in small letters, the high one first. */
  lemma {:induction false} HexIs(bytes: seq<Byte>, i: nat)
    requires i < |bytes|
    ensures |Hex(bytes)| == 2 * |bytes|
    ensures 0 <= HexValue(Hex(bytes)[2 * i]) && 0 <= HexValue(Hex(bytes)[2 * i + 1])
    ensures 16 * HexValue(Hex(bytes)[2 * i]) + HexValue(Hex(bytes)[2 * i + 1]) == bytes[i] as int
  {
    HexLength(bytes);
    if i > 0 {
      HexIs(bytes[1..], i - 1);
      assert Hex(bytes)[2..] == Hex(bytes[1..]);
    }
  }

  lemma {:induction false} HexLength(bytes: seq<Byte>)
    ensures |Hex(bytes)| == 2 * |bytes|
  {
    if bytes != [] {
      HexLength(bytes[1..]);
    }
  }

  lemma BytesDocument(bytes: seq<Byte>)
    ensures Tagged(Bytes(bytes)) == JObj(map["bytes" := JStr(Hex(bytes))])
  {}

  /** The printed entries of a map or a storage: key and value of each, in order. */
  predicate AreEntries(docs: Json, entries: seq<Entry>) {
    docs.JArr? && |docs.items| == |entries|
    && forall i :: 0 <= i < |entries| ==> docs.items[i] == JObj(map["k" := Tagged(entries[i].key), "v" := Tagged(entries[i].val)])
  }

  /** Vectors and maps print what they hold, in order; an absent one prints as an empty one. */
  lemma ContainerDocuments(v: ScVal)
    ensures match v
            case Vec(items) =>
              exists docs :: Tagged(v) == JObj(map["vec" := JArr(docs)]) && |docs| == |items|
                             && forall i :: 0 <= i < |items| ==> docs[i] == Tagged(items[i])
            case NoVec => Tagged(v) == JObj(map["vec" := JArr([])])
            case Map(entries) => exists docs :: Tagged(v) == JObj(map["map" := JObj(map["entries" := docs])]) && AreEntries(docs, entries)
            case NoMap => Tagged(v) == JObj(map["map" := JObj(map["entries" := JArr([])])])
            case Instance(executable, storage) =>
              exists docs ::
                && Tagged(v) == JObj(map["contract_instance" := JObj(map["executable" := TaggedExecutable(executable), "storage" := docs])])
                && AreEntries(docs, storage)
            case BareInstance(executable) =>
              Tagged(v) == JObj(map["contract_instance" := JObj(map["executable" := TaggedExecutable(executable), "storage" := JArr([])])])
            case _ => true
  {
    match v
    case Vec(items) =>
      assert Tagged(v) == JObj(map["vec" := JArr(Payload(v).items)]);
    case Map(entries) =>
      assert Tagged(v) == JObj(map["map" := JObj(map["entries" := Payload(v).fields["entries"]])]);
      assert AreEntries(Payload(v).fields["entries"], entries);
    case Instance(executable, storage) =>
      assert AreEntries(Payload(v).fields["storage"], storage);
    case _ =>
  }

  /** What is under the key of an executable. */
  lemma ExecutableDocuments(e: Executable)
    ensures match e
            case Wasm(hash) => TaggedExecutable(e) == JObj(map["wasm_hash" := JStr(hash)])
            case StellarAsset => TaggedExecutable(e) == JObj(map["stellar_asset" := JBool(true)])
            case ExternalRef(owner, tag) =>
              TaggedExecutable(e) == JObj(map["external_ref" := JObj(map["owner" := JStr(owner), "tag" := JStr(tag)])])
            case OtherExecutable(kind, xdr) =>
              exists doc :: TaggedExecutable(e) == JObj(map["opaque" := doc]) && IsOpaque(doc, "unsupported_executable_type", kind, xdr)
  {
    if e.OtherExecutable? {
      OpaqueIs("unsupported_executable_type", e.kind, e.xdr);
    }
  }

  /** The re-encoded XDR of what has no document of its own, with the reason and, if it is known, the type. */
  predicate IsOpaque(doc: Json, reason: string, scType: string, xdr: string) {
    doc.JObj? && doc.fields.Keys == {"reason", "encoding", "data"} + (if scType == "" then {} else {"sc_type"})
    && doc.fields["reason"] == JStr(reason) && doc.fields["encoding"] == JStr("base64_xdr") && doc.fields["data"] == JStr(xdr)
    && (scType != "" ==> doc.fields["sc_type"] == JStr(scType))
  }

  lemma OpaqueIs(reason: string, scType: string, xdr: string)
    ensures IsOpaque(OpaquePayload(reason, scType, xdr), reason, scType, xdr)
  {}

  predicate IsError(doc: Json, kind: string, contractCode: Option<UInt32>, code: Option<string>) {
    doc.JObj?
    && doc.fields.Keys == {"type"} + (if contractCode.Some? then {"contract_code"} else {}) + (if code.Some? then {"code"} else {})
    && doc.fields["type"] == JStr(kind)
    && (contractCode.Some? ==> doc.fields["contract_code"] == JNum(contractCode.value))
    && (code.Some? ==> doc.fields["code"] == JStr(code.value))
  }

  /** An error prints its type, and the codes it has. */
  lemma ErrorDocument(v: ScVal)
    requires v.Error?
    ensures Tagged(v).JObj? && Tagged(v).fields.Keys == {"error"}
    ensures IsError(Tagged(v).fields["error"], v.kind, v.contractCode, v.code)
  {}

  /** Anything unknown prints its XDR. */
  lemma UnknownDocument(v: ScVal)
    requires v.Other?
    ensures Tagged(v).JObj? && Tagged(v).fields.Keys == {"opaque"}
    ensures IsOpaque(Tagged(v).fields["opaque"], "unsupported_scval_type", v.scType, v.xdr)
  {
    OpaqueIs("unsupported_scval_type", v.scType, v.xdr);
  }
}
