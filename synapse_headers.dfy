/** The subnet's Synapse override: the class-level cache of the model's JSON
    schema, the required fields read from it, and to_headers, which packs a
    request object into HTTP headers. Rendering with str(), the JSON schema
    generator, sys.getsizeof, the total size and the body hash are inputs. */
module SynapseHeaders {
  import opened Wrappers
  import opened FieldValues
  import Base64

  type Headers = map<string, string>

  /** The JSON schema of a model, reduced to what is read from it: its
      "required" list, when the schema has one. */
  datatype Schema = Schema(required: Option<seq<string>>)

  /** schema.get("required", []). */
  function RequiredOf(schema: Schema): seq<string> {
    match schema.required
    case None => []
    case Some(fields) => fields
  }

  /** A Synapse subclass as a class object: `modelSchema` is what
      model_json_schema() computes for it, `cached` the class attribute
      _model_json_schema, `computations` how often the schema was computed. */
  class SynapseClass {
    const modelSchema: Schema
    var cached: Option<Schema>
    var computations: nat

    ghost predicate Valid()
      reads this
    {
      && (cached.None? ==> computations == 0)
      && (cached.Some? ==> cached.value == modelSchema && computations == 1)
    }

    constructor(schema: Schema)
      ensures Valid() && modelSchema == schema && cached == None
    {
      modelSchema := schema;
      cached := None;
      computations := 0;
    }

    /** _get_cached_model_json_schema: computes the schema on first use and
        returns the stored one afterwards. */
    method GetCachedModelJsonSchema() returns (schema: Schema)
      requires Valid()
      modifies this
      ensures Valid()
      ensures schema == modelSchema && cached == Some(modelSchema)
      ensures computations == 1
      ensures old(cached).Some? ==> computations == old(computations)
    {
      if cached.None? {
        cached := Some(modelSchema);
        computations := computations + 1;
      }
      schema := cached.value;
    }

    /** get_required_fields. */
    method GetRequiredFields() returns (fields: seq<string>)
      requires Valid()
      modifies this
      ensures Valid()
      ensures fields == RequiredOf(modelSchema) && cached == Some(modelSchema) && computations == 1
    {
      var schema := GetCachedModelJsonSchema();
      fields := RequiredOf(schema);
    }
  }

  /** However often the schema is asked for, it is computed once. */
  method SchemaComputedOnce(cls: SynapseClass, n: nat)
    requires cls.Valid() && cls.cached.None?
    modifies cls
    ensures cls.Valid() && cls.computations == (if n == 0 then 0 else 1)
  {
    var i := 0;
    while i < n
      invariant 0 <= i <= n
      invariant cls.Valid()
      invariant cls.computations == (if i == 0 then 0 else 1)
    {
      var _ := cls.GetCachedModelJsonSchema();
      i := i + 1;
    }
  }

  // ---------------------------------------------------------------------------
  // Header keys

  const AxonPrefix: string := "bt_header_axon_"
  const DendritePrefix: string := "bt_header_dendrite_"
  const InputPrefix: string := "bt_header_input_obj_"

  predicate HasPrefix(p: string, s: string) {
    |p| <= |s| && s[..|p|] == p
  }

  /** The three prefixes differ at their eleventh character, so keys made with
      different prefixes never meet, and none of them is a fixed header name. */
  lemma PrefixedKeysDistinct(k1: string, k2: string)
    ensures AxonPrefix + k1 != DendritePrefix + k2
    ensures AxonPrefix + k1 != InputPrefix + k2
    ensures DendritePrefix + k1 != InputPrefix + k2
    ensures forall p :: p in {AxonPrefix, DendritePrefix, InputPrefix} ==>
              p + k1 != "name" && p + k1 != "timeout" && p + k1 != "header_size"
              && p + k1 != "total_size" && p + k1 != "computed_body_hash"
    ensures AxonPrefix + k1 == AxonPrefix + k2 ==> k1 == k2
    ensures DendritePrefix + k1 == DendritePrefix + k2 ==> k1 == k2
    ensures InputPrefix + k1 == InputPrefix + k2 ==> k1 == k2
    ensures !HasPrefix(InputPrefix, AxonPrefix + k1) && !HasPrefix(InputPrefix, DendritePrefix + k1)
  {
    assert (AxonPrefix + k1)[10] == 'a' && (DendritePrefix + k2)[10] == 'd' && (InputPrefix + k2)[10] == 'i';
    assert (DendritePrefix + k1)[10] == 'd' && (InputPrefix + k2)[10] == 'i';
    if AxonPrefix + k1 == AxonPrefix + k2 {
      assert k1 == (AxonPrefix + k1)[|AxonPrefix|..];
    }
    if DendritePrefix + k1 == DendritePrefix + k2 {
      assert k1 == (DendritePrefix + k1)[|DendritePrefix|..];
    }
    if InputPrefix + k1 == InputPrefix + k2 {
      assert k1 == (InputPrefix + k1)[|InputPrefix|..];
    }
  }

  // ---------------------------------------------------------------------------
  // The pieces of to_headers

  /** `headers.update({prefix + k: str(v) for k, v in items if v is not None})`. */
  function AddPrefixed(h: Headers, prefix: string, items: seq<(string, Value)>, str: Value -> string): Headers
    decreases |items|
  {
    if |items| == 0 then h
    else
      var h' := if items[0].1 != VNone then h[prefix + items[0].0 := str(items[0].1)] else h;
      AddPrefixed(h', prefix, items[1..], str)
  }

  /** The headers before the instance fields: name, timeout, and the axon and
      dendrite terminal dumps when present. */
  function BaseHeaders(name: string, timeout: Value, axon: Option<seq<(string, Value)>>,
                       dendrite: Option<seq<(string, Value)>>, str: Value -> string): (r: Headers)
    ensures "name" in r && r["name"] == name && "timeout" in r && r["timeout"] == str(timeout)
    ensures axon.None? && dendrite.None? ==> r.Keys == {"name", "timeout"}
  {
    var h0 := map["name" := name, "timeout" := str(timeout)];
    assert !HasPrefix(AxonPrefix, "name") && !HasPrefix(AxonPrefix, "timeout");
    assert !HasPrefix(DendritePrefix, "name") && !HasPrefix(DendritePrefix, "timeout");
    var h1 :=
      if axon.Some? then
        AddPrefixedEntries(h0, AxonPrefix, axon.value, str, "name");
        AddPrefixedEntries(h0, AxonPrefix, axon.value, str, "timeout");
        AddPrefixed(h0, AxonPrefix, axon.value, str)
      else h0;
    if dendrite.Some? then
      AddPrefixedEntries(h1, DendritePrefix, dendrite.value, str, "name");
      AddPrefixedEntries(h1, DendritePrefix, dendrite.value, str, "timeout");
      AddPrefixed(h1, DendritePrefix, dendrite.value, str)
    else h1
  }

  /** The type of a dumped value: `value.__class__`. */
  datatype ValueType = NoneType | BoolType | IntType | FloatType | StrType | BytesType | ListType | DictType
                     | ObjectType(className: string)

  function TypeOf(v: Value): ValueType {
    match v
    case VNone => NoneType
    case VBool(_) => BoolType
    case VInt(_) => IntType
    case VFloat(_) => FloatType
    case VStr(_) => StrType
    case VBytes(_) => BytesType
    case VList(_) => ListType
    case VDict(_) => DictType
    case VObject(c) => ObjectType(c)
  }

  /** json.dumps of an empty instance of the type, or None when json.dumps
      raises TypeError (bytes, and any other object). */
  function DummyJson(t: ValueType): Option<string> {
    match t
    case NoneType => Some("null")
    case BoolType => Some("false")
    case IntType => Some("0")
    case FloatType => Some("0.0")
    case StrType => Some("\"\"")
    case ListType => Some("[]")
    case DictType => Some("{}")
    case BytesType => None
    case ObjectType(_) => None
  }

  /** The `bt_header_input_obj_` value of each serialisable type. */
  const InputObjectEncoding: map<ValueType, string> := map[
    NoneType := "bnVsbA==", BoolType := "ZmFsc2U=", IntType := "MA==", FloatType := "MC4w",
    StrType := "IiI=", ListType := "W10=", DictType := "e30="]

  /** The table holds exactly the base64 of the UTF-8 of each dummy JSON
      text. */
  lemma InputObjectEncodingIsBase64(t: ValueType)
    ensures t in InputObjectEncoding <==> DummyJson(t).Some?
    ensures t in InputObjectEncoding ==>
              Base64.IsAscii(DummyJson(t).value)
              && InputObjectEncoding[t] == Base64.EncodeAscii(DummyJson(t).value)
  {
    match t
    case NoneType => NullEncoding();
    case BoolType => FalseEncoding();
    case IntType => ZeroEncoding();
    case FloatType => ZeroPointZeroEncoding();
    case StrType => EmptyStringEncoding();
    case ListType => EmptyListEncoding();
    case DictType => EmptyDictEncoding();
    case BytesType =>
    case ObjectType(_) =>
  }

  // One lemma per table entry: the bytes of the JSON text, then its groups of
  // six bits, then the digits.

  lemma NullEncoding()
    ensures Base64.IsAscii("null") && Base64.EncodeAscii("null") == "bnVsbA=="
  {
    var b := [110, 117, 108, 108];
    assert Base64.AsciiBytes("null") == b;
    assert b[3..] == [108];
    assert Base64.Encode(b[3..]) == [Base64.Digit(27), Base64.Digit(0), '=', '='];
    assert Base64.Encode(b) == [Base64.Digit(27), Base64.Digit(39), Base64.Digit(21), Base64.Digit(44)]
                               + Base64.Encode(b[3..]);
    assert Base64.Digit(27) == 'b' && Base64.Digit(39) == 'n' && Base64.Digit(21) == 'V'
           && Base64.Digit(44) == 's' && Base64.Digit(0) == 'A';
  }

  lemma FalseEncoding()
    ensures Base64.IsAscii("false") && Base64.EncodeAscii("false") == "ZmFsc2U="
  {
    var b := [102, 97, 108, 115, 101];
    assert Base64.AsciiBytes("false") == b;
    assert b[3..] == [115, 101];
    assert Base64.Encode(b[3..]) == [Base64.Digit(28), Base64.Digit(54), Base64.Digit(20), '='];
    assert Base64.Encode(b) == [Base64.Digit(25), Base64.Digit(38), Base64.Digit(5), Base64.Digit(44)]
                               + Base64.Encode(b[3..]);
    assert Base64.Digit(25) == 'Z' && Base64.Digit(38) == 'm' && Base64.Digit(5) == 'F'
           && Base64.Digit(44) == 's' && Base64.Digit(28) == 'c' && Base64.Digit(54) == '2'
           && Base64.Digit(20) == 'U';
  }

  lemma ZeroEncoding()
    ensures Base64.IsAscii("0") && Base64.EncodeAscii("0") == "MA=="
  {
    var b := [48];
    assert Base64.AsciiBytes("0") == b;
    assert Base64.Encode(b) == [Base64.Digit(12), Base64.Digit(0), '=', '='];
    assert Base64.Digit(12) == 'M' && Base64.Digit(0) == 'A';
  }

  lemma ZeroPointZeroEncoding()
    ensures Base64.IsAscii("0.0") && Base64.EncodeAscii("0.0") == "MC4w"
  {
    var b := [48, 46, 48];
    assert Base64.AsciiBytes("0.0") == b;
    assert b[3..] == [];
    assert Base64.Encode(b) == [Base64.Digit(12), Base64.Digit(2), Base64.Digit(56), Base64.Digit(48)]
                               + Base64.Encode(b[3..]);
    assert Base64.Digit(12) == 'M' && Base64.Digit(2) == 'C' && Base64.Digit(56) == '4'
           && Base64.Digit(48) == 'w';
  }

  lemma EmptyStringEncoding()
    ensures Base64.IsAscii("\"\"") && Base64.EncodeAscii("\"\"") == "IiI="
  {
    var b := [34, 34];
    assert Base64.AsciiBytes("\"\"") == b;
    assert Base64.Encode(b) == [Base64.Digit(8), Base64.Digit(34), Base64.Digit(8), '='];
    assert Base64.Digit(8) == 'I' && Base64.Digit(34) == 'i';
  }

  lemma EmptyListEncoding()
    ensures Base64.IsAscii("[]") && Base64.EncodeAscii("[]") == "W10="
  {
    var b := [91, 93];
    assert Base64.AsciiBytes("[]") == b;
    assert Base64.Encode(b) == [Base64.Digit(22), Base64.Digit(53), Base64.Digit(52), '='];
    assert Base64.Digit(22) == 'W' && Base64.Digit(53) == '1' && Base64.Digit(52) == '0';
  }

  lemma EmptyDictEncoding()
    ensures Base64.IsAscii("{}") && Base64.EncodeAscii("{}") == "e30="
  {
    var b := [123, 125];
    assert Base64.AsciiBytes("{}") == b;
    assert Base64.Encode(b) == [Base64.Digit(30), Base64.Digit(55), Base64.Digit(52), '='];
    assert Base64.Digit(30) == 'e' && Base64.Digit(55) == '3' && Base64.Digit(52) == '0';
  }

  /** The `bt_header_input_obj_` value for a field: it depends on the field's
      type only, never on its value. */
  function DummyHeaderValue(v: Value): Option<string> {
    if TypeOf(v) in InputObjectEncoding then Some(InputObjectEncoding[TypeOf(v)]) else None
  }

  /** The error to_headers raises for a field that does not serialise. */
  function SerialisationError(field: string, value: Value, str: Value -> string): string {
    "Error serializing " + field + " with value " + str(value) + ". Objects must be json serializable."
  }

  /** The loop over the instance fields, in dump order. */
  function EncodeInputFields(h: Headers, fields: seq<(string, Value)>, required: seq<string>,
                             str: Value -> string): Result<Headers, string>
    decreases |fields|
  {
    if |fields| == 0 then Success(h)
    else
      var field := fields[0].0;
      var value := fields[0].1;
      if field in h || value == VNone then EncodeInputFields(h, fields[1..], required, str)
      else if field in required then
        match DummyHeaderValue(value)
        case None => Failure(SerialisationError(field, value, str))
        case Some(encoded) => EncodeInputFields(h[InputPrefix + field := encoded], fields[1..], required, str)
      else EncodeInputFields(h, fields[1..], required, str)
  }

  /** The three size and hash entries added last. */
  function WithSizes(h: Headers, headerSize: Headers -> string, totalSize: string, bodyHash: string): Headers {
    h["header_size" := headerSize(h)]["total_size" := totalSize]["computed_body_hash" := bodyHash]
  }

  /** A request object as to_headers sees it. */
  datatype SynapseInstance = SynapseInstance(
    name: string,
    timeout: Value,
    axon: Option<seq<(string, Value)>>,
    dendrite: Option<seq<(string, Value)>>,
    dump: seq<(string, Value)>,
    totalSize: string,
    bodyHash: string)

  /** What to_headers returns for an instance of a class whose schema lists
      `required`, or the ValueError it raises. */
  function HeadersOf(s: SynapseInstance, required: seq<string>, str: Value -> string,
                     headerSize: Headers -> string): (r: Result<Headers, string>)
    ensures r.Success? ==> "header_size" in r.value
                           && "total_size" in r.value && r.value["total_size"] == s.totalSize
                           && "computed_body_hash" in r.value && r.value["computed_body_hash"] == s.bodyHash
  {
    match EncodeInputFields(BaseHeaders(s.name, s.timeout, s.axon, s.dendrite, str), s.dump, required, str)
    case Failure(e) => Failure(e)
    case Success(h) => Success(WithSizes(h, headerSize, s.totalSize, s.bodyHash))
  }

  /** to_headers. */
  method ToHeaders(cls: SynapseClass, s: SynapseInstance, str: Value -> string, headerSize: Headers -> string)
    returns (r: Result<Headers, string>)
    requires cls.Valid()
    modifies cls
    ensures cls.Valid() && cls.cached == Some(cls.modelSchema)
    ensures r == HeadersOf(s, RequiredOf(cls.modelSchema), str, headerSize)
  {
    var headers := map["name" := s.name, "timeout" := str(s.timeout)];
    if s.axon.Some? {
      headers := AddPrefixed(headers, AxonPrefix, s.axon.value, str);
    }
    if s.dendrite.Some? {
      headers := AddPrefixed(headers, DendritePrefix, s.dendrite.value, str);
    }
    ghost var base := headers;
    assert base == BaseHeaders(s.name, s.timeout, s.axon, s.dendrite, str);
    var required := cls.GetRequiredFields();
    var i := 0;
    while i < |s.dump|
      invariant 0 <= i <= |s.dump|
      invariant EncodeInputFields(base, s.dump, required, str)
                == EncodeInputFields(headers, s.dump[i..], required, str)
    {
      assert s.dump[i..][1..] == s.dump[i + 1..];
      assert s.dump[i..][0] == s.dump[i];
      var field := s.dump[i].0;
      var value := s.dump[i].1;
      if field in headers || value == VNone {
      } else if field in required {
        var encoded := DummyHeaderValue(value);
        if encoded.None? {
          r := Failure(SerialisationError(field, value, str));
          return;
        }
        headers := headers[InputPrefix + field := encoded.value];
      }
      i := i + 1;
    }
    assert EncodeInputFields(base, s.dump, required, str) == Success(headers) by {
      assert s.dump[i..] == [];
    }
    headers := headers["header_size" := headerSize(headers)];
    headers := headers["total_size" := s.totalSize];
    headers := headers["computed_body_hash" := s.bodyHash];
    r := Success(headers);
  }

  // ---------------------------------------------------------------------------
  // Properties of the headers

  /** Only keys with the prefix are added, each a non-None item, and a key
      keeps the value of the last item that sets it. */
  lemma {:induction false} AddPrefixedEntries(h: Headers, prefix: string, items: seq<(string, Value)>,
                                              str: Value -> string, key: string)
    ensures !HasPrefix(prefix, key) ==> (key in AddPrefixed(h, prefix, items, str) <==> key in h)
    ensures !HasPrefix(prefix, key) && key in h ==> AddPrefixed(h, prefix, items, str)[key] == h[key]
    ensures (exists i :: 0 <= i < |items| && items[i].1 != VNone && prefix + items[i].0 == key)
            ==> key in AddPrefixed(h, prefix, items, str)
    ensures forall i :: 0 <= i < |items| && items[i].1 != VNone && prefix + items[i].0 == key
                        && (forall j :: i < j < |items| && prefix + items[j].0 == key ==> items[j].1 == VNone)
                        ==> AddPrefixed(h, prefix, items, str)[key] == str(items[i].1)
    ensures (forall i :: 0 <= i < |items| && prefix + items[i].0 == key ==> items[i].1 == VNone)
            ==> (key in AddPrefixed(h, prefix, items, str) <==> key in h)
                && (key in h ==> AddPrefixed(h, prefix, items, str)[key] == h[key])
    decreases |items|
  {
    if |items| > 0 {
      var h' := if items[0].1 != VNone then h[prefix + items[0].0 := str(items[0].1)] else h;
      AddPrefixedEntries(h', prefix, items[1..], str, key);
      assert forall i :: 0 < i < |items| ==> items[i] == items[1..][i - 1];
      if !HasPrefix(prefix, key) && items[0].1 != VNone {
        assert (prefix + items[0].0)[..|prefix|] == prefix;
      }
      forall i | 0 <= i < |items| && items[i].1 != VNone && prefix + items[i].0 == key
                 && (forall j :: i < j < |items| && prefix + items[j].0 == key ==> items[j].1 == VNone)
        ensures AddPrefixed(h, prefix, items, str)[key] == str(items[i].1)
      {
        if i > 0 {
          assert items[1..][i - 1] == items[i];
        }
      }
    }
  }

  /** Key `k` holds `v` because field `i` is a required, non-None field named
      after it, and `v` is the encoding of that field's type. */
  ghost predicate AddedAt(k: string, v: string, fields: seq<(string, Value)>, required: seq<string>, i: int) {
    0 <= i < |fields| && k == InputPrefix + fields[i].0 && fields[i].0 in required && fields[i].1 != VNone
    && DummyHeaderValue(fields[i].1) == Some(v)
  }

  ghost predicate AddedFor(k: string, v: string, fields: seq<(string, Value)>, required: seq<string>) {
    exists i :: AddedAt(k, v, fields, required, i)
  }

  /** The instance-field loop never changes a header that is already there:
      it only adds `bt_header_input_obj_` keys, one for a required, non-None
      field whose name is not yet a header. */
  lemma {:induction false} EncodeKeepsHeaders(h: Headers, fields: seq<(string, Value)>, required: seq<string>,
                                              str: Value -> string)
    requires EncodeInputFields(h, fields, required, str).Success?
    ensures var r := EncodeInputFields(h, fields, required, str).value;
            (forall k :: k in h ==> k in r)
            && (forall k :: k in h && !HasPrefix(InputPrefix, k) ==> r[k] == h[k])
            && (forall k :: k in r ==> (k in h && r[k] == h[k]) || AddedFor(k, r[k], fields, required))
    decreases |fields|
  {
    if |fields| > 0 {
      var field := fields[0].0;
      var value := fields[0].1;
      var r := EncodeInputFields(h, fields, required, str).value;
      var h' := if field in h || value == VNone || field !in required then h
                else h[InputPrefix + field := DummyHeaderValue(value).value];
      assert r == EncodeInputFields(h', fields[1..], required, str).value;
      EncodeKeepsHeaders(h', fields[1..], required, str);
      forall k | k in h && !HasPrefix(InputPrefix, k)
        ensures r[k] == h[k]
      {
        InputKeysArePrefixed(k, field);
      }
      forall k | k in r
        ensures (k in h && r[k] == h[k]) || AddedFor(k, r[k], fields, required)
      {
        if k in h' && r[k] == h'[k] {
          if h' != h && k == InputPrefix + field {
            assert AddedAt(k, r[k], fields, required, 0);
          }
        } else {
          var j :| AddedAt(k, r[k], fields[1..], required, j);
          assert fields[1..][j] == fields[j + 1];
          assert AddedAt(k, r[k], fields, required, j + 1);
        }
      }
    }
  }

  /** A field whose name has no `bt_header_input_obj_` prefix is never made a
      header by the loop. */
  lemma InputKeysArePrefixed(f: string, g: string)
    requires !HasPrefix(InputPrefix, f)
    ensures f != InputPrefix + g
  {
  }

  /** A required, non-None field whose name is not already a header (and is
      not itself an input-object key) gets the encoding of its type's empty
      value, unless the loop fails. */
  lemma {:induction false} RequiredFieldEncoded(h: Headers, fields: seq<(string, Value)>, required: seq<string>,
                                                str: Value -> string, i: nat)
    requires i < |fields| && fields[i].1 != VNone && fields[i].0 in required && fields[i].0 !in h
    requires !HasPrefix(InputPrefix, fields[i].0)
    requires forall j :: 0 <= j < |fields| && j != i ==> fields[j].0 != fields[i].0
    requires EncodeInputFields(h, fields, required, str).Success?
    ensures InputPrefix + fields[i].0 in EncodeInputFields(h, fields, required, str).value
    ensures Some(EncodeInputFields(h, fields, required, str).value[InputPrefix + fields[i].0])
            == DummyHeaderValue(fields[i].1)
    decreases |fields|
  {
    var field := fields[0].0;
    var value := fields[0].1;
    if i == 0 {
      var k := InputPrefix + field;
      var h' := h[k := DummyHeaderValue(value).value];
      EncodeKeepsHeaders(h', fields[1..], required, str);
      var r := EncodeInputFields(h', fields[1..], required, str).value;
      assert r == EncodeInputFields(h, fields, required, str).value;
      if r[k] != h'[k] {
        // a later field of the same name would have to have set it
        var j :| AddedAt(k, r[k], fields[1..], required, j);
        assert fields[1..][j] == fields[j + 1];
        PrefixedKeysDistinct(fields[j + 1].0, field);
        assert false;
      }
    } else {
      assert forall j :: 0 < j < |fields| ==> fields[j] == fields[1..][j - 1];
      InputKeysArePrefixed(fields[i].0, field);
      if field in h || value == VNone || field !in required {
        RequiredFieldEncoded(h, fields[1..], required, str, i - 1);
      } else {
        var h' := h[InputPrefix + field := DummyHeaderValue(value).value];
        RequiredFieldEncoded(h', fields[1..], required, str, i - 1);
      }
    }
  }

  /** The loop fails, with the serialisation error of some required, non-None
      field whose type has no JSON form, exactly when it reaches such a field. */
  lemma {:induction false} EncodeFailureCause(h: Headers, fields: seq<(string, Value)>, required: seq<string>,
                                              str: Value -> string)
    ensures EncodeInputFields(h, fields, required, str).Failure? ==>
              exists i :: 0 <= i < |fields| && fields[i].0 in required && fields[i].1 != VNone
                          && DummyHeaderValue(fields[i].1).None?
                          && EncodeInputFields(h, fields, required, str).error
                             == SerialisationError(fields[i].0, fields[i].1, str)
    decreases |fields|
  {
    if |fields| > 0 {
      var field := fields[0].0;
      var value := fields[0].1;
      assert forall j :: 0 < j < |fields| ==> fields[j] == fields[1..][j - 1];
      if field in h || value == VNone || field !in required {
        EncodeFailureCause(h, fields[1..], required, str);
      } else if DummyHeaderValue(value).Some? {
        EncodeFailureCause(h[InputPrefix + field := DummyHeaderValue(value).value], fields[1..], required, str);
      }
    }
  }

  /** A required, non-None field of a type with no JSON form (bytes, an
      arbitrary object) that the loop reaches makes to_headers raise. */
  lemma {:induction false} UnserialisableFieldRaises(h: Headers, fields: seq<(string, Value)>, required: seq<string>,
                                                     str: Value -> string, i: nat)
    requires i < |fields| && fields[i].1 != VNone && fields[i].0 in required && fields[i].0 !in h
    requires !HasPrefix(InputPrefix, fields[i].0)
    requires DummyHeaderValue(fields[i].1).None?
    ensures EncodeInputFields(h, fields, required, str).Failure?
    decreases |fields|
  {
    var field := fields[0].0;
    var value := fields[0].1;
    if i > 0 {
      assert forall j :: 0 < j < |fields| ==> fields[j] == fields[1..][j - 1];
      InputKeysArePrefixed(fields[i].0, field);
      if field in h || value == VNone || field !in required {
        UnserialisableFieldRaises(h, fields[1..], required, str, i - 1);
      } else if DummyHeaderValue(value).Some? {
        UnserialisableFieldRaises(h[InputPrefix + field := DummyHeaderValue(value).value], fields[1..], required, str, i - 1);
      }
    }
  }

  /** Dict keys of a dump are distinct. */
  ghost predicate DistinctKeys(items: seq<(string, Value)>) {
    forall i, j :: 0 <= i < j < |items| ==> items[i].0 != items[j].0
  }

  /** What the instance-field loop adds all carries the input-object prefix,
      and the three size entries come last: every other key of the headers is
      one of the name, timeout and terminal entries. */
  lemma HeadersKeepBase(s: SynapseInstance, required: seq<string>, str: Value -> string,
                        headerSize: Headers -> string, key: string)
    requires HeadersOf(s, required, str, headerSize).Success?
    requires !HasPrefix(InputPrefix, key)
    requires key != "header_size" && key != "total_size" && key != "computed_body_hash"
    ensures var r := HeadersOf(s, required, str, headerSize).value;
            var base := BaseHeaders(s.name, s.timeout, s.axon, s.dendrite, str);
            (key in r <==> key in base) && (key in base ==> r[key] == base[key])
  {
    var base := BaseHeaders(s.name, s.timeout, s.axon, s.dendrite, str);
    var looped := EncodeInputFields(base, s.dump, required, str).value;
    assert HeadersOf(s, required, str, headerSize).value == WithSizes(looped, headerSize, s.totalSize, s.bodyHash);
    EncodeKeepsHeaders(base, s.dump, required, str);
    forall n | 0 <= n < |s.dump|
      ensures key != InputPrefix + s.dump[n].0
    {
      InputKeysArePrefixed(key, s.dump[n].0);
    }
  }

  /** The fixed entries: name and timeout come first and are never replaced;
      the sizes and the body hash are always present. */
  lemma HeadersFixedEntries(s: SynapseInstance, required: seq<string>, str: Value -> string, headerSize: Headers -> string)
    requires HeadersOf(s, required, str, headerSize).Success?
    ensures var r := HeadersOf(s, required, str, headerSize).value;
            && "name" in r && r["name"] == s.name
            && "timeout" in r && r["timeout"] == str(s.timeout)
            && "header_size" in r
            && "total_size" in r && r["total_size"] == s.totalSize
            && "computed_body_hash" in r && r["computed_body_hash"] == s.bodyHash
  {
    var h0 := map["name" := s.name, "timeout" := str(s.timeout)];
    var h1 := if s.axon.Some? then AddPrefixed(h0, AxonPrefix, s.axon.value, str) else h0;
    var base := BaseHeaders(s.name, s.timeout, s.axon, s.dendrite, str);
    assert !HasPrefix(AxonPrefix, "name") && !HasPrefix(AxonPrefix, "timeout");
    assert !HasPrefix(DendritePrefix, "name") && !HasPrefix(DendritePrefix, "timeout");
    if s.axon.Some? {
      AddPrefixedEntries(h0, AxonPrefix, s.axon.value, str, "name");
      AddPrefixedEntries(h0, AxonPrefix, s.axon.value, str, "timeout");
    }
    if s.dendrite.Some? {
      AddPrefixedEntries(h1, DendritePrefix, s.dendrite.value, str, "name");
      AddPrefixedEntries(h1, DendritePrefix, s.dendrite.value, str, "timeout");
    }
    assert "name" in base && base["name"] == s.name && "timeout" in base && base["timeout"] == str(s.timeout);
    HeadersKeepBase(s, required, str, headerSize, "name");
    HeadersKeepBase(s, required, str, headerSize, "timeout");
    var looped := EncodeInputFields(base, s.dump, required, str).value;
    assert HeadersOf(s, required, str, headerSize).value == WithSizes(looped, headerSize, s.totalSize, s.bodyHash);
  }

  /** With distinct item names, the entry for item `k` is set exactly when its
      value is not None, and is otherwise left as it was. */
  lemma PrefixedEntry(h: Headers, prefix: string, items: seq<(string, Value)>, str: Value -> string, k: string)
    requires DistinctKeys(items)
    ensures forall i :: 0 <= i < |items| && items[i].0 == k ==>
              var r := AddPrefixed(h, prefix, items, str);
              if items[i].1 != VNone then prefix + k in r && r[prefix + k] == str(items[i].1)
              else (prefix + k in r <==> prefix + k in h) && (prefix + k in h ==> r[prefix + k] == h[prefix + k])
  {
    AddPrefixedEntries(h, prefix, items, str, prefix + k);
    forall j | 0 <= j < |items| && prefix + items[j].0 == prefix + k
      ensures items[j].0 == k
    {
      assert items[j].0 == (prefix + items[j].0)[|prefix|..];
      assert k == (prefix + k)[|prefix|..];
    }
  }

  /** A terminal (axon or dendrite) entry appears under its prefixed key
      exactly when its value is not None, rendered with str(). */
  lemma HeadersTerminalEntries(s: SynapseInstance, required: seq<string>, str: Value -> string,
                               headerSize: Headers -> string, k: string)
    requires HeadersOf(s, required, str, headerSize).Success?
    requires s.axon.Some? ==> DistinctKeys(s.axon.value)
    requires s.dendrite.Some? ==> DistinctKeys(s.dendrite.value)
    ensures var r := HeadersOf(s, required, str, headerSize).value;
            && (s.axon.Some? ==> forall i :: 0 <= i < |s.axon.value| && s.axon.value[i].0 == k ==>
                  if s.axon.value[i].1 != VNone then AxonPrefix + k in r && r[AxonPrefix + k] == str(s.axon.value[i].1)
                  else AxonPrefix + k !in r)
            && (s.dendrite.Some? ==> forall i :: 0 <= i < |s.dendrite.value| && s.dendrite.value[i].0 == k ==>
                  if s.dendrite.value[i].1 != VNone then DendritePrefix + k in r && r[DendritePrefix + k] == str(s.dendrite.value[i].1)
                  else DendritePrefix + k !in r)
  {
    var h0 := map["name" := s.name, "timeout" := str(s.timeout)];
    var h1 := if s.axon.Some? then AddPrefixed(h0, AxonPrefix, s.axon.value, str) else h0;
    var ak := AxonPrefix + k;
    var dk := DendritePrefix + k;
    PrefixedKeysDistinct(k, k);
    assert ak !in h0 && dk !in h0;
    assert !HasPrefix(DendritePrefix, ak) by { assert ak[10] == 'a'; }
    assert !HasPrefix(AxonPrefix, dk) by { assert dk[10] == 'd'; }
    HeadersKeepBase(s, required, str, headerSize, ak);
    HeadersKeepBase(s, required, str, headerSize, dk);
    if s.axon.Some? {
      PrefixedEntry(h0, AxonPrefix, s.axon.value, str, k);
      AddPrefixedEntries(h0, AxonPrefix, s.axon.value, str, dk);
    }
    if s.dendrite.Some? {
      PrefixedEntry(h1, DendritePrefix, s.dendrite.value, str, k);
      AddPrefixedEntries(h1, DendritePrefix, s.dendrite.value, str, ak);
    }
  }
}
