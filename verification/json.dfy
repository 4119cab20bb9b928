/** The JSON convenience layer's value model (`BaseStorage.get_json`,
    `set_json` and `_json_serializer`, src/redis_client.py).

    JSON text itself is opaque: `json.dumps(...).encode('utf-8')` and
    `json.loads(data.decode('utf-8'))` are a `Codec` supplied by the caller,
    and the lemmas that need them to be inverse say so with `Faithful`.
    Timestamps are rendered by `IsoFormat`, an injective textual encoding that
    stands for `datetime.isoformat()`, and read back by `IsoParse`
    (`datetime.fromisoformat()`).
 */
module Json {
  import opened Wrappers
  import opened Common
  import Text

  /** A decoded JSON document. Numbers are integers (the stored documents
      only hold counts). Objects are maps: key order is not observable
      through `from_dict`. */
  datatype Value =
    | Null
    | Bool(b: bool)
    | Num(n: int)
    | Str(s: string)
    | Arr(items: seq<Value>)
    | Obj(fields: map<string, Value>)

  /** Python truthiness of the decoded value (`if data:`). */
  predicate Truthy(v: Value) {
    match v
    case Null => false
    case Bool(b) => b
    case Num(n) => n != 0
    case Str(s) => |s| > 0
    case Arr(items) => |items| > 0
    case Obj(fields) => |fields| > 0
  }

  /** `json.dumps` + UTF-8 encode, and UTF-8 decode + `json.loads`;
      `loads` answers None where `json.loads` raises. */
  datatype Codec = Codec(dumps: Value -> Bytes, loads: Bytes -> Option<Value>)

  /** What the standard library guarantees of the pair: decoding inverts
      encoding, and the encoding of a document is never empty. */
  ghost predicate Faithful(c: Codec) {
    forall v :: c.loads(c.dumps(v)) == Some(v) && |c.dumps(v)| > 0
  }

  // -----------------------------------------------------------------------
  // Timestamps

  /** `datetime.isoformat()`, as a signed decimal count of microseconds. */
  function IsoFormat(t: Instant): (r: string)
    ensures |r| > 0
  {
    if t < 0 then "-" + Text.Digits(-t) else Text.Digits(t)
  }

  /** `datetime.fromisoformat(s)`; None where it raises ValueError. */
  function IsoParse(s: string): (r: Option<Instant>)
    ensures r.Some? ==> |s| > 0
  {
    if |s| > 0 && s[0] == '-' then
      match Text.ParseDigits(s[1..])
      case None => None
      case Some(n) => Some(-(n as int))
    else
      match Text.ParseDigits(s)
      case None => None
      case Some(n) => Some(n as int)
  }

  lemma IsoRoundTrip(t: Instant)
    ensures IsoParse(IsoFormat(t)) == Some(t)
  {
    if t < 0 {
      IsoNegative(-t);
    } else {
      IsoNonNegative(t);
    }
  }

  lemma IsoNegative(n: nat)
    ensures IsoParse("-" + Text.Digits(n)) == Some(-(n as int))
  {
    var s := "-" + Text.Digits(n);
    assert s[1..] == Text.Digits(n);
    Text.ParseDigitsOfDigits(n);
  }

  lemma IsoNonNegative(n: nat)
    ensures IsoParse(Text.Digits(n)) == Some(n)
  {
    assert Text.IsDigit(Text.Digits(n)[0]);
    Text.ParseDigitsOfDigits(n);
  }

  lemma IsoFormatInjective(a: Instant, b: Instant)
    ensures IsoFormat(a) == IsoFormat(b) <==> a == b
  {
    if IsoFormat(a) == IsoFormat(b) {
      IsoRoundTrip(a);
      IsoRoundTrip(b);
    }
  }

  // -----------------------------------------------------------------------
  // Serialising Python values

  /** A Python object that `json.dumps` cannot encode natively and hands to
      `_json_serializer`. */
  datatype Foreign =
    | DateTimeObj(at: Instant)
    | ValueObj(value: Value)     // anything with a `.value` attribute (an Enum)
    | OtherObj(typeName: string)

  /** A Python value handed to `set_json`: JSON-native parts nested with
      foreign objects. */
  datatype PyValue =
    | Native(v: Value)
    | PyList(elems: seq<PyValue>)
    | PyDict(entries: map<string, PyValue>)
    | Object(obj: Foreign)

  /** `_json_serializer`: datetimes become their ISO text, objects with a
      `.value` become that value, anything else raises TypeError. */
  function Serializer(obj: Foreign): (r: Result<Value>)
    ensures obj.DateTimeObj? ==> r.Ok? && r.value.Str? && IsoParse(r.value.s) == Some(obj.at)
    ensures obj.ValueObj? ==> r == Ok(obj.value)
    ensures obj.OtherObj? ==> r.Err?
  {
    match obj
    case DateTimeObj(t) => IsoRoundTrip(t); Ok(Str(IsoFormat(t)))
    case ValueObj(v) => Ok(v)
    case OtherObj(name) => Err("TypeError: Object of type " + name + " is not JSON serializable")
  }

  /** No part of `p` is an object `_json_serializer` rejects. */
  predicate Serializable(p: PyValue) {
    match p
    case Native(_) => true
    case PyList(xs) => forall i :: 0 <= i < |xs| ==> Serializable(xs[i])
    case PyDict(m) => forall k :: k in m ==> Serializable(m[k])
    case Object(obj) => !obj.OtherObj?
  }

  /** The document `json.dumps(p, default=_json_serializer)` encodes; an
      error where it raises. */
  function ToJson(p: PyValue): (r: Result<Value>)
    ensures r.Ok? <==> Serializable(p)
    ensures p.Native? ==> r == Ok(p.v)
    ensures p.PyList? && r.Ok? ==> r.value.Arr? && |r.value.items| == |p.elems|
    ensures p.PyDict? && r.Ok? ==> r.value.Obj? && r.value.fields.Keys == p.entries.Keys
  {
    match p
    case Native(v) => Ok(v)
    case Object(obj) => Serializer(obj)
    case PyList(xs) =>
      if forall i :: 0 <= i < |xs| ==> ToJson(xs[i]).Ok? then
        Ok(Arr(seq(|xs|, i requires 0 <= i < |xs| => ToJson(xs[i]).value)))
      else
        Err("TypeError: list element is not JSON serializable")
    case PyDict(m) =>
      if forall k :: k in m ==> ToJson(m[k]).Ok? then
        Ok(Obj(map k | k in m :: ToJson(m[k]).value))
      else
        Err("TypeError: dict value is not JSON serializable")
  }

  /** Bytes written by `set_json`, or the TypeError it raises. */
  function Dumps(c: Codec, p: PyValue): (r: Result<Bytes>)
    ensures r.Ok? <==> Serializable(p)
    ensures Faithful(c) && r.Ok? ==> c.loads(r.value) == Some(ToJson(p).value)
  {
    match ToJson(p)
    case Err(e) => Err(e)
    case Ok(v) => Ok(c.dumps(v))
  }

  /** `get_json` after the backend's `get`: absent or empty bytes read as
      None; otherwise the decoded document, or the error `json.loads` raises. */
  function LoadStored(c: Codec, data: Option<Bytes>): (r: Result<Option<Value>>)
    ensures data.None? || data == Some([]) ==> r == Ok(None)
    ensures Faithful(c) ==> forall v :: data == Some(c.dumps(v)) ==> r == Ok(Some(v))
  {
    match data
    case None => Ok(None)
    case Some(bytes) =>
      if |bytes| == 0 then Ok(None)
      else
        match c.loads(bytes)
        case None => Err("JSONDecodeError: stored value is not a JSON document")
        case Some(v) => Ok(Some(v))
  }
}
