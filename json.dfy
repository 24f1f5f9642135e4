/**
 * Android's `org.json.JSONObject` as the metadata codec uses it. The text of
 * a stored value is modelled by what the parser makes of it: an object with
 * typed members, or text that does not parse as an object. Escaping and the
 * character-level grammar are library behaviour and are not modelled.
 */
module Json {
  import opened Ints
  import opened Text
  import opened Wrappers

  /** Member values; JSON integer literals within `Long`'s range. */
  datatype JsonValue = JString(s: string) | JNumber(n: int64) | JBool(b: bool) | JNull

  datatype JsonText = JsonObject(fields: map<string, JsonValue>) | Unparseable(raw: string)

  /** Java's saturating `(int)` cast of a parsed number. */
  function Clamp32(v: int): (r: int32)
    ensures -TWO_31 <= v < TWO_31 ==> r == v
  {
    if v < -TWO_31 then -TWO_31 else if v >= TWO_31 then TWO_31 - 1 else v
  }

  function Clamp64(v: int): (r: int64)
    ensures -TWO_63 <= v < TWO_63 ==> r == v
  {
    if v < -TWO_63 then -TWO_63 else if v >= TWO_63 then TWO_63 - 1 else v
  }

  /** `optString(key)`: the member's string form, or "" when the key is absent. */
  function OptString(fields: map<string, JsonValue>, key: string): (r: string)
    ensures key !in fields ==> r == ""
    ensures key in fields && fields[key].JString? ==> r == fields[key].s
  {
    if key !in fields then ""
    else match fields[key]
      case JString(s) => s
      case JNumber(n) => DecimalText(n)
      case JBool(b) => if b then "true" else "false"
      case JNull => "null"
  }

  /** `optInt(key, fallback)`: numbers are narrowed like `Long.intValue()`, numeric strings converted, anything else falls back. */
  function OptInt(fields: map<string, JsonValue>, key: string, fallback: int32): (r: int32)
    ensures key !in fields ==> r == fallback
    ensures key in fields && fields[key].JNumber? && -TWO_31 <= fields[key].n < TWO_31 ==> r == fields[key].n
  {
    if key !in fields then fallback
    else match fields[key]
      case JNumber(n) => Wrap32(n)
      case JString(s) => (match ParseDecimal(s) case Some(v) => Clamp32(v) case None => fallback)
      case _ => fallback
  }

  /** `optLong(key, fallback)`. */
  function OptLong(fields: map<string, JsonValue>, key: string, fallback: int64): (r: int64)
    ensures key !in fields ==> r == fallback
    ensures key in fields && fields[key].JNumber? ==> r == fields[key].n
  {
    if key !in fields then fallback
    else match fields[key]
      case JNumber(n) => n
      case JString(s) => (match ParseDecimal(s) case Some(v) => Clamp64(v) case None => fallback)
      case _ => fallback
  }
}
