/**
 * JSON values, as Jackson hands them to the relay after `readValue(..., Map.class)`:
 * objects become maps, arrays become lists, `null` stays null.  Numbers are kept as
 * integers; the relay never inspects one.
 */
module Json {
  import opened Wrappers

  datatype Json =
    | JNull
    | JBool(b: bool)
    | JNum(n: int)
    | JStr(s: string)
    | JArr(items: seq<Json>)
    | JObj(fields: map<string, Json>)

  /** A Java string that may be null, written into a JSON map. */
  function NullableStr(s: Option<string>): Json {
    match s
    case Some(v) => JStr(v)
    case None => JNull
  }

  /**
   * The result of `(String) map.get(key)`: a missing key and an explicit JSON null both give
   * null; a value of any other JSON type makes the cast throw ClassCastException.
   */
  datatype StrField = Absent | Str(s: string) | NotAString {
    function ToOption(): Option<string>
      requires !NotAString?
    {
      if Str? then Some(s) else None
    }
  }

  function StringField(fields: map<string, Json>, key: string): (r: StrField)
    ensures r.Str? <==> key in fields && fields[key].JStr?
    ensures r.Str? ==> fields[key] == JStr(r.s)
    ensures r.Absent? <==> key !in fields || fields[key] == JNull
  {
    if key !in fields || fields[key] == JNull then Absent
    else if fields[key].JStr? then Str(fields[key].s)
    else NotAString
  }

  /** `StringField` undoes `NullableStr`: what was written is read back unchanged. */
  lemma StringFieldOfNullable(fields: map<string, Json>, key: string, s: Option<string>)
    requires key in fields && fields[key] == NullableStr(s)
    ensures !StringField(fields, key).NotAString?
    ensures StringField(fields, key).ToOption() == s
  {
  }
}
