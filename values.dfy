/**
  The JavaScript values that travel through an exchanger: the messages
  posted over the window channel, the request and response contents, and
  the results of application handlers.
*/
module Values {

  datatype Option<+T> = None | Some(value: T)

  /** A structured-clonable JavaScript value; numbers are modelled as integers. */
  datatype Value =
    | Undefined
    | Null
    | Bool(b: bool)
    | Num(n: int)
    | Str(s: string)
    | List(items: seq<Value>)
    | Record(fields: map<string, Value>)

  /** JavaScript truthiness, the test behind `if (v)` and `!v`. */
  predicate Truthy(v: Value) {
    match v
    case Undefined => false
    case Null => false
    case Bool(b) => b
    case Num(n) => n != 0
    case Str(s) => s != ""
    case List(_) => true
    case Record(_) => true
  }

  /** The falsy values: undefined, null, false, 0 and the empty string; every other value is truthy. */
  lemma FalsyValues(v: Value)
    ensures !Truthy(v) <==> v == Undefined || v == Null || v == Bool(false) || v == Num(0) || v == Str("")
  {
  }

  /**
    Reading property `name` of `v`, by a property access or a destructuring
    parameter alike: a TypeError (None) on undefined and null, and
    `undefined` when the property is absent. The exchanger reads only the
    properties id, content, isError, payload, type and message, which no
    primitive and no array has.
  */
  function Field(v: Value, name: string): (r: Option<Value>)
    ensures r.None? <==> v.Undefined? || v.Null?
    ensures v.Record? && name in v.fields ==> r == Some(v.fields[name])
    ensures !v.Undefined? && !v.Null? && !(v.Record? && name in v.fields) ==> r == Some(Undefined)
  {
    match v
    case Undefined => None
    case Null => None
    case Record(fields) => Some(if name in fields then fields[name] else Undefined)
    case _ => Some(Undefined)
  }
}
