/** The dynamically typed values that the configuration helpers inspect: what
    a JSON or YAML parser, or a property lookup, can hand them. */
module Json {

  datatype Value =
    | VUndef
    | VNull
    | VBool(b: bool)
    | VInt(i: int)
    | VStr(s: string)
    | VArr(items: seq<Value>)
    | VObj(fields: map<string, Value>)

  /** A property lookup on a value read as a record: the field's value when
      the value is an object holding the key, and `undefined` for a missing
      property or for any property of a non-object. The ensures repeat the
      body so that proofs need not unfold it. */
  function Prop(v: Value, key: string): (r: Value)
    ensures v.VObj? && key in v.fields ==> r == v.fields[key]
    ensures !(v.VObj? && key in v.fields) ==> r == VUndef
  {
    match v
    case VObj(fields) => if key in fields then fields[key] else VUndef
    case _ => VUndef
  }

  /** The object test of the configuration helpers: the value is truthy and
      its type is "object", which JavaScript reports for arrays and objects
      and for `null`, the last being falsy. */
  function IsObject(v: Value): (b: bool)
    ensures b <==> Truthy(v) && !(v.VBool? || v.VInt? || v.VStr? || v.VUndef?)
  {
    v.VObj? || v.VArr?
  }

  /** JavaScript's `||` on two values: the first when it is truthy, else the
      second. */
  function Or(a: Value, b: Value): Value {
    if Truthy(a) then a else b
  }

  /** JavaScript truthiness: false for exactly the falsy values `undefined`,
      `null`, `false`, `0` and the empty string. */
  function Truthy(v: Value): (b: bool)
    ensures !b <==> v == VUndef || v == VNull || v == VBool(false) || v == VInt(0) || v == VStr("")
  {
    match v
    case VUndef => false
    case VNull => false
    case VBool(b) => b
    case VInt(i) => i != 0
    case VStr(s) => s != ""
    case VArr(_) => true
    case VObj(_) => true
  }
}
