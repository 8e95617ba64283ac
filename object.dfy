/** Runtime values: each object reports a type tag, and Integer, Boolean and
    Null render themselves as text. String, Array and Error are here only as far
    as the builtins need them. */
module Object {
  import opened Common

  datatype ObjectType = INTEGER_OBJ | BOOLEAN_OBJ | NULL_OBJ | STRING_OBJ | ARRAY_OBJ | ERROR_OBJ

  /** The string value of each ObjectType constant. */
  function TypeName(t: ObjectType): string {
    match t
    case INTEGER_OBJ => "INTEGER"
    case BOOLEAN_OBJ => "BOOLEAN"
    case NULL_OBJ => "NULL"
    case STRING_OBJ => "STRING"
    case ARRAY_OBJ => "ARRAY"
    case ERROR_OBJ => "ERROR"
  }

  /** The tags are pairwise distinct strings. */
  lemma TypeNamesDistinct(a: ObjectType, b: ObjectType)
    ensures TypeName(a) == TypeName(b) ==> a == b
  {
  }

  datatype Object =
    | Integer(intValue: int)
    | Boolean(boolValue: bool)
    | Null
    | String(strValue: seq<Byte>)
    | Array(elements: seq<Object>)
    | Error(message: string)

  /** The type tag of an object; the tag alone tells which variant it is. */
  function Type(o: Object): (t: ObjectType)
    ensures t == INTEGER_OBJ <==> o.Integer?
    ensures t == BOOLEAN_OBJ <==> o.Boolean?
    ensures t == NULL_OBJ <==> o.Null?
    ensures t == STRING_OBJ <==> o.String?
    ensures t == ARRAY_OBJ <==> o.Array?
    ensures t == ERROR_OBJ <==> o.Error?
  {
    match o
    case Integer(_) => INTEGER_OBJ
    case Boolean(_) => BOOLEAN_OBJ
    case Null => NULL_OBJ
    case String(_) => STRING_OBJ
    case Array(_) => ARRAY_OBJ
    case Error(_) => ERROR_OBJ
  }

  /** Objects whose rendering is part of this model. */
  predicate HasInspect(o: Object) {
    o.Integer? || o.Boolean? || o.Null?
  }

  /** The text rendering: the decimal value of an Integer, `true`/`false`, `null`. */
  function Inspect(o: Object): (r: string)
    requires HasInspect(o)
    ensures |r| > 0
    ensures o.Boolean? ==> (r == "true" <==> o.boolValue) && (r == "false" <==> !o.boolValue)
    ensures o.Null? <==> r == "null"
  {
    match o
    case Integer(v) => Decimal(v)
    case Boolean(b) => if b then "true" else "false"
    case Null => "null"
  }

  /** An Integer's rendering reads back as its value, with a leading `-` exactly
      when the value is negative. */
  lemma InspectIntegerRoundTrip(v: int)
    ensures ReadDecimal(Inspect(Integer(v))) == Some(v)
    ensures Inspect(Integer(v))[0] == '-' <==> v < 0
  {
    DecimalRoundTrip(v);
  }

  /** Different objects render differently: the text determines the object. */
  lemma InspectInjective(a: Object, b: Object)
    requires HasInspect(a) && HasInspect(b)
    ensures Inspect(a) == Inspect(b) ==> a == b
  {
    if Inspect(a) == Inspect(b) {
      if a.Integer? {
        InspectIntegerRoundTrip(a.intValue);
        assert Inspect(a)[0] == '-' || IsDigit(Inspect(a)[0]);
        if b.Integer? {
          InspectIntegerRoundTrip(b.intValue);
        }
      } else if b.Integer? {
        InspectIntegerRoundTrip(b.intValue);
      }
    }
  }
}
