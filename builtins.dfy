/** The builtin functions `len`, `push` and `spit`: each maps an argument list
    to a result object, and reports misuse as an Error object with a fixed message. */
module Builtins {
  import opened Common
  import opened Object

  /** The message for a call with the wrong number of arguments. */
  function WrongArgumentCount(got: nat, want: nat): string {
    "wrong number of arguments. got=" + Decimal(got) + ", want=" + Decimal(want)
  }

  /** `len`: the byte length of a String or the element count of an Array. */
  function Len(args: seq<Object>): (r: Object)
    ensures r.Error? || r.Integer?
    ensures r.Integer? <==> |args| == 1 && (args[0].String? || args[0].Array?)
    ensures r.Integer? ==> r.intValue >= 0
    ensures |args| != 1 ==> r == Error(WrongArgumentCount(|args|, 1))
    ensures |args| == 1 && args[0].String? ==> r == Integer(|args[0].strValue|)
    ensures |args| == 1 && args[0].Array? ==> r == Integer(|args[0].elements|)
    ensures |args| == 1 && !args[0].String? && !args[0].Array? ==>
              r == Error("argument to `len` not supported, got " + TypeName(Type(args[0])))
  {
    if |args| != 1 then Error(WrongArgumentCount(|args|, 1))
    else
      match args[0]
      case String(s) => Integer(|s|)
      case Array(elements) => Integer(|elements|)
      case _ => Error("argument to `len` not supported, got " + TypeName(Type(args[0])))
  }

  /** `push`: a new Array holding the elements of the first argument followed by the second. */
  function Push(args: seq<Object>): (r: Object)
    ensures r.Error? || r.Array?
    ensures r.Array? <==> |args| == 2 && args[0].Array?
    ensures |args| != 2 ==> r == Error(WrongArgumentCount(|args|, 2))
    ensures |args| == 2 && !args[0].Array? ==>
              r == Error("argument to `push` must be ARRAY, got " + TypeName(Type(args[0])))
    ensures |args| == 2 && args[0].Array? ==>
              var n := |args[0].elements|;
              |r.elements| == n + 1 && r.elements[..n] == args[0].elements && r.elements[n] == args[1]
  {
    if |args| != 2 then Error(WrongArgumentCount(|args|, 2))
    else if Type(args[0]) != ARRAY_OBJ then
      Error("argument to `push` must be ARRAY, got " + TypeName(Type(args[0])))
    else
      Array(args[0].elements + [args[1]])
  }

  /** The element-level work of `push` on a backing array: append the new value
      to a copy, copy that copy back over the original (which writes the same
      values), then set the last slot. The original keeps its length and values. */
  method PushElements(elements: array<Object>, v: Object) returns (newElements: array<Object>)
    modifies elements
    ensures fresh(newElements)
    ensures elements[..] == old(elements[..])
    ensures Push([Array(old(elements[..])), v]) == Array(newElements[..])
  {
    var length := elements.Length;
    newElements := new Object[length + 1];
    var i := 0;
    while i < length
      invariant 0 <= i <= length
      invariant elements[..] == old(elements[..])
      invariant newElements[..i] == elements[..i]
    {
      newElements[i] := elements[i];
      i := i + 1;
    }
    newElements[length] := v;
    var j := 0;
    while j < length
      invariant 0 <= j <= length
      invariant elements[..] == old(elements[..])
      invariant newElements[..] == old(elements[..]) + [v]
    {
      elements[j] := newElements[j];
      j := j + 1;
    }
    newElements[length] := v;
  }

  /** `len` of what `push` returns is one more than `len` of its first argument. */
  lemma LenOfPush(a: seq<Object>, v: Object)
    ensures Len([Push([Array(a), v])]) == Integer(|a| + 1)
    ensures Len([Array(a)]) == Integer(|a|)
  {
  }

  /** `spit` returns Go's nil (None here) for every argument list. */
  function Spit(args: seq<Object>): (r: Option<Object>)
    ensures r == None
  {
    None
  }

  /** The builtins registry. */
  datatype Builtin = LenBuiltin | PushBuiltin | SpitBuiltin

  /** The builtin registered under `name`, if any. */
  function Lookup(name: string): (b: Option<Builtin>)
    ensures b.Some? <==> name in {"len", "push", "spit"}
    ensures name == "len" ==> b == Some(LenBuiltin)
    ensures name == "push" ==> b == Some(PushBuiltin)
    ensures name == "spit" ==> b == Some(SpitBuiltin)
  {
    if name == "spit" then Some(SpitBuiltin)
    else if name == "len" then Some(LenBuiltin)
    else if name == "push" then Some(PushBuiltin)
    else None
  }

  /** Applies a builtin to its arguments; None is the nil object `spit` returns. */
  function Call(b: Builtin, args: seq<Object>): (r: Option<Object>)
    ensures r == None <==> b == SpitBuiltin
    ensures b == LenBuiltin ==> r == Some(Len(args))
    ensures b == PushBuiltin ==> r == Some(Push(args))
  {
    match b
    case LenBuiltin => Some(Len(args))
    case PushBuiltin => Some(Push(args))
    case SpitBuiltin => Spit(args)
  }
}
