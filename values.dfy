/**
 * The evaluator's two universes: formulas (JSON trees handed to `evaluate`)
 * and runtime values (what `evaluate` and the built-in operations return).
 * Numbers are modelled as mathematical integers.
 */
module Values {
  import opened Wrappers
  import opened Operations

  /**
   * A JSON formula. An object node keeps the three fields `evaluate` reads:
   * `type` (its kind), `name`, and `args`, which may be missing (None) or
   * hold any JSON value.
   */
  datatype Formula =
    | FNull
    | FBool(b: bool)
    | FNum(n: int)
    | FStr(s: string)
    | FList(items: seq<Formula>)
    | FNode(kind: string, name: string, args: Option<Formula>)

  /**
   * A runtime value. `Fun(op, bound)` is the registered implementation of
   * `op` with `bound` arguments bound in front of it; `Obj` is a plain
   * object node handed back unchanged by `evaluate`.
   */
  datatype Value =
    | Null
    | Undefined
    | Bool(b: bool)
    | Num(n: int)
    | Str(s: string)
    | Arr(items: seq<Value>)
    | Fun(op: Op, bound: seq<Value>)
    | Obj(kind: string, name: string, args: Option<Formula>)

  /** What `evaluate` and the operations can throw. */
  datatype Error =
    | UnknownOperation(name: string)   // `invalid function`
    | MissingArguments                 // `key args missing from function object`
    | MalformedArguments               // `typeof args is ... expected object`
    | ArityMismatch(expected: nat, received: nat)
    | FullyApplied(arity: nat)         // a reference node given every argument
    | TypeError                        // a JavaScript TypeError from inside an operation
    | RangeError                       // an array length JavaScript refuses
    | SyntaxError                      // `JSON.parse` given something that is not JSON text
    | OutOfFuel                        // the bound on nested callable invocations was reached
    | Unmodelled                       // type coercion or floating point, outside this model

  type Outcome = Result<Value, Error>

  /** JavaScript truthiness (`!!x`). */
  predicate Truthy(v: Value) {
    match v
    case Null | Undefined => false
    case Bool(b) => b
    case Num(n) => n != 0
    case Str(s) => s != []
    case Arr(_) | Fun(_, _) | Obj(_, _, _) => true
  }

  /** Truthiness of an unevaluated JSON value, as `!fargs` tests it. */
  predicate FormulaTruthy(f: Formula) {
    match f
    case FNull => false
    case FBool(b) => b
    case FNum(n) => n != 0
    case FStr(s) => s != []
    case FList(_) | FNode(_, _, _) => true
  }

  /** A one-character string, as JavaScript produces when it takes a string apart. */
  function CharValue(c: char): Value {
    Str([c])
  }

  /** The values a `for ... of` loop or a spread visits: array items, or a string's characters. */
  function Iterate(v: Value): (r: Option<seq<Value>>)
    ensures v.Arr? ==> r == Some(v.items)
    ensures v.Str? ==> r.Some? && |r.value| == |v.s| && forall i :: 0 <= i < |v.s| ==> r.value[i] == Str([v.s[i]])
    ensures !v.Arr? && !v.Str? ==> r.None?
  {
    match v
    case Arr(items) => Some(items)
    case Str(s) => Some(seq(|s|, i requires 0 <= i < |s| => CharValue(s[i])))
    case _ => None
  }

  /** Plain JSON data: no function, no `undefined`, no node that `evaluate` would act on. */
  ghost predicate Inert(v: Value) {
    match v
    case Null | Bool(_) | Num(_) | Str(_) => true
    case Undefined | Fun(_, _) => false
    case Arr(items) => forall i :: 0 <= i < |items| ==> Inert(items[i])
    case Obj(kind, _, _) => kind != "function" && kind != "reference"
  }

  /** The formula that spells out an inert value. */
  ghost function Quote(v: Value): (f: Formula)
    requires Inert(v)
  {
    match v
    case Null => FNull
    case Bool(b) => FBool(b)
    case Num(n) => FNum(n)
    case Str(s) => FStr(s)
    case Arr(items) => FList(seq(|items|, i requires 0 <= i < |items| => Quote(items[i])))
    case Obj(kind, name, args) => FNode(kind, name, args)
  }

  /**
   * `JSON.stringify` followed by `JSON.parse`: functions and `undefined`
   * inside an array become `null`; at the top level they leave no JSON text
   * and the parse fails.
   */
  function JsonCopy(v: Value): (r: Outcome)
    ensures r.Success? <==> !v.Undefined? && !v.Fun?
    ensures r.Failure? ==> r.error == SyntaxError
  {
    match v
    case Undefined | Fun(_, _) => Failure(SyntaxError)
    case _ => Success(JsonElement(v))
  }

  /** How a value comes back from the JSON round trip when it sits inside an array. */
  function JsonElement(v: Value): (r: Value)
    ensures !r.Undefined? && !r.Fun?
    ensures v.Arr? <==> r.Arr?
    ensures v.Arr? ==> |r.items| == |v.items|
    ensures v.Arr? ==> forall i :: 0 <= i < |v.items| ==> r.items[i] == JsonElement(v.items[i])
    ensures v.Undefined? || v.Fun? ==> r == Null
    ensures !v.Arr? && !v.Undefined? && !v.Fun? ==> r == v
  {
    match v
    case Undefined | Fun(_, _) => Null
    case Arr(items) => Arr(seq(|items|, i requires 0 <= i < |items| => JsonElement(items[i])))
    case _ => v
  }

  /** A value without functions or `undefined` anywhere survives the round trip unchanged. */
  ghost predicate JsonData(v: Value) {
    match v
    case Undefined | Fun(_, _) => false
    case Arr(items) => forall i :: 0 <= i < |items| ==> JsonData(items[i])
    case _ => true
  }

  lemma {:induction false} JsonCopyOfData(v: Value)
    requires JsonData(v)
    ensures JsonCopy(v) == Success(v)
  {
    JsonElementOfData(v);
  }

  lemma {:induction false} JsonElementOfData(v: Value)
    requires JsonData(v)
    ensures JsonElement(v) == v
  {
    if v.Arr? {
      forall i | 0 <= i < |v.items|
        ensures JsonElement(v.items[i]) == v.items[i]
      {
        JsonElementOfData(v.items[i]);
      }
    }
  }

  /** What the round trip returns is JSON data, so copying it again changes nothing. */
  lemma {:induction false} JsonCopyIdempotent(v: Value)
    requires JsonCopy(v).Success?
    ensures JsonCopy(JsonCopy(v).value) == JsonCopy(v)
  {
    JsonElementIsData(v);
    JsonCopyOfData(JsonElement(v));
  }

  lemma {:induction false} JsonElementIsData(v: Value)
    ensures JsonData(JsonElement(v))
  {
    if v.Arr? {
      forall i | 0 <= i < |v.items|
        ensures JsonData(JsonElement(v.items[i]))
      {
        JsonElementIsData(v.items[i]);
      }
    }
  }
}
