/**
 * The registry entries that take no callable: arithmetic, the list and
 * string accessors, the boolean operators and the comparisons, each as
 * JavaScript evaluates its one-line body on the model's values.
 * Where JavaScript would coerce one type into another, or produce a
 * floating-point result an integer cannot hold, the outcome is the error
 * `Unmodelled`; where it would throw, it is the error JavaScript throws.
 */
module Builtins {
  import opened Wrappers
  import opened Operations
  import opened Values
  import Lists
  import Text

  /** The largest length `Array.from` accepts before throwing a RangeError (2^32 - 1). */
  const MaxArrayLength: int := 4294967295

  /** The numbers held by a sequence of values, when every one of them is a number. */
  function Numbers(vs: seq<Value>): (r: Option<seq<int>>)
    ensures r.Some? <==> forall i :: 0 <= i < |vs| ==> vs[i].Num?
    ensures r.Some? ==> |r.value| == |vs| && forall i :: 0 <= i < |vs| ==> vs[i] == Num(r.value[i])
  {
    if vs == [] then Some([])
    else if !vs[0].Num? then None
    else
      match Numbers(vs[1..])
      case None =>
        assert !vs[1..][0].Num? || exists i :: 0 <= i < |vs| - 1 && !vs[1..][i].Num?;
        None
      case Some(ns) => Some([vs[0].n] + ns)
  }

  /** The values holding the given numbers. */
  function NumValues(ns: seq<int>): (r: seq<Value>)
    ensures |r| == |ns| && Numbers(r) == Some(ns)
  {
    var r := seq(|ns|, i requires 0 <= i < |ns| => Num(ns[i]));
    assert Numbers(r).value == ns;
    r
  }

  /** The smallest of a non-empty list of numbers, as `Math.min(...xs)` finds it. */
  function Least(xs: seq<int>): (m: int)
    requires xs != []
    ensures exists i :: 0 <= i < |xs| && xs[i] == m
    ensures forall i :: 0 <= i < |xs| ==> m <= xs[i]
  {
    if |xs| == 1 then xs[0]
    else
      var rest := Least(xs[1..]);
      assert forall i :: 1 <= i < |xs| ==> xs[i] == xs[1..][i - 1];
      if xs[0] <= rest then xs[0] else rest
  }

  /** The largest of a non-empty list of numbers, as `Math.max(...xs)` finds it. */
  function Greatest(xs: seq<int>): (m: int)
    requires xs != []
    ensures exists i :: 0 <= i < |xs| && xs[i] == m
    ensures forall i :: 0 <= i < |xs| ==> xs[i] <= m
  {
    if |xs| == 1 then xs[0]
    else
      var rest := Greatest(xs[1..]);
      assert forall i :: 1 <= i < |xs| ==> xs[i] == xs[1..][i - 1];
      if xs[0] >= rest then xs[0] else rest
  }

  /** `xs.reduce((a, b) => a * b, 1)`: multiply from the left, starting at 1. */
  function ProductOf(xs: seq<int>): int {
    if xs == [] then 1 else ProductOf(xs[..|xs| - 1]) * xs[|xs| - 1]
  }

  function Factorial(n: nat): nat {
    if n == 0 then 1 else n * Factorial(n - 1)
  }

  /** The product of the range 1..n is n factorial (the factorial formula). */
  lemma {:induction false} ProductOfRange(n: nat)
    ensures ProductOf(Lists.Range(1, n)) == Factorial(n)
  {
    if n > 0 {
      Lists.RangeSnoc(1, n);
      var r := Lists.Range(1, n);
      assert r[..|r| - 1] == Lists.Range(1, n - 1);
      ProductOfRange(n - 1);
    }
  }

  /** `x + y` on two numbers or two strings; any other pair is coerced. */
  function Plus(x: Value, y: Value): (r: Outcome)
    ensures r.Success? <==> (x.Num? && y.Num?) || (x.Str? && y.Str?)
    ensures r.Failure? ==> r.error == Unmodelled
    ensures x.Num? && y.Num? ==> r == Success(Num(x.n + y.n))
    ensures x.Str? && y.Str? ==> r == Success(Str(x.s + y.s))
  {
    if x.Num? && y.Num? then Success(Num(x.n + y.n))
    else if x.Str? && y.Str? then Success(Str(x.s + y.s))
    else Failure(Unmodelled)
  }

  /** `x - y` on two numbers. */
  function Minus(x: Value, y: Value): (r: Outcome)
    ensures r.Success? <==> x.Num? && y.Num?
    ensures x.Num? && y.Num? ==> r == Success(Num(x.n - y.n))
  {
    if x.Num? && y.Num? then Success(Num(x.n - y.n)) else Failure(Unmodelled)
  }

  /** `x * y` on two numbers. */
  function Times(x: Value, y: Value): (r: Outcome)
    ensures r.Success? <==> x.Num? && y.Num?
    ensures x.Num? && y.Num? ==> r == Success(Num(x.n * y.n))
  {
    if x.Num? && y.Num? then Success(Num(x.n * y.n)) else Failure(Unmodelled)
  }

  /** `x / y` when the quotient is an integer; any other quotient is a fraction or infinite. */
  function Over(x: Value, y: Value): (r: Outcome)
    ensures r.Success? ==> x.Num? && y.Num? && y.n != 0 && r.value.Num? && r.value.n * y.n == x.n
  {
    if x.Num? && y.Num? && y.n != 0 && x.n % y.n == 0 then Success(Num(x.n / y.n)) else Failure(Unmodelled)
  }

  /** Adding then subtracting the same number gives the original number back. */
  lemma MinusUndoesPlus(a: int, b: int)
    ensures Plus(Num(a), Num(b)).Success? && Minus(Plus(Num(a), Num(b)).value, Num(b)) == Success(Num(a))
  {
  }

  /** Multiplying then dividing by the same non-zero number gives the original number back. */
  lemma OverUndoesTimes(a: int, b: int)
    requires b != 0
    ensures Times(Num(a), Num(b)).Success? && Over(Times(Num(a), Num(b)).value, Num(b)) == Success(Num(a))
  {
    DivisionOfMultiple(a, b);
  }

  /** A multiple of b leaves no remainder, and dividing it by b gives the factor back. */
  lemma DivisionOfMultiple(a: int, b: int)
    requires b != 0
    ensures (a * b) % b == 0 && (a * b) / b == a
  {
    var q, r := (a * b) / b, (a * b) % b;
    assert (a - q) * b == r;
    if a != q {
      ProductMagnitude(a - q, b);
    }
  }

  /** A non-zero multiple of b is at least as far from zero as b. */
  lemma ProductMagnitude(k: int, b: int)
    requires k != 0
    ensures k * b >= b || k * b <= -b
    ensures b < 0 ==> k * b >= -b || k * b <= b
  {
    var m := if k > 0 then k else -k;
    var c := if b >= 0 then b else -b;
    NonNegativeProduct(m - 1, c);
    assert m * c == (m - 1) * c + c;
    assert k * b == m * c || k * b == -(m * c);
  }

  lemma NonNegativeProduct(m: int, c: int)
    requires 0 <= m && 0 <= c
    ensures 0 <= m * c
  {
  }

  /** `Math.min(x, y)` on two numbers: the smaller one. */
  function Smaller(x: Value, y: Value): (r: Outcome)
    ensures r.Success? <==> x.Num? && y.Num?
    ensures r.Success? ==> (r.value == x || r.value == y) && r.value.Num? && r.value.n <= x.n && r.value.n <= y.n
  {
    if x.Num? && y.Num? then Success(if x.n <= y.n then x else y) else Failure(Unmodelled)
  }

  /** `Math.max(x, y)` on two numbers: the larger one. */
  function Larger(x: Value, y: Value): (r: Outcome)
    ensures r.Success? <==> x.Num? && y.Num?
    ensures r.Success? ==> (r.value == x || r.value == y) && r.value.Num? && x.n <= r.value.n && y.n <= r.value.n
  {
    if x.Num? && y.Num? then Success(if x.n >= y.n then x else y) else Failure(Unmodelled)
  }

  /**
   * `Math.min(...xs)`: spreading something that is not iterable throws;
   * an empty spread gives Infinity and string characters are coerced.
   */
  function Minimum(xs: Value): (r: Outcome)
    ensures r.Success? <==> xs.Arr? && xs.items != [] && Numbers(xs.items).Some?
    ensures r.Success? ==> r.value.Num? && r.value in xs.items && forall i :: 0 <= i < |xs.items| ==> r.value.n <= xs.items[i].n
    ensures !xs.Arr? && !xs.Str? ==> r == Failure(TypeError)
  {
    match xs
    case Arr(items) =>
      if items == [] then Failure(Unmodelled)
      else
        (match Numbers(items)
         case None => Failure(Unmodelled)
         case Some(ns) =>
           var m := Least(ns);
           assert exists i :: 0 <= i < |items| && items[i] == Num(m);
           Success(Num(m)))
    case Str(_) => Failure(Unmodelled)
    case _ => Failure(TypeError)
  }

  /** `Math.max(...xs)`, failing as `minimum` does. */
  function Maximum(xs: Value): (r: Outcome)
    ensures r.Success? <==> xs.Arr? && xs.items != [] && Numbers(xs.items).Some?
    ensures r.Success? ==> r.value.Num? && r.value in xs.items && forall i :: 0 <= i < |xs.items| ==> xs.items[i].n <= r.value.n
    ensures !xs.Arr? && !xs.Str? ==> r == Failure(TypeError)
  {
    match xs
    case Arr(items) =>
      if items == [] then Failure(Unmodelled)
      else
        (match Numbers(items)
         case None => Failure(Unmodelled)
         case Some(ns) =>
           var m := Greatest(ns);
           assert exists i :: 0 <= i < |items| && items[i] == Num(m);
           Success(Num(m)))
    case Str(_) => Failure(Unmodelled)
    case _ => Failure(TypeError)
  }

  /** `product`: only arrays have `reduce`; a non-number element would be coerced. */
  function Product(xs: Value): (r: Outcome)
    ensures r.Success? <==> xs.Arr? && Numbers(xs.items).Some?
    ensures r.Success? ==> r == Success(Num(ProductOf(Numbers(xs.items).value)))
    ensures !xs.Arr? ==> r == Failure(TypeError)
  {
    match xs
    case Arr(items) =>
      (match Numbers(items)
       case None => Failure(Unmodelled)
       case Some(ns) => Success(Num(ProductOf(ns))))
    case _ => Failure(TypeError)
  }

  /**
   * `xs[i]` with a number index: an element or character when the index is
   * in range, `undefined` otherwise; reading from null or undefined throws.
   * A non-number index would look up a named property.
   */
  function Member(xs: Value, i: Value): (r: Outcome)
    ensures r.Success? ==> i.Num?
    ensures i.Num? && xs.Arr? && 0 <= i.n < |xs.items| ==> r == Success(xs.items[i.n])
    ensures i.Num? && xs.Str? && 0 <= i.n < |xs.s| ==> r == Success(CharValue(xs.s[i.n]))
    ensures i.Num? && (xs.Arr? || xs.Str?) && !(0 <= i.n < |Iterate(xs).value|) ==> r == Success(Undefined)
    ensures xs.Null? || xs.Undefined? ==> r == Failure(TypeError)
  {
    match xs
    case Null | Undefined => Failure(TypeError)
    case Arr(items) =>
      if !i.Num? then Failure(Unmodelled)
      else if 0 <= i.n < |items| then Success(items[i.n]) else Success(Undefined)
    case Str(s) =>
      if !i.Num? then Failure(Unmodelled)
      else if 0 <= i.n < |s| then Success(CharValue(s[i.n])) else Success(Undefined)
    case _ => if i.Num? then Success(Undefined) else Failure(Unmodelled)
  }

  /** `xs.slice(1)`: everything after the first element or character. */
  function Tail(xs: Value): (r: Outcome)
    ensures xs.Arr? && xs.items != [] ==> r == Success(Arr(xs.items[1..]))
    ensures xs.Str? && xs.s != [] ==> r == Success(Str(xs.s[1..]))
    ensures (xs.Arr? && xs.items == []) || (xs.Str? && xs.s == []) ==> r == Success(xs)
    ensures !xs.Arr? && !xs.Str? ==> r == Failure(TypeError)
  {
    match xs
    case Arr(items) =>
      assert items != [] ==> items[1..|items|] == items[1..];
      Success(Arr(Lists.Slice(items, 1, |items|)))
    case Str(s) =>
      assert s != [] ==> s[1..|s|] == s[1..];
      Success(Str(Lists.Slice(s, 1, |s|)))
    case _ => Failure(TypeError)
  }

  /** `[x, ...xs]`: the value in front of the items (or characters) of an iterable. */
  function Cons(x: Value, xs: Value): (r: Outcome)
    ensures r.Success? <==> xs.Arr? || xs.Str?
    ensures r.Success? ==> r == Success(Arr([x] + Iterate(xs).value))
    ensures r.Failure? ==> r.error == TypeError
  {
    match Iterate(xs)
    case None => Failure(TypeError)
    case Some(vs) => Success(Arr([x] + vs))
  }

  /** `xs.slice(0, n)`: at most the first n elements; a negative n counts from the end. */
  function Take(xs: Value, n: Value): (r: Outcome)
    ensures n.Num? && 0 <= n.n && xs.Arr? ==> r == Success(Arr(xs.items[..if n.n < |xs.items| then n.n else |xs.items|]))
    ensures n.Num? && 0 <= n.n && xs.Str? ==> r == Success(Str(xs.s[..if n.n < |xs.s| then n.n else |xs.s|]))
    ensures !xs.Arr? && !xs.Str? ==> r == Failure(TypeError)
  {
    match xs
    case Arr(items) => if n.Num? then Success(Arr(Lists.Slice(items, 0, n.n))) else Failure(Unmodelled)
    case Str(s) => if n.Num? then Success(Str(Lists.Slice(s, 0, n.n))) else Failure(Unmodelled)
    case _ => Failure(TypeError)
  }

  /** `reverse`: a copy of an array in reverse order, or a string with its characters reversed. */
  function Reverse(xs: Value): (r: Outcome)
    ensures r.Success? <==> xs.Arr? || xs.Str?
    ensures xs.Arr? ==> r.Success? && r.value.Arr? && |r.value.items| == |xs.items|
    ensures xs.Str? ==> r.Success? && r.value.Str? && |r.value.s| == |xs.s|
    ensures r.Failure? ==> r.error == TypeError
  {
    match xs
    case Arr(items) => Success(Arr(Lists.Reverse(items)))
    case Str(s) => Success(Str(Lists.Reverse(s)))
    case _ => Failure(TypeError)
  }

  /** `xs.split(x)` with a string separator: the pieces between its occurrences. */
  function Split(xs: Value, sep: Value): (r: Outcome)
    ensures r.Success? <==> xs.Str? && sep.Str?
    ensures r.Success? ==> r.value.Arr? && forall i :: 0 <= i < |r.value.items| ==> r.value.items[i].Str?
    ensures !xs.Str? ==> r == Failure(TypeError)
  {
    match xs
    case Str(s) =>
      if sep.Str? then
        var parts := Text.Split(s, sep.s);
        Success(Arr(seq(|parts|, i requires 0 <= i < |parts| => Str(parts[i]))))
      else Failure(Unmodelled)
    case _ => Failure(TypeError)
  }

  /**
   * `xs.length`: the number of items or characters; for a callable the
   * number of parameters still missing; `undefined` for any other value
   * that has no such property.
   */
  function Length(xs: Value): (r: Outcome)
    ensures xs.Arr? ==> r == Success(Num(|xs.items|))
    ensures xs.Str? ==> r == Success(Num(|xs.s|))
    ensures xs.Fun? ==> r.Success? && r.value.Num? && 0 <= r.value.n <= Arity(xs.op)
    ensures xs.Fun? && |xs.bound| <= Arity(xs.op) ==> r == Success(Num(Arity(xs.op) - |xs.bound|))
    ensures xs.Null? || xs.Undefined? ==> r == Failure(TypeError)
  {
    match xs
    case Null | Undefined => Failure(TypeError)
    case Arr(items) => Success(Num(|items|))
    case Str(s) => Success(Num(|s|))
    case Fun(op, bound) => Success(Num(if |bound| < Arity(op) then Arity(op) - |bound| else 0))
    case _ => Success(Undefined)
  }

  /** `xs.toUpperCase()` on a string of ASCII characters. */
  function ToUpper(xs: Value): (r: Outcome)
    ensures r.Success? ==> xs.Str? && r.value.Str? && |r.value.s| == |xs.s|
    ensures r.Success? ==> forall i :: 0 <= i < |xs.s| ==> !('a' <= r.value.s[i] <= 'z')
    ensures !xs.Str? ==> r == Failure(TypeError)
  {
    match xs
    case Str(s) =>
      (match Text.ToUpperAscii(s)
       case Some(u) => Success(Str(u))
       case None => Failure(Unmodelled))
    case _ => Failure(TypeError)
  }

  /** `xs.toLower()` as written: strings have no `toLower` method, so every call throws. */
  function ToLowerAsWritten(xs: Value): (r: Outcome)
    ensures r == Failure(TypeError)
  {
    Failure(TypeError)
  }

  /** `xs.toLowerCase()`, as evidently intended, on a string of ASCII characters. */
  function ToLower(xs: Value): (r: Outcome)
    ensures r.Success? ==> xs.Str? && r.value.Str? && |r.value.s| == |xs.s|
    ensures r.Success? ==> forall i :: 0 <= i < |xs.s| ==> !('A' <= r.value.s[i] <= 'Z')
    ensures !xs.Str? ==> r == Failure(TypeError)
  {
    match xs
    case Str(s) =>
      (match Text.ToLowerAscii(s)
       case Some(l) => Success(Str(l))
       case None => Failure(Unmodelled))
    case _ => Failure(TypeError)
  }

  /** toUpper after toLower gives what toUpper alone gives. */
  lemma ToUpperOfToLower(xs: Value)
    requires ToLower(xs).Success?
    ensures ToUpper(ToLower(xs).value) == ToUpper(xs)
  {
    Text.UpperOfLower(xs.s);
  }

  /** `toLower('ABC')` throws as written; lower-casing gives 'abc'. */
  lemma ToLowerFinding()
    ensures ToLowerAsWritten(Str("ABC")) == Failure(TypeError)
    ensures ToLower(Str("ABC")) == Success(Str("abc"))
  {
    var w := "ABC";
    assert forall i :: 0 <= i < |w| ==> w[i] < '\U{0080}';
    var l := Text.ToLowerAscii(w).value;
    assert l[0] == 'a' && l[1] == 'b' && l[2] == 'c';
    assert l == "abc";
  }

  /** `trim`, `trimLeft` or `trimRight` on a string. */
  function TrimBy(op: Op, xs: Value): (r: Outcome)
    requires op == Trim || op == TrimLeft || op == TrimRight
    ensures r.Success? <==> xs.Str?
    ensures r.Success? ==> r.value.Str? && |r.value.s| <= |xs.s|
    ensures r.Failure? ==> r.error == TypeError
  {
    match xs
    case Str(s) =>
      Success(Str(if op == Trim then Text.Trim(s) else if op == TrimLeft then Text.TrimStart(s) else Text.TrimEnd(s)))
    case _ => Failure(TypeError)
  }

  /** `x && y`: the first operand when it is falsy, the second otherwise. */
  function Conjunction(x: Value, y: Value): (r: Value)
    ensures r == x || r == y
    ensures Truthy(x) ==> r == y
    ensures !Truthy(x) ==> r == x
    ensures Truthy(r) <==> Truthy(x) && Truthy(y)
  {
    if Truthy(x) then y else x
  }

  /** `x || y`: the first operand when it is truthy, the second otherwise. */
  function Disjunction(x: Value, y: Value): (r: Value)
    ensures r == x || r == y
    ensures Truthy(x) ==> r == x
    ensures !Truthy(x) ==> r == y
    ensures Truthy(r) <==> Truthy(x) || Truthy(y)
  {
    if Truthy(x) then x else y
  }

  /** `!x`, and with it `isTrue` (`!!x`) and `isFalse` (`!!!x`). */
  function Negation(x: Value): (r: Value)
    ensures r.Bool? && (r.b <==> !Truthy(x))
  {
    Bool(!Truthy(x))
  }

  /** De Morgan's law holds for the truthiness of `&&`, `||` and `!`. */
  lemma DeMorgan(x: Value, y: Value)
    ensures Negation(Conjunction(x, y)) == Disjunction(Negation(x), Negation(y))
    ensures Negation(Disjunction(x, y)) == Conjunction(Negation(x), Negation(y))
  {
  }

  /** Double negation is a boolean that agrees with the original value's truthiness. */
  lemma DoubleNegation(x: Value)
    ensures Negation(Negation(x)) == Bool(Truthy(x))
    ensures Negation(Negation(Negation(x))) == Negation(x)
  {
  }

  /** Whether two operands are of a kind the relational operators compare without coercion. */
  predicate Comparable(x: Value, y: Value) {
    (x.Num? && y.Num?) || (x.Str? && y.Str?)
  }

  /**
   * `x < y` on two numbers or two strings (strings in code-point order);
   * `>`, `<=` and `>=` follow from it with the operands swapped or the
   * answer negated, as ECMA-262 section 13.10.1 defines them.
   */
  function Below(x: Value, y: Value): (r: Outcome)
    ensures r.Success? <==> Comparable(x, y)
    ensures r.Success? ==> r.value.Bool?
    ensures x.Num? && y.Num? ==> r == Success(Bool(x.n < y.n))
    ensures x.Str? && y.Str? ==> r == Success(Bool(Text.Less(x.s, y.s)))
  {
    if x.Num? && y.Num? then Success(Bool(x.n < y.n))
    else if x.Str? && y.Str? then Success(Bool(Text.Less(x.s, y.s)))
    else Failure(Unmodelled)
  }

  /** The relational operators `>`, `>=`, `<` and `<=`. */
  function Compare(op: Op, x: Value, y: Value): (r: Outcome)
    requires op == Gt || op == Ge || op == Lt || op == Le
    ensures r.Success? <==> Comparable(x, y)
    ensures r.Success? ==> r.value.Bool?
    ensures op == Lt ==> r == Below(x, y)
    ensures op == Gt ==> r == Below(y, x)
    ensures op == Le && Comparable(x, y) ==> r == Success(Bool(!Below(y, x).value.b))
    ensures op == Ge && Comparable(x, y) ==> r == Success(Bool(!Below(x, y).value.b))
  {
    match op
    case Lt => Below(x, y)
    case Gt => Below(y, x)
    case Le => (match Below(y, x) case Success(b) => Success(Negation(b)) case Failure(e) => Failure(e))
    case Ge => (match Below(x, y) case Success(b) => Success(Negation(b)) case Failure(e) => Failure(e))
  }

  /**
   * `x === y`. Primitives are equal when they have the same type and
   * value; values of different types are never equal. Two arrays, two
   * callables or two objects are compared by identity, outside the model.
   */
  function StrictEquals(x: Value, y: Value): (r: Outcome)
    ensures r.Success? ==> r.value.Bool?
    ensures r.Success? ==> (r.value.b <==> x == y)
    ensures r.Failure? <==> (x.Arr? && y.Arr?) || (x.Fun? && y.Fun?) || (x.Obj? && y.Obj?)
  {
    match x
    case Null => Success(Bool(y.Null?))
    case Undefined => Success(Bool(y.Undefined?))
    case Bool(a) => Success(Bool(y.Bool? && y.b == a))
    case Num(a) => Success(Bool(y.Num? && y.n == a))
    case Str(a) => Success(Bool(y.Str? && y.s == a))
    case Arr(_) => if y.Arr? then Failure(Unmodelled) else Success(Bool(false))
    case Fun(_, _) => if y.Fun? then Failure(Unmodelled) else Success(Bool(false))
    case Obj(_, _, _) => if y.Obj? then Failure(Unmodelled) else Success(Bool(false))
  }

  /**
   * Exactly one of `x < y`, `x === y`, `x > y` holds for two numbers or two
   * strings, and `x >= y` holds exactly when `x > y` or `x === y` does.
   */
  lemma {:induction false} CompareTrichotomy(x: Value, y: Value)
    requires Comparable(x, y)
    ensures var lt, eq, gt := Compare(Lt, x, y).value.b, StrictEquals(x, y).value.b, Compare(Gt, x, y).value.b;
      (lt || eq || gt) && !(lt && eq) && !(lt && gt) && !(eq && gt)
    ensures Compare(Ge, x, y).value.b <==> Compare(Gt, x, y).value.b || StrictEquals(x, y).value.b
    ensures Compare(Le, x, y).value.b <==> Compare(Lt, x, y).value.b || StrictEquals(x, y).value.b
  {
    if x.Str? {
      Text.LessTrichotomy(x.s, y.s);
      if x.s == y.s {
        LessIrreflexive(x.s);
      }
    }
  }

  lemma {:induction false} LessIrreflexive(s: string)
    ensures !Text.Less(s, s)
  {
    if s != [] {
      LessIrreflexive(s[1..]);
    }
  }

  /**
   * `..`: the integers from a to b. The length `b - a + 1` must not
   * exceed 2^32 - 1; a non-number bound would be coerced.
   */
  function RangeOf(a: Value, b: Value): (r: Outcome)
    ensures r.Success? <==> a.Num? && b.Num? && b.n - a.n + 1 <= MaxArrayLength
    ensures r.Success? ==> r.value.Arr? && Numbers(r.value.items) == Some(Lists.Range(a.n, b.n))
    ensures a.Num? && b.Num? && b.n - a.n + 1 > MaxArrayLength ==> r == Failure(RangeError)
  {
    if !a.Num? || !b.Num? then Failure(Unmodelled)
    else if b.n - a.n + 1 > MaxArrayLength then Failure(RangeError)
    else Success(Arr(NumValues(Lists.Range(a.n, b.n))))
  }

  /** `..` gives b - a + 1 consecutive integers starting at a, or none when b < a. */
  lemma RangeOfEntries(a: int, b: int)
    requires b - a + 1 <= MaxArrayLength
    ensures RangeOf(Num(a), Num(b)).Success?
    ensures var items := RangeOf(Num(a), Num(b)).value.items;
      && |items| == (if a <= b then b - a + 1 else 0)
      && forall i :: 0 <= i < |items| ==> items[i] == Num(a + i)
  {
    var items := RangeOf(Num(a), Num(b)).value.items;
    assert Numbers(items) == Some(Lists.Range(a, b));
  }

  /**
   * `++`: two arrays are concatenated; anything else goes to `+`, which
   * adds two numbers and joins two strings.
   */
  function Concat(xs: Value, ys: Value): (r: Outcome)
    ensures xs.Arr? && ys.Arr? ==> r == Success(Arr(xs.items + ys.items))
    ensures !(xs.Arr? && ys.Arr?) ==> r == Plus(xs, ys)
  {
    if xs.Arr? && ys.Arr? then Success(Arr(xs.items + ys.items)) else Plus(xs, ys)
  }

  /**
   * `id`: the JSON round trip. It throws a SyntaxError on `undefined` or a
   * callable, and otherwise gives plain JSON data.
   */
  function Identity(x: Value): (r: Outcome)
    ensures r.Failure? <==> x.Undefined? || x.Fun?
    ensures r.Failure? ==> r.error == SyntaxError
    ensures r.Success? ==> JsonData(r.value)
  {
    JsonElementIsData(x);
    JsonCopy(x)
  }

  /** `id` gives plain JSON data back unchanged, so applying it twice is applying it once. */
  lemma IdentityOfData(x: Value)
    requires JsonData(x)
    ensures Identity(x) == Success(x)
    ensures Identity(Identity(x).value) == Identity(x)
  {
    JsonCopyOfData(x);
  }

  /** The tail of a cons is the list it was put in front of; its head is the new element. */
  lemma TailOfCons(x: Value, xs: seq<Value>)
    ensures Cons(x, Arr(xs)).Success?
    ensures Tail(Cons(x, Arr(xs)).value) == Success(Arr(xs))
    ensures Member(Cons(x, Arr(xs)).value, Num(0)) == Success(x)
    ensures Length(Cons(x, Arr(xs)).value) == Success(Num(|xs| + 1))
  {
    assert ([x] + xs)[1..] == xs;
  }

  /** Reversing an array or a string twice gives it back. */
  lemma ReverseInvolution(xs: Value)
    requires xs.Arr? || xs.Str?
    ensures Reverse(xs).Success? && Reverse(Reverse(xs).value) == Success(xs)
  {
    if xs.Arr? {
      Lists.ReverseInvolution(xs.items);
    } else {
      Lists.ReverseInvolution(xs.s);
    }
  }

  /** Reversing maps the i-th element to position length - 1 - i. */
  lemma ReverseMember(xs: Value, i: int)
    requires xs.Arr? || xs.Str?
    requires 0 <= i < |Iterate(xs).value|
    ensures Member(Reverse(xs).value, Num(i)) == Member(xs, Num(|Iterate(xs).value| - 1 - i))
  {
  }

  /** Concatenating two arrays adds their lengths and keeps both parts in order. */
  lemma ConcatArrays(xs: seq<Value>, ys: seq<Value>, i: int)
    ensures Concat(Arr(xs), Arr(ys)).Success?
    ensures Length(Concat(Arr(xs), Arr(ys)).value) == Success(Num(|xs| + |ys|))
    ensures 0 <= i < |xs| ==> Member(Concat(Arr(xs), Arr(ys)).value, Num(i)) == Success(xs[i])
    ensures 0 <= i < |ys| ==> Member(Concat(Arr(xs), Arr(ys)).value, Num(|xs| + i)) == Success(ys[i])
  {
  }

  /** Taking n elements of an array keeps its first n elements, and no more than it has. */
  lemma TakePrefix(xs: seq<Value>, n: nat)
    ensures Take(Arr(xs), Num(n)).Success?
    ensures var t := Take(Arr(xs), Num(n)).value.items;
      |t| == (if n < |xs| then n else |xs|) && t <= xs
  {
  }

  /** Joining the pieces of a split with the separator gives back the string. */
  lemma SplitJoin(s: string, sep: string)
    ensures Split(Str(s), Str(sep)).Success?
    ensures var items := Split(Str(s), Str(sep)).value.items;
      Text.Join(seq(|items|, i requires 0 <= i < |items| => items[i].s), sep) == s
  {
    var parts := Text.Split(s, sep);
    var items := Split(Str(s), Str(sep)).value.items;
    assert seq(|items|, i requires 0 <= i < |items| => items[i].s) == parts;
    Text.SplitJoin(s, sep);
  }

  /** `minimum` never exceeds `maximum`, and they agree on a one-element array. */
  lemma MinimumMaximum(xs: Value)
    requires Minimum(xs).Success?
    ensures Maximum(xs).Success? && Minimum(xs).value.n <= Maximum(xs).value.n
    ensures |xs.items| == 1 ==> Minimum(xs) == Maximum(xs) == Success(xs.items[0])
  {
    assert xs.items[0].Num?;
  }

  /** The product of the array `..(1, n)` is n factorial. */
  lemma ProductOfRangeValue(n: nat)
    requires n <= MaxArrayLength
    ensures RangeOf(Num(1), Num(n)).Success?
    ensures Product(RangeOf(Num(1), Num(n)).value) == Success(Num(Factorial(n)))
  {
    ProductOfRange(n);
  }

  /** The errors a registry entry without a callable can throw. */
  predicate PlainError(e: Error) {
    e == TypeError || e == RangeError || e == SyntaxError || e == Unmodelled
  }

  /**
   * A registry entry that takes no callable, applied to as many arguments
   * as it declares. Such an entry never invokes anything, so it can only
   * fail with an error JavaScript itself raises.
   */
  function FirstOrder(op: Op, args: seq<Value>): (r: Outcome)
    requires |args| == Arity(op) && !TakesCallable(op)
    ensures r.Failure? ==> PlainError(r.error)
  {
    match op
    case Add => Plus(args[0], args[1])
    case Subtract => Minus(args[0], args[1])
    case Multiply => Times(args[0], args[1])
    case Divide => Over(args[0], args[1])
    case Min => Smaller(args[0], args[1])
    case Minimum => Minimum(args[0])
    case Max => Larger(args[0], args[1])
    case Maximum => Maximum(args[0])
    case Id => Identity(args[0])
    case Product => Product(args[0])
    case Reverse => Reverse(args[0])
    case Head => Member(args[0], Num(0))
    case Tail => Tail(args[0])
    case Cons => Cons(args[0], args[1])
    case Split => Split(args[0], args[1])
    case Length => Length(args[0])
    case ToUpper => ToUpper(args[0])
    case ToLower => ToLowerAsWritten(args[0])
    case And => Success(Conjunction(args[0], args[1]))
    case Or => Success(Disjunction(args[0], args[1]))
    case Not => Success(Negation(args[0]))
    case IsTrue => Success(Negation(Negation(args[0])))
    case IsFalse => Success(Negation(Negation(Negation(args[0]))))
    case Gt => Compare(Gt, args[0], args[1])
    case Ge => Compare(Ge, args[0], args[1])
    case Lt => Compare(Lt, args[0], args[1])
    case Le => Compare(Le, args[0], args[1])
    case StrictEq => StrictEquals(args[0], args[1])
    case Index => Member(args[0], args[1])
    case Range => RangeOf(args[0], args[1])
    case Concat => Concat(args[0], args[1])
    case Take => Take(args[0], args[1])
    case Trim => TrimBy(Trim, args[0])
    case TrimLeft => TrimBy(TrimLeft, args[0])
    case TrimRight => TrimBy(TrimRight, args[0])
  }
}
