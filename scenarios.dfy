/**
 * The demonstration formulas that accompany the evaluator, with the value
 * each one evaluates to in this model.
 */
module Scenarios {
  import opened Wrappers
  import opened Operations
  import opened Values
  import opened Evaluator
  import Registry
  import Builtins
  import Lists

  /** A `function` node. */
  function Call(name: string, args: seq<Formula>): Formula {
    FNode(FunctionKind, name, Some(FList(args)))
  }

  /** A `reference` node binding the given arguments. */
  function Bind(name: string, args: seq<Formula>): Formula {
    FNode(ReferenceKind, name, Some(FList(args)))
  }

  /** A `reference` node without `args`. */
  function Ref(name: string): Formula {
    FNode(ReferenceKind, name, None)
  }

  /** An array formula of number literals. */
  function Ints(ns: seq<int>): seq<Formula> {
    seq(|ns|, i requires 0 <= i < |ns| => FNum(ns[i]))
  }

  /** An array formula of string literals. */
  function Strs(ss: seq<string>): seq<Formula> {
    seq(|ss|, i requires 0 <= i < |ss| => FStr(ss[i]))
  }

  /** Number values. */
  function Nums(ns: seq<int>): seq<Value> {
    seq(|ns|, i requires 0 <= i < |ns| => Num(ns[i]))
  }

  function StrValues(ss: seq<string>): seq<Value> {
    seq(|ss|, i requires 0 <= i < |ss| => Str(ss[i]))
  }

  lemma IntsEvaluate(fuel: nat, ns: seq<int>)
    ensures EvalSeq(fuel, Ints(ns)) == Success(Nums(ns))
    ensures Evaluate(fuel, FList(Ints(ns))) == Success(Arr(Nums(ns)))
  {
    EvalSeqAll(fuel, Ints(ns), Nums(ns));
  }

  lemma StrsEvaluate(fuel: nat, ss: seq<string>)
    ensures EvalSeq(fuel, Strs(ss)) == Success(StrValues(ss))
    ensures Evaluate(fuel, FList(Strs(ss))) == Success(Arr(StrValues(ss)))
  {
    EvalSeqAll(fuel, Strs(ss), StrValues(ss));
  }

  /** A `function` node whose arguments evaluate to `vs` applies its entry to `vs`. */
  lemma CallOf(fuel: nat, name: string, op: Op, fs: seq<Formula>, vs: seq<Value>)
    requires Name(op) == name && |fs| == Arity(op) && EvalSeq(fuel, fs) == Success(vs)
    ensures Evaluate(fuel, Call(name, fs)) == Registry.Apply(fuel, op, vs)
  {
    LookupName(op, name);
    CallApplies(fuel, name, fs);
  }

  /** A call on one array of numbers. */
  lemma ListCallOf(fuel: nat, name: string, op: Op, ns: seq<int>)
    requires Name(op) == name && Arity(op) == 1
    ensures Evaluate(fuel, Call(name, [FList(Ints(ns))])) == Registry.Apply(fuel, op, [Arr(Nums(ns))])
  {
    IntsEvaluate(fuel, ns);
    EvalSeqAll(fuel, [FList(Ints(ns))], [Arr(Nums(ns))]);
    CallOf(fuel, name, op, [FList(Ints(ns))], [Arr(Nums(ns))]);
  }

  /** The largest of the numbers of the example `maximum` is 43. */
  lemma MaximumOfExample(fuel: nat)
    ensures Registry.Apply(fuel, Maximum, [Arr(Nums([1, 9, 20, 3, 43, 29, 10, 4]))]) == Success(Num(43))
  {
    var ns := [1, 9, 20, 3, 43, 29, 10, 4];
    assert forall i :: 0 <= i < |ns| ==> ns[i] <= ns[4];
    MaximumAt(fuel, ns, 4);
  }

  /** `maximum` of numbers is the one no other number exceeds. */
  lemma MaximumAt(fuel: nat, ns: seq<int>, k: nat)
    requires k < |ns| && forall i :: 0 <= i < |ns| ==> ns[i] <= ns[k]
    ensures Registry.Apply(fuel, Maximum, [Arr(Nums(ns))]) == Success(Num(ns[k]))
  {
    ApplyMaximum(fuel, Arr(Nums(ns)));
    MaximumOfNums(ns, k);
  }

  /** The registry's `maximum` of number literals is the one no other literal exceeds. */
  lemma MaximumOfNums(ns: seq<int>, k: nat)
    requires k < |ns| && forall i :: 0 <= i < |ns| ==> ns[i] <= ns[k]
    ensures Builtins.Maximum(Arr(Nums(ns))) == Success(Num(ns[k]))
  {
    var xs := Nums(ns);
    NumbersOfNums(ns);
    var r := Builtins.Maximum(Arr(xs));
    assert r.Success? && r.value in xs;
    var j :| 0 <= j < |xs| && xs[j] == r.value;
    assert xs[j] == Num(ns[j]) && xs[k] == Num(ns[k]);
    assert ns[k] <= r.value.n <= ns[k];
  }

  lemma ApplyMaximum(fuel: nat, x: Value)
    ensures Registry.Apply(fuel, Maximum, [x]) == Builtins.Maximum(x)
  {
  }

  /** The numbers of an array written as number literals are those literals. */
  lemma NumbersOfNums(ns: seq<int>)
    ensures Builtins.Numbers(Nums(ns)) == Some(ns)
  {
    var xs := Nums(ns);
    assert forall i :: 0 <= i < |ns| ==> xs[i] == Num(ns[i]);
    var m := Builtins.Numbers(xs);
    assert m.Some? && forall i :: 0 <= i < |ns| ==> m.value[i] == ns[i];
    assert m.value == ns;
  }

  /** The example `maximum`: the largest number of an array. */
  lemma MaximumExample(fuel: nat)
    ensures Evaluate(fuel, Call("maximum", [FList(Ints([1, 9, 20, 3, 43, 29, 10, 4]))])) == Success(Num(43))
  {
    ListCallOf(fuel, "maximum", Maximum, [1, 9, 20, 3, 43, 29, 10, 4]);
    MaximumOfExample(fuel);
  }

  /** `..(a, b)` on two number literals is the range of the registry entry. */
  lemma RangeCall(fuel: nat, a: int, b: int)
    ensures Evaluate(fuel, Call("..", [FNum(a), FNum(b)])) == Builtins.RangeOf(Num(a), Num(b))
  {
    EvalSeqAll(fuel, [FNum(a), FNum(b)], [Num(a), Num(b)]);
    CallOf(fuel, "..", Range, [FNum(a), FNum(b)], [Num(a), Num(b)]);
  }

  /** The example `factorial`, for any n: the product of `..(1, n)` is n factorial. */
  lemma FactorialExample(fuel: nat, n: nat)
    requires n <= Builtins.MaxArrayLength
    ensures Evaluate(fuel, Call("product", [Call("..", [FNum(1), FNum(n)])])) == Success(Num(Builtins.Factorial(n)))
  {
    Builtins.ProductOfRangeValue(n);
    RangeCall(fuel, 1, n);
    ProductCall(fuel, Call("..", [FNum(1), FNum(n)]), Builtins.RangeOf(Num(1), Num(n)).value);
  }

  /** `product(f)` multiplies what `f` evaluates to. */
  lemma ProductCall(fuel: nat, f: Formula, v: Value)
    requires Evaluate(fuel, f) == Success(v)
    ensures Evaluate(fuel, Call("product", [f])) == Builtins.Product(v)
  {
    EvalSeqAll(fuel, [f], [v]);
    CallOf(fuel, "product", Product, [f], [v]);
  }

  /** With a small range: the product of 1..5 is 120. */
  lemma FactorialOfFive(fuel: nat)
    ensures Evaluate(fuel, Call("product", [Call("..", [FNum(1), FNum(5)])])) == Success(Num(120))
  {
    FactorialExample(fuel, 5);
    assert Builtins.Factorial(5) == 120;
  }

  /** `reverse` on an array of numbers gives the numbers in reverse order. */
  lemma ReverseNumbers(fuel: nat, ns: seq<int>)
    ensures Registry.Apply(fuel, Reverse, [Arr(Nums(ns))]) == Success(Arr(Nums(Lists.Reverse(ns))))
  {
    assert Lists.Reverse(Nums(ns)) == Nums(Lists.Reverse(ns));
  }

  /** The example `reverse`. */
  lemma ReverseExample(fuel: nat)
    ensures Evaluate(fuel, Call("reverse", [FList(Ints([1, 2, 3, 4, 5]))])) == Success(Arr(Nums([5, 4, 3, 2, 1])))
  {
    ListCallOf(fuel, "reverse", Reverse, [1, 2, 3, 4, 5]);
    ReverseNumbers(fuel, [1, 2, 3, 4, 5]);
    assert Lists.Reverse([1, 2, 3, 4, 5]) == [5, 4, 3, 2, 1];
  }

  /** A `reference` node binding one number is the entry with that number bound in front. */
  lemma BindEvaluates(fuel: nat, name: string, op: Op, a: int)
    requires Name(op) == name && Arity(op) >= 2
    ensures Evaluate(fuel, Bind(name, [FNum(a)])) == Success(Fun(op, [Num(a)]))
  {
    EvalSeqAll(fuel, [FNum(a)], [Num(a)]);
    LookupName(op, name);
  }

  /** A call whose arguments are a reference binding one number and an array of numbers. */
  lemma BoundCallOf(fuel: nat, name: string, op: Op, bname: string, bop: Op, a: int, ns: seq<int>)
    requires Name(op) == name && Arity(op) == 2 && Name(bop) == bname && Arity(bop) >= 2
    ensures Evaluate(fuel, Call(name, [Bind(bname, [FNum(a)]), FList(Ints(ns))]))
      == Registry.Apply(fuel, op, [Fun(bop, [Num(a)]), Arr(Nums(ns))])
  {
    var fs := [Bind(bname, [FNum(a)]), FList(Ints(ns))];
    BindEvaluates(fuel, bname, bop, a);
    IntsEvaluate(fuel, ns);
    EvalSeqAll(fuel, fs, [Fun(bop, [Num(a)]), Arr(Nums(ns))]);
    CallOf(fuel, name, op, fs, [Fun(bop, [Num(a)]), Arr(Nums(ns))]);
  }

  /** A call whose arguments are a reference without `args` and an array. */
  lemma RefCallOf(fuel: nat, name: string, op: Op, rname: string, rop: Op, fs: seq<Formula>, vs: seq<Value>)
    requires Name(op) == name && Arity(op) == 2 && Name(rop) == rname && EvalSeq(fuel, fs) == Success(vs)
    ensures Evaluate(fuel, Call(name, [Ref(rname), FList(fs)])) == Registry.Apply(fuel, op, [Fun(rop, []), Arr(vs)])
  {
    LookupName(rop, rname);
    EvalSeqAll(fuel, [Ref(rname), FList(fs)], [Fun(rop, []), Arr(vs)]);
    CallOf(fuel, name, op, [Ref(rname), FList(fs)], [Fun(rop, []), Arr(vs)]);
  }

  /** A call on two arrays of numbers. */
  lemma ListsCallOf(fuel: nat, name: string, op: Op, ns: seq<int>, ms: seq<int>)
    requires Name(op) == name && Arity(op) == 2
    ensures Evaluate(fuel, Call(name, [FList(Ints(ns)), FList(Ints(ms))]))
      == Registry.Apply(fuel, op, [Arr(Nums(ns)), Arr(Nums(ms))])
  {
    var vs := [Arr(Nums(ns)), Arr(Nums(ms))];
    IntsEvaluate(fuel, ns);
    IntsEvaluate(fuel, ms);
    EvalSeqAll(fuel, [FList(Ints(ns)), FList(Ints(ms))], vs);
    CallOf(fuel, name, op, [FList(Ints(ns)), FList(Ints(ms))], vs);
  }

  /** `reference('>', [a])` is the predicate x => a > x: the bound argument comes first. */
  lemma GreaterThanBound(fuel: nat, a: int, x: int)
    requires fuel >= 1
    ensures Registry.Predicate(fuel, Fun(Gt, [Num(a)]))(Num(x)) == Success(a > x)
  {
    GreaterThanInvoked(fuel, a, x);
  }

  /** Invoking the bound `>` on `x` applies `>` to `[a, x]`. */
  lemma GreaterThanInvoked(fuel: nat, a: int, x: int)
    requires fuel >= 1
    ensures Registry.Invoke(fuel, Fun(Gt, [Num(a)]), [Num(x)]) == Success(Bool(a > x))
  {
    Registry.InvokeBound(fuel - 1, Gt, [Num(a)], [Num(x)]);
    assert [Num(a)] + [Num(x)] == [Num(a), Num(x)];
    GreaterThan(fuel - 1, a, x);
  }

  /** `>` on two numbers. */
  lemma GreaterThan(fuel: nat, a: int, x: int)
    ensures Registry.Apply(fuel, Gt, [Num(a), Num(x)]) == Success(Bool(a > x))
  {
  }

  /** Cutting the literals of an array cuts its numbers at the same place. */
  lemma NumsSlices(ns: seq<int>, k: nat)
    requires k <= |ns|
    ensures Nums(ns)[..k] == Nums(ns[..k]) && Nums(ns)[k..] == Nums(ns[k..])
    ensures k == |ns| ==> Nums(ns)[..k] == Nums(ns) && Nums(ns)[k..] == []
  {
  }

  /** The bound `>` answers `b` on each of the first k numbers when a > x is `b` for each of them. */
  lemma GreaterThanOnPrefix(fuel: nat, a: int, ns: seq<int>, k: nat, b: bool)
    requires fuel >= 1 && k <= |ns|
    requires forall j :: 0 <= j < k ==> (a > ns[j]) == b
    ensures Lists.Answers(Registry.Predicate(fuel, Fun(Gt, [Num(a)])), Nums(ns), k, b)
  {
    var xs := Nums(ns);
    forall j | 0 <= j < k ensures Registry.Predicate(fuel, Fun(Gt, [Num(a)]))(xs[j]) == Success(b) {
      assert xs[j] == Num(ns[j]);
      GreaterThanBound(fuel, a, ns[j]);
    }
  }

  /** The bound `>` answers a > x on the number at index k. */
  lemma GreaterThanAt(fuel: nat, a: int, ns: seq<int>, k: nat)
    requires fuel >= 1 && k < |ns|
    ensures Registry.Predicate(fuel, Fun(Gt, [Num(a)]))(Nums(ns)[k]) == Success(a > ns[k])
  {
    assert Nums(ns)[k] == Num(ns[k]);
    GreaterThanBound(fuel, a, ns[k]);
  }

  /** Numbers up to index k are below a, and the one at k (if any) is not. */
  predicate BelowUntil(a: int, ns: seq<int>, k: nat) {
    && k <= |ns|
    && (forall j :: 0 <= j < k ==> ns[j] < a)
    && (k < |ns| ==> ns[k] >= a)
  }

  /** Numbers up to index k are at least a, and the one at k (if any) is below a. */
  predicate NotBelowUntil(a: int, ns: seq<int>, k: nat) {
    && k <= |ns|
    && (forall j :: 0 <= j < k ==> ns[j] >= a)
    && (k < |ns| ==> ns[k] < a)
  }

  /** takeWhile(x => a > x) keeps the leading numbers below a. */
  lemma TakeWhileBelow(fuel: nat, a: int, ns: seq<int>, k: nat)
    requires fuel >= 1 && BelowUntil(a, ns, k)
    ensures Registry.Apply(fuel, TakeWhile, [Fun(Gt, [Num(a)]), Arr(Nums(ns))]) == Success(Arr(Nums(ns[..k])))
  {
    var g, arr := Fun(Gt, [Num(a)]), Arr(Nums(ns));
    GreaterThanOnPrefix(fuel, a, ns, k, true);
    if k < |ns| {
      GreaterThanAt(fuel, a, ns, k);
    }
    NumsSlices(ns, k);
    Registry.TakeWhileLongestPrefix(fuel, g, arr, k);
  }

  /** takeWhile(x => 5 > x) on 1..9 keeps 1, 2, 3, 4 and stops at 5. */
  lemma TakeWhileBelowFive(fuel: nat)
    requires fuel >= 1
    ensures Registry.Apply(fuel, TakeWhile, [Fun(Gt, [Num(5)]), Arr(Nums([1, 2, 3, 4, 5, 6, 7, 8, 9]))])
      == Success(Arr(Nums([1, 2, 3, 4])))
  {
    var ns := [1, 2, 3, 4, 5, 6, 7, 8, 9];
    assert BelowUntil(5, ns, 4);
    TakeWhileBelow(fuel, 5, ns, 4);
    assert ns[..4] == [1, 2, 3, 4];
  }

  /** The example `takeWhile`. */
  lemma TakeWhileExample(fuel: nat)
    requires fuel >= 1
    ensures Evaluate(fuel, Call("takeWhile", [Bind(">", [FNum(5)]), FList(Ints([1, 2, 3, 4, 5, 6, 7, 8, 9]))]))
      == Success(Arr(Nums([1, 2, 3, 4])))
  {
    BoundCallOf(fuel, "takeWhile", TakeWhile, ">", Gt, 5, [1, 2, 3, 4, 5, 6, 7, 8, 9]);
    TakeWhileBelowFive(fuel);
  }

  /** The registry's dropWhile(x => a > x), as written, keeps the leading numbers that are not below a. */
  lemma DropWhileAsWrittenNotBelow(fuel: nat, a: int, ns: seq<int>, k: nat)
    requires fuel >= 1 && NotBelowUntil(a, ns, k)
    ensures Registry.Apply(fuel, DropWhile, [Fun(Gt, [Num(a)]), Arr(Nums(ns))]) == Success(Arr(Nums(ns[..k])))
  {
    var g, arr := Fun(Gt, [Num(a)]), Arr(Nums(ns));
    GreaterThanOnPrefix(fuel, a, ns, k, false);
    if k < |ns| {
      GreaterThanAt(fuel, a, ns, k);
    }
    NumsSlices(ns, k);
    Registry.DropWhileRefusedPrefix(fuel, g, arr, k);
  }

  /** The registry's dropWhile(x => 5 > x) on 9..1 keeps what the predicate refuses, up to the first element it accepts. */
  lemma DropWhileAsWrittenBelowFive(fuel: nat)
    requires fuel >= 1
    ensures Registry.Apply(fuel, DropWhile, [Fun(Gt, [Num(5)]), Arr(Nums([9, 8, 7, 6, 5, 4, 3, 2, 1]))])
      == Success(Arr(Nums([9, 8, 7, 6, 5])))
  {
    var ns := [9, 8, 7, 6, 5, 4, 3, 2, 1];
    assert NotBelowUntil(5, ns, 5);
    DropWhileAsWrittenNotBelow(fuel, 5, ns, 5);
    assert ns[..5] == [9, 8, 7, 6, 5];
  }

  /** The corrected dropWhile(x => a > x) drops the leading numbers below a and keeps the rest. */
  lemma DropWhileBelow(fuel: nat, a: int, ns: seq<int>, k: nat)
    requires fuel >= 1 && BelowUntil(a, ns, k)
    ensures Registry.DropWhileBy(fuel, Fun(Gt, [Num(a)]), Arr(Nums(ns))) == Success(Arr(Nums(ns[k..])))
  {
    var g, arr := Fun(Gt, [Num(a)]), Arr(Nums(ns));
    GreaterThanOnPrefix(fuel, a, ns, k, true);
    if k < |ns| {
      GreaterThanAt(fuel, a, ns, k);
    }
    NumsSlices(ns, k);
    Registry.DropWhileAfterLongestPrefix(fuel, g, arr, k);
  }

  /** The corrected dropWhile(x => 5 > x) on 9..1 drops nothing: the predicate already refuses 9. */
  lemma DropWhileBelowFive(fuel: nat)
    requires fuel >= 1
    ensures Registry.DropWhileBy(fuel, Fun(Gt, [Num(5)]), Arr(Nums([9, 8, 7, 6, 5, 4, 3, 2, 1])))
      == Success(Arr(Nums([9, 8, 7, 6, 5, 4, 3, 2, 1])))
  {
    var ns := [9, 8, 7, 6, 5, 4, 3, 2, 1];
    assert BelowUntil(5, ns, 0);
    DropWhileBelow(fuel, 5, ns, 0);
    assert ns[0..] == ns;
  }

  /** The example `dropWhile`, as the engine evaluates it: 9, 8, 7, 6, 5, up to the first element 5 > x accepts. */
  lemma DropWhileExample(fuel: nat)
    requires fuel >= 1
    ensures Evaluate(fuel, Call("dropWhile", [Bind(">", [FNum(5)]), FList(Ints([9, 8, 7, 6, 5, 4, 3, 2, 1]))]))
      == Success(Arr(Nums([9, 8, 7, 6, 5])))
  {
    BoundCallOf(fuel, "dropWhile", DropWhile, ">", Gt, 5, [9, 8, 7, 6, 5, 4, 3, 2, 1]);
    DropWhileAsWrittenBelowFive(fuel);
  }

  /** `toLower` on a string, as the engine evaluates it, throws a TypeError. */
  lemma ToLowerExample(fuel: nat, w: string)
    ensures Evaluate(fuel, Call("toLower", [FStr(w)])) == Failure(TypeError)
  {
    StrsEvaluate(fuel, [w]);
    assert Strs([w]) == [FStr(w)] && StrValues([w]) == [Str(w)];
    CallOf(fuel, "toLower", ToLower, [FStr(w)], [Str(w)]);
    Registry.ApplyFirstOrder(fuel, ToLower, [Str(w)]);
  }

  /** When the callback succeeds on every element, `map` collects exactly its results. */
  lemma MapAll(fuel: nat, f: Value, xs: seq<Value>, ys: seq<Value>)
    requires f.Fun? && |xs| == |ys|
    requires forall i :: 0 <= i < |xs| ==> Registry.Invoke(fuel, f, [xs[i]]) == Success(ys[i])
    ensures Registry.Apply(fuel, Map, [f, Arr(xs)]) == Success(Arr(ys))
  {
    var r := Lists.MapM(Registry.Unary(fuel, f), xs);
    assert r.value == ys;
  }

  /** `map(reference('multiply', [a]))` multiplies every element by a. */
  lemma MapTimes(fuel: nat, a: int, ns: seq<int>)
    requires fuel >= 1
    ensures Registry.Apply(fuel, Map, [Fun(Multiply, [Num(a)]), Arr(Nums(ns))])
      == Success(Arr(Nums(seq(|ns|, i requires 0 <= i < |ns| => a * ns[i]))))
  {
    var xs := Nums(ns);
    var out := Nums(seq(|ns|, i requires 0 <= i < |ns| => a * ns[i]));
    forall i | 0 <= i < |ns| ensures Registry.Invoke(fuel, Fun(Multiply, [Num(a)]), [xs[i]]) == Success(out[i]) {
      assert xs[i] == Num(ns[i]) && out[i] == Num(a * ns[i]);
      Registry.InvokeBound(fuel - 1, Multiply, [Num(a)], [xs[i]]);
    }
    MapAll(fuel, Fun(Multiply, [Num(a)]), xs, out);
  }

  /** The example `map`: doubling every element with `reference('multiply', [2])`. */
  lemma MapExample(fuel: nat)
    requires fuel >= 1
    ensures Evaluate(fuel, Call("map", [Bind("multiply", [FNum(2)]), FList(Ints([1, 2, 3, 4, 5]))]))
      == Success(Arr(Nums([2, 4, 6, 8, 10])))
  {
    var ns := [1, 2, 3, 4, 5];
    BoundCallOf(fuel, "map", Map, "multiply", Multiply, 2, ns);
    MapTimes(fuel, 2, ns);
    assert seq(|ns|, i requires 0 <= i < |ns| => 2 * ns[i]) == [2, 4, 6, 8, 10];
  }

  /** `map(length)` over an array and two strings gives their lengths. */
  lemma LengthOfThings(fuel: nat, ns: seq<int>, a: string, b: string)
    requires fuel >= 1
    ensures Registry.Apply(fuel, Map, [Fun(Length, []), Arr([Arr(Nums(ns)), Str(a), Str(b)])])
      == Success(Arr(Nums([|ns|, |a|, |b|])))
  {
    var vs := [Arr(Nums(ns)), Str(a), Str(b)];
    var out := Nums([|ns|, |a|, |b|]);
    forall i | 0 <= i < 3 ensures Registry.Invoke(fuel, Fun(Length, []), [vs[i]]) == Success(out[i]) {
      Registry.InvokeBound(fuel - 1, Length, [], [vs[i]]);
    }
    MapAll(fuel, Fun(Length, []), vs, out);
  }

  /** `map(reference('length'), [array, a, b])` evaluates to the three lengths. */
  lemma LengthCall(fuel: nat, ns: seq<int>, a: string, b: string)
    requires fuel >= 1
    ensures Evaluate(fuel, Call("map", [Ref("length"), FList([FList(Ints(ns)), FStr(a), FStr(b)])]))
      == Success(Arr(Nums([|ns|, |a|, |b|])))
  {
    var fs := [FList(Ints(ns)), FStr(a), FStr(b)];
    var vs := [Arr(Nums(ns)), Str(a), Str(b)];
    IntsEvaluate(fuel, ns);
    EvalSeqAll(fuel, fs, vs);
    RefCallOf(fuel, "map", Map, "length", Length, fs, vs);
    LengthOfThings(fuel, ns, a, b);
  }

  /** The example `length`: the length of an array and of two strings. */
  lemma LengthExample(fuel: nat)
    requires fuel >= 1
    ensures Evaluate(fuel, Call("map", [Ref("length"), FList([FList(Ints([1, 2, 3, 4, 5])), FStr("hello"), FStr("banana")])]))
      == Success(Arr(Nums([5, 5, 6])))
  {
    LengthCall(fuel, [1, 2, 3, 4, 5], "hello", "banana");
  }

  /** The example `add5`: a reference binding 5 is the callable add with 5 bound in front. */
  lemma Add5Example(fuel: nat)
    ensures Evaluate(fuel, Bind("add", [FNum(5)])) == Success(Fun(Add, [Num(5)]))
    ensures Registry.Invoke(fuel + 1, Fun(Add, [Num(5)]), [Num(10)]) == Success(Num(15))
  {
    BindEvaluates(fuel, "add", Add, 5);
    Registry.InvokeBound(fuel, Add, [Num(5)], [Num(10)]);
  }

  /** The example `concat_arrays`. */
  lemma ConcatArraysExample(fuel: nat)
    ensures Evaluate(fuel, Call("++", [FList(Ints([1, 2, 3])), FList(Ints([4, 5, 6]))]))
      == Success(Arr(Nums([1, 2, 3, 4, 5, 6])))
  {
    ListsCallOf(fuel, "++", Concat, [1, 2, 3], [4, 5, 6]);
    ConcatNumbers(fuel, [1, 2, 3], [4, 5, 6]);
    assert [1, 2, 3] + [4, 5, 6] == [1, 2, 3, 4, 5, 6];
  }

  /** `++` on two arrays of numbers is the array of both, in order. */
  lemma ConcatNumbers(fuel: nat, ns: seq<int>, ms: seq<int>)
    ensures Registry.Apply(fuel, Concat, [Arr(Nums(ns)), Arr(Nums(ms))])
      == Success(Arr(Nums(ns + ms)))
  {
    var l, r := Nums(ns), Nums(ms);
    assert forall i :: 0 <= i < |ns| ==> l[i] == Num(ns[i]);
    assert forall i :: 0 <= i < |ms| ==> r[i] == Num(ms[i]);
    assert l + r == Nums(ns + ms);
  }

  /** The example `concat_strings`: `++` on two strings falls back to `+`. */
  lemma ConcatStringsExample(fuel: nat)
    ensures Evaluate(fuel, Call("++", [FStr("hello"), FStr(" world")])) == Success(Str("hello world"))
  {
    EvalSeqAll(fuel, [FStr("hello"), FStr(" world")], [Str("hello"), Str(" world")]);
    CallOf(fuel, "++", Concat, [FStr("hello"), FStr(" world")], [Str("hello"), Str(" world")]);
    assert "hello" + " world" == "hello world";
  }

  /** The words of a list written one after the other. */
  function Concatenation(ws: seq<string>): string {
    if ws == [] then [] else ws[0] + Concatenation(ws[1..])
  }

  /** Folding `++` from the left over words, starting from `acc`, joins them onto `acc`. */
  lemma JoinWords(fuel: nat, acc: string, ws: seq<string>)
    requires fuel >= 1
    ensures Lists.FoldlM(Registry.Reducer(fuel, Fun(Concat, [])), Str(acc), StrValues(ws)) == Success(Str(acc + Concatenation(ws)))
  {
    var h := Registry.Reducer(fuel, Fun(Concat, []));
    forall a: string, w: string
      ensures h(Str(a), Str(w)) == Success(Str(a + w))
    {
      JoinStep(fuel, a, w);
    }
    FoldJoins(h, acc, ws);
  }

  /** Any step that joins two strings, folded from the left over words, joins them all. */
  lemma {:induction false} FoldJoins(h: (Value, Value) -> Outcome, acc: string, ws: seq<string>)
    requires forall a: string, w: string :: h(Str(a), Str(w)) == Success(Str(a + w))
    ensures Lists.FoldlM(h, Str(acc), StrValues(ws)) == Success(Str(acc + Concatenation(ws)))
    decreases |ws|
  {
    if ws != [] {
      var vs := StrValues(ws);
      assert vs[0] == Str(ws[0]) && vs[1..] == StrValues(ws[1..]);
      assert h(Str(acc), Str(ws[0])) == Success(Str(acc + ws[0]));
      FoldJoins(h, acc + ws[0], ws[1..]);
      assert acc + ws[0] + Concatenation(ws[1..]) == acc + Concatenation(ws);
    } else {
      assert StrValues(ws) == [];
      assert acc + Concatenation(ws) == acc;
    }
  }

  /** One step of the fold: `++` on two strings joins them. */
  lemma JoinStep(fuel: nat, acc: string, w: string)
    requires fuel >= 1
    ensures Registry.Reducer(fuel, Fun(Concat, []))(Str(acc), Str(w)) == Success(Str(acc + w))
  {
    Registry.InvokeBound(fuel - 1, Concat, [], [Str(acc), Str(w)]);
    assert [] + [Str(acc), Str(w)] == [Str(acc), Str(w)];
    Registry.ApplyFirstOrder(fuel - 1, Concat, [Str(acc), Str(w)]);
    ConcatOfStrings(acc, w);
  }

  lemma ConcatOfStrings(a: string, b: string)
    ensures Builtins.FirstOrder(Concat, [Str(a), Str(b)]) == Success(Str(a + b))
  {
  }

  /** `foldl1(reference('++'))` over words joins them. */
  lemma JoinAll(fuel: nat, w: string, ws: seq<string>)
    requires fuel >= 1
    ensures Registry.Apply(fuel, Foldl1, [Fun(Concat, []), Arr(StrValues([w] + ws))]) == Success(Str(w + Concatenation(ws)))
  {
    StrValuesCons(w, ws);
    Registry.ApplyFoldl1(fuel, Fun(Concat, []), Arr(StrValues([w] + ws)));
    JoinWords(fuel, w, ws);
  }

  lemma StrValuesCons(w: string, ws: seq<string>)
    ensures StrValues([w] + ws) == [Str(w)] + StrValues(ws)
  {
    var vs := StrValues([w] + ws);
    assert vs[0] == Str(w) && vs[1..] == StrValues(ws);
    assert vs == [vs[0]] + vs[1..];
  }

  /** foldl1 with `++` over the words of the example `concat_multiple_strings`. */
  lemma JoinExampleWords(fuel: nat)
    requires fuel >= 1
    ensures Registry.Apply(fuel, Foldl1, [Fun(Concat, []), Arr(StrValues(["hello", " ", "there", " ", "world"]))])
      == Success(Str("hello there world"))
  {
    var ws := [" ", "there", " ", "world"];
    assert ["hello", " ", "there", " ", "world"] == ["hello"] + ws;
    JoinAll(fuel, "hello", ws);
    ExampleWordsConcatenation();
  }

  lemma ExampleWordsConcatenation()
    ensures "hello" + Concatenation([" ", "there", " ", "world"]) == "hello there world"
  {
    var ws := [" ", "there", " ", "world"];
    assert ws[1..] == ["there", " ", "world"] && ws[2..] == [" ", "world"] && ws[3..] == ["world"] && ws[4..] == [];
    assert Concatenation(ws[3..]) == "world";
    assert Concatenation(ws[2..]) == " world";
    assert Concatenation(ws[1..]) == "there world";
  }

  /** The example `concat_multiple_strings`: foldl1 with `++` joins the words. */
  lemma Foldl1Example(fuel: nat)
    requires fuel >= 1
    ensures Evaluate(fuel, Call("foldl1", [Ref("++"), FList(Strs(["hello", " ", "there", " ", "world"]))]))
      == Success(Str("hello there world"))
  {
    var ss := ["hello", " ", "there", " ", "world"];
    StrsEvaluate(fuel, ss);
    RefCallOf(fuel, "foldl1", Foldl1, "++", Concat, Strs(ss), StrValues(ss));
    JoinExampleWords(fuel);
  }

  /** `reverse(w)` on a string is the string read backwards. */
  lemma ReverseCall(fuel: nat, w: string)
    ensures Evaluate(fuel, Call("reverse", [FStr(w)])) == Success(Str(Lists.Reverse(w)))
  {
    EvalSeqAll(fuel, [FStr(w)], [Str(w)]);
    CallOf(fuel, "reverse", Reverse, [FStr(w)], [Str(w)]);
  }

  /** The arguments of `w == reverse(w)` evaluate to w and its reversal. */
  lemma PalindromeArgs(fuel: nat, w: string)
    ensures EvalSeq(fuel, [FStr(w), Call("reverse", [FStr(w)])]) == Success([Str(w), Str(Lists.Reverse(w))])
  {
    ReverseCall(fuel, w);
    EvalSeqAll(fuel, [FStr(w), Call("reverse", [FStr(w)])], [Str(w), Str(Lists.Reverse(w))]);
  }

  /** Two strings are strictly equal exactly when they have the same characters. */
  lemma StrictEqStrings(fuel: nat, a: string, b: string)
    ensures Registry.Apply(fuel, StrictEq, [Str(a), Str(b)]) == Success(Bool(a == b))
  {
  }

  /** `w == reverse(w)` evaluates to whether w reads the same backwards. */
  lemma PalindromeTest(fuel: nat, w: string)
    ensures Evaluate(fuel, Call("==", [FStr(w), Call("reverse", [FStr(w)])])) == Success(Bool(w == Lists.Reverse(w)))
  {
    PalindromeArgs(fuel, w);
    EqCall(fuel, [FStr(w), Call("reverse", [FStr(w)])], w, Lists.Reverse(w));
  }

  /** `==` on arguments that evaluate to two strings compares them. */
  lemma EqCall(fuel: nat, fs: seq<Formula>, a: string, b: string)
    requires EvalSeq(fuel, fs) == Success([Str(a), Str(b)])
    ensures Evaluate(fuel, Call("==", fs)) == Success(Bool(a == b))
  {
    CallOf(fuel, "==", StrictEq, fs, [Str(a), Str(b)]);
    StrictEqStrings(fuel, a, b);
  }

  /** The word of the example `isPalindrome` reads the same backwards. */
  lemma PalindromeReversed()
    ensures Lists.Reverse("saippuakivikauppias") == "saippuakivikauppias"
  {
    var w := "saippuakivikauppias";
    assert forall i :: 0 <= i < |w| ==> w[i] == w[|w| - 1 - i];
  }

  /** The example `isPalindrome`: the word equals its own reversal. */
  lemma PalindromeExample(fuel: nat)
    ensures Evaluate(fuel, Call("==", [FStr("saippuakivikauppias"), Call("reverse", [FStr("saippuakivikauppias")])]))
      == Success(Bool(true))
  {
    PalindromeTest(fuel, "saippuakivikauppias");
    PalindromeReversed();
  }
}
