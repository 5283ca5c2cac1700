/**
 * Calling registry entries. `Apply` runs an entry on exactly as many
 * arguments as it declares; `Invoke` calls a callable value the way
 * JavaScript calls a bound arrow function: the bound arguments go first,
 * missing parameters are `undefined` and surplus arguments are ignored.
 *
 * Callables can be passed to callables without limit, so every invocation
 * spends one unit of `fuel`; when none is left the outcome is `OutOfFuel`.
 */
module Registry {
  import opened Wrappers
  import opened Operations
  import opened Values
  import Builtins
  import Lists

  /** The arguments as the callee's parameters see them: padded with undefined, surplus dropped. */
  function Fit(vs: seq<Value>, n: nat): (r: seq<Value>)
    ensures |r| == n
    ensures forall i :: 0 <= i < n ==> r[i] == if i < |vs| then vs[i] else Undefined
  {
    if |vs| >= n then vs[..n] else vs + seq(n - |vs|, _ => Undefined)
  }

  /** The truthiness of a callback's answer, as `filter`, `every`, `find` and `if` read it. */
  function Test(r: Outcome): (t: Result<bool, Error>)
    ensures t.Success? <==> r.Success?
    ensures t.Success? ==> (t.value <==> Truthy(r.value))
    ensures t.Failure? ==> t.error == r.error
  {
    match r
    case Success(v) => Success(Truthy(v))
    case Failure(e) => Failure(e)
  }

  /**
   * Calling a value with the given arguments. Only registry entries (bare
   * or with bound arguments) are callable; calling anything else throws.
   */
  function Invoke(fuel: nat, callee: Value, given: seq<Value>): (r: Outcome)
    ensures !callee.Fun? ==> r == Failure(TypeError)
    ensures callee.Fun? && fuel == 0 ==> r == Failure(OutOfFuel)
    decreases fuel, 0
  {
    if !callee.Fun? then Failure(TypeError)
    else if fuel == 0 then Failure(OutOfFuel)
    else Apply(fuel - 1, callee.op, Fit(callee.bound + given, Arity(callee.op)))
  }

  /** The callback as `map`, `scanl` and the loops of `takeWhile`/`dropWhile` call it: on one element. */
  function Unary(fuel: nat, f: Value): Value -> Outcome
    decreases fuel, 1
  {
    x => Invoke(fuel, f, [x])
  }

  /** The callback read as a yes/no answer. */
  function Predicate(fuel: nat, f: Value): Value -> Result<bool, Error>
    decreases fuel, 1
  {
    x => Test(Invoke(fuel, f, [x]))
  }

  /** The callback as `reduce` and `reduceRight` call it: on (accumulator, element). */
  function Reducer(fuel: nat, f: Value): (Value, Value) -> Outcome
    decreases fuel, 1
  {
    (acc, x) => Invoke(fuel, f, [acc, x])
  }

  /** The callback as `scanr` calls it: on (element, accumulator). */
  function Combiner(fuel: nat, f: Value): (Value, Value) -> Outcome
    decreases fuel, 1
  {
    (x, acc) => Invoke(fuel, f, [x, acc])
  }

  /** The array methods exist only on arrays and check their callback before they start. */
  predicate ArrayMethodReady(f: Value, xs: Value) {
    xs.Arr? && f.Fun?
  }

  /** `map(f, xs)`: `xs.map(f)`. */
  function MapOver(fuel: nat, f: Value, xs: Value): (r: Outcome)
    ensures !ArrayMethodReady(f, xs) ==> r == Failure(TypeError)
    ensures r.Success? ==> r.value.Arr? && |r.value.items| == |xs.items|
    ensures r.Success? ==> forall i :: 0 <= i < |xs.items| ==> Invoke(fuel, f, [xs.items[i]]) == Success(r.value.items[i])
    decreases fuel, 2
  {
    if !ArrayMethodReady(f, xs) then Failure(TypeError)
    else
      match Lists.MapM(Unary(fuel, f), xs.items)
      case Success(ys) => Success(Arr(ys))
      case Failure(e) => Failure(e)
  }

  /** `filter(f, xs)`: `xs.filter(f)`. */
  function FilterBy(fuel: nat, f: Value, xs: Value): (r: Outcome)
    ensures !ArrayMethodReady(f, xs) ==> r == Failure(TypeError)
    ensures r.Success? ==> r.value.Arr? && |r.value.items| <= |xs.items|
    ensures r.Success? ==> forall i :: 0 <= i < |r.value.items| ==> Predicate(fuel, f)(r.value.items[i]) == Success(true)
    decreases fuel, 2
  {
    if !ArrayMethodReady(f, xs) then Failure(TypeError)
    else
      match Lists.FilterM(Predicate(fuel, f), xs.items)
      case Success(ys) => Success(Arr(ys))
      case Failure(e) => Failure(e)
  }

  /** `every(f, xs)`: `xs.every(f)`. */
  function EveryBy(fuel: nat, f: Value, xs: Value): (r: Outcome)
    ensures !ArrayMethodReady(f, xs) ==> r == Failure(TypeError)
    ensures ArrayMethodReady(f, xs) ==>
      (r == Success(Bool(true)) <==> Lists.Answers(Predicate(fuel, f), xs.items, |xs.items|, true))
    ensures r.Success? ==> r.value.Bool?
    decreases fuel, 2
  {
    if !ArrayMethodReady(f, xs) then Failure(TypeError)
    else
      Lists.EveryMAll(Predicate(fuel, f), xs.items);
      match Lists.EveryM(Predicate(fuel, f), xs.items)
      case Success(b) => Success(Bool(b))
      case Failure(e) => Failure(e)
  }

  /** `elemIndex(xs, f)`: `xs.find(f)`, the first accepted element or undefined. */
  function FindBy(fuel: nat, xs: Value, f: Value): (r: Outcome)
    ensures !ArrayMethodReady(f, xs) ==> r == Failure(TypeError)
    ensures ArrayMethodReady(f, xs) ==>
      (r == Success(Undefined) <== Lists.Answers(Predicate(fuel, f), xs.items, |xs.items|, false))
    decreases fuel, 2
  {
    if !ArrayMethodReady(f, xs) then Failure(TypeError)
    else
      Lists.FindMNone(Predicate(fuel, f), xs.items);
      match Lists.FindM(Predicate(fuel, f), xs.items)
      case Success(found) => Success(if found.Some? then found.value else Undefined)
      case Failure(e) => Failure(e)
  }

  /** `foldl(f, z, xs)`: `xs.reduce(f, z)`. */
  function FoldLeft(fuel: nat, f: Value, z: Value, xs: Value): (r: Outcome)
    ensures !ArrayMethodReady(f, xs) ==> r == Failure(TypeError)
    decreases fuel, 2
  {
    if !ArrayMethodReady(f, xs) then Failure(TypeError)
    else Lists.FoldlM(Reducer(fuel, f), z, xs.items)
  }

  /** `foldl1(f, xs)`: `xs.reduce(f)`, seeded with the first element; an empty array throws. */
  function FoldLeft1(fuel: nat, f: Value, xs: Value): (r: Outcome)
    ensures !ArrayMethodReady(f, xs) || xs.items == [] ==> r == Failure(TypeError)
    ensures ArrayMethodReady(f, xs) && xs.items != [] ==> r == FoldLeft(fuel, f, xs.items[0], Arr(xs.items[1..]))
    decreases fuel, 3
  {
    if !ArrayMethodReady(f, xs) || xs.items == [] then Failure(TypeError)
    else Lists.FoldlM(Reducer(fuel, f), xs.items[0], xs.items[1..])
  }

  /** `foldr(f, z, xs)`: `xs.reduceRight(f, z)`. */
  function FoldRight(fuel: nat, f: Value, z: Value, xs: Value): (r: Outcome)
    ensures !ArrayMethodReady(f, xs) ==> r == Failure(TypeError)
    decreases fuel, 2
  {
    if !ArrayMethodReady(f, xs) then Failure(TypeError)
    else Lists.FoldrM(Reducer(fuel, f), z, xs.items)
  }

  /** `foldr1(f, xs)`: `xs.reduceRight(f)`, seeded with the last element; an empty array throws. */
  function FoldRight1(fuel: nat, f: Value, xs: Value): (r: Outcome)
    ensures !ArrayMethodReady(f, xs) || xs.items == [] ==> r == Failure(TypeError)
    ensures ArrayMethodReady(f, xs) && xs.items != [] ==>
      r == FoldRight(fuel, f, xs.items[|xs.items| - 1], Arr(xs.items[..|xs.items| - 1]))
    decreases fuel, 3
  {
    if !ArrayMethodReady(f, xs) || xs.items == [] then Failure(TypeError)
    else
      var n := |xs.items|;
      Lists.FoldrM(Reducer(fuel, f), xs.items[n - 1], xs.items[..n - 1])
  }

  /**
   * `scanl(f, z, xs)`: `reduce` with an arrow function of its own, so only
   * an array is needed up front; `f` fails only when it is first called.
   */
  function ScanLeft(fuel: nat, f: Value, z: Value, xs: Value): (r: Outcome)
    ensures !xs.Arr? ==> r == Failure(TypeError)
    ensures r.Success? ==> r.value.Arr? && |r.value.items| == |xs.items| + 1 && r.value.items[0] == z
    decreases fuel, 2
  {
    if !xs.Arr? then Failure(TypeError)
    else
      match Lists.ScanlM(Reducer(fuel, f), z, xs.items)
      case Success(ys) => Success(Arr(ys))
      case Failure(e) => Failure(e)
  }

  /** `scanr(f, xs, z)`: `reduceRight` with an arrow function that unshifts `f(x, acc[0])`. */
  function ScanRight(fuel: nat, f: Value, xs: Value, z: Value): (r: Outcome)
    ensures !xs.Arr? ==> r == Failure(TypeError)
    ensures r.Success? ==> r.value.Arr? && |r.value.items| == |xs.items| + 1 && r.value.items[|xs.items|] == z
    decreases fuel, 2
  {
    if !xs.Arr? then Failure(TypeError)
    else
      match Lists.ScanrM(Combiner(fuel, f), xs.items, z)
      case Success(ys) => Success(Arr(ys))
      case Failure(e) => Failure(e)
  }

  /** `takeWhile(f, xs)`: the generator loop over an array's items or a string's characters. */
  function TakeWhileBy(fuel: nat, f: Value, xs: Value): (r: Outcome)
    ensures !xs.Arr? && !xs.Str? ==> r == Failure(TypeError)
    ensures r.Success? ==> r.value.Arr? && r.value.items <= Iterate(xs).value
    decreases fuel, 2
  {
    match Iterate(xs)
    case None => Failure(TypeError)
    case Some(vs) =>
      match Lists.TakeWhileM(Predicate(fuel, f), vs)
      case Success(ys) =>
        TakeWhileMPrefix(Predicate(fuel, f), vs);
        Success(Arr(ys))
      case Failure(e) => Failure(e)
  }

  /**
   * `dropWhile(f, xs)` as written: the generator loop yields while the
   * callback REFUSES and returns at the first element it accepts.
   */
  function DropWhileAsWritten(fuel: nat, f: Value, xs: Value): (r: Outcome)
    ensures !xs.Arr? && !xs.Str? ==> r == Failure(TypeError)
    ensures r.Success? ==> r.value.Arr? && r.value.items <= Iterate(xs).value
    decreases fuel, 2
  {
    match Iterate(xs)
    case None => Failure(TypeError)
    case Some(vs) =>
      match Lists.DropWhileM(Predicate(fuel, f), vs)
      case Success(ys) =>
        Lists.DropWhileMIsTakeWhileMNegated(Predicate(fuel, f), vs);
        TakeWhileMPrefix(Lists.Negate(Predicate(fuel, f)), vs);
        Success(Arr(ys))
      case Failure(e) => Failure(e)
  }

  /**
   * `dropWhile(f, xs)` as evidently intended: the items (or characters)
   * from the first one the callback refuses to the end.
   */
  function DropWhileBy(fuel: nat, f: Value, xs: Value): (r: Outcome)
    ensures !xs.Arr? && !xs.Str? ==> r == Failure(TypeError)
    ensures r.Success? ==> r.value.Arr?
  {
    match Iterate(xs)
    case None => Failure(TypeError)
    case Some(vs) =>
      match Lists.DropPrefixM(Predicate(fuel, f), vs)
      case Success(ys) => Success(Arr(ys))
      case Failure(e) => Failure(e)
  }

  /** What takeWhile returns is a prefix of its input. */
  lemma {:induction false} TakeWhileMPrefix<A, E>(p: A -> Result<bool, E>, xs: seq<A>)
    ensures Lists.TakeWhileM(p, xs).Success? ==> Lists.TakeWhileM(p, xs).value <= xs
    decreases |xs|
  {
    if xs != [] {
      TakeWhileMPrefix(p, xs[1..]);
      assert xs == [xs[0]] + xs[1..];
    }
  }

  /**
   * A registry entry applied to exactly as many arguments as it declares
   * (`fref(...args)`). Only the entries that take a callable can invoke
   * anything, so only they can run out of fuel.
   */
  function Apply(fuel: nat, op: Op, args: seq<Value>): (r: Outcome)
    requires |args| == Arity(op)
    ensures !TakesCallable(op) ==> r.Failure? ==> Builtins.PlainError(r.error)
    decreases fuel, 4
  {
    match op
    case Map => MapOver(fuel, args[0], args[1])
    case Filter => FilterBy(fuel, args[0], args[1])
    case Every => EveryBy(fuel, args[0], args[1])
    case ElemIndex => FindBy(fuel, args[0], args[1])
    case Foldl => FoldLeft(fuel, args[0], args[1], args[2])
    case Foldl1 => FoldLeft1(fuel, args[0], args[1])
    case Foldr => FoldRight(fuel, args[0], args[1], args[2])
    case Foldr1 => FoldRight1(fuel, args[0], args[1])
    case Scanl => ScanLeft(fuel, args[0], args[1], args[2])
    case Scanr => ScanRight(fuel, args[0], args[1], args[2])
    case TakeWhile => TakeWhileBy(fuel, args[0], args[1])
    case DropWhile => DropWhileAsWritten(fuel, args[0], args[1])
    case _ => Builtins.FirstOrder(op, args)
  }

  /**
   * Partial application: a callable with `bound` arguments, called with the
   * remaining ones, runs the entry on `bound + rest`, bound arguments first.
   */
  lemma InvokeBound(fuel: nat, op: Op, bound: seq<Value>, rest: seq<Value>)
    requires |bound| + |rest| == Arity(op)
    ensures Invoke(fuel + 1, Fun(op, bound), rest) == Apply(fuel, op, bound + rest)
  {
    assert Fit(bound + rest, Arity(op)) == bound + rest;
  }

  /** A callable given too few arguments sees `undefined` for each missing one. */
  lemma InvokeShort(fuel: nat, op: Op, bound: seq<Value>, rest: seq<Value>)
    requires |bound| + |rest| < Arity(op)
    ensures var missing := Arity(op) - |bound| - |rest|;
      Invoke(fuel + 1, Fun(op, bound), rest) == Apply(fuel, op, bound + rest + seq(missing, _ => Undefined))
  {
    var missing := Arity(op) - |bound| - |rest|;
    assert Fit(bound + rest, Arity(op)) == bound + rest + seq(missing, _ => Undefined);
  }

  /** foldr as written is foldl over the reversed array: both call `f(acc, elem)`. */
  lemma FoldrIsFoldlOfReverse(fuel: nat, f: Value, z: Value, xs: seq<Value>)
    ensures Apply(fuel, Foldr, [f, z, Arr(xs)]) == Apply(fuel, Foldl, [f, z, Arr(Lists.Reverse(xs))])
  {
    Lists.FoldrMIsFoldlMReversed(Reducer(fuel, f), z, xs);
  }

  /**
   * scanl lists every accumulator of foldl: it starts with the seed, each
   * entry is `f` of the one before and the next element, and it ends with
   * what foldl returns; foldl fails exactly when scanl does, with the same error.
   */
  lemma ScanlIsFoldlSteps(fuel: nat, f: Value, z: Value, xs: seq<Value>)
    requires f.Fun?
    ensures var scan, fold := Apply(fuel, Scanl, [f, z, Arr(xs)]), Apply(fuel, Foldl, [f, z, Arr(xs)]);
      && (scan.Success? <==> fold.Success?)
      && (scan.Failure? ==> scan.error == fold.error)
      && (scan.Success? ==>
        && scan.value.items[0] == z
        && scan.value.items[|xs|] == fold.value
        && forall i :: 0 <= i < |xs| ==> Invoke(fuel, f, [scan.value.items[i], xs[i]]) == Success(scan.value.items[i + 1]))
  {
    ApplyScanl(fuel, f, z, xs);
    ApplyFoldl(fuel, f, z, xs);
    var r := Lists.ScanlM(Reducer(fuel, f), z, xs);
    if r.Success? {
      Lists.ScanlMSteps(Reducer(fuel, f), z, xs);
      forall i | 0 <= i < |xs|
        ensures Invoke(fuel, f, [r.value[i], xs[i]]) == Success(r.value[i + 1])
      {
        assert Reducer(fuel, f)(r.value[i], xs[i]) == Success(r.value[i + 1]);
      }
    }
  }

  /**
   * scanr ends with the seed, each entry is `f(elem, next entry)`, and its
   * first entry is the right fold `f(x0, f(x1, ... f(xn, z)))`.
   */
  lemma ScanrSteps(fuel: nat, f: Value, xs: seq<Value>, z: Value)
    requires Apply(fuel, Scanr, [f, Arr(xs), z]).Success?
    ensures var items := Apply(fuel, Scanr, [f, Arr(xs), z]).value.items;
      && |items| == |xs| + 1
      && items[|xs|] == z
      && (forall i :: 0 <= i < |xs| ==> Invoke(fuel, f, [xs[i], items[i + 1]]) == Success(items[i]))
      && Lists.RightFold(Combiner(fuel, f), z, xs) == Success(items[0])
  {
    var r := Lists.ScanrM(Combiner(fuel, f), xs, z);
    Lists.ScanrMHead(Combiner(fuel, f), xs, z);
    Lists.ScanrMSteps(Combiner(fuel, f), xs, z);
    forall i | 0 <= i < |xs|
      ensures Invoke(fuel, f, [xs[i], r.value[i + 1]]) == Success(r.value[i])
    {
      assert Combiner(fuel, f)(xs[i], r.value[i + 1]) == Success(r.value[i]);
    }
  }

  /**
   * takeWhile returns the longest prefix the callback accepts: when the
   * callback accepts the first k items and then refuses one (or the input
   * ends), the result is exactly those k items; when it fails there, that failure.
   */
  lemma TakeWhileLongestPrefix(fuel: nat, f: Value, xs: Value, k: nat)
    requires xs.Arr? || xs.Str?
    requires k <= |Iterate(xs).value| && Lists.Answers(Predicate(fuel, f), Iterate(xs).value, k, true)
    ensures var vs := Iterate(xs).value;
      && (k == |vs| ==> Apply(fuel, TakeWhile, [f, xs]) == Success(Arr(vs)))
      && (k < |vs| && Predicate(fuel, f)(vs[k]) == Success(false) ==>
            Apply(fuel, TakeWhile, [f, xs]) == Success(Arr(vs[..k])))
      && (k < |vs| && Predicate(fuel, f)(vs[k]).Failure? ==>
            Apply(fuel, TakeWhile, [f, xs]) == Failure(Predicate(fuel, f)(vs[k]).error))
  {
    var vs := Iterate(xs).value;
    assert Apply(fuel, TakeWhile, [f, xs]) == TakeWhileBy(fuel, f, xs);
    Lists.TakeWhileMLongestPrefix(Predicate(fuel, f), vs, k);
  }

  /**
   * dropWhile as written returns the longest prefix the callback REFUSES,
   * stopping at the first item it accepts; it is takeWhile of the negated callback.
   */
  lemma DropWhileLongestRefusedPrefix(fuel: nat, f: Value, xs: Value, k: nat)
    requires xs.Arr? || xs.Str?
    requires k <= |Iterate(xs).value| && Lists.Answers(Predicate(fuel, f), Iterate(xs).value, k, false)
    ensures var vs := Iterate(xs).value;
      && DropWhileAsWritten(fuel, f, xs) == (match Lists.TakeWhileM(Lists.Negate(Predicate(fuel, f)), vs)
                                             case Success(ys) => Success(Arr(ys))
                                             case Failure(e) => Failure(e))
      && (k == |vs| ==> DropWhileAsWritten(fuel, f, xs) == Success(Arr(vs)))
      && (k < |vs| && Predicate(fuel, f)(vs[k]) == Success(true) ==>
            DropWhileAsWritten(fuel, f, xs) == Success(Arr(vs[..k])))
      && (k < |vs| && Predicate(fuel, f)(vs[k]).Failure? ==>
            DropWhileAsWritten(fuel, f, xs) == Failure(Predicate(fuel, f)(vs[k]).error))
  {
    var vs := Iterate(xs).value;
    var p := Predicate(fuel, f);
    Lists.DropWhileMIsTakeWhileMNegated(p, vs);
    assert Lists.Answers(Lists.Negate(p), vs, k, true) by {
      forall j | 0 <= j < k ensures Lists.Negate(p)(vs[j]) == Success(true) {
        assert p(vs[j]) == Success(false);
      }
    }
    Lists.TakeWhileMLongestPrefix(Lists.Negate(p), vs, k);
  }

  /**
   * The registry's takeWhile and dropWhile never both keep something: the
   * first item decides, since takeWhile keeps it only if the callback
   * accepts it and dropWhile as written keeps it only if the callback refuses it.
   */
  lemma TakeWhileDropWhileExclusive(fuel: nat, f: Value, xs: Value)
    requires xs.Arr? || xs.Str?
    ensures var t, d := Apply(fuel, TakeWhile, [f, xs]), Apply(fuel, DropWhile, [f, xs]);
      t.Success? && d.Success? ==> t.value.items == [] || d.value.items == []
  {
    var vs := Iterate(xs).value;
    if vs != [] {
      var p := Predicate(fuel, f);
      if p(vs[0]) == Success(true) {
        DropWhileRefusedPrefix(fuel, f, xs, 0);
      } else if p(vs[0]) == Success(false) {
        TakeWhileLongestPrefix(fuel, f, xs, 0);
      }
    }
  }

  /**
   * The registry's dropWhile, as engine.js runs it, returns the longest
   * prefix the callback refuses, stopping at the first item it accepts.
   */
  lemma DropWhileRefusedPrefix(fuel: nat, f: Value, xs: Value, k: nat)
    requires xs.Arr? || xs.Str?
    requires k <= |Iterate(xs).value| && Lists.Answers(Predicate(fuel, f), Iterate(xs).value, k, false)
    ensures var vs := Iterate(xs).value;
      && (k == |vs| ==> Apply(fuel, DropWhile, [f, xs]) == Success(Arr(vs)))
      && (k < |vs| && Predicate(fuel, f)(vs[k]) == Success(true) ==>
            Apply(fuel, DropWhile, [f, xs]) == Success(Arr(vs[..k])))
      && (k < |vs| && Predicate(fuel, f)(vs[k]).Failure? ==>
            Apply(fuel, DropWhile, [f, xs]) == Failure(Predicate(fuel, f)(vs[k]).error))
  {
    ApplyDropWhile(fuel, f, xs);
    DropWhileLongestRefusedPrefix(fuel, f, xs, k);
  }

  /*
   * ApplyFilter, ApplyFirstOrder, ApplyFoldl1, ApplyScanl, ApplyFoldl,
   * ApplyTakeWhile and ApplyDropWhile each unfold Apply for one entry, so
   * that the lemmas using them need not unfold the whole registry.
   */

  /** Apply on `filter` is FilterBy. */
  lemma ApplyFilter(fuel: nat, f: Value, xs: seq<Value>)
    ensures Apply(fuel, Filter, [f, Arr(xs)]) == FilterBy(fuel, f, Arr(xs))
  {
  }

  /** An entry that takes no callable is the plain operation of its arguments. */
  lemma ApplyFirstOrder(fuel: nat, op: Op, args: seq<Value>)
    requires |args| == Arity(op) && !TakesCallable(op)
    ensures Apply(fuel, op, args) == Builtins.FirstOrder(op, args)
  {
  }

  /** Apply on `foldl1` is FoldLeft1. */
  lemma ApplyFoldl1(fuel: nat, f: Value, xs: Value)
    ensures Apply(fuel, Foldl1, [f, xs]) == FoldLeft1(fuel, f, xs)
  {
  }

  /** Apply on `scanl` is ScanLeft. */
  lemma ApplyScanl(fuel: nat, f: Value, z: Value, xs: seq<Value>)
    ensures Apply(fuel, Scanl, [f, z, Arr(xs)]) == ScanLeft(fuel, f, z, Arr(xs))
  {
  }

  /** Apply on `foldl` is FoldLeft. */
  lemma ApplyFoldl(fuel: nat, f: Value, z: Value, xs: seq<Value>)
    ensures Apply(fuel, Foldl, [f, z, Arr(xs)]) == FoldLeft(fuel, f, z, Arr(xs))
  {
  }

  /** Apply on `takeWhile` is TakeWhileBy. */
  lemma ApplyTakeWhile(fuel: nat, f: Value, xs: Value)
    ensures Apply(fuel, TakeWhile, [f, xs]) == TakeWhileBy(fuel, f, xs)
  {
  }

  /** Apply on `dropWhile` is the loop as written. */
  lemma ApplyDropWhile(fuel: nat, f: Value, xs: Value)
    ensures Apply(fuel, DropWhile, [f, xs]) == DropWhileAsWritten(fuel, f, xs)
  {
  }

  lemma SplitBy(fuel: nat, f: Value, xs: Value)
    requires xs.Arr? || xs.Str?
    ensures var t, d := TakeWhileBy(fuel, f, xs), DropWhileBy(fuel, f, xs);
      && (t.Failure? <==> d.Failure?)
      && (t.Failure? ==> t.error == d.error)
      && (t.Success? ==> t.value.items + d.value.items == Iterate(xs).value)
  {
    TakeWhileByOf(fuel, f, xs);
    DropWhileByOf(fuel, f, xs);
    Lists.TakeWhileMDropPrefixM(Predicate(fuel, f), Iterate(xs).value);
  }

  lemma TakeWhileByOf(fuel: nat, f: Value, xs: Value)
    requires xs.Arr? || xs.Str?
    ensures var m := Lists.TakeWhileM(Predicate(fuel, f), Iterate(xs).value);
      && (m.Success? ==> TakeWhileBy(fuel, f, xs) == Success(Arr(m.value)))
      && (m.Failure? ==> TakeWhileBy(fuel, f, xs) == Failure(m.error))
  {
  }

  lemma DropWhileByOf(fuel: nat, f: Value, xs: Value)
    requires xs.Arr? || xs.Str?
    ensures var m := Lists.DropPrefixM(Predicate(fuel, f), Iterate(xs).value);
      && (m.Success? ==> DropWhileBy(fuel, f, xs) == Success(Arr(m.value)))
      && (m.Failure? ==> DropWhileBy(fuel, f, xs) == Failure(m.error))
  {
  }

  /**
   * The corrected dropWhile drops the longest prefix the callback accepts:
   * what is left starts at the first item it refuses, and is empty when it
   * accepts them all.
   */
  lemma DropWhileAfterLongestPrefix(fuel: nat, f: Value, xs: Value, k: nat)
    requires xs.Arr? || xs.Str?
    requires k <= |Iterate(xs).value| && Lists.Answers(Predicate(fuel, f), Iterate(xs).value, k, true)
    ensures var vs := Iterate(xs).value;
      && (k == |vs| ==> DropWhileBy(fuel, f, xs) == Success(Arr([])))
      && (k < |vs| && Predicate(fuel, f)(vs[k]) == Success(false) ==>
            DropWhileBy(fuel, f, xs) == Success(Arr(vs[k..])))
      && (k < |vs| && Predicate(fuel, f)(vs[k]).Failure? ==>
            DropWhileBy(fuel, f, xs) == Failure(Predicate(fuel, f)(vs[k]).error))
  {
    DropWhileByOf(fuel, f, xs);
    Lists.DropPrefixMLongest(Predicate(fuel, f), Iterate(xs).value, k);
  }

  /** filter keeps each accepted value as often as it occurs, and drops every refused one. */
  lemma FilterCount(fuel: nat, f: Value, xs: seq<Value>, x: Value)
    requires Apply(fuel, Filter, [f, Arr(xs)]).Success?
    ensures multiset(Apply(fuel, Filter, [f, Arr(xs)]).value.items)[x] ==
      if Predicate(fuel, f)(x) == Success(true) then multiset(xs)[x] else 0
  {
    ApplyFilter(fuel, f, xs);
    Lists.FilterMCount(Predicate(fuel, f), xs, x);
  }

  /**
   * elemIndex returns the first element the callback accepts (the element
   * itself, not its position), when every earlier one is refused.
   */
  lemma ElemIndexFirst(fuel: nat, f: Value, xs: seq<Value>, k: nat)
    requires f.Fun? && k < |xs|
    requires Lists.Answers(Predicate(fuel, f), xs, k, false) && Predicate(fuel, f)(xs[k]) == Success(true)
    ensures Apply(fuel, ElemIndex, [Arr(xs), f]) == Success(xs[k])
  {
    Lists.FindMFirst(Predicate(fuel, f), xs, k);
    ElemIndexIsFind(fuel, f, xs);
  }

  lemma ElemIndexIsFind(fuel: nat, f: Value, xs: seq<Value>)
    requires f.Fun?
    ensures Lists.FindM(Predicate(fuel, f), xs).Success? && Lists.FindM(Predicate(fuel, f), xs).value.Some? ==>
      Apply(fuel, ElemIndex, [Arr(xs), f]) == Success(Lists.FindM(Predicate(fuel, f), xs).value.value)
  {
    assert Apply(fuel, ElemIndex, [Arr(xs), f]) == FindBy(fuel, Arr(xs), f);
  }
}
