/**
 * `evaluate`: literals come back as they are, arrays are evaluated item by
 * item, `function` nodes apply a registry entry to their evaluated
 * arguments and `reference` nodes give the entry itself or a partial
 * application of it. Any other object is handed back untouched.
 */
module Evaluator {
  import opened Wrappers
  import opened Operations
  import opened Values
  import opened Registry

  /** The two node types `evaluate` acts on. */
  const FunctionKind: string := "function"
  const ReferenceKind: string := "reference"

  /**
   * `evaluate(obj)`. Only applying an operation can produce `undefined`,
   * and only a node can produce a callable.
   */
  function Evaluate(fuel: nat, f: Formula): (r: Outcome)
    ensures r.Success? && r.value.Undefined? ==> f.FNode? && f.kind == FunctionKind
    ensures r.Success? && r.value.Fun? ==> f.FNode? && (f.kind == FunctionKind || f.kind == ReferenceKind)
    ensures f.FList? && r.Success? ==> r.value.Arr? && |r.value.items| == |f.items|
    decreases f, 1
  {
    match f
    case FNull => Success(Null)
    case FBool(b) => Success(Bool(b))
    case FNum(n) => Success(Num(n))
    case FStr(s) => Success(Str(s))
    case FList(items) =>
      (match EvalSeq(fuel, items)
       case Success(vs) => Success(Arr(vs))
       case Failure(e) => Failure(e))
    case FNode(kind, name, args) =>
      if kind == FunctionKind then EvalCall(fuel, name, args)
      else if kind == ReferenceKind then EvalReference(fuel, name, args)
      else Success(Obj(kind, name, args))
  }

  /**
   * `fargs.map(evaluate)`: the values of all the formulas in order, or the
   * error of the first one that fails.
   */
  function EvalSeq(fuel: nat, fs: seq<Formula>): (r: Result<seq<Value>, Error>)
    ensures r.Success? ==> |r.value| == |fs| && forall i :: 0 <= i < |fs| ==> Evaluate(fuel, fs[i]) == Success(r.value[i])
    ensures r.Failure? ==> exists k :: 0 <= k < |fs| && EvaluatesBefore(fuel, fs, k) && Evaluate(fuel, fs[k]) == Failure(r.error)
    decreases fs, 2
  {
    if fs == [] then Success([])
    else
      match Evaluate(fuel, fs[0])
      case Failure(e) =>
        assert EvaluatesBefore(fuel, fs, 0);
        Failure(e)
      case Success(v) =>
        match EvalSeq(fuel, fs[1..])
        case Failure(e) =>
          ghost var k :| 0 <= k < |fs| - 1 && EvaluatesBefore(fuel, fs[1..], k) && Evaluate(fuel, fs[1..][k]) == Failure(e);
          assert EvaluatesBefore(fuel, fs, k + 1) by {
            forall j | 1 <= j < k + 1 ensures Evaluate(fuel, fs[j]).Success? {
              assert fs[j] == fs[1..][j - 1];
            }
          }
          Failure(e)
        case Success(vs) =>
          assert forall i :: 1 <= i < |fs| ==> fs[i] == fs[1..][i - 1];
          Success([v] + vs)
  }

  /** Each of the first k formulas evaluates without error. */
  ghost predicate EvaluatesBefore(fuel: nat, fs: seq<Formula>, k: int)
    requires 0 <= k <= |fs|
    decreases fs, 1
  {
    forall j :: 0 <= j < k ==> Evaluate(fuel, fs[j]).Success?
  }

  /** The argument list of a node, when it is present (truthy) at all. */
  predicate HasArgs(args: Option<Formula>) {
    args.Some? && FormulaTruthy(args.value)
  }

  /**
   * A `function` node: the name must be registered, `args` present, an
   * array, and exactly as long as the entry's arity; only then are the
   * arguments evaluated and the entry applied to them.
   */
  function EvalCall(fuel: nat, name: string, args: Option<Formula>): (r: Outcome)
    ensures Lookup(name).None? ==> r == Failure(UnknownOperation(name))
    ensures Lookup(name).Some? && !HasArgs(args) ==> r == Failure(MissingArguments)
    ensures Lookup(name).Some? && HasArgs(args) && !args.value.FList? ==> r == Failure(MalformedArguments)
    ensures Lookup(name).Some? && HasArgs(args) && args.value.FList? && |args.value.items| != Arity(Lookup(name).value) ==>
      r == Failure(ArityMismatch(Arity(Lookup(name).value), |args.value.items|))
    decreases FNode(FunctionKind, name, args), 0
  {
    match Lookup(name)
    case None => Failure(UnknownOperation(name))
    case Some(op) =>
      if !HasArgs(args) then Failure(MissingArguments)
      else if !args.value.FList? then Failure(MalformedArguments)
      else if |args.value.items| != Arity(op) then Failure(ArityMismatch(Arity(op), |args.value.items|))
      else
        match EvalSeq(fuel, args.value.items)
        case Failure(e) => Failure(e)
        case Success(vs) => Apply(fuel, op, vs)
  }

  /**
   * A `reference` node: the registered entry itself when `args` is absent,
   * otherwise the entry with its evaluated arguments bound in front; binding
   * all of them (or more) is refused.
   */
  function EvalReference(fuel: nat, name: string, args: Option<Formula>): (r: Outcome)
    ensures Lookup(name).None? ==> r == Failure(UnknownOperation(name))
    ensures Lookup(name).Some? && !HasArgs(args) ==> r == Success(Fun(Lookup(name).value, []))
    ensures Lookup(name).Some? && HasArgs(args) && !args.value.FList? ==> r == Failure(MalformedArguments)
    ensures Lookup(name).Some? && HasArgs(args) && args.value.FList? && |args.value.items| == Arity(Lookup(name).value) ==>
      r == Failure(FullyApplied(Arity(Lookup(name).value)))
    ensures Lookup(name).Some? && HasArgs(args) && args.value.FList? && |args.value.items| > Arity(Lookup(name).value) ==>
      r == Failure(ArityMismatch(Arity(Lookup(name).value), |args.value.items|))
    ensures r.Success? && r.value.Fun? ==> |r.value.bound| < Arity(r.value.op)
    decreases FNode(ReferenceKind, name, args), 0
  {
    match Lookup(name)
    case None => Failure(UnknownOperation(name))
    case Some(op) =>
      if !HasArgs(args) then Success(Fun(op, []))
      else if !args.value.FList? then Failure(MalformedArguments)
      else if |args.value.items| == Arity(op) then Failure(FullyApplied(Arity(op)))
      else if |args.value.items| > Arity(op) then Failure(ArityMismatch(Arity(op), |args.value.items|))
      else
        match EvalSeq(fuel, args.value.items)
        case Failure(e) => Failure(e)
        case Success(vs) => Success(Fun(op, vs))
  }

  /**
   * Plain JSON data (booleans, numbers, strings, null, arrays of them, and
   * objects whose `type` is neither node type) evaluates to itself.
   */
  lemma {:induction false} EvaluateQuote(fuel: nat, v: Value)
    requires Inert(v)
    ensures Evaluate(fuel, Quote(v)) == Success(v)
    decreases v
  {
    if v.Arr? {
      var fs := Quote(v).items;
      forall i | 0 <= i < |fs|
        ensures Evaluate(fuel, fs[i]) == Success(v.items[i])
      {
        EvaluateQuote(fuel, v.items[i]);
      }
      EvalSeqAll(fuel, fs, v.items);
    }
  }

  /** When every formula evaluates, the list evaluates to their values in order. */
  lemma {:induction false} EvalSeqAll(fuel: nat, fs: seq<Formula>, vs: seq<Value>)
    requires |fs| == |vs| && forall i :: 0 <= i < |fs| ==> Evaluate(fuel, fs[i]) == Success(vs[i])
    ensures EvalSeq(fuel, fs) == Success(vs)
    decreases |fs|
  {
    if fs != [] {
      forall i | 0 <= i < |fs| - 1 ensures Evaluate(fuel, fs[1..][i]) == Success(vs[1..][i]) {
        assert fs[1..][i] == fs[i + 1];
      }
      EvalSeqAll(fuel, fs[1..], vs[1..]);
      assert Evaluate(fuel, fs[0]) == Success(vs[0]);
      assert vs == [vs[0]] + vs[1..];
    }
  }

  /**
   * Evaluating two argument lists one after the other is evaluating their
   * concatenation: the first list's error comes first.
   */
  lemma {:induction false} EvalSeqAppend(fuel: nat, a: seq<Formula>, b: seq<Formula>)
    ensures EvalSeq(fuel, a + b) ==
      if EvalSeq(fuel, a).Failure? then EvalSeq(fuel, a)
      else if EvalSeq(fuel, b).Failure? then EvalSeq(fuel, b)
      else Success(EvalSeq(fuel, a).value + EvalSeq(fuel, b).value)
    decreases |a|
  {
    if a == [] {
      assert a + b == b;
      if EvalSeq(fuel, b).Success? {
        assert [] + EvalSeq(fuel, b).value == EvalSeq(fuel, b).value;
      }
    } else {
      assert (a + b)[0] == a[0];
      assert (a + b)[1..] == a[1..] + b;
      EvalSeqAppend(fuel, a[1..], b);
      if Evaluate(fuel, a[0]).Success? && EvalSeq(fuel, a[1..]).Success? && EvalSeq(fuel, b).Success? {
        var v, l, r := Evaluate(fuel, a[0]).value, EvalSeq(fuel, a[1..]).value, EvalSeq(fuel, b).value;
        assert [v] + (l + r) == ([v] + l) + r;
      }
    }
  }

  /** A `function` node whose checks pass applies the entry to its evaluated arguments, in order. */
  lemma CallApplies(fuel: nat, name: string, fs: seq<Formula>)
    requires Lookup(name).Some? && |fs| == Arity(Lookup(name).value)
    ensures EvalSeq(fuel, fs).Failure? ==>
      Evaluate(fuel, FNode(FunctionKind, name, Some(FList(fs)))) == Failure(EvalSeq(fuel, fs).error)
    ensures EvalSeq(fuel, fs).Success? ==>
      Evaluate(fuel, FNode(FunctionKind, name, Some(FList(fs)))) == Apply(fuel, Lookup(name).value, EvalSeq(fuel, fs).value)
  {
  }

  /**
   * Partial application: a `reference` node binding the first arguments,
   * called with the rest, behaves as the `function` node given all of them
   * (the call through the callable spends one unit of fuel).
   */
  lemma PartialApplication(fuel: nat, name: string, a: seq<Formula>, b: seq<Formula>)
    requires Lookup(name).Some? && b != [] && |a| + |b| == Arity(Lookup(name).value)
    ensures var call, partial := FNode(FunctionKind, name, Some(FList(a + b))), FNode(ReferenceKind, name, Some(FList(a)));
      Evaluate(fuel, call) ==
        if Evaluate(fuel, partial).Failure? then Failure(Evaluate(fuel, partial).error)
        else if EvalSeq(fuel, b).Failure? then Failure(EvalSeq(fuel, b).error)
        else Invoke(fuel + 1, Evaluate(fuel, partial).value, EvalSeq(fuel, b).value)
  {
    var op := Lookup(name).value;
    EvalSeqAppend(fuel, a, b);
    CallApplies(fuel, name, a + b);
    if EvalSeq(fuel, a).Success? && EvalSeq(fuel, b).Success? {
      InvokeBound(fuel, op, EvalSeq(fuel, a).value, EvalSeq(fuel, b).value);
    }
  }
}
