/**
 * The list combinators behind the registry, generic in the element type.
 * A callback may fail (it may itself throw), so every combinator takes a
 * callback returning a Result and stops at the first failure, in the order
 * in which the JavaScript array method calls its callback.
 */
module Lists {
  import opened Wrappers

  /** The callback answers `b` for each of the first `k` elements of `xs`. */
  ghost predicate Answers<A, E>(p: A -> Result<bool, E>, xs: seq<A>, k: int, b: bool)
    requires 0 <= k <= |xs|
  {
    forall j :: 0 <= j < k ==> p(xs[j]) == Success(b)
  }

  /** The callback succeeds on each of the first `k` elements of `xs`. */
  ghost predicate SucceedsBefore<A, B, E>(f: A -> Result<B, E>, xs: seq<A>, k: int)
    requires 0 <= k <= |xs|
  {
    forall j :: 0 <= j < k ==> f(xs[j]).Success?
  }

  /** `xs.map(f)`: the callback's results in order, or its first failure. */
  function MapM<A, B, E>(f: A -> Result<B, E>, xs: seq<A>): (r: Result<seq<B>, E>)
    ensures r.Success? ==> |r.value| == |xs| && forall i :: 0 <= i < |xs| ==> f(xs[i]) == Success(r.value[i])
    ensures r.Failure? ==> exists k :: 0 <= k < |xs| && SucceedsBefore(f, xs, k) && f(xs[k]) == Failure(r.error)
  {
    if xs == [] then Success([])
    else
      match f(xs[0])
      case Failure(e) =>
        assert SucceedsBefore(f, xs, 0);
        Failure(e)
      case Success(y) =>
        match MapM(f, xs[1..])
        case Failure(e) =>
          ghost var k :| 0 <= k < |xs| - 1 && SucceedsBefore(f, xs[1..], k) && f(xs[1..][k]) == Failure(e);
          assert SucceedsBefore(f, xs, k + 1);
          Failure(e)
        case Success(ys) => Success([y] + ys)
  }

  /** `xs.filter(p)`: the elements the callback accepts, in order; the callback sees every element. */
  function FilterM<A, E>(p: A -> Result<bool, E>, xs: seq<A>): (r: Result<seq<A>, E>)
    ensures r.Success? ==> SucceedsBefore(p, xs, |xs|)
    ensures r.Success? ==> |r.value| <= |xs| && forall i :: 0 <= i < |r.value| ==> p(r.value[i]) == Success(true)
    ensures r.Failure? ==> exists k :: 0 <= k < |xs| && SucceedsBefore(p, xs, k) && p(xs[k]) == Failure(r.error)
  {
    if xs == [] then Success([])
    else
      match p(xs[0])
      case Failure(e) =>
        assert SucceedsBefore(p, xs, 0);
        Failure(e)
      case Success(keep) =>
        match FilterM(p, xs[1..])
        case Failure(e) =>
          ghost var k :| 0 <= k < |xs| - 1 && SucceedsBefore(p, xs[1..], k) && p(xs[1..][k]) == Failure(e);
          assert SucceedsBefore(p, xs, k + 1);
          Failure(e)
        case Success(ys) =>
          assert SucceedsBefore(p, xs, |xs|) by {
            forall j | 1 <= j < |xs| ensures p(xs[j]).Success? {
              assert xs[j] == xs[1..][j - 1];
            }
          }
          if keep then Success([xs[0]] + ys) else Success(ys)
  }

  /** Filtering keeps each value exactly as often as it occurs, when the callback accepts it. */
  lemma {:induction false} FilterMCount<A, E>(p: A -> Result<bool, E>, xs: seq<A>, x: A)
    requires FilterM(p, xs).Success?
    ensures multiset(FilterM(p, xs).value)[x] == if p(x) == Success(true) then multiset(xs)[x] else 0
  {
    if xs != [] {
      FilterMCount(p, xs[1..], x);
      assert xs == [xs[0]] + xs[1..];
    }
  }

  /** Filtering a concatenation filters each part in order; the first part's failure comes first. */
  lemma {:induction false} FilterMAppend<A, E>(p: A -> Result<bool, E>, xs: seq<A>, ys: seq<A>)
    ensures FilterM(p, xs + ys) ==
      match FilterM(p, xs)
      case Failure(e) => Failure(e)
      case Success(l) =>
        match FilterM(p, ys)
        case Failure(e) => Failure(e)
        case Success(r) => Success(l + r)
  {
    if xs != [] {
      assert (xs + ys)[0] == xs[0];
      assert (xs + ys)[1..] == xs[1..] + ys;
      FilterMAppend(p, xs[1..], ys);
      if p(xs[0]).Success? && FilterM(p, xs[1..]).Success? && FilterM(p, ys).Success? {
        var l, r := FilterM(p, xs[1..]).value, FilterM(p, ys).value;
        assert [xs[0]] + (l + r) == ([xs[0]] + l) + r;
      }
    } else {
      assert xs + ys == ys;
      if FilterM(p, ys).Success? {
        assert [] + FilterM(p, ys).value == FilterM(p, ys).value;
      }
    }
  }

  /** `xs.every(p)`: true when the callback accepts every element; stops at the first refusal. */
  function EveryM<A, E>(p: A -> Result<bool, E>, xs: seq<A>): Result<bool, E> {
    if xs == [] then Success(true)
    else
      match p(xs[0])
      case Failure(e) => Failure(e)
      case Success(ok) => if ok then EveryM(p, xs[1..]) else Success(false)
  }

  /** every answers true exactly when the callback accepts every element. */
  lemma {:induction false} EveryMAll<A, E>(p: A -> Result<bool, E>, xs: seq<A>)
    ensures EveryM(p, xs) == Success(true) <==> Answers(p, xs, |xs|, true)
  {
    if xs != [] && p(xs[0]) == Success(true) {
      EveryMAll(p, xs[1..]);
      if Answers(p, xs[1..], |xs| - 1, true) {
        forall j | 1 <= j < |xs| ensures p(xs[j]) == Success(true) {
          assert xs[j] == xs[1..][j - 1];
        }
      }
    }
  }

  /**
   * Otherwise every stops at the first element the callback does not
   * accept: it answers false where the callback refuses, and fails with
   * the callback's own error.
   */
  lemma {:induction false} EveryMStops<A, E>(p: A -> Result<bool, E>, xs: seq<A>)
    ensures EveryM(p, xs) == Success(false) ==>
      exists k :: 0 <= k < |xs| && Answers(p, xs, k, true) && p(xs[k]) == Success(false)
    ensures EveryM(p, xs).Failure? ==>
      exists k :: 0 <= k < |xs| && Answers(p, xs, k, true) && p(xs[k]) == Failure(EveryM(p, xs).error)
  {
    if xs != [] {
      if p(xs[0]) == Success(true) {
        EveryMStops(p, xs[1..]);
        var r := EveryM(p, xs[1..]);
        if r == Success(false) {
          var k :| 0 <= k < |xs| - 1 && Answers(p, xs[1..], k, true) && p(xs[1..][k]) == Success(false);
          assert Answers(p, xs, k + 1, true);
        } else if r.Failure? {
          var k :| 0 <= k < |xs| - 1 && Answers(p, xs[1..], k, true) && p(xs[1..][k]) == Failure(r.error);
          assert Answers(p, xs, k + 1, true);
        }
      } else {
        assert Answers(p, xs, 0, true);
      }
    }
  }

  /** `xs.find(p)`: the first element the callback accepts, if any. */
  function FindM<A, E>(p: A -> Result<bool, E>, xs: seq<A>): Result<Option<A>, E> {
    if xs == [] then Success(None)
    else
      match p(xs[0])
      case Failure(e) => Failure(e)
      case Success(found) => if found then Success(Some(xs[0])) else FindM(p, xs[1..])
  }

  /** find answers nothing exactly when the callback refuses every element. */
  lemma {:induction false} FindMNone<A, E>(p: A -> Result<bool, E>, xs: seq<A>)
    ensures FindM(p, xs) == Success(None) <==> Answers(p, xs, |xs|, false)
  {
    if xs != [] && p(xs[0]) == Success(false) {
      FindMNone(p, xs[1..]);
      if Answers(p, xs[1..], |xs| - 1, false) {
        forall j | 1 <= j < |xs| ensures p(xs[j]) == Success(false) {
          assert xs[j] == xs[1..][j - 1];
        }
      }
    }
  }

  /**
   * Otherwise find stops at the first element the callback does not refuse:
   * it returns the element the callback accepts, or fails with the
   * callback's own error.
   */
  lemma {:induction false} FindMStops<A, E>(p: A -> Result<bool, E>, xs: seq<A>)
    ensures FindM(p, xs).Success? && FindM(p, xs).value.Some? ==>
      exists k :: 0 <= k < |xs| && Answers(p, xs, k, false) && p(xs[k]) == Success(true) && xs[k] == FindM(p, xs).value.value
    ensures FindM(p, xs).Failure? ==>
      exists k :: 0 <= k < |xs| && Answers(p, xs, k, false) && p(xs[k]) == Failure(FindM(p, xs).error)
  {
    if xs != [] {
      if p(xs[0]) == Success(false) {
        FindMStops(p, xs[1..]);
        var r := FindM(p, xs[1..]);
        if r.Success? && r.value.Some? {
          var k :| 0 <= k < |xs| - 1 && Answers(p, xs[1..], k, false) && p(xs[1..][k]) == Success(true) && xs[1..][k] == r.value.value;
          assert Answers(p, xs, k + 1, false);
        } else if r.Failure? {
          var k :| 0 <= k < |xs| - 1 && Answers(p, xs[1..], k, false) && p(xs[1..][k]) == Failure(r.error);
          assert Answers(p, xs, k + 1, false);
        }
      } else {
        assert Answers(p, xs, 0, false);
      }
    }
  }

  /** find returns the element at k when the callback refuses everything before k and accepts k. */
  lemma {:induction false} FindMFirst<A, E>(p: A -> Result<bool, E>, xs: seq<A>, k: nat)
    requires k < |xs| && Answers(p, xs, k, false) && p(xs[k]) == Success(true)
    ensures FindM(p, xs) == Success(Some(xs[k]))
  {
    if k > 0 {
      assert p(xs[0]) == Success(false);
      assert Answers(p, xs[1..], k - 1, false) by {
        forall j | 0 <= j < k - 1 ensures p(xs[1..][j]) == Success(false) {
          assert xs[1..][j] == xs[j + 1];
        }
      }
      FindMFirst(p, xs[1..], k - 1);
    }
  }

  /**
   * The generator loop of `takeWhile`: the leading elements the callback
   * accepts, stopping at the first element it refuses.
   */
  function TakeWhileM<A, E>(p: A -> Result<bool, E>, xs: seq<A>): (r: Result<seq<A>, E>)
    decreases |xs|
  {
    if xs == [] then Success([])
    else
      match p(xs[0])
      case Failure(e) => Failure(e)
      case Success(ok) =>
        if !ok then Success([])
        else
          match TakeWhileM(p, xs[1..])
          case Failure(e) => Failure(e)
          case Success(t) => Success([xs[0]] + t)
  }

  /**
   * The generator loop of `dropWhile` as written: it yields the leading
   * elements the callback REFUSES and stops at the first one it accepts.
   */
  function DropWhileM<A, E>(p: A -> Result<bool, E>, xs: seq<A>): (r: Result<seq<A>, E>)
    decreases |xs|
  {
    if xs == [] then Success([])
    else
      match p(xs[0])
      case Failure(e) => Failure(e)
      case Success(ok) =>
        if ok then Success([])
        else
          match DropWhileM(p, xs[1..])
          case Failure(e) => Failure(e)
          case Success(t) => Success([xs[0]] + t)
  }

  /**
   * takeWhile returns the longest prefix whose elements the callback all
   * answers `true`, when the callback answers false (or runs out of input)
   * right after it; when the callback first fails there instead, that failure.
   */
  lemma {:induction false} TakeWhileMLongestPrefix<A, E>(p: A -> Result<bool, E>, xs: seq<A>, k: nat)
    requires k <= |xs| && Answers(p, xs, k, true)
    ensures k == |xs| ==> TakeWhileM(p, xs) == Success(xs)
    ensures k < |xs| && p(xs[k]) == Success(false) ==> TakeWhileM(p, xs) == Success(xs[..k])
    ensures k < |xs| && p(xs[k]).Failure? ==> TakeWhileM(p, xs) == Failure(p(xs[k]).error)
    decreases k
  {
    if k > 0 {
      assert Answers(p, xs[1..], k - 1, true) by {
        forall j | 0 <= j < k - 1 ensures p(xs[1..][j]) == Success(true) {
          assert xs[1..][j] == xs[j + 1];
        }
      }
      TakeWhileMLongestPrefix(p, xs[1..], k - 1);
      assert p(xs[0]) == Success(true);
      assert [xs[0]] + xs[1..] == xs;
      if k < |xs| {
        assert [xs[0]] + xs[1..][..k - 1] == xs[..k];
      }
    }
  }

  /** The callback with its answer negated; failures pass through. */
  function Negate<A, E>(p: A -> Result<bool, E>): A -> Result<bool, E>
  {
    x => match p(x) case Success(b) => Success(!b) case Failure(e) => Failure(e)
  }

  /** dropWhile as written is takeWhile with the callback's answer negated. */
  lemma {:induction false} DropWhileMIsTakeWhileMNegated<A, E>(p: A -> Result<bool, E>, xs: seq<A>)
    ensures DropWhileM(p, xs) == TakeWhileM(Negate(p), xs)
    decreases |xs|
  {
    if xs != [] {
      DropWhileMIsTakeWhileMNegated(p, xs[1..]);
    }
  }

  /**
   * dropWhile as evidently intended: the leading elements the callback
   * accepts are dropped, and the rest is kept from the first element it refuses.
   */
  function DropPrefixM<A, E>(p: A -> Result<bool, E>, xs: seq<A>): Result<seq<A>, E>
    decreases |xs|
  {
    if xs == [] then Success([])
    else
      match p(xs[0])
      case Failure(e) => Failure(e)
      case Success(ok) =>
        if ok then
          DropPrefixM(p, xs[1..])
        else Success(xs)
  }

  /**
   * takeWhile and the intended dropWhile split the input: they fail alike,
   * and otherwise the kept prefix followed by the remainder is the input.
   */
  lemma {:induction false} TakeWhileMDropPrefixM<A, E>(p: A -> Result<bool, E>, xs: seq<A>)
    ensures TakeWhileM(p, xs).Failure? <==> DropPrefixM(p, xs).Failure?
    ensures TakeWhileM(p, xs).Failure? ==> DropPrefixM(p, xs).error == TakeWhileM(p, xs).error
    ensures TakeWhileM(p, xs).Success? ==> TakeWhileM(p, xs).value + DropPrefixM(p, xs).value == xs
    decreases |xs|
  {
    if xs != [] {
      TakeWhileMDropPrefixM(p, xs[1..]);
      if p(xs[0]) == Success(true) {
        match TakeWhileM(p, xs[1..])
        case Failure(_) =>
        case Success(t) =>
          var d := DropPrefixM(p, xs[1..]).value;
          assert TakeWhileM(p, xs) == Success([xs[0]] + t);
          assert DropPrefixM(p, xs) == Success(d);
          assert [xs[0]] + t + d == [xs[0]] + (t + d);
          assert [xs[0]] + xs[1..] == xs;
      }
    }
  }

  /**
   * The intended dropWhile keeps exactly what follows the longest prefix the
   * callback accepts: from index k when the callback accepts the first k
   * elements and refuses the next one; nothing when it accepts them all.
   */
  lemma DropPrefixMLongest<A, E>(p: A -> Result<bool, E>, xs: seq<A>, k: nat)
    requires k <= |xs| && Answers(p, xs, k, true)
    ensures k == |xs| ==> DropPrefixM(p, xs) == Success([])
    ensures k < |xs| && p(xs[k]) == Success(false) ==> DropPrefixM(p, xs) == Success(xs[k..])
    ensures k < |xs| && p(xs[k]).Failure? ==> DropPrefixM(p, xs) == Failure(p(xs[k]).error)
  {
    TakeWhileMLongestPrefix(p, xs, k);
    TakeWhileMDropPrefixM(p, xs);
    if k < |xs| && p(xs[k]) == Success(false) {
      var d := DropPrefixM(p, xs).value;
      assert xs[..k] + d == xs;
      assert d == xs[k..];
    }
  }

  /**
   * `takeWhile` as the source runs it: a `for ... of` loop that yields
   * accepted elements and returns at the first refused one.
   */
  method TakeWhileLoop<A, E>(p: A -> Result<bool, E>, xs: seq<A>) returns (r: Result<seq<A>, E>)
    ensures r == TakeWhileM(p, xs)
  {
    var taken := [];
    for i := 0 to |xs|
      invariant taken == xs[..i]
      invariant Answers(p, xs, i, true)
    {
      var answer := p(xs[i]);
      if answer.Failure? {
        TakeWhileMLongestPrefix(p, xs, i);
        return Failure(answer.error);
      }
      if !answer.value {
        TakeWhileMLongestPrefix(p, xs, i);
        return Success(taken);
      }
      taken := taken + [xs[i]];
    }
    TakeWhileMLongestPrefix(p, xs, |xs|);
    assert xs[..|xs|] == xs;
    return Success(taken);
  }

  /** `dropWhile` as the source runs it: yields refused elements, returns at the first accepted one. */
  method DropWhileLoop<A, E>(p: A -> Result<bool, E>, xs: seq<A>) returns (r: Result<seq<A>, E>)
    ensures r == DropWhileM(p, xs)
  {
    DropWhileMIsTakeWhileMNegated(p, xs);
    var kept := [];
    for i := 0 to |xs|
      invariant kept == xs[..i]
      invariant Answers(p, xs, i, false)
      invariant Answers(Negate(p), xs, i, true)
    {
      var answer := p(xs[i]);
      if answer.Failure? {
        TakeWhileMLongestPrefix(Negate(p), xs, i);
        return Failure(answer.error);
      }
      if answer.value {
        TakeWhileMLongestPrefix(Negate(p), xs, i);
        return Success(kept);
      }
      kept := kept + [xs[i]];
    }
    TakeWhileMLongestPrefix(Negate(p), xs, |xs|);
    assert xs[..|xs|] == xs;
    return Success(kept);
  }

  /** `xs.reduce(f, z)`: a left fold; the callback receives (accumulator, element). */
  function FoldlM<A, B, E>(f: (B, A) -> Result<B, E>, z: B, xs: seq<A>): Result<B, E>
  {
    if xs == [] then Success(z)
    else
      match f(z, xs[0])
      case Failure(e) => Failure(e)
      case Success(acc) => FoldlM(f, acc, xs[1..])
  }

  /** `xs.reduceRight(f, z)`: the callback still receives (accumulator, element), from the last element back. */
  function FoldrM<A, B, E>(f: (B, A) -> Result<B, E>, z: B, xs: seq<A>): Result<B, E>
  {
    if xs == [] then Success(z)
    else
      match f(z, xs[|xs| - 1])
      case Failure(e) => Failure(e)
      case Success(acc) => FoldrM(f, acc, xs[..|xs| - 1])
  }

  /** The textbook right fold: g(x0, g(x1, ... g(xn, z))), innermost call first. */
  function RightFold<A, B, E>(g: (A, B) -> Result<B, E>, z: B, xs: seq<A>): Result<B, E>
  {
    if xs == [] then Success(z)
    else
      match RightFold(g, z, xs[1..])
      case Failure(e) => Failure(e)
      case Success(acc) => g(xs[0], acc)
  }

  /** The elements in reverse order. */
  function Reverse<T>(s: seq<T>): (r: seq<T>)
    ensures |r| == |s| && forall i :: 0 <= i < |s| ==> r[i] == s[|s| - 1 - i]
  {
    if s == [] then [] else Reverse(s[1..]) + [s[0]]
  }

  lemma ReverseInvolution<T>(s: seq<T>)
    ensures Reverse(Reverse(s)) == s
  {
  }

  /** Folding a concatenation folds the first part, then the second from where the first stopped. */
  lemma {:induction false} FoldlMAppend<A, B, E>(f: (B, A) -> Result<B, E>, z: B, xs: seq<A>, ys: seq<A>)
    ensures FoldlM(f, z, xs + ys) ==
      match FoldlM(f, z, xs)
      case Failure(e) => Failure(e)
      case Success(acc) => FoldlM(f, acc, ys)
  {
    if xs == [] {
      assert xs + ys == ys;
    } else {
      assert (xs + ys)[1..] == xs[1..] + ys;
      match f(z, xs[0])
      case Failure(e) =>
      case Success(acc) => FoldlMAppend(f, acc, xs[1..], ys);
    }
  }

  /** foldr as written is foldl over the reversed input (the callback gets (acc, elem) in both). */
  lemma {:induction false} FoldrMIsFoldlMReversed<A, B, E>(f: (B, A) -> Result<B, E>, z: B, xs: seq<A>)
    ensures FoldrM(f, z, xs) == FoldlM(f, z, Reverse(xs))
    decreases |xs|
  {
    if xs != [] {
      var n := |xs|;
      assert Reverse(xs) == [xs[n - 1]] + Reverse(xs[..n - 1]);
      match f(z, xs[n - 1])
      case Failure(e) =>
      case Success(acc) => FoldrMIsFoldlMReversed(f, acc, xs[..n - 1]);
    }
  }

  /**
   * foldr as written is the textbook right fold of the flipped callback,
   * with the same first failure.
   */
  lemma {:induction false} FoldrMIsRightFold<A, B, E>(f: (B, A) -> Result<B, E>, z: B, xs: seq<A>)
    ensures FoldrM(f, z, xs) == RightFold((x, acc) => f(acc, x), z, xs)
    decreases |xs|
  {
    var g := (x, acc) => f(acc, x);
    if xs != [] {
      var n := |xs|;
      FoldrMIsFoldlMReversed(f, z, xs);
      // Split off the first element: reduceRight reaches it last.
      FoldrMLast(f, z, xs);
      FoldrMIsRightFold(f, z, xs[1..]);
    }
  }

  /** reduceRight finishes with the first element. */
  lemma {:induction false} FoldrMLast<A, B, E>(f: (B, A) -> Result<B, E>, z: B, xs: seq<A>)
    requires xs != []
    ensures FoldrM(f, z, xs) ==
      match FoldrM(f, z, xs[1..])
      case Failure(e) => Failure(e)
      case Success(acc) => f(acc, xs[0])
    decreases |xs|
  {
    var n := |xs|;
    if n > 1 {
      assert xs[..n - 1][1..] == xs[1..][..n - 2];
      assert xs[1..][n - 2] == xs[n - 1];
      match f(z, xs[n - 1])
      case Failure(e) =>
      case Success(acc) => FoldrMLast(f, acc, xs[..n - 1]);
    } else {
      assert xs[..n - 1] == [] && xs[1..] == [];
    }
  }

  /**
   * `xs.reduce((acc, x) => [...acc, f(last(acc), x)], [z])`: every
   * intermediate left-fold accumulator, starting with the seed.
   */
  function ScanlM<A, B, E>(f: (B, A) -> Result<B, E>, z: B, xs: seq<A>): (r: Result<seq<B>, E>)
    ensures r.Success? <==> FoldlM(f, z, xs).Success?
    ensures r.Failure? ==> r.error == FoldlM(f, z, xs).error
    ensures r.Success? ==>
      && |r.value| == |xs| + 1
      && r.value[0] == z
      && r.value[|xs|] == FoldlM(f, z, xs).value
  {
    if xs == [] then Success([z])
    else
      match f(z, xs[0])
      case Failure(e) => Failure(e)
      case Success(acc) =>
        match ScanlM(f, acc, xs[1..])
        case Failure(e) => Failure(e)
        case Success(rest) => Success([z] + rest)
  }

  /** Each entry of scanl is the callback applied to the entry before it and the next element. */
  lemma {:induction false} ScanlMSteps<A, B, E>(f: (B, A) -> Result<B, E>, z: B, xs: seq<A>)
    requires ScanlM(f, z, xs).Success?
    ensures var r := ScanlM(f, z, xs).value;
      forall i :: 0 <= i < |xs| ==> f(r[i], xs[i]) == Success(r[i + 1])
  {
    if xs != [] {
      var acc := f(z, xs[0]).value;
      ScanlMSteps(f, acc, xs[1..]);
      var rest := ScanlM(f, acc, xs[1..]).value;
      var r := ScanlM(f, z, xs).value;
      assert r == [z] + rest;
      forall i | 0 <= i < |xs|
        ensures f(r[i], xs[i]) == Success(r[i + 1])
      {
        if i > 0 {
          assert r[i] == rest[i - 1] && r[i + 1] == rest[i] && xs[i] == xs[1..][i - 1];
        }
      }
    }
  }

  /**
   * `xs.reduceRight((acc, x) => { acc.unshift(f(x, acc[0])); return acc }, [z])`:
   * every intermediate right-fold accumulator, ending with the seed; the
   * callback receives (element, accumulator).
   */
  function ScanrM<A, B, E>(f: (A, B) -> Result<B, E>, xs: seq<A>, z: B): (r: Result<seq<B>, E>)
    ensures r.Success? ==> |r.value| == |xs| + 1 && r.value[|xs|] == z
  {
    if xs == [] then Success([z])
    else
      match ScanrM(f, xs[1..], z)
      case Failure(e) => Failure(e)
      case Success(rest) =>
        match f(xs[0], rest[0])
        case Failure(e) => Failure(e)
        case Success(v) => Success([v] + rest)
  }

  /** Each entry of scanr is the callback applied to its element and the entry after it. */
  lemma {:induction false} ScanrMSteps<A, B, E>(f: (A, B) -> Result<B, E>, xs: seq<A>, z: B)
    requires ScanrM(f, xs, z).Success?
    ensures var r := ScanrM(f, xs, z).value;
      forall i :: 0 <= i < |xs| ==> f(xs[i], r[i + 1]) == Success(r[i])
  {
    if xs != [] {
      ScanrMSteps(f, xs[1..], z);
      var rest := ScanrM(f, xs[1..], z).value;
      var r := ScanrM(f, xs, z).value;
      assert r == [f(xs[0], rest[0]).value] + rest;
      forall i | 0 <= i < |xs|
        ensures f(xs[i], r[i + 1]) == Success(r[i])
      {
        if i > 0 {
          assert r[i] == rest[i - 1] && r[i + 1] == rest[i] && xs[i] == xs[1..][i - 1];
        }
      }
    }
  }

  /** The first entry of scanr is the textbook right fold, and both fail alike. */
  lemma {:induction false} ScanrMHead<A, B, E>(f: (A, B) -> Result<B, E>, xs: seq<A>, z: B)
    ensures ScanrM(f, xs, z).Success? <==> RightFold(f, z, xs).Success?
    ensures ScanrM(f, xs, z).Success? ==> ScanrM(f, xs, z).value[0] == RightFold(f, z, xs).value
    ensures ScanrM(f, xs, z).Failure? ==> ScanrM(f, xs, z).error == RightFold(f, z, xs).error
  {
    if xs != [] {
      ScanrMHead(f, xs[1..], z);
    }
  }

  /**
   * `scanr` as the source runs it: the accumulator array grows at the
   * front (`unshift`) while the input is walked from the last element back.
   */
  method ScanrLoop<A, B, E>(f: (A, B) -> Result<B, E>, xs: seq<A>, z: B) returns (r: Result<seq<B>, E>)
    ensures r == ScanrM(f, xs, z)
  {
    var acc := [z];
    var i := |xs|;
    while i > 0
      invariant 0 <= i <= |xs|
      invariant ScanrM(f, xs[i..], z) == Success(acc)
    {
      i := i - 1;
      assert xs[i..][1..] == xs[i + 1..];
      var v := f(xs[i], acc[0]);
      if v.Failure? {
        ScanrMFailsFrom(f, xs, z, i);
        return Failure(v.error);
      }
      acc := [v.value] + acc;
    }
    assert xs[0..] == xs;
    return Success(acc);
  }

  /** A failure while building the suffix starting at `i` is the failure of the whole scan. */
  lemma {:induction false} ScanrMFailsFrom<A, B, E>(f: (A, B) -> Result<B, E>, xs: seq<A>, z: B, i: nat)
    requires i <= |xs| && ScanrM(f, xs[i..], z).Failure?
    ensures ScanrM(f, xs, z) == ScanrM(f, xs[i..], z)
    decreases i
  {
    if i > 0 {
      assert xs[i - 1..][1..] == xs[i..];
      ScanrMFailsFrom(f, xs, z, i - 1);
    } else {
      assert xs[0..] == xs;
    }
  }

  /**
   * `Array.from({length: b - a + 1}, (_, x) => a + x)`: the integers from
   * `a` up to `b`; a negative length gives no elements.
   */
  function Range(a: int, b: int): (r: seq<int>)
    ensures |r| == if a <= b then b - a + 1 else 0
    ensures forall i :: 0 <= i < |r| ==> r[i] == a + i
  {
    if b < a then [] else seq(b - a + 1, i requires 0 <= i < b - a + 1 => a + i)
  }

  /** A non-empty range is the range one shorter followed by its upper bound. */
  lemma RangeSnoc(a: int, b: int)
    requires a <= b
    ensures Range(a, b) == Range(a, b - 1) + [b]
  {
    assert Range(a, b)[..b - a] == Range(a, b - 1);
  }

  /** How `slice` resolves a relative index against a length: negative counts from the end. */
  function ClampIndex(k: int, len: nat): (r: nat)
    ensures r <= len
    ensures 0 <= k <= len ==> r == k
    ensures k < 0 ==> r == if len + k < 0 then 0 else len + k
    ensures k > len ==> r == len
  {
    if k < 0 then (if len + k < 0 then 0 else len + k)
    else if k < len then k else len
  }

  /** `xs.slice(start, end)`: the elements from the resolved start up to the resolved end. */
  function Slice<T>(xs: seq<T>, start: int, end: int): (r: seq<T>)
    ensures |r| <= |xs|
    ensures 0 <= start <= end <= |xs| ==> r == xs[start..end]
    ensures 0 <= end <= start ==> r == []
  {
    var from, to := ClampIndex(start, |xs|), ClampIndex(end, |xs|);
    if from < to then xs[from..to] else []
  }
}
