# A verified model of the forman formula engine

`engine.js` evaluates formulas written as JSON trees. A formula is a
primitive (boolean, number, string, `null`), an array of formulas, or an
object node. A node with `type: 'function'` names an entry of the frozen
`FUNCTIONS` registry and supplies exactly as many arguments as the entry
declares. The arguments are evaluated left to right, and then the entry is
applied to them. A node with `type: 'reference'` yields the registry entry
itself, or a partial application of it: the node's arguments are evaluated
and bound in front of the ones the callable is later given. Any other
object is handed back unchanged.

The registry holds list and string combinators, such as folds, scans,
`map`, `filter`, `every`, `takeWhile`/`dropWhile` and `elemIndex`. It also
holds integer arithmetic, comparisons, boolean operators, `..` (an integer
range) and `++` (concatenation).

The project is split into these modules:

- `Wrappers`: `Result` and `Option`.
- `Operations`: one identifier per registry key, with its key and the
  parameter count its implementation declares (`fref.length`).
- `Values`: the formula and runtime-value universes, the errors the engine
  can throw, JavaScript truthiness and the JSON round trip used by `id`.
- `Lists`: the sequence combinators, written once and generic over a
  callback that can fail. The first failure wins, in the order JavaScript
  makes the calls. This module also has loop methods for the imperative
  `takeWhile`/`dropWhile` generators and the in-place `scanr` accumulator.
- `Text`: trimming, splitting on a literal separator, ASCII case mapping and
  string order.
- `Builtins`: the entries that take no callable.
- `Registry`: applying an entry (`Apply`) and calling a callable value
  (`Invoke`), together with the entries that take a callable.
- `Evaluator`: `evaluate` itself.
- `Scenarios`: the formulas of the example table, evaluated to their
  results.

Numbers are mathematical integers. A callable value `Fun(op, bound)` is a
registry entry with `bound` arguments bound in front of it. A call to a
callable pads missing arguments with `undefined` and drops surplus ones, as
JavaScript does for arrow functions. Callbacks may themselves call
callbacks, so every invocation spends one unit of a `fuel` argument. Once
the fuel is spent, a call fails with `OutOfFuel`, which the engine itself
never raises.

`Evaluate` and `Apply` run every registry entry as `engine.js` writes it,
including the two defects listed under "## Findings": `dropWhile` keeps the
leading items its callback refuses, and `toLower` always throws. The
intended behaviour of those two entries is defined beside them
(`Registry.DropWhileBy`, `Builtins.ToLower`), with its own lemmas, and is
not reachable from `Evaluate`.

## Model

| member | source | states |
|---|---|---|
| Evaluator.Evaluate | engine.js:71-145 | Only a function node can evaluate to `undefined`. Only a function or reference node can evaluate to a callable. An array formula evaluates to an array of the same length. |
| Evaluator.EvaluateQuote | engine.js:72-85 | A primitive, `null`, an object node of another type, or an array of these evaluates to itself. |
| Evaluator.EvalSeq | engine.js:79-81 | On success, the i-th result is the evaluation of the i-th formula. On failure, every earlier formula succeeded and the first failing formula's error is the result. |
| Evaluator.EvalSeqAll | engine.js:79-81 | If every element evaluates to the matching value, the whole array evaluates to exactly those values. |
| Evaluator.EvalSeqAppend | engine.js:79-81 | Evaluating a concatenation evaluates the first part, and only then the second part, and propagates the first failure. |
| Evaluator.EvalCall | engine.js:88-112 | An unknown name fails with `invalid function`, before any argument is looked at. Then a missing or falsy `args` fails, then a non-array `args`, then an arity mismatch, all before any argument is evaluated. |
| Evaluator.CallApplies | engine.js:105-111 | A function node with exactly `arity` arguments applies the entry to the evaluated arguments in their order. Otherwise it propagates the first argument's error. |
| Evaluator.EvalReference | engine.js:113-140 | An unknown name fails. A node without `args` gives the bare entry. A non-array `args` fails. `k == arity` fails as fully applied. `k > arity` fails. A resulting callable always has fewer bound arguments than its arity. |
| Evaluator.PartialApplication | engine.js:113-139 | Calling a reference node's callable on the values of the remaining arguments equals the function node that has all the arguments, bound ones first. |
| Operations.Lookup | engine.js:2-69 | A found entry is stored under exactly the key looked up. |
| Operations.LookupName | engine.js:90-94 | `Lookup(key)` finds `op` if and only if `op`'s key is `key`. |
| Operations.LookupOwnName | engine.js:2-69 | Every entry is found under its own key. |
| Operations.Arity | engine.js:2-69 | Every entry declares between one and three parameters. |
| Values.Iterate | engine.js:49-66 | Iterating an array gives its items. Iterating a string gives its characters as one-character strings. Anything else cannot be iterated. |
| Values.JsonCopy | engine.js:12 | The JSON round trip fails with a SyntaxError exactly when the value is `undefined` or a function. |
| Values.JsonElement | engine.js:12 | Inside an array, `undefined` and functions become `null`, every other primitive or object is kept as it is, and an array keeps its length with each item converted the same way. |
| Values.JsonCopyOfData | engine.js:12 | Plain JSON data survives the round trip unchanged. |
| Values.JsonCopyIdempotent | engine.js:12 | Copying a copy gives the copy. |
| Values.JsonElementIsData | engine.js:12 | What the round trip produces is plain JSON data. |
| Lists.MapM | engine.js:11 | On success, each result is the callback's result on the matching item. On failure, the callback succeeded on every item before the first failing one, and that failure is returned. |
| Lists.FilterM | engine.js:23 | What is kept is accepted by the callback. On failure, it is the first failing call's error. |
| Lists.FilterMCount | engine.js:23 | `filter` keeps every copy of an accepted item and no copy of a refused one, so what it keeps is a sub-multiset of its input. |
| Lists.FilterMAppend | engine.js:23 | Filtering a concatenation filters both halves in order. |
| Lists.EveryMAll | engine.js:32 | `every` answers true exactly when the callback accepts every item. |
| Lists.EveryMStops | engine.js:32 | `every` answers false, or fails, at the first item that the callback refuses or that fails. |
| Lists.FindMNone | engine.js:44 | `find` answers nothing exactly when the callback refuses every item. |
| Lists.FindMStops | engine.js:44 | `find` returns the first item the callback accepts, or fails at the first failing call. |
| Lists.FindMFirst | engine.js:44 | If every item before `k` is refused and item `k` is accepted, `find` returns item `k`. |
| Lists.TakeWhileMLongestPrefix | engine.js:49-57 | `takeWhile` returns the longest prefix that the callback accepts. It stops at the first refused item, or fails at the first failing call. |
| Lists.DropWhileMIsTakeWhileMNegated | engine.js:58-66 | The `dropWhile` loop as written is `takeWhile` with the callback's answer negated. |
| Lists.TakeWhileMDropPrefixM | engine.js:49-66 | The corrected `dropWhile` fails exactly when `takeWhile` fails, with the same error. Otherwise the two results concatenate to the input. |
| Lists.DropPrefixMLongest | engine.js:58-66 | The corrected `dropWhile` returns everything from the first refused item on. |
| Lists.TakeWhileLoop | engine.js:49-57 | The generator loop, with its early return, computes `TakeWhileM`. |
| Lists.DropWhileLoop | engine.js:58-66 | The generator loop as written computes `DropWhileM`. |
| Lists.Reverse | engine.js:24 | Reversal keeps the length and puts item `i` at position `n-1-i`. |
| Lists.ReverseInvolution | engine.js:24 | Reversing twice gives the input back. |
| Lists.FoldlMAppend | engine.js:14 | A left fold over a concatenation folds the second part from the first part's result. |
| Lists.FoldrMIsFoldlMReversed | engine.js:16 | Because `f` receives `(acc, elem)`, `foldr` is `foldl` over the reversed list. |
| Lists.FoldrMIsRightFold | engine.js:16 | `foldr` is the textbook right fold of the flipped callback. |
| Lists.FoldrMLast | engine.js:16 | `foldr` consumes the last item first. |
| Lists.ScanlM | engine.js:18 | `scanl` succeeds exactly when `foldl` does, and with the same error otherwise. It has `|xs|+1` entries, starts with the seed and ends with the fold's result. |
| Lists.ScanlMSteps | engine.js:18 | Each entry of `scanl` is the callback applied to the previous entry and the matching item. |
| Lists.ScanrM | engine.js:19-22 | `scanr` has `|xs|+1` entries and ends with the seed. |
| Lists.ScanrMSteps | engine.js:19-22 | Entry `i` of `scanr` is `f(xs[i], r[i+1])`. |
| Lists.ScanrMHead | engine.js:19-22 | The first entry of `scanr` is the right fold of the whole list. The two succeed or fail together. |
| Lists.ScanrLoop | engine.js:19-22 | The right-to-left loop that pushes onto the front of the accumulator computes `ScanrM`. |
| Lists.ScanrMFailsFrom | engine.js:19-22 | A failure on a suffix is the failure of the whole scan, since the scan works from the right. |
| Lists.Range | engine.js:42 | `[a, …, b]` has `b-a+1` entries when `a <= b` and none otherwise. Entry `i` is `a+i`. |
| Lists.RangeSnoc | engine.js:42 | A nonempty range ends with `b`. |
| Lists.ClampIndex | engine.js:45 | A `slice` bound is clamped into `[0, len]`. A negative bound counts from the end. |
| Lists.Slice | engine.js:45 | Within bounds, `slice` is the subsequence. A backward range is empty. |
| Builtins.Numbers | engine.js:7-10 | A list reads as numbers exactly when every item is a number. |
| Builtins.Least | engine.js:8 | The least element occurs in the list and is at most every element. |
| Builtins.Greatest | engine.js:10 | The greatest element occurs in the list and is at least every element. |
| Builtins.ProductOfRange | engine.js:13 | The product of `1..n` is `n!`. |
| Builtins.Plus | engine.js:3 | `add` gives the sum of two numbers and the concatenation of two strings. Mixed operands are coercion and are not modelled. |
| Builtins.Minus | engine.js:4 | `subtract` gives the difference of two numbers and is not modelled on anything else. |
| Builtins.Times | engine.js:5 | `multiply` gives the product of two numbers and is not modelled on anything else. |
| Builtins.Over | engine.js:6 | A successful `divide` is an exact quotient: times the divisor, it gives the dividend. |
| Builtins.MinusUndoesPlus | engine.js:3-4 | Subtracting `b` undoes adding `b`. |
| Builtins.OverUndoesTimes | engine.js:5-6 | Dividing by a nonzero `b` undoes multiplying by `b`. |
| Builtins.Smaller | engine.js:7 | `min` of two numbers is one of them and is at most both. |
| Builtins.Larger | engine.js:9 | `max` of two numbers is one of them and is at least both. |
| Builtins.Minimum | engine.js:8 | `minimum` succeeds exactly on a nonempty array of numbers. Its result is an item that is at most every item. A value that cannot be spread throws a TypeError. |
| Builtins.Maximum | engine.js:10 | `maximum` succeeds exactly on a nonempty array of numbers. Its result is an item that is at least every item. A value that cannot be spread throws a TypeError. |
| Builtins.MinimumMaximum | engine.js:8-10 | Where `minimum` succeeds, so does `maximum`, and with a result no smaller. On one item both give that item. |
| Builtins.Product | engine.js:13 | `product` of an array of numbers is the product of the numbers, and 1 for an empty array. |
| Builtins.ProductOfRangeValue | engine.js:13 | `product(1..n)` is `n!`. |
| Builtins.Member | engine.js:41 | `!!` and `head` give the item (or one-character string) at an index. They give `undefined` outside the bounds, and throw on `null`/`undefined`. |
| Builtins.Tail | engine.js:26 | `tail` drops the first item or character. On an empty array or string it gives the input. |
| Builtins.Cons | engine.js:27 | `cons` puts the item in front of the items (or characters) of an array or string, and throws on anything else. |
| Builtins.TailOfCons | engine.js:25-29 | `tail` undoes `cons`, `head` recovers the item, and the length grows by one. |
| Builtins.Take | engine.js:45 | `take` is the prefix of length `min(n, len)`. |
| Builtins.TakePrefix | engine.js:45 | What `take` returns is a prefix, of length `min(n, len)`. |
| Builtins.Reverse | engine.js:24 | `reverse` succeeds on arrays and strings and keeps their length. |
| Builtins.ReverseInvolution | engine.js:24 | `reverse` is an involution on arrays and on strings. |
| Builtins.ReverseMember | engine.js:24 | Item `i` of the reversal is item `n-1-i` of the input. |
| Builtins.Split | engine.js:28 | `split` of a string by a string gives an array of strings. It throws when the subject is not a string. |
| Builtins.SplitJoin | engine.js:28 | Joining the pieces of `split` with the separator gives the subject back. |
| Builtins.Length | engine.js:29 | `length` of an array or string is its size. On a callable, it is the number of parameters still to be given. |
| Builtins.ToUpper | engine.js:30 | `toUpper` keeps the length and leaves no lower-case ASCII letter. |
| Builtins.ToLowerAsWritten | engine.js:31 | As written, `toLower` throws on every input. |
| Builtins.ToLower | engine.js:31 | Lower-casing keeps the length and leaves no upper-case ASCII letter. |
| Builtins.ToUpperOfToLower | engine.js:30-31 | `toUpper` after lower-casing gives what `toUpper` alone gives. |
| Builtins.ToLowerFinding | engine.js:31 | As written, `toLower('ABC')` throws; lower-casing gives `'abc'`. |
| Builtins.TrimBy | engine.js:46-48 | The trims succeed exactly on strings and never lengthen them. |
| Builtins.Conjunction | engine.js:33 | `&&` returns its second operand when the first is truthy and the first otherwise, so the result is truthy exactly when both operands are. |
| Builtins.Disjunction | engine.js:34 | `\|\|` returns its first operand when it is truthy and the second otherwise, so the result is truthy exactly when either operand is. |
| Builtins.Negation | engine.js:35 | `!` gives a boolean that is true exactly when the operand is falsy. |
| Builtins.DeMorgan | engine.js:33-35 | De Morgan's laws hold for `!`, `&&` and `\|\|`. |
| Builtins.DoubleNegation | engine.js:67-68 | `isTrue` (`!!x`) is the truthiness of `x`, and `isFalse` (`!!!x`) equals `!x`. |
| Builtins.Below | engine.js:38 | `<` succeeds exactly on two numbers or two strings. It compares numbers by value and strings in lexicographic order. |
| Builtins.Compare | engine.js:36-39 | The four comparisons succeed exactly on two numbers or two strings. `<` is `Below`, `>` is `Below` with the operands swapped, and `<=` and `>=` are the negations of `>` and `<`. |
| Builtins.StrictEquals | engine.js:40 | `===` on primitives is true exactly when the values are equal. It is not modelled only when both sides are arrays, both callables or both objects. |
| Builtins.CompareTrichotomy | engine.js:36-40 | Exactly one of `<`, `===` and `>` holds, `>=` is `>` or `===`, and `<=` is `<` or `===`. |
| Builtins.LessIrreflexive | engine.js:38 | No string is below itself. |
| Builtins.RangeOf | engine.js:42 | `..` succeeds on two numbers whose range fits in an array, and then lists the integers from `a` to `b`. A longer range throws a RangeError. |
| Builtins.RangeOfEntries | engine.js:42 | Entry `i` of `a..b` is `a+i`, and the range is empty when `b < a`. |
| Builtins.Concat | engine.js:43 | `++` on two arrays is their concatenation. On anything else it is `+`. |
| Builtins.ConcatArrays | engine.js:43 | The length of `xs ++ ys` is the sum of the lengths. The items of `xs`, then those of `ys`, sit at their offsets. |
| Builtins.Identity | engine.js:12 | `id` throws a SyntaxError exactly on `undefined` or a callable, and otherwise gives plain JSON data. |
| Builtins.IdentityOfData | engine.js:12 | `id` gives plain JSON data back unchanged, so applying it twice is applying it once. |
| Builtins.FirstOrder | engine.js:2-69 | An entry without a callable fails only with an error JavaScript raises (TypeError, RangeError, SyntaxError) or with an unmodelled coercion. `toLower` is dispatched as written, so it always throws. |
| Registry.Fit | engine.js:139 | A bound call pads missing arguments with `undefined` and drops surplus ones. |
| Registry.Test | engine.js:23 | A callback's answer counts as its truthiness, and its failure propagates. |
| Registry.Invoke | engine.js:11-66 | Calling a non-callable throws a TypeError. |
| Registry.InvokeBound | engine.js:139 | Calling `Fun(op, bound)` with the remaining arguments runs the entry on `bound + rest`, bound arguments first. |
| Registry.InvokeShort | engine.js:139 | A call that supplies fewer arguments than the arity runs the entry with `undefined` in the missing places. |
| Registry.Apply | engine.js:2-69 | An entry without a callable fails only with an error JavaScript raises. Every entry, `dropWhile` and `toLower` included, runs as written. |
| Registry.MapOver | engine.js:11 | `map` keeps the length, and item `i` of the result is the callback's result on item `i`. A non-array or non-callable throws a TypeError. |
| Registry.FilterBy | engine.js:23 | `filter` keeps only items the callback accepts and never lengthens the array. |
| Registry.FilterCount | engine.js:23 | `filter` keeps each accepted item as often as it occurs and drops every refused item. |
| Registry.EveryBy | engine.js:32 | `every` is true exactly when the callback accepts every item, and gives a boolean. |
| Registry.FindBy | engine.js:44 | `elemIndex` answers `undefined` when the callback refuses every item. It throws a TypeError on a non-array or a non-callable. |
| Registry.ElemIndexFirst | engine.js:44 | `elemIndex` returns the first accepted item itself, not its index. |
| Registry.ElemIndexIsFind | engine.js:44 | A found `elemIndex` result is an item of the array that the callback accepts. |
| Registry.FoldLeft | engine.js:14 | `foldl` throws a TypeError on a non-array or a non-callable. |
| Registry.FoldLeft1 | engine.js:15 | `foldl1` folds from the first item over the rest, and throws a TypeError on an empty array. |
| Registry.FoldRight | engine.js:16 | `foldr` throws a TypeError on a non-array or a non-callable. |
| Registry.FoldRight1 | engine.js:17 | `foldr1` folds from the last item over the rest, right to left, and throws a TypeError on an empty array. |
| Registry.FoldrIsFoldlOfReverse | engine.js:14-16 | `foldr(f, z, xs)` equals `foldl(f, z, reverse(xs))`. |
| Registry.ScanLeft | engine.js:18 | `scanl` has one more entry than its input and starts with the seed. |
| Registry.ScanlIsFoldlSteps | engine.js:14-18 | `scanl` succeeds exactly when `foldl` does, ends with the fold's result, and each step is one callback call. |
| Registry.ScanRight | engine.js:19-22 | `scanr` has one more entry than its input and ends with the seed. |
| Registry.ScanrSteps | engine.js:19-22 | Entry `i` of `scanr` is `f(xs[i], r[i+1])`. |
| Registry.TakeWhileBy | engine.js:49-57 | `takeWhile` returns a prefix of the items or characters, and throws on anything else. |
| Registry.TakeWhileLongestPrefix | engine.js:49-57 | `takeWhile` returns the longest accepted prefix, and fails at the first failing call. |
| Registry.DropWhileAsWritten | engine.js:58-66 | The loop as written returns a prefix of the input. |
| Registry.DropWhileLongestRefusedPrefix | engine.js:58-66 | The loop as written returns the longest prefix the callback refuses. |
| Registry.DropWhileBy | engine.js:58-66 | The corrected `dropWhile` gives an array, and throws on anything that cannot be iterated. |
| Registry.DropWhileAfterLongestPrefix | engine.js:58-66 | The corrected `dropWhile` returns everything after the longest accepted prefix. |
| Registry.DropWhileRefusedPrefix | engine.js:58-66 | The registry's `dropWhile` returns the longest prefix the callback refuses, stops at the first accepted item, and fails at the first failing call. |
| Registry.TakeWhileDropWhileExclusive | engine.js:49-66 | The registry's `takeWhile` and `dropWhile` never both keep something: the first item decides. |
| Registry.SplitBy | engine.js:49-66 | `takeWhile(f, xs)` followed by the corrected `dropWhile(f, xs)` is `xs`, and the two fail together with the same error. |
| Text.TrimStart | engine.js:47 | `trimLeft` removes a whitespace prefix and leaves a string that does not start with whitespace. |
| Text.TrimEnd | engine.js:48 | `trimRight` removes a whitespace suffix and leaves a string that does not end with whitespace. |
| Text.Trim | engine.js:46 | `trim` leaves the input's core, with no whitespace at either end, surrounded by whitespace in the input. |
| Text.TrimSurrounded | engine.js:46 | Trimming the start and then the end removes only whitespace from either side. |
| Text.TrimIdempotent | engine.js:46 | Trimming twice is trimming once. |
| Text.IndexOf | engine.js:28 | The separator's first occurrence from `from`, or no occurrence at all. |
| Text.SplitJoin | engine.js:28 | Joining the pieces with the separator gives the string back. |
| Text.SplitNonEmpty | engine.js:28 | Splitting always gives at least one piece. |
| Text.SplitPiecesFree | engine.js:28 | No piece of a split contains the separator. |
| Text.ToUpperAscii | engine.js:30 | It keeps the length, maps each lower-case letter to its capital and leaves every other character alone. |
| Text.ToLowerAscii | engine.js:31 | It keeps the length, maps each capital to its lower-case letter and leaves every other character alone. |
| Text.UpperOfLower | engine.js:30-31 | Upper-casing after lower-casing is upper-casing. |
| Text.LessTrichotomy | engine.js:38 | String order is total and asymmetric. |
| Scenarios.CallOf | engine.js:105-111 | A function node whose arguments evaluate to `vs` applies its entry to `vs`. |
| Scenarios.MaximumExample | engine.js:161-166 | `maximum([1, 9, 20, 3, 43, 29, 10, 4])` evaluates to 43. |
| Scenarios.MaximumAt | engine.js:10 | `maximum` of a list of numbers is the number that bounds all of them. |
| Scenarios.FactorialExample | engine.js:148-159 | `product(..(1, n))` evaluates to `n!`, for the example's `n = 100` too. |
| Scenarios.FactorialOfFive | engine.js:148-159 | `product(..(1, 5))` evaluates to 120. |
| Scenarios.ReverseExample | engine.js:168-173 | `reverse([1, 2, 3, 4, 5])` evaluates to `[5, 4, 3, 2, 1]`. |
| Scenarios.BindEvaluates | engine.js:138-139 | A reference node with fewer arguments than the arity evaluates to the entry with those arguments bound. |
| Scenarios.GreaterThanInvoked | engine.js:139 | `reference('>', [a])` called on `x` is `a > x`: the bound argument comes first. |
| Scenarios.TakeWhileBelow | engine.js:49-57 | `takeWhile(a > ·, ns)` is the prefix of `ns` that lies below `a`. |
| Scenarios.TakeWhileExample | engine.js:175-187 | The `takeWhile` example evaluates to `[1, 2, 3, 4]`. |
| Scenarios.DropWhileAsWrittenNotBelow | engine.js:58-66 | The registry's `dropWhile(a > ·, ns)` is the prefix of `ns` that is not below `a`. |
| Scenarios.DropWhileAsWrittenBelowFive | engine.js:189-201 | The registry's `dropWhile(5 > ·, [9, …, 1])` gives `[9, 8, 7, 6, 5]`. |
| Scenarios.DropWhileBelowFive | engine.js:189-201 | The corrected `dropWhile(5 > ·, [9, …, 1])` gives `[9, 8, …, 1]`. |
| Scenarios.DropWhileBelow | engine.js:58-66 | The corrected `dropWhile(a > ·, ns)` is what follows the prefix below `a`. |
| Scenarios.DropWhileExample | engine.js:189-201 | The `dropWhile` example evaluates to `[9, 8, 7, 6, 5]`. |
| Scenarios.ToLowerExample | engine.js:31 | A `toLower` node on any string evaluates to a TypeError. |
| Scenarios.MapAll | engine.js:11 | When the callback succeeds on every item, `map` collects exactly its results. |
| Scenarios.MapTimes | engine.js:11 | `map(multiply(a), ns)` multiplies every item by `a`. |
| Scenarios.MapExample | engine.js:203-215 | The `map` example evaluates to `[2, 4, 6, 8, 10]`. |
| Scenarios.LengthCall | engine.js:217-232 | `map(length, [ns, a, b])` gives the three sizes. |
| Scenarios.LengthExample | engine.js:217-232 | The `length` example evaluates to `[5, 5, 6]`. |
| Scenarios.Add5Example | engine.js:234-239 | `reference('add', [5])` is a callable, and calling it on 10 gives 15. |
| Scenarios.ConcatArraysExample | engine.js:241-246 | `[1, 2, 3] ++ [4, 5, 6]` evaluates to `[1, 2, 3, 4, 5, 6]`. |
| Scenarios.ConcatStringsExample | engine.js:248-253 | `'hello' ++ ' world'` evaluates to `'hello world'`. |
| Scenarios.JoinAll | engine.js:15 | `foldl1(++, words)` is the words concatenated. |
| Scenarios.Foldl1Example | engine.js:255-266 | The `concat_multiple_strings` example evaluates to `'hello there world'`. |
| Scenarios.PalindromeTest | engine.js:268-280 | `w == reverse(w)` evaluates to whether `w` reads the same backwards. |
| Scenarios.PalindromeExample | engine.js:268-280 | The `isPalindrome` example evaluates to true. |

## Left out

- Floating point is not modelled: numbers are integers. `divide` succeeds only when the quotient is exact (anything else is `Unmodelled`). `NaN`, `Infinity`, `-0` and precision loss do not arise.
- Scenarios.FactorialExample: states the exact `100!`, whereas JavaScript computes the product as an IEEE double and prints an approximation.
- Builtins.Minimum and Builtins.Maximum: on an empty array, or on an array holding a non-number, `Math.min`/`Math.max` give `Infinity`/`NaN`. These are not modelled and give `Unmodelled`. On a string they spread its characters, which is coercion and also `Unmodelled`.
- JavaScript type coercion is not modelled. This covers `+`, `-`, `*`, `/` and comparisons on mixed or non-numeric operands, `++` on operands that are not both arrays, both numbers or both strings, and numeric strings. It gives the `Unmodelled` error instead of a value.
- Builtins.StrictEquals: `===` between two arrays, two callables or two objects depends on reference identity, which a value model does not have. It gives `Unmodelled`.
- JavaScript passes `(index, array)` to the callbacks of `map`, `filter`, `reduce`, `every` and `find`. These extra arguments are not passed: a callback receives the element, plus the accumulator in folds. A callable whose arity exceeds what is given receives `undefined` instead.
- Registry.Invoke: the `fuel` bound on nested callable invocations has no counterpart in the engine. A formula whose callbacks nest deeper than the fuel fails with `OutOfFuel` where JavaScript would go on.
- Keys inherited from `Object.prototype` (such as `toString` or `constructor`) are not modelled. `FUNCTIONS[name]` finds them in JavaScript, but here they give `invalid function`.
- The model assumes a node's `name` is a string. It reads a missing or non-string `type` as "another object", which is returned unchanged.
- Strings are sequences of characters, not of UTF-16 code units. Surrogate pairs are not split as JavaScript would split them. `<`, `>`, `<=` and `>=` compare strings in code-point order, while JavaScript compares code units; the two orders differ between a character above U+FFFF and one in U+E000 to U+FFFF.
- Builtins.Member: an index that is not a number gives `Unmodelled`. On an array or string, JavaScript reads it as a property name instead: `'0'` gives the first item and `'length'` gives the size.
- Builtins.Length, Builtins.Member and Builtins.Identity: an object that is not a function or reference node keeps only its `type`, `name` and `args`. Its other keys are lost, so its `length` and its indexed members read as `undefined`, and `id` drops them, where JavaScript reads and copies them.
- Builtins.ToUpper and Builtins.ToLower are stated for ASCII only. A string with a non-ASCII character gives `Unmodelled`, because JavaScript's full Unicode case tables are outside the model.
- Builtins.Split: only a string separator is modelled, and an empty one splits into characters. A regular-expression separator and the `limit` argument are not modelled: a non-string separator gives `Unmodelled`.
- `any`, `nub`, `rand`, `randInt` and `bool` do not occur in `engine.js`'s registry, so the model treats them as unknown names. Randomness would be out of scope in any case.
- The `examples` table is modelled only as the scenario lemmas. The `console.log` loop over it (engine.js:283-285) is I/O and is left out.

## Findings

| source | as written | input that shows it | evidently intended | confidence | as-written member | corrected member |
|---|---|---|---|---|---|---|
| engine.js:58-66 | The generator yields items while the callback refuses them and returns at the first item it accepts. This is `takeWhile` of the negated predicate. | `dropWhile(reference('>', [5]), [9, 8, 7, 6, 5, 4, 3, 2, 1])` gives `[9, 8, 7, 6, 5]` | Drop the leading items the callback accepts and keep the rest (the example's comment says "Drop from array while predicate is true"), giving `[9, 8, 7, 6, 5, 4, 3, 2, 1]` | high, not executed | Scenarios.DropWhileAsWrittenBelowFive | Scenarios.DropWhileBelowFive |
| engine.js:31 | `toLower` calls `xs.toLower()`, a method strings do not have, so it throws a TypeError on every string | `toLower('ABC')` throws | `xs.toLowerCase()`, giving `'abc'` | high, not executed | Builtins.ToLowerAsWritten | Builtins.ToLower |
