# Hole-aware array utilities

This project models `ArrayMethods.js` of *fun-with-js*. That file reimplements
`forEach`, `map`, `entries`, `filter`, `reduce`, `every` and `some` with plain
loops, and checks their arguments with `validateArgs`. Each utility walks the
indices `0..len-1` in ascending order. Each skips "holes", the indices not
present in the array. `entries` is the exception: it does not skip holes.

How the model represents things:

- A JavaScript array is an `array<Option<T>>`. A `None` slot is a hole. No
  method has a `modifies` clause on its input, so no utility changes its input.
- A callback is a pure Dafny function of (element, index). `forEach` exists for
  its callback's side effects, so its callback is a state transformer
  `(state, element, index) -> state`. `forEachFn` threads that state through
  the calls.
- Module `Invocations` holds the specification. `Calls(a, lo, hi)` is the list
  of (index, element) invocations that a hole-skipping walk over `lo..hi-1`
  makes. `Run` folds a callback over such a list. `Select` keeps the calls a
  predicate accepts. `Mapped` maps slots and leaves holes as holes.
- Module `ArrayMethods` holds one loop method per utility, proved against those
  functions. `every`, `some` and `reduce` also return a ghost list of the
  callback invocations they made. That list states the short-circuit
  behaviour and the cases where the callback is never invoked.
- `entries` is the class `EntriesIterator`. Its one mutable field is the
  cursor `index`, and `Next()` advances it. The ghost function `Remaining()`
  lists the entries still to come. A new iterator starts with one entry per
  index, holes included (`PendingEntries`), and each `Next()` consumes exactly
  one of them. So exactly `len` non-done results are produced.
- Thrown exceptions are `Result.Err` values that carry JavaScript's `TypeError`
  or `Error` and its message.

Two behaviours of `reduce` that the code has and the model keeps:

- `reduce`'s third argument is a start index, not a seed value, although the
  doc comment at ArrayMethods.js:143-144 describes it as the value passed as
  the first argument of the first callback. The accumulator is always seeded
  from slot 0, even when slot 0 is a hole.
- "Reduce of empty array" is thrown only when the length is 0 and no start
  index is given. An array made only of holes does not throw. `reduce([], cb, 0)`
  throws the start-index `TypeError` instead, because `0 >= 0`.

## Model

| member | source | states |
|---|---|---|
| `ArrayMethods.ValidateArgs` | ArrayMethods.js:19-27 | accepted iff the first argument is an array and the callback is a function or falsy; a non-array gets the "not an Array" TypeError, and a truthy non-function callback gets the "not a Function" TypeError |
| `ArrayMethods.GetLength` | ArrayMethods.js:33 | the length as an unsigned 32-bit value, which equals the array's length for every array a JavaScript engine allows |
| `Invocations.Calls` | ArrayMethods.js:49-54 | the walk makes no more invocations than the range has indices, and every invocation is at an in-range index holding that element (never a hole); that no index is visited twice is `CallsAscending` |
| `Invocations.CallsAscending` | ArrayMethods.js:49 | the walk's indices strictly increase, so no index is visited twice |
| `Invocations.CallsComplete` | ArrayMethods.js:51-53 | every present index of the range is visited with its element |
| `Invocations.CallsPrefix` | ArrayMethods.js:189 | a walk stopped early has made a prefix of the full walk's invocations |
| `Invocations.RunRecordsCalls` | ArrayMethods.js:52 | a callback that only records its invocation records exactly the call list, once each and in order |
| `ArrayMethods.ForEachFn` | ArrayMethods.js:45-55 | the final state is the callback's effects applied over the hole-skipping walk of the whole array, in order |
| `ArrayMethods.ForEachInvocations` | ArrayMethods.js:49-54 | forEach invokes the callback exactly once per present index, in strictly ascending order, and never on a hole |
| `Invocations.MappedAt` | ArrayMethods.js:69-76 | the mapped array has the input's length; slot i is present iff input slot i is, and then holds callback(element, i) |
| `Invocations.MappedIdentity` | ArrayMethods.js:71-76 | mapping with the identity callback gives back the same slots, holes included |
| `ArrayMethods.MapFn` | ArrayMethods.js:64-78 | returns a freshly allocated array equal to the mapped slots of the input; the input is not changed |
| `ArrayMethods.PendingEntries` | ArrayMethods.js:97-116 | a new iterator has exactly len entries to produce, the k-th being [k, slot k] (or the callback's result on slot k), holes not skipped |
| `ArrayMethods.EntriesIterator.constructor` | ArrayMethods.js:86-91 | the iterator captures the array, its length and the callback, with the cursor at 0 and every entry still to come |
| `ArrayMethods.EntriesIterator.Next` | ArrayMethods.js:97-116 | below the length: yields [cursor, value] and advances the cursor by exactly 1, consuming the first remaining entry; at the length: done, and the cursor stays put |
| `Invocations.Select` | ArrayMethods.js:131-134 | keeps no more calls than it is given, and each kept call is one of them and satisfies the predicate |
| `Invocations.SelectComplete` | ArrayMethods.js:131-134 | no call that satisfies the predicate is dropped |
| `Invocations.SelectAscending` | ArrayMethods.js:130-136 | the kept calls stay in their original order |
| `Invocations.SelectAll` | ArrayMethods.js:132-133 | a predicate every call satisfies keeps all of them |
| `ArrayMethods.FilterFn` | ArrayMethods.js:125-138 | the result is the elements of the selected calls of the hole-skipping walk, in order |
| `ArrayMethods.FilterKeepsOnlyAccepted` | ArrayMethods.js:130-135 | every pair filter keeps is an in-range, present element that the callback accepts |
| `ArrayMethods.FilterKeepsAllAccepted` | ArrayMethods.js:130-135 | every present element the callback accepts is kept, with its index |
| `ArrayMethods.FilterKeeps` | ArrayMethods.js:125-138 | filter keeps exactly the present (index, element) pairs the callback accepts, in ascending index order, and at most as many as there are present elements |
| `ArrayMethods.FilterNothing` | ArrayMethods.js:132 | an always-false callback yields the empty array |
| `ArrayMethods.FilterEverything` | ArrayMethods.js:130-136 | an always-true callback yields the present elements, holes removed |
| `ArrayMethods.ReduceFn` | ArrayMethods.js:146-175 | succeeds iff neither error applies; TypeError iff the start index is given and is negative or at least the length; "Reduce of empty array" iff the length is 0 and no start index is given; with length 1, slot 0 and no callback invocation; with length above 1, the left fold seeded with slot 0 over the present indices from the start index (1 when it is absent or 0) to len-1 |
| `ArrayMethods.EveryFn` | ArrayMethods.js:182-197 | true iff every present element passes (so true on an array with no present element); the callback sees a prefix of the walk, every call but the last passed, and a false result stops right after the first failure |
| `ArrayMethods.SomeFn` | ArrayMethods.js:204-219 | true iff some present element passes (so false on an array with no present element); the callback sees a prefix of the walk, every call but the last failed, and a true result stops right after the first success |

## Left out

- `PromiseMethods.js` (`promiseAll`, `promiseRace`, `promiseLast`, `promiseIngoreErrors`) is not part of this model. Its behaviour is the settlement order of asynchronous promises, and `PromiseMethods.js` contains no scheduler to model.
- JavaScript truthiness of callback results: `every` and `some` return the callback's raw value; the model's predicates return `bool`.
- `reduce`'s `initial` is an `Option<int>`. `None` is an absent argument. `Some(0)` starts at index 1, like a falsy 0 in `ArrayMethods.js`. Non-numeric start values are not modelled.
- The utilities loop to `arr.Length` rather than calling `GetLength`. The two are equal for every array whose length a JavaScript engine allows, as `GetLength`'s contract states.
- The `Symbol.iterator` method of the entries iterator is not modelled. Neither is the value returned with `done: true`: the code returns the pair `[index, array[index]]`, or `[index, callback(array[index])]` when a callback is given, at `index == len`, so with a callback every finished `next()` also calls the callback on `undefined` (and that call may throw). The model returns `Done` and drops this call.
- Callbacks that mutate the array while it is iterated are not modelled. Neither is the third `array` argument passed to callbacks. Callbacks are pure functions of element and index.
- `validateArgs` accepts a falsy callback, and `ArrayMethods.js` then throws a TypeError when it calls it. When no callback is ever invoked, the call with a falsy callback returns normally, e.g. `forEachFn([], undefined)` or `reduceFn([x], undefined)`. This falsy-callback case is not modelled for forEach, map, filter, reduce, every and some: their callbacks are always functions. Only `entries` takes an optional callback, as `Option`. The utilities do not call `ValidateArgs`; their typed parameters (an array and a function) are one of the argument pairs it accepts.
- The accumulator of `reduce` and the callback's result share one type, `Option<T>`. `None` stands for `undefined`, e.g. a hole in slot 0. The dynamically typed accumulator of `ArrayMethods.js` is not modelled further.
