/**
 * The hole-aware array utilities forEach, map, entries, filter, reduce, every
 * and some, each written as the single ascending loop that implements it.
 *
 * An array is an `array<Option<T>>` whose `None` slots are holes. Callbacks
 * are pure functions of (element, index). forEach's callback acts through a
 * state it threads from call to call. No method here has a `modifies` clause
 * on its input array, so the input is never changed.
 */
module ArrayMethods {
  import opened Wrappers
  import opened Invocations

  // ---------------------------------------------------------------------
  // Argument checks

  const NotAnArrayMessage := "The provided object 'array' is not an Array"
  const NotAFunctionMessage := "The provided object `callback` is not a Function."
  const BadInitialMessage := "The procided initial value has to be a positive number and cannot be bigger or equal the length of array."
  const EmptyReduceMessage := "Reduce of empty array"

  /** What argument validation can tell apart about a dynamically typed argument. */
  datatype Arg = ArrayArg | FunctionArg | OtherArg(truthy: bool)

  /** Arrays and functions are objects, hence truthy; other values carry their truthiness. */
  predicate Truthy(x: Arg) {
    match x
    case OtherArg(t) => t
    case _ => true
  }

  /**
   * The argument check every utility runs first: the first argument must be an
   * array; the callback may be a function or any falsy value.
   */
  function ValidateArgs(arr: Arg, callback: Arg): (r: Result<()>)
    ensures r.Ok? <==> arr == ArrayArg && (callback == FunctionArg || !Truthy(callback))
    ensures arr != ArrayArg ==> r == Err(TypeError(NotAnArrayMessage))
    ensures arr == ArrayArg && r.Err? ==> r == Err(TypeError(NotAFunctionMessage))
  {
    if arr != ArrayArg then Err(TypeError(NotAnArrayMessage))
    else if Truthy(callback) && callback != FunctionArg then Err(TypeError(NotAFunctionMessage))
    else Ok(())
  }

  /** The largest length a JavaScript array can have. */
  const MaxArrayLength: nat := 0xFFFF_FFFF

  /** An array's length coerced to an unsigned 32-bit integer. */
  function GetLength<T>(arr: array<Option<T>>): (len: nat)
    ensures len < 0x1_0000_0000
    ensures arr.Length <= MaxArrayLength ==> len == arr.Length
  {
    arr.Length % 0x1_0000_0000
  }

  // ---------------------------------------------------------------------
  // forEach

  /**
   * Invokes `callback` once per present index, in ascending order, threading
   * the state its side effects act on.
   */
  method ForEachFn<S, T>(arr: array<Option<T>>, callback: (S, T, nat) -> S, state: S)
    returns (state': S)
    ensures state' == Run(Calls(arr[..], 0, arr.Length), callback, state)
  {
    var len := arr.Length;
    state' := state;
    var i := 0;
    while i < len
      invariant 0 <= i <= len
      invariant state' == Run(Calls(arr[..], 0, i), callback, state)
    {
      CallsStep(arr[..], 0, i);
      if arr[i].Some? {
        RunStep(Calls(arr[..], 0, i), (i, arr[i].value), callback, state);
        state' := callback(state', arr[i].value, i);
      }
      i := i + 1;
    }
  }

  /**
   * forEach's invocations, seen through a recording callback: strictly
   * ascending indices, never a hole, and every present index.
   */
  lemma ForEachInvocations<T>(a: seq<Option<T>>)
    ensures var log := Run(Calls(a, 0, |a|), Log, []);
      Ascending(log) &&
      (forall k :: 0 <= k < |log| ==> log[k].0 < |a| && a[log[k].0] == Some(log[k].1)) &&
      (forall i :: 0 <= i < |a| && a[i].Some? ==> (i, a[i].value) in log)
  {
    RunRecordsCalls(Calls(a, 0, |a|));
    CallsAscending(a, 0, |a|);
    CallsComplete(a, 0, |a|);
  }

  // ---------------------------------------------------------------------
  // map

  /**
   * Builds a new array of the same length whose slot i is the callback's
   * result for slot i, leaving holes where the input has holes.
   */
  method MapFn<T, U>(arr: array<Option<T>>, callback: (T, nat) -> U)
    returns (newArray: array<Option<U>>)
    ensures fresh(newArray)
    ensures newArray[..] == Mapped(arr[..], callback)
  {
    var len := arr.Length;
    newArray := new Option<U>[len](_ => None);
    var i := 0;
    while i < len
      invariant 0 <= i <= len
      invariant forall j :: 0 <= j < i ==> newArray[j] == MapSlot(arr[j], callback, j)
      invariant forall j :: i <= j < len ==> newArray[j] == None
    {
      if arr[i].Some? {
        var ret := callback(arr[i].value, i);
        newArray[i] := Some(ret);
      }
      i := i + 1;
    }
    MappedAt(arr[..], callback);
  }

  // ---------------------------------------------------------------------
  // entries

  /** An entry's value: the slot itself, or the callback's result on it. */
  datatype EntryValue<T, U> = Element(element: Option<T>) | Transformed(result: U)

  /** What one `next()` returns: the next entry, or the end of the iteration. */
  datatype Step<T, U> = Yield(index: nat, value: EntryValue<T, U>) | Done

  /** The value of the entry at index i; holes are not skipped, they read as `None`. */
  function EntryAt<T, U>(a: seq<Option<T>>, callback: Option<Option<T> -> U>, i: nat): EntryValue<T, U>
    requires i < |a|
  {
    match callback
    case None => Element(a[i])
    case Some(f) => Transformed(f(a[i]))
  }

  /** The entries an iterator whose cursor is at `from` still has to produce. */
  function Pending<T, U>(a: seq<Option<T>>, callback: Option<Option<T> -> U>, from: nat): seq<Step<T, U>>
    decreases |a| - from
  {
    if from >= |a| then [] else [Yield(from, EntryAt(a, callback, from))] + Pending(a, callback, from + 1)
  }

  /** A fresh iterator produces one entry per index, holes included, in index order. */
  lemma {:induction false} PendingEntries<T, U>(a: seq<Option<T>>, callback: Option<Option<T> -> U>, from: nat)
    requires from <= |a|
    ensures |Pending(a, callback, from)| == |a| - from
    ensures forall k :: 0 <= k < |a| - from ==>
      Pending(a, callback, from)[k] == Yield(from + k, EntryAt(a, callback, from + k))
    decreases |a| - from
  {
    if from < |a| {
      PendingEntries(a, callback, from + 1);
    }
  }

  /** The iterator entries() returns: a cursor over a captured array and length. */
  class EntriesIterator<T, U> {
    const arr: array<Option<T>>
    const len: nat
    const callback: Option<Option<T> -> U>
    var index: nat

    ghost predicate Valid()
      reads this
    {
      len == arr.Length && index <= len
    }

    /** The entries still to come. */
    ghost function Remaining(): seq<Step<T, U>>
      reads this, arr
    {
      Pending(arr[..], callback, index)
    }

    /** entries(arr, callback): a cursor at index 0. */
    constructor (arr: array<Option<T>>, callback: Option<Option<T> -> U>)
      ensures Valid() && index == 0
      ensures this.arr == arr && this.callback == callback
      ensures Remaining() == Pending(arr[..], callback, 0)
    {
      this.arr := arr;
      this.len := arr.Length;
      this.callback := callback;
      this.index := 0;
    }

    /**
     * next(): below the length, yields [index, value] and advances the cursor
     * by one; at the length, reports the end and leaves the cursor where it is.
     */
    method Next() returns (step: Step<T, U>)
      requires Valid()
      modifies this
      ensures Valid()
      ensures old(index) < len ==>
        step == Yield(old(index), EntryAt(arr[..], callback, old(index))) && index == old(index) + 1
      ensures old(index) == len ==> step == Done && index == len
      ensures old(Remaining()) != [] ==> step == old(Remaining())[0] && Remaining() == old(Remaining())[1..]
      ensures old(Remaining()) == [] ==> step == Done && Remaining() == []
    {
      if index < len {
        var value := match callback
          case None => Element(arr[index])
          case Some(f) => Transformed(f(arr[index]));
        step := Yield(index, value);
        index := index + 1;
      } else {
        step := Done;
      }
    }
  }

  // ---------------------------------------------------------------------
  // filter

  /** Collects, in index order, the present elements the callback accepts. */
  method FilterFn<T>(arr: array<Option<T>>, callback: (T, nat) -> bool) returns (newArr: seq<T>)
    ensures newArr == Values(Select(Calls(arr[..], 0, arr.Length), callback))
  {
    var len := arr.Length;
    newArr := [];
    var i := 0;
    while i < len
      invariant 0 <= i <= len
      invariant newArr == Values(Select(Calls(arr[..], 0, i), callback))
    {
      SelectCallsStep(arr[..], i, callback);
      if arr[i].Some? {
        if callback(arr[i].value, i) {
          newArr := newArr + [arr[i].value];
        }
      }
      i := i + 1;
    }
  }

  /** Every pair filter keeps is a present element the callback accepts. */
  lemma FilterKeepsOnlyAccepted<T>(a: seq<Option<T>>, callback: (T, nat) -> bool, i: nat, x: T)
    requires (i, x) in Select(Calls(a, 0, |a|), callback)
    ensures i < |a| && a[i] == Some(x) && callback(x, i)
  {
  }

  /** Every present element the callback accepts is kept by filter. */
  lemma FilterKeepsAllAccepted<T>(a: seq<Option<T>>, callback: (T, nat) -> bool, i: nat)
    requires i < |a| && a[i].Some? && callback(a[i].value, i)
    ensures (i, a[i].value) in Select(Calls(a, 0, |a|), callback)
  {
    CallsComplete(a, 0, |a|);
    SelectComplete(Calls(a, 0, |a|), callback);
  }

  /**
   * What filter keeps: exactly the present (index, element) pairs the
   * callback accepts, in ascending index order, and no more of them than
   * there are present elements.
   */
  lemma FilterKeeps<T>(a: seq<Option<T>>, callback: (T, nat) -> bool)
    ensures var kept := Select(Calls(a, 0, |a|), callback);
      Ascending(kept) &&
      |kept| <= |Calls(a, 0, |a|)| &&
      (forall i, x :: (i, x) in kept <==> 0 <= i < |a| && a[i] == Some(x) && callback(x, i))
  {
    CallsAscending(a, 0, |a|);
    SelectAscending(Calls(a, 0, |a|), callback);
    forall i, x | (i, x) in Select(Calls(a, 0, |a|), callback)
      ensures 0 <= i < |a| && a[i] == Some(x) && callback(x, i)
    {
      FilterKeepsOnlyAccepted(a, callback, i, x);
    }
    forall i, x | 0 <= i < |a| && a[i] == Some(x) && callback(x, i)
      ensures (i, x) in Select(Calls(a, 0, |a|), callback)
    {
      FilterKeepsAllAccepted(a, callback, i);
    }
  }

  /** An always-false callback filters everything out. */
  lemma FilterNothing<T>(a: seq<Option<T>>)
    ensures Values(Select(Calls(a, 0, |a|), (x: T, i: nat) => false)) == []
  {
  }

  /** An always-true callback keeps every present element: the array with its holes removed. */
  lemma FilterEverything<T>(a: seq<Option<T>>)
    ensures Values(Select(Calls(a, 0, |a|), (x: T, i: nat) => true)) == Dense(a)
  {
    SelectAll(Calls(a, 0, |a|), (x: T, i: nat) => true);
  }

  // ---------------------------------------------------------------------
  // reduce

  /** Where reduce starts folding: at `initial` when it is given and truthy (non-zero), else at 1. */
  function StartIndex(initial: Option<int>): int {
    if initial.Some? && initial.value != 0 then initial.value else 1
  }

  /**
   * reduce(array, callback, initial): `initial` is a start index, not a seed.
   * It is a TypeError for `initial` to be negative or at least the length.
   * Otherwise the accumulator is seeded from slot 0 (even a hole) and the
   * callback folds the present elements from the start index on; a
   * one-element array returns slot 0 without any callback; an empty array
   * without `initial` throws "Reduce of empty array". `calls` lists the
   * callback invocations made.
   */
  method ReduceFn<T>(arr: array<Option<T>>, callback: (Option<T>, T, nat) -> Option<T>, initial: Option<int>)
    returns (r: Result<Option<T>>, ghost calls: seq<(nat, T)>)
    ensures r == Err(TypeError(BadInitialMessage)) <==>
      initial.Some? && (initial.value < 0 || initial.value >= arr.Length)
    ensures r == Err(Error(EmptyReduceMessage)) <==> initial.None? && arr.Length == 0
    ensures r.Ok? <==>
      !(initial.Some? && (initial.value < 0 || initial.value >= arr.Length)) &&
      !(initial.None? && arr.Length == 0)
    ensures r.Err? ==> calls == []
    ensures r.Ok? && arr.Length == 1 ==> r.value == arr[0] && calls == []
    ensures r.Ok? && arr.Length > 1 ==>
      1 <= StartIndex(initial) < arr.Length &&
      calls == Calls(arr[..], StartIndex(initial), arr.Length) &&
      r.value == Run(calls, callback, arr[0])
  {
    calls := [];
    var len := arr.Length;
    if initial.Some? && ((initial.value != 0 && initial.value < 0) || initial.value >= len) {
      r := Err(TypeError(BadInitialMessage));
    } else if len > 1 {
      var accumulator := arr[0];
      var i := StartIndex(initial);
      while i < len
        invariant StartIndex(initial) <= i <= len
        invariant calls == Calls(arr[..], StartIndex(initial), i)
        invariant accumulator == Run(calls, callback, arr[0])
      {
        CallsStep(arr[..], StartIndex(initial), i);
        if arr[i].Some? {
          RunStep(calls, (i, arr[i].value), callback, arr[0]);
          calls := calls + [(i, arr[i].value)];
          accumulator := callback(accumulator, arr[i].value, i);
        }
        i := i + 1;
      }
      r := Ok(accumulator);
    } else if len == 1 {
      r := Ok(arr[0]);
    } else {
      r := Err(Error(EmptyReduceMessage));
    }
  }

  // ---------------------------------------------------------------------
  // every and some

  /**
   * True iff every present element passes. The callback is invoked on a
   * prefix of the present elements, in order; the walk stops right after the
   * first failure. `calls` lists the invocations made.
   */
  method EveryFn<T>(arr: array<Option<T>>, callback: (T, nat) -> bool)
    returns (b: bool, ghost calls: seq<(nat, T)>)
    ensures b <==> forall i :: 0 <= i < arr.Length && arr[i].Some? ==> callback(arr[i].value, i)
    ensures calls <= Calls(arr[..], 0, arr.Length)
    ensures forall k :: 0 <= k < |calls| - 1 ==> callback(calls[k].1, calls[k].0)
    ensures b ==> calls == Calls(arr[..], 0, arr.Length)
    ensures !b ==> calls != [] && !callback(calls[|calls| - 1].1, calls[|calls| - 1].0)
  {
    var len := arr.Length;
    b := true;
    calls := [];
    var i := 0;
    while i < len && b
      invariant 0 <= i <= len
      invariant calls == Calls(arr[..], 0, i)
      invariant b ==> forall j :: 0 <= j < i && arr[j].Some? ==> callback(arr[j].value, j)
      invariant !b ==> 0 < i && arr[i - 1].Some? && !callback(arr[i - 1].value, i - 1)
      invariant b ==> forall k :: 0 <= k < |calls| ==> callback(calls[k].1, calls[k].0)
      invariant forall k :: 0 <= k < |calls| - 1 ==> callback(calls[k].1, calls[k].0)
    {
      CallsStep(arr[..], 0, i);
      if arr[i].Some? {
        b := callback(arr[i].value, i);
        calls := calls + [(i, arr[i].value)];
      }
      i := i + 1;
    }
    CallsPrefix(arr[..], 0, i, len);
  }

  /**
   * True iff some present element passes. The callback is invoked on a
   * prefix of the present elements, in order; the walk stops right after the
   * first success. `calls` lists the invocations made.
   */
  method SomeFn<T>(arr: array<Option<T>>, callback: (T, nat) -> bool)
    returns (b: bool, ghost calls: seq<(nat, T)>)
    ensures b <==> exists i :: 0 <= i < arr.Length && arr[i].Some? && callback(arr[i].value, i)
    ensures calls <= Calls(arr[..], 0, arr.Length)
    ensures forall k :: 0 <= k < |calls| - 1 ==> !callback(calls[k].1, calls[k].0)
    ensures !b ==> calls == Calls(arr[..], 0, arr.Length)
    ensures b ==> calls != [] && callback(calls[|calls| - 1].1, calls[|calls| - 1].0)
  {
    var len := arr.Length;
    b := false;
    calls := [];
    var i := 0;
    while i < len && !b
      invariant 0 <= i <= len
      invariant calls == Calls(arr[..], 0, i)
      invariant !b ==> forall j :: 0 <= j < i && arr[j].Some? ==> !callback(arr[j].value, j)
      invariant b ==> 0 < i && arr[i - 1].Some? && callback(arr[i - 1].value, i - 1)
      invariant !b ==> forall k :: 0 <= k < |calls| ==> !callback(calls[k].1, calls[k].0)
      invariant forall k :: 0 <= k < |calls| - 1 ==> !callback(calls[k].1, calls[k].0)
    {
      CallsStep(arr[..], 0, i);
      if arr[i].Some? {
        b := callback(arr[i].value, i);
        calls := calls + [(i, arr[i].value)];
      }
      i := i + 1;
    }
    CallsPrefix(arr[..], 0, i, len);
  }
}
