/**
 * Specification functions for hole-aware iteration over an array of slots.
 *
 * Every utility walks the indices of an index range in ascending order and
 * invokes its callback only where the slot is present. `Calls` is that list of
 * invocations, as (index, element) pairs; the other functions say what a
 * utility makes of it.
 */
module Invocations {
  import opened Wrappers

  /** The callback invocations of an ascending walk over indices lo..hi-1 that skips holes. */
  function Calls<T>(a: seq<Option<T>>, lo: nat, hi: nat): (c: seq<(nat, T)>)
    requires lo <= hi <= |a|
    ensures |c| <= hi - lo
    ensures forall k :: 0 <= k < |c| ==> lo <= c[k].0 < hi && a[c[k].0] == Some(c[k].1)
    decreases hi
  {
    if hi == lo then []
    else if a[hi - 1].Some? then Calls(a, lo, hi - 1) + [(hi - 1, a[hi - 1].value)]
    else Calls(a, lo, hi - 1)
  }

  /** One more step of the walk: index hi is invoked iff it is present. */
  lemma CallsStep<T>(a: seq<Option<T>>, lo: nat, hi: nat)
    requires lo <= hi < |a|
    ensures a[hi].None? ==> Calls(a, lo, hi + 1) == Calls(a, lo, hi)
    ensures a[hi].Some? ==> Calls(a, lo, hi + 1) == Calls(a, lo, hi) + [(hi, a[hi].value)]
  {
  }

  /** Indices strictly increase along a list of invocations. */
  ghost predicate Ascending<T>(c: seq<(nat, T)>) {
    forall j, k :: 0 <= j < k < |c| ==> c[j].0 < c[k].0
  }

  /** The walk visits indices in strictly ascending order, so each at most once. */
  lemma {:induction false} CallsAscending<T>(a: seq<Option<T>>, lo: nat, hi: nat)
    requires lo <= hi <= |a|
    ensures Ascending(Calls(a, lo, hi))
    decreases hi
  {
    if hi > lo {
      CallsAscending(a, lo, hi - 1);
    }
  }

  /** Every present index of the range is visited, with its element. */
  lemma {:induction false} CallsComplete<T>(a: seq<Option<T>>, lo: nat, hi: nat)
    requires lo <= hi <= |a|
    ensures forall i :: lo <= i < hi && a[i].Some? ==> (i, a[i].value) in Calls(a, lo, hi)
    decreases hi
  {
    if hi > lo {
      CallsComplete(a, lo, hi - 1);
    }
  }

  /** A walk stopped early has made a prefix of the invocations of the full walk. */
  lemma {:induction false} CallsPrefix<T>(a: seq<Option<T>>, lo: nat, mid: nat, hi: nat)
    requires lo <= mid <= hi <= |a|
    ensures Calls(a, lo, mid) <= Calls(a, lo, hi)
    decreases hi
  {
    if hi > mid {
      CallsPrefix(a, lo, mid, hi - 1);
    }
  }

  /** The elements of a list of invocations, in order. */
  function Values<T>(c: seq<(nat, T)>): (r: seq<T>)
    ensures |r| == |c|
  {
    if c == [] then [] else Values(c[..|c| - 1]) + [c[|c| - 1].1]
  }

  /** The present elements of an array, holes removed. */
  function Dense<T>(a: seq<Option<T>>): seq<T> {
    Values(Calls(a, 0, |a|))
  }

  /**
   * The state reached by invoking `f` on each call of `c` in turn, starting
   * from `s`: a left fold, with the callback's arguments in the order
   * (accumulated state, element, index).
   */
  function Run<S, T>(c: seq<(nat, T)>, f: (S, T, nat) -> S, s: S): S {
    if c == [] then s
    else f(Run(c[..|c| - 1], f, s), c[|c| - 1].1, c[|c| - 1].0)
  }

  /** One more call of the fold applies the callback once more, to the state reached so far. */
  lemma RunStep<S, T>(c: seq<(nat, T)>, e: (nat, T), f: (S, T, nat) -> S, s: S)
    ensures Run(c + [e], f, s) == f(Run(c, f, s), e.1, e.0)
  {
    assert (c + [e])[..|c|] == c;
  }

  /** A callback whose only effect is to record the invocation it receives. */
  function Log<T>(log: seq<(nat, T)>, x: T, i: nat): seq<(nat, T)> {
    log + [(i, x)]
  }

  /** Running a recording callback over `c` records exactly `c`: `Run` makes each call once, in order. */
  lemma {:induction false} RunRecordsCalls<T>(c: seq<(nat, T)>)
    ensures Run(c, Log, []) == c
  {
    if c != [] {
      RunRecordsCalls(c[..|c| - 1]);
    }
  }

  /** The calls of `c` whose element satisfies `p`, in their original order. */
  function Select<T>(c: seq<(nat, T)>, p: (T, nat) -> bool): (r: seq<(nat, T)>)
    ensures |r| <= |c|
    ensures forall k :: 0 <= k < |r| ==> r[k] in c && p(r[k].1, r[k].0)
  {
    if c == [] then []
    else
      var last := c[|c| - 1];
      if p(last.1, last.0) then Select(c[..|c| - 1], p) + [last] else Select(c[..|c| - 1], p)
  }

  /** One more call offered to `Select` is kept iff it satisfies `p`; its element then ends the values. */
  lemma SelectStep<T>(c: seq<(nat, T)>, e: (nat, T), p: (T, nat) -> bool)
    ensures p(e.1, e.0) ==> Values(Select(c + [e], p)) == Values(Select(c, p)) + [e.1]
    ensures !p(e.1, e.0) ==> Values(Select(c + [e], p)) == Values(Select(c, p))
  {
    assert (c + [e])[..|c|] == c;
    if p(e.1, e.0) {
      var r := Select(c, p);
      assert (r + [e])[..|r|] == r;
    }
  }

  /** One more step of a filtering walk: index hi adds its element iff it is present and accepted. */
  lemma SelectCallsStep<T>(a: seq<Option<T>>, hi: nat, p: (T, nat) -> bool)
    requires hi < |a|
    ensures Values(Select(Calls(a, 0, hi + 1), p)) ==
      if a[hi].Some? && p(a[hi].value, hi) then Values(Select(Calls(a, 0, hi), p)) + [a[hi].value]
      else Values(Select(Calls(a, 0, hi), p))
  {
    CallsStep(a, 0, hi);
    if a[hi].Some? {
      SelectStep(Calls(a, 0, hi), (hi, a[hi].value), p);
    }
  }

  /** Nothing satisfying `p` is dropped by `Select`. */
  lemma {:induction false} SelectComplete<T>(c: seq<(nat, T)>, p: (T, nat) -> bool)
    ensures forall e :: e in c && p(e.1, e.0) ==> e in Select(c, p)
  {
    if c != [] {
      SelectComplete(c[..|c| - 1], p);
      assert c == c[..|c| - 1] + [c[|c| - 1]];
    }
  }

  /** `Select` keeps the relative order of the calls it keeps. */
  lemma {:induction false} SelectAscending<T>(c: seq<(nat, T)>, p: (T, nat) -> bool)
    requires Ascending(c)
    ensures Ascending(Select(c, p))
  {
    if c != [] {
      var init := c[..|c| - 1];
      SelectAscending(init, p);
      var r := Select(init, p);
      forall k | 0 <= k < |r|
        ensures r[k].0 < c[|c| - 1].0
      {
        var j :| 0 <= j < |init| && init[j] == r[k];
      }
    }
  }

  /** A predicate every call satisfies keeps them all. */
  lemma {:induction false} SelectAll<T>(c: seq<(nat, T)>, p: (T, nat) -> bool)
    requires forall k :: 0 <= k < |c| ==> p(c[k].1, c[k].0)
    ensures Select(c, p) == c
  {
    if c != [] {
      SelectAll(c[..|c| - 1], p);
    }
  }

  /** The slot a mapping callback produces for slot `x` at index `i`: holes stay holes. */
  function MapSlot<T, U>(x: Option<T>, f: (T, nat) -> U, i: nat): Option<U> {
    match x
    case None => None
    case Some(v) => Some(f(v, i))
  }

  /** The array of slots obtained by mapping every slot of `a` through `f`. */
  function Mapped<T, U>(a: seq<Option<T>>, f: (T, nat) -> U): seq<Option<U>> {
    if a == [] then [] else Mapped(a[..|a| - 1], f) + [MapSlot(a[|a| - 1], f, |a| - 1)]
  }

  /** Mapping keeps the length; a slot is present iff its input slot is, and then holds f(element, index). */
  lemma {:induction false} MappedAt<T, U>(a: seq<Option<T>>, f: (T, nat) -> U)
    ensures |Mapped(a, f)| == |a|
    ensures forall i :: 0 <= i < |a| ==> (Mapped(a, f)[i].Some? <==> a[i].Some?)
    ensures forall i :: 0 <= i < |a| && a[i].Some? ==> Mapped(a, f)[i] == Some(f(a[i].value, i))
  {
    if a != [] {
      MappedAt(a[..|a| - 1], f);
    }
  }

  /** Mapping with the identity callback gives back the same slots, holes included. */
  lemma MappedIdentity<T>(a: seq<Option<T>>)
    ensures Mapped(a, (x: T, i: nat) => x) == a
  {
    MappedAt(a, (x: T, i: nat) => x);
  }
}
