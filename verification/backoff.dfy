/** The retry loop of backoff/retry.go. `ok(i)` says whether the `i`-th call of the
    operation (counting from 0) returns nil; the sleep between attempts is not
    modelled. */
module Backoff {
  import opened Wrappers

  /** The reference count of calls: from attempt `i` on, call until one succeeds or
      `max` attempts have been made. */
  function AttemptsFrom(ok: nat -> bool, i: nat, max: int): (n: nat)
    ensures i <= max ==> i <= n <= max
    ensures i > max ==> n == i
    decreases max - i
  {
    if i >= max then i else if ok(i) then i + 1 else AttemptsFrom(ok, i + 1, max)
  }

  function Attempts(ok: nat -> bool, max: int): nat {
    AttemptsFrom(ok, 0, max)
  }

  /** When the first success among the first `max` calls is call `k`, there are
      exactly `k + 1` calls. */
  lemma {:induction false} AttemptsAtFirstSuccess(ok: nat -> bool, i: nat, max: int, k: nat)
    requires i <= k < max && ok(k)
    requires forall j :: i <= j < k ==> !ok(j)
    ensures AttemptsFrom(ok, i, max) == k + 1
    decreases k - i
  {
    if i < k {
      AttemptsAtFirstSuccess(ok, i + 1, max, k);
    }
  }

  /** When none of the first `max` calls succeeds, there are exactly `max` calls. */
  lemma {:induction false} AttemptsWithoutSuccess(ok: nat -> bool, i: nat, max: int)
    requires i <= max
    requires forall k :: i <= k < max ==> !ok(k)
    ensures AttemptsFrom(ok, i, max) == max
    decreases max - i
  {
    if i < max {
      AttemptsWithoutSuccess(ok, i + 1, max);
    }
  }

  /** `Backoff.Do`: call the operation up to `max` times, stopping at the first
      success. Failure or success, the result is nil: the caller learns nothing. */
  method Do(ok: nat -> bool, max: int) returns (err: Option<string>, calls: nat)
    ensures err == None
    ensures calls == Attempts(ok, max)
    ensures max <= 0 ==> calls == 0
    ensures forall k :: 0 <= k < calls - 1 ==> !ok(k)
  {
    var i: nat := 0;
    while i < max
      invariant max >= 0 ==> i <= max
      invariant AttemptsFrom(ok, i, max) == Attempts(ok, max)
      invariant forall k :: 0 <= k < i ==> !ok(k)
      decreases max - i
    {
      if ok(i) {
        return None, i + 1;
      }
      i := i + 1;
    }
    return None, i;
  }
}
