/**
 * Reference counts: the compare-and-swap loops of refcount_c11.c against the locked
 * operations of refcount_lock.c, for any number of threads.
 */
module Refcount {

  const MAX: nat := 0xFFFF_FFFF

  datatype Op = Inc | Dec

  /** What an operation does: an increment returns nothing, a decrement whether it reached zero. */
  datatype Result = Done | Zero(yes: bool) | Abort

  /** An operation that has taken effect. */
  datatype Entry = Entry(op: Op, result: Result)

  // ---------------------------------------------------------------- refcount_lock.c

  /** The effect of one locked operation on the count. */
  function Locked(op: Op, count: nat): (nat, Result) {
    match op
    case Inc => (if count < MAX then count + 1 else count, Done)
    case Dec =>
      if count == 0 then (count, Abort)
      else
        var after := if count < MAX then count - 1 else count;
        (after, Zero(after == 0))
  }

  class LockedCount {
    var count: nat

    constructor (n: nat)
      requires n <= MAX
      ensures count == n
    {
      count := n;
    }

    /** CRYPTO_refcount_inc, with the lock held. */
    method Increment()
      requires count <= MAX
      modifies this
      ensures count == Locked(Inc, old(count)).0 <= MAX
    {
      if count < MAX {
        count := count + 1;
      }
    }

    /** CRYPTO_refcount_dec_and_test_zero, with the lock held. */
    method DecrementAndTestZero() returns (r: Result)
      requires count <= MAX
      modifies this
      ensures (count, r) == Locked(Dec, old(count)) && count <= MAX
    {
      if count == 0 {
        return Abort;
      }
      if count < MAX {
        count := count - 1;
      }
      return Zero(count == 0);
    }
  }

  /** The count after the locked operations of a history, one after the other. */
  function CountAfter(start: nat, history: seq<Entry>): nat {
    if history == [] then start else Locked(history[|history| - 1].op, CountAfter(start, history[..|history| - 1])).0
  }

  /** Executing the locked operations in this order gives these results and this count. */
  predicate Explains(start: nat, history: seq<Entry>, count: nat) {
    if history == [] then count == start
    else
      var front, last := history[..|history| - 1], history[|history| - 1];
      var before := CountAfter(start, front);
      Explains(start, front, before) && Locked(last.op, before) == (count, last.result)
  }

  lemma {:induction false} ExplainsCount(start: nat, history: seq<Entry>, count: nat)
    requires Explains(start, history, count)
    ensures count == CountAfter(start, history)
  {
  }

  lemma ExplainsMore(start: nat, history: seq<Entry>, count: nat, op: Op)
    requires Explains(start, history, count)
    ensures Explains(start, history + [Entry(op, Locked(op, count).1)], Locked(op, count).0)
  {
    var more := history + [Entry(op, Locked(op, count).1)];
    assert more[..|more| - 1] == history;
    ExplainsCount(start, history, count);
  }

  // ---------------------------------------------------------------- refcount_c11.c, all threads

  /** A thread is idle, or has loaded `expected` in the loop of its operation. */
  datatype Thread = Idle | Loaded(op: Op, expected: nat) | Aborted

  /** The shared count, any number of threads, and what has taken effect so far. */
  datatype State = State(count: nat, threads: seq<Thread>, history: seq<Entry>)

  /** An atomic step of thread `t`. */
  datatype Step =
    | Begin(t: nat, op: Op)         // the atomic_load at the start
    | Attempt(t: nat, spurious: bool) // one turn of the loop; a weak exchange may fail without cause

  /** An atomic read of the count.  A decrement that reads zero can only abort. */
  function Load(s: State, t: nat, op: Op): State
    requires t < |s.threads|
  {
    if op == Dec && s.count == 0
    then s.(threads := s.threads[t := Loaded(op, 0)], history := s.history + [Entry(Dec, Abort)])
    else s.(threads := s.threads[t := Loaded(op, s.count)])
  }

  function Next(s: State, step: Step): State {
    if step.t >= |s.threads| then s
    else
      match (step, s.threads[step.t])
      case (Begin(t, op), Idle) => Load(s, t, op)
      case (Attempt(t, spurious), Loaded(Inc, expected)) =>
        if expected == MAX then s.(threads := s.threads[t := Idle], history := s.history + [Entry(Inc, Done)])
        else if s.count == expected && !spurious then
          State(expected + 1, s.threads[t := Idle], s.history + [Entry(Inc, Done)])
        else Load(s, t, Inc)
      case (Attempt(t, spurious), Loaded(Dec, expected)) =>
        if expected == 0 then s.(threads := s.threads[t := Aborted])
        else if expected == MAX then
          s.(threads := s.threads[t := Idle], history := s.history + [Entry(Dec, Zero(false))])
        else if s.count == expected && !spurious then
          State(expected - 1, s.threads[t := Idle], s.history + [Entry(Dec, Zero(expected - 1 == 0))])
        else Load(s, t, Dec)
      case _ => s
  }

  function Run(start: nat, threads: nat, steps: seq<Step>): State {
    if steps == [] then State(start, seq(threads, _ => Idle), [])
    else Next(Run(start, threads, steps[..|steps| - 1]), steps[|steps| - 1])
  }

  ghost predicate Inv(start: nat, s: State) {
    && s.count <= MAX
    && Explains(start, s.history, s.count)
    && forall t :: 0 <= t < |s.threads| && s.threads[t].Loaded? ==>
         s.threads[t].expected <= MAX && (s.threads[t].expected == MAX ==> s.count == MAX)
  }

  lemma LoadKeeps(start: nat, s: State, t: nat, op: Op)
    requires Inv(start, s) && t < |s.threads|
    ensures Inv(start, Load(s, t, op))
  {
    hide Explains;
    if op == Dec && s.count == 0 { ExplainsMore(start, s.history, s.count, Dec); }
  }

  lemma NextKeeps(start: nat, s: State, step: Step)
    requires Inv(start, s)
    ensures Inv(start, Next(s, step))
  {
    hide Explains, Load;
    if step.t < |s.threads| {
      match (step, s.threads[step.t]) {
        case (Begin(t, op), Idle) => LoadKeeps(start, s, t, op);
        case (Attempt(t, spurious), Loaded(op, expected)) =>
          LoadKeeps(start, s, t, op);
          ExplainsMore(start, s.history, s.count, op);
        case _ =>
      }
    }
  }

  /**
   * Linearizability: in every run, for any number of threads and any spurious failures, the
   * count and all results are those of the locked operations executed one after the other,
   * each at an atomic step of its own thread.
   */
  lemma {:induction false} Linearizable(start: nat, threads: nat, steps: seq<Step>)
    requires start <= MAX
    ensures var s := Run(start, threads, steps); s.count <= MAX && Explains(start, s.history, s.count)
    ensures Inv(start, Run(start, threads, steps))
  {
    hide Explains, Next;
    if steps != [] {
      Linearizable(start, threads, steps[..|steps| - 1]);
      NextKeeps(start, Run(start, threads, steps[..|steps| - 1]), steps[|steps| - 1]);
    } else {
      assert Explains(start, [], start) by { NoHistory(start); }
    }
  }

  lemma NoHistory(start: nat)
    ensures Explains(start, [], start)
  {
  }

  // ---------------------------------------------------------------- what the histories say

  function Count(history: seq<Entry>, e: Entry): nat {
    if history == [] then 0
    else Count(history[..|history| - 1], e) + if history[|history| - 1] == e then 1 else 0
  }

  function Increments(history: seq<Entry>): nat {
    Count(history, Entry(Inc, Done))
  }

  /** Decrements that took effect; those that returned one are the second count. */
  function Decrements(history: seq<Entry>): nat {
    Count(history, Entry(Dec, Zero(false))) + Count(history, Entry(Dec, Zero(true)))
  }

  /** The count is below saturation at the start and after every operation. */
  ghost predicate NeverSaturates(start: nat, history: seq<Entry>) {
    forall k :: 0 <= k <= |history| ==> CountAfter(start, history[..k]) < 0xFFFF_FFFF
  }

  lemma FrontNeverSaturates(start: nat, history: seq<Entry>)
    requires NeverSaturates(start, history) && history != []
    ensures NeverSaturates(start, history[..|history| - 1])
    ensures start < MAX && CountAfter(start, history) < MAX && CountAfter(start, history[..|history| - 1]) < MAX
  {
    var front := history[..|history| - 1];
    forall k | 0 <= k <= |front| ensures CountAfter(start, front[..k]) < MAX { assert front[..k] == history[..k]; }
    assert history[..0] == [] && history[..|history|] == history && front[..|front|] == front;
  }

  /**
   * As long as the count stays below saturation it is the start plus increments minus
   * decrements, however many there have been.
   */
  lemma {:induction false} CountBelowSaturation(start: nat, history: seq<Entry>, count: nat)
    requires Explains(start, history, count) && NeverSaturates(start, history)
    ensures count == start + Increments(history) - Decrements(history)
    decreases |history|
  {
    if history != [] {
      var before := CountAfter(start, history[..|history| - 1]);
      FrontNeverSaturates(start, history);
      CountBelowSaturation(start, history[..|history| - 1], before);
    }
  }

  /** Once saturated, the count never changes, and from then on no decrement returns one or aborts. */
  lemma {:induction false} SaturatedForever(start: nat, history: seq<Entry>, count: nat, k: nat)
    requires Explains(start, history, count) && k <= |history| && CountAfter(start, history[..k]) == 0xFFFF_FFFF
    ensures count == 0xFFFF_FFFF && Count(history, Entry(Dec, Zero(true))) == Count(history[..k], Entry(Dec, Zero(true)))
    ensures Count(history, Entry(Dec, Abort)) == Count(history[..k], Entry(Dec, Abort))
    decreases |history|
  {
    ExplainsCount(start, history, count);
    if k == |history| {
      assert history[..k] == history;
    } else {
      var front := history[..|history| - 1];
      assert front[..k] == history[..k];
      SaturatedForever(start, front, CountAfter(start, front), k);
    }
  }

  /** No operation starts from a count of zero: nobody uses the object once it is released. */
  ghost predicate NoUseAfterRelease(start: nat, history: seq<Entry>) {
    forall k :: 0 <= k < |history| ==> CountAfter(start, history[..k]) != 0
  }

  /**
   * In a history that never saturates, however long, a decrement returns one at most once, and
   * exactly once when the history is balanced: then the count is zero and it was the last operation.
   */
  lemma {:induction false} OneLastRelease(start: nat, history: seq<Entry>, count: nat)
    requires Explains(start, history, count) && 0 < start && NeverSaturates(start, history)
    requires NoUseAfterRelease(start, history)
    ensures Count(history, Entry(Dec, Zero(true))) == if count == 0 then 1 else 0
    ensures count == 0 <==> Decrements(history) == start + Increments(history)
    ensures count == 0 ==> history != [] && history[|history| - 1] == Entry(Dec, Zero(true))
    decreases |history|
  {
    CountBelowSaturation(start, history, count);
    if history != [] {
      var front := history[..|history| - 1];
      var before := CountAfter(start, front);
      FrontNeverSaturates(start, history);
      assert history[..|front|] == front;
      forall k | 0 <= k < |front| ensures CountAfter(start, front[..k]) != 0 { assert front[..k] == history[..k]; }
      OneLastRelease(start, front, before);
    }
  }

  // ---------------------------------------------------------------- refcount_c11.c, one call

  /**
   * The shared atomic as one thread sees it.  Before each of its accesses other threads may run
   * operations of theirs, and an exchange may fail spuriously, as often as `others` lists.
   */
  class AtomicCount {
    var value: nat
    var others: seq<seq<Op>>
    ghost const start: nat
    ghost var history: seq<Entry>

    ghost predicate Valid()
      reads this
    {
      value <= MAX && start <= MAX && Explains(start, history, value)
    }

    constructor (n: nat, others: seq<seq<Op>>)
      requires n <= MAX
      ensures Valid() && value == n && history == [] && this.others == others
    {
      value, start := n, n;
      this.others := others;
      history := [];
    }

    /** The operations of other threads that take effect now. */
    method Interfere(ops: seq<Op>)
      requires Valid()
      modifies this`value, this`history
      ensures Valid() && old(history) <= history && (old(value) == MAX ==> value == MAX)
    {
      for i := 0 to |ops|
        invariant Valid() && old(history) <= history && (old(value) == MAX ==> value == MAX)
      {
        ExplainsMore(start, history, value, ops[i]);
        history := history + [Entry(ops[i], Locked(ops[i], value).1)];
        value := Locked(ops[i], value).0;
      }
    }

    /** atomic_load */
    method Load() returns (v: nat)
      requires Valid()
      modifies this
      ensures Valid() && old(history) <= history && v == value && |others| <= |old(others)|
    {
      if others != [] {
        Interfere(others[0]);
        others := others[1..];
      }
      v := value;
    }

    /** atomic_compare_exchange_weak, for an operation that turns `expected` into `desired`. */
    method CompareExchange(expected: nat, desired: nat, ghost op: Op) returns (ok: bool, actual: nat)
      requires Valid() && Locked(op, expected).0 == desired
      modifies this
      ensures Valid() && old(history) <= history
      ensures ok ==> |history| > |old(history)| && history[|history| - 1] == Entry(op, Locked(op, expected).1)
      ensures !ok ==> actual == value && (|others| < |old(others)| || (others == old(others) && old(value) != expected))
    {
      var spurious := false;
      if others != [] {
        Interfere(others[0]);
        others := others[1..];
        spurious := *;
      }
      if value != expected || spurious {
        return false, value;
      }
      ExplainsMore(start, history, value, op);
      history := history + [Entry(op, Locked(op, expected).1)];
      value := desired;
      return true, expected;
    }

    /** An operation that takes effect without changing the count. */
    ghost method Observe(op: Op)
      requires Valid() && Locked(op, value).0 == value
      modifies this`history
      ensures Valid() && history == old(history) + [Entry(op, Locked(op, value).1)]
    {
      ExplainsMore(start, history, value, op);
      history := history + [Entry(op, Locked(op, value).1)];
    }

    /** CRYPTO_refcount_inc: takes effect as one locked increment, between its call and its return. */
    method Increment()
      requires Valid()
      modifies this
      ensures Valid() && old(history) <= history
      ensures TookEffect(|old(history)|, Entry(Inc, Done))
    {
      var expected: nat := Load();
      while expected != MAX
        invariant Valid() && old(history) <= history && expected <= MAX
        invariant expected == MAX ==> value == MAX
        decreases |others|, if value == expected then 0 else 1
      {
        var ok;
        ok, expected := CompareExchange(expected, expected + 1, Inc);
        if ok {
          return;
        }
      }
      Observe(Inc);
    }

    /**
     * CRYPTO_refcount_dec_and_test_zero: takes effect as one locked decrement with the same
     * result, between its call and its return.
     */
    method DecrementAndTestZero() returns (r: Result)
      requires Valid()
      modifies this
      ensures Valid() && old(history) <= history
      ensures TookEffect(|old(history)|, Entry(Dec, r))
    {
      var expected := Load();
      while true
        invariant Valid() && old(history) <= history && expected == value
        decreases |others|, if value == expected then 0 else 1
      {
        if expected == 0 {
          Observe(Dec);
          return Abort;
        } else if expected == MAX {
          Observe(Dec);
          return Zero(false);
        } else {
          var newValue := expected - 1;
          var ok;
          ok, expected := CompareExchange(expected, newValue, Dec);
          if ok {
            return Zero(newValue == 0);
          }
        }
      }
    }

    /** The history has this entry at position `from` or later. */
    ghost predicate TookEffect(from: nat, e: Entry)
      reads this
    {
      exists k :: from <= k < |history| && history[k] == e
    }
  }
}
