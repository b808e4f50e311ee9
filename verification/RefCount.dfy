/** The lock-free saturating reference count, run by any number of threads, refines the locked
    one: each operation takes effect in one step, at the moment it completes. */
module RefCount {
  import opened Wrappers

  const REFCOUNT_MAX: nat := 0xffff_ffff

  datatype Op = Inc | Dec

  // ----- the locked version

  /** What a locked operation makes of the count, and whether it reports zero; none if it aborts. */
  function Locked(count: nat, op: Op): (r: Option<(nat, bool)>)
    requires count <= REFCOUNT_MAX
    ensures r.Some? ==> r.value.0 <= REFCOUNT_MAX
  {
    match op
    case Inc => Some((if count < REFCOUNT_MAX then count + 1 else count, false))
    case Dec =>
      if count == 0 then None
      else
        var next := if count < REFCOUNT_MAX then count - 1 else count;
        Some((next, next == 0))
  }

  /** refcount_lock.c: one operation at a time under a mutex. */
  class LockedCount {
    var count: nat

    method Increment()
      requires count <= REFCOUNT_MAX
      modifies this
      ensures Locked(old(count), Inc) == Some((count, false))
    {
      if count < REFCOUNT_MAX {
        count := count + 1;
      }
    }

    /** No result stands for an abort. */
    method DecrementAndTestZero() returns (zero: Option<bool>)
      requires count <= REFCOUNT_MAX
      modifies this
      ensures var r := Locked(old(count), Dec);
              if r.None? then zero.None? && count == old(count) else zero.Some? && r.value == (count, zero.value)
    {
      if count == 0 {
        return None;
      }
      if count < REFCOUNT_MAX {
        count := count - 1;
      }
      return Some(count == 0);
    }
  }

  /** A completed operation and what it returned. */
  datatype Completed = Completed(op: Op, zero: bool)

  /** The count after a sequence of locked operations, if each returns what is recorded. */
  function Replay(start: nat, history: seq<Completed>): (r: Option<nat>)
    requires start <= REFCOUNT_MAX
    ensures r.Some? ==> r.value <= REFCOUNT_MAX
  {
    if history == [] then Some(start)
    else
      var n := |history| - 1;
      var before := Replay(start, history[..n]);
      if before.None? then None
      else
        var step := Locked(before.value, history[n].op);
        if step.None? || step.value.1 != history[n].zero then None else Some(step.value.0)
  }

  // ----- the lock-free version, one atomic action at a time

  /** Between two of its actions a thread in an operation remembers the count it expects. */
  datatype Thread = Idle | Trying(op: Op, expected: nat)

  datatype State = State(count: nat, threads: map<nat, Thread>, history: seq<Completed>, aborted: bool)

  ghost function Begin(s: State, t: nat, op: Op): State {
    if t in s.threads && s.threads[t].Trying? then s
    else s.(threads := s.threads[t := Trying(op, s.count)])
  }

  ghost function Complete(s: State, t: nat, op: Op, zero: bool): State {
    s.(threads := s.threads[t := Idle], history := s.history + [Completed(op, zero)])
  }

  /** The next action of a thread: a test of what it expects, then a compare-and-exchange, which
      may fail for no reason and then tells the thread the current count. */
  ghost function Turn(s: State, t: nat, spurious: bool): State {
    if t !in s.threads || s.threads[t].Idle? then s
    else
      var op, expected := s.threads[t].op, s.threads[t].expected;
      if op == Dec && expected == 0 then s.(aborted := true)
      else if expected == REFCOUNT_MAX then Complete(s, t, op, false)
      else if s.count != expected || spurious then s.(threads := s.threads[t := Trying(op, s.count)])
      else
        var next: nat := match op case Inc => expected + 1 case Dec => expected - 1;
        Complete(s.(count := next), t, op, op == Dec && next == 0)
  }

  datatype Action = Begins(t: nat, op: Op) | Turns(t: nat, spurious: bool)

  /** After an abort nothing runs. */
  ghost function Step(s: State, a: Action): State {
    if s.aborted then s
    else match a
      case Begins(t, op) => Begin(s, t, op)
      case Turns(t, spurious) => Turn(s, t, spurious)
  }

  ghost function Run(start: nat, actions: seq<Action>): State {
    if actions == [] then State(start, map[], [], false)
    else Step(Run(start, actions[..|actions| - 1]), actions[|actions| - 1])
  }

  /** refcount_c11.c: the loops of all threads, interleaved action by action. */
  class Machine {
    var count: nat
    var threads: map<nat, Thread>
    var aborted: bool
    ghost var history: seq<Completed>

    ghost function Now(): State
      reads this
    {
      State(count, threads, history, aborted)
    }

    constructor (start: nat)
      ensures Now() == Run(start, [])
    {
      count, threads, aborted, history := start, map[], false, [];
    }

    /** The initial atomic load of an operation. */
    method Load(t: nat, op: Op)
      requires !aborted && (t in threads ==> threads[t].Idle?)
      modifies this
      ensures Now() == Step(old(Now()), Begins(t, op))
    {
      threads := threads[t := Trying(op, count)];
    }

    /** atomic_compare_exchange_weak. */
    method CompareExchangeWeak(t: nat, desired: nat, spurious: bool) returns (ok: bool)
      requires t in threads && threads[t].Trying?
      modifies this`count, this`threads
      ensures ok <==> old(count) == old(threads)[t].expected && !spurious
      ensures count == (if ok then desired else old(count))
      ensures threads == if ok then old(threads) else old(threads)[t := Trying(old(threads)[t].op, old(count))]
    {
      ok := count == threads[t].expected && !spurious;
      if ok {
        count := desired;
      } else {
        threads := threads[t := Trying(threads[t].op, count)];
      }
    }

    /** One pass of the loop of CRYPTO_refcount_inc. */
    method IncrementPass(t: nat, spurious: bool)
      requires !aborted && t in threads && threads[t].Trying? && threads[t].op == Inc
      modifies this
      ensures Now() == Step(old(Now()), Turns(t, spurious))
    {
      var expected := threads[t].expected;
      var done := expected == REFCOUNT_MAX;
      if !done {
        done := CompareExchangeWeak(t, expected + 1, spurious);
      }
      if done {
        threads := threads[t := Idle];
        history := history + [Completed(Inc, false)];
      }
    }

    /** One pass of the loop of CRYPTO_refcount_dec_and_test_zero; the result, once there is one. */
    method DecrementPass(t: nat, spurious: bool) returns (zero: Option<bool>)
      requires !aborted && t in threads && threads[t].Trying? && threads[t].op == Dec
      modifies this
      ensures Now() == Step(old(Now()), Turns(t, spurious))
      ensures zero.Some? <==> history != old(history)
      ensures zero.Some? ==> history == old(history) + [Completed(Dec, zero.value)]
    {
      var expected := threads[t].expected;
      zero := None;
      if expected == 0 {
        aborted := true;
        return;
      } else if expected == REFCOUNT_MAX {
        zero := Some(false);
      } else {
        var ok := CompareExchangeWeak(t, expected - 1, spurious);
        if ok {
          zero := Some(expected - 1 == 0);
        }
      }
      if zero.Some? {
        threads := threads[t := Idle];
        history := history + [Completed(Dec, zero.value)];
      }
    }
  }

  // ----- refinement

  /** A thread that has seen the largest count is right for ever: saturation is final. */
  ghost predicate Inv(start: nat, s: State)
    requires start <= REFCOUNT_MAX
  {
    && s.count <= REFCOUNT_MAX
    && (forall t <- s.threads :: s.threads[t].Trying? ==>
          && s.threads[t].expected <= REFCOUNT_MAX
          && (s.threads[t].expected == REFCOUNT_MAX ==> s.count == REFCOUNT_MAX))
    && Replay(start, s.history) == Some(s.count)
  }

  lemma ReplayMore(start: nat, history: seq<Completed>, c: Completed)
    requires start <= REFCOUNT_MAX && Replay(start, history).Some?
    requires Locked(Replay(start, history).value, c.op).Some?
    requires Locked(Replay(start, history).value, c.op).value.1 == c.zero
    ensures Replay(start, history + [c]) == Some(Locked(Replay(start, history).value, c.op).value.0)
  {
    assert (history + [c])[..|history|] == history;
  }

  /** Every action of every thread is no step of the locked version, or exactly one. */
  lemma {:induction false} StepRefines(start: nat, s: State, a: Action)
    requires start <= REFCOUNT_MAX && Inv(start, s)
    ensures Inv(start, Step(s, a))
    ensures (Step(s, a).history == s.history && Step(s, a).count == s.count) ||
            (a.Turns? && a.t in s.threads && s.threads[a.t].Trying?
             && var op := s.threads[a.t].op;
                var zero := Step(s, a).history[|Step(s, a).history| - 1].zero;
                Step(s, a).history == s.history + [Completed(op, zero)]
                && Locked(s.count, op) == Some((Step(s, a).count, zero)))
  {
    hide Replay;
    if !s.aborted && a.Turns? && a.t in s.threads && s.threads[a.t].Trying? {
      var op, expected := s.threads[a.t].op, s.threads[a.t].expected;
      if !(op == Dec && expected == 0) && (expected == REFCOUNT_MAX || (s.count == expected && !a.spurious)) {
        var done := Completed(op, Locked(s.count, op).value.1);
        ReplayMore(start, s.history, done);
        assert Step(s, a).history == s.history + [done];
      }
    }
  }

  /** For every interleaving of every number of threads: run one after the other in the order of
      completion, the locked operations return the same and end at the same count. */
  lemma {:induction false} RunRefines(start: nat, actions: seq<Action>)
    requires start <= REFCOUNT_MAX
    ensures Inv(start, Run(start, actions))
    ensures Replay(start, Run(start, actions).history) == Some(Run(start, actions).count)
    decreases |actions|
  {
    if actions != [] {
      var n := |actions| - 1;
      RunRefines(start, actions[..n]);
      StepRefines(start, Run(start, actions[..n]), actions[n]);
    }
  }

  /** A thread doomed to abort. */
  ghost predicate Doomed(s: State, t: nat) {
    t in s.threads && s.threads[t] == Trying(Dec, 0)
  }

  /** An abort happens only where the locked version aborts too: a thread is doomed by an action
      during its decrement at which the count is zero. */
  lemma AbortsLikeLocked(s: State, a: Action, t: nat)
    requires s.count <= REFCOUNT_MAX
    ensures !s.aborted && Step(s, a).aborted ==> a.Turns? && Doomed(s, a.t)
    ensures !Doomed(s, t) && Doomed(Step(s, a), t) ==> a.t == t && s.count == 0 && Locked(s.count, Dec) == None
  {
  }

  // ----- owners

  ghost function Count(history: seq<Completed>, op: Op): nat {
    if history == [] then 0
    else Count(history[..|history| - 1], op) + if history[|history| - 1].op == op then 1 else 0
  }

  ghost function Zeros(history: seq<Completed>): nat {
    if history == [] then 0
    else Zeros(history[..|history| - 1]) + if history[|history| - 1].zero then 1 else 0
  }

  /** Nobody takes a reference to an object that has none left. */
  ghost predicate Owned(start: nat, history: seq<Completed>)
    requires start <= REFCOUNT_MAX
  {
    history == [] ||
    var n := |history| - 1;
    Owned(start, history[..n]) && (history[n].op == Inc ==> Replay(start, history[..n]) != Some(0))
  }

  /** While the count cannot saturate it is the number of references, and exactly one decrement
      reports zero if all are given up, none otherwise. */
  lemma {:induction false} OneZero(start: nat, history: seq<Completed>)
    requires 0 < start && start + Count(history, Inc) < 0xffff_ffff
    requires Replay(start, history).Some? && Owned(start, history)
    ensures Replay(start, history).value == start + Count(history, Inc) - Count(history, Dec)
    ensures Zeros(history) == if Replay(start, history).value == 0 then 1 else 0
    decreases |history|
  {
    if history != [] {
      OneZero(start, history[..|history| - 1]);
    }
  }

  /** A saturated count stays as it is, and no decrement ever reports zero. */
  lemma {:induction false} SaturatedStays(history: seq<Completed>)
    ensures Replay(0xffff_ffff, history).Some? <==> forall c <- history :: !c.zero
    ensures Replay(0xffff_ffff, history).Some? ==> Replay(0xffff_ffff, history) == Some(0xffff_ffff)
    decreases |history|
  {
    if history != [] {
      var n := |history| - 1;
      SaturatedStays(history[..n]);
      assert history == history[..n] + [history[n]];
    }
  }

  /** So it is for the lock-free count, whatever the threads do. */
  lemma LastOwnerLearns(start: nat, actions: seq<Action>)
    requires 0 < start <= REFCOUNT_MAX
    requires var s := Run(start, actions);
             start + Count(s.history, Inc) < 0xffff_ffff && Owned(start, s.history)
    ensures var s := Run(start, actions);
            && s.count == start + Count(s.history, Inc) - Count(s.history, Dec)
            && Zeros(s.history) == if s.count == 0 then 1 else 0
  {
    RunRefines(start, actions);
    OneZero(start, Run(start, actions).history);
  }
}
