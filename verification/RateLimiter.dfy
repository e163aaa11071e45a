/** The block simulation rate limiter: a counter of waiting plus active requests under a condition
    variable whose wait is guarded by a single `if`, never re-checked after waking. Steps are the
    critical sections of `Send`; Go's sync.Cond has no spurious wakeups, and Signal wakes one waiter if
    there is any, whichever it picks.
 */
module RateLimiter {
  import opened Common

  type RequestId = nat

  /** A signalled request is `woken` until it holds the lock again; `active` requests simulate. */
  datatype State = State(counter: int, waiting: set<RequestId>, woken: set<RequestId>, active: set<RequestId>)

  const INIT_STATE := State(0, {}, {}, {})

  datatype Step =
    | Arrive(id: RequestId)                          // Lock; counter++; wait or go on
    | Resume(id: RequestId)                          // a woken request gets the lock back and goes on
    | Finish(id: RequestId, signalled: Option<RequestId>)   // Lock; counter--; Signal; Unlock

  predicate Enabled(s: State, step: Step) {
    match step
    case Arrive(id) => id !in s.waiting && id !in s.woken && id !in s.active
    case Resume(id) => id in s.woken
    case Finish(id, signalled) =>
      id in s.active && (if signalled.Some? then signalled.value in s.waiting else s.waiting == {})
  }

  /** `maxConcurrent` is BLOCKSIM_MAX_CONCURRENT; zero or less means no limit. */
  function Next(maxConcurrent: int, s: State, step: Step): State
    requires Enabled(s, step)
  {
    match step
    case Arrive(id) =>
      if maxConcurrent > 0 && s.counter + 1 > maxConcurrent
      then s.(counter := s.counter + 1, waiting := s.waiting + {id})
      else s.(counter := s.counter + 1, active := s.active + {id})
    case Resume(id) => s.(woken := s.woken - {id}, active := s.active + {id})
    case Finish(id, signalled) =>
      var s1 := s.(counter := s.counter - 1, active := s.active - {id});
      if signalled.Some? then s1.(waiting := s1.waiting - {signalled.value}, woken := s1.woken + {signalled.value})
      else s1
  }

  ghost predicate IsRun(maxConcurrent: int, run: seq<State>, steps: seq<Step>) {
    && |run| == |steps| + 1
    && forall i | 0 <= i < |steps| :: Enabled(run[i], steps[i]) && run[i + 1] == Next(maxConcurrent, run[i], steps[i])
  }

  // ---------------------------------------------------------------- admission

  /** Requests that have been admitted, whether or not they run already. */
  function Admitted(s: State): nat {
    |s.woken| + |s.active|
  }

  ghost predicate Inv(maxConcurrent: int, s: State) {
    && s.waiting !! s.woken && s.waiting !! s.active && s.woken !! s.active
    && s.counter == |s.waiting| + Admitted(s)
    && (if maxConcurrent > 0 then Admitted(s) == Min(s.counter, maxConcurrent) else s.waiting == {})
  }

  lemma NextKeepsInv(maxConcurrent: int, s: State, step: Step)
    requires Inv(maxConcurrent, s) && Enabled(s, step)
    ensures Inv(maxConcurrent, Next(maxConcurrent, s, step))
  {
    var s' := Next(maxConcurrent, s, step);
    match step
    case Arrive(id) =>
      assert |s.waiting + {id}| == |s.waiting| + 1 && |s.active + {id}| == |s.active| + 1;
    case Resume(id) =>
      assert |s.woken - {id}| == |s.woken| - 1 && |s.active + {id}| == |s.active| + 1;
    case Finish(id, signalled) =>
      assert |s.active - {id}| == |s.active| - 1;
      if signalled.Some? {
        assert |s.waiting - {signalled.value}| == |s.waiting| - 1 && |s.woken + {signalled.value}| == |s.woken| + 1;
      }
  }

  lemma {:induction false} RunKeepsInv(maxConcurrent: int, run: seq<State>, steps: seq<Step>, i: nat)
    requires IsRun(maxConcurrent, run, steps) && Inv(maxConcurrent, run[0]) && i < |run|
    ensures Inv(maxConcurrent, run[i])
  {
    if i > 0 {
      RunKeepsInv(maxConcurrent, run, steps, i - 1);
      NextKeepsInv(maxConcurrent, run[i - 1], steps[i - 1]);
    }
  }

  /** After any interleaving with a limit m > 0, exactly min(counter, m) requests are admitted and
      max(0, counter - m) wait; without a limit nobody waits. */
  lemma AdmissionIsExact(maxConcurrent: int, run: seq<State>, steps: seq<Step>, i: nat)
    requires IsRun(maxConcurrent, run, steps) && run[0] == INIT_STATE && i < |run|
    ensures var s := run[i];
            if maxConcurrent > 0 then
              Admitted(s) == Min(s.counter, maxConcurrent) && |s.waiting| == Max(0, s.counter - maxConcurrent)
            else Admitted(s) == s.counter && s.waiting == {}
  {
    RunKeepsInv(maxConcurrent, run, steps, i);
  }

  // ---------------------------------------------------------------- who is inside

  predicate Inside(s: State, id: RequestId) {
    id in s.waiting || id in s.woken || id in s.active
  }

  ghost predicate Leaves(step: Step, id: RequestId) {
    step.Finish? && step.id == id
  }

  lemma InsideStep(maxConcurrent: int, s: State, step: Step, id: RequestId)
    requires s.waiting !! s.woken && s.waiting !! s.active && s.woken !! s.active && Enabled(s, step)
    ensures Inside(Next(maxConcurrent, s, step), id) <==>
              step == Arrive(id) || (Inside(s, id) && !Leaves(step, id))
  {
  }

  /** The request has arrived in step `i` and has not finished before step `k`. */
  ghost predicate PendingSince(steps: seq<Step>, i: nat, k: nat, id: RequestId) {
    i < k <= |steps| && steps[i] == Arrive(id) && forall m | i < m < k :: !Leaves(steps[m], id)
  }

  ghost predicate Pending(steps: seq<Step>, k: nat, id: RequestId) {
    exists i :: PendingSince(steps, i, k, id)
  }

  lemma PendingStep(steps: seq<Step>, k: nat, id: RequestId)
    requires 0 < k <= |steps|
    ensures var step := steps[k - 1];
            Pending(steps, k, id) <==> step == Arrive(id) || (Pending(steps, k - 1, id) && !Leaves(step, id))
  {
    var n := k - 1;
    if steps[n] == Arrive(id) {
      assert PendingSince(steps, n, k, id);
    } else {
      if i :| PendingSince(steps, i, k, id) {
        assert PendingSince(steps, i, n, id);
      }
      if Pending(steps, n, id) && !Leaves(steps[n], id) {
        var i :| PendingSince(steps, i, n, id);
        assert PendingSince(steps, i, k, id);
      }
    }
  }

  /** In every interleaving exactly the requests that have arrived and not yet finished are inside: none is
      forgotten and none leaves early. */
  lemma {:induction false} InsideIff(maxConcurrent: int, run: seq<State>, steps: seq<Step>, k: nat, id: RequestId)
    requires IsRun(maxConcurrent, run, steps) && run[0] == INIT_STATE && k < |run|
    ensures Inside(run[k], id) <==> Pending(steps, k, id)
  {
    if k > 0 {
      InsideIff(maxConcurrent, run, steps, k - 1, id);
      RunKeepsInv(maxConcurrent, run, steps, k - 1);
      InsideStep(maxConcurrent, run[k - 1], steps[k - 1], id);
      PendingStep(steps, k, id);
      hide Inside, Next, Pending, Inv, Leaves;
    }
  }

  // ---------------------------------------------------------------- draining

  /** Every waiting request still needs to be signalled, to resume and to finish. */
  function Work(s: State): nat {
    3 * |s.waiting| + 2 * |s.woken| + |s.active|
  }

  /** No wakeup is lost: while any request is in the limiter, some admitted request can take a step. */
  lemma SomeoneCanStep(maxConcurrent: int, s: State) returns (step: Step)
    requires Inv(maxConcurrent, s) && s.counter > 0
    ensures !step.Arrive? && Enabled(s, step)
  {
    if s.woken != {} {
      var id :| id in s.woken;
      step := Resume(id);
    } else {
      assert s.active != {};
      var id :| id in s.active;
      if s.waiting == {} {
        step := Finish(id, None);
      } else {
        var w :| w in s.waiting;
        step := Finish(id, Some(w));
      }
    }
  }

  lemma StepDoesWork(maxConcurrent: int, s: State, step: Step)
    requires Inv(maxConcurrent, s) && Enabled(s, step) && !step.Arrive?
    ensures Work(Next(maxConcurrent, s, step)) < Work(s)
  {
  }

  /** Once arrivals stop, any schedule takes at most Work(s) more steps, ... */
  lemma {:induction false} DrainIsBounded(maxConcurrent: int, run: seq<State>, steps: seq<Step>)
    requires IsRun(maxConcurrent, run, steps) && Inv(maxConcurrent, run[0])
    requires forall i | 0 <= i < |steps| :: !steps[i].Arrive?
    ensures |steps| + Work(run[|steps|]) <= Work(run[0])
    decreases |steps|
  {
    if steps != [] {
      var n := |steps| - 1;
      DrainIsBounded(maxConcurrent, run[..n + 1], steps[..n]);
      RunKeepsInv(maxConcurrent, run, steps, n);
      StepDoesWork(maxConcurrent, run[n], steps[n]);
    }
  }

  /** ... and a schedule that cannot be continued has served everyone. */
  lemma StuckMeansDrained(maxConcurrent: int, run: seq<State>, steps: seq<Step>)
    requires IsRun(maxConcurrent, run, steps) && Inv(maxConcurrent, run[0])
    requires forall step: Step | !step.Arrive? :: !Enabled(run[|steps|], step)
    ensures run[|steps|] == INIT_STATE
  {
    var s := run[|steps|];
    RunKeepsInv(maxConcurrent, run, steps, |steps|);
    if s.counter > 0 {
      var step := SomeoneCanStep(maxConcurrent, s);
    }
  }

  /** Every finite set of requests drains: from any reachable state the remaining work can be run out. */
  lemma {:induction false} Drains(maxConcurrent: int, s: State) returns (run: seq<State>, steps: seq<Step>)
    requires Inv(maxConcurrent, s)
    ensures IsRun(maxConcurrent, run, steps) && run[0] == s && run[|steps|] == INIT_STATE
    ensures forall i | 0 <= i < |steps| :: !steps[i].Arrive?
    decreases Work(s)
  {
    if s.counter <= 0 {
      run, steps := [s], [];
    } else {
      var step := SomeoneCanStep(maxConcurrent, s);
      var s' := Next(maxConcurrent, s, step);
      NextKeepsInv(maxConcurrent, s, step);
      StepDoesWork(maxConcurrent, s, step);
      var run', steps' := Drains(maxConcurrent, s');
      run, steps := [s] + run', [step] + steps';
    }
  }

  // ---------------------------------------------------------------- the limiter object

  class BlockSimulationRateLimiter {
    const maxConcurrent: int
    var counter: int
    var waiting: set<RequestId>
    var woken: set<RequestId>
    var active: set<RequestId>

    ghost function View(): State
      reads this
    {
      State(counter, waiting, woken, active)
    }

    constructor (maxConcurrent: int)
      ensures this.maxConcurrent == maxConcurrent && View() == INIT_STATE && Inv(maxConcurrent, View())
    {
      this.maxConcurrent := maxConcurrent;
      counter, waiting, woken, active := 0, {}, {}, {};
    }

    /** The entry section of Send; reports whether the request went on without waiting. */
    method Enter(id: RequestId) returns (admitted: bool)
      requires Inv(maxConcurrent, View()) && Enabled(View(), Arrive(id))
      modifies this
      ensures View() == Next(maxConcurrent, old(View()), Arrive(id)) && Inv(maxConcurrent, View())
      ensures admitted <==> maxConcurrent <= 0 || old(counter) < maxConcurrent
    {
      NextKeepsInv(maxConcurrent, View(), Arrive(id));
      counter := counter + 1;
      if maxConcurrent > 0 && counter > maxConcurrent {
        waiting := waiting + {id};
        return false;
      }
      active := active + {id};
      return true;
    }

    /** A woken request leaves Wait and goes on, without looking at the counter again. */
    method LeaveWait(id: RequestId)
      requires Inv(maxConcurrent, View()) && id in woken
      modifies this
      ensures View() == Next(maxConcurrent, old(View()), Resume(id)) && Inv(maxConcurrent, View())
    {
      NextKeepsInv(maxConcurrent, View(), Resume(id));
      woken, active := woken - {id}, active + {id};
    }

    /** The deferred section of Send. */
    method Leave(id: RequestId) returns (ghost signalled: Option<RequestId>)
      requires Inv(maxConcurrent, View()) && id in active
      modifies this
      ensures Enabled(old(View()), Finish(id, signalled))
      ensures View() == Next(maxConcurrent, old(View()), Finish(id, signalled)) && Inv(maxConcurrent, View())
    {
      signalled := None;
      ghost var before := View();
      counter, active := counter - 1, active - {id};
      if waiting != {} {
        var w :| w in waiting;
        signalled := Some(w);
        waiting, woken := waiting - {w}, woken + {w};
      }
      NextKeepsInv(maxConcurrent, before, Finish(id, signalled));
    }

    /** CurrentCounter: the number of waiting and active requests. */
    method CurrentCounter() returns (n: int)
      requires Inv(maxConcurrent, View())
      ensures n == |waiting| + |woken| + |active|
    {
      n := counter;
    }
  }
}
