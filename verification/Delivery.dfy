/** The at-most-one-payload-per-slot protocol: optimistic locking over the last delivered slot and
    hash, run by any number of concurrent calls on any number of relay instances. Every Redis round
    trip (WATCH, the two GETs, EXEC) is a separate step, so calls interleave between them.
 */
module Delivery {
  import opened Common

  type Hash = string
  type CallId = nat

  datatype Error = PastSlot | AnotherPayload | TxFailed | RedisError

  datatype Phase =
    | Watching                           // WATCH sent, nothing read yet
    | ReadSlot(lastSlot: nat)            // slot == lastSlot, hash still to be read
    | Committing                         // slot is new, MULTI/EXEC to be sent
    | Returned(result: Option<Error>)    // None is Go's nil error

  /** One call: its arguments, where it is, and the write count it saw at WATCH. */
  datatype Call = Call(slot: nat, hash: Hash, watched: nat, phase: Phase)

  /** `writes` counts committed transactions, which is what EXEC compares with the count at WATCH;
      `log` is the history of committed pairs. */
  datatype State =
    State(lastSlot: Option<nat>, lastHash: Option<Hash>, writes: nat, calls: map<CallId, Call>, log: seq<(nat, Hash)>)

  const INIT_STATE := State(None, None, 0, map[], [])

  datatype Step =
    | Start(id: CallId, slot: nat, hash: Hash)
    | GetSlot(id: CallId)
    | GetHash(id: CallId)
    | Exec(id: CallId)
    | LostExec(id: CallId)  // EXEC reaches Redis, its reply does not come back
    | Fail(id: CallId)      // any other Redis error

  function AtPhase(c: Call, p: Phase): Call {
    c.(phase := p)
  }

  /** A missing slot key reads as zero (redis.Nil is ignored and the value stays zero). */
  function StoredSlot(s: State): nat {
    if s.lastSlot.Some? then s.lastSlot.value else 0
  }

  /** A missing hash key reads as the empty string. */
  function StoredHash(s: State): Hash {
    if s.lastHash.Some? then s.lastHash.value else ""
  }

  predicate Enabled(s: State, step: Step) {
    match step
    case Start(id, _, _) => id !in s.calls
    case GetSlot(id) => id in s.calls && s.calls[id].phase.Watching?
    case GetHash(id) => id in s.calls && s.calls[id].phase.ReadSlot?
    case Exec(id) => id in s.calls && s.calls[id].phase.Committing?
    case LostExec(id) => id in s.calls && s.calls[id].phase.Committing?
    case Fail(id) => id in s.calls && !s.calls[id].phase.Returned?
  }

  function AfterGetSlot(s: State, c: Call): Phase {
    if c.slot < StoredSlot(s) then Returned(Some(PastSlot))
    else if c.slot == StoredSlot(s) then ReadSlot(StoredSlot(s))
    else Committing
  }

  function AfterGetHash(s: State, c: Call): Phase {
    if c.hash != StoredHash(s) then Returned(Some(AnotherPayload)) else Returned(None)
  }

  /** EXEC writes both keys unless a watched one was written since WATCH; the call returns `result`. */
  function Settle(s: State, id: CallId, result: Option<Error>): State
    requires id in s.calls
  {
    var c := s.calls[id];
    var calls := s.calls[id := AtPhase(c, Returned(result))];
    if c.watched != s.writes then s.(calls := calls)
    else State(Some(c.slot), Some(c.hash), s.writes + 1, calls, s.log + [(c.slot, c.hash)])
  }

  function Next(s: State, step: Step): State
    requires Enabled(s, step)
  {
    match step
    case Start(id, slot, hash) => s.(calls := s.calls[id := Call(slot, hash, s.writes, Watching)])
    case GetSlot(id) => s.(calls := s.calls[id := AtPhase(s.calls[id], AfterGetSlot(s, s.calls[id]))])
    case GetHash(id) => s.(calls := s.calls[id := AtPhase(s.calls[id], AfterGetHash(s, s.calls[id]))])
    case Exec(id) =>
      var c := s.calls[id];
      Settle(s, id, if c.watched == s.writes then None else Some(TxFailed))
    case LostExec(id) => Settle(s, id, Some(RedisError))
    case Fail(id) => s.(calls := s.calls[id := AtPhase(s.calls[id], Returned(Some(RedisError)))])
  }

  ghost predicate IsRun(run: seq<State>, steps: seq<Step>) {
    && |run| == |steps| + 1 && run[0] == INIT_STATE
    && forall i | 0 <= i < |steps| :: Enabled(run[i], steps[i]) && run[i + 1] == Next(run[i], steps[i])
  }

  // ---------------------------------------------------------------- the invariant

  ghost predicate LogIncreasing(log: seq<(nat, Hash)>) {
    forall i, j | 0 <= i < j < |log| :: log[i].0 < log[j].0
  }

  /** The stored keys are the last committed pair, and a committed slot is never zero. */
  ghost predicate StoreMatchesLog(s: State) {
    && |s.log| == s.writes
    && (s.log == [] ==> s.lastSlot == None && s.lastHash == None)
    && (s.log != [] ==> s.lastSlot == Some(s.log[|s.log| - 1].0) && s.lastHash == Some(s.log[|s.log| - 1].1))
    && (forall i | 0 <= i < |s.log| :: s.log[i].0 > 0)
  }

  /** A call about to commit whose watch is still good has a slot above the stored one. */
  ghost predicate CallsConsistent(s: State) {
    forall id | id in s.calls ::
      var c := s.calls[id];
      c.watched <= s.writes && (c.phase.Committing? && c.watched == s.writes ==> c.slot > StoredSlot(s))
  }

  ghost predicate Inv(s: State) {
    LogIncreasing(s.log) && StoreMatchesLog(s) && CallsConsistent(s)
  }

  lemma NextKeepsInv(s: State, step: Step)
    requires Inv(s) && Enabled(s, step)
    ensures Inv(Next(s, step))
  {
    var s' := Next(s, step);
    if (step.Exec? || step.LostExec?) && s.calls[step.id].watched == s.writes {
      assert s.calls[step.id].slot > StoredSlot(s);
      forall i | 0 <= i < |s.log|
        ensures s.log[i].0 <= StoredSlot(s)
      {
        assert s.log[i].0 <= s.log[|s.log| - 1].0;
      }
    }
    forall id | id in s'.calls
      ensures var c := s'.calls[id];
              c.watched <= s'.writes && (c.phase.Committing? && c.watched == s'.writes ==> c.slot > StoredSlot(s'))
    {
      assert id == step.id || s'.calls[id] == s.calls[id];
    }
  }

  /** Every committed write strictly raises the stored slot, and nothing else changes the keys. */
  lemma CommitRaisesSlot(s: State, step: Step)
    requires Inv(s) && Enabled(s, step)
    ensures var s' := Next(s, step);
            if s'.writes > s.writes then
              (step.Exec? || step.LostExec?) && StoredSlot(s') == s.calls[step.id].slot > StoredSlot(s)
              && StoredHash(s') == s.calls[step.id].hash
            else s'.lastSlot == s.lastSlot && s'.lastHash == s.lastHash && s'.log == s.log
  {
  }

  // ---------------------------------------------------------------- what a failed transaction means

  /** Step m commits a write. */
  ghost predicate CommitsAt(run: seq<State>, m: nat)
    requires m + 1 < |run|
  {
    run[m + 1].writes > run[m].writes
  }

  lemma NextKeepsCall(s: State, step: Step, id: CallId)
    requires Enabled(s, step) && id in s.calls
    ensures var s' := Next(s, step);
            && s'.writes in {s.writes, s.writes + 1} && id in s'.calls && s'.calls[id].watched == s.calls[id].watched
            && (s.calls[id].phase.Returned? ==> s'.calls[id] == s.calls[id])
            && (s'.writes > s.writes && step.id == id ==> s'.calls[id].phase.Returned?)
  {
  }

  /** Between a call's WATCH and a later state, the write count has moved exactly when some other call
      committed, as long as the call itself has not returned. */
  lemma {:induction false} WritesSinceWatch(run: seq<State>, steps: seq<Step>, id: CallId, i: nat, k: nat)
    requires IsRun(run, steps) && i <= k <= |steps| && id in run[i].calls
    ensures id in run[k].calls && run[k].calls[id].watched == run[i].calls[id].watched && run[i].writes <= run[k].writes
    ensures run[i].calls[id].phase.Returned? ==> run[k].calls[id].phase.Returned?
    ensures !run[k].calls[id].phase.Returned? ==>
              (run[k].writes > run[i].writes <==> exists m | i <= m < k :: CommitsAt(run, m) && steps[m].id != id)
  {
    hide Next, Enabled;
    if i < k {
      WritesSinceWatch(run, steps, id, i, k - 1);
      NextKeepsCall(run[k - 1], steps[k - 1], id);
      if CommitsAt(run, k - 1) && steps[k - 1].id != id {
        assert exists m | i <= m < k :: CommitsAt(run, m) && steps[m].id != id;
      }
    }
  }

  /** A transaction fails exactly when another call has committed since this call's WATCH. */
  lemma TxFailedIff(run: seq<State>, steps: seq<Step>, i: nat, k: nat)
    requires IsRun(run, steps) && i < k < |steps| && steps[i].Start? && steps[k] == Exec(steps[i].id)
    ensures steps[i].id in run[k + 1].calls
    ensures run[k + 1].calls[steps[i].id].phase == Returned(Some(TxFailed)) <==>
              exists m | i < m < k :: CommitsAt(run, m) && steps[m].id != steps[i].id
  {
    var id := steps[i].id;
    assert run[i + 1] == Next(run[i], steps[i]) && run[k + 1] == Next(run[k], steps[k]);
    WritesSinceWatch(run, steps, id, i + 1, k);
  }

  // ---------------------------------------------------------------- what a nil result means

  /** All calls of the run carry offered pairs. */
  ghost predicate Offers(steps: seq<Step>, offered: iset<(nat, Hash)>) {
    forall k | 0 <= k < |steps| && steps[k].Start? :: (steps[k].slot, steps[k].hash) in offered
  }

  /** Some pair was committed for the slot; an empty store reads as slot zero. */
  ghost predicate SlotSeen(s: State, slot: nat) {
    slot == 0 || exists i | 0 <= i < |s.log| :: s.log[i].0 == slot
  }

  /** The hash was committed for a later slot; an empty store reads as slot zero with an empty hash. */
  ghost predicate HashSeenLater(s: State, slot: nat, hash: Hash) {
    (slot == 0 && hash == "") || exists i | 0 <= i < |s.log| :: s.log[i].0 > slot && s.log[i].1 == hash
  }

  /** What a call has seen by its phase: nil means that its pair was committed, or that its slot and,
      later, its hash were read from two different commits. */
  ghost predicate CallOk(s: State, c: Call) {
    && (c.phase.ReadSlot? ==> SlotSeen(s, c.slot) && c.slot <= StoredSlot(s))
    && (c.phase == Returned(None) ==>
          (c.slot, c.hash) in s.log || (SlotSeen(s, c.slot) && HashSeenLater(s, c.slot, c.hash)))
  }

  ghost predicate AllOffered(s: State, offered: iset<(nat, Hash)>) {
    && (forall id | id in s.calls :: (s.calls[id].slot, s.calls[id].hash) in offered)
    && (forall i | 0 <= i < |s.log| :: s.log[i] in offered)
  }

  ghost predicate Explained(s: State, offered: iset<(nat, Hash)>) {
    Inv(s) && AllOffered(s, offered) && forall id | id in s.calls :: CallOk(s, s.calls[id])
  }

  lemma NextKeepsOffered(s: State, step: Step, offered: iset<(nat, Hash)>)
    requires AllOffered(s, offered) && Enabled(s, step) && (step.Start? ==> (step.slot, step.hash) in offered)
    ensures AllOffered(Next(s, step), offered)
  {
    var s' := Next(s, step);
    forall id | id in s'.calls
      ensures (s'.calls[id].slot, s'.calls[id].hash) in offered
    {
      assert id in s.calls ==> s'.calls[id].hash == s.calls[id].hash && s'.calls[id].slot == s.calls[id].slot;
    }
  }

  /** The log only grows at its end, and the stored slot never goes back. */
  ghost predicate Grows(s: State, t: State) {
    s.log <= t.log && StoredSlot(s) <= StoredSlot(t)
  }

  lemma NextGrows(s: State, step: Step)
    requires Inv(s) && Enabled(s, step)
    ensures Grows(s, Next(s, step))
  {
  }

  lemma GrowthKeepsCall(s: State, t: State, c: Call)
    requires Grows(s, t) && CallOk(s, c)
    ensures CallOk(t, c)
  {
    assert forall i | 0 <= i < |s.log| :: t.log[i] == s.log[i];
  }

  /** A read of the slot leaves a seen slot behind, and a matching hash is one seen at or after it. */
  lemma MovedCallIsOk(s: State, step: Step)
    requires Inv(s) && Enabled(s, step) && (step.Start? || CallOk(s, s.calls[step.id]))
    ensures CallOk(Next(s, step), Next(s, step).calls[step.id])
  {
    var s' := Next(s, step);
    if s.log != [] {
      var last := s.log[|s.log| - 1];
      assert last in s.log && last == (StoredSlot(s), StoredHash(s));
      assert s'.log[|s.log| - 1] == last;
    }
    if (step.Exec? || step.LostExec?) && s.calls[step.id].watched == s.writes {
      assert s'.log[|s.log|] == (s.calls[step.id].slot, s.calls[step.id].hash);
    }
  }

  lemma NextKeepsExplained(s: State, step: Step, offered: iset<(nat, Hash)>)
    requires Explained(s, offered) && Enabled(s, step) && (step.Start? ==> (step.slot, step.hash) in offered)
    ensures Explained(Next(s, step), offered)
  {
    var s' := Next(s, step);
    NextKeepsInv(s, step);
    NextKeepsOffered(s, step, offered);
    NextGrows(s, step);
    forall id | id in s'.calls
      ensures CallOk(s', s'.calls[id])
    {
      if id == step.id {
        MovedCallIsOk(s, step);
      } else {
        GrowthKeepsCall(s, s', s.calls[id]);
      }
    }
  }

  /** In every state of every interleaving, each nil result is explained by what was committed. */
  lemma {:induction false} RunIsExplained(run: seq<State>, steps: seq<Step>, offered: iset<(nat, Hash)>, i: nat)
    requires IsRun(run, steps) && Offers(steps, offered) && i < |run|
    ensures Explained(run[i], offered)
  {
    if i > 0 {
      RunIsExplained(run, steps, offered, i - 1);
      NextKeepsExplained(run[i - 1], steps[i - 1], offered);
    }
  }

  // ---------------------------------------------------------------- one payload per slot

  ghost predicate DeliveredNil(s: State, id: CallId, slot: nat, hash: Hash) {
    id in s.calls && s.calls[id].slot == slot && s.calls[id].hash == hash && s.calls[id].phase == Returned(None)
  }

  ghost predicate TwoPayloadsFor(s: State, slot: nat) {
    exists p, q, x, y | DeliveredNil(s, p, slot, x) && DeliveredNil(s, q, slot, y) :: x != y
  }

  /** Two hashes are offered for slot `a`, one of them for a later slot too. */
  ghost predicate Crosses(offered: iset<(nat, Hash)>, a: nat, b: nat, x: Hash, y: Hash) {
    0 < a < b && x != y && (a, x) in offered && (a, y) in offered && (b, y) in offered
  }

  /** The same for slot zero, which nothing is ever committed for: the other hash is the empty one, or is
      offered for a further slot. */
  ghost predicate CrossesZero(offered: iset<(nat, Hash)>, b: nat, c: nat, x: Hash, y: Hash) {
    && 0 < b && x != y && (0, x) in offered && (0, y) in offered && (b, y) in offered
    && (x == "" || (0 < c && c != b && (c, x) in offered))
  }

  ghost predicate Ambiguous(offered: iset<(nat, Hash)>) {
    || (exists a, b, x, y :: Crosses(offered, a, b, x, y))
    || (exists b, c, x, y :: CrossesZero(offered, b, c, x, y))
  }

  lemma NilAtSlot(s: State, offered: iset<(nat, Hash)>, id: CallId, slot: nat, hash: Hash) returns (b: nat)
    requires Explained(s, offered) && DeliveredNil(s, id, slot, hash)
    ensures (slot, hash) in offered
    ensures (slot, hash) in s.log || (slot == 0 && hash == "") || (b > slot && (b, hash) in s.log && SlotSeen(s, slot))
  {
    assert CallOk(s, s.calls[id]);
    b := 0;
    if (slot, hash) !in s.log && !(slot == 0 && hash == "") {
      var i :| 0 <= i < |s.log| && s.log[i].0 > slot && s.log[i].1 == hash;
      b := s.log[i].0;
      assert s.log[i] == (b, hash);
    }
  }

  lemma OneHashPerLoggedSlot(s: State, slot: nat, x: Hash, y: Hash)
    requires Inv(s) && (slot, x) in s.log && (slot, y) in s.log
    ensures x == y && slot > 0
  {
    var i :| 0 <= i < |s.log| && s.log[i] == (slot, x);
    var j :| 0 <= j < |s.log| && s.log[j] == (slot, y);
    assert i == j;
  }

  lemma TwoAtPositiveSlot(s: State, offered: iset<(nat, Hash)>, a: nat, x: Hash, y: Hash, b: nat, c: nat)
    requires Inv(s) && AllOffered(s, offered) && a > 0 && x != y && (a, x) in offered && (a, y) in offered
    requires (a, x) in s.log || (b > a && (b, x) in s.log && SlotSeen(s, a))
    requires (a, y) in s.log || (c > a && (c, y) in s.log && SlotSeen(s, a))
    ensures Ambiguous(offered)
  {
    if (a, x) in s.log {
      if (a, y) in s.log {
        OneHashPerLoggedSlot(s, a, x, y);
      }
      assert Crosses(offered, a, c, x, y);
    } else if (a, y) in s.log {
      assert Crosses(offered, a, b, y, x);
    } else {
      var i :| 0 <= i < |s.log| && s.log[i].0 == a;
      assert s.log[i] == (a, s.log[i].1);
      assert Crosses(offered, a, b, s.log[i].1, x);
    }
  }

  lemma TwoAtSlotZero(s: State, offered: iset<(nat, Hash)>, x: Hash, y: Hash, b: nat, c: nat)
    requires Inv(s) && AllOffered(s, offered) && x != y && (0, x) in offered && (0, y) in offered
    requires x == "" || (c > 0 && (c, x) in s.log)
    requires b > 0 && (b, y) in s.log
    ensures Ambiguous(offered)
  {
    if x != "" && b == c {
      OneHashPerLoggedSlot(s, b, x, y);
    }
    assert CrossesZero(offered, b, c, x, y);
  }

  /** Two payloads for one slot need an ambiguous offer. */
  lemma TwoPayloadsAreAmbiguous(s: State, offered: iset<(nat, Hash)>, slot: nat)
    requires Explained(s, offered) && TwoPayloadsFor(s, slot)
    ensures Ambiguous(offered)
  {
    var p, q, x, y :| DeliveredNil(s, p, slot, x) && DeliveredNil(s, q, slot, y) && x != y;
    var c := NilAtSlot(s, offered, p, slot, x);
    var b := NilAtSlot(s, offered, q, slot, y);
    if slot > 0 {
      TwoAtPositiveSlot(s, offered, slot, x, y, c, b);
    } else {
      assert (0, x) !in s.log && (0, y) !in s.log;
      if y == "" {
        TwoAtSlotZero(s, offered, y, x, c, b);
      } else {
        TwoAtSlotZero(s, offered, x, y, b, c);
      }
    }
  }

  // ---------------------------------------------------------------- runs with two payloads

  lemma StartOfRun()
    ensures IsRun([INIT_STATE], [])
  {
  }

  /** A call for a new slot, run without interruption, commits. */
  lemma Deliver(run: seq<State>, steps: seq<Step>, id: CallId, slot: nat, hash: Hash)
    returns (run': seq<State>, steps': seq<Step>)
    requires IsRun(run, steps) && id !in run[|steps|].calls && slot > StoredSlot(run[|steps|])
    ensures IsRun(run', steps') && steps' == steps + [Start(id, slot, hash), GetSlot(id), Exec(id)]
    ensures var s := run[|steps|];
            run'[|steps'|] == State(Some(slot), Some(hash), s.writes + 1,
              s.calls[id := Call(slot, hash, s.writes, Returned(None))], s.log + [(slot, hash)])
  {
    var s := run[|steps|];
    var s1 := Next(s, Start(id, slot, hash));
    var s2 := Next(s1, GetSlot(id));
    var s3 := Next(s2, Exec(id));
    run', steps' := run + [s1, s2, s3], steps + [Start(id, slot, hash), GetSlot(id), Exec(id)];
    assert s3.calls == s.calls[id := Call(slot, hash, s.writes, Returned(None))];
  }

  /** A call for the stored slot gets as far as its second read. */
  lemma Begin(run: seq<State>, steps: seq<Step>, id: CallId, slot: nat, hash: Hash)
    returns (run': seq<State>, steps': seq<Step>)
    requires IsRun(run, steps) && id !in run[|steps|].calls && slot == StoredSlot(run[|steps|])
    ensures IsRun(run', steps') && steps' == steps + [Start(id, slot, hash), GetSlot(id)]
    ensures var s := run[|steps|];
            run'[|steps'|] == s.(calls := s.calls[id := Call(slot, hash, s.writes, ReadSlot(slot))])
  {
    var s := run[|steps|];
    var s1 := Next(s, Start(id, slot, hash));
    var s2 := Next(s1, GetSlot(id));
    run', steps' := run + [s1, s2], steps + [Start(id, slot, hash), GetSlot(id)];
    assert s2.calls == s.calls[id := Call(slot, hash, s.writes, ReadSlot(slot))];
  }

  /** Its second read finds its own hash, whoever committed it. */
  lemma Finish(run: seq<State>, steps: seq<Step>, id: CallId) returns (run': seq<State>, steps': seq<Step>)
    requires IsRun(run, steps) && id in run[|steps|].calls && run[|steps|].calls[id].phase.ReadSlot?
    requires run[|steps|].calls[id].hash == StoredHash(run[|steps|])
    ensures IsRun(run', steps') && steps' == steps + [GetHash(id)]
    ensures var s := run[|steps|];
            run'[|steps'|] == s.(calls := s.calls[id := AtPhase(s.calls[id], Returned(None))])
  {
    run', steps' := run + [Next(run[|steps|], GetHash(id))], steps + [GetHash(id)];
  }

  /** Slot `a` is delivered with `x`; a call for (a, y) reads slot a; (b, y) is delivered; the call then
      reads hash y, finds it equal to its own, and returns nil for slot a with a different hash. */
  lemma SharedHashBreaksSafety(offered: iset<(nat, Hash)>, a: nat, b: nat, x: Hash, y: Hash)
    returns (run: seq<State>, steps: seq<Step>)
    requires Crosses(offered, a, b, x, y)
    ensures IsRun(run, steps) && Offers(steps, offered) && TwoPayloadsFor(run[|steps|], a)
  {
    StartOfRun();
    hide Next, Enabled, IsRun;
    run, steps := Deliver([INIT_STATE], [], 0, a, x);
    run, steps := Begin(run, steps, 1, a, y);
    run, steps := Deliver(run, steps, 2, b, y);
    run, steps := Finish(run, steps, 1);
    assert DeliveredNil(run[|steps|], 0, a, x) && DeliveredNil(run[|steps|], 1, a, y);
  }

  /** The same with an empty hash for slot zero, which an empty store confirms. */
  lemma EmptyHashBreaksSafety(offered: iset<(nat, Hash)>, b: nat, y: Hash) returns (run: seq<State>, steps: seq<Step>)
    requires CrossesZero(offered, b, 0, "", y)
    ensures IsRun(run, steps) && Offers(steps, offered) && TwoPayloadsFor(run[|steps|], 0)
  {
    StartOfRun();
    hide Next, Enabled, IsRun;
    run, steps := Begin([INIT_STATE], [], 0, 0, "");
    run, steps := Finish(run, steps, 0);
    run, steps := Begin(run, steps, 1, 0, y);
    run, steps := Deliver(run, steps, 2, b, y);
    run, steps := Finish(run, steps, 1);
    assert DeliveredNil(run[|steps|], 0, 0, "") && DeliveredNil(run[|steps|], 1, 0, y);
  }

  /** And with two calls for slot zero that both read an empty store. */
  lemma SlotZeroBreaksSafety(offered: iset<(nat, Hash)>, b: nat, c: nat, x: Hash, y: Hash)
    returns (run: seq<State>, steps: seq<Step>)
    requires 0 < c < b && x != y
    requires (0, x) in offered && (0, y) in offered && (b, y) in offered && (c, x) in offered
    ensures IsRun(run, steps) && Offers(steps, offered) && TwoPayloadsFor(run[|steps|], 0)
  {
    StartOfRun();
    hide Next, Enabled, IsRun;
    run, steps := Begin([INIT_STATE], [], 0, 0, x);
    run, steps := Begin(run, steps, 1, 0, y);
    run, steps := Deliver(run, steps, 2, c, x);
    run, steps := Finish(run, steps, 0);
    run, steps := Deliver(run, steps, 3, b, y);
    run, steps := Finish(run, steps, 1);
    assert DeliveredNil(run[|steps|], 0, 0, x) && DeliveredNil(run[|steps|], 1, 0, y);
  }

  lemma AmbiguousBreaksSafety(offered: iset<(nat, Hash)>) returns (run: seq<State>, steps: seq<Step>, slot: nat)
    requires Ambiguous(offered)
    ensures IsRun(run, steps) && Offers(steps, offered) && TwoPayloadsFor(run[|steps|], slot)
  {
    if a, b, x, y :| Crosses(offered, a, b, x, y) {
      run, steps := SharedHashBreaksSafety(offered, a, b, x, y);
      slot := a;
    } else {
      var b, c, x, y :| CrossesZero(offered, b, c, x, y);
      slot := 0;
      if x == "" {
        run, steps := EmptyHashBreaksSafety(offered, b, y);
      } else if c < b {
        run, steps := SlotZeroBreaksSafety(offered, b, c, x, y);
      } else {
        run, steps := SlotZeroBreaksSafety(offered, c, b, y, x);
      }
    }
  }

  /** No interleaving of calls with offered pairs delivers two payloads for one slot. */
  ghost predicate AlwaysOnePayload(offered: iset<(nat, Hash)>) {
    forall run, steps, slot | IsRun(run, steps) && Offers(steps, offered) :: !TwoPayloadsFor(run[|steps|], slot)
  }

  /** The delivery check is safe for a set of offered pairs exactly when the set is not ambiguous. */
  lemma OnePayloadPerSlotIff(offered: iset<(nat, Hash)>)
    ensures AlwaysOnePayload(offered) <==> !Ambiguous(offered)
  {
    if Ambiguous(offered) {
      var run, steps, slot := AmbiguousBreaksSafety(offered);
    } else {
      forall run, steps, slot | IsRun(run, steps) && Offers(steps, offered)
        ensures !TwoPayloadsFor(run[|steps|], slot)
      {
        RunIsExplained(run, steps, offered, |steps|);
        if TwoPayloadsFor(run[|steps|], slot) {
          TwoPayloadsAreAmbiguous(run[|steps|], offered, slot);
        }
      }
    }
  }

  /** In particular when a block hash determines its slot: in every interleaving, two calls that return nil
      for one slot carried the same block hash. */
  lemma OnePayloadPerSlot(run: seq<State>, steps: seq<Step>, slotOf: map<Hash, nat>, p: CallId, q: CallId)
    requires IsRun(run, steps)
    requires forall k | 0 <= k < |steps| && steps[k].Start? ::
               steps[k].hash in slotOf && slotOf[steps[k].hash] == steps[k].slot
    requires p in run[|steps|].calls && run[|steps|].calls[p].phase == Returned(None)
    requires q in run[|steps|].calls && run[|steps|].calls[q].phase == Returned(None)
    requires run[|steps|].calls[p].slot == run[|steps|].calls[q].slot
    ensures run[|steps|].calls[p].hash == run[|steps|].calls[q].hash
  {
    var s := run[|steps|];
    var offered := iset pair: (nat, Hash) | pair.1 in slotOf && slotOf[pair.1] == pair.0;
    assert !Ambiguous(offered);
    RunIsExplained(run, steps, offered, |steps|);
    assert DeliveredNil(s, p, s.calls[p].slot, s.calls[p].hash) && DeliveredNil(s, q, s.calls[p].slot, s.calls[q].hash);
    if s.calls[p].hash != s.calls[q].hash {
      TwoPayloadsAreAmbiguous(s, offered, s.calls[p].slot);
    }
  }

  /** Slot zero is what an empty store reads as, so no non-empty hash that belongs to it is ever delivered. */
  lemma SlotZeroIsNeverDelivered(run: seq<State>, steps: seq<Step>, offered: iset<(nat, Hash)>, p: CallId)
    requires IsRun(run, steps) && Offers(steps, offered)
    requires p in run[|steps|].calls && run[|steps|].calls[p].slot == 0 && run[|steps|].calls[p].hash != ""
    requires forall pair | pair in offered && pair.1 == run[|steps|].calls[p].hash :: pair.0 == 0
    ensures run[|steps|].calls[p].phase != Returned(None)
  {
    RunIsExplained(run, steps, offered, |steps|);
    assert CallOk(run[|steps|], run[|steps|].calls[p]);
  }

  // ---------------------------------------------------------------- one call, uninterrupted

  /** The two Redis keys, and the check as the code runs it when nothing interleaves. */
  class DeliveryKeys {
    var lastSlot: Option<nat>
    var lastHash: Option<Hash>

    /** The outcome of a call that no other call interrupts. */
    method CheckAndSetLastSlotAndHashDelivered(slot: nat, hash: Hash) returns (err: Option<Error>)
      modifies this
      ensures var stored := if old(lastSlot).Some? then old(lastSlot).value else 0;
              var storedHash := if old(lastHash).Some? then old(lastHash).value else "";
              && (err == Some(PastSlot) <==> slot < stored)
              && (err == Some(AnotherPayload) <==> slot == stored && hash != storedHash)
              && (err == None <==> slot > stored || (slot == stored && hash == storedHash))
              && (if slot > stored then lastSlot == Some(slot) && lastHash == Some(hash) else unchanged(this))
    {
      var lastSlotDelivered := 0;
      if lastSlot.Some? {
        lastSlotDelivered := lastSlot.value;
      }
      if slot < lastSlotDelivered {
        return Some(PastSlot);
      }
      if slot == lastSlotDelivered {
        var lastHashDelivered := "";
        if lastHash.Some? {
          lastHashDelivered := lastHash.value;
        }
        if hash != lastHashDelivered {
          return Some(AnotherPayload);
        }
        return None;
      }
      lastSlot, lastHash := Some(slot), Some(hash);
      err := None;
    }
  }

  /** Run without interruption, the steps of the machine give the outcome of the method above. */
  lemma UninterruptedCall(s: State, id: CallId, slot: nat, hash: Hash)
    requires id !in s.calls
    ensures var s2 := Next(Next(s, Start(id, slot, hash)), GetSlot(id));
            && (slot < StoredSlot(s) ==>
                  && s2.calls[id].phase == Returned(Some(PastSlot))
                  && s2.lastSlot == s.lastSlot && s2.lastHash == s.lastHash)
            && (slot == StoredSlot(s) ==> Enabled(s2, GetHash(id)) && var s3 := Next(s2, GetHash(id));
                  && s3.calls[id].phase == Returned(if hash == StoredHash(s) then None else Some(AnotherPayload))
                  && s3.lastSlot == s.lastSlot && s3.lastHash == s.lastHash)
            && (slot > StoredSlot(s) ==> Enabled(s2, Exec(id)) && var s3 := Next(s2, Exec(id));
                  && s3.calls[id].phase == Returned(None) && s3.lastSlot == Some(slot) && s3.lastHash == Some(hash))
  {
  }
}
