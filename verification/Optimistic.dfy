/** Optimistic block processing and builder demotion: handlers that look up their builder's cache entry and
    later decide on it, simulations in flight, the wait group, the builder and demotion tables and the
    builder cache that each slot starts with, as a step machine. Database writes succeed and no operator
    edits the builder table.
 */
module Optimistic {
  import opened Common

  type Pubkey = string
  type Hash = string
  type JobId = nat
  type WaitId = nat

  datatype Status = Status(highPrio: bool, blacklisted: bool, optimistic: bool)

  datatype BuilderRow = BuilderRow(builderId: string, status: Status, collateral: string)

  const PLAIN_ROW := BuilderRow("", Status(false, false, false), "0")

  /** A builder cache entry. */
  datatype Entry = Entry(status: Status, collateral: int)

  const UNKNOWN_BUILDER := Entry(Status(false, false, false), 0)

  datatype Submission = Submission(slot: nat, builder: Pubkey, blockHash: Hash, value: nat)

  // ---------------------------------------------------------------- simulation results

  const TRANSIENT_SIM_ERRORS: seq<string> := ["block is too old", "outside validation window", "parent block not found"]

  predicate OccursAt(s: string, sub: string, i: nat) {
    i + |sub| <= |s| && s[i..i + |sub|] == sub
  }

  predicate Contains(s: string, sub: string) {
    exists i | 0 <= i <= |s| :: OccursAt(s, sub, i)
  }

  predicate IsTransient(simErr: Option<string>) {
    simErr.Some? && exists t | t in TRANSIENT_SIM_ERRORS :: Contains(simErr.value, t)
  }

  /** A request error demotes too; only a transient validation error is forgiven. */
  predicate IsFault(reqErr: Option<string>, simErr: Option<string>) {
    (reqErr.Some? || simErr.Some?) && !IsTransient(simErr)
  }

  /** The text occurs somewhere in the string. */
  ghost predicate HasText(s: string, text: string) {
    exists before, after :: s == before + text + after
  }

  /** Which simulation results demote: a validation error with none of the three forgiven texts, or, without
      a validation error, a request error. */
  ghost predicate Demotes(reqErr: Option<string>, simErr: Option<string>) {
    if simErr.Some? then
      && !HasText(simErr.value, "block is too old")
      && !HasText(simErr.value, "outside validation window")
      && !HasText(simErr.value, "parent block not found")
    else reqErr.Some?
  }

  lemma ContainsIff(s: string, text: string)
    ensures Contains(s, text) <==> HasText(s, text)
  {
    if i :| 0 <= i <= |s| && OccursAt(s, text, i) {
      assert s == s[..i] + text + s[i + |text|..];
    }
    if before, after :| s == before + text + after {
      assert OccursAt(s, text, |before|);
    }
  }

  lemma FaultIff(reqErr: Option<string>, simErr: Option<string>)
    ensures IsFault(reqErr, simErr) <==> Demotes(reqErr, simErr)
  {
    if simErr.Some? {
      ContainsIff(simErr.value, "block is too old");
      ContainsIff(simErr.value, "outside validation window");
      ContainsIff(simErr.value, "parent block not found");
      hide Contains, HasText;
      assert forall t :: t in TRANSIENT_SIM_ERRORS <==>
                t in {"block is too old", "outside validation window", "parent block not found"};
    }
  }

  // ---------------------------------------------------------------- the tables

  /** SetBlockBuilderIDStatusIsOptimistic(pubkey, false): every row with the builder's non-empty id. */
  function ClearOptimistic(table: map<Pubkey, BuilderRow>, pubkey: Pubkey): map<Pubkey, BuilderRow> {
    if pubkey !in table || table[pubkey].builderId == "" then
      table
    else
      map pk | pk in table ::
        if table[pk].builderId == table[pubkey].builderId then Cleared(table[pk]) else table[pk]
  }

  function Cleared(row: BuilderRow): BuilderRow {
    row.(status := row.status.(optimistic := false))
  }

  /** The digits of a decimal number, read from the left. */
  function ParseDigits(s: string, acc: nat): Option<nat> {
    if s == "" then Some(acc)
    else if '0' <= s[0] <= '9' then ParseDigits(s[1..], 10 * acc + (s[0] - '0') as nat)
    else None
  }

  /** big.Int's SetString in base 10: an optional sign and at least one digit. */
  function ParseDecimal(s: string): Option<int> {
    if s == "" then None
    else if s[0] == '-' || s[0] == '+' then
      var n := if |s| == 1 then None else ParseDigits(s[1..], 0);
      if n.None? then None else Some(if s[0] == '-' then -(n.value as int) else n.value)
    else ParseDigits(s, 0)
  }

  /** A number written in decimal. */
  function Decimal(n: nat): string {
    if n < 10 then [DigitChar(n)] else Decimal(n / 10) + [DigitChar(n % 10)]
  }

  function DigitChar(d: nat): char
    requires d < 10
  {
    ['0', '1', '2', '3', '4', '5', '6', '7', '8', '9'][d]
  }

  ghost predicate AllDigits(s: string) {
    forall i | 0 <= i < |s| :: '0' <= s[i] <= '9'
  }

  lemma {:induction false} ParseAppend(s: string, d: nat, acc: nat)
    requires d < 10
    ensures ParseDigits(s + [DigitChar(d)], acc) ==
            if ParseDigits(s, acc).Some? then Some(10 * ParseDigits(s, acc).value + d) else None
  {
    DigitIsDigit(d);
    hide DigitChar;
    var t := s + [DigitChar(d)];
    if s == "" {
      assert t[1..] == "" && t[0] == DigitChar(d);
    } else {
      assert t[0] == s[0] && t[1..] == s[1..] + [DigitChar(d)];
      if '0' <= s[0] <= '9' {
        ParseAppend(s[1..], d, 10 * acc + (s[0] - '0') as nat);
      }
    }
  }

  lemma {:induction false} ParseDecimalDigits(n: nat)
    ensures ParseDigits(Decimal(n), 0) == Some(n) && Decimal(n) != "" && AllDigits(Decimal(n))
  {
    DigitIsDigit(n % 10);
    assert ParseDigits("", 0) == Some(0);
    hide ParseDigits, DigitChar;
    if n < 10 {
      assert "" + [DigitChar(n)] == [DigitChar(n)];
      ParseAppend("", n, 0);
    } else {
      ParseDecimalDigits(n / 10);
      ParseAppend(Decimal(n / 10), n % 10, 0);
      assert Decimal(n) == Decimal(n / 10) + [DigitChar(n % 10)];
    }
  }

  lemma DigitIsDigit(d: nat)
    requires d < 10
    ensures '0' <= DigitChar(d) <= '9' && (DigitChar(d) - '0') as nat == d
  {
  }

  lemma {:induction false} ParseDigitsIff(s: string, acc: nat)
    ensures ParseDigits(s, acc).Some? <==> AllDigits(s)
  {
    if s != "" && '0' <= s[0] <= '9' {
      ParseDigitsIff(s[1..], 10 * acc + (s[0] - '0') as nat);
      assert AllDigits(s) <==> AllDigits(s[1..]) by {
        assert forall i | 0 < i < |s| :: s[i] == s[1..][i - 1];
      }
    }
  }

  /** Every number is read back from its decimal writing, with a sign or without. */
  lemma CollateralIsRead(n: nat)
    ensures ParseDecimal(Decimal(n)) == Some(n)
    ensures ParseDecimal("+" + Decimal(n)) == Some(n) && ParseDecimal("-" + Decimal(n)) == Some(-(n as int))
  {
    ParseDecimalDigits(n);
    assert ("+" + Decimal(n))[1..] == Decimal(n) && ("-" + Decimal(n))[1..] == Decimal(n);
  }

  /** Anything but digits behind an optional sign is no number, and counts as no collateral. */
  lemma CollateralIsNumberIff(row: BuilderRow)
    ensures var s := row.collateral;
            var digits := if s != "" && s[0] in {'+', '-'} then s[1..] else s;
            && (ParseDecimal(s).Some? <==> digits != "" && AllDigits(digits))
            && EntryOf(row).collateral == (if ParseDecimal(s).Some? then ParseDecimal(s).value else 0)
            && EntryOf(row).status == row.status
  {
    var s := row.collateral;
    ParseDigitsIff(s, 0);
    if s != "" {
      ParseDigitsIff(s[1..], 0);
    }
  }

  /** The entry of a row; a collateral that is no number counts as zero. */
  function EntryOf(row: BuilderRow): Entry {
    var collateral := ParseDecimal(row.collateral);
    Entry(row.status, if collateral.Some? then collateral.value else 0)
  }

  function LoadCache(table: map<Pubkey, BuilderRow>): map<Pubkey, Entry> {
    map pk | pk in table :: EntryOf(table[pk])
  }

  /** A demotion reaches exactly the rows with the builder's non-empty id, and only their flag. */
  lemma ClearedIff(table: map<Pubkey, BuilderRow>, pubkey: Pubkey)
    requires pubkey in table
    ensures ClearOptimistic(table, pubkey).Keys == table.Keys
    ensures forall pk | pk in table ::
              var row := ClearOptimistic(table, pubkey)[pk];
              var hit := table[pubkey].builderId != "" && table[pk].builderId == table[pubkey].builderId;
              && row.builderId == table[pk].builderId && row.collateral == table[pk].collateral
              && row.status.highPrio == table[pk].status.highPrio
              && row.status.blacklisted == table[pk].status.blacklisted
              && (row.status.optimistic <==> table[pk].status.optimistic && !hit)
  {
  }

  // ---------------------------------------------------------------- the machine

  datatype Phase = Simulating | Demoting | StatusCleared | Reported | Finished

  /** A submission handler that holds the cache entry it looked up: the entry of its builder in the cache
      of that generation, or a default of its own when the builder was not found. */
  datatype Request = Request(sub: Submission, generation: nat, found: bool)

  /** `faulty` is the verdict of the simulation, once reported. */
  datatype Job = Job(request: Request, phase: Phase, faulty: bool)

  datatype WaitPhase = Waiting | Released | Completed

  /** A call of the wait group's Wait and the jobs dispatched before it. */
  datatype Waiter = Waiter(headSlot: nat, before: set<JobId>, phase: WaitPhase)

  /** `caches` are the caches installed so far, the current one last: a handler keeps the entry it holds
      alive when the cache is replaced. */
  datatype Relay = Relay(
    table: map<Pubkey, BuilderRow>, demotions: set<Submission>,
    caches: seq<map<Pubkey, Entry>>, optimisticSlot: nat,
    requests: map<JobId, Request>, jobs: map<JobId, Job>, waitGroup: int, waiters: map<WaitId, Waiter>)

  datatype Config = Config(demotionDisabled: bool, optimisticAllSlots: bool)

  datatype Step =
    | Lookup(job: JobId, sub: Submission)     // the handler reads its builder's cache entry
    | Dispatch(job: JobId)                    // the handler decides to process optimistically
    | Report(job: JobId, reqErr: Option<string>, simErr: Option<string>)
    | ClearStatus(job: JobId)
    | InsertDemotion(job: JobId)
    | Done(job: JobId)
    | Upsert(pubkey: Pubkey)                  // a first submission adds a plain row
    | BeginWait(wait: WaitId, headSlot: nat)  // prepareBuildersForSlot or getPayload calls Wait
    | EndWait(wait: WaitId)
    | Reload(wait: WaitId)                    // prepareBuildersForSlot opens the slot and installs the new cache
    | ReloadFails(wait: WaitId)               // it opens the slot and cannot read the table

  predicate JobAt(s: Relay, job: JobId, phase: Phase) {
    job in s.jobs && s.jobs[job].phase == phase
  }

  /** The entry a handler holds, as it is now. */
  function Held(s: Relay, r: Request): Entry {
    if r.found && r.generation < |s.caches| && r.sub.builder in s.caches[r.generation]
    then s.caches[r.generation][r.sub.builder] else UNKNOWN_BUILDER
  }

  /** The optimistic condition, on the held entry and the current slot. Zero-valued submissions do not get there. */
  predicate IsOptimistic(c: Config, s: Relay, r: Request) {
    || c.optimisticAllSlots
    || (Held(s, r).status.optimistic && Held(s, r).collateral >= r.sub.value && r.sub.slot == s.optimisticSlot)
  }

  predicate Enabled(c: Config, s: Relay, step: Step) {
    match step
    case Lookup(j, sub) =>
      j !in s.requests && |s.caches| > 0 && !Held(s, Request(sub, |s.caches| - 1, true)).status.blacklisted
    case Dispatch(j) =>
      j in s.requests && j !in s.jobs && s.requests[j].sub.value > 0 && IsOptimistic(c, s, s.requests[j])
    case Report(j, _, _) => JobAt(s, j, Simulating)
    case ClearStatus(j) => JobAt(s, j, Demoting)
    case InsertDemotion(j) => JobAt(s, j, StatusCleared)
    case Done(j) => JobAt(s, j, Reported)
    case Upsert(_) => true
    case BeginWait(w, _) => w !in s.waiters
    case EndWait(w) => w in s.waiters && s.waiters[w].phase == Waiting && s.waitGroup == 0
    case Reload(w) => w in s.waiters && s.waiters[w].phase == Released
    case ReloadFails(w) => w in s.waiters && s.waiters[w].phase == Released
  }

  function WithPhase(s: Relay, job: JobId, phase: Phase): Relay
    requires job in s.jobs
  {
    s.(jobs := s.jobs[job := s.jobs[job].(phase := phase)])
  }

  /** A fault marks the held entry, which a reload may have replaced in the meantime. */
  function MarkHeld(s: Relay, r: Request): seq<map<Pubkey, Entry>> {
    if r.found && r.generation < |s.caches| && r.sub.builder in s.caches[r.generation] then
      var e := Held(s, r);
      s.caches[r.generation := s.caches[r.generation][r.sub.builder := e.(status := e.status.(optimistic := false))]]
    else s.caches
  }

  function Next(c: Config, s: Relay, step: Step): Relay
    requires Enabled(c, s, step)
  {
    match step
    case Lookup(j, sub) =>
      var r := Request(sub, |s.caches| - 1, sub.builder in s.caches[|s.caches| - 1]);
      s.(requests := s.requests[j := r])
    case Dispatch(j) =>
      s.(jobs := s.jobs[j := Job(s.requests[j], Simulating, false)], waitGroup := s.waitGroup + 1)
    case Report(j, reqErr, simErr) =>
      if !IsFault(reqErr, simErr) then WithPhase(s, j, Reported)
      else
        var job := s.jobs[j].(faulty := true, phase := if c.demotionDisabled then Reported else Demoting);
        s.(jobs := s.jobs[j := job], caches := MarkHeld(s, s.jobs[j].request))
    case ClearStatus(j) =>
      WithPhase(s, j, StatusCleared).(table := ClearOptimistic(s.table, s.jobs[j].request.sub.builder))
    case InsertDemotion(j) => WithPhase(s, j, Reported).(demotions := s.demotions + {s.jobs[j].request.sub})
    case Done(j) => WithPhase(s, j, Finished).(waitGroup := s.waitGroup - 1)
    case Upsert(pk) =>
      if pk in s.table then s else s.(table := s.table[pk := PLAIN_ROW])
    case BeginWait(w, head) => s.(waiters := s.waiters[w := Waiter(head, s.jobs.Keys, Waiting)])
    case EndWait(w) => s.(waiters := s.waiters[w := s.waiters[w].(phase := Released)])
    case Reload(w) =>
      s.(caches := s.caches + [LoadCache(s.table)], optimisticSlot := s.waiters[w].headSlot + 1,
         waiters := s.waiters[w := s.waiters[w].(phase := Completed)])
    case ReloadFails(w) =>
      s.(optimisticSlot := s.waiters[w].headSlot + 1,
         waiters := s.waiters[w := s.waiters[w].(phase := Completed)])
  }

  ghost predicate IsRun(c: Config, run: seq<Relay>, steps: seq<Step>) {
    && |run| == |steps| + 1
    && forall i | 0 <= i < |steps| :: Enabled(c, run[i], steps[i]) && run[i + 1] == Next(c, run[i], steps[i])
  }

  predicate IsInitial(s: Relay) {
    && s.requests == map[] && s.jobs == map[] && s.waiters == map[] && s.waitGroup == 0
    && |s.caches| == 1 && s.caches[0].Keys <= s.table.Keys
  }

  // ---------------------------------------------------------------- the invariant

  function Unfinished(s: Relay): set<JobId> {
    set j | j in s.jobs && s.jobs[j].phase != Finished
  }

  /** No row with this id is optimistic. */
  ghost predicate IdCleared(table: map<Pubkey, BuilderRow>, id: string) {
    forall pk | pk in table && table[pk].builderId == id :: !table[pk].status.optimistic
  }

  /** What a faulty job has achieved by its phase, when demotion is enabled. */
  ghost predicate JobOk(s: Relay, job: Job) {
    var sub := job.request.sub;
    && (job.phase == Simulating ==> !job.faulty)
    && (job.faulty && job.phase in {StatusCleared, Reported, Finished}
          && sub.builder in s.table && s.table[sub.builder].builderId != ""
        ==> IdCleared(s.table, s.table[sub.builder].builderId))
    && (job.faulty && job.phase in {Reported, Finished} ==> sub in s.demotions)
  }

  ghost predicate WaiterOk(s: Relay, w: Waiter) {
    && w.before <= s.jobs.Keys
    && (w.phase != Waiting ==> forall j | j in w.before :: s.jobs[j].phase == Finished)
  }

  ghost predicate CachesOk(s: Relay) {
    |s.caches| > 0 && forall g | 0 <= g < |s.caches| :: s.caches[g].Keys <= s.table.Keys
  }

  ghost predicate Inv(s: Relay) {
    && s.waitGroup == |Unfinished(s)| && CachesOk(s)
    && (forall j | j in s.jobs :: JobOk(s, s.jobs[j]))
    && (forall w | w in s.waiters :: WaiterOk(s, s.waiters[w]))
  }

  /** A step changes the wait group by exactly the jobs it starts or finishes. */
  lemma WaitGroupCounts(c: Config, s: Relay, step: Step)
    requires Enabled(c, s, step) && s.waitGroup == |Unfinished(s)|
    ensures Next(c, s, step).waitGroup == |Unfinished(Next(c, s, step))|
  {
    UnfinishedAfter(c, s, step);
  }

  lemma UnfinishedAfter(c: Config, s: Relay, step: Step)
    requires Enabled(c, s, step)
    ensures Unfinished(Next(c, s, step)) ==
              if step.Dispatch? then Unfinished(s) + {step.job}
              else if step.Done? then Unfinished(s) - {step.job} else Unfinished(s)
  {
    var s' := Next(c, s, step);
    forall j
      ensures j in Unfinished(s') <==>
                (step.Dispatch? && j == step.job) || (j in Unfinished(s) && !(step.Done? && j == step.job))
    {
    }
  }

  lemma ClearKeepsCleared(table: map<Pubkey, BuilderRow>, pubkey: Pubkey, id: string)
    requires IdCleared(table, id)
    ensures IdCleared(ClearOptimistic(table, pubkey), id)
  {
  }

  /** A job that this step does not move keeps what it achieved: tables only lose optimistic flags. */
  lemma OtherJobsKeep(c: Config, s: Relay, step: Step, job: Job)
    requires Enabled(c, s, step) && JobOk(s, job)
    ensures JobOk(Next(c, s, step), job)
  {
    var builder := job.request.sub.builder;
    if step.ClearStatus? && builder in s.table && IdCleared(s.table, s.table[builder].builderId) {
      ClearKeepsCleared(s.table, s.jobs[step.job].request.sub.builder, s.table[builder].builderId);
    }
  }

  predicate MovesJob(step: Step) {
    step.Dispatch? || step.Report? || step.ClearStatus? || step.InsertDemotion? || step.Done?
  }

  lemma MovedJobIsOk(c: Config, s: Relay, step: Step)
    requires Inv(s) && Enabled(c, s, step) && !c.demotionDisabled && MovesJob(step)
    ensures JobOk(Next(c, s, step), Next(c, s, step).jobs[step.job])
  {
    var s' := Next(c, s, step);
    if !step.Dispatch? {
      var job := s.jobs[step.job];
      var builder := job.request.sub.builder;
      assert JobOk(s, job);
      if step.ClearStatus? && builder in s.table && s.table[builder].builderId != "" {
        ClearedIff(s.table, builder);
        assert IdCleared(s'.table, s'.table[builder].builderId);
      }
    }
  }

  lemma JobsKeep(c: Config, s: Relay, step: Step, j: JobId)
    requires Inv(s) && Enabled(c, s, step) && !c.demotionDisabled && j in Next(c, s, step).jobs
    ensures JobOk(Next(c, s, step), Next(c, s, step).jobs[j])
  {
    if MovesJob(step) && j == step.job {
      MovedJobIsOk(c, s, step);
    } else {
      assert j in s.jobs && Next(c, s, step).jobs[j] == s.jobs[j];
      OtherJobsKeep(c, s, step, s.jobs[j]);
    }
  }

  /** The wait group is zero only when every dispatched job has finished. */
  lemma EmptyWaitGroup(s: Relay, j: JobId)
    requires s.waitGroup == 0 == |Unfinished(s)| && j in s.jobs
    ensures s.jobs[j].phase == Finished
  {
    assert Unfinished(s) == {};
    assert j !in Unfinished(s);
  }

  lemma WaitersKeep(c: Config, s: Relay, step: Step, w: WaitId)
    requires Inv(s) && Enabled(c, s, step) && w in Next(c, s, step).waiters
    ensures WaiterOk(Next(c, s, step), Next(c, s, step).waiters[w])
  {
    var s' := Next(c, s, step);
    if step.EndWait? && w == step.wait {
      forall j | j in s.waiters[w].before
        ensures s.jobs[j].phase == Finished
      {
        assert WaiterOk(s, s.waiters[w]);
        EmptyWaitGroup(s, j);
      }
    } else if !(step.BeginWait? && w == step.wait) {
      assert WaiterOk(s, s.waiters[w]) && s'.waiters[w].before == s.waiters[w].before;
      forall j | j in s.jobs
        ensures j in s'.jobs && (s.jobs[j].phase == Finished ==> s'.jobs[j].phase == Finished)
      {
        JobPersistsStep(c, s, step, j);
      }
    }
  }

  lemma NextKeepsCaches(c: Config, s: Relay, step: Step)
    requires CachesOk(s) && Enabled(c, s, step)
    ensures CachesOk(Next(c, s, step)) && |Next(c, s, step).caches| >= |s.caches|
  {
    var s' := Next(c, s, step);
    assert s'.table.Keys >= s.table.Keys;
    forall g | 0 <= g < |s'.caches|
      ensures s'.caches[g].Keys <= s'.table.Keys
    {
      assert g < |s.caches| ==> s'.caches[g].Keys == s.caches[g].Keys;
    }
  }

  lemma NextKeepsInv(c: Config, s: Relay, step: Step)
    requires Inv(s) && Enabled(c, s, step) && !c.demotionDisabled
    ensures Inv(Next(c, s, step))
  {
    var s' := Next(c, s, step);
    WaitGroupCounts(c, s, step);
    NextKeepsCaches(c, s, step);
    forall j | j in s'.jobs ensures JobOk(s', s'.jobs[j]) { JobsKeep(c, s, step, j); }
    forall w | w in s'.waiters ensures WaiterOk(s', s'.waiters[w]) { WaitersKeep(c, s, step, w); }
    hide Next, JobOk, WaiterOk, CachesOk, Unfinished;
  }

  lemma {:induction false} RunKeepsInv(c: Config, run: seq<Relay>, steps: seq<Step>, i: nat)
    requires IsRun(c, run, steps) && IsInitial(run[0]) && !c.demotionDisabled && i < |run|
    ensures Inv(run[i])
  {
    if i == 0 {
      assert Unfinished(run[0]) == {};
    } else {
      RunKeepsInv(c, run, steps, i - 1);
      NextKeepsInv(c, run[i - 1], steps[i - 1]);
    }
  }

  // ---------------------------------------------------------------- what the machine remembers of a run

  /** A job keeps its request, a fault stays on record, and a finished job stays finished. */
  ghost predicate JobRemembers(s: Relay, t: Relay, j: JobId) {
    && j in s.jobs && j in t.jobs && t.jobs[j].request == s.jobs[j].request
    && (s.jobs[j].faulty ==> t.jobs[j].faulty) && (s.jobs[j].phase == Finished ==> t.jobs[j].phase == Finished)
  }

  lemma JobPersistsStep(c: Config, s: Relay, step: Step, j: JobId)
    requires Enabled(c, s, step) && j in s.jobs
    ensures JobRemembers(s, Next(c, s, step), j)
  {
  }

  lemma {:induction false} JobPersists(c: Config, run: seq<Relay>, steps: seq<Step>, i: nat, k: nat, j: JobId)
    requires IsRun(c, run, steps) && i <= k < |run| && j in run[i].jobs
    ensures JobRemembers(run[i], run[k], j)
  {
    hide Next, Enabled;
    if i < k {
      JobPersists(c, run, steps, i, k - 1, j);
      JobPersistsStep(c, run[k - 1], steps[k - 1], j);
    }
  }

  lemma WaiterPersistsStep(c: Config, s: Relay, step: Step, w: WaitId)
    requires Enabled(c, s, step) && w in s.waiters
    ensures w in Next(c, s, step).waiters
    ensures var was, now := s.waiters[w], Next(c, s, step).waiters[w];
            now.before == was.before && now.headSlot == was.headSlot
  {
  }

  lemma {:induction false} WaiterPersists(c: Config, run: seq<Relay>, steps: seq<Step>, i: nat, k: nat, w: WaitId)
    requires IsRun(c, run, steps) && i <= k < |run| && w in run[i].waiters
    ensures w in run[k].waiters
    ensures var was, now := run[i].waiters[w], run[k].waiters[w];
            now.before == was.before && now.headSlot == was.headSlot
  {
    hide Next, Enabled;
    if i < k {
      WaiterPersists(c, run, steps, i, k - 1, w);
      WaiterPersistsStep(c, run[k - 1], steps[k - 1], w);
    }
  }

  lemma RequestStep(c: Config, s: Relay, step: Step, j: JobId)
    requires Enabled(c, s, step) && j in Next(c, s, step).requests
    ensures j in s.requests ==> Next(c, s, step).requests[j] == s.requests[j]
    ensures j !in s.requests ==>
              && step == Lookup(j, Next(c, s, step).requests[j].sub)
              && Next(c, s, step).requests[j].generation == |s.caches| - 1
  {
  }

  /** A request keeps its entry and came from a lookup in the cache installed at that time. */
  lemma {:induction false} RequestWasLookedUp(c: Config, run: seq<Relay>, steps: seq<Step>, k: nat, j: JobId)
    returns (l: nat)
    requires IsRun(c, run, steps) && k < |run| && run[0].requests == map[] && j in run[k].requests
    ensures l < k && steps[l] == Lookup(j, run[k].requests[j].sub)
    ensures run[k].requests[j].generation == |run[l].caches| - 1
  {
    hide Next, Enabled;
    RequestStep(c, run[k - 1], steps[k - 1], j);
    if j in run[k - 1].requests {
      l := RequestWasLookedUp(c, run, steps, k - 1, j);
    } else {
      l := k - 1;
    }
  }

  lemma CachesGrowStep(c: Config, s: Relay, step: Step)
    requires Enabled(c, s, step)
    ensures |s.caches| <= |Next(c, s, step).caches|
  {
  }

  lemma {:induction false} CachesGrow(c: Config, run: seq<Relay>, steps: seq<Step>, i: nat, k: nat)
    requires IsRun(c, run, steps) && i <= k < |run|
    ensures |run[i].caches| <= |run[k].caches|
  {
    hide Next, Enabled;
    if i < k {
      CachesGrow(c, run, steps, i, k - 1);
      CachesGrowStep(c, run[k - 1], steps[k - 1]);
    }
  }

  /** No step changes the id of a row, and a row without an id is left alone. */
  ghost predicate SameRow(s: Relay, t: Relay, pk: Pubkey) {
    && pk in s.table && pk in t.table && t.table[pk].builderId == s.table[pk].builderId
    && (s.table[pk].builderId == "" ==> t.table[pk] == s.table[pk])
  }

  lemma NextKeepsRow(c: Config, s: Relay, step: Step, pk: Pubkey)
    requires Enabled(c, s, step) && pk in s.table
    ensures SameRow(s, Next(c, s, step), pk)
  {
  }

  lemma {:induction false} RowPersists(c: Config, run: seq<Relay>, steps: seq<Step>, i: nat, k: nat, pk: Pubkey)
    requires IsRun(c, run, steps) && i <= k < |run| && pk in run[i].table
    ensures SameRow(run[i], run[k], pk)
  {
    hide Next, Enabled;
    if i < k {
      RowPersists(c, run, steps, i, k - 1, pk);
      NextKeepsRow(c, run[k - 1], steps[k - 1], pk);
    }
  }

  /** A first submission adds a row without id, without any status and with no collateral; a later one
      changes none of these. */
  lemma FirstSubmissionAddsRow(c: Config, s: Relay, pk: Pubkey)
    ensures Next(c, s, Upsert(pk)).table ==
            if pk in s.table then s.table
            else s.table[pk := BuilderRow("", Status(false, false, false), "0")]
  {
  }

  lemma NewRowStep(c: Config, s: Relay, step: Step, pk: Pubkey)
    requires Enabled(c, s, step) && pk !in s.table && pk in Next(c, s, step).table
    ensures Next(c, s, step).table[pk] == PLAIN_ROW
  {
  }

  /** A row added by a first submission has no id, so nothing ever changes it: it is never optimistic. */
  lemma {:induction false} NewRowIsPlain(c: Config, run: seq<Relay>, steps: seq<Step>, k: nat, pk: Pubkey)
    requires IsRun(c, run, steps) && k < |run| && pk !in run[0].table && pk in run[k].table
    ensures run[k].table[pk] == PLAIN_ROW
  {
    hide Next, Enabled;
    if pk in run[k - 1].table {
      NewRowIsPlain(c, run, steps, k - 1, pk);
      NextKeepsRow(c, run[k - 1], steps[k - 1], pk);
    } else {
      NewRowStep(c, run[k - 1], steps[k - 1], pk);
    }
  }

  // ---------------------------------------------------------------- what a completed wait guarantees

  /** Step `d` dispatches a submission, step `r` reports its simulation as a fault, and step `b`, after
      the dispatch, begins a wait. */
  ghost predicate FaultBeforeWait(c: Config, run: seq<Relay>, steps: seq<Step>, d: nat, r: nat, b: nat) {
    && IsRun(c, run, steps) && IsInitial(run[0]) && !c.demotionDisabled
    && d < b < |steps| && r < |steps|
    && steps[d].Dispatch? && steps[b].BeginWait?
    && steps[r].Report? && steps[r].job == steps[d].job && Demotes(steps[r].reqErr, steps[r].simErr)
  }

  /** The submission that step `d` dispatches. */
  ghost function Dispatched(c: Config, run: seq<Relay>, steps: seq<Step>, d: nat): Submission
    requires IsRun(c, run, steps) && d < |steps| && steps[d].Dispatch?
  {
    run[d].requests[steps[d].job].sub
  }

  /** By the time the wait has returned, the faulty job has finished all of its work. */
  lemma FaultIsSettled(c: Config, run: seq<Relay>, steps: seq<Step>, d: nat, r: nat, b: nat, i: nat)
    requires FaultBeforeWait(c, run, steps, d, r, b) && b < i < |run|
    requires steps[b].wait in run[i].waiters && run[i].waiters[steps[b].wait].phase != Waiting
    ensures var j := steps[d].job;
            && j in run[i].jobs && run[i].jobs[j].request.sub == Dispatched(c, run, steps, d)
            && run[i].jobs[j].faulty && run[i].jobs[j].phase == Finished
  {
    var j, w := steps[d].job, steps[b].wait;
    assert run[d + 1] == Next(c, run[d], steps[d]) && run[b + 1] == Next(c, run[b], steps[b]);
    JobPersists(c, run, steps, d + 1, b, j);
    JobPersists(c, run, steps, d + 1, i, j);
    WaiterPersists(c, run, steps, b + 1, i, w);
    RunKeepsInv(c, run, steps, i);
    assert WaiterOk(run[i], run[i].waiters[w]) && j in run[i].waiters[w].before;
    assert JobAt(run[r], j, Simulating) && run[r + 1] == Next(c, run[r], steps[r]);
    FaultIff(steps[r].reqErr, steps[r].simErr);
    if i <= r {
      JobPersists(c, run, steps, i, r, j);
    } else {
      JobPersists(c, run, steps, r + 1, i, j);
    }
  }

  /** When a Wait has returned, every faulty submission dispatched before it has its demotion row:
      getPayload, which looks the row up after its wait, cannot miss it. */
  lemma WaitSeesDemotions(c: Config, run: seq<Relay>, steps: seq<Step>, d: nat, r: nat, b: nat, i: nat)
    requires FaultBeforeWait(c, run, steps, d, r, b) && b < i < |run|
    requires steps[b].wait in run[i].waiters && run[i].waiters[steps[b].wait].phase != Waiting
    ensures Dispatched(c, run, steps, d) in run[i].demotions
  {
    FaultIsSettled(c, run, steps, d, r, b, i);
    RunKeepsInv(c, run, steps, i);
    assert JobOk(run[i], run[i].jobs[steps[d].job]);
  }

  /** The step occurs between these positions. */
  ghost predicate Occurs(steps: seq<Step>, r: nat, k: nat, step: Step) {
    exists m | r < m < k && m < |steps| :: steps[m] == step
  }

  /** How far a job has got tells which of its two demotion steps have been taken since its report. */
  ghost predicate DemotionTrace(steps: seq<Step>, r: nat, k: nat, j: JobId, job: Job, demotes: bool) {
    var cleared, inserted := Occurs(steps, r, k, ClearStatus(j)), Occurs(steps, r, k, InsertDemotion(j));
    match job.phase
    case Simulating => false
    case Demoting => demotes && !cleared && !inserted
    case StatusCleared => demotes && cleared && !inserted
    case Reported => cleared == inserted == demotes
    case Finished => cleared == inserted == demotes
  }

  lemma OccursStep(steps: seq<Step>, r: nat, k: nat, step: Step)
    requires r < k < |steps|
    ensures Occurs(steps, r, k + 1, step) <==> Occurs(steps, r, k, step) || steps[k] == step
  {
    if m :| r < m < k + 1 && steps[m] == step {
      assert m == k || Occurs(steps, r, k, step);
    }
  }

  /** A step takes the job's next demotion step or leaves its phase to what was done. */
  lemma TraceStep(c: Config, s: Relay, steps: seq<Step>, r: nat, k: nat, j: JobId, demotes: bool)
    requires r < k < |steps| && Enabled(c, s, steps[k]) && j in s.jobs
    requires DemotionTrace(steps, r, k, j, s.jobs[j], demotes)
    ensures j in Next(c, s, steps[k]).jobs
    ensures DemotionTrace(steps, r, k + 1, j, Next(c, s, steps[k]).jobs[j], demotes)
  {
    OccursStep(steps, r, k, ClearStatus(j));
    OccursStep(steps, r, k, InsertDemotion(j));
    hide Occurs;
  }

  lemma ReportStartsTrace(c: Config, s: Relay, steps: seq<Step>, r: nat)
    requires r < |steps| && steps[r].Report? && Enabled(c, s, steps[r]) && !c.demotionDisabled
    ensures var j, job := steps[r].job, Next(c, s, steps[r]).jobs[steps[r].job];
            DemotionTrace(steps, r, r + 1, j, job, Demotes(steps[r].reqErr, steps[r].simErr))
  {
    FaultIff(steps[r].reqErr, steps[r].simErr);
    hide IsFault, Demotes;
  }

  lemma {:induction false} TraceOverRun(c: Config, run: seq<Relay>, steps: seq<Step>, r: nat, k: nat)
    requires IsRun(c, run, steps) && r < k < |run| && steps[r].Report? && !c.demotionDisabled
    ensures steps[r].job in run[k].jobs
    ensures var j := steps[r].job;
            DemotionTrace(steps, r, k, j, run[k].jobs[j], Demotes(steps[r].reqErr, steps[r].simErr))
  {
    hide Next, DemotionTrace, Demotes;
    var j := steps[r].job;
    if k == r + 1 {
      ReportStartsTrace(c, run[r], steps, r);
      JobStays(c, run[r], steps[r], j);
    } else {
      TraceOverRun(c, run, steps, r, k - 1);
      TraceStep(c, run[k - 1], steps, r, k - 1, j, Demotes(steps[r].reqErr, steps[r].simErr));
    }
  }

  lemma JobStays(c: Config, s: Relay, step: Step, j: JobId)
    requires Enabled(c, s, step) && step.Report? && step.job == j
    ensures j in s.jobs && j in Next(c, s, step).jobs
  {
  }

  /** Once the wait has returned, a submission dispatched before it has had its builder's rows cleared and
      its demotion row written exactly when its simulation result demotes. */
  lemma ReportDemotesIff(c: Config, run: seq<Relay>, steps: seq<Step>, d: nat, r: nat, b: nat, i: nat)
    requires IsRun(c, run, steps) && IsInitial(run[0]) && !c.demotionDisabled && d < b < i < |run| && r < |steps|
    requires steps[d].Dispatch? && steps[b].BeginWait? && steps[r].Report? && steps[r].job == steps[d].job
    requires steps[b].wait in run[i].waiters && run[i].waiters[steps[b].wait].phase != Waiting
    ensures r < i
    ensures Occurs(steps, r, i, ClearStatus(steps[d].job)) <==> Demotes(steps[r].reqErr, steps[r].simErr)
    ensures Occurs(steps, r, i, InsertDemotion(steps[d].job)) <==> Demotes(steps[r].reqErr, steps[r].simErr)
    ensures Demotes(steps[r].reqErr, steps[r].simErr) ==> Dispatched(c, run, steps, d) in run[i].demotions
  {
    var j := steps[d].job;
    assert j in run[i].jobs && run[i].jobs[j].phase == Finished by {
      DispatchedIsFinished(c, run, steps, d, b, i);
    }
    assert JobAt(run[r], j, Simulating);
    if i <= r {
      JobPersists(c, run, steps, i, r, j);
    }
    TraceOverRun(c, run, steps, r, i);
    if Demotes(steps[r].reqErr, steps[r].simErr) {
      WaitSeesDemotions(c, run, steps, d, r, b, i);
    }
    hide Occurs, Demotes, Next, IsRun;
  }

  /** Every job dispatched before a wait has finished when the wait has returned. */
  lemma DispatchedIsFinished(c: Config, run: seq<Relay>, steps: seq<Step>, d: nat, b: nat, i: nat)
    requires IsRun(c, run, steps) && IsInitial(run[0]) && !c.demotionDisabled && d < b < i < |run|
    requires steps[d].Dispatch? && steps[b].BeginWait?
    requires steps[b].wait in run[i].waiters && run[i].waiters[steps[b].wait].phase != Waiting
    ensures steps[d].job in run[i].jobs && run[i].jobs[steps[d].job].phase == Finished
  {
    var j, w := steps[d].job, steps[b].wait;
    assert run[d + 1] == Next(c, run[d], steps[d]) && run[b + 1] == Next(c, run[b], steps[b]);
    JobPersists(c, run, steps, d + 1, b, j);
    WaiterPersists(c, run, steps, b + 1, i, w);
    RunKeepsInv(c, run, steps, i);
    assert WaiterOk(run[i], run[i].waiters[w]) && j in run[i].waiters[w].before;
  }

  /** With demotion disabled no run ever clears a status or writes a demotion row. */
  lemma {:induction false} DisabledNeverDemotes(c: Config, run: seq<Relay>, steps: seq<Step>, k: nat)
    requires IsRun(c, run, steps) && IsInitial(run[0]) && c.demotionDisabled && k < |run|
    ensures run[k].demotions == run[0].demotions
    ensures forall j | j in run[k].jobs :: run[k].jobs[j].phase !in {Demoting, StatusCleared}
    ensures forall pk | pk in run[0].table :: pk in run[k].table && run[k].table[pk] == run[0].table[pk]
  {
    if k > 0 {
      DisabledNeverDemotes(c, run, steps, k - 1);
      DisabledStep(c, run[k - 1], steps[k - 1]);
      hide Next, Enabled;
    }
  }

  lemma DisabledStep(c: Config, s: Relay, step: Step)
    requires Enabled(c, s, step) && c.demotionDisabled
    requires forall j | j in s.jobs :: s.jobs[j].phase !in {Demoting, StatusCleared}
    ensures var s' := Next(c, s, step);
            && s'.demotions == s.demotions
            && (forall j | j in s'.jobs :: s'.jobs[j].phase !in {Demoting, StatusCleared})
            && forall pk | pk in s.table :: pk in s'.table && s'.table[pk] == s.table[pk]
  {
  }

  // ---------------------------------------------------------------- the cache entry itself

  /** The entry of this pubkey in this cache is there and not optimistic. */
  ghost predicate EntryCleared(s: Relay, g: nat, pk: Pubkey) {
    g < |s.caches| && pk in s.caches[g] && !s.caches[g][pk].status.optimistic
  }

  lemma NextKeepsEntryCleared(c: Config, s: Relay, step: Step, g: nat, pk: Pubkey)
    requires Enabled(c, s, step) && EntryCleared(s, g, pk)
    ensures EntryCleared(Next(c, s, step), g, pk)
  {
  }

  lemma {:induction false} EntryStaysCleared(c: Config, run: seq<Relay>, steps: seq<Step>, i: nat, k: nat,
                                             g: nat, pk: Pubkey)
    requires IsRun(c, run, steps) && i <= k < |run| && EntryCleared(run[i], g, pk)
    ensures EntryCleared(run[k], g, pk)
  {
    hide Next, Enabled, EntryCleared;
    if i < k {
      EntryStaysCleared(c, run, steps, i, k - 1, g, pk);
      NextKeepsEntryCleared(c, run[k - 1], steps[k - 1], g, pk);
    }
  }

  lemma FaultClearsEntry(c: Config, s: Relay, step: Step)
    requires Enabled(c, s, step) && step.Report? && Demotes(step.reqErr, step.simErr)
    requires var q := s.jobs[step.job].request;
             q.found && q.generation < |s.caches| && q.sub.builder in s.caches[q.generation]
    ensures var q := s.jobs[step.job].request;
            EntryCleared(Next(c, s, step), q.generation, q.sub.builder)
  {
    FaultIff(step.reqErr, step.simErr);
    hide IsFault, Demotes;
  }

  /** From a fault on, even with demotion disabled and before anything is written to the tables, no handler
      that holds the same cache entry is let through optimistically. */
  lemma FaultBarsSameEntry(c: Config, run: seq<Relay>, steps: seq<Step>, r: nat, k: nat)
    requires IsRun(c, run, steps) && r < k < |steps| && !c.optimisticAllSlots
    requires steps[r].Report? && Demotes(steps[r].reqErr, steps[r].simErr) && steps[k].Dispatch?
    requires var q := run[r].jobs[steps[r].job].request;
             q.found && q.generation < |run[r].caches| && q.sub.builder in run[r].caches[q.generation]
    ensures var p, q := run[k].requests[steps[k].job], run[r].jobs[steps[r].job].request;
            p.generation != q.generation || p.sub.builder != q.sub.builder
  {
    var q := run[r].jobs[steps[r].job].request;
    FaultClearsEntry(c, run[r], steps[r]);
    EntryStaysCleared(c, run, steps, r + 1, k, q.generation, q.sub.builder);
  }

  predicate OpensSlot(step: Step) {
    step.Reload? || step.ReloadFails?
  }

  lemma {:induction false} SlotStaysOpen(c: Config, run: seq<Relay>, steps: seq<Step>, i: nat, k: nat)
    requires IsRun(c, run, steps) && i <= k < |run| && forall m | i <= m < k :: !OpensSlot(steps[m])
    ensures run[k].optimisticSlot == run[i].optimisticSlot
  {
    if i < k {
      SlotStaysOpen(c, run, steps, i, k - 1);
    }
  }

  /** Until the next slot is opened, only submissions for the slot after the head that was announced are
      processed optimistically, also when the table could not be read. */
  lemma OnlyNextSlotIsOptimistic(c: Config, run: seq<Relay>, steps: seq<Step>, b: nat, i: nat, k: nat)
    requires IsRun(c, run, steps) && b < i < k < |steps| && !c.optimisticAllSlots
    requires steps[b].BeginWait? && OpensSlot(steps[i]) && steps[i].wait == steps[b].wait && steps[k].Dispatch?
    requires forall m | i < m < k :: !OpensSlot(steps[m])
    ensures run[k].requests[steps[k].job].sub.slot == steps[b].headSlot + 1
  {
    assert run[b + 1] == Next(c, run[b], steps[b]) && run[i + 1] == Next(c, run[i], steps[i]);
    WaiterPersists(c, run, steps, b + 1, i, steps[b].wait);
    SlotStaysOpen(c, run, steps, i + 1, k);
  }

  /** With the all-slots flag every positive submission of a looked-up builder is processed optimistically. */
  lemma AllSlotsDispatchesAll(c: Config, s: Relay, j: JobId)
    requires c.optimisticAllSlots && j in s.requests && j !in s.jobs
    ensures Enabled(c, s, Dispatch(j)) <==> s.requests[j].sub.value > 0
  {
  }

  /** A builder that the current cache holds as blacklisted gets no further; one that it does not hold is let in. */
  lemma LookupIff(c: Config, s: Relay, j: JobId, sub: Submission)
    requires j !in s.requests && s.caches != []
    ensures var cache := s.caches[|s.caches| - 1];
            Enabled(c, s, Lookup(j, sub)) <==> sub.builder in cache ==> !cache[sub.builder].status.blacklisted
  {
  }

  // ---------------------------------------------------------------- what the new cache holds

  /** No entry of this cache with the id is optimistic. */
  ghost predicate CacheCleared(table: map<Pubkey, BuilderRow>, cache: map<Pubkey, Entry>, id: string) {
    cache.Keys <= table.Keys && forall pk | pk in cache && table[pk].builderId == id :: !cache[pk].status.optimistic
  }

  /** Neither the table nor any cache from generation `g` on holds this id as optimistic. */
  ghost predicate Barred(s: Relay, id: string, g: nat) {
    && g < |s.caches| && IdCleared(s.table, id)
    && forall i | g <= i < |s.caches| :: CacheCleared(s.table, s.caches[i], id)
  }

  ghost function CurrentGeneration(s: Relay): nat {
    if s.caches == [] then 0 else |s.caches| - 1
  }

  /** When prepareBuildersForSlot completes, every faulty submission dispatched before its wait has its
      demotion row, and no pubkey sharing that builder's non-empty id is optimistic in the new cache. */
  lemma PreparedCacheReflectsDemotions(c: Config, run: seq<Relay>, steps: seq<Step>, d: nat, r: nat, b: nat, i: nat)
    requires FaultBeforeWait(c, run, steps, d, r, b) && b < i < |steps| && steps[i] == Reload(steps[b].wait)
    ensures var s := run[i + 1]; var builder := Dispatched(c, run, steps, d).builder;
            && Dispatched(c, run, steps, d) in s.demotions
            && (builder in s.table && s.table[builder].builderId != "" ==>
                  Barred(s, s.table[builder].builderId, CurrentGeneration(s)))
  {
    FaultIsSettled(c, run, steps, d, r, b, i);
    RunKeepsInv(c, run, steps, i);
    assert JobOk(run[i], run[i].jobs[steps[d].job]);
  }

  /** So a pubkey with the faulty builder's id is optimistic in the new cache exactly when that id is empty
      and its row was optimistic all along: a builder without an id is never demoted. */
  lemma PreparedOptimisticIff(c: Config, run: seq<Relay>, steps: seq<Step>, d: nat, r: nat, b: nat, i: nat, pk: Pubkey)
    requires FaultBeforeWait(c, run, steps, d, r, b) && b < i < |steps| && steps[i] == Reload(steps[b].wait)
    requires var builder, table := Dispatched(c, run, steps, d).builder, run[i + 1].table;
             builder in table && pk in table && table[pk].builderId == table[builder].builderId
    ensures var cache := run[i + 1].caches[CurrentGeneration(run[i + 1])];
            && pk in cache
            && (cache[pk].status.optimistic <==>
                  && run[i + 1].table[pk].builderId == ""
                  && pk in run[0].table && run[0].table[pk].status.optimistic)
  {
    var s := run[i + 1];
    PreparedCacheReflectsDemotions(c, run, steps, d, r, b, i);
    assert s.caches[CurrentGeneration(s)] == LoadCache(s.table);
    hide Next, Enabled, FaultBeforeWait;
    if pk in run[0].table {
      RowPersists(c, run, steps, 0, i + 1, pk);
    } else {
      NewRowIsPlain(c, run, steps, i + 1, pk);
    }
  }

  // ---------------------------------------------------------------- and it stays so

  lemma NextKeepsBarred(c: Config, s: Relay, step: Step, id: string, g: nat)
    requires Barred(s, id, g) && Enabled(c, s, step) && id != ""
    ensures Barred(Next(c, s, step), id, g)
  {
    var s' := Next(c, s, step);
    if step.ClearStatus? {
      ClearKeepsCleared(s.table, s.jobs[step.job].request.sub.builder, id);
    }
    forall i | g <= i < |s'.caches|
      ensures CacheCleared(s'.table, s'.caches[i], id)
    {
      assert i < |s.caches| ==> CacheCleared(s.table, s.caches[i], id);
    }
  }

  lemma {:induction false} StaysBarred(c: Config, run: seq<Relay>, steps: seq<Step>, i: nat, k: nat, id: string, g: nat)
    requires IsRun(c, run, steps) && i <= k < |run| && Barred(run[i], id, g) && id != ""
    ensures Barred(run[k], id, g)
  {
    hide Next, Enabled;
    if i < k {
      StaysBarred(c, run, steps, i, k - 1, id, g);
      NextKeepsBarred(c, run[k - 1], steps[k - 1], id, g);
    }
  }

  /** A submission with a barred id is dispatched exactly when its handler still holds an optimistic entry
      from before, with enough collateral and for the slot just opened. */
  lemma BarredDispatchIff(c: Config, s: Relay, j: JobId, id: string, g: nat)
    requires Barred(s, id, g) && !c.optimisticAllSlots && j in s.requests && j !in s.jobs
    requires s.requests[j].sub.builder in s.table && s.table[s.requests[j].sub.builder].builderId == id
    ensures Enabled(c, s, Dispatch(j)) <==>
              && s.requests[j].generation < g && Held(s, s.requests[j]).status.optimistic
              && Held(s, s.requests[j]).collateral >= s.requests[j].sub.value > 0
              && s.requests[j].sub.slot == s.optimisticSlot
  {
    var r := s.requests[j];
    assert g <= r.generation < |s.caches| ==> CacheCleared(s.table, s.caches[r.generation], id);
  }

  /** After that prepare, a submission of a pubkey with that id is processed optimistically only if its
      handler looked the builder up before the new cache was installed. */
  lemma LateDispatchWasLookedUpEarly(c: Config, run: seq<Relay>, steps: seq<Step>,
                                     d: nat, r: nat, b: nat, i: nat, k: nat)
    returns (l: nat)
    requires FaultBeforeWait(c, run, steps, d, r, b) && b < i < k < |steps| && steps[i] == Reload(steps[b].wait)
    requires steps[k].Dispatch? && !c.optimisticAllSlots
    requires var builder, other := Dispatched(c, run, steps, d).builder, Dispatched(c, run, steps, k).builder;
             && builder in run[i + 1].table && run[i + 1].table[builder].builderId != ""
             && other in run[k].table && run[k].table[other].builderId == run[i + 1].table[builder].builderId
    ensures l < i && steps[l] == Lookup(steps[k].job, Dispatched(c, run, steps, k))
  {
    var id, g := run[i + 1].table[Dispatched(c, run, steps, d).builder].builderId, CurrentGeneration(run[i + 1]);
    PreparedCacheReflectsDemotions(c, run, steps, d, r, b, i);
    StaysBarred(c, run, steps, i + 1, k, id, g);
    BarredDispatchIff(c, run[k], steps[k].job, id, g);
    l := RequestWasLookedUp(c, run, steps, k, steps[k].job);
    if l > i {
      CachesGrow(c, run, steps, i + 1, l);
    }
  }

  // ---------------------------------------------------------------- the early lookup does get through

  lemma Extend(c: Config, run: seq<Relay>, steps: seq<Step>, step: Step) returns (run': seq<Relay>, steps': seq<Step>)
    requires IsRun(c, run, steps) && Enabled(c, run[|steps|], step)
    ensures IsRun(c, run', steps') && run <= run' && steps' == steps + [step]
    ensures run'[|steps'|] == Next(c, run[|steps|], step)
  {
    hide Next, Enabled;
    run', steps' := run + [Next(c, run[|steps|], step)], steps + [step];
  }

  /** The four steps that settle a fault with demotion enabled. */
  function Settled(s: Relay, j: JobId): Relay
    requires j in s.jobs
  {
    var sub := s.jobs[j].request.sub;
    s.(jobs := s.jobs[j := Job(s.jobs[j].request, Finished, true)], waitGroup := s.waitGroup - 1,
       caches := MarkHeld(s, s.jobs[j].request), table := ClearOptimistic(s.table, sub.builder),
       demotions := s.demotions + {sub})
  }

  lemma SettleFault(c: Config, run: seq<Relay>, steps: seq<Step>, j: JobId,
                    reqErr: Option<string>, simErr: Option<string>)
    returns (run': seq<Relay>, steps': seq<Step>)
    requires IsRun(c, run, steps) && JobAt(run[|steps|], j, Simulating) && !c.demotionDisabled
    requires Demotes(reqErr, simErr)
    ensures IsRun(c, run', steps') && run <= run'
    ensures steps' == steps + [Report(j, reqErr, simErr), ClearStatus(j), InsertDemotion(j), Done(j)]
    ensures run'[|steps'|] == Settled(run[|steps|], j)
  {
    FaultIff(reqErr, simErr);
    hide IsFault, Demotes;
    var s := run[|steps|];
    var s1 := Next(c, s, Report(j, reqErr, simErr));
    var s2 := Next(c, s1, ClearStatus(j));
    var s3 := Next(c, s2, InsertDemotion(j));
    var s4 := Next(c, s3, Done(j));
    assert s4.jobs == s.jobs[j := Job(s.jobs[j].request, Finished, true)];
    run', steps' := Extend(c, run, steps, Report(j, reqErr, simErr));
    run', steps' := Extend(c, run', steps', ClearStatus(j));
    run', steps' := Extend(c, run', steps', InsertDemotion(j));
    run', steps' := Extend(c, run', steps', Done(j));
  }

  /** A row that covers submissions of this value. */
  predicate Covers(row: BuilderRow, value: nat) {
    row.status.optimistic && !row.status.blacklisted && EntryOf(row).collateral >= value
  }

  /** A relay with two pubkeys of one builder, about to take submissions for slot n. */
  function TwoPubkeys(p: Pubkey, q: Pubkey, row: BuilderRow, n: nat): Relay {
    var table := map[p := row, q := row];
    Relay(table, {}, [LoadCache(table)], n, map[], map[], 0, map[])
  }

  /** The same relay with p's submission in simulation, a wait for it begun, and q's entry looked up. */
  function BothLookedUp(subP: Submission, subQ: Submission, row: BuilderRow, n: nat): Relay {
    var r := Request(subP, 0, true);
    TwoPubkeys(subP.builder, subQ.builder, row, n).(
      requests := map[0 := r, 1 := Request(subQ, 0, true)],
      jobs := map[0 := Job(r, Simulating, false)], waitGroup := 1, waiters := map[0 := Waiter(n, {0}, Waiting)])
  }

  lemma LookUpBoth(c: Config, subP: Submission, subQ: Submission, row: BuilderRow)
    returns (run: seq<Relay>, steps: seq<Step>)
    requires subP.builder != subQ.builder && subP.value > 0 && Covers(row, subP.value)
    ensures IsRun(c, run, steps) && |run| > 1 && run[0] == TwoPubkeys(subP.builder, subQ.builder, row, subP.slot)
    ensures 0 in run[1].requests && run[1].requests[0].sub == subP
    ensures steps == [Lookup(0, subP), Dispatch(0), BeginWait(0, subP.slot), Lookup(1, subQ)]
    ensures run[|steps|] == BothLookedUp(subP, subQ, row, subP.slot)
  {
    hide EntryOf;
    var n := subP.slot;
    var s0 := TwoPubkeys(subP.builder, subQ.builder, row, n);
    assert EntryOf(row).status == row.status by { EntryKeepsStatus(row); }
    var s1 := Next(c, s0, Lookup(0, subP));
    assert s1 == s0.(requests := map[0 := Request(subP, 0, true)]);
    assert Held(s1, s1.requests[0]) == EntryOf(row);
    var s2 := Next(c, s1, Dispatch(0));
    var s3 := Next(c, s2, BeginWait(0, n));
    var s4 := Next(c, s3, Lookup(1, subQ));
    var mid := BothLookedUp(subP, subQ, row, n);
    assert s2.jobs == mid.jobs && s2.jobs.Keys == {0};
    assert s3.waiters[0] == Waiter(n, {0}, Waiting) && s3.waiters == mid.waiters;
    assert s4.requests == mid.requests;
    run, steps := [s0, s1, s2, s3, s4], [Lookup(0, subP), Dispatch(0), BeginWait(0, n), Lookup(1, subQ)];
  }

  lemma EntryKeepsStatus(row: BuilderRow)
    ensures EntryOf(row).status == row.status
  {
  }

  /** The end of the wait, the new cache, and the dispatch of a request that still holds its old entry. */
  lemma ReloadThenDispatch(c: Config, run: seq<Relay>, steps: seq<Step>, w: WaitId, j: JobId)
    returns (run': seq<Relay>, steps': seq<Step>)
    requires IsRun(c, run, steps) && Enabled(c, run[|steps|], EndWait(w))
    requires var s := run[|steps|];
             && j in s.requests && j !in s.jobs && s.requests[j].generation < |s.caches|
             && s.requests[j].sub.slot == s.waiters[w].headSlot + 1
             && Held(s, s.requests[j]).status.optimistic
             && Held(s, s.requests[j]).collateral >= s.requests[j].sub.value > 0
    ensures IsRun(c, run', steps') && run <= run' && steps' == steps + [EndWait(w), Reload(w), Dispatch(j)]
    ensures run'[|steps| + 2].requests == run[|steps|].requests && run'[|steps| + 2].table == run[|steps|].table
  {
    var s := run[|steps|];
    var s1 := Next(c, s, EndWait(w));
    var s2 := Next(c, s1, Reload(w));
    assert Held(s2, s2.requests[j]) == Held(s, s.requests[j]);
    run', steps' := Extend(c, run, steps, EndWait(w));
    run', steps' := Extend(c, run', steps', Reload(w));
    run', steps' := Extend(c, run', steps', Dispatch(j));
  }

  /** What settling the fault of p leaves behind: q still holds its optimistic entry. */
  lemma SettledKeepsOther(subP: Submission, subQ: Submission, row: BuilderRow)
    requires subP.builder != subQ.builder && row.builderId != ""
    ensures var t := Settled(BothLookedUp(subP, subQ, row, subP.slot), 0);
            && Held(t, t.requests[1]) == EntryOf(row) && t.waitGroup == 0
            && subP.builder in t.table && t.table[subP.builder] == Cleared(row)
            && subQ.builder in t.table && t.table[subQ.builder] == Cleared(row)
  {
    hide EntryOf;
  }

  /** The handler of q looks its entry up while the prepare for its slot still waits for the faulty
      submission of p. Once the new cache is in place, q is dispatched all the same. This happens to any two
      pubkeys of one builder, for any submissions that its collateral covers. */
  lemma EarlyLookupIsDispatched(c: Config, subP: Submission, subQ: Submission, row: BuilderRow,
                                reqErr: Option<string>, simErr: Option<string>)
    returns (run: seq<Relay>, steps: seq<Step>)
    requires Demotes(reqErr, simErr)
    requires !c.demotionDisabled && !c.optimisticAllSlots && row.builderId != ""
    requires subP.builder != subQ.builder && subQ.slot == subP.slot + 1
    requires subP.value > 0 && subQ.value > 0 && Covers(row, subP.value) && Covers(row, subQ.value)
    ensures FaultBeforeWait(c, run, steps, 1, 4, 2) && |steps| == 11
    ensures run[0] == TwoPubkeys(subP.builder, subQ.builder, row, subP.slot)
    ensures steps[4] == Report(steps[1].job, reqErr, simErr)
    ensures steps[9] == Reload(steps[2].wait) && steps[10].Dispatch?
    ensures Dispatched(c, run, steps, 1) == subP && Dispatched(c, run, steps, 10) == subQ
    ensures var table := run[10].table;
            && subP.builder in table && table[subP.builder].builderId == row.builderId
            && subQ.builder in table && table[subQ.builder].builderId == row.builderId
  {
    var run1, steps1 := LookUpBoth(c, subP, subQ, row);
    var run2, steps2 := SettleFault(c, run1, steps1, 0, reqErr, simErr);
    var t := run2[|steps2|];
    assert t == Settled(BothLookedUp(subP, subQ, row, subP.slot), 0);
    SettledKeepsOther(subP, subQ, row);
    EntryKeepsStatus(row);
    hide Next, Settled, EntryOf, Demotes;
    run, steps := ReloadThenDispatch(c, run2, steps2, 0, 1);
  }

  // ---------------------------------------------------------------- the code

  datatype NamedRow = NamedRow(pubkey: Pubkey, row: BuilderRow)

  ghost predicate ListsTable(rows: seq<NamedRow>, table: map<Pubkey, BuilderRow>) {
    && (forall i | 0 <= i < |rows| :: rows[i].pubkey in table && table[rows[i].pubkey] == rows[i].row)
    && (forall pk | pk in table :: exists i | 0 <= i < |rows| :: rows[i].pubkey == pk)
  }

  class Database {
    var builders: map<Pubkey, BuilderRow>
    var demotions: set<Submission>

    method SetBlockBuilderIDStatusIsOptimistic(pubkey: Pubkey) returns (ok: bool)
      modifies this`builders
      ensures builders == ClearOptimistic(old(builders), pubkey)
      ensures ok <==> pubkey in old(builders) && old(builders)[pubkey].builderId != ""
    {
      if pubkey !in builders {
        return false;
      }
      var id := builders[pubkey].builderId;
      if id == "" {
        return false;
      }
      builders := map pk | pk in builders ::
        if builders[pk].builderId == id then Cleared(builders[pk]) else builders[pk];
      ok := true;
    }

    method InsertBuilderDemotion(sub: Submission)
      modifies this`demotions
      ensures demotions == old(demotions) + {sub}
    {
      demotions := demotions + {sub};
    }
  }

  class RelayAPI {
    var cache: map<Pubkey, Entry>
    var optimisticSlot: nat

    /** The tail of prepareBuildersForSlot: the new cache, entry by entry, from the rows just read. */
    method InstallBuilders(headSlot: nat, rows: seq<NamedRow>, ghost table: map<Pubkey, BuilderRow>)
      requires ListsTable(rows, table)
      modifies this
      ensures cache == LoadCache(table) && optimisticSlot == headSlot + 1
    {
      optimisticSlot := headSlot + 1;
      var newCache: map<Pubkey, Entry> := map[];
      var i := 0;
      while i < |rows|
        invariant 0 <= i <= |rows|
        invariant forall pk | pk in newCache :: pk in table && newCache[pk] == EntryOf(table[pk])
        invariant forall k | 0 <= k < i :: rows[k].pubkey in newCache
      {
        var v := rows[i].row.status;
        var entry := Entry(Status(v.highPrio, v.blacklisted, v.optimistic), 0);
        var builderCollateral := ParseDecimal(rows[i].row.collateral);
        if builderCollateral.Some? {
          entry := entry.(collateral := builderCollateral.value);
        }
        newCache := newCache[rows[i].pubkey := entry];
        i := i + 1;
      }
      cache := newCache;
    }

    /** demoteBuilder, when demotion is enabled. */
    method DemoteBuilder(db: Database, sub: Submission)
      modifies db
      ensures db.builders == ClearOptimistic(old(db.builders), sub.builder)
      ensures db.demotions == old(db.demotions) + {sub}
    {
      var _ := db.SetBlockBuilderIDStatusIsOptimistic(sub.builder);
      db.InsertBuilderDemotion(sub);
    }
  }
}
