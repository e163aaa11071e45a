/** The missed-proposal gate of the monitoring exporter: a cursor walks the proposer duties of watched
    validators in cycles, through beacon outages, arbitrary head movement and failing saves of the cursor.
 */
module MissedProposals {
  import opened Common

  type Pubkey = string

  /** The body of a block response: missing, unreadable or null; an object, with or without block data; or
      another JSON value. */
  datatype Body = NoBody | Object(hasData: bool) | NotAnObject

  /** What the block probe gives: an exception it does not catch, or a status (zero when the node cannot be
      reached) and a body. */
  datatype Probe = Throws | Answered(status: nat, body: Body)

  /** What the beacon node tells about a slot in one cycle. */
  datatype Duty = Duty(proposer: Option<Pubkey>, probe: Probe)

  /** One slot the gate has decided on. */
  datatype Exam = Exam(slot: nat, watched: bool, missed: bool)

  /** Saving the cursor: it is written, the file cannot be opened, or opening has emptied the file and
      writing fails. Failures are ignored. */
  datatype Save = Written | NotOpened | Truncated

  /** One evaluation: the head it saw, the watched set, the node's answers, and how the save goes. The
      duties request of a slot without an answer failed. */
  datatype Cycle = Cycle(head: nat, watched: set<Pubkey>, answers: map<nat, Duty>, save: Save) {
    function View(slot: nat): Option<Duty> {
      if slot in answers then Some(answers[slot]) else None
    }
  }

  /** The cursor as it will be loaded, the counter, and everything examined so far. */
  datatype Gate = Gate(cursor: nat, missed: nat, history: seq<Exam>)

  const INIT_GATE := Gate(0, 0, [])

  datatype Sweep = Sweep(exams: seq<Exam>, raised: bool)

  // ---------------------------------------------------------------- one cycle

  predicate IsWatched(c: Cycle, slot: nat) {
    slot in c.answers && c.answers[slot].proposer.Some? && c.answers[slot].proposer.value in c.watched
  }

  /** What the loop does at one slot: stop at an outage, raise, or decide. */
  datatype Verdict = Stop | Raise | Decided(exam: Exam)

  function Judge(c: Cycle, slot: nat): Verdict {
    if slot !in c.answers then Stop
    else if !IsWatched(c, slot) then Decided(Exam(slot, false, false))
    else
      match c.answers[slot].probe
      case Throws => Raise
      case Answered(status, body) =>
        if status == 0 then Stop
        else if status == 200 && body == NotAnObject then Raise
        else Decided(Exam(slot, true, !(status == 200 && body == Object(true))))
  }

  function SweepFrom(c: Cycle, slot: nat): Sweep
    decreases c.head + 1 - slot
  {
    if slot > c.head || Judge(c, slot).Stop? then Sweep([], false)
    else if Judge(c, slot).Raise? then Sweep([], true)
    else
      var rest := SweepFrom(c, slot + 1);
      Sweep([Judge(c, slot).exam] + rest.exams, rest.raised)
  }

  /** Slots further back than the window are given up. */
  function FirstSlot(cursor: nat, head: nat, window: nat): nat {
    Max(cursor + 1, head - window)
  }

  function CountMissed(es: seq<Exam>): nat {
    if es == [] then 0 else (if es[0].missed then 1 else 0) + CountMissed(es[1..])
  }

  function LastSlot(cursor: nat, es: seq<Exam>): nat {
    if es == [] then cursor else es[|es| - 1].slot
  }

  /** Nothing is examined while no validator is watched. */
  function Examined(c: Cycle, cursor: nat, window: nat): Sweep {
    if c.watched == {} then Sweep([], false) else SweepFrom(c, FirstSlot(cursor, c.head, window))
  }

  /** What the next load of the cursor returns: an emptied file reads as zero. */
  function CursorAfter(cursor: nat, save: Save, next: nat): nat {
    match save
    case Written => next
    case NotOpened => cursor
    case Truncated => 0
  }

  /** A cycle that raises has counted already, but does not get to saving its cursor. */
  function RunCycle(g: Gate, c: Cycle, window: nat): Gate {
    var s := Examined(c, g.cursor, window);
    var cursor := if s.raised then g.cursor else CursorAfter(g.cursor, c.save, LastSlot(g.cursor, s.exams));
    Gate(cursor, g.missed + CountMissed(s.exams), g.history + s.exams)
  }

  function RunCycles(cs: seq<Cycle>, window: nat): Gate {
    if cs == [] then INIT_GATE else RunCycle(RunCycles(cs[..|cs| - 1], window), cs[|cs| - 1], window)
  }

  // ---------------------------------------------------------------- what a sweep examines

  /** Status and body that are counted as a missed proposal: a reachable node that shows no block. */
  predicate ShowsNoBlock(p: Probe) {
    p.Answered? && p.status != 0 && (p.status != 200 || p.body == NoBody || p.body == Object(false))
  }

  /** What the loop does with a slot, by the node's answer: no duties, or a probe of a watched slot that does
      not reach the node, stop it; a probe that throws, or a 200 with a body that is no object, raises; every
      other answer decides, and a watched slot counts as missed unless the answer is a 200 with block data. */
  lemma JudgeIs(c: Cycle, slot: nat)
    ensures slot !in c.answers ==> Judge(c, slot) == Stop
    ensures slot in c.answers ==>
              var duty := c.answers[slot];
              var watched := duty.proposer.Some? && duty.proposer.value in c.watched;
              match duty.probe
              case Throws => Judge(c, slot) == if watched then Raise else Decided(Exam(slot, false, false))
              case Answered(status, body) =>
                && (Judge(c, slot) == Stop <==> watched && status == 0)
                && (Judge(c, slot) == Raise <==> watched && status == 200 && body == NotAnObject)
                && (Judge(c, slot).Decided? ==>
                      Judge(c, slot).exam == Exam(slot, watched, watched && !(status == 200 && body == Object(true))))
  {
  }

  /** The exam says what the node said in this cycle: watched, and missed exactly when the probe of a
      watched slot showed no block. */
  ghost predicate Agrees(c: Cycle, e: Exam) {
    && e.slot <= c.head && e.slot in c.answers && e.watched == IsWatched(c, e.slot)
    && (e.missed <==> e.watched && ShowsNoBlock(c.answers[e.slot].probe))
  }

  ghost predicate JudgedFrom(c: Cycle, slot: nat, es: seq<Exam>) {
    forall i | 0 <= i < |es| :: es[i].slot == slot + i && Agrees(c, es[i])
  }

  /** A sweep examines consecutive slots, each judged by the node's answer. */
  lemma {:induction false} SweepIsJudged(c: Cycle, slot: nat)
    ensures JudgedFrom(c, slot, SweepFrom(c, slot).exams)
    decreases c.head + 1 - slot
  {
    var es := SweepFrom(c, slot).exams;
    if es != [] {
      SweepIsJudged(c, slot + 1);
      var rest := SweepFrom(c, slot + 1).exams;
      assert Agrees(c, es[0]);
      hide Agrees;
      forall i | 0 < i < |es|
        ensures es[i].slot == slot + i && Agrees(c, es[i])
      {
        assert es[i] == rest[i - 1];
      }
    }
  }

  predicate DecidesAt(c: Cycle, slot: nat) {
    slot <= c.head && Judge(c, slot).Decided?
  }

  /** The loop decides on every slot from `a` up to `b`. */
  ghost predicate DecidesFrom(c: Cycle, a: nat, b: nat) {
    forall k | a <= k < b :: DecidesAt(c, k)
  }

  /** A sweep goes on exactly as far as it can decide, and raises exactly when that is what stops it. */
  lemma {:induction false} SweepEnds(c: Cycle, slot: nat)
    ensures var n := slot + |SweepFrom(c, slot).exams|;
            && DecidesFrom(c, slot, n) && !DecidesAt(c, n)
            && (SweepFrom(c, slot).raised <==> n <= c.head && Judge(c, n).Raise?)
    decreases c.head + 1 - slot
  {
    if DecidesAt(c, slot) {
      SweepEnds(c, slot + 1);
      hide DecidesAt;
    }
  }

  /** The cycle gets to deciding on this slot. */
  ghost predicate Examines(c: Cycle, cursor: nat, window: nat, slot: nat) {
    var first := FirstSlot(cursor, c.head, window);
    c.watched != {} && first <= slot && DecidesFrom(c, first, slot + 1)
  }

  /** The cycle decides on every slot up to one at which it raises. */
  ghost predicate RaisesAt(c: Cycle, cursor: nat, window: nat, slot: nat) {
    var first := FirstSlot(cursor, c.head, window);
    c.watched != {} && first <= slot <= c.head && DecidesFrom(c, first, slot) && Judge(c, slot).Raise?
  }

  ghost predicate Raises(c: Cycle, cursor: nat, window: nat) {
    exists slot :: RaisesAt(c, cursor, window, slot)
  }

  lemma ExaminesIff(c: Cycle, cursor: nat, window: nat, slot: nat)
    ensures Examines(c, cursor, window, slot) <==>
              var first := FirstSlot(cursor, c.head, window);
              first <= slot < first + |Examined(c, cursor, window).exams|
  {
    var first := FirstSlot(cursor, c.head, window);
    SweepEnds(c, first);
    hide DecidesAt, SweepFrom;
  }

  lemma StopsOnce(c: Cycle, first: nat, n: nat, slot: nat)
    requires first <= n && DecidesFrom(c, first, n) && !DecidesAt(c, n)
    requires first <= slot && DecidesFrom(c, first, slot) && !DecidesAt(c, slot)
    ensures slot == n
  {
    hide DecidesAt;
    assert slot < n ==> DecidesAt(c, slot);
    assert n < slot ==> DecidesAt(c, n);
  }

  lemma RaisesIff(c: Cycle, cursor: nat, window: nat)
    ensures Raises(c, cursor, window) <==> Examined(c, cursor, window).raised
  {
    var first := FirstSlot(cursor, c.head, window);
    SweepEnds(c, first);
    var n := first + |SweepFrom(c, first).exams|;
    hide Judge, SweepFrom;
    if Examined(c, cursor, window).raised {
      assert RaisesAt(c, cursor, window, n);
    }
    if slot: nat :| RaisesAt(c, cursor, window, slot) {
      StopsOnce(c, first, n, slot);
    }
  }

  /** The exams of a cycle are exactly the slots it examines, in order. */
  lemma ExamSlots(c: Cycle, cursor: nat, window: nat)
    ensures var es := Examined(c, cursor, window).exams;
            && (forall i | 0 <= i < |es| :: es[i].slot == FirstSlot(cursor, c.head, window) + i)
            && (forall i | 0 <= i < |es| :: Agrees(c, es[i]))
  {
    SweepIsJudged(c, FirstSlot(cursor, c.head, window));
  }

  // ---------------------------------------------------------------- the counter

  lemma {:induction false} CountAppend(a: seq<Exam>, b: seq<Exam>)
    ensures CountMissed(a + b) == CountMissed(a) + CountMissed(b)
  {
    if a == [] {
      assert a + b == b;
    } else {
      CountAppend(a[1..], b);
      assert (a + b)[1..] == a[1..] + b;
    }
  }

  lemma CountOne(e: Exam)
    ensures CountMissed([e]) == if e.missed then 1 else 0
  {
  }

  /** In every run, whatever raised and however saves went, the counter is the number of missed slots
      among those examined. */
  lemma {:induction false} CounterIsExact(cs: seq<Cycle>, window: nat)
    ensures RunCycles(cs, window).missed == CountMissed(RunCycles(cs, window).history)
  {
    if cs != [] {
      var g, c := RunCycles(cs[..|cs| - 1], window), cs[|cs| - 1];
      CounterIsExact(cs[..|cs| - 1], window);
      hide Examined;
      CountAppend(g.history, Examined(c, g.cursor, window).exams);
    }
  }

  /** Every entry of the history is what the node said in one of the cycles. */
  lemma {:induction false} HistoryAgrees(cs: seq<Cycle>, window: nat, i: nat)
    requires i < |RunCycles(cs, window).history|
    ensures exists k | 0 <= k < |cs| :: Agrees(cs[k], RunCycles(cs, window).history[i])
  {
    if cs != [] {
      var before, c := cs[..|cs| - 1], cs[|cs| - 1];
      var g := RunCycles(before, window);
      if i < |g.history| {
        HistoryAgrees(before, window, i);
        var k :| 0 <= k < |before| && Agrees(before[k], g.history[i]);
        assert cs[k] == before[k];
      } else {
        ExamSlots(c, g.cursor, window);
      }
    }
  }

  // ---------------------------------------------------------------- each slot once

  ghost predicate OncePerSlot(es: seq<Exam>) {
    forall i, j | 0 <= i < j < |es| :: es[i].slot != es[j].slot
  }

  /** The cycle gets to this slot again: it lies above the loaded cursor and inside the window, and the
      cycle decides on everything from its first slot up to it. */
  ghost predicate ComesBackTo(c: Cycle, cursor: nat, window: nat, slot: nat) {
    && c.watched != {} && cursor < slot && c.head <= slot + window
    && DecidesFrom(c, FirstSlot(cursor, c.head, window), slot + 1)
  }

  /** The cycle gets to a slot that was examined before. */
  ghost predicate Reexamines(g: Gate, c: Cycle, window: nat) {
    exists i | 0 <= i < |g.history| :: ComesBackTo(c, g.cursor, window, g.history[i].slot)
  }

  lemma AppendKeepsOnceIff(h: seq<Exam>, es: seq<Exam>, first: nat)
    requires OncePerSlot(h) && forall i | 0 <= i < |es| :: es[i].slot == first + i
    ensures OncePerSlot(h + es) <==> forall i | 0 <= i < |h| :: !(first <= h[i].slot < first + |es|)
  {
    var all := h + es;
    if i :| 0 <= i < |h| && first <= h[i].slot < first + |es| {
      assert all[i] == h[i] && all[|h| + (h[i].slot - first)] == es[h[i].slot - first];
    } else {
      forall i, j | 0 <= i < j < |all|
        ensures all[i].slot != all[j].slot
      {
        assert j >= |h| ==> all[j].slot == first + (j - |h|);
        assert i >= |h| ==> all[i].slot == first + (i - |h|);
      }
    }
  }

  /** A cycle keeps each slot examined at most once exactly when it gets to none examined before. */
  lemma CycleKeepsOnceIff(g: Gate, c: Cycle, window: nat)
    requires OncePerSlot(g.history)
    ensures OncePerSlot(RunCycle(g, c, window).history) <==> !Reexamines(g, c, window)
  {
    ExamSlots(c, g.cursor, window);
    var first, es := FirstSlot(g.cursor, c.head, window), Examined(c, g.cursor, window).exams;
    AppendKeepsOnceIff(g.history, es, first);
    forall i | 0 <= i < |g.history|
      ensures ComesBackTo(c, g.cursor, window, g.history[i].slot) <==> first <= g.history[i].slot < first + |es|
    {
      ExaminesIff(c, g.cursor, window, g.history[i].slot);
    }
    hide Examined, ComesBackTo, OncePerSlot;
  }

  lemma OnceBefore(g: Gate, c: Cycle, window: nat)
    requires OncePerSlot(RunCycle(g, c, window).history)
    ensures OncePerSlot(g.history)
  {
    var h := RunCycle(g, c, window).history;
    assert forall i | 0 <= i < |g.history| :: h[i] == g.history[i];
  }

  ghost predicate NeverReexamines(cs: seq<Cycle>, window: nat) {
    cs == [] || (NeverReexamines(cs[..|cs| - 1], window)
                 && !Reexamines(RunCycles(cs[..|cs| - 1], window), cs[|cs| - 1], window))
  }

  /** Over any number of cycles, with outages, exceptions, failing saves and any head movement: each slot
      is examined at most once exactly when no cycle gets to a slot examined before it. */
  lemma {:induction false} OncePerSlotIff(cs: seq<Cycle>, window: nat)
    ensures OncePerSlot(RunCycles(cs, window).history) <==> NeverReexamines(cs, window)
  {
    if cs != [] {
      var g, c := RunCycles(cs[..|cs| - 1], window), cs[|cs| - 1];
      OncePerSlotIff(cs[..|cs| - 1], window);
      assert RunCycles(cs, window) == RunCycle(g, c, window);
      hide RunCycle, Reexamines, OncePerSlot;
      if OncePerSlot(RunCycle(g, c, window).history) {
        OnceBefore(g, c, window);
        CycleKeepsOnceIff(g, c, window);
      } else if OncePerSlot(g.history) {
        CycleKeepsOnceIff(g, c, window);
      }
    }
  }

  /** Slots in the order of the chain. */
  ghost predicate InOrder(es: seq<Exam>) {
    forall i, j | 0 <= i < j < |es| :: es[i].slot < es[j].slot
  }

  ghost predicate AllBelow(es: seq<Exam>, slot: nat) {
    forall i | 0 <= i < |es| :: es[i].slot < slot
  }

  /** A cycle keeps the history in order exactly when it examines nothing, or starts above everything
      examined so far. */
  lemma CycleKeepsOrderIff(g: Gate, c: Cycle, window: nat)
    requires InOrder(g.history)
    ensures var first := FirstSlot(g.cursor, c.head, window);
            InOrder(RunCycle(g, c, window).history) <==>
            !Examines(c, g.cursor, window, first) || AllBelow(g.history, first)
  {
    ExamSlots(c, g.cursor, window);
    var first, es := FirstSlot(g.cursor, c.head, window), Examined(c, g.cursor, window).exams;
    ExaminesIff(c, g.cursor, window, first);
    hide Examined, Examines;
    AppendKeepsOrderIff(g.history, es, first);
  }

  lemma AppendKeepsOrderIff(h: seq<Exam>, es: seq<Exam>, first: nat)
    requires InOrder(h) && forall i | 0 <= i < |es| :: es[i].slot == first + i
    ensures InOrder(h + es) <==> es == [] || AllBelow(h, first)
  {
    var all := h + es;
    if es == [] {
      assert all == h;
    } else {
      assert all[|h|] == es[0];
      if AllBelow(h, first) {
        assert forall i | 0 <= i < |all| :: all[i].slot == if i < |h| then h[i].slot else first + (i - |h|);
      } else {
        var i :| 0 <= i < |h| && h[i].slot >= first;
        assert all[i] == h[i];
      }
    }
  }

  // ---------------------------------------------------------------- the cursor

  /** The cursor goes back exactly when a cycle that gets to saving it empties the file. */
  lemma CursorDropsIff(g: Gate, c: Cycle, window: nat)
    ensures RunCycle(g, c, window).cursor < g.cursor <==>
              g.cursor > 0 && c.save == Truncated && !Raises(c, g.cursor, window)
  {
    ExamSlots(c, g.cursor, window);
    RaisesIff(c, g.cursor, window);
    hide Examined, Raises;
  }

  /** The cycle's work, if any, is on record when it ends, and the cursor is not lost. */
  ghost predicate Remembers(g: Gate, c: Cycle, window: nat) {
    && (Examines(c, g.cursor, window, FirstSlot(g.cursor, c.head, window)) ==>
          c.save == Written && !Raises(c, g.cursor, window))
    && (c.save == Truncated ==> g.cursor == 0 || Raises(c, g.cursor, window))
  }

  ghost predicate AlwaysRemembers(cs: seq<Cycle>, window: nat) {
    cs == [] || (AlwaysRemembers(cs[..|cs| - 1], window)
                 && Remembers(RunCycles(cs[..|cs| - 1], window), cs[|cs| - 1], window))
  }

  lemma CycleStaysBelowCursor(g: Gate, c: Cycle, window: nat)
    requires InOrder(g.history) && AllBelow(g.history, g.cursor + 1) && Remembers(g, c, window)
    ensures var g' := RunCycle(g, c, window);
            InOrder(g'.history) && AllBelow(g'.history, g'.cursor + 1) && g'.cursor >= g.cursor
  {
    var first, s := FirstSlot(g.cursor, c.head, window), Examined(c, g.cursor, window);
    ExamSlots(c, g.cursor, window);
    CycleKeepsOrderIff(g, c, window);
    ExaminesIff(c, g.cursor, window, first);
    RaisesIff(c, g.cursor, window);
    hide Examined, Examines, Raises, InOrder;
    var h := g.history + s.exams;
    assert forall i | 0 <= i < |h| ::
      h[i].slot == if i < |g.history| then g.history[i].slot else first + (i - |g.history|);
  }

  /** So it is in every run that keeps its work on record: the history is in order, each slot examined at
      most once, none beyond the cursor. */
  lemma {:induction false} CyclesStayInOrder(cs: seq<Cycle>, window: nat)
    requires AlwaysRemembers(cs, window)
    ensures var g := RunCycles(cs, window);
            InOrder(g.history) && OncePerSlot(g.history) && AllBelow(g.history, g.cursor + 1)
  {
    if cs != [] {
      CyclesStayInOrder(cs[..|cs| - 1], window);
      CycleStaysBelowCursor(RunCycles(cs[..|cs| - 1], window), cs[|cs| - 1], window);
      hide RunCycle, Remembers, AllBelow;
    }
  }

  /** While the head stays within the window and the node answers, no slot is skipped: the cycle examines
      every slot after the cursor up to the head. */
  lemma NoGapWithinWindow(g: Gate, c: Cycle, window: nat)
    requires c.watched != {} && c.save == Written && g.cursor < c.head <= g.cursor + 1 + window
    requires DecidesFrom(c, g.cursor + 1, c.head + 1)
    ensures var g' := RunCycle(g, c, window);
            && g'.cursor == c.head && g.history <= g'.history
            && var es := g'.history[|g.history|..];
               |es| == c.head - g.cursor && forall i | 0 <= i < |es| :: es[i].slot == g.cursor + 1 + i
  {
    var es := Examined(c, g.cursor, window).exams;
    ExamSlots(c, g.cursor, window);
    SweepEnds(c, g.cursor + 1);
    hide SweepFrom, Judge;
    assert (g.history + es)[|g.history|..] == es;
  }

  // ---------------------------------------------------------------- slots counted twice

  lemma {:induction false} SweepIsPrefix(c: Cycle, d: Cycle, slot: nat)
    requires c.head == d.head && c.watched == d.watched
    requires forall k | slot <= k < slot + |SweepFrom(c, slot).exams| :: c.View(k) == d.View(k)
    ensures SweepFrom(c, slot).exams <= SweepFrom(d, slot).exams
    decreases c.head + 1 - slot
  {
    var es := SweepFrom(c, slot).exams;
    if es != [] {
      assert c.View(slot) == d.View(slot);
      SweepIsPrefix(c, d, slot + 1);
    }
  }

  /** Work that is not saved is repeated: the next cycle that sees the same answers examines, and counts,
      those slots again. */
  lemma LostWorkIsRepeated(g: Gate, c: Cycle, d: Cycle, window: nat)
    requires Examines(c, g.cursor, window, FirstSlot(g.cursor, c.head, window))
    requires c.save == NotOpened || Raises(c, g.cursor, window)
    requires c.head == d.head && c.watched == d.watched
    requires forall k | Examines(c, g.cursor, window, k) :: c.View(k) == d.View(k)
    ensures var es := Examined(c, g.cursor, window).exams;
            var g2 := RunCycle(RunCycle(g, c, window), d, window);
            && g.history + es + es <= g2.history && !OncePerSlot(g2.history)
            && g2.missed >= g.missed + 2 * CountMissed(es)
  {
    var first := FirstSlot(g.cursor, c.head, window);
    var es, ds := Examined(c, g.cursor, window).exams, Examined(d, g.cursor, window).exams;
    RaisesIff(c, g.cursor, window);
    ExaminesIff(c, g.cursor, window, first);
    assert es <= ds by {
      forall k | first <= k < first + |es|
        ensures c.View(k) == d.View(k)
      {
        ExaminesIff(c, g.cursor, window, k);
      }
      SweepIsPrefix(c, d, first);
    }
    assert RunCycle(g, c, window) == Gate(g.cursor, g.missed + CountMissed(es), g.history + es);
    RepeatedExams(g.history, es, ds);
    hide Examined, SweepFrom, Examines, Raises, CountMissed, OncePerSlot;
  }

  lemma RepeatedExams(h: seq<Exam>, es: seq<Exam>, ds: seq<Exam>)
    requires es != [] && es <= ds
    ensures h + es + es <= h + es + ds && !OncePerSlot(h + es + ds) && CountMissed(ds) >= CountMissed(es)
  {
    assert ds == es + ds[|es|..];
    CountAppend(es, ds[|es|..]);
    var all := h + es + ds;
    assert all[|h|] == es[0] && all[|h| + |es|] == es[0];
  }

  /** An emptied state file brings back slots of long ago, even after a cycle that examined nothing. */
  lemma TruncatedFileIsRepeated(g: Gate, c: Cycle, d: Cycle, window: nat, i: nat)
    requires c.save == Truncated && !Raises(c, g.cursor, window)
    requires i < |g.history| && Examines(d, 0, window, g.history[i].slot)
    ensures !OncePerSlot(RunCycle(RunCycle(g, c, window), d, window).history)
  {
    var g1 := RunCycle(g, c, window);
    RaisesIff(c, g.cursor, window);
    assert g1.cursor == 0 && g1.history[i] == g.history[i];
    if OncePerSlot(RunCycle(g1, d, window).history) {
      OnceBefore(g1, d, window);
      CycleKeepsOnceIff(g1, d, window);
    }
  }

  // ---------------------------------------------------------------- the code

  /** The loop's state after `done`, about to look at `slot`. */
  ghost predicate Progress(c: Cycle, first: nat, cursor: nat, slot: nat, done: seq<Exam>, lastDone: nat, counted: int) {
    && SweepFrom(c, first).exams == done + SweepFrom(c, slot).exams
    && SweepFrom(c, first).raised == SweepFrom(c, slot).raised
    && lastDone == LastSlot(cursor, done) && counted == CountMissed(done)
  }

  lemma AtStart(c: Cycle, first: nat, cursor: nat)
    ensures Progress(c, first, cursor, first, [], cursor, 0)
  {
  }

  lemma AtRaise(c: Cycle, first: nat, cursor: nat, slot: nat, done: seq<Exam>, lastDone: nat, counted: int)
    requires Progress(c, first, cursor, slot, done, lastDone, counted) && slot <= c.head && Judge(c, slot).Raise?
    ensures SweepFrom(c, first) == Sweep(done, true) && counted == CountMissed(done)
  {
  }

  lemma AtDecided(c: Cycle, first: nat, cursor: nat, slot: nat, done: seq<Exam>, lastDone: nat, counted: int)
    requires Progress(c, first, cursor, slot, done, lastDone, counted) && slot <= c.head && Judge(c, slot).Decided?
    ensures var e := Judge(c, slot).exam;
            && e.slot == slot
            && Progress(c, first, cursor, slot + 1, done + [e], slot, counted + if e.missed then 1 else 0)
  {
    var e := Judge(c, slot).exam;
    assert e.slot == slot;
    hide Judge, CountMissed;
    assert CountMissed(done + [e]) == CountMissed(done) + if e.missed then 1 else 0 by {
      CountAppend(done, [e]);
      CountOne(e);
    }
    assert done + ([e] + SweepFrom(c, slot + 1).exams) == done + [e] + SweepFrom(c, slot + 1).exams;
  }

  lemma AtStop(c: Cycle, first: nat, cursor: nat, slot: nat, done: seq<Exam>, lastDone: nat, counted: int)
    requires Progress(c, first, cursor, slot, done, lastDone, counted) && (slot > c.head || Judge(c, slot).Stop?)
    ensures SweepFrom(c, first) == Sweep(done, false)
    ensures lastDone == LastSlot(cursor, done) && counted == CountMissed(done)
  {
  }

  class GateExporter {
    /** The state file: the slot it holds, or None when it is missing or cannot be read as one. */
    var stateFile: Option<nat>
    var missedTotal: nat
    ghost var history: seq<Exam>

    ghost function View(): Gate
      reads this
    {
      Gate(LoadCursor(), missedTotal, history)
    }

    function LoadCursor(): nat
      reads this
    {
      if stateFile.Some? then stateFile.value else 0
    }

    method SaveCursor(slot: nat, save: Save)
      modifies this`stateFile
      ensures LoadCursor() == CursorAfter(old(LoadCursor()), save, slot)
    {
      if save == NotOpened {
        return;
      }
      stateFile := None;
      if save == Written {
        stateFile := Some(slot);
      }
    }

    /** _check_missed_proposals: the next cursor, or None when it raises; `done` is what it examined. */
    method CheckMissedProposals(c: Cycle, window: nat) returns (next: Option<nat>, ghost done: seq<Exam>)
      modifies this`missedTotal
      ensures missedTotal == old(missedTotal) + CountMissed(done)
      ensures next.Some? ==> next.value == LastSlot(LoadCursor(), done)
      ensures Examined(c, LoadCursor(), window) == Sweep(done, next.None?)
    {
      done := [];
      var cursor := LoadCursor();
      if c.watched == {} {
        next := Some(cursor);
        return;
      }
      var first := Max(cursor + 1, c.head - window);
      var lastDone: nat := cursor;
      var slot: nat := first;
      AtStart(c, first, cursor);
      assert Examined(c, cursor, window) == SweepFrom(c, first);
      hide Progress, Examined, SweepFrom, CountMissed, LastSlot, ShowsNoBlock, IsWatched, Judge;
      while slot <= c.head
        invariant first <= slot
        invariant Progress(c, first, cursor, slot, done, lastDone, missedTotal - old(missedTotal))
        decreases c.head + 1 - slot
      {
        ghost var counted := missedTotal - old(missedTotal);
        var v := Examine(c, slot);
        if v.Stop? {
          break;
        }
        if v.Raise? {
          AtRaise(c, first, cursor, slot, done, lastDone, counted);
          next := None;
          return;
        }
        AtDecided(c, first, cursor, slot, done, lastDone, counted);
        done := done + [v.exam];
        lastDone := slot;
        slot := slot + 1;
      }
      AtStop(c, first, cursor, slot, done, lastDone, missedTotal - old(missedTotal));
      next := Some(lastDone);
    }

    /** The body of its loop: a watched slot without a block is counted at once. */
    method Examine(c: Cycle, slot: nat) returns (v: Verdict)
      modifies this`missedTotal
      ensures v == Judge(c, slot)
      ensures missedTotal == old(missedTotal) + if v.Decided? && v.exam.missed then 1 else 0
      ensures v.Decided? && v.exam.missed <==> IsWatched(c, slot) && ShowsNoBlock(c.answers[slot].probe)
    {
      if slot !in c.answers {
        return Stop;
      }
      var proposer := c.answers[slot].proposer;
      if proposer.None? || proposer.value !in c.watched {
        return Decided(Exam(slot, false, false));
      }
      var probe := c.answers[slot].probe;
      if probe == Throws {
        return Raise;
      }
      if probe.status == 0 {
        return Stop;
      }
      if probe.status == 200 && probe.body == NotAnObject {
        return Raise;
      }
      var blockPresent := probe.status == 200 && probe.body != NoBody && probe.body.hasData;
      if !blockPresent {
        missedTotal := missedTotal + 1;
      }
      return Decided(Exam(slot, true, !blockPresent));
    }

    /** The cycle part of _run_evaluation: the cursor is saved only when the check returns. */
    method RunEvaluation(c: Cycle, window: nat)
      modifies this
      ensures View() == RunCycle(old(View()), c, window)
    {
      ghost var done: seq<Exam>;
      var next;
      next, done := CheckMissedProposals(c, window);
      history := history + done;
      if next.Some? {
        SaveCursor(next.value, c.save);
      }
    }
  }
}
