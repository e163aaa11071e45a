/** The registry's worker pool: up to eight workers take nodes from one channel and add the keys they read
    to a shared set, in any interleaving, until the walks are done or the context is cancelled.
 */
module RegistryPool {
  import opened Common
  import opened Strings
  import opened Registry

  /** A worker's walk: which node, and how many of its keys are in the shared set. */
  datatype Job = Job(node: nat, read: nat)

  /** Nodes before `next` were handed out; `lists[i]` is what the walk of node i reads. */
  datatype Pool = Pool(next: nat, workers: seq<Option<Job>>, keys: set<string>, cancelled: bool)

  datatype Step =
    | Take(w: nat)    // an idle worker receives the next node
    | Add(w: nat)     // a worker adds its next key under the mutex
    | Finish(w: nat)  // a worker's walk ends, with or without an error
    | Cancel          // the context is cancelled
    | Leave(w: nat)   // a worker sees the cancelled context and returns

  /** Any number of workers; the code starts between one and eight. */
  function Start(workers: nat): Pool {
    Pool(0, seq(workers, _ => None), {}, false)
  }

  predicate Busy(s: Pool, w: nat) {
    w < |s.workers| && s.workers[w].Some?
  }

  predicate Enabled(lists: seq<seq<string>>, s: Pool, step: Step) {
    match step
    case Take(w) => w < |s.workers| && s.workers[w].None? && s.next < |lists|
    case Add(w) =>
      Busy(s, w) && var job := s.workers[w].value; job.node < |lists| && job.read < |lists[job.node]|
    case Finish(w) =>
      Busy(s, w) && var job := s.workers[w].value; job.node < |lists| && job.read == |lists[job.node]|
    case Cancel => !s.cancelled
    case Leave(w) => Busy(s, w) && s.cancelled
  }

  function Do(lists: seq<seq<string>>, s: Pool, step: Step): Pool
    requires Enabled(lists, s, step)
  {
    match step
    case Take(w) => s.(next := s.next + 1, workers := s.workers[w := Some(Job(s.next, 0))])
    case Add(w) =>
      var job := s.workers[w].value;
      s.(keys := s.keys + {lists[job.node][job.read]}, workers := s.workers[w := Some(job.(read := job.read + 1))])
    case Finish(w) => s.(workers := s.workers[w := None])
    case Cancel => s.(cancelled := true)
    case Leave(w) => s.(workers := s.workers[w := None])
  }

  /** The wait group is released. */
  predicate Done(lists: seq<seq<string>>, s: Pool) {
    (forall w | 0 <= w < |s.workers| :: s.workers[w].None?) && (s.next == |lists| || s.cancelled)
  }

  // ---------------------------------------------------------------- invariant

  ghost predicate JobOk(lists: seq<seq<string>>, s: Pool, w: nat)
    requires w < |s.workers|
  {
    s.workers[w].Some? ==>
      var job := s.workers[w].value;
      && job.node < s.next && job.node < |lists| && job.read <= |lists[job.node]|
      && forall k | 0 <= k < job.read :: lists[job.node][k] in s.keys
  }

  /** Node i is still being walked, or all it has is in the set. */
  ghost predicate Covered(lists: seq<seq<string>>, s: Pool, i: nat)
    requires i < |lists|
  {
    || (exists w | 0 <= w < |s.workers| :: s.workers[w].Some? && s.workers[w].value.node == i)
    || (forall k | 0 <= k < |lists[i]| :: lists[i][k] in s.keys)
  }

  /** Some list has the key. */
  ghost predicate Read(lists: seq<seq<string>>, key: string) {
    exists i | 0 <= i < |lists| :: key in lists[i]
  }

  ghost predicate Inv(lists: seq<seq<string>>, s: Pool) {
    && s.next <= |lists|
    && (forall w | 0 <= w < |s.workers| :: JobOk(lists, s, w))
    && (forall key | key in s.keys :: Read(lists, key))
    && (!s.cancelled ==> forall i | 0 <= i < s.next :: Covered(lists, s, i))
  }

  lemma StepKeepsJobs(lists: seq<seq<string>>, s: Pool, step: Step)
    requires Inv(lists, s) && Enabled(lists, s, step)
    ensures forall w | 0 <= w < |s.workers| :: JobOk(lists, Do(lists, s, step), w)
  {
    var s' := Do(lists, s, step);
    forall w | 0 <= w < |s.workers|
      ensures JobOk(lists, s', w)
    {
      assert JobOk(lists, s, w);
    }
  }

  lemma StepKeepsKeys(lists: seq<seq<string>>, s: Pool, step: Step)
    requires Inv(lists, s) && Enabled(lists, s, step)
    ensures forall key | key in Do(lists, s, step).keys :: Read(lists, key)
  {
  }

  lemma StepKeepsCovered(lists: seq<seq<string>>, s: Pool, step: Step, i: nat)
    requires Inv(lists, s) && Enabled(lists, s, step) && !Do(lists, s, step).cancelled && i < Do(lists, s, step).next
    ensures i < |lists| && Covered(lists, Do(lists, s, step), i)
  {
    var s' := Do(lists, s, step);
    if step.Take? && i == s.next {
      assert s'.workers[step.w] == Some(Job(i, 0));
    } else {
      assert Covered(lists, s, i);
      if w :| 0 <= w < |s.workers| && s.workers[w].Some? && s.workers[w].value.node == i {
        assert JobOk(lists, s, w);
        assert step != Finish(w) ==> s'.workers[w].Some? && s'.workers[w].value.node == i;
      }
    }
  }

  lemma StepKeepsInv(lists: seq<seq<string>>, s: Pool, step: Step)
    requires Inv(lists, s) && Enabled(lists, s, step)
    ensures Inv(lists, Do(lists, s, step))
  {
    StepKeepsJobs(lists, s, step);
    StepKeepsKeys(lists, s, step);
    var s' := Do(lists, s, step);
    if !s'.cancelled {
      forall i | 0 <= i < s'.next
        ensures i < |lists| && Covered(lists, s', i)
      {
        StepKeepsCovered(lists, s, step, i);
      }
    }
    assert |s'.workers| == |s.workers| && s'.next <= |lists|;
    hide JobOk, Covered, Read, Do;
  }

  // ---------------------------------------------------------------- runs

  ghost predicate Legal(lists: seq<seq<string>>, s: Pool, steps: seq<Step>)
    decreases |steps|
  {
    steps == [] || (Enabled(lists, s, steps[0]) && Legal(lists, Do(lists, s, steps[0]), steps[1..]))
  }

  ghost function After(lists: seq<seq<string>>, s: Pool, steps: seq<Step>): Pool
    requires Legal(lists, s, steps)
    decreases |steps|
  {
    if steps == [] then s else After(lists, Do(lists, s, steps[0]), steps[1..])
  }

  lemma {:induction false} RunKeepsInv(lists: seq<seq<string>>, s: Pool, steps: seq<Step>)
    requires Inv(lists, s) && Legal(lists, s, steps)
    ensures Inv(lists, After(lists, s, steps))
    decreases |steps|
  {
    if steps != [] {
      StepKeepsInv(lists, s, steps[0]);
      RunKeepsInv(lists, Do(lists, s, steps[0]), steps[1..]);
    }
  }

  /** In every interleaving that ends uncancelled, the set is exactly the union of what the walks read. */
  lemma FinalSetIsUnion(lists: seq<seq<string>>, workers: nat, steps: seq<Step>)
    requires Legal(lists, Start(workers), steps)
    ensures var s := After(lists, Start(workers), steps);
            Done(lists, s) && !s.cancelled ==> forall key :: key in s.keys <==> Read(lists, key)
  {
    RunKeepsInv(lists, Start(workers), steps);
    var s := After(lists, Start(workers), steps);
    if Done(lists, s) && !s.cancelled {
      forall key | Read(lists, key)
        ensures key in s.keys
      {
        var i :| 0 <= i < |lists| && key in lists[i];
        assert Covered(lists, s, i);
      }
    }
  }

  // ---------------------------------------------------------------- the pool always finishes

  function WorkOf(lists: seq<seq<string>>, job: Option<Job>): nat {
    if job.None? then 0
    else if job.value.node < |lists| then Max(0, |lists[job.value.node]| - job.value.read) + 1
    else 1
  }

  function Work(lists: seq<seq<string>>, workers: seq<Option<Job>>): nat {
    if workers == [] then 0 else WorkOf(lists, workers[0]) + Work(lists, workers[1..])
  }

  function Waiting(lists: seq<seq<string>>): nat {
    if lists == [] then 0 else |lists[0]| + 2 + Waiting(lists[1..])
  }

  ghost function Remaining(lists: seq<seq<string>>, s: Pool): nat
    requires s.next <= |lists|
  {
    Waiting(lists[s.next..]) + Work(lists, s.workers) + if s.cancelled then 0 else 1
  }

  lemma {:induction false} WorkUpdate(lists: seq<seq<string>>, workers: seq<Option<Job>>, w: nat, job: Option<Job>)
    requires w < |workers|
    ensures Work(lists, workers[w := job]) == Work(lists, workers) - WorkOf(lists, workers[w]) + WorkOf(lists, job)
  {
    if w > 0 {
      WorkUpdate(lists, workers[1..], w - 1, job);
      assert workers[w := job][1..] == workers[1..][w - 1 := job];
    } else {
      assert workers[w := job][1..] == workers[1..];
    }
  }

  /** Every step uses up work, so no schedule goes on forever. */
  lemma StepUsesWork(lists: seq<seq<string>>, s: Pool, step: Step)
    requires Inv(lists, s) && Enabled(lists, s, step)
    ensures Do(lists, s, step).next <= |lists| && Remaining(lists, Do(lists, s, step)) < Remaining(lists, s)
  {
    var s' := Do(lists, s, step);
    if !step.Cancel? {
      WorkUpdate(lists, s.workers, step.w, s'.workers[step.w]);
    }
    hide Work, Waiting;
    if step.Take? {
      TakeWaiting(lists, s.next);
    }
  }

  lemma TakeWaiting(lists: seq<seq<string>>, i: nat)
    requires i < |lists|
    ensures Waiting(lists[i..]) == |lists[i]| + 2 + Waiting(lists[i + 1..])
  {
  }

  /** While the wait group is held some worker can go on: a run that cannot continue has finished. */
  lemma NeverStuck(lists: seq<seq<string>>, s: Pool) returns (step: Step)
    requires Inv(lists, s) && |s.workers| > 0 && !Done(lists, s)
    ensures Enabled(lists, s, step) && !step.Cancel?
  {
    if w :| 0 <= w < |s.workers| && s.workers[w].Some? {
      assert JobOk(lists, s, w);
      step := if s.workers[w].value.read < |lists[s.workers[w].value.node]| then Add(w) else Finish(w);
    } else {
      step := Take(0);
    }
  }

  lemma {:induction false} RunIsBounded(lists: seq<seq<string>>, s: Pool, steps: seq<Step>)
    requires Inv(lists, s) && Legal(lists, s, steps)
    ensures |steps| <= Remaining(lists, s)
    decreases |steps|
  {
    if steps != [] {
      StepKeepsInv(lists, s, steps[0]);
      StepUsesWork(lists, s, steps[0]);
      RunIsBounded(lists, Do(lists, s, steps[0]), steps[1..]);
    }
  }

  // ---------------------------------------------------------------- what enumeration returns

  function WalkedLists(nodes: seq<Node>): (lists: seq<seq<string>>)
    ensures |lists| == |nodes| && forall i | 0 <= i < |nodes| :: lists[i] == Walked(nodes[i])
  {
    seq(|nodes|, i requires 0 <= i < |nodes| => Walked(nodes[i]))
  }

  /** After the wait: a cancelled context is an error, anything else the sorted set. */
  method Collect(s: Pool) returns (r: Result<seq<string>, string>)
    ensures r.Err? <==> s.cancelled
    ensures r.Ok? ==> Sorted(r.value) && Distinct(r.value) && Elements(r.value) == s.keys
  {
    if s.cancelled {
      return Err("context canceled");
    }
    var pubkeys := SortedKeys(s.keys);
    return Ok(pubkeys);
  }

  /** `xs` is what some schedule of some number of workers returns without an error. */
  ghost predicate Returns(nodes: seq<Node>, workers: nat, steps: seq<Step>, xs: seq<string>) {
    && Legal(WalkedLists(nodes), Start(workers), steps)
    && var s := After(WalkedLists(nodes), Start(workers), steps);
       && Done(WalkedLists(nodes), s) && !s.cancelled
       && Sorted(xs) && Distinct(xs) && Elements(xs) == s.keys
  }

  /** Node i lists the key at index k, and nothing ends its walk before that. */
  ghost predicate ReadAt(nodes: seq<Node>, i: nat, k: nat, key: string)
    requires i < |nodes|
  {
    Reached(nodes[i], k) && ListsAt(nodes[i], k, key)
  }

  ghost predicate ReadBySome(nodes: seq<Node>, key: string) {
    exists i, k | 0 <= i < |nodes| && 0 <= k :: ReadAt(nodes, i, k, key)
  }

  lemma ReadIff(nodes: seq<Node>, key: string)
    ensures Read(WalkedLists(nodes), key) <==> ReadBySome(nodes, key)
  {
    hide WalkFrom, ListsAt, Reached;
    var lists := WalkedLists(nodes);
    if i :| 0 <= i < |lists| && key in lists[i] {
      var k :| 0 <= k < |lists[i]| && lists[i][k] == key;
      WalkReadsList(nodes[i], 0, k);
      ReachedIff(nodes[i], k);
      assert ReadAt(nodes, i, k, key);
    }
    if i, k :| 0 <= i < |nodes| && 0 <= k && ReadAt(nodes, i, k, key) {
      ReachedIff(nodes[i], k);
      WalkReadsList(nodes[i], 0, k);
      SameKey(nodes[i], k, key, Walked(nodes[i])[k]);
      assert key in lists[i];
    }
  }

  lemma SameKey(node: Node, k: nat, a: string, b: string)
    requires ListsAt(node, k, a) && ListsAt(node, k, b)
    ensures a == b
  {
  }

  /** The returned list holds exactly the keys that some walk read. */
  lemma ReturnsUnion(nodes: seq<Node>, workers: nat, steps: seq<Step>, xs: seq<string>)
    requires Returns(nodes, workers, steps, xs)
    ensures forall key :: key in xs <==> ReadBySome(nodes, key)
  {
    var lists := WalkedLists(nodes);
    FinalSetIsUnion(lists, workers, steps);
    var s := After(lists, Start(workers), steps);
    hide Legal, After, Done, Sorted, Distinct, Read, ReadBySome, WalkedLists;
    forall key
      ensures key in xs <==> ReadBySome(nodes, key)
    {
      ReadIff(nodes, key);
      assert key in xs <==> key in Elements(xs);
    }
  }

  /** Neither the schedule nor the number of workers shows in the result. */
  lemma ScheduleDoesNotMatter(nodes: seq<Node>, w1: nat, steps1: seq<Step>, xs1: seq<string>,
                              w2: nat, steps2: seq<Step>, xs2: seq<string>)
    requires Returns(nodes, w1, steps1, xs1) && Returns(nodes, w2, steps2, xs2)
    ensures xs1 == xs2
  {
    ReturnsUnion(nodes, w1, steps1, xs1);
    ReturnsUnion(nodes, w2, steps2, xs2);
    assert Elements(xs1) == Elements(xs2);
    SortedListUnique(xs1, xs2);
  }

  /** Node i lists the key at index j, and a failed batch, an error, a revert or a blank comes before it. */
  ghost predicate Unreached(nodes: seq<Node>, i: nat, j: nat, key: string)
    requires i < |nodes|
  {
    j < |nodes[i].answers| && !Reached(nodes[i], j) && ListsAt(nodes[i], j, key)
  }

  ghost predicate Complete(nodes: seq<Node>, xs: seq<string>) {
    forall i, key | 0 <= i < |nodes| && Lists(nodes[i], key) :: key in xs
  }

  /** The result misses no listed key exactly when every key that a node lists behind the first failed
      batch, error, revert or blank is listed before any of these by some node; the errors of the walks
      themselves are dropped. */
  lemma CompleteIff(nodes: seq<Node>, workers: nat, steps: seq<Step>, xs: seq<string>)
    requires Returns(nodes, workers, steps, xs)
    ensures Complete(nodes, xs) <==>
              forall i, j, key | 0 <= i < |nodes| && 0 <= j && Unreached(nodes, i, j, key) :: ReadBySome(nodes, key)
  {
    ReturnsUnion(nodes, workers, steps, xs);
    hide Returns, ListsAt, Reached;
    if Complete(nodes, xs) {
      forall i, j, key | 0 <= i < |nodes| && 0 <= j && Unreached(nodes, i, j, key)
        ensures ReadBySome(nodes, key)
      {
        assert Lists(nodes[i], key);
      }
    } else {
      var i, key :| 0 <= i < |nodes| && Lists(nodes[i], key) && key !in xs;
      var j :| 0 <= j < |nodes[i].answers| && ListsAt(nodes[i], j, key);
      assert !ReadAt(nodes, i, j, key);
      assert Unreached(nodes, i, j, key);
    }
  }

  /** Without failures or blanks every listed key is returned. */
  lemma CleanNodesAreComplete(nodes: seq<Node>, workers: nat, steps: seq<Step>, xs: seq<string>)
    requires Returns(nodes, workers, steps, xs)
    requires forall i | 0 <= i < |nodes| :: nodes[i].badBatches == {}
    requires forall i, j | 0 <= i < |nodes| && 0 <= j < |nodes[i].answers| ::
               nodes[i].answers[j].Key? && nodes[i].answers[j].bytes != []
    ensures Complete(nodes, xs)
  {
    CompleteIff(nodes, workers, steps, xs);
  }

  /** A walk that fails goes unreported: enumeration returns no error and no keys, though the node lists one. */
  lemma FailedWalkIsNotReported(bytes: seq<byte>)
    requires bytes != []
    ensures var nodes := [Node([Broken, Key(bytes)], {})];
            && !WalkFrom(nodes[0], 0).ok && Lists(nodes[0], Render(bytes))
            && Returns(nodes, 1, [Take(0), Finish(0)], []) && !Complete(nodes, [])
  {
    var nodes := [Node([Broken, Key(bytes)], {})];
    assert ListsAt(nodes[0], 1, Render(bytes));
    var lists := WalkedLists(nodes);
    assert lists == [[]];
    var s1 := Do(lists, Start(1), Take(0));
    assert s1 == Pool(1, [Some(Job(0, 0))], {}, false);
    var s2 := Do(lists, s1, Finish(0));
    assert s2 == Pool(1, [None], {}, false);
    var steps := [Take(0), Finish(0)];
    assert steps[1..] == [Finish(0)] && steps[1..][1..] == [];
    assert Legal(lists, s2, []) && Legal(lists, s1, [Finish(0)]);
    assert After(lists, s1, [Finish(0)]) == s2;
    assert 0 <= 0 < |nodes| && Lists(nodes[0], Render(bytes)) && Render(bytes) !in [];
  }

  // ---------------------------------------------------------------- membership

  class VouchRegistry {
    var pubkeys: set<string>

    method SetPubkeys(list: seq<string>)
      modifies this
      ensures pubkeys == Lowered(list)
    {
      var keys: set<string> := {};
      var i := 0;
      while i < |list|
        invariant 0 <= i <= |list|
        invariant keys == Lowered(list[..i])
      {
        assert list[..i + 1] == list[..i] + [list[i]];
        keys := keys + {ToLower(list[i])};
        i := i + 1;
      }
      assert list[..|list|] == list;
      pubkeys := keys;
    }

    /** Case-insensitive lookup. */
    predicate IsVouchPubkey(pubkey: string)
      reads this
    {
      ToLower(pubkey) in pubkeys
    }
  }

  /** Keys come back from enumeration in lower case already. */
  lemma ReturnedKeysAreLower(nodes: seq<Node>, workers: nat, steps: seq<Step>, xs: seq<string>, key: string)
    requires Returns(nodes, workers, steps, xs) && key in xs
    ensures ToLower(key) == key
  {
    ReturnsUnion(nodes, workers, steps, xs);
    hide Returns, WalkFrom;
    var i, k :| 0 <= i < |nodes| && 0 <= k && ReadAt(nodes, i, k, key);
    RenderIsCanonical(nodes[i].Get(k).bytes, []);
  }

  /** After a sync, a query in any letter case is a Vouch key exactly when some node lists that key before
      anything that ends its walk. */
  lemma SyncedMembershipIff(registry: VouchRegistry, nodes: seq<Node>, workers: nat, steps: seq<Step>, xs: seq<string>,
                            bytes: seq<byte>, query: string)
    requires Returns(nodes, workers, steps, xs) && registry.pubkeys == Lowered(xs)
    requires ToLower(query) == Render(bytes) && bytes != []
    ensures registry.IsVouchPubkey(query) <==>
              exists i, k | 0 <= i < |nodes| && 0 <= k && Reached(nodes[i], k) :: nodes[i].Get(k) == Key(bytes)
  {
    ReturnsUnion(nodes, workers, steps, xs);
    if ToLower(query) in Lowered(xs) {
      var x :| x in xs && ToLower(x) == Render(bytes);
      ReturnedKeysAreLower(nodes, workers, steps, xs, x);
      hide Returns, Reached, Render, ToLower;
      var i, k :| 0 <= i < |nodes| && 0 <= k && ReadAt(nodes, i, k, x);
      RenderIsCanonical(bytes, nodes[i].Get(k).bytes);
    }
    hide Returns, Reached, Render, ToLower;
    if i, k :| 0 <= i < |nodes| && 0 <= k && Reached(nodes[i], k) && nodes[i].Get(k) == Key(bytes) {
      assert ReadAt(nodes, i, k, Render(bytes));
      RenderIsCanonical(bytes, bytes);
      assert Render(bytes) in xs;
    }
  }
}
