/** The streamed known-validator refresh: a JSON token stream decoded entry by entry into the lookup
    maps, over beacon nodes tried in least-used order. A token is what the decoder can still read; a
    response that breaks off simply ends.
 */
module ValidatorStream {
  import opened Common
  import opened Strings

  datatype Entry = Entry(index: nat, pubkey: string)

  /** One JSON value of the data array is one Item; Null decodes to the zero entry; Broken is a syntax error. */
  datatype Token = Str(text: string) | Delim(c: char) | Scalar | Null | Item(entry: Entry) | Broken

  datatype Maps = Maps(byPubkey: map<string, nat>, byIndex: map<nat, string>)

  const EMPTY_MAPS := Maps(map[], map[])

  datatype Error =
    | NoDataField | Malformed | NotAnArray | BadEntry | Truncated | Unsupported | NodesUnavailable | NoKnownValidators

  // ---------------------------------------------------------------- the maps

  function AddEntry(m: Maps, e: Entry): Maps {
    Maps(m.byPubkey[ToLower(e.pubkey) := e.index], m.byIndex[e.index := ToLower(e.pubkey)])
  }

  /** The maps of a complete list of entries: later entries win. */
  function MapsOf(es: seq<Entry>): Maps {
    if es == [] then EMPTY_MAPS else AddEntry(MapsOf(es[..|es| - 1]), es[|es| - 1])
  }

  ghost predicate DistinctEntries(es: seq<Entry>) {
    forall i, j | 0 <= i < j < |es| :: es[i].index != es[j].index && ToLower(es[i].pubkey) != ToLower(es[j].pubkey)
  }

  /** Each map holds the last entry of its key, whatever came before. */
  lemma {:induction false} LastEntryWins(es: seq<Entry>, i: nat)
    requires i < |es|
    ensures var m, pk := MapsOf(es), ToLower(es[i].pubkey);
            && ((forall j | i < j < |es| :: ToLower(es[j].pubkey) != pk) ==>
                  pk in m.byPubkey && m.byPubkey[pk] == es[i].index)
            && ((forall j | i < j < |es| :: es[j].index != es[i].index) ==>
                  es[i].index in m.byIndex && m.byIndex[es[i].index] == pk)
  {
    hide ToLower;
    var n := |es| - 1;
    if i < n {
      LastEntryWins(es[..n], i);
    }
  }

  /** So for distinct validators the two maps hold every entry ... */
  lemma MapsHoldEntries(es: seq<Entry>, i: nat)
    requires DistinctEntries(es) && i < |es|
    ensures var m, pk := MapsOf(es), ToLower(es[i].pubkey);
            && pk in m.byPubkey && m.byPubkey[pk] == es[i].index
            && es[i].index in m.byIndex && m.byIndex[es[i].index] == pk
  {
    LastEntryWins(es, i);
  }

  /** ... and nothing else, ... */
  lemma {:induction false} MapsHoldOnlyEntries(es: seq<Entry>)
    ensures forall pk | pk in MapsOf(es).byPubkey :: exists i | 0 <= i < |es| :: ToLower(es[i].pubkey) == pk
    ensures forall ix | ix in MapsOf(es).byIndex :: exists i | 0 <= i < |es| :: es[i].index == ix
  {
    if es != [] {
      var before := es[..|es| - 1];
      MapsHoldOnlyEntries(before);
      forall pk | pk in MapsOf(es).byPubkey
        ensures exists i | 0 <= i < |es| :: ToLower(es[i].pubkey) == pk
      {
        if pk != ToLower(es[|es| - 1].pubkey) {
          assert pk in MapsOf(before).byPubkey;
          var i :| 0 <= i < |before| && ToLower(before[i].pubkey) == pk;
          assert ToLower(es[i].pubkey) == pk;
        }
      }
      forall ix | ix in MapsOf(es).byIndex
        ensures exists i | 0 <= i < |es| :: es[i].index == ix
      {
        if ix != es[|es| - 1].index {
          assert ix in MapsOf(before).byIndex;
          var i :| 0 <= i < |before| && before[i].index == ix;
          assert es[i].index == ix;
        }
      }
    }
  }

  /** ... so they are inverse to each other. */
  lemma MapsAreInverse(es: seq<Entry>)
    requires DistinctEntries(es)
    ensures var m := MapsOf(es);
            && (forall pk | pk in m.byPubkey :: m.byPubkey[pk] in m.byIndex && m.byIndex[m.byPubkey[pk]] == pk)
            && (forall ix | ix in m.byIndex :: m.byIndex[ix] in m.byPubkey && m.byPubkey[m.byIndex[ix]] == ix)
  {
    var m := MapsOf(es);
    MapsHoldOnlyEntries(es);
    forall pk | pk in m.byPubkey
      ensures m.byPubkey[pk] in m.byIndex && m.byIndex[m.byPubkey[pk]] == pk
    {
      var i :| 0 <= i < |es| && ToLower(es[i].pubkey) == pk;
      MapsHoldEntries(es, i);
    }
    forall ix | ix in m.byIndex
      ensures m.byIndex[ix] in m.byPubkey && m.byPubkey[m.byIndex[ix]] == ix
    {
      var i :| 0 <= i < |es| && es[i].index == ix;
      MapsHoldEntries(es, i);
    }
  }

  // ---------------------------------------------------------------- decoding one response

  /** The position after the first "data" token, if the walk reaches one. */
  function AfterData(ts: seq<Token>, i: nat): Option<nat>
    decreases |ts| - i
  {
    if i >= |ts| || ts[i] == Broken then None
    else if ts[i] == Str("data") then Some(i + 1)
    else AfterData(ts, i + 1)
  }

  /** dec.More(): also false at the end of the stream. */
  predicate More(ts: seq<Token>, i: nat) {
    i < |ts| && ts[i] != Delim(']') && ts[i] != Delim('}')
  }

  function DecodeEntry(t: Token): Option<Entry> {
    match t
    case Item(e) => Some(e)
    case Null => Some(Entry(0, ""))
    case _ => None
  }

  datatype Read = Read(entries: seq<Entry>, stop: nat, ok: bool)

  /** The entries the loop reads from position `i` on, and where it stops. */
  function ReadEntries(ts: seq<Token>, i: nat): Read
    decreases |ts| - i
  {
    if !More(ts, i) then Read([], i, true)
    else if DecodeEntry(ts[i]).None? then Read([], i, false)
    else
      var rest := ReadEntries(ts, i + 1);
      rest.(entries := [DecodeEntry(ts[i]).value] + rest.entries)
  }

  /** The outcome of one response: the error, and the entries that reached the collector after its reset
      (None when the collector was never touched). */
  function Decoded(ts: seq<Token>): (Option<Error>, Option<seq<Entry>>) {
    var start := AfterData(ts, 0);
    if start.None? then (Some(NoDataField), None)
    else if start.value >= |ts| || ts[start.value] == Broken then (Some(Malformed), None)
    else if ts[start.value] != Delim('[') then (Some(NotAnArray), None)
    else
      var read := ReadEntries(ts, start.value + 1);
      (if !read.ok then Some(BadEntry) else if read.stop >= |ts| then Some(Truncated) else None, Some(read.entries))
  }

  /** The first "data" token is right before position `open`, and the walk to it meets no broken token. */
  ghost predicate FirstData(ts: seq<Token>, open: nat) {
    && 0 < open <= |ts| && ts[open - 1] == Str("data")
    && forall i | 0 <= i < open - 1 :: ts[i] != Str("data") && ts[i] != Broken
  }

  /** One JSON value of the array and the entry it stands for. */
  predicate IsEntry(t: Token, e: Entry) {
    t == Item(e) || (t == Null && e == Entry(0, ""))
  }

  /** The validators of a response: a walk to "data", an array of entries, a closing delimiter. */
  ghost predicate WellFormed(ts: seq<Token>, open: nat, entries: seq<Entry>) {
    && FirstData(ts, open) && open + 1 + |entries| < |ts| && ts[open] == Delim('[')
    && (forall i | 0 <= i < |entries| :: IsEntry(ts[open + 1 + i], entries[i]))
    && ts[open + 1 + |entries|] in {Delim(']'), Delim('}')}
  }

  lemma {:induction false} WalkFindsData(ts: seq<Token>, open: nat, i: nat)
    requires FirstData(ts, open) && i < open
    ensures AfterData(ts, i) == Some(open)
    decreases open - i
  {
    if i < open - 1 {
      WalkFindsData(ts, open, i + 1);
    }
  }

  lemma EntriesAfterFirst(ts: seq<Token>, i: nat, entries: seq<Entry>)
    requires entries != [] && i + |entries| <= |ts|
    requires forall k | 0 <= k < |entries| :: IsEntry(ts[i + k], entries[k])
    ensures IsEntry(ts[i], entries[0])
    ensures forall k | 0 <= k < |entries| - 1 :: IsEntry(ts[i + 1 + k], entries[1..][k])
  {
    hide IsEntry;
    assert IsEntry(ts[i + 0], entries[0]);
    forall k | 0 <= k < |entries| - 1
      ensures IsEntry(ts[i + 1 + k], entries[1..][k])
    {
      assert IsEntry(ts[i + (k + 1)], entries[k + 1]);
    }
  }

  /** Reading `n` items in a row: the loop returns all of them and stops right behind. */
  lemma {:induction false} ReadsItems(ts: seq<Token>, i: nat, entries: seq<Entry>)
    requires i + |entries| <= |ts|
    requires forall k | 0 <= k < |entries| :: IsEntry(ts[i + k], entries[k])
    requires !More(ts, i + |entries|)
    ensures ReadEntries(ts, i) == Read(entries, i + |entries|, true)
    decreases |entries|
  {
    if entries != [] {
      EntriesAfterFirst(ts, i, entries);
      ReadsItems(ts, i + 1, entries[1..]);
      assert entries == [entries[0]] + entries[1..];
    }
  }

  /** A complete response decodes to exactly its entries, whatever follows the closing bracket. */
  lemma CompleteResponseDecodes(ts: seq<Token>, open: nat, entries: seq<Entry>)
    requires WellFormed(ts, open, entries)
    ensures Decoded(ts) == (None, Some(entries))
  {
    WalkFindsData(ts, open, 0);
    ReadsItems(ts, open + 1, entries);
  }

  lemma {:induction false} WalkFindsNoData(ts: seq<Token>, i: nat)
    requires forall k | i <= k < |ts| :: ts[k] != Str("data")
    ensures AfterData(ts, i) == None
    decreases |ts| - i
  {
    if i < |ts| {
      WalkFindsNoData(ts, i + 1);
    }
  }

  /** Reading `n` items in a row and then something that is no entry: the loop fails there. */
  lemma {:induction false} ReadsUpToBroken(ts: seq<Token>, i: nat, entries: seq<Entry>)
    requires i + |entries| < |ts| && ts[i + |entries|] == Broken
    requires forall k | 0 <= k < |entries| :: IsEntry(ts[i + k], entries[k])
    ensures !ReadEntries(ts, i).ok
    decreases |entries|
  {
    if entries != [] {
      EntriesAfterFirst(ts, i, entries);
      ReadsUpToBroken(ts, i + 1, entries[1..]);
    }
  }

  /** Any cut of a well-formed response before the closing bracket is an error, whether it falls between
      two tokens or leaves half a token behind. */
  lemma CutIsAnError(ts: seq<Token>, open: nat, entries: seq<Entry>, cut: nat)
    requires WellFormed(ts, open, entries) && cut <= open + 1 + |entries|
    ensures Decoded(ts[..cut]).0.Some? && Decoded(ts[..cut] + [Broken]).0.Some?
  {
    var part := ts[..cut];
    var torn := part + [Broken];
    if cut < open {
      WalkFindsNoData(part, 0);
      WalkFindsNoData(torn, 0);
    } else {
      WalkFindsData(part, open, 0);
      WalkFindsData(torn, open, 0);
      if cut > open {
        ReadsItems(part, open + 1, entries[..cut - open - 1]);
        ReadsUpToBroken(torn, open + 1, entries[..cut - open - 1]);
      }
    }
  }

  lemma {:induction false} ReadEntriesSound(ts: seq<Token>, i: nat)
    requires i <= |ts|
    ensures var r := ReadEntries(ts, i);
            && i <= r.stop <= |ts| && (r.ok ==> |r.entries| == r.stop - i && !More(ts, r.stop))
            && (r.ok ==> forall k | 0 <= k < |r.entries| :: IsEntry(ts[i + k], r.entries[k]))
    decreases |ts| - i
  {
    if More(ts, i) && DecodeEntry(ts[i]).Some? {
      ReadEntriesSound(ts, i + 1);
      var r, rest := ReadEntries(ts, i), ReadEntries(ts, i + 1);
      if r.ok {
        forall k | 0 <= k < |r.entries|
          ensures IsEntry(ts[i + k], r.entries[k])
        {
          if k > 0 {
            assert IsEntry(ts[i + 1 + (k - 1)], rest.entries[k - 1]);
          }
        }
      }
    }
  }

  lemma {:induction false} WalkIsFirstData(ts: seq<Token>, i: nat)
    requires i <= |ts| && forall k | 0 <= k < i :: ts[k] != Str("data") && ts[k] != Broken
    ensures AfterData(ts, i).Some? ==> FirstData(ts, AfterData(ts, i).value)
    decreases |ts| - i
  {
    if i < |ts| && ts[i] != Broken && ts[i] != Str("data") {
      WalkIsFirstData(ts, i + 1);
    }
  }

  /** Conversely, success means the collector holds every entry between the opening bracket and a closing
      delimiter that was really there; the code does not look at which one it is. */
  lemma SuccessMeansComplete(ts: seq<Token>)
    requires Decoded(ts).0.None?
    ensures AfterData(ts, 0).Some? && Decoded(ts).1.Some?
    ensures WellFormed(ts, AfterData(ts, 0).value, Decoded(ts).1.value)
  {
    WalkIsFirstData(ts, 0);
    ReadEntriesSound(ts, AfterData(ts, 0).value + 1);
  }

  /** A response decodes to these entries exactly when it is a complete response of these entries. */
  lemma DecodedIff(ts: seq<Token>, entries: seq<Entry>)
    ensures Decoded(ts) == (None, Some(entries)) <==> exists open :: WellFormed(ts, open, entries)
  {
    if Decoded(ts) == (None, Some(entries)) {
      SuccessMeansComplete(ts);
    }
    if open :| WellFormed(ts, open, entries) {
      CompleteResponseDecodes(ts, open, entries);
    }
  }

  /** The collector is reset exactly when an array was opened right after "data"; before that the error says
      whether no "data" was reached, nothing readable followed it, or something else than an array did. */
  lemma FailureKinds(ts: seq<Token>, open: nat)
    ensures Decoded(ts).0 == Some(NoDataField) <==> forall o: nat :: !FirstData(ts, o)
    ensures FirstData(ts, open) ==>
              && (Decoded(ts).0 == Some(Malformed) <==> open == |ts| || ts[open] == Broken)
              && (Decoded(ts).0 == Some(NotAnArray) <==> open < |ts| && ts[open] != Broken && ts[open] != Delim('['))
              && (Decoded(ts).1.Some? <==> open < |ts| && ts[open] == Delim('['))
    ensures Decoded(ts).0 == Some(NoDataField) ==> Decoded(ts).1.None?
  {
    WalkIsFirstData(ts, 0);
    forall o: nat | FirstData(ts, o)
      ensures AfterData(ts, 0) == Some(o)
    {
      WalkFindsData(ts, o, 0);
    }
  }

  // ---------------------------------------------------------------- the code

  class Collector {
    var byPubkey: map<string, nat>
    var byIndex: map<nat, string>

    ghost function View(): Maps
      reads this
    {
      Maps(byPubkey, byIndex)
    }

    constructor ()
      ensures View() == EMPTY_MAPS
    {
      byPubkey, byIndex := map[], map[];
    }

    method Reset()
      modifies this
      ensures View() == EMPTY_MAPS
    {
      byPubkey, byIndex := map[], map[];
    }

    method Add(index: nat, pubkey: string)
      modifies this
      ensures View() == AddEntry(old(View()), Entry(index, pubkey))
    {
      var pk := ToLower(pubkey);
      byPubkey := byPubkey[pk := index];
      byIndex := byIndex[index := pk];
    }
  }

  /** The loop over the entries has read `done` and stands at `i`. */
  ghost predicate ReadSoFar(ts: seq<Token>, start: nat, i: nat, done: seq<Entry>) {
    var r := ReadEntries(ts, i);
    ReadEntries(ts, start) == r.(entries := done + r.entries)
  }

  lemma ReadStarts(ts: seq<Token>, start: nat)
    ensures ReadSoFar(ts, start, start, [])
  {
  }

  lemma ReadGoesOn(ts: seq<Token>, start: nat, i: nat, done: seq<Entry>)
    requires More(ts, i) && ReadSoFar(ts, start, i, done)
    ensures DecodeEntry(ts[i]).None? ==> ReadEntries(ts, start) == Read(done, i, false)
    ensures DecodeEntry(ts[i]).Some? ==> ReadSoFar(ts, start, i + 1, done + [DecodeEntry(ts[i]).value])
  {
    if DecodeEntry(ts[i]).Some? {
      var r := ReadEntries(ts, i + 1);
      assert done + ([DecodeEntry(ts[i]).value] + r.entries) == done + [DecodeEntry(ts[i]).value] + r.entries;
    } else {
      assert done + [] == done;
    }
  }

  lemma ReadEnds(ts: seq<Token>, start: nat, i: nat, done: seq<Entry>)
    requires !More(ts, i) && ReadSoFar(ts, start, i, done)
    ensures ReadEntries(ts, start) == Read(done, i, true)
  {
    assert done + [] == done;
  }

  lemma MapsOfOneMore(es: seq<Entry>, e: Entry)
    ensures MapsOf(es + [e]) == AddEntry(MapsOf(es), e)
  {
    assert (es + [e])[..|es|] == es;
  }

  /** decodeStateValidators: the collector is reset only once the entries are about to arrive. */
  method DecodeStateValidators(ts: seq<Token>, collector: Collector) returns (err: Option<Error>)
    modifies collector
    ensures err == Decoded(ts).0
    ensures collector.View() == if Decoded(ts).1.Some? then MapsOf(Decoded(ts).1.value) else old(collector.View())
  {
    var pos := 0;
    while true
      invariant 0 <= pos <= |ts| && AfterData(ts, 0) == AfterData(ts, pos)
      invariant collector.View() == old(collector.View())
      decreases |ts| - pos
    {
      if pos >= |ts| || ts[pos] == Broken {
        return Some(NoDataField);
      }
      pos := pos + 1;
      if ts[pos - 1] == Str("data") {
        break;
      }
    }
    if pos >= |ts| || ts[pos] == Broken {
      return Some(Malformed);
    }
    if ts[pos] != Delim('[') {
      return Some(NotAnArray);
    }
    pos := pos + 1;
    collector.Reset();
    ghost var start, done: seq<Entry> := pos, [];
    ReadStarts(ts, start);
    hide ReadSoFar, ReadEntries, MapsOf, AddEntry, DecodeEntry, AfterData;
    while More(ts, pos)
      invariant start <= pos <= |ts|
      invariant ReadSoFar(ts, start, pos, done)
      invariant collector.View() == MapsOf(done)
      decreases |ts| - pos
    {
      ReadGoesOn(ts, start, pos, done);
      var entry := DecodeEntry(ts[pos]);
      if entry.None? {
        return Some(BadEntry);
      }
      MapsOfOneMore(done, entry.value);
      collector.Add(entry.value.index, entry.value.pubkey);
      done := done + [entry.value];
      pos := pos + 1;
    }
    ReadEnds(ts, start, pos, done);
    if pos >= |ts| {
      return Some(Truncated);
    }
    err := None;
  }

  // ---------------------------------------------------------------- several nodes

  /** A beacon node that cannot stream, one that refuses the request, or one that answers. */
  datatype Node = CannotStream | Refuses | Answers(tokens: seq<Token>)

  predicate Succeeds(n: Node) {
    n.Answers? && Decoded(n.tokens).0.None?
  }

  /** The first node, in order, that delivers a complete response. */
  function FirstSuccess(nodes: seq<Node>, i: nat): (r: Option<nat>)
    ensures r.Some? ==> i <= r.value < |nodes| && Succeeds(nodes[r.value])
    ensures r.Some? ==> forall k | i <= k < r.value :: !Succeeds(nodes[k])
    ensures r.None? ==> forall k | i <= k < |nodes| :: !Succeeds(nodes[k])
    decreases |nodes| - i
  {
    if i >= |nodes| then None else if Succeeds(nodes[i]) then Some(i) else FirstSuccess(nodes, i + 1)
  }

  predicate NoneCanStream(nodes: seq<Node>) {
    forall i | 0 <= i < |nodes| :: nodes[i] == CannotStream
  }

  /** The entries of a successful response. */
  function EntriesOf(n: Node): seq<Entry>
    requires Succeeds(n)
  {
    Decoded(n.tokens).1.value
  }

  /** The entry at this position after swapping the last successful client to the front. */
  function SwapFront(best: nat, i: nat): nat {
    if i == 0 then best else if i == best then 0 else i
  }

  function ByLastResponse<T>(instances: seq<T>, best: nat): (r: seq<T>)
    requires best == 0 || best < |instances|
    ensures |r| == |instances| && forall i | 0 <= i < |r| :: r[i] == instances[SwapFront(best, i)]
    ensures r != [] ==> r[0] == instances[best] && r[best] == instances[0]
    ensures forall i | 0 < i < |r| && i != best :: r[i] == instances[i]
  {
    if best == 0 then instances else instances[0 := instances[best]][best := instances[0]]
  }

  /** beaconInstancesByLeastUsed: the same list backwards. */
  function ByLeastUsed<T>(instances: seq<T>, best: nat): (r: seq<T>)
    requires best == 0 || best < |instances|
    ensures |r| == |instances| && forall i | 0 <= i < |r| :: r[i] == instances[SwapFront(best, |instances| - 1 - i)]
  {
    var last := ByLastResponse(instances, best);
    seq(|instances|, i requires 0 <= i < |instances| => last[|instances| - 1 - i])
  }

  class MultiBeaconClient {
    var instances: seq<Node>
    var best: nat

    ghost predicate Valid()
      reads this
    {
      best == 0 || best < |instances|
    }

    /** A nil result leaves exactly one node's complete validator array in the collector, whatever the
        nodes tried before left in it. */
    method StreamStateValidators(collector: Collector) returns (err: Option<Error>)
      requires Valid()
      modifies this`best, collector
      ensures Valid()
      ensures var nodes := old(ByLeastUsed(instances, best));
              match FirstSuccess(nodes, 0)
              case Some(i) => err.None? && best == i && collector.View() == MapsOf(EntriesOf(nodes[i]))
              case None =>
                best == old(best) && err == Some(if NoneCanStream(nodes) then Unsupported else NodesUnavailable)
    {
      hide Decoded, AfterData, DecodeEntry, MapsOf, ByLeastUsed;
      var nodes := ByLeastUsed(instances, best);
      var supported := false;
      for i := 0 to |nodes|
        invariant best == old(best)
        invariant FirstSuccess(nodes, i) == FirstSuccess(nodes, 0)
        invariant supported <==> !NoneCanStream(nodes[..i])
      {
        assert nodes[..i + 1] == nodes[..i] + [nodes[i]];
        if nodes[i] == CannotStream {
          continue;
        }
        supported := true;
        if nodes[i] == Refuses {
          continue;
        }
        var nodeErr := DecodeStateValidators(nodes[i].tokens, collector);
        if nodeErr.Some? {
          continue;
        }
        SuccessMeansComplete(nodes[i].tokens);
        best := i;
        return None;
      }
      assert nodes[..|nodes|] == nodes;
      err := Some(if supported then NodesUnavailable else Unsupported);
    }
  }

  /** The recorded index is one of the list just tried, not of the configured list: the client that
      answered moves to the front exactly when it sits at that position in the configured list too. */
  lemma AnsweringClientIsFirstIff<T>(instances: seq<T>, best: nat, i: nat)
    requires best < |instances| && i < |instances|
    requires forall a, b | 0 <= a < b < |instances| :: instances[a] != instances[b]
    ensures ByLastResponse(instances, i)[0] == ByLeastUsed(instances, best)[i] <==>
              SwapFront(best, |instances| - 1 - i) == i
  {
  }

  /** With two healthy nodes the refresh asks the second and then records the first as the responder. */
  lemma WrongClientRecorded<T>(a: T, b: T)
    requires a != b
    ensures ByLeastUsed([a, b], 0)[0] == b && ByLastResponse([a, b], 0)[0] == a
  {
  }

  // ---------------------------------------------------------------- the refresh

  /** The buffered response of the fallback path: its entries, or an error. */
  datatype Buffered = Entries(entries: seq<Entry>) | FetchError

  lemma {:induction false} EmptyMapsIff(es: seq<Entry>)
    ensures MapsOf(es).byIndex == map[] <==> es == []
  {
    if es != [] {
      assert es[|es| - 1].index in MapsOf(es).byIndex;
    }
  }

  /** Which complete list of entries a refresh uses: the first node that delivers one, or the buffered
      response when streaming is off or unsupported everywhere. */
  function Source(nodes: seq<Node>, streamEnabled: bool, buffered: Buffered): Result<seq<Entry>, Error> {
    if streamEnabled && !NoneCanStream(nodes) then
      match FirstSuccess(nodes, 0)
      case Some(i) => Ok(EntriesOf(nodes[i]))
      case None => Err(NodesUnavailable)
    else if buffered.FetchError? then Err(NodesUnavailable)
    else Ok(buffered.entries)
  }

  /** With streaming on and some node that can stream, the first complete response is used and the buffered
      response never; otherwise the buffered response is. */
  lemma SourceIs(nodes: seq<Node>, streamEnabled: bool, buffered: Buffered)
    ensures streamEnabled && (exists k | 0 <= k < |nodes| :: nodes[k] != CannotStream) ==>
              match Source(nodes, streamEnabled, buffered)
              case Ok(entries) =>
                exists i | 0 <= i < |nodes| && nodes[i].Answers? ::
                  && Decoded(nodes[i].tokens) == (None, Some(entries))
                  && forall k | 0 <= k < i :: nodes[k].Answers? ==> Decoded(nodes[k].tokens).0.Some?
              case Err(e) =>
                && e == NodesUnavailable
                && forall k | 0 <= k < |nodes| && nodes[k].Answers? :: Decoded(nodes[k].tokens).0.Some?
    ensures !streamEnabled || (forall k | 0 <= k < |nodes| :: nodes[k] == CannotStream) ==>
              Source(nodes, streamEnabled, buffered) ==
              match buffered case Entries(entries) => Ok(entries) case FetchError => Err(NodesUnavailable)
  {
    hide Decoded;
    var first := FirstSuccess(nodes, 0);
    if first.Some? {
      assert Succeeds(nodes[first.value]);
      assert Decoded(nodes[first.value].tokens).1.Some? by { SuccessMeansComplete(nodes[first.value].tokens); }
    }
  }

  /** fetchKnownValidators: the maps of exactly one complete list, and never an empty set. */
  method FetchKnownValidators(client: MultiBeaconClient, streamEnabled: bool, buffered: Buffered)
    returns (r: Result<Maps, Error>)
    requires client.Valid()
    modifies client`best
    ensures r == match Source(old(ByLeastUsed(client.instances, client.best)), streamEnabled, buffered)
                 case Err(e) => Err(e)
                 case Ok(entries) => if entries == [] then Err(NoKnownValidators) else Ok(MapsOf(entries))
  {
    var collector := new Collector();
    var streamed := false;
    ghost var nodes := ByLeastUsed(client.instances, client.best);
    if streamEnabled {
      var err := client.StreamStateValidators(collector);
      if err.None? {
        streamed := true;
        EmptyMapsIff(EntriesOf(nodes[client.best]));
      } else if err.value != Unsupported {
        return Err(err.value);
      }
    }
    if !streamed {
      if buffered.FetchError? {
        return Err(NodesUnavailable);
      }
      AddBuffered(collector, buffered.entries);
      EmptyMapsIff(buffered.entries);
    }
    if collector.byIndex == map[] {
      return Err(NoKnownValidators);
    }
    r := Ok(Maps(collector.byPubkey, collector.byIndex));
  }

  /** The buffered path's loop over validators.Data. */
  method AddBuffered(collector: Collector, entries: seq<Entry>)
    modifies collector
    ensures collector.View() == MapsOf(entries)
  {
    collector.Reset();
    for i := 0 to |entries|
      invariant collector.View() == MapsOf(entries[..i])
    {
      assert entries[..i + 1][..i] == entries[..i];
      collector.Add(entries[i].index, entries[i].pubkey);
    }
    assert entries[..|entries|] == entries;
  }

  /** A streamed refresh over a complete response gives the same maps as the buffered one, however many
      nodes broke off before it. */
  lemma StreamedEqualsBuffered(nodes: seq<Node>, i: nat, open: nat, entries: seq<Entry>)
    requires i < |nodes| && nodes[i].Answers? && WellFormed(nodes[i].tokens, open, entries)
    requires forall k | 0 <= k < i :: !Succeeds(nodes[k])
    ensures Source(nodes, true, FetchError) == Ok(entries) == Source(nodes, false, Entries(entries))
  {
    CompleteResponseDecodes(nodes[i].tokens, open, entries);
    assert nodes[i] != CannotStream;
  }
}
