/** Validator registrations: the screening loop of the registration handler, the three places an
    accepted registration is saved to (local cache, database, Redis), and the history the database keeps.
 */
module Registrations {
  import opened Common

  type Pubkey = string

  datatype Message = Message(feeRecipient: string, gasLimit: nat, timestamp: int)

  datatype Registration = Registration(pubkey: Pubkey, message: Message, signature: string)

  datatype Row = Row(message: Message, signature: string)

  // ---------------------------------------------------------------- the table

  function Rows(table: map<Pubkey, seq<Row>>, pk: Pubkey): seq<Row> {
    if pk in table then table[pk] else []
  }

  /** The row with the highest timestamp (DISTINCT ON ... ORDER BY timestamp DESC). */
  function Latest(rows: seq<Row>): (r: Option<Row>)
    ensures r.None? <==> rows == []
    ensures r.Some? ==> r.value in rows
    ensures r.Some? ==> forall i | 0 <= i < |rows| :: rows[i].message.timestamp <= r.value.message.timestamp
  {
    if rows == [] then None else
      var before, row := Latest(rows[..|rows| - 1]), rows[|rows| - 1];
      if before.Some? && before.value.message.timestamp >= row.message.timestamp then before else Some(row)
  }

  predicate SameFields(a: Message, b: Message) {
    a.feeRecipient == b.feeRecipient && a.gasLimit == b.gasLimit
  }

  /** The WHERE NOT EXISTS clause of the insert. */
  predicate Inserts(latest: Option<Row>, m: Message) {
    latest.None? || !(m.timestamp <= latest.value.message.timestamp || SameFields(m, latest.value.message))
  }

  function Saved(table: map<Pubkey, seq<Row>>, r: Registration): map<Pubkey, seq<Row>> {
    var rows := Rows(table, r.pubkey);
    if Inserts(Latest(rows), r.message) then table[r.pubkey := rows + [Row(r.message, r.signature)]] else table
  }

  /** Strictly newer, and different from the row before, all the way. */
  ghost predicate History(rows: seq<Row>) {
    && (forall i, j | 0 <= i < j < |rows| :: rows[i].message.timestamp < rows[j].message.timestamp)
    && (forall i | 0 <= i < |rows| - 1 :: !SameFields(rows[i].message, rows[i + 1].message))
  }

  lemma {:induction false} LatestIsLast(rows: seq<Row>)
    requires History(rows) && rows != []
    ensures Latest(rows) == Some(rows[|rows| - 1])
  {
  }

  lemma SaveKeepsHistory(table: map<Pubkey, seq<Row>>, r: Registration, pk: Pubkey)
    requires History(Rows(table, pk))
    ensures History(Rows(Saved(table, r), pk))
  {
    var rows := Rows(table, pk);
    if pk == r.pubkey && Inserts(Latest(rows), r.message) {
      if rows != [] {
        LatestIsLast(rows);
      }
      assert History(rows + [Row(r.message, r.signature)]);
    }
  }

  function SaveAll(rs: seq<Registration>): map<Pubkey, seq<Row>> {
    if rs == [] then map[] else Saved(SaveAll(rs[..|rs| - 1]), rs[|rs| - 1])
  }

  /** For any order of saves, each pubkey's rows have strictly increasing timestamps, and adjacent rows
      differ in fee recipient or gas limit. */
  lemma {:induction false} AnyOrderOfSavesIsAHistory(rs: seq<Registration>, pk: Pubkey)
    ensures History(Rows(SaveAll(rs), pk))
  {
    if rs != [] {
      AnyOrderOfSavesIsAHistory(rs[..|rs| - 1], pk);
      SaveKeepsHistory(SaveAll(rs[..|rs| - 1]), rs[|rs| - 1], pk);
    }
  }

  // ---------------------------------------------------------------- cache, Redis and table

  datatype Store = Store(local: map<Pubkey, Message>, redis: map<Pubkey, Message>, table: map<Pubkey, seq<Row>>)

  const EMPTY_STORE := Store(map[], map[], map[])

  /** What GetCachedValidatorRegistration finds: the local cache first, then Redis if it can be reached. */
  function Cached(s: Store, redisUp: bool, pk: Pubkey): Option<Message> {
    if pk in s.local then Some(s.local[pk])
    else if redisUp && pk in s.redis then Some(s.redis[pk]) else None
  }

  function LatestMessage(s: Store, pk: Pubkey): Option<Message> {
    var row := Latest(Rows(s.table, pk));
    if row.None? then None else Some(row.value.message)
  }

  /** SaveValidatorRegistration with both writes succeeding. */
  function Stored(s: Store, r: Registration): Store {
    Store(s.local[r.pubkey := r.message], s.redis[r.pubkey := r.message], Saved(s.table, r))
  }

  /** Local cache (where it has an entry), Redis and the latest row tell the same. */
  ghost predicate Agree(s: Store, pk: Pubkey) {
    && (if pk in s.redis then LatestMessage(s, pk) == Some(s.redis[pk]) else LatestMessage(s, pk) == None)
    && (pk in s.local ==> pk in s.redis && s.local[pk] == s.redis[pk])
  }

  /** Saving leaves the three in agreement exactly when the row is inserted, or repeats the latest one. */
  lemma SaveAgreesIff(s: Store, r: Registration)
    ensures Agree(Stored(s, r), r.pubkey) <==>
              Inserts(Latest(Rows(s.table, r.pubkey)), r.message) || LatestMessage(s, r.pubkey) == Some(r.message)
  {
  }

  lemma SaveLeavesOthersAgreeing(s: Store, r: Registration, pk: Pubkey)
    requires pk != r.pubkey
    ensures Agree(Stored(s, r), pk) <==> Agree(s, pk)
  {
  }

  /** A list of registrations saved one after the other, as the processors do with an accepted request. */
  function StoreAll(s: Store, rs: seq<Registration>): Store {
    if rs == [] then s else Stored(StoreAll(s, rs[..|rs| - 1]), rs[|rs| - 1])
  }

  /** Whatever list is saved into whatever store: for a validator in the list the three agree afterwards
      exactly when its last registration was inserted, or repeats what was then the latest row. */
  lemma {:induction false} SavedListAgreesIff(s: Store, rs: seq<Registration>, last: nat)
    requires last < |rs| && forall k | last < k < |rs| :: rs[k].pubkey != rs[last].pubkey
    ensures var before, r := StoreAll(s, rs[..last]), rs[last];
            Agree(StoreAll(s, rs), r.pubkey) <==>
            Inserts(Latest(Rows(before.table, r.pubkey)), r.message)
            || LatestMessage(before, r.pubkey) == Some(r.message)
  {
    var n := |rs| - 1;
    hide Agree, Stored, Inserts, LatestMessage, Latest;
    if last == n {
      SaveAgreesIff(StoreAll(s, rs[..n]), rs[n]);
    } else {
      assert rs[..n][..last] == rs[..last];
      SavedListAgreesIff(s, rs[..n], last);
      SaveLeavesOthersAgreeing(StoreAll(s, rs[..n]), rs[n], rs[last].pubkey);
    }
  }

  /** And for a validator that is not in the list, exactly when they agreed before. */
  lemma {:induction false} SavedListLeavesOthers(s: Store, rs: seq<Registration>, pk: Pubkey)
    requires forall k | 0 <= k < |rs| :: rs[k].pubkey != pk
    ensures Agree(StoreAll(s, rs), pk) <==> Agree(s, pk)
  {
    hide Agree, Stored;
    if rs != [] {
      SavedListLeavesOthers(s, rs[..|rs| - 1], pk);
      SaveLeavesOthersAgreeing(StoreAll(s, rs[..|rs| - 1]), rs[|rs| - 1], pk);
    }
  }

  // ---------------------------------------------------------------- screening

  datatype UserError = TimestampTooEarly | TimestampTooFarInFuture | FeeRecipientNotAllowed | UnknownValidator

  /** Genesis time, current time, the fee-recipient policy and the known validators. */
  datatype Env = Env(genesisTime: int, now: int, allowed: (Pubkey, string) -> bool, known: set<Pubkey>)

  /** A cached registration is replaced only by a newer one that changes something. */
  predicate IsNews(cached: Option<Message>, m: Message) {
    cached.None? || (!SameFields(cached.value, m) && m.timestamp > cached.value.timestamp)
  }

  function Verdict(env: Env, cached: Option<Message>, r: Registration): Result<bool, UserError> {
    if r.message.timestamp < env.genesisTime then Err(TimestampTooEarly)
    else if r.message.timestamp > env.now + 10 then Err(TimestampTooFarInFuture)
    else if !env.allowed(r.pubkey, r.message.feeRecipient) then Err(FeeRecipientNotAllowed)
    else if !IsNews(cached, r.message) then Ok(false)
    else if r.pubkey !in env.known then Err(UnknownValidator)
    else Ok(true)
  }

  /** The registrations of a request that are new, or the first error. */
  function Screen(env: Env, s: Store, redisUp: bool, regs: seq<Registration>): Result<seq<Registration>, UserError> {
    if regs == [] then Ok([]) else
      var before := Screen(env, s, redisUp, regs[..|regs| - 1]);
      var r := regs[|regs| - 1];
      if before.Err? then before else
        match Verdict(env, Cached(s, redisUp, r.pubkey), r)
        case Err(e) => Err(e)
        case Ok(news) => Ok(if news then before.value + [r] else before.value)
  }

  // ---------------------------------------------------------------- what screening accepts

  /** The registration last seen for this validator: the local cache's, else what Redis holds if it answers. */
  ghost predicate LastSeen(s: Store, redisUp: bool, pk: Pubkey, m: Message) {
    if pk in s.local then m == s.local[pk] else redisUp && pk in s.redis && m == s.redis[pk]
  }

  /** Nothing was seen before, or this is newer and changes fee recipient or gas limit. */
  ghost predicate IsFresh(s: Store, redisUp: bool, r: Registration) {
    forall m | LastSeen(s, redisUp, r.pubkey, m) ::
      && r.message.timestamp > m.timestamp
      && (r.message.feeRecipient != m.feeRecipient || r.message.gasLimit != m.gasLimit)
  }

  ghost predicate InTime(env: Env, r: Registration) {
    env.genesisTime <= r.message.timestamp <= env.now + 10
  }

  ghost predicate Passes(env: Env, s: Store, redisUp: bool, r: Registration) {
    && InTime(env, r) && env.allowed(r.pubkey, r.message.feeRecipient)
    && (IsFresh(s, redisUp, r) ==> r.pubkey in env.known)
  }

  /** The error of a registration that does not pass: the first condition that fails. */
  ghost predicate RefusedWith(env: Env, r: Registration, e: UserError) {
    if r.message.timestamp < env.genesisTime then e == TimestampTooEarly
    else if r.message.timestamp > env.now + 10 then e == TimestampTooFarInFuture
    else if !env.allowed(r.pubkey, r.message.feeRecipient) then e == FeeRecipientNotAllowed
    else e == UnknownValidator
  }

  /** The fresh registrations of a request, in their order. */
  ghost function FreshOnes(s: Store, redisUp: bool, regs: seq<Registration>): seq<Registration> {
    if regs == [] then []
    else (if IsFresh(s, redisUp, regs[0]) then [regs[0]] else []) + FreshOnes(s, redisUp, regs[1..])
  }

  lemma FreshIff(s: Store, redisUp: bool, r: Registration)
    ensures IsNews(Cached(s, redisUp, r.pubkey), r.message) <==> IsFresh(s, redisUp, r)
  {
    var cached := Cached(s, redisUp, r.pubkey);
    assert cached.Some? ==> LastSeen(s, redisUp, r.pubkey, cached.value);
  }

  lemma VerdictIs(env: Env, s: Store, redisUp: bool, r: Registration)
    ensures match Verdict(env, Cached(s, redisUp, r.pubkey), r)
            case Ok(news) => Passes(env, s, redisUp, r) && (news <==> IsFresh(s, redisUp, r))
            case Err(e) => !Passes(env, s, redisUp, r) && RefusedWith(env, r, e)
  {
    FreshIff(s, redisUp, r);
    hide IsFresh, IsNews, Cached;
  }

  lemma {:induction false} FreshAppend(s: Store, redisUp: bool, regs: seq<Registration>, r: Registration)
    ensures FreshOnes(s, redisUp, regs + [r]) ==
            FreshOnes(s, redisUp, regs) + if IsFresh(s, redisUp, r) then [r] else []
  {
    hide IsFresh;
    if regs == [] {
      assert regs + [r] == [r] && [r][1..] == [];
    } else {
      assert (regs + [r])[1..] == regs[1..] + [r];
      FreshAppend(s, redisUp, regs[1..], r);
    }
  }

  ghost predicate AllPass(env: Env, s: Store, redisUp: bool, regs: seq<Registration>) {
    forall i | 0 <= i < |regs| :: Passes(env, s, redisUp, regs[i])
  }

  /** Registration `i` is the first that does not pass, and this is its error. */
  ghost predicate FirstRefused(env: Env, s: Store, redisUp: bool, regs: seq<Registration>, i: nat, e: UserError) {
    && i < |regs| && AllPass(env, s, redisUp, regs[..i])
    && !Passes(env, s, redisUp, regs[i]) && RefusedWith(env, regs[i], e)
  }

  ghost predicate Refused(env: Env, s: Store, redisUp: bool, regs: seq<Registration>, e: UserError) {
    exists i :: FirstRefused(env, s, redisUp, regs, i, e)
  }

  lemma RefusedStays(env: Env, s: Store, redisUp: bool, regs: seq<Registration>, r: Registration, i: nat, e: UserError)
    requires FirstRefused(env, s, redisUp, regs, i, e)
    ensures FirstRefused(env, s, redisUp, regs + [r], i, e)
  {
    hide Passes, RefusedWith;
    assert (regs + [r])[..i] == regs[..i];
  }

  /** One more registration: the error stays, or the verdict on it decides. */
  lemma ScreenAppend(env: Env, s: Store, redisUp: bool, regs: seq<Registration>, r: Registration)
    ensures var before, after := Screen(env, s, redisUp, regs), Screen(env, s, redisUp, regs + [r]);
            if before.Err? then after == before
            else if after.Err? then !Passes(env, s, redisUp, r) && RefusedWith(env, r, after.error)
            else
              && Passes(env, s, redisUp, r)
              && after.value == before.value + if IsFresh(s, redisUp, r) then [r] else []
  {
    VerdictIs(env, s, redisUp, r);
    hide Verdict, Passes, RefusedWith, IsFresh;
    assert (regs + [r])[..|regs|] == regs;
  }

  /** A request is accepted exactly when every registration in it passes, and then yields the fresh ones in
      their order; otherwise the error is that of the first that does not pass. */
  lemma {:induction false} ScreeningIs(env: Env, s: Store, redisUp: bool, regs: seq<Registration>)
    ensures match Screen(env, s, redisUp, regs)
            case Ok(news) => AllPass(env, s, redisUp, regs) && news == FreshOnes(s, redisUp, regs)
            case Err(e) => Refused(env, s, redisUp, regs, e)
  {
    hide Passes, RefusedWith, IsFresh;
    if regs != [] {
      var n := |regs| - 1;
      var before, r := regs[..n], regs[n];
      assert regs == before + [r];
      ScreeningIs(env, s, redisUp, before);
      ScreenAppend(env, s, redisUp, before, r);
      FreshAppend(s, redisUp, before, r);
      hide Screen, FreshOnes;
      if Screen(env, s, redisUp, before).Err? {
        var e := Screen(env, s, redisUp, before).error;
        var i :| FirstRefused(env, s, redisUp, before, i, e);
        RefusedStays(env, s, redisUp, before, r, i, e);
      } else if Screen(env, s, redisUp, regs).Err? {
        assert FirstRefused(env, s, redisUp, regs, n, Screen(env, s, redisUp, regs).error);
      }
    }
  }

  // ---------------------------------------------------------------- checked and saved one by one

  /** One registration checked and, if it is news, saved before the next is checked. */
  function CheckAndSave(env: Env, s: Store, r: Registration): Store {
    if Verdict(env, Cached(s, true, r.pubkey), r) == Ok(true) then Stored(s, r) else s
  }

  lemma CheckAndSaveKeepsAgreement(env: Env, s: Store, r: Registration, pk: Pubkey)
    requires Agree(s, pk)
    ensures Agree(CheckAndSave(env, s, r), pk)
  {
    if Verdict(env, Cached(s, true, r.pubkey), r) == Ok(true) {
      if pk == r.pubkey {
        SaveAgreesIff(s, r);
      } else {
        SaveLeavesOthersAgreeing(s, r, pk);
      }
    }
  }

  function CheckAndSaveAll(envs: seq<Env>, regs: seq<Registration>): Store
    requires |envs| == |regs|
  {
    if regs == [] then EMPTY_STORE
    else CheckAndSave(envs[|regs| - 1], CheckAndSaveAll(envs[..|regs| - 1], regs[..|regs| - 1]), regs[|regs| - 1])
  }

  /** If each accepted registration is saved before the next check, cache, Redis and latest row agree. */
  lemma {:induction false} SequentialRegistrationsAgree(envs: seq<Env>, regs: seq<Registration>, pk: Pubkey)
    requires |envs| == |regs|
    ensures Agree(CheckAndSaveAll(envs, regs), pk)
  {
    if regs != [] {
      var n := |regs| - 1;
      SequentialRegistrationsAgree(envs[..n], regs[..n], pk);
      CheckAndSaveKeepsAgreement(envs[n], CheckAndSaveAll(envs[..n], regs[..n]), regs[n], pk);
    }
  }

  /** A request's registrations are all screened before any is saved. */
  lemma ScreenPair(env: Env, s: Store, a: Registration, b: Registration)
    requires Verdict(env, Cached(s, true, a.pubkey), a) == Ok(true)
    requires Verdict(env, Cached(s, true, b.pubkey), b) == Ok(true)
    ensures Screen(env, s, true, [a, b]) == Ok([a, b])
  {
    assert [a, b][..1] == [a] && [a][..0] == [];
    assert [] + [a] == [a] && [a] + [b] == [a, b];
    assert Screen(env, s, true, [a]) == Ok([a]);
  }

  /** So whenever a request holds two different new registrations of one validator, the later one in the
      request being no newer, the stale one ends up in the cache and in Redis while the table keeps the other. */
  lemma BatchBreaksAgreement(env: Env, s: Store, newer: Registration, older: Registration)
    requires Agree(s, newer.pubkey) && newer.pubkey == older.pubkey
    requires Verdict(env, Cached(s, true, newer.pubkey), newer) == Ok(true)
    requires Verdict(env, Cached(s, true, older.pubkey), older) == Ok(true)
    requires older.message.timestamp <= newer.message.timestamp && older.message != newer.message
    ensures Screen(env, s, true, [newer, older]) == Ok([newer, older])
    ensures var s' := Stored(Stored(s, newer), older);
            && s'.local[newer.pubkey] == s'.redis[newer.pubkey] == older.message
            && LatestMessage(s', newer.pubkey) == Some(newer.message) && !Agree(s', newer.pubkey)
  {
    ScreenPair(env, s, newer, older);
    hide Screen;
    var s1 := Stored(s, newer);
    assert LatestMessage(s1, newer.pubkey) == Some(newer.message) by {
      SaveAgreesIff(s, newer);
    }
    SaveAgreesIff(s1, older);
    hide Latest, Verdict;
  }

  // ---------------------------------------------------------------- the code

  class Datastore {
    var local: map<Pubkey, Message>
    var redis: map<Pubkey, Message>
    var table: map<Pubkey, seq<Row>>

    ghost function View(): Store
      reads this
    {
      Store(local, redis, table)
    }

    /** A registration found only in Redis is copied into the local cache; what is found does not change. */
    method GetCachedValidatorRegistration(pk: Pubkey, redisUp: bool) returns (r: Option<Message>)
      modifies this`local
      ensures r == old(Cached(View(), redisUp, pk))
      ensures local == if r.Some? then old(local)[pk := r.value] else old(local)
      ensures redisUp ==> forall x :: Cached(View(), true, x) == old(Cached(View(), true, x))
      ensures !redisUp ==> local == old(local)
    {
      if pk in local {
        assert local[pk := local[pk]] == local;
        return Some(local[pk]);
      }
      if !redisUp || pk !in redis {
        return None;
      }
      r := Some(redis[pk]);
      local := local[pk := redis[pk]];
    }

    /** The local cache is written first; a failed database write leaves Redis untouched. */
    method SaveValidatorRegistration(r: Registration, dbUp: bool, redisUp: bool) returns (ok: bool)
      modifies this
      ensures ok <==> dbUp && redisUp
      ensures ok ==> View() == Stored(old(View()), r)
      ensures local == old(local)[r.pubkey := r.message]
      ensures table == if dbUp then Saved(old(table), r) else old(table)
      ensures redis == if dbUp && redisUp then old(redis)[r.pubkey := r.message] else old(redis)
    {
      local := local[r.pubkey := r.message];
      if !dbUp {
        return false;
      }
      var rows := Rows(table, r.pubkey);
      var latest := Latest(rows);
      var m := r.message;
      if latest.None? || !(m.timestamp <= latest.value.message.timestamp || SameFields(m, latest.value.message)) {
        table := table[r.pubkey := rows + [Row(r.message, r.signature)]];
      }
      if !redisUp {
        return false;
      }
      redis := redis[r.pubkey := r.message];
      ok := true;
    }

    /** The screening loop of the registration handlers; nothing is saved while it runs. */
    method ProcessRegistrations(env: Env, regs: seq<Registration>, redisUp: bool)
      returns (r: Result<seq<Registration>, UserError>)
      modifies this`local
      ensures r == old(Screen(env, View(), redisUp, regs))
      ensures redisUp ==> forall x :: Cached(View(), true, x) == old(Cached(View(), true, x))
    {
      var newRegs: seq<Registration> := [];
      assert Screen(env, View(), redisUp, []) == Ok([]);
      hide Screen;
      for i := 0 to |regs|
        invariant old(Screen(env, View(), redisUp, regs[..i])) == Ok(newRegs)
        invariant forall x :: Cached(View(), redisUp, x) == old(Cached(View(), redisUp, x))
      {
        ScreenOneMore(env, old(View()), redisUp, regs, i);
        var reg := regs[i];
        var verdict := Ok(true);
        if reg.message.timestamp < env.genesisTime {
          verdict := Err(TimestampTooEarly);
        } else if reg.message.timestamp > env.now + 10 {
          verdict := Err(TimestampTooFarInFuture);
        } else if !env.allowed(reg.pubkey, reg.message.feeRecipient) {
          verdict := Err(FeeRecipientNotAllowed);
        }
        if verdict.Err? {
          ErrorStops(env, old(View()), redisUp, regs, i + 1);
          return Err(verdict.error);
        }
        var cached := GetCachedValidatorRegistration(reg.pubkey, redisUp);
        if cached.Some? && (SameFields(cached.value, reg.message) || reg.message.timestamp <= cached.value.timestamp) {
          continue;
        }
        if reg.pubkey !in env.known {
          ErrorStops(env, old(View()), redisUp, regs, i + 1);
          return Err(UnknownValidator);
        }
        newRegs := newRegs + [reg];
      }
      assert regs[..|regs|] == regs;
      r := Ok(newRegs);
    }
  }

  /** The screening of one more registration. */
  lemma ScreenOneMore(env: Env, s: Store, redisUp: bool, regs: seq<Registration>, i: nat)
    requires i < |regs| && Screen(env, s, redisUp, regs[..i]).Ok?
    ensures var done, r := Screen(env, s, redisUp, regs[..i]).value, regs[i];
            Screen(env, s, redisUp, regs[..i + 1]) ==
            match Verdict(env, Cached(s, redisUp, r.pubkey), r)
            case Err(e) => Err(e)
            case Ok(news) => Ok(if news then done + [r] else done)
  {
    hide Verdict, Cached;
    assert regs[..i + 1][..i] == regs[..i];
  }

  /** An error in a prefix is the outcome of the whole request. */
  lemma {:induction false} ErrorStops(env: Env, s: Store, redisUp: bool, regs: seq<Registration>, k: nat)
    requires k <= |regs|
    ensures Screen(env, s, redisUp, regs[..k]).Err? ==>
              Screen(env, s, redisUp, regs) == Screen(env, s, redisUp, regs[..k])
  {
    if k < |regs| {
      assert regs[..|regs| - 1][..k] == regs[..k];
      ErrorStops(env, s, redisUp, regs[..|regs| - 1], k);
    } else {
      assert regs[..k] == regs;
    }
  }
}
