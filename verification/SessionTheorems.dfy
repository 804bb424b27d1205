/** The session cache is invisible to callers, and what the expiry rule guarantees over whole runs. */
module SessionTheorems {
  import opened Basics
  import opened Sessions

  datatype Event =
    | Login(id: Id, userid: Id, now: Time)
    | NewApiKey(id: Id, userid: Id, scopes: seq<string>, now: Time)
    | Validation(id: Id, now: Time)
    | Fetch(id: Id, now: Time)
    | EditScopes(userid: Id, id: Id, scopes: seq<string>, now: Time)
    | ChangeAdmin(userid: Id, admin: bool, now: Time)
    | Logout(id: Id, now: Time)
    | CleanCache(now: Time)
    | Purge(now: Time)
    | Register(userid: Id, user: User, now: Time)
    | RemoveUser(userid: Id, now: Time)

  datatype Output = Silent | Answer(ok: bool) | Judged(verdict: Verdict)

  /** The service as it is. What a bare `Fetch` returns is not observed here. */
  function CachedStep(cfg: Config, s: Service, e: Event): (Service, Output)
    requires s.db.Consistent()
  {
    match e
    case Login(id, userid, now) =>
      var (db, ok) := CreateSession(cfg, s.db, id, userid, now); (s.(db := db), Answer(ok))
    case NewApiKey(id, userid, scopes, now) =>
      var (db, ok) := CreateApiKey(s.db, id, userid, scopes, now); (s.(db := db), Answer(ok))
    case Validation(id, now) => var (s', v) := Validate(cfg, s, id, now); (s', Judged(v))
    case Fetch(id, now) => (Retrieve(s, id, now).0, Silent)
    case EditScopes(userid, id, scopes, now) => var (s', ok) := Edit(s, userid, id, scopes, now); (s', Answer(ok))
    case ChangeAdmin(userid, admin, _) => var (s', ok) := SetAdmin(s, userid, admin); (s', Answer(ok))
    case Logout(id, _) => (Revoke(s, id), Silent)
    case CleanCache(now) => (s.(cache := Cleaned(cfg, s.cache, now)), Silent)
    case Purge(now) => (s.(db := PurgeExpired(s.db, now)), Silent)
    case Register(userid, user, _) => (s.(db := AddUser(s.db, userid, user)), Silent)
    case RemoveUser(userid, _) => (s.(db := DeleteUser(s.db, userid)), Silent)
  }

  /** The same operations on the tables alone. */
  function DirectStep(cfg: Config, db: Db, e: Event): (Db, Output)
    requires db.Consistent()
  {
    match e
    case Login(id, userid, now) => var (db', ok) := CreateSession(cfg, db, id, userid, now); (db', Answer(ok))
    case NewApiKey(id, userid, scopes, now) => var (db', ok) := CreateApiKey(db, id, userid, scopes, now); (db', Answer(ok))
    case Validation(id, now) => var (db', v) := DirectValidate(cfg, db, id, now); (db', Judged(v))
    case Fetch(_, _) => (db, Silent)
    case EditScopes(userid, id, scopes, _) => var (db', ok) := DirectEdit(db, userid, id, scopes); (db', Answer(ok))
    case ChangeAdmin(userid, admin, _) =>
      if userid in db.users then (UpdateAdmin(db, userid, admin), Answer(true)) else (db, Answer(false))
    case Logout(id, _) => (db.(rows := db.rows - {id}), Silent)
    case CleanCache(_) => (db, Silent)
    case Purge(now) => (PurgeExpired(db, now), Silent)
    case Register(userid, user, _) => (AddUser(db, userid, user), Silent)
    case RemoveUser(userid, _) => (DeleteUser(db, userid), Silent)
  }

  // ----- Runs in time, with fresh ids -----

  /** The latest time seen, and the session ids handed out so far. */
  datatype Past = Past(clock: Time, issued: set<Id>)

  predicate Creates(e: Event) { e.Login? || e.NewApiKey? }

  predicate Proper(p: Past, e: Event) {
    p.clock <= e.now && (Creates(e) ==> e.id !in p.issued)
  }

  function Next(p: Past, e: Event): Past {
    Past(e.now, if Creates(e) then p.issued + {e.id} else p.issued)
  }

  predicate ProperRun(p: Past, es: seq<Event>)
    decreases es
  {
    es == [] || (Proper(p, es[0]) && ProperRun(Next(p, es[0]), es[1..]))
  }

  lemma DirectStepConsistent(cfg: Config, db: Db, e: Event)
    requires db.Consistent()
    ensures DirectStep(cfg, db, e).0.Consistent()
  {}

  // ----- The cache agrees with the tables -----

  /**
   * A cache entry is the current join of its row and user; or its row was purged, and then it has expired for
   * good.
   */
  ghost predicate Coherent(s: Service, p: Past) {
    && s.db.Consistent()
    && s.db.rows.Keys <= p.issued && s.cache.Keys <= p.issued
    && forall id :: id in s.cache ==>
         var row := s.cache[id].view.row;
         if id in s.db.rows then s.cache[id].view == s.db.ViewOf(id) else row.doesexpire && row.expire < p.clock
  }

  /** One operation: same effect on the tables, same answer, and the cache stays coherent. */
  lemma StepSimulates(cfg: Config, s: Service, p: Past, e: Event)
    requires Coherent(s, p) && Proper(p, e)
    ensures CachedStep(cfg, s, e).0.db == DirectStep(cfg, s.db, e).0
    ensures CachedStep(cfg, s, e).1 == DirectStep(cfg, s.db, e).1
    ensures Coherent(CachedStep(cfg, s, e).0, Next(p, e))
  {
    DirectStepConsistent(cfg, s.db, e);
    match e
    case Validation(id, now) => ValidateSimulates(cfg, s, p, id, now);
    case EditScopes(userid, id, scopes, now) => EditSimulates(s, p, userid, id, scopes, now);
    case ChangeAdmin(userid, admin, now) =>
    case _ =>
  }

  lemma ValidateSimulates(cfg: Config, s: Service, p: Past, id: Id, now: Time)
    requires Coherent(s, p) && p.clock <= now
    ensures var (s', v) := Validate(cfg, s, id, now);
      && (s'.db, v) == DirectValidate(cfg, s.db, id, now)
      && Coherent(s', Past(now, p.issued))
  {
    var (s1, found) := Retrieve(s, id, now);
    assert Coherent(s1, Past(now, p.issued));
    if found.Some? {
      var row := found.value.view.row;
      if id in s.db.rows {
        assert found.value.view == s.db.ViewOf(id);
        if !Expired(row, now) {
          assert SetExpire(s1.db, id, Renewed(cfg, row, now).expire).rows == s.db.rows[id := Renewed(cfg, row, now)]
              || !Due(row, now);
          assert s.db.rows[id := row] == s.db.rows;
        }
      } else {
        assert Expired(row, now);
        assert s.db.rows - {id} == s.db.rows;
      }
    }
  }

  lemma EditSimulates(s: Service, p: Past, userid: Id, id: Id, scopes: seq<string>, now: Time)
    requires Coherent(s, p) && p.clock <= now
    ensures var (s', ok) := Edit(s, userid, id, scopes, now);
      (s'.db, ok) == DirectEdit(s.db, userid, id, scopes) && Coherent(s', Past(now, p.issued))
  {
    var (s1, found) := Retrieve(s, id, now);
    assert Coherent(s1, Past(now, p.issued));
  }

  function CachedOutputs(cfg: Config, s: Service, p: Past, es: seq<Event>): seq<Output>
    requires Coherent(s, p) && ProperRun(p, es)
    decreases es
  {
    if es == [] then []
    else
      StepSimulates(cfg, s, p, es[0]);
      var (s', o) := CachedStep(cfg, s, es[0]);
      [o] + CachedOutputs(cfg, s', Next(p, es[0]), es[1..])
  }

  function DirectOutputs(cfg: Config, db: Db, es: seq<Event>): seq<Output>
    requires db.Consistent()
    decreases es
  {
    if es == [] then []
    else
      DirectStepConsistent(cfg, db, es[0]);
      var (db', o) := DirectStep(cfg, db, es[0]);
      [o] + DirectOutputs(cfg, db', es[1..])
  }

  lemma {:induction false} OutputsAgree(cfg: Config, s: Service, p: Past, es: seq<Event>)
    requires Coherent(s, p) && ProperRun(p, es)
    ensures CachedOutputs(cfg, s, p, es) == DirectOutputs(cfg, s.db, es)
    decreases es
  {
    if es != [] {
      StepSimulates(cfg, s, p, es[0]);
      OutputsAgree(cfg, CachedStep(cfg, s, es[0]).0, Next(p, es[0]), es[1..]);
    }
  }

  function CachedRun(cfg: Config, s: Service, p: Past, es: seq<Event>): (r: Service)
    requires Coherent(s, p) && ProperRun(p, es)
    ensures Coherent(r, PastAfter(p, es))
    decreases es
  {
    if es == [] then s
    else
      StepSimulates(cfg, s, p, es[0]);
      CachedRun(cfg, CachedStep(cfg, s, es[0]).0, Next(p, es[0]), es[1..])
  }

  function PastAfter(p: Past, es: seq<Event>): Past
    decreases es
  {
    if es == [] then p else PastAfter(Next(p, es[0]), es[1..])
  }

  /** The tables after a run of the cached service are those after the same run without a cache. */
  lemma {:induction false} CachedRunTables(cfg: Config, s: Service, p: Past, es: seq<Event>)
    requires Coherent(s, p) && ProperRun(p, es)
    ensures CachedRun(cfg, s, p, es).db == DirectRun(cfg, s.db, es)
    decreases es
  {
    if es != [] {
      StepSimulates(cfg, s, p, es[0]);
      CachedRunTables(cfg, CachedStep(cfg, s, es[0]).0, Next(p, es[0]), es[1..]);
    }
  }

  // ----- From a start with an empty cache -----

  /** The service starts on any tables whose session ids count as issued. */
  ghost predicate Begins(db: Db, p: Past) {
    db.Consistent() && db.rows.Keys <= p.issued
  }

  lemma EmptyCacheIsCoherent(db: Db, p: Past)
    requires Begins(db, p)
    ensures Coherent(Service(map[], db), p)
  {}

  /** Where a run leads that starts with an empty cache. */
  ghost function Reached(cfg: Config, db: Db, p: Past, es: seq<Event>): (s: Service)
    requires Begins(db, p) && ProperRun(p, es)
    ensures Coherent(s, PastAfter(p, es))
    ensures s.db == DirectRun(cfg, db, es)
  {
    EmptyCacheIsCoherent(db, p);
    CachedRunTables(cfg, Service(map[], db), p, es);
    CachedRun(cfg, Service(map[], db), p, es)
  }

  /**
   * Over any run of logins, validations, fetches, edits, admin changes, logouts, cache cleaning and purges, every
   * answer and every verdict (with type, scopes, expiry, user name and admin flag) is that of a service that
   * always reads the tables.
   */
  lemma CacheIsTransparent(cfg: Config, db: Db, p: Past, es: seq<Event>)
    requires Begins(db, p) && ProperRun(p, es)
    ensures Coherent(Service(map[], db), p)
    ensures CachedOutputs(cfg, Service(map[], db), p, es) == DirectOutputs(cfg, db, es)
  {
    EmptyCacheIsCoherent(db, p);
    OutputsAgree(cfg, Service(map[], db), p, es);
  }

  /** What the tables say of a session. */
  function Joined(db: Db, id: Id): Option<View>
    requires db.Consistent()
  {
    if id in db.rows then Some(db.ViewOf(id)) else None
  }

  /**
   * After any run, a bare fetch gives the current join of row and user, or their absence, exactly unless the entry
   * of a purged session is still cached; and such an entry is one that a validation refuses.
   */
  lemma FetchIsCurrentIff(cfg: Config, db: Db, p: Past, es: seq<Event>, id: Id, now: Time)
    requires Begins(db, p) && ProperRun(p, es) && PastAfter(p, es).clock <= now
    ensures
      var end := Reached(cfg, db, p, es);
      var fetched := Retrieve(end, id, now).1;
      && ((if fetched.Some? then Some(fetched.value.view) else None) == Joined(end.db, id)
          <==> !(id in end.cache && id !in end.db.rows))
      && (id in end.cache && id !in end.db.rows ==> Validate(cfg, end, id, now).1 == Rejected)
  {
    ValidateSimulates(cfg, Reached(cfg, db, p, es), PastAfter(p, es), id, now);
  }

  // ----- Sliding expiry over runs -----

  function DirectRun(cfg: Config, db: Db, es: seq<Event>): (r: Db)
    requires db.Consistent()
    ensures r.Consistent()
    decreases es
  {
    if es == [] then db
    else
      DirectStepConsistent(cfg, db, es[0]);
      DirectRun(cfg, DirectStep(cfg, db, es[0]).0, es[1..])
  }

  /** One operation never shortens a session that it keeps, and never brings an issued id back. */
  lemma StepNeverShortens(cfg: Config, db: Db, p: Past, e: Event, id: Id)
    requires db.Consistent() && Proper(p, e) && id in p.issued && id in DirectStep(cfg, db, e).0.rows
    ensures id in db.rows
    ensures DirectStep(cfg, db, e).0.rows[id].expire >= db.rows[id].expire
    ensures DirectStep(cfg, db, e).0.rows[id].doesexpire == db.rows[id].doesexpire
  {}

  /** Over a run, a session that is still there has been there all along, with an expiry no earlier than before. */
  lemma {:induction false} ExpiryNeverDecreases(cfg: Config, db: Db, p: Past, es: seq<Event>, id: Id)
    requires db.Consistent() && ProperRun(p, es) && id in p.issued && id in DirectRun(cfg, db, es).rows
    ensures id in db.rows && DirectRun(cfg, db, es).rows[id].expire >= db.rows[id].expire
    ensures DirectRun(cfg, db, es).rows[id].doesexpire == db.rows[id].doesexpire
    decreases es
  {
    if es != [] {
      DirectStepConsistent(cfg, db, es[0]);
      var db' := DirectStep(cfg, db, es[0]).0;
      ExpiryNeverDecreases(cfg, db', Next(p, es[0]), es[1..], id);
      StepNeverShortens(cfg, db, p, es[0], id);
    }
  }

  /** Through the cached service: once a session has been refused, after any run, it is refused for ever. */
  lemma RejectionIsPermanent(cfg: Config, db: Db, start: Past, before: seq<Event>, id: Id, now: Time,
                             es: seq<Event>, later: Time)
    requires Begins(db, start) && ProperRun(start, before)
    requires id in PastAfter(start, before).issued && PastAfter(start, before).clock <= now
    requires Validate(cfg, Reached(cfg, db, start, before), id, now).1 == Rejected
    requires
      var p := Past(now, PastAfter(start, before).issued);
      ProperRun(p, es) && PastAfter(p, es).clock <= later
    ensures
      var p := Past(now, PastAfter(start, before).issued);
      var s := Validate(cfg, Reached(cfg, db, start, before), id, now).0;
      Coherent(s, p) && Validate(cfg, CachedRun(cfg, s, p, es), id, later).1 == Rejected
  {
    var s := Reached(cfg, db, start, before);
    ValidateSimulates(cfg, s, PastAfter(start, before), id, now);
    var s', p' := Validate(cfg, s, id, now).0, Past(now, PastAfter(start, before).issued);
    var end := CachedRun(cfg, s', p', es);
    CachedRunTables(cfg, s', p', es);
    if id in DirectRun(cfg, s'.db, es).rows {
      ExpiryNeverDecreases(cfg, s'.db, p', es, id);
    }
    ValidateSimulates(cfg, end, PastAfter(p', es), id, later);
  }

  /** Each validation of `id` comes at most `gap` after the previous one (the first, after `last`). */
  predicate Prompt(es: seq<Event>, id: Id, last: Time, gap: Time)
    decreases es
  {
    es == [] ||
    (es[0] != Logout(id, es[0].now) &&
     if es[0] == Validation(id, es[0].now)
     then es[0].now <= last + gap && Prompt(es[1..], id, es[0].now, gap)
     else Prompt(es[1..], id, last, gap))
  }

  predicate AllAccepted(es: seq<Event>, outs: seq<Output>, id: Id)
    requires |es| == |outs|
  {
    forall i :: 0 <= i < |es| && es[i] == Validation(id, es[i].now) ==> outs[i].Judged? && outs[i].verdict.Accepted?
  }

  /** Alive until at least one gap after `last`; or that moment has passed without a validation. */
  predicate Safe(db: Db, id: Id, last: Time, gap: Time, clock: Time) {
    clock > last + gap || (id in db.rows && (db.rows[id].doesexpire ==> db.rows[id].expire >= last + gap))
  }

  lemma {:induction false} DirectOutputsLength(cfg: Config, db: Db, es: seq<Event>)
    requires db.Consistent()
    ensures |DirectOutputs(cfg, db, es)| == |es|
    decreases es
  {
    if es != [] {
      DirectStepConsistent(cfg, db, es[0]);
      DirectOutputsLength(cfg, DirectStep(cfg, db, es[0]).0, es[1..]);
    }
  }

  lemma StepKeepsSafe(cfg: Config, db: Db, p: Past, e: Event, id: Id, last: Time, gap: Time)
    requires db.Consistent() && Proper(p, e) && id in p.issued
    requires 0 <= gap <= Min(DAY, cfg.extension)
    requires Safe(db, id, last, gap, p.clock) && e != Logout(id, e.now)
    requires e == Validation(id, e.now) ==> e.now <= last + gap
    ensures
      var (db', o) := DirectStep(cfg, db, e);
      if e == Validation(id, e.now)
      then o.Judged? && o.verdict.Accepted? && Safe(db', id, e.now, gap, e.now)
      else Safe(db', id, last, gap, e.now)
  {}

  lemma {:induction false} PromptIsAccepted(cfg: Config, db: Db, p: Past, es: seq<Event>, id: Id, last: Time, gap: Time)
    requires db.Consistent() && ProperRun(p, es) && id in p.issued
    requires 0 <= gap <= Min(DAY, cfg.extension)
    requires Prompt(es, id, last, gap) && Safe(db, id, last, gap, p.clock)
    ensures |DirectOutputs(cfg, db, es)| == |es| && AllAccepted(es, DirectOutputs(cfg, db, es), id)
    decreases es
  {
    DirectOutputsLength(cfg, db, es);
    if es != [] {
      var e := es[0];
      DirectStepConsistent(cfg, db, e);
      var (db', o) := DirectStep(cfg, db, e);
      StepKeepsSafe(cfg, db, p, e, id, last, gap);
      var last' := if e == Validation(id, e.now) then e.now else last;
      PromptIsAccepted(cfg, db', Next(p, e), es[1..], id, last', gap);
      var outs, rest := DirectOutputs(cfg, db, es), DirectOutputs(cfg, db', es[1..]);
      assert outs == [o] + rest;
      forall i | 0 <= i < |es| && es[i] == Validation(id, es[i].now)
        ensures outs[i].Judged? && outs[i].verdict.Accepted?
      {
        if i > 0 { assert es[1..][i - 1] == es[i] && outs[i] == rest[i - 1]; }
      }
    }
  }

  /**
   * A session that is used at gaps of at most a day, and at most the configured life time, is never refused:
   * through the cached service, after any run and a login, whatever else happens (except its own logout).
   */
  lemma ActiveSessionIsNeverRefused(cfg: Config, db: Db, start: Past, before: seq<Event>, login: Event,
                                    es: seq<Event>, gap: Time)
    requires Begins(db, start) && ProperRun(start, before)
    requires login.Login? && Proper(PastAfter(start, before), login)
    requires login.userid in Reached(cfg, db, start, before).db.users
    requires ProperRun(Next(PastAfter(start, before), login), es)
    requires 0 <= gap <= Min(DAY, cfg.extension) && Prompt(es, login.id, login.now, gap)
    ensures
      var p := Next(PastAfter(start, before), login);
      var s := CachedStep(cfg, Reached(cfg, db, start, before), login).0;
      Coherent(s, p) &&
      var outs := CachedOutputs(cfg, s, p, es);
      |outs| == |es| && AllAccepted(es, outs, login.id)
  {
    var s, p := Reached(cfg, db, start, before), PastAfter(start, before);
    StepSimulates(cfg, s, p, login);
    var s' := CachedStep(cfg, s, login).0;
    OutputsAgree(cfg, s', Next(p, login), es);
    PromptIsAccepted(cfg, s'.db, Next(p, login), es, login.id, login.now, gap);
  }

  /** The time of the last login or validation of `id` in a run, or `last` if there is none. */
  function LastTouch(es: seq<Event>, id: Id, last: Time): Time
    decreases es
  {
    if es == [] then last
    else LastTouch(es[1..], id, if (es[0].Validation? || Creates(es[0])) && es[0].id == id then es[0].now else last)
  }

  /** How far ahead a session can reach. */
  ghost predicate Capped(cfg: Config, db: Db, id: Id, last: Time) {
    id in db.rows && db.rows[id].doesexpire ==> db.rows[id].expire <= last + DAY + cfg.extension
  }

  lemma StepKeepsCapped(cfg: Config, db: Db, p: Past, e: Event, id: Id, last: Time)
    requires db.Consistent() && Proper(p, e) && Capped(cfg, db, id, last) && last <= p.clock
    requires id in db.rows ==> id in p.issued
    ensures Capped(cfg, DirectStep(cfg, db, e).0, id, LastTouch([e], id, last))
    ensures id in DirectStep(cfg, db, e).0.rows ==> id in Next(p, e).issued
    ensures LastTouch([e], id, last) <= e.now
  {
    assert [e][1..] == [];
  }

  lemma {:induction false} RunKeepsCapped(cfg: Config, db: Db, p: Past, es: seq<Event>, id: Id, last: Time)
    requires db.Consistent() && ProperRun(p, es) && Capped(cfg, db, id, last) && last <= p.clock
    requires id in db.rows ==> id in p.issued
    ensures Capped(cfg, DirectRun(cfg, db, es), id, LastTouch(es, id, last))
    decreases es
  {
    if es != [] {
      DirectStepConsistent(cfg, db, es[0]);
      StepKeepsCapped(cfg, db, p, es[0], id, last);
      assert [es[0]][1..] == [];
      RunKeepsCapped(cfg, DirectStep(cfg, db, es[0]).0, Next(p, es[0]), es[1..], id, LastTouch([es[0]], id, last));
    }
  }

  /**
   * A session (not an API key) left unused for more than a day plus the configured life time is refused by the
   * cached service: after any run, counted from its last login or validation, or from `start` if the run has none and
   * the tables it began with let the session reach no further from there.
   */
  lemma IdleSessionIsRefused(cfg: Config, db: Db, p: Past, es: seq<Event>, id: Id, start: Time, now: Time)
    requires Begins(db, p) && ProperRun(p, es) && PastAfter(p, es).clock <= now
    requires Capped(cfg, db, id, start) && start <= p.clock
    requires now > LastTouch(es, id, start) + DAY + cfg.extension
    ensures
      var s := Reached(cfg, db, p, es);
      (id in s.db.rows ==> s.db.rows[id].doesexpire) ==> Validate(cfg, s, id, now).1 == Rejected
  {
    RunKeepsCapped(cfg, db, p, es, id, start);
    ValidateSimulates(cfg, Reached(cfg, db, p, es), PastAfter(p, es), id, now);
  }
}
