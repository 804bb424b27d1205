/**
 * What the operations on sessions give their callers, stated without the functions that carry them out: whose view a
 * validation returns, when an admin change or an edit of scopes takes effect, how long keys live and entries stay.
 */
module SessionEffects {
  import opened Basics
  import opened Sessions
  import opened SessionTheorems

  // ----- What a validation shows -----

  /**
   * After any run, the view that a validation accepts is the session's row, with its user's name and admin flag as
   * the tables have them.
   */
  lemma AcceptedViewIsCurrent(cfg: Config, db: Db, p: Past, es: seq<Event>, id: Id, now: Time)
    requires Begins(db, p) && ProperRun(p, es) && PastAfter(p, es).clock <= now
    ensures
      var s := Reached(cfg, db, p, es);
      var (s', verdict) := Validate(cfg, s, id, now);
      verdict.Accepted? ==>
        && id in s.db.rows && id in s'.db.rows && verdict.view.row == s'.db.rows[id]
        && s'.db.rows[id] == s.db.rows[id].(expire := s'.db.rows[id].expire)
        && var user := s.db.users[s.db.rows[id].userid];
        verdict.view.username == user.username && verdict.view.isadmin == user.isadmin
  {
    ValidateSimulates(cfg, Reached(cfg, db, p, es), PastAfter(p, es), id, now);
  }

  // ----- Facts about the tables that later operations keep -----

  /** If each harmless operation keeps a fact about the tables, so does every run of harmless operations. */
  lemma {:induction false} DirectRunKeeps(cfg: Config, db: Db, p: Past, es: seq<Event>,
                                          fact: Db -> bool, harmless: Event -> bool)
    requires db.Consistent() && ProperRun(p, es) && fact(db)
    requires forall e :: e in es ==> harmless(e)
    requires forall d: Db, q: Past, e: Event ::
               d.Consistent() && p.issued <= q.issued && Proper(q, e) && harmless(e) && fact(d)
               ==> fact(DirectStep(cfg, d, e).0)
    ensures fact(DirectRun(cfg, db, es))
    decreases es
  {
    if es != [] {
      assert es[0] in es;
      DirectStepConsistent(cfg, db, es[0]);
      forall e | e in es[1..] ensures harmless(e) { assert e in es; }
      DirectRunKeeps(cfg, DirectStep(cfg, db, es[0]).0, Next(p, es[0]), es[1..], fact, harmless);
    }
  }

  // ----- Administrators -----

  /** An admin change sets the flag of an existing user, and nothing else in the tables; their entries leave the cache. */
  lemma AdminChangeEffect(s: Service, u: Id, admin: bool)
    ensures
      var (s', ok) := SetAdmin(s, u, admin);
      && (ok <==> u in s.db.users) && (!ok ==> s' == s)
      && s'.db.rows == s.db.rows && s'.db.users.Keys == s.db.users.Keys
      && (ok ==> s'.db.users[u].isadmin == admin && s'.db.users[u].username == s.db.users[u].username)
      && (forall x :: x in s.db.users && x != u ==> s'.db.users[x] == s.db.users[x])
      && (ok ==> forall id :: id in s'.cache <==> id in s.cache && s.cache[id].view.row.userid != u)
      && (forall id :: id in s'.cache ==> s'.cache[id] == s.cache[id])
  {}

  predicate SetsAdmin(e: Event, u: Id) {
    (e.ChangeAdmin? && e.userid == u) || (e.Register? && e.userid == u)
  }

  predicate AdminIs(db: Db, u: Id, admin: bool) {
    u in db.users ==> db.users[u].isadmin == admin
  }

  /** The past of a run that has just seen an operation at `now` that issues no id. */
  function Later(p: Past, now: Time): Past {
    Past(now, p.issued)
  }

  /**
   * An admin change counts from the next validation on: after any run, a change for an existing user, and any run
   * without another change for them, an accepted session of theirs shows the flag that was set.
   */
  lemma AdminChangeTakesEffect(cfg: Config, db: Db, start: Past, before: seq<Event>, u: Id, admin: bool, now: Time,
                               after: seq<Event>, id: Id, later: Time)
    requires Begins(db, start) && ProperRun(start, before) && PastAfter(start, before).clock <= now
    requires u in Reached(cfg, db, start, before).db.users
    requires
      var p := Later(PastAfter(start, before), now);
      ProperRun(p, after) && PastAfter(p, after).clock <= later
    requires forall e :: e in after ==> !SetsAdmin(e, u)
    ensures
      var p := Later(PastAfter(start, before), now);
      var (s, answer) := CachedStep(cfg, Reached(cfg, db, start, before), ChangeAdmin(u, admin, now));
      && answer == Answer(true) && Coherent(s, p)
      && var verdict := Validate(cfg, CachedRun(cfg, s, p, after), id, later).1;
      verdict.Accepted? && verdict.view.row.userid == u ==> verdict.view.isadmin == admin
  {
    var s0, p0 := Reached(cfg, db, start, before), PastAfter(start, before);
    StepSimulates(cfg, s0, p0, ChangeAdmin(u, admin, now));
    var s, p := CachedStep(cfg, s0, ChangeAdmin(u, admin, now)).0, Later(p0, now);
    CachedRunTables(cfg, s, p, after);
    DirectRunKeeps(cfg, s.db, p, after, (d: Db) => AdminIs(d, u, admin), (e: Event) => !SetsAdmin(e, u));
    ValidateSimulates(cfg, CachedRun(cfg, s, p, after), PastAfter(p, after), id, later);
  }

  // ----- Logins and keys -----

  /** A login gives an existing user a session that expires after its life time; anything else stays. */
  lemma LoginEffect(cfg: Config, db: Db, id: Id, u: Id, now: Time)
    ensures
      var (db', ok) := CreateSession(cfg, db, id, u, now);
      && (ok <==> u in db.users && id !in db.rows) && (!ok ==> db' == db) && db'.users == db.users
      && (forall x :: x != id ==> (x in db'.rows <==> x in db.rows) && (x in db.rows ==> db'.rows[x] == db.rows[x]))
      && (ok ==> id in db'.rows && db'.rows[id].userid == u && db'.rows[id].kind == SessionKind
                 && db'.rows[id].scopes == [] && db'.rows[id].doesexpire && db'.rows[id].expire == now + cfg.extension)
  {}

  /** A key is given to an existing user with the scopes asked for, and does not expire. */
  lemma NewKeyEffect(db: Db, id: Id, u: Id, scopes: seq<string>, now: Time)
    ensures
      var (db', ok) := CreateApiKey(db, id, u, scopes, now);
      && (ok <==> u in db.users && id !in db.rows) && (!ok ==> db' == db) && db'.users == db.users
      && (forall x :: x != id ==> (x in db'.rows <==> x in db.rows) && (x in db.rows ==> db'.rows[x] == db.rows[x]))
      && (ok ==> id in db'.rows && db'.rows[id].userid == u && db'.rows[id].kind == ApiKind
                 && db'.rows[id].scopes == scopes && !db'.rows[id].doesexpire)
  {}

  /** What never changes about an issued session or key, unless its scopes are edited. */
  predicate Holds(db: Db, id: Id, u: Id, kind: Kind, scopes: seq<string>) {
    id in db.rows ==> db.rows[id].userid == u && db.rows[id].kind == kind && db.rows[id].scopes == scopes
  }

  predicate Edits(e: Event, id: Id) {
    e.EditScopes? && e.id == id
  }

  /** A session that cannot expire: it leaves the tables by a logout only. */
  predicate Unexpiring(db: Db, id: Id) {
    id in db.rows && !db.rows[id].doesexpire
  }

  /**
   * A session or key belongs to whom it was issued for and keeps its kind and scopes: after any run, its creation and
   * any run without an edit of it, every accepted validation shows them. And a key, unlike a session, is accepted at
   * any time, whatever happens, until it is revoked.
   */
  lemma IssuedIdentityIsKept(cfg: Config, db: Db, start: Past, before: seq<Event>, creation: Event,
                             after: seq<Event>, later: Time)
    requires Begins(db, start) && ProperRun(start, before)
    requires Creates(creation) && Proper(PastAfter(start, before), creation)
    requires creation.userid in Reached(cfg, db, start, before).db.users
    requires
      var p := Next(PastAfter(start, before), creation);
      ProperRun(p, after) && PastAfter(p, after).clock <= later
    requires forall e :: e in after ==> !Edits(e, creation.id)
    ensures
      var id, p := creation.id, Next(PastAfter(start, before), creation);
      var (s, answer) := CachedStep(cfg, Reached(cfg, db, start, before), creation);
      && answer == Answer(true) && Coherent(s, p)
      && var verdict := Validate(cfg, CachedRun(cfg, s, p, after), id, later).1;
      && (verdict.Accepted? ==>
            && verdict.view.row.userid == creation.userid
            && verdict.view.row.kind == (if creation.Login? then SessionKind else ApiKind)
            && verdict.view.row.scopes == (if creation.Login? then [] else creation.scopes))
      && (creation.NewApiKey? && (forall e :: e in after ==> e != Logout(id, e.now)) ==> verdict.Accepted?)
  {
    var id, u := creation.id, creation.userid;
    var s0, p0 := Reached(cfg, db, start, before), PastAfter(start, before);
    StepSimulates(cfg, s0, p0, creation);
    CreatedIdentity(cfg, s0.db, creation);
    var s, p := CachedStep(cfg, s0, creation).0, Next(p0, creation);
    CachedRunTables(cfg, s, p, after);
    hide Sessions.CreateSession, CreateApiKey, Coherent;
    var kind := if creation.Login? then SessionKind else ApiKind;
    var scopes := if creation.Login? then [] else creation.scopes;
    IdentityKept(cfg, s.db, p, after, id, u, kind, scopes);
    if creation.NewApiKey? && forall e :: e in after ==> e != Logout(id, e.now) {
      UnexpiringKept(cfg, s.db, p, after, id);
    }
    ValidateSimulates(cfg, CachedRun(cfg, s, p, after), PastAfter(p, after), id, later);
  }

  lemma CreatedIdentity(cfg: Config, db: Db, e: Event)
    requires db.Consistent() && Creates(e) && e.userid in db.users && e.id !in db.rows
    ensures
      var (db', answer) := DirectStep(cfg, db, e);
      && answer == Answer(true)
      && Holds(db', e.id, e.userid, if e.Login? then SessionKind else ApiKind, if e.Login? then [] else e.scopes)
      && (e.NewApiKey? ==> Unexpiring(db', e.id))
  {}

  lemma IdentityKept(cfg: Config, db: Db, p: Past, es: seq<Event>, id: Id, u: Id, kind: Kind, scopes: seq<string>)
    requires db.Consistent() && ProperRun(p, es) && id in p.issued && Holds(db, id, u, kind, scopes)
    requires forall e :: e in es ==> !Edits(e, id)
    ensures Holds(DirectRun(cfg, db, es), id, u, kind, scopes)
  {
    DirectRunKeeps(cfg, db, p, es, (d: Db) => Holds(d, id, u, kind, scopes), (e: Event) => !Edits(e, id));
  }

  lemma UnexpiringKept(cfg: Config, db: Db, p: Past, es: seq<Event>, id: Id)
    requires db.Consistent() && ProperRun(p, es) && id in p.issued && Unexpiring(db, id)
    requires forall e :: e in es ==> e != Logout(id, e.now)
    ensures Unexpiring(DirectRun(cfg, db, es), id)
  {
    DirectRunKeeps(cfg, db, p, es, (d: Db) => Unexpiring(d, id), (e: Event) => e != Logout(id, e.now));
  }

  // ----- Scopes -----

  /**
   * Only its owner edits a session, and only its scopes: after any run and an edit that is answered with success, every
   * accepted validation shows the new scopes until the next edit.
   */
  lemma EditTakesEffect(cfg: Config, db: Db, start: Past, before: seq<Event>, u: Id, id: Id, scopes: seq<string>,
                        now: Time, after: seq<Event>, later: Time)
    requires Begins(db, start) && ProperRun(start, before) && PastAfter(start, before).clock <= now
    requires
      var p := Later(PastAfter(start, before), now);
      ProperRun(p, after) && PastAfter(p, after).clock <= later
    requires forall e :: e in after ==> !Edits(e, id)
    ensures
      var p := Later(PastAfter(start, before), now);
      var s0 := Reached(cfg, db, start, before);
      var (s, answer) := CachedStep(cfg, s0, EditScopes(u, id, scopes, now));
      && Coherent(s, p) && answer == Answer(id in s0.db.rows && s0.db.rows[id].userid == u)
      && s.db.users == s0.db.users && s.db.rows.Keys == s0.db.rows.Keys
      && (forall x :: x in s0.db.rows && x != id ==> s.db.rows[x] == s0.db.rows[x])
      && (answer != Answer(true) ==> s.db == s0.db)
      && var verdict := Validate(cfg, CachedRun(cfg, s, p, after), id, later).1;
      answer == Answer(true) && verdict.Accepted? ==> verdict.view.row.scopes == scopes && verdict.view.row.userid == u
  {
    var s0, p0 := Reached(cfg, db, start, before), PastAfter(start, before);
    var e := EditScopes(u, id, scopes, now);
    StepSimulates(cfg, s0, p0, e);
    var s, p := CachedStep(cfg, s0, e).0, Later(p0, now);
    CachedRunTables(cfg, s, p, after);
    if id in s0.db.rows && s0.db.rows[id].userid == u {
      IdentityKept(cfg, s.db, p, after, id, u, s0.db.rows[id].kind, scopes);
    }
    ValidateSimulates(cfg, CachedRun(cfg, s, p, after), PastAfter(p, after), id, later);
  }

  // ----- Logging out -----

  /** A logout removes the session from cache and table, and touches no other. */
  lemma LogoutEffect(s: Service, id: Id)
    ensures
      var s' := Revoke(s, id);
      && id !in s'.cache && id !in s'.db.rows && s'.db.users == s.db.users
      && (forall x :: x != id ==> (x in s'.cache <==> x in s.cache) && (x in s.cache ==> s'.cache[x] == s.cache[x]))
      && (forall x :: x != id ==> (x in s'.db.rows <==> x in s.db.rows))
      && (forall x :: x != id && x in s.db.rows ==> s'.db.rows[x] == s.db.rows[x])
  {}

  /** Once logged out, after any run, a session is refused after every further run. */
  lemma LogoutIsFinal(cfg: Config, db: Db, start: Past, before: seq<Event>, id: Id, now: Time,
                      after: seq<Event>, later: Time)
    requires Begins(db, start) && ProperRun(start, before) && PastAfter(start, before).clock <= now
    requires id in PastAfter(start, before).issued
    requires
      var p := Later(PastAfter(start, before), now);
      ProperRun(p, after) && PastAfter(p, after).clock <= later
    ensures
      var p := Later(PastAfter(start, before), now);
      var s := CachedStep(cfg, Reached(cfg, db, start, before), Logout(id, now)).0;
      Coherent(s, p) && Validate(cfg, CachedRun(cfg, s, p, after), id, later).1 == Rejected
  {
    var s0, p0 := Reached(cfg, db, start, before), PastAfter(start, before);
    StepSimulates(cfg, s0, p0, Logout(id, now));
    var s, p := CachedStep(cfg, s0, Logout(id, now)).0, Later(p0, now);
    LogoutEffect(s0, id);
    CachedRunTables(cfg, s, p, after);
    DirectRunKeeps(cfg, s.db, p, after, (d: Db) => id !in d.rows, (e: Event) => true);
    ValidateSimulates(cfg, CachedRun(cfg, s, p, after), PastAfter(p, after), id, later);
  }

  // ----- Purging, registering and removing users -----

  /** A purge removes exactly the rows that may expire and have. */
  lemma PurgeEffect(db: Db, now: Time)
    ensures
      var db' := PurgeExpired(db, now);
      && db'.users == db.users
      && (forall id :: id in db'.rows <==> id in db.rows && (db.rows[id].doesexpire ==> now <= db.rows[id].expire))
      && (forall id :: id in db'.rows ==> db'.rows[id] == db.rows[id])
  {}

  /** A new user is added as given, a known one stays; a user leaves exactly if they have no session. */
  lemma UserEffects(db: Db, u: Id, user: User)
    ensures
      var added, removed := AddUser(db, u, user), DeleteUser(db, u);
      && added.rows == db.rows && added.users.Keys == db.users.Keys + {u}
      && added.users[u] == (if u in db.users then db.users[u] else user)
      && removed.rows == db.rows
      && (u in removed.users <==> u in db.users && exists id :: id in db.rows && db.rows[id].userid == u)
      && (forall x :: x in db.users && x != u ==>
            && added.users[x] == db.users[x]
            && x in removed.users && removed.users[x] == db.users[x])
      && (forall x :: x in removed.users ==> x in db.users && removed.users[x] == db.users[x])
  {}

  // ----- How long entries stay in the cache -----

  /** Cleaning removes exactly the entries whose last use is longer ago than the life time of entries. */
  lemma CleaningEffect(cfg: Config, cache: map<Id, CacheEntry>, now: Time)
    ensures
      var cleaned := Cleaned(cfg, cache, now);
      && (forall id :: id in cleaned <==> id in cache && now - cache[id].lastUsed <= cfg.cacheTtl)
      && (forall id :: id in cleaned ==> cleaned[id] == cache[id])
  {}

  /** An accepted validation counts as a use: the entry is there until the life time has passed, and not longer. */
  lemma UseProlongsEntry(cfg: Config, s: Service, id: Id, now: Time, later: Time)
    requires s.db.Consistent() && Validate(cfg, s, id, now).1.Accepted?
    ensures
      var s' := Validate(cfg, s, id, now).0;
      && id in s'.cache && s'.cache[id].lastUsed == now
      && (id in Cleaned(cfg, s'.cache, later) <==> later <= now + cfg.cacheTtl)
  {}

  /** A fetch puts an entry there once, dated by the fetch, and does not count as a use afterwards. */
  lemma FetchKeepsDate(s: Service, id: Id, now: Time)
    requires s.db.Consistent()
    ensures
      var (s', found) := Retrieve(s, id, now);
      && s'.db == s.db && (found.Some? <==> id in s.cache || id in s.db.rows)
      && (found.Some? ==> id in s'.cache && s'.cache[id] == found.value)
      && (found.Some? ==> found.value.lastUsed == if id in s.cache then s.cache[id].lastUsed else now)
      && (forall x :: x != id ==> (x in s'.cache <==> x in s.cache) && (x in s.cache ==> s'.cache[x] == s.cache[x]))
  {}
}
