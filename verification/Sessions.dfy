/**
 * Sessions and API keys: two tables, and a cache of their join
 * (src/sessions/sessions.service.ts and the parts of src/auth/auth.service.ts that write the tables).
 *
 * `Direct` functions are the service without a cache; the functions on `Service` are the service as it is. Each
 * operation is one atomic step at its time `now`.
 */
module Sessions {
  import opened Basics

  type Id = string

  datatype Kind = SessionKind | ApiKind

  datatype Row = Row(userid: Id, kind: Kind, scopes: seq<string>, doesexpire: bool, expire: Time)

  datatype User = User(username: string, isadmin: bool)

  /** What a caller of `validateSession` is given, apart from the bookkeeping field `lastUsed`. */
  datatype View = View(row: Row, username: string, isadmin: bool)

  datatype CacheEntry = CacheEntry(view: View, lastUsed: Time)

  /** `Failed` is the error of a renewal whose row is gone. */
  datatype Verdict = Rejected | Failed | Accepted(view: View)

  /** `extension` is the configured session life time, `cacheTtl` the life time of unused cache entries. */
  datatype Config = Config(extension: nat, cacheTtl: nat)

  datatype Db = Db(rows: map<Id, Row>, users: map<Id, User>) {

    /** The foreign key of the sessions table. */
    ghost predicate Consistent() {
      forall id :: id in rows ==> rows[id].userid in users
    }

    function ViewOf(id: Id): View
      requires id in rows && rows[id].userid in users
    {
      View(rows[id], users[rows[id].userid].username, users[rows[id].userid].isadmin)
    }
  }

  // ----- The expiry rule -----

  predicate Expired(row: Row, now: Time) {
    now > row.expire && row.doesexpire
  }

  /** A session is renewed when less than 24 whole hours are left. */
  predicate Due(row: Row, now: Time) {
    DiffUnits(row.expire, now, HOUR) < 24
  }

  /** The row after a validation at `now`. */
  function Renewed(cfg: Config, row: Row, now: Time): Row {
    if Due(row, now) then row.(expire := row.expire + cfg.extension) else row
  }

  // ----- Writing the tables -----

  function CreateSession(cfg: Config, db: Db, id: Id, userid: Id, now: Time): (Db, bool) {
    if userid in db.users && id !in db.rows
    then (db.(rows := db.rows[id := Row(userid, SessionKind, [], true, now + cfg.extension)]), true)
    else (db, false)
  }

  function CreateApiKey(db: Db, id: Id, userid: Id, scopes: seq<string>, now: Time): (Db, bool) {
    if userid in db.users && id !in db.rows
    then (db.(rows := db.rows[id := Row(userid, ApiKind, scopes, false, now)]), true)
    else (db, false)
  }

  function UpdateAdmin(db: Db, userid: Id, admin: bool): Db
    requires userid in db.users
  {
    db.(users := db.users[userid := db.users[userid].(isadmin := admin)])
  }

  function PurgeExpired(db: Db, now: Time): Db {
    db.(rows := map id | id in db.rows && !(db.rows[id].doesexpire && db.rows[id].expire < now) :: db.rows[id])
  }

  function AddUser(db: Db, userid: Id, user: User): Db {
    if userid in db.users then db else db.(users := db.users[userid := user])
  }

  /** The foreign key refuses to delete a user who has sessions. */
  function DeleteUser(db: Db, userid: Id): Db {
    if exists id :: id in db.rows && db.rows[id].userid == userid then db else db.(users := db.users - {userid})
  }

  // ----- Without a cache -----

  function DirectValidate(cfg: Config, db: Db, id: Id, now: Time): (Db, Verdict)
    requires db.Consistent()
  {
    if id !in db.rows then (db, Rejected)
    else if Expired(db.rows[id], now) then (db.(rows := db.rows - {id}), Rejected)
    else
      var db' := db.(rows := db.rows[id := Renewed(cfg, db.rows[id], now)]);
      (db', Accepted(db'.ViewOf(id)))
  }

  function DirectEdit(db: Db, userid: Id, id: Id, scopes: seq<string>): (Db, bool) {
    if id !in db.rows || db.rows[id].userid != userid then (db, false)
    else (db.(rows := db.rows[id := db.rows[id].(scopes := scopes)]), true)
  }

  // ----- With the cache -----

  datatype Service = Service(cache: map<Id, CacheEntry>, db: Db)

  function Retrieve(s: Service, id: Id, now: Time): (Service, Option<CacheEntry>)
    requires s.db.Consistent()
  {
    if id in s.cache then (s, Some(s.cache[id]))
    else if id in s.db.rows then
      var entry := CacheEntry(s.db.ViewOf(id), now);
      (s.(cache := s.cache[id := entry]), Some(entry))
    else (s, None)
  }

  function Revoke(s: Service, id: Id): Service {
    Service(s.cache - {id}, s.db.(rows := s.db.rows - {id}))
  }

  function SetExpire(db: Db, id: Id, expire: Time): Db {
    if id in db.rows then db.(rows := db.rows[id := db.rows[id].(expire := expire)]) else db
  }

  function Validate(cfg: Config, s: Service, id: Id, now: Time): (Service, Verdict)
    requires s.db.Consistent()
  {
    var (s1, found) := Retrieve(s, id, now);
    match found
    case None => (s1, Rejected)
    case Some(entry) =>
      if Expired(entry.view.row, now) then (Revoke(s1, id), Rejected)
      else
        var row := Renewed(cfg, entry.view.row, now);
        var entry' := CacheEntry(entry.view.(row := row), now);
        var s2 := s1.(cache := s1.cache[id := entry']);
        if !Due(entry.view.row, now) then (s2, Accepted(entry'.view))
        else if id in s2.db.rows then (s2.(db := SetExpire(s2.db, id, row.expire)), Accepted(entry'.view))
        else (s2, Failed)
  }

  function Edit(s: Service, userid: Id, id: Id, scopes: seq<string>, now: Time): (Service, bool)
    requires s.db.Consistent()
  {
    var (s1, found) := Retrieve(s, id, now);
    if found.None? || found.value.view.row.userid != userid || id !in s1.db.rows then (s1, false)
    else (Service(s1.cache - {id}, s1.db.(rows := s1.db.rows[id := s1.db.rows[id].(scopes := scopes)])), true)
  }

  function WithoutUser(cache: map<Id, CacheEntry>, userid: Id): map<Id, CacheEntry> {
    map id | id in cache && cache[id].view.row.userid != userid :: cache[id]
  }

  function SetAdmin(s: Service, userid: Id, admin: bool): (Service, bool) {
    if userid !in s.db.users then (s, false)
    else (Service(WithoutUser(s.cache, userid), UpdateAdmin(s.db, userid, admin)), true)
  }

  function Cleaned(cfg: Config, cache: map<Id, CacheEntry>, now: Time): map<Id, CacheEntry> {
    map id | id in cache && !(now > cache[id].lastUsed + cfg.cacheTtl) :: cache[id]
  }

  // ----- The service in place -----

  class SessionsService {
    const config: Config
    var sessionsCache: map<Id, CacheEntry>
    var rows: map<Id, Row>
    var users: map<Id, User>

    ghost function State(): Service
      reads this
    {
      Service(sessionsCache, Db(rows, users))
    }

    constructor (config: Config, db: Db)
      ensures State() == Service(map[], db) && this.config == config
    {
      this.config := config;
      sessionsCache := map[];
      rows := db.rows;
      users := db.users;
    }

    method RetrieveSession(id: Id, now: Time) returns (entry: Option<CacheEntry>)
      requires State().db.Consistent()
      modifies this`sessionsCache
      ensures (State(), entry) == Retrieve(old(State()), id, now)
    {
      if id in sessionsCache { return Some(sessionsCache[id]); }
      if id in rows {
        var row := rows[id];
        var user := users[row.userid];
        sessionsCache := sessionsCache[id := CacheEntry(View(row, user.username, user.isadmin), now)];
        return Some(sessionsCache[id]);
      }
      return None;
    }

    method RevokeSession(id: Id)
      modifies this
      ensures State() == Revoke(old(State()), id)
    {
      sessionsCache := sessionsCache - {id};
      rows := rows - {id};
    }

    method RevenueSession(id: Id, expire: Time) returns (ok: bool)
      modifies this
      ensures ok == (id in old(rows))
      ensures sessionsCache == if id in old(sessionsCache)
        then old(sessionsCache)[id := old(sessionsCache)[id].(view := old(sessionsCache)[id].view.(
               row := old(sessionsCache)[id].view.row.(expire := expire)))]
        else old(sessionsCache)
      ensures Db(rows, users) == SetExpire(old(Db(rows, users)), id, expire)
    {
      if id in sessionsCache {
        var entry := sessionsCache[id];
        sessionsCache := sessionsCache[id := entry.(view := entry.view.(row := entry.view.row.(expire := expire)))];
      }
      ok := id in rows;
      if ok {
        rows := rows[id := rows[id].(expire := expire)];
      }
    }

    method ValidateSession(id: Id, now: Time) returns (verdict: Verdict)
      requires State().db.Consistent()
      modifies this
      ensures (State(), verdict) == Validate(config, old(State()), id, now)
    {
      var session := RetrieveSession(id, now);
      if session.None? { return Rejected; }
      var entry := session.value;
      if now > entry.view.row.expire && entry.view.row.doesexpire {
        RevokeSession(id);
        return Rejected;
      }
      ghost var cache := sessionsCache;
      sessionsCache := sessionsCache[id := sessionsCache[id].(lastUsed := now)];
      ghost var row := Renewed(config, entry.view.row, now);
      if DiffUnits(entry.view.row.expire, now, HOUR) < 24 {
        var ok := RevenueSession(id, entry.view.row.expire + config.extension);
        assert sessionsCache == cache[id := CacheEntry(entry.view.(row := row), now)];
        if !ok { return Failed; }
      }
      assert sessionsCache == cache[id := CacheEntry(entry.view.(row := row), now)];
      return Accepted(sessionsCache[id].view);
    }

    method EditApiKeyScopes(userid: Id, id: Id, scopes: seq<string>, now: Time) returns (ok: bool)
      requires State().db.Consistent()
      modifies this
      ensures (State(), ok) == Edit(old(State()), userid, id, scopes, now)
    {
      var session := RetrieveSession(id, now);
      if session.None? { return false; }
      if session.value.view.row.userid != userid { return false; }
      if id !in rows { return false; }
      rows := rows[id := rows[id].(scopes := scopes)];
      sessionsCache := sessionsCache - {id};
      return true;
    }

    method InvalidateSessionsByUserId(userid: Id)
      modifies this`sessionsCache
      ensures sessionsCache == WithoutUser(old(sessionsCache), userid)
    {
      var keys := sessionsCache.Keys;
      while keys != {}
        invariant keys <= sessionsCache.Keys
        invariant sessionsCache == map id | id in old(sessionsCache)
                    && (id in keys || old(sessionsCache)[id].view.row.userid != userid) :: old(sessionsCache)[id]
        decreases keys
      {
        var key :| key in keys;
        if sessionsCache[key].view.row.userid == userid {
          sessionsCache := sessionsCache - {key};
        }
        keys := keys - {key};
      }
    }

    method ChangeAdmin(userid: Id, admin: bool) returns (ok: bool)
      modifies this
      ensures (State(), ok) == SetAdmin(old(State()), userid, admin)
    {
      if userid !in users { return false; }
      users := users[userid := users[userid].(isadmin := admin)];
      InvalidateSessionsByUserId(userid);
      return true;
    }

    method CleanSessionsCache(now: Time)
      modifies this`sessionsCache
      ensures sessionsCache == Cleaned(config, old(sessionsCache), now)
    {
      var keys := sessionsCache.Keys;
      while keys != {}
        invariant keys <= sessionsCache.Keys
        invariant sessionsCache == map id | id in old(sessionsCache)
                    && (id in keys || !(now > old(sessionsCache)[id].lastUsed + config.cacheTtl)) :: old(sessionsCache)[id]
        decreases keys
      {
        var key :| key in keys;
        var expirationDateSession := sessionsCache[key].lastUsed + config.cacheTtl;
        if now > expirationDateSession {
          sessionsCache := sessionsCache - {key};
        }
        keys := keys - {key};
      }
    }
  }
}
