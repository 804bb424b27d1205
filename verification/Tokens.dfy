/**
 * Share tokens: one table and three caches with different invalidation rules
 * (src/token-files/token-files.service.ts).
 */
module Tokens {
  import opened Basics

  type Id = string

  datatype Token = Token(
    id: Id, userid: Id, name: string, path: string, isdir: bool, public: bool, doesexpires: bool, expire: Time)

  /** The fields that `updateSF` may write. */
  datatype Change = Change(public: bool, doesexpires: bool, expire: Time)

  datatype CachedToken = CachedToken(data: Option<Token>, lastUsed: Time)
  datatype CachedPage = CachedPage(tokens: seq<Token>, lastUsed: Time)

  /** How a call ends: it returns, the error of the database reaches the caller, or it repeats the query for ever. */
  datatype Outcome = Returns | Throws | Retries

  const GROUP := 64

  // ----- Queries -----

  predicate Listed(t: Token, now: Time) {
    t.public && (!t.doesexpires || t.expire > now)
  }

  function Listing(table: seq<Token>, now: Time): seq<Token> {
    if table == [] then []
    else
      var last := table[|table| - 1];
      Listing(table[..|table| - 1], now) + if Listed(last, now) then [last] else []
  }

  /** `take: group, skip: page * group` */
  function PageOf(all: seq<Token>, page: nat): seq<Token> {
    all[Min(page * GROUP, |all|)..Min(page * GROUP + GROUP, |all|)]
  }

  function PageQuery(table: seq<Token>, page: nat, now: Time): seq<Token> {
    PageOf(Listing(table, now), page)
  }

  /** `Math.ceil(count / group)` */
  function CountQuery(table: seq<Token>, now: Time): nat {
    (|Listing(table, now)| + GROUP - 1) / GROUP
  }

  function Lookup(table: seq<Token>, id: Id): Option<Token> {
    if table == [] then None
    else if table[0].id == id then Some(table[0])
    else Lookup(table[1..], id)
  }

  // ----- Table writes -----

  function Rows(table: seq<Token>, f: Token -> Token): (r: seq<Token>)
    ensures |r| == |table| && forall i :: 0 <= i < |r| ==> r[i] == f(table[i])
  {
    seq(|table|, i requires 0 <= i < |table| => f(table[i]))
  }

  function Updated(table: seq<Token>, id: Id, c: Change): seq<Token> {
    Rows(table, (t: Token) =>
      if t.id == id then t.(public := c.public, doesexpires := c.doesexpires, expire := c.expire) else t)
  }

  function Drop(table: seq<Token>, gone: Token -> bool): seq<Token> {
    if table == [] then [] else (if gone(table[0]) then [] else [table[0]]) + Drop(table[1..], gone)
  }

  /** The first statement of a move: rows whose path is exactly the old one. */
  function Renamed(t: Token, oldPath: string, newPath: string): Token {
    if t.path == oldPath then t.(path := newPath) else t
  }

  /** The loop of a move: the leading old path is replaced. */
  function Rebased(t: Token, oldPath: string, newPath: string): Token {
    if oldPath <= t.path then t.(path := newPath + t.path[|oldPath|..]) else t
  }

  function Moved(table: seq<Token>, oldPath: string, newPath: string): seq<Token> {
    Rows(Rows(table, (t: Token) => Renamed(t, oldPath, newPath)), (t: Token) => Rebased(t, oldPath, newPath))
  }

  lemma {:induction false} AbsentFromTable(table: seq<Token>, id: Id)
    requires Lookup(table, id).None?
    ensures forall t :: t in table ==> t.id != id
  {
    if table != [] {
      AbsentFromTable(table[1..], id);
      assert table == [table[0]] + table[1..];
    }
  }

  lemma UpdatedNothing(table: seq<Token>, id: Id, c: Change)
    requires Lookup(table, id).None?
    ensures Updated(table, id, c) == table
  {
    AbsentFromTable(table, id);
  }

  lemma {:induction false} DropNothing(table: seq<Token>, id: Id)
    requires Lookup(table, id).None?
    ensures Drop(table, (t: Token) => t.id == id) == table
  {
    if table != [] {
      DropNothing(table[1..], id);
      assert table == [table[0]] + table[1..];
    }
  }

  // ----- The service -----

  datatype Service = Service(
    table: seq<Token>, tokens: map<Id, CachedToken>, pages: map<nat, CachedPage>, totalPages: Option<nat>)
  {
    function NoCache(): Service {
      Service(table, map[], map[], None)
    }

    function NoPages(): Service {
      Service(table, tokens, map[], None)
    }

    function AddSharedFile(t: Token): Service {
      var s := if t.public then NoPages() else this;
      if Lookup(table, t.id).Some? then s else s.(table := table + [t])
    }

    function GetSharedFileByID(id: Id, now: Time): (Service, Option<Token>) {
      if id in tokens then (this.(tokens := tokens[id := tokens[id].(lastUsed := now)]), tokens[id].data)
      else (this.(tokens := tokens[id := CachedToken(Lookup(table, id), now)]), Lookup(table, id))
    }

    function GetSharedFiles(page: nat, now: Time): (Service, seq<Token>) {
      if page in pages then (this.(pages := pages[page := pages[page].(lastUsed := now)]), pages[page].tokens)
      else (this.(pages := pages[page := CachedPage(PageQuery(table, page, now), now)]), PageQuery(table, page, now))
    }

    function GetCountSharedPages(now: Time): (Service, nat) {
      if totalPages.Some? then (this, totalPages.value)
      else (this.(totalPages := Some(CountQuery(table, now))), CountQuery(table, now))
    }

    function CleanCache(ttl: nat, now: Time): Service {
      this.(tokens := map id | id in tokens && !(now > tokens[id].lastUsed + ttl) :: tokens[id],
            pages := map p | p in pages && !(now > pages[p].lastUsed + ttl) :: pages[p])
    }
  }

  class TokenFilesService {
    const cacheExpire: nat
    var table: seq<Token>
    var cacheTokens: map<Id, CachedToken>
    var tokensPagesCache: map<nat, CachedPage>
    var tokensTotalPagesCache: Option<nat>

    ghost function State(): Service
      reads this
    {
      Service(table, cacheTokens, tokensPagesCache, tokensTotalPagesCache)
    }

    constructor (table: seq<Token>, cacheExpire: nat)
      ensures State() == Service(table, map[], map[], None) && this.cacheExpire == cacheExpire
    {
      this.table := table;
      this.cacheExpire := cacheExpire;
      cacheTokens, tokensPagesCache, tokensTotalPagesCache := map[], map[], None;
    }

    method InvalidateAllCache()
      modifies this`cacheTokens, this`tokensPagesCache, this`tokensTotalPagesCache
      ensures State() == old(State()).NoCache()
    {
      cacheTokens, tokensPagesCache, tokensTotalPagesCache := map[], map[], None;
    }

    method InvalidatePagesCache()
      modifies this`tokensPagesCache, this`tokensTotalPagesCache
      ensures State() == old(State()).NoPages()
    {
      tokensPagesCache, tokensTotalPagesCache := map[], None;
    }

    /** Every error of the database is followed by another try, so a taken id is tried for ever. */
    method AddSharedFile(t: Token) returns (outcome: Outcome)
      modifies this
      ensures State() == old(State()).AddSharedFile(t)
      ensures outcome == if Lookup(old(table), t.id).None? then Returns else Retries
    {
      if t.public {
        InvalidatePagesCache();
      }
      if Lookup(table, t.id).Some? { return Retries; }
      table := table + [t];
      return Returns;
    }

    method GetSharedFileByID(id: Id, now: Time) returns (token: Option<Token>)
      modifies this`cacheTokens
      ensures (State(), token) == old(State()).GetSharedFileByID(id, now)
    {
      if id in cacheTokens {
        cacheTokens := cacheTokens[id := cacheTokens[id].(lastUsed := now)];
        return cacheTokens[id].data;
      }
      token := Lookup(table, id);
      cacheTokens := cacheTokens[id := CachedToken(token, now)];
    }

    method GetSharedFiles(page: nat, now: Time) returns (tokens: seq<Token>)
      modifies this`tokensPagesCache
      ensures (State(), tokens) == old(State()).GetSharedFiles(page, now)
    {
      if page in tokensPagesCache {
        tokensPagesCache := tokensPagesCache[page := tokensPagesCache[page].(lastUsed := now)];
        return tokensPagesCache[page].tokens;
      }
      tokens := PageQuery(table, page, now);
      tokensPagesCache := tokensPagesCache[page := CachedPage(tokens, now)];
    }

    method GetCountSharedPages(now: Time) returns (pages: nat)
      modifies this`tokensTotalPagesCache
      ensures (State(), pages) == old(State()).GetCountSharedPages(now)
    {
      if tokensTotalPagesCache.Some? { return tokensTotalPagesCache.value; }
      pages := CountQuery(table, now);
      tokensTotalPagesCache := Some(pages);
    }

    /** An id without a row is tried for ever, with the caches dropped and the table as it was. */
    method UpdateSF(id: Id, c: Change) returns (outcome: Outcome)
      modifies this
      ensures State() == old(State()).NoCache().(table := Updated(old(table), id, c))
      ensures outcome == if Lookup(old(table), id).Some? then Returns else Retries
      ensures outcome == Retries ==> table == old(table)
    {
      InvalidateAllCache();
      if Lookup(table, id).None? {
        UpdatedNothing(table, id, c);
        return Retries;
      }
      table := Updated(table, id, c);
      return Returns;
    }

    /** The query is returned without being awaited, so its error for a missing row is not caught here. */
    method RemoveSharedFile(id: Id) returns (outcome: Outcome)
      modifies this
      ensures State() == old(State()).NoCache().(table := Drop(old(table), (t: Token) => t.id == id))
      ensures outcome == if Lookup(old(table), id).Some? then Returns else Throws
      ensures outcome == Throws ==> table == old(table)
    {
      InvalidateAllCache();
      if Lookup(table, id).None? {
        DropNothing(table, id);
        return Throws;
      }
      table := Drop(table, (t: Token) => t.id == id);
      return Returns;
    }

    method DeleteTokensByPath(path: string, userid: Id)
      modifies this
      ensures State() == old(State()).NoCache().(
        table := Drop(old(table), (t: Token) => t.path == path && t.userid == userid))
    {
      InvalidateAllCache();
      table := Drop(table, (t: Token) => t.path == path && t.userid == userid);
    }

    /** Renames exact matches, then rewrites every row that (by then) starts with the old path. */
    method UpdatePathTokens(oldPath: string, newPath: string)
      modifies this
      ensures State() == old(State()).NoCache().(table := Moved(old(table), oldPath, newPath))
    {
      InvalidateAllCache();
      table := Rows(table, (t: Token) => Renamed(t, oldPath, newPath));
      var tokens := table;
      for i := 0 to |tokens|
        invariant |table| == |tokens|
        invariant forall k :: 0 <= k < i ==> table[k] == Rebased(tokens[k], oldPath, newPath)
        invariant forall k :: i <= k < |tokens| ==> table[k] == tokens[k]
        invariant State() == old(State()).NoCache().(table := table)
      {
        if oldPath <= tokens[i].path {
          table := table[i := table[i].(path := newPath + tokens[i].path[|oldPath|..])];
        }
      }
    }

    method CleanCache(now: Time)
      modifies this`cacheTokens, this`tokensPagesCache
      ensures State() == old(State()).CleanCache(cacheExpire, now)
    {
      var ids := cacheTokens.Keys;
      while ids != {}
        invariant ids <= cacheTokens.Keys
        invariant cacheTokens == map id | id in old(cacheTokens)
                    && (id in ids || !(now > old(cacheTokens)[id].lastUsed + cacheExpire)) :: old(cacheTokens)[id]
        invariant tokensPagesCache == old(tokensPagesCache)
        decreases ids
      {
        var id :| id in ids;
        if now > cacheTokens[id].lastUsed + cacheExpire { cacheTokens := cacheTokens - {id}; }
        ids := ids - {id};
      }
      var numbers := tokensPagesCache.Keys;
      while numbers != {}
        invariant numbers <= tokensPagesCache.Keys
        invariant tokensPagesCache == map p | p in old(tokensPagesCache)
                    && (p in numbers || !(now > old(tokensPagesCache)[p].lastUsed + cacheExpire)) :: old(tokensPagesCache)[p]
        invariant cacheTokens == old(State()).CleanCache(cacheExpire, now).tokens
        decreases numbers
      {
        var p :| p in numbers;
        if now > tokensPagesCache[p].lastUsed + cacheExpire { tokensPagesCache := tokensPagesCache - {p}; }
        numbers := numbers - {p};
      }
    }
  }
}
