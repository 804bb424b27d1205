/** What the token caches may serve, and what moving a folder does to the token paths. */
module TokenTheorems {
  import opened Basics
  import opened Tokens

  datatype Event =
    | Add(token: Token)
    | ById(id: Id, now: Time)
    | Page(page: nat, now: Time)
    | Count(now: Time)
    | Update(id: Id, change: Change)
    | Remove(id: Id)
    | RemoveByPath(path: string, userid: Id)
    | Move(oldPath: string, newPath: string)
    | Clean(ttl: nat, now: Time)

  function Step(s: Service, e: Event): Service {
    match e
    case Add(t) => s.AddSharedFile(t)
    case ById(id, now) => s.GetSharedFileByID(id, now).0
    case Page(page, now) => s.GetSharedFiles(page, now).0
    case Count(now) => s.GetCountSharedPages(now).0
    case Update(id, c) => s.NoCache().(table := Updated(s.table, id, c))
    case Remove(id) => s.NoCache().(table := Drop(s.table, (t: Token) => t.id == id))
    case RemoveByPath(path, userid) =>
      s.NoCache().(table := Drop(s.table, (t: Token) => t.path == path && t.userid == userid))
    case Move(oldPath, newPath) => s.NoCache().(table := Moved(s.table, oldPath, newPath))
    case Clean(ttl, now) => s.CleanCache(ttl, now)
  }

  /** When each page, and the page count, was last fetched from the table. */
  datatype Fetches = Fetches(pages: map<nat, Time>, count: Time)

  function Observe(f: Fetches, s: Service, e: Event): Fetches {
    match e
    case Page(page, now) => if page in s.pages then f else f.(pages := f.pages[page := now])
    case Count(now) => if s.totalPages.Some? then f else f.(count := now)
    case _ => f
  }

  /**
   * Every cached page and the cached page count are the listing query on the *current* table at the time of
   * their fetch, and every cached token that is not null is its current row.
   */
  ghost predicate Fresh(s: Service, f: Fetches) {
    && (forall p :: p in s.pages ==>
          p in f.pages && s.pages[p].tokens == PageQuery(s.table, p, f.pages[p]))
    && (s.totalPages.Some? ==> s.totalPages.value == CountQuery(s.table, f.count))
    && forall id :: id in s.tokens && s.tokens[id].data.Some? ==> s.tokens[id].data == Lookup(s.table, id)
  }

  function FetchTime(f: Fetches, page: nat, now: Time): Time {
    if page in f.pages then f.pages[page] else now
  }

  /** A token that is not public is in no listing, so its creation may leave the page caches alone. */
  lemma PrivateTokenUnlisted(table: seq<Token>, t: Token, now: Time)
    requires !t.public
    ensures Listing(table + [t], now) == Listing(table, now)
  {
    assert (table + [t])[..|table|] == table;
  }

  lemma {:induction false} LookupAppend(table: seq<Token>, t: Token, id: Id)
    ensures Lookup(table + [t], id) == if Lookup(table, id).Some? then Lookup(table, id)
                                       else if t.id == id then Some(t) else None
  {
    if table != [] {
      assert (table + [t])[1..] == table[1..] + [t];
      LookupAppend(table[1..], t, id);
    }
  }

  lemma AddKeepsFresh(s: Service, f: Fetches, t: Token)
    requires Fresh(s, f)
    ensures Fresh(s.AddSharedFile(t), f)
  {
    hide Listing, Lookup;
    var s' := s.AddSharedFile(t);
    forall id | id in s'.tokens && s'.tokens[id].data.Some?
      ensures s'.tokens[id].data == Lookup(s'.table, id)
    {
      LookupAppend(s.table, t, id);
    }
    forall p | p in s'.pages
      ensures s'.pages[p].tokens == PageQuery(s'.table, p, f.pages[p])
    {
      PrivateTokenUnlisted(s.table, t, f.pages[p]);
    }
    if s'.totalPages.Some? { PrivateTokenUnlisted(s.table, t, f.count); }
  }

  lemma StepKeepsFresh(s: Service, f: Fetches, e: Event)
    requires Fresh(s, f)
    ensures Fresh(Step(s, e), Observe(f, s, e))
  {
    hide Lookup, PageQuery, CountQuery;
    match e
    case Add(t) => AddKeepsFresh(s, f, t);
    case _ =>
  }

  datatype Watch = Watch(service: Service, fetches: Fetches)

  function Run(w: Watch, es: seq<Event>): Watch
    decreases es
  {
    if es == [] then w else Run(Watch(Step(w.service, es[0]), Observe(w.fetches, w.service, es[0])), es[1..])
  }

  /** The caches stay fresh over every run of additions, updates, removals, moves, fetches and cleaning. */
  lemma {:induction false} CachesStayFresh(w: Watch, es: seq<Event>)
    requires Fresh(w.service, w.fetches)
    ensures Fresh(Run(w, es).service, Run(w, es).fetches)
    decreases es
  {
    if es != [] {
      StepKeepsFresh(w.service, w.fetches, es[0]);
      CachesStayFresh(Watch(Step(w.service, es[0]), Observe(w.fetches, w.service, es[0])), es[1..]);
    }
  }

  /**
   * What is served from empty caches on, at the end of any run: a page is a listing of the current table at some
   * time of fetch (now, or that of the cached entry), and so is the page count.
   */
  lemma ServedPagesAreListings(table: seq<Token>, f: Fetches, es: seq<Event>, page: nat, now: Time)
    ensures
      var end := Run(Watch(Service(table, map[], map[], None), f), es);
      && end.service.GetSharedFiles(page, now).1
         == PageQuery(end.service.table, page, if page in end.service.pages then FetchTime(end.fetches, page, now) else now)
      && end.service.GetCountSharedPages(now).1
         == CountQuery(end.service.table, if end.service.totalPages.Some? then end.fetches.count else now)
  {
    CachesStayFresh(Watch(Service(table, map[], map[], None), f), es);
  }

  /**
   * What `getSharedFileByID` returns is the current row, or its absence, exactly unless an absence was cached
   * and the id has a row now.
   */
  lemma ServedTokenIsCurrentIff(table: seq<Token>, f: Fetches, es: seq<Event>, id: Id, now: Time)
    ensures
      var s := Run(Watch(Service(table, map[], map[], None), f), es).service;
      s.GetSharedFileByID(id, now).1 == Lookup(s.table, id)
      <==> !(id in s.tokens && s.tokens[id].data.None? && Lookup(s.table, id).Some?)
  {
    CachesStayFresh(Watch(Service(table, map[], map[], None), f), es);
  }

  /** Creating a token does not clear a cached absence of its id. */
  lemma CachedAbsenceOutlivesCreation(t: Token, now: Time, later: Time)
    ensures
      var s := Step(Step(Service([], map[], map[], None), ById(t.id, now)), Add(t));
      Lookup(s.table, t.id) == Some(t) && s.GetSharedFileByID(t.id, later).1 == None
  {
    assert Lookup([], t.id) == None;
    assert [] + [t] == [t];
    LookupAppend([], t, t.id);
  }

  // ----- How long what is served stays true -----

  ghost predicate DistinctIds(table: seq<Token>) {
    forall i, j :: 0 <= i < j < |table| ==> table[i].id != table[j].id
  }

  /** A listed token stops being listed between two moments. */
  predicate ExpiresBetween(t: Token, from: Time, to: Time) {
    t.public && t.doesexpires && from < t.expire <= to
  }

  /** A later listing is what is left of an earlier one. */
  lemma {:induction false} LaterListing(table: seq<Token>, from: Time, to: Time)
    requires from <= to
    ensures Listing(table, to) == Listing(Listing(table, from), to)
    ensures forall t :: t in Listing(table, from) <==> t in table && Listed(t, from)
  {
    if table != [] {
      var front, last := table[..|table| - 1], table[|table| - 1];
      assert table == front + [last];
      LaterListing(front, from, to);
      var a := Listing(front, from);
      if Listed(last, from) {
        assert (a + [last])[..|a|] == a;
      } else {
        assert Listing(table, from) == a;
      }
    }
  }

  /** What survives a filter is no longer than what went in, and is all of it exactly if nothing falls out. */
  lemma {:induction false} ListingShrinks(a: seq<Token>, now: Time)
    ensures |Listing(a, now)| <= |a|
    ensures Listing(a, now) == a <==> forall t :: t in a ==> Listed(t, now)
    ensures |Listing(a, now)| == |a| ==> Listing(a, now) == a
  {
    if a != [] {
      var front, last := a[..|a| - 1], a[|a| - 1];
      assert a == front + [last];
      ListingShrinks(front, now);
      if Listing(a, now) == a { assert Listed(last, now) && Listing(front, now) == front; }
    }
  }

  /** The listing is the same at two moments exactly when no public token expires between them. */
  lemma ListingLastsIff(table: seq<Token>, from: Time, to: Time)
    requires from <= to
    ensures Listing(table, from) == Listing(table, to) <==> forall t :: t in table ==> !ExpiresBetween(t, from, to)
  {
    LaterListing(table, from, to);
    ListingShrinks(Listing(table, from), to);
  }

  /** All pages together are the listing. */
  lemma PagesDecideListing(a: seq<Token>, b: seq<Token>)
    requires forall page: nat :: PageOf(a, page) == PageOf(b, page)
    ensures a == b
  {
    forall i | 0 <= i < |a| ensures i < |b| && a[i] == b[i] { InPage(a, b, i); }
    if |a| < |b| { InPage(b, a, |a|); }
    if |b| < |a| { InPage(a, b, |b|); }
  }

  lemma InPage(a: seq<Token>, b: seq<Token>, i: nat)
    requires i < |a| && PageOf(a, i / GROUP) == PageOf(b, i / GROUP)
    ensures i < |b| && a[i] == b[i]
  {
    var page := i / GROUP;
    assert page * GROUP <= i < page * GROUP + GROUP;
    assert PageOf(a, page)[i - page * GROUP] == a[i];
    assert PageOf(b, page)[i - page * GROUP] == b[i];
  }

  /** All pages of one moment are those of a later one exactly when no public token expires in between. */
  lemma PagesLastIff(table: seq<Token>, from: Time, to: Time)
    requires from <= to
    ensures (forall page: nat :: PageQuery(table, page, from) == PageQuery(table, page, to))
       <==> forall t :: t in table ==> !ExpiresBetween(t, from, to)
  {
    hide Listing;
    ListingLastsIff(table, from, to);
    var a, b := Listing(table, from), Listing(table, to);
    if forall page: nat :: PageQuery(table, page, from) == PageQuery(table, page, to) {
      forall page: nat ensures PageOf(a, page) == PageOf(b, page) {
        assert PageQuery(table, page, from) == PageQuery(table, page, to);
      }
      PagesDecideListing(a, b);
    }
  }

  /** The first tokens stay, or the one at place `k` moves up behind an expired one. */
  lemma {:induction false} MovesUp(a: seq<Token>, now: Time, i: nat, k: nat) returns (j: nat)
    requires i <= k < |Listing(a, now)| && i < |a| && !Listed(a[i], now)
    ensures k < j < |a| && a[j] == Listing(a, now)[k]
  {
    var front, last := a[..|a| - 1], a[|a| - 1];
    assert a == front + [last];
    ListingShrinks(front, now);
    if k < |Listing(front, now)| {
      j := MovesUp(front, now, i, k);
    } else {
      assert a[i] == front[i] && front[i] in front;
      j := |a| - 1;
    }
  }

  lemma {:induction false} FrontStays(a: seq<Token>, now: Time, n: nat)
    requires n <= |a| && forall i :: 0 <= i < n ==> Listed(a[i], now)
    ensures n <= |Listing(a, now)| && Listing(a, now)[..n] == a[..n]
  {
    if n < |a| {
      FrontStays(a[..|a| - 1], now, n);
    } else {
      ListingShrinks(a, now);
    }
  }

  /**
   * One page is the same at two moments exactly when it is empty, or no token listed on it or before it has expired:
   * an expiry on an earlier page moves every later token up.
   */
  lemma PageLastsIff(table: seq<Token>, page: nat, from: Time, to: Time)
    requires from <= to && DistinctIds(table)
    ensures
      var a := Listing(table, from);
      PageQuery(table, page, from) == PageQuery(table, page, to)
      <==> |a| <= page * GROUP || forall i :: 0 <= i < Min(|a|, page * GROUP + GROUP) ==> Listed(a[i], to)
  {
    hide Listing, Listed;
    var a, b := Listing(table, from), Listing(table, to);
    LaterListing(table, from, to);
    ListingDistinct(table, from);
    PageOfRest(a, page, to);
    assert PageQuery(table, page, from) == PageOf(a, page) && PageQuery(table, page, to) == PageOf(b, page);
  }

  lemma PageOfRest(a: seq<Token>, page: nat, to: Time)
    requires DistinctIds(a)
    ensures PageOf(a, page) == PageOf(Listing(a, to), page)
       <==> |a| <= page * GROUP || forall i :: 0 <= i < Min(|a|, page * GROUP + GROUP) ==> Listed(a[i], to)
  {
    hide Listing, Listed;
    var b, first := Listing(a, to), page * GROUP;
    var n := Min(|a|, first + GROUP);
    ListingShrinks(a, to);
    if |a| > first {
      if forall i :: 0 <= i < n ==> Listed(a[i], to) {
        FrontStays(a, to, n);
        assert PageOf(a, page) == a[..n][first..];
        assert PageOf(b, page) == b[..n][first..];
      } else {
        var i :| 0 <= i < n && !Listed(a[i], to);
        var k := if i < first then first else i;
        assert PageOf(a, page)[k - first] == a[k];
        if PageOf(a, page) == PageOf(b, page) {
          assert PageOf(b, page)[k - first] == b[k];
          var j := MovesUp(a, to, i, k);
          assert false;
        }
      }
    }
  }

  lemma {:induction false} ListingDistinct(table: seq<Token>, now: Time)
    requires DistinctIds(table)
    ensures DistinctIds(Listing(table, now))
  {
    hide Listed;
    if table != [] {
      var front, last := table[..|table| - 1], table[|table| - 1];
      assert table == front + [last];
      ListingDistinct(front, now);
      LaterListing(front, now, now);
      var a := Listing(front, now);
      forall t | t in a ensures t.id != last.id {
        var i :| 0 <= i < |front| && front[i] == t;
        assert table[i].id != table[|table| - 1].id;
      }
      SnocDistinct(a, last);
    }
  }

  lemma SnocDistinct(a: seq<Token>, last: Token)
    requires DistinctIds(a) && forall t :: t in a ==> t.id != last.id
    ensures DistinctIds(a + [last])
  {}

  lemma {:induction false} DropDistinct(table: seq<Token>, gone: Token -> bool)
    requires DistinctIds(table)
    ensures DistinctIds(Drop(table, gone)) && forall t :: t in Drop(table, gone) ==> t in table
  {
    if table != [] {
      DropDistinct(table[1..], gone);
      assert table == [table[0]] + table[1..];
      forall t | t in Drop(table[1..], gone) ensures t.id != table[0].id {
        var i :| 0 <= i < |table[1..]| && table[1..][i] == t;
        assert table[0].id != table[i + 1].id;
      }
    }
  }

  lemma StepKeepsIds(s: Service, e: Event)
    requires DistinctIds(s.table)
    ensures DistinctIds(Step(s, e).table)
  {
    hide Lookup, Drop, PageQuery, CountQuery;
    match e
    case Add(t) =>
      if Lookup(s.table, t.id).None? { AbsentFromTable(s.table, t.id); }
    case Remove(id) => DropDistinct(s.table, (t: Token) => t.id == id);
    case RemoveByPath(path, userid) => DropDistinct(s.table, (t: Token) => t.path == path && t.userid == userid);
    case _ =>
  }

  lemma {:induction false} RunKeepsIds(w: Watch, es: seq<Event>)
    requires DistinctIds(w.service.table)
    ensures DistinctIds(Run(w, es).service.table)
    decreases es
  {
    if es != [] {
      StepKeepsIds(w.service, es[0]);
      RunKeepsIds(Watch(Step(w.service, es[0]), Observe(w.fetches, w.service, es[0])), es[1..]);
    }
  }

  /**
   * At the end of any run from empty caches, a cached page is what the query would give now exactly when it is empty
   * or none of the tokens listed up to its end when it was fetched has expired since.
   */
  lemma ServedPageIsCurrentIff(table: seq<Token>, f: Fetches, es: seq<Event>, page: nat, now: Time)
    requires DistinctIds(table)
    requires
      var end := Run(Watch(Service(table, map[], map[], None), f), es);
      page in end.service.pages && FetchTime(end.fetches, page, now) <= now
    ensures
      var end := Run(Watch(Service(table, map[], map[], None), f), es);
      var a := Listing(end.service.table, FetchTime(end.fetches, page, now));
      end.service.GetSharedFiles(page, now).1 == PageQuery(end.service.table, page, now)
      <==> |a| <= page * GROUP || forall i :: 0 <= i < Min(|a|, page * GROUP + GROUP) ==> Listed(a[i], now)
  {
    hide PageQuery, Listing, Run, Step;
    var w := Watch(Service(table, map[], map[], None), f);
    ServedPagesAreListings(table, f, es, page, now);
    RunKeepsIds(w, es);
    var end := Run(w, es);
    PageLastsIff(end.service.table, page, FetchTime(end.fetches, page, now), now);
  }

  /** How many tokens stop being listed between two moments. */
  function Expiring(table: seq<Token>, from: Time, to: Time): nat {
    if table == [] then 0
    else Expiring(table[..|table| - 1], from, to) + if ExpiresBetween(table[|table| - 1], from, to) then 1 else 0
  }

  lemma {:induction false} ListingLoses(table: seq<Token>, from: Time, to: Time)
    requires from <= to
    ensures |Listing(table, from)| == |Listing(table, to)| + Expiring(table, from, to)
  {
    if table != [] { ListingLoses(table[..|table| - 1], from, to); }
  }

  /**
   * At the end of any run from empty caches, the cached number of pages, which cleaning never drops, is what the query
   * would give now exactly when no more tokens have expired since than the last page had beyond its first.
   */
  lemma ServedCountIsCurrentIff(table: seq<Token>, f: Fetches, es: seq<Event>, now: Time)
    requires
      var end := Run(Watch(Service(table, map[], map[], None), f), es);
      end.service.totalPages.Some? && end.fetches.count <= now
    ensures
      var end := Run(Watch(Service(table, map[], map[], None), f), es);
      var listed := |Listing(end.service.table, end.fetches.count)|;
      var expired := Expiring(end.service.table, end.fetches.count, now);
      end.service.GetCountSharedPages(now).1 == CountQuery(end.service.table, now)
      <==> expired == 0 || expired <= (listed - 1) % GROUP
  {
    hide Listing, Run, Step, Expiring;
    ServedPagesAreListings(table, f, es, 0, now);
    var end := Run(Watch(Service(table, map[], map[], None), f), es);
    ListingLoses(end.service.table, end.fetches.count, now);
  }

  // ----- Moving a folder -----

  function Substituted(table: seq<Token>, oldPath: string, newPath: string): seq<Token> {
    Rows(table, (t: Token) => Rebased(t, oldPath, newPath))
  }

  lemma MovedRow(t: Token, oldPath: string, newPath: string)
    ensures Rebased(Renamed(t, oldPath, newPath), oldPath, newPath) == Rebased(t, oldPath, newPath)
       <==> !(t.path == oldPath && oldPath <= newPath && oldPath != newPath)
  {
    if t.path == oldPath {
      assert t.path[|oldPath|..] == [];
      assert newPath + [] == newPath;
      if oldPath <= newPath {
        var twice := newPath + newPath[|oldPath|..];
        assert |twice| == |newPath| + |newPath| - |oldPath|;
        if |newPath| == |oldPath| { assert newPath == oldPath; }
      }
    }
  }

  /**
   * A move replaces the leading old path by the new one in every token, once, and changes nothing else, exactly
   * unless the new path properly extends the old one and some token has the old path itself.
   */
  lemma MoveIsPrefixSubstitutionIff(table: seq<Token>, oldPath: string, newPath: string)
    ensures Moved(table, oldPath, newPath) == Substituted(table, oldPath, newPath)
       <==> !(oldPath <= newPath && oldPath != newPath && exists t :: t in table && t.path == oldPath)
  {
    var m, s := Moved(table, oldPath, newPath), Substituted(table, oldPath, newPath);
    forall i | 0 <= i < |table|
      ensures m[i] == s[i] <==> !(table[i].path == oldPath && oldPath <= newPath && oldPath != newPath)
    {
      MovedRow(table[i], oldPath, newPath);
    }
    if t :| t in table && t.path == oldPath {
      var i :| 0 <= i < |table| && table[i] == t;
      assert m == s ==> m[i] == s[i];
    }
  }

  /** The folder itself, or something in it. */
  predicate Under(path: string, folder: string) {
    path == folder || folder + "/" <= path
  }

  /** What moving a folder means: the paths of its owner's tokens at and below it follow it. */
  function OwnerMoved(table: seq<Token>, owner: Id, oldPath: string, newPath: string): seq<Token> {
    Rows(table, (t: Token) => if t.userid == owner && Under(t.path, oldPath) then Rebased(t, oldPath, newPath) else t)
  }

  /** The row is one of the owner's, at or below the folder, and is not rewritten twice. */
  predicate MovesRight(t: Token, owner: Id, oldPath: string, newPath: string) {
    t.userid == owner && Under(t.path, oldPath) && !(t.path == oldPath && oldPath <= newPath)
  }

  lemma MovedRowOfOwner(t: Token, owner: Id, oldPath: string, newPath: string)
    ensures
      Rebased(Renamed(t, oldPath, newPath), oldPath, newPath)
        == (if t.userid == owner && Under(t.path, oldPath) then Rebased(t, oldPath, newPath) else t)
      <==> oldPath == newPath || (oldPath <= t.path ==> MovesRight(t, owner, oldPath, newPath))
  {
    MovedRow(t, oldPath, newPath);
    if oldPath <= t.path {
      var rest := t.path[|oldPath|..];
      assert t.path == oldPath + rest;
      if newPath + rest == oldPath + rest {
        assert |newPath| == |oldPath|;
        assert newPath == (newPath + rest)[..|newPath|] == (oldPath + rest)[..|oldPath|] == oldPath;
      }
      if t.path == oldPath && oldPath <= newPath {
        assert |newPath + newPath[|oldPath|..]| == 2 * |newPath| - |oldPath|;
        if |newPath| == |oldPath| { assert newPath == oldPath; }
      }
    } else {
      assert !Under(t.path, oldPath);
    }
  }

  /**
   * A move changes exactly its owner's tokens at and below the folder, as a move should, if and only if every token
   * whose path begins with the old one is such a token and, if it has the old path itself, the new one does not
   * begin with it. The query asks neither for the owner nor for the separator.
   */
  lemma MoveTouchesOnlyTheFolderIff(table: seq<Token>, owner: Id, oldPath: string, newPath: string)
    ensures Moved(table, oldPath, newPath) == OwnerMoved(table, owner, oldPath, newPath)
       <==> oldPath == newPath
            || forall t :: t in table && oldPath <= t.path ==> MovesRight(t, owner, oldPath, newPath)
  {
    hide MovesRight, Rebased, Renamed, Under;
    var m, s := Moved(table, oldPath, newPath), OwnerMoved(table, owner, oldPath, newPath);
    forall i | 0 <= i < |table|
      ensures m[i] == s[i]
         <==> oldPath == newPath || (oldPath <= table[i].path ==> MovesRight(table[i], owner, oldPath, newPath))
    {
      MovedRowOfOwner(table[i], owner, oldPath, newPath);
    }
    if m == s && oldPath != newPath {
      forall t | t in table && oldPath <= t.path ensures MovesRight(t, owner, oldPath, newPath) {
        var i :| 0 <= i < |table| && table[i] == t;
        assert m[i] == s[i];
      }
    }
  }

  /** Moving `docs` to `docs2` makes the token of the folder point to `docs22`. */
  lemma MovingRewritesTwice(t: Token)
    requires t.path == "docs"
    ensures Moved([t], "docs", "docs2") == [t.(path := "docs22")]
  {
    assert "docs2" == "docs" + "2" && "docs2"[|"docs"|..] == "2";
    assert "docs2" + "2" == "docs22";
  }

  /** Moving `docs` to the free name `old` makes its owner's token of `docs2/a`, which stays, point to `old2/a`. */
  lemma MovingTakesSiblingTokens(t: Token, sibling: Token)
    requires t.path == "docs" && sibling.path == "docs2/a" && sibling.userid == t.userid
    ensures Moved([t, sibling], "docs", "old") == [t.(path := "old"), sibling.(path := "old2/a")]
    ensures OwnerMoved([t, sibling], t.userid, "docs", "old") == [t.(path := "old"), sibling]
  {
    assert "docs2/a" == "docs" + "2/a" && "docs2/a"[|"docs"|..] == "2/a" && "docs"[|"docs"|..] == "";
    assert "old" + "2/a" == "old2/a" && "old" + "" == "old";
    assert "docs" != "old" && !("docs" <= "old") by { assert "docs"[0] != "old"[0]; }
    assert !("docs/" <= "docs2/a") by { assert "docs/"[4] != "docs2/a"[4]; }
    assert "docs" + "/" == "docs/" && "docs2/a" != "docs";
  }

  lemma RebasedBack(t: Token, oldPath: string, newPath: string)
    requires !(newPath <= t.path)
    requires !(oldPath <= newPath) && !(newPath <= oldPath)
    ensures Rebased(Rebased(t, oldPath, newPath), newPath, oldPath) == t
  {
    if oldPath <= t.path {
      var rest := t.path[|oldPath|..];
      assert t.path == oldPath + rest;
      assert (newPath + rest)[|newPath|..] == rest;
    }
  }

  /**
   * Moving a folder away and back restores every token, when neither path is a prefix of the other and no token
   * already lay under the new one.
   */
  lemma MovingBackRestores(table: seq<Token>, oldPath: string, newPath: string)
    requires !(oldPath <= newPath) && !(newPath <= oldPath)
    requires forall t :: t in table ==> !(newPath <= t.path)
    ensures Moved(Moved(table, oldPath, newPath), newPath, oldPath) == table
  {
    var there := Moved(table, oldPath, newPath);
    MoveIsPrefixSubstitutionIff(table, oldPath, newPath);
    MoveIsPrefixSubstitutionIff(there, newPath, oldPath);
    forall i | 0 <= i < |table| ensures Substituted(there, newPath, oldPath)[i] == table[i] {
      assert there[i] == Rebased(table[i], oldPath, newPath);
      RebasedBack(table[i], oldPath, newPath);
    }
  }
}
