/**
 * What the operations on share tokens give, stated without the functions that carry them out: what a listing and its
 * pages hold, what a removal, an addition, a change and a move leave in the table, and what is served after them.
 */
module TokenEffects {
  import opened Basics
  import opened Tokens
  import opened TokenTheorems

  // ----- Filters -----

  /** `kept` consists of the elements of `table` at the ascending places `at`, and of no others. */
  ghost predicate Selects(table: seq<Token>, kept: seq<Token>, at: seq<nat>) {
    && |at| == |kept|
    && (forall k :: 0 <= k < |at| ==> at[k] < |table| && table[at[k]] == kept[k])
    && forall j, k :: 0 <= j < k < |at| ==> at[j] < at[k]
  }

  lemma SelectsSnoc(front: seq<Token>, last: Token, kept: seq<Token>, at: seq<nat>)
    requires Selects(front, kept, at)
    ensures Selects(front + [last], kept, at)
    ensures Selects(front + [last], kept + [last], at + [|front|])
  {}

  function Shifted(at: seq<nat>): (r: seq<nat>)
    ensures |r| == |at| && forall k :: 0 <= k < |at| ==> r[k] == at[k] + 1
  {
    seq(|at|, k requires 0 <= k < |at| => at[k] + 1)
  }

  lemma SelectsCons(first: Token, rest: seq<Token>, kept: seq<Token>, at: seq<nat>)
    requires Selects(rest, kept, at)
    ensures Selects([first] + rest, kept, Shifted(at))
    ensures Selects([first] + rest, [first] + kept, [0] + Shifted(at))
  {}

  // ----- Listings and pages -----

  /** A public token is listed as long as it does not expire, or has not yet. */
  predicate Shown(t: Token, now: Time) {
    t.public && (t.doesexpires ==> now < t.expire)
  }

  /** The listing holds exactly the shown tokens, in the order of the table. */
  lemma {:induction false} ListingIsShown(table: seq<Token>, now: Time) returns (at: seq<nat>)
    ensures Selects(table, Listing(table, now), at)
    ensures forall i :: 0 <= i < |table| ==> (i in at <==> Shown(table[i], now))
  {
    at := [];
    if table != [] {
      var front, last := table[..|table| - 1], table[|table| - 1];
      assert table == front + [last];
      at := ListingIsShown(front, now);
      SelectsSnoc(front, last, Listing(front, now), at);
      assert forall k :: 0 <= k < |at| ==> at[k] < |front|;
      if Shown(last, now) {
        var before := at;
        at := before + [|front|];
        assert forall i :: i in at <==> i in before || i == |front|;
      }
    }
  }

  lemma ListingMembers(table: seq<Token>, now: Time)
    ensures forall t :: t in Listing(table, now) <==> t in table && Shown(t, now)
  {
    var at := ListingIsShown(table, now);
    forall t ensures t in Listing(table, now) <==> t in table && Shown(t, now) {
      if t in Listing(table, now) {
        var k :| 0 <= k < |at| && Listing(table, now)[k] == t;
        assert at[k] in at && table[at[k]] == t;
      }
      if t in table && Shown(t, now) {
        var i :| 0 <= i < |table| && table[i] == t;
        assert i in at;
        var k :| 0 <= k < |at| && at[k] == i;
        assert Listing(table, now)[k] == t;
      }
    }
  }

  /**
   * Pages hold 64 tokens each, the last one what is left; their number is the least that shows the whole listing, and
   * there is nothing on the pages from there on.
   */
  lemma PagesShowListing(table: seq<Token>, page: nat, now: Time)
    ensures
      var all, shown, pages := Listing(table, now), PageQuery(table, page, now), CountQuery(table, now);
      && |shown| == (if |all| <= 64 * page then 0 else Min(64, |all| - 64 * page))
      && (forall i :: 0 <= i < |shown| ==> shown[i] == all[64 * page + i])
      && 64 * (pages - 1) < |all| <= 64 * pages
      && (shown == [] <==> pages <= page)
  {
    hide Listing;
  }

  // ----- Looking up, adding -----

  /** With unique ids, a lookup finds the row with the id, and nothing exactly if there is none. */
  lemma {:induction false} LookupIff(table: seq<Token>, id: Id)
    ensures Lookup(table, id).None? <==> forall t :: t in table ==> t.id != id
    ensures DistinctIds(table) ==> forall t :: Lookup(table, id) == Some(t) <==> t in table && t.id == id
  {
    if table != [] {
      assert table == [table[0]] + table[1..];
      LookupIff(table[1..], id);
      if DistinctIds(table) {
        forall i, j | 0 <= i < j < |table[1..]| ensures table[1..][i].id != table[1..][j].id {
          assert table[i + 1].id != table[j + 1].id;
        }
        forall t | t in table[1..] ensures t.id != table[0].id {
          var i :| 0 <= i < |table[1..]| && table[1..][i] == t;
          assert table[0].id != table[i + 1].id;
        }
      }
    }
  }

  /**
   * A token with a new id is added last, and found under its id; every other id keeps its row. A taken id adds nothing.
   * In any case the cached tokens stay, and the cached pages and their number go exactly if the token is public.
   */
  lemma AddEffect(s: Service, t: Token, id: Id)
    ensures
      var s' := Step(s, Add(t));
      && s'.tokens == s.tokens
      && (t.public ==> s'.pages == map[] && s'.totalPages == None)
      && (!t.public ==> s'.pages == s.pages && s'.totalPages == s.totalPages)
      && if exists row :: row in s.table && row.id == t.id then s'.table == s.table
      else
        && s'.table == s.table + [t]
        && Lookup(s'.table, id) == if id == t.id then Some(t) else Lookup(s.table, id)
  {
    LookupIff(s.table, t.id);
    LookupAppend(s.table, t, id);
  }

  // ----- Removing -----

  /** What is dropped is gone and all else stays, in its order. */
  lemma {:induction false} DropSelects(table: seq<Token>, gone: Token -> bool) returns (at: seq<nat>)
    ensures Selects(table, Drop(table, gone), at)
    ensures forall i :: 0 <= i < |table| ==> (i in at <==> !gone(table[i]))
  {
    at := [];
    if table != [] {
      var rest := DropSelects(table[1..], gone);
      assert table == [table[0]] + table[1..];
      SelectsCons(table[0], table[1..], Drop(table[1..], gone), rest);
      ShiftedMembers(rest);
      at := if gone(table[0]) then Shifted(rest) else [0] + Shifted(rest);
      assert Drop(table, gone) == if gone(table[0]) then Drop(table[1..], gone) else [table[0]] + Drop(table[1..], gone);
      forall i | 0 <= i < |table| ensures i in at <==> !gone(table[i]) {
        if i > 0 { assert table[1..][i - 1] == table[i]; }
        assert i in at <==> i in Shifted(rest) || (i == 0 && !gone(table[0]));
      }
    }
  }

  lemma ShiftedMembers(at: seq<nat>)
    ensures forall i: nat :: i in Shifted(at) <==> i > 0 && i - 1 in at
  {
    forall i: nat | i > 0 && i - 1 in at ensures i in Shifted(at) {
      var k :| 0 <= k < |at| && at[k] == i - 1;
      assert Shifted(at)[k] == i;
    }
  }

  /** A removed id has no row; every other row stays, in the order of the table. */
  lemma RemoveEffect(s: Service, id: Id) returns (at: seq<nat>)
    ensures
      var s' := Step(s, Remove(id));
      && Lookup(s'.table, id) == None
      && Selects(s.table, s'.table, at)
      && (forall i :: 0 <= i < |s.table| ==> (i in at <==> s.table[i].id != id))
      && s'.tokens == map[] && s'.pages == map[] && s'.totalPages == None
  {
    at := DropSelects(s.table, (t: Token) => t.id == id);
    var s' := Step(s, Remove(id));
    forall t | t in s'.table ensures t.id != id {
      var k :| 0 <= k < |at| && s'.table[k] == t;
      assert at[k] in at;
    }
    LookupIff(s'.table, id);
  }

  lemma {:induction false} DropKeepsLookup(table: seq<Token>, gone: Token -> bool, id: Id)
    requires forall t :: t in table && t.id == id ==> !gone(t)
    ensures Lookup(Drop(table, gone), id) == Lookup(table, id)
  {
    if table != [] {
      assert table == [table[0]] + table[1..];
      var rest := Drop(table[1..], gone);
      DropKeepsLookup(table[1..], gone, id);
      assert Drop(table, gone) == if gone(table[0]) then rest else [table[0]] + rest;
      assert ([table[0]] + rest)[1..] == rest;
    }
  }

  /** Other ids are looked up as before. */
  lemma RemoveKeepsOthers(s: Service, id: Id, other: Id)
    requires other != id
    ensures Lookup(Step(s, Remove(id)).table, other) == Lookup(s.table, other)
  {
    DropKeepsLookup(s.table, (t: Token) => t.id == id, other);
  }

  /** Removing by path takes exactly the user's tokens with that very path, and leaves the others in their order. */
  lemma RemoveByPathEffect(s: Service, path: string, userid: Id) returns (at: seq<nat>)
    ensures
      var s' := Step(s, RemoveByPath(path, userid));
      && Selects(s.table, s'.table, at)
      && (forall i :: 0 <= i < |s.table| ==> (i in at <==> s.table[i].path != path || s.table[i].userid != userid))
      && s'.tokens == map[] && s'.pages == map[] && s'.totalPages == None
  {
    at := DropSelects(s.table, (t: Token) => t.path == path && t.userid == userid);
  }

  /** A token id that is nowhere: not in the table, and in no cache. */
  ghost predicate Nowhere(s: Service, id: Id) {
    && (forall t :: t in s.table ==> t.id != id)
    && (id in s.tokens ==> s.tokens[id].data.None?)
    && forall p :: p in s.pages ==> forall t :: t in s.pages[p].tokens ==> t.id != id
  }

  lemma {:induction false} DropInside(table: seq<Token>, gone: Token -> bool)
    ensures forall t :: t in Drop(table, gone) ==> t in table
  {
    if table != [] {
      assert table == [table[0]] + table[1..];
      DropInside(table[1..], gone);
    }
  }

  lemma PageInside(table: seq<Token>, page: nat, now: Time)
    ensures forall t :: t in PageQuery(table, page, now) ==> t in table
  {
    ListingMembers(table, now);
    forall t | t in PageQuery(table, page, now) ensures t in table {
      var all := Listing(table, now);
      assert t in all;
    }
  }

  lemma StepKeepsNowhere(s: Service, e: Event, id: Id)
    requires Nowhere(s, id) && !(e.Add? && e.token.id == id)
    ensures Nowhere(Step(s, e), id)
  {
    hide PageQuery, Drop, Lookup, CountQuery;
    match e
    case ById(x, now) => if x == id { LookupIff(s.table, id); }
    case Page(page, now) => PageInside(s.table, page, now);
    case Remove(x) => DropInside(s.table, (t: Token) => t.id == x);
    case RemoveByPath(path, userid) => DropInside(s.table, (t: Token) => t.path == path && t.userid == userid);
    case _ =>
  }

  lemma {:induction false} RunKeepsNowhere(w: Watch, es: seq<Event>, id: Id)
    requires Nowhere(w.service, id) && forall e :: e in es ==> !(e.Add? && e.token.id == id)
    ensures Nowhere(Run(w, es).service, id)
    decreases es
  {
    if es != [] {
      assert es[0] in es;
      StepKeepsNowhere(w.service, es[0], id);
      forall e | e in es[1..] ensures !(e.Add? && e.token.id == id) { assert e in es; }
      RunKeepsNowhere(Watch(Step(w.service, es[0]), Observe(w.fetches, w.service, es[0])), es[1..], id);
    }
  }

  /**
   * A revoked link is dead: from any state of table and caches, after a removal and any run that does not add the id
   * again, looking it up gives nothing, and no page shows it.
   */
  lemma RemovedIsNotServed(s: Service, f: Fetches, id: Id, es: seq<Event>, page: nat, now: Time)
    requires forall e :: e in es ==> !(e.Add? && e.token.id == id)
    ensures
      var end := Run(Watch(Step(s, Remove(id)), f), es).service;
      && end.GetSharedFileByID(id, now).1 == None
      && forall t :: t in end.GetSharedFiles(page, now).1 ==> t.id != id
  {
    hide Lookup, PageQuery, Drop, Run;
    var at := RemoveEffect(s, id);
    LookupIff(Step(s, Remove(id)).table, id);
    RunKeepsNowhere(Watch(Step(s, Remove(id)), f), es, id);
    var end := Run(Watch(Step(s, Remove(id)), f), es).service;
    LookupIff(end.table, id);
    PageInside(end.table, page, now);
  }

  // ----- Changing -----

  /** A change gives the row with the id the new visibility and expiry, and leaves everything else as it was. */
  lemma UpdateEffect(s: Service, id: Id, c: Change)
    ensures
      var s' := Step(s, Update(id, c));
      && |s'.table| == |s.table|
      && (forall i :: 0 <= i < |s.table| && s.table[i].id != id ==> s'.table[i] == s.table[i])
      && (forall i :: 0 <= i < |s.table| && s.table[i].id == id ==>
            var t, t' := s.table[i], s'.table[i];
            && t'.public == c.public && t'.doesexpires == c.doesexpires && t'.expire == c.expire
            && t'.id == t.id && t'.userid == t.userid && t'.name == t.name && t'.path == t.path && t'.isdir == t.isdir)
      && s'.tokens == map[] && s'.pages == map[] && s'.totalPages == None
  {}

  /** The next lookup shows the change, whatever was cached. */
  lemma ChangeIsServed(s: Service, id: Id, c: Change, t: Token, now: Time)
    requires DistinctIds(s.table) && t in s.table && t.id == id
    ensures Step(s, Update(id, c)).GetSharedFileByID(id, now).1
         == Some(Token(id, t.userid, t.name, t.path, t.isdir, c.public, c.doesexpires, c.expire))
  {
    var s' := Step(s, Update(id, c));
    var i :| 0 <= i < |s.table| && s.table[i] == t;
    assert s'.table[i] in s'.table;
    assert DistinctIds(s'.table);
    LookupIff(s'.table, id);
  }

  // ----- Moving -----

  /**
   * What a move makes of a row: whatever follows the old path follows the new one; the folder's own row gets the new
   * path, and once more what the new path has beyond the old one.
   */
  lemma MoveEffect(s: Service, oldPath: string, newPath: string)
    ensures
      var s' := Step(s, Move(oldPath, newPath));
      && |s'.table| == |s.table|
      && s'.tokens == map[] && s'.pages == map[] && s'.totalPages == None
      && forall i :: 0 <= i < |s.table| ==>
           var t, t' := s.table[i], s'.table[i];
           && t' == t.(path := t'.path)
           && (!(oldPath <= t.path) ==> t'.path == t.path)
           && (t.path == oldPath && !(oldPath <= newPath) ==> t'.path == newPath)
           && (t.path == oldPath && oldPath <= newPath ==> t'.path == newPath + newPath[|oldPath|..])
           && (oldPath < t.path ==> t'.path == newPath + t.path[|oldPath|..])
  {}

  // ----- How long tokens and pages stay cached -----

  /** Cleaning removes exactly the tokens and pages whose last use is longer ago than the life time. */
  lemma CleanEffect(s: Service, ttl: nat, now: Time)
    ensures
      var s' := Step(s, Clean(ttl, now));
      && s'.table == s.table && s'.totalPages == s.totalPages
      && (forall id :: id in s'.tokens <==> id in s.tokens && now - s.tokens[id].lastUsed <= ttl)
      && (forall id :: id in s'.tokens ==> s'.tokens[id] == s.tokens[id])
      && (forall p :: p in s'.pages <==> p in s.pages && now - s.pages[p].lastUsed <= ttl)
      && (forall p :: p in s'.pages ==> s'.pages[p] == s.pages[p])
  {}

  /** What is asked for is cached, dated by this use, and stays as it was if it was cached; no other entry changes. */
  lemma UseEffect(s: Service, id: Id, page: nat, now: Time)
    ensures
      var s', found := s.GetSharedFileByID(id, now).0, s.GetSharedFileByID(id, now).1;
      && s'.table == s.table && s'.pages == s.pages && s'.totalPages == s.totalPages
      && s'.tokens.Keys == s.tokens.Keys + {id} && s'.tokens[id] == CachedToken(found, now)
      && (id in s.tokens ==> found == s.tokens[id].data)
      && (forall x :: x in s.tokens && x != id ==> s'.tokens[x] == s.tokens[x])
    ensures
      var s', shown := s.GetSharedFiles(page, now).0, s.GetSharedFiles(page, now).1;
      && s'.table == s.table && s'.tokens == s.tokens && s'.totalPages == s.totalPages
      && s'.pages.Keys == s.pages.Keys + {page} && s'.pages[page] == CachedPage(shown, now)
      && (page in s.pages ==> shown == s.pages[page].tokens)
      && (forall x :: x in s.pages && x != page ==> s'.pages[x] == s.pages[x])
    ensures
      var s', pages := s.GetCountSharedPages(now).0, s.GetCountSharedPages(now).1;
      && s' == s.(totalPages := Some(pages))
      && (s.totalPages.Some? ==> pages == s.totalPages.value)
  {
    hide PageQuery, Lookup;
  }
}
