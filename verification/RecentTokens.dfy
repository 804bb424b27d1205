/**
 * The list of recently viewed public tokens: the last visits of `getRecentViewedLogs`
 * (src/logs/logs.service.ts:55-71) joined with the tokens in `getMostVisitedTokens`
 * (src/shared-file/shared-file.service.ts:305-327).
 */
module RecentTokens {
  import opened Basics
  import opened Ordering

  /** How many entries the query asks for. */
  const TAKE := 500

  datatype Log = Log(tokenid: string, date: Time)
  datatype Visit = Visit(tokenid: string, date: Time)
  datatype PublicToken = PublicToken(id: string, name: string, isdir: bool)

  // ----- Last visits -----

  /** The record of visits: its keys in insertion order, and the date stored under each. */
  datatype Visits = Visits(keys: seq<string>, dates: map<string, Time>) {
    function Put(id: string, date: Time): Visits {
      Visits(if id in dates then keys else keys + [id], dates[id := date])
    }

    ghost predicate Valid() {
      DistinctBy(keys, (k: string) => k) && forall k :: k in keys <==> k in dates
    }
  }

  function VisitsOf(logs: seq<Log>): Visits {
    if logs == [] then Visits([], map[])
    else VisitsOf(logs[..|logs| - 1]).Put(logs[|logs| - 1].tokenid, logs[|logs| - 1].date)
  }

  function Entries(v: Visits): seq<Visit>
    requires forall k :: k in v.keys ==> k in v.dates
  {
    seq(|v.keys|, i requires 0 <= i < |v.keys| => Visit(v.keys[i], v.dates[v.keys[i]]))
  }

  predicate NewestFirst(a: Visit, b: Visit) {
    a.date >= b.date
  }

  function RecentVisits(logs: seq<Log>): seq<Visit> {
    VisitsValid(logs);
    StableSort(Entries(VisitsOf(logs)), NewestFirst)
  }

  lemma {:induction false} VisitsValid(logs: seq<Log>)
    ensures VisitsOf(logs).Valid()
  {
    if logs != [] {
      VisitsValid(logs[..|logs| - 1]);
    }
  }

  // ----- The query: the oldest entries of the whole log -----

  predicate OldestFirst(a: Log, b: Log) {
    a.date <= b.date
  }

  /** `table` in ascending order is `logs` followed by `rest`; entries of one date come in any order. */
  ghost predicate Splits(table: seq<Log>, logs: seq<Log>, rest: seq<Log>) {
    multiset(logs + rest) == multiset(table) && Sorted(logs + rest, OldestFirst)
  }

  /** A possible result of the query: in ascending order, no more than the limit. */
  ghost predicate OldestOf(table: seq<Log>, logs: seq<Log>) {
    |logs| == Min(TAKE, |table|) && exists rest :: Splits(table, logs, rest)
  }

  method FindOldest(table: seq<Log>) returns (logs: seq<Log>)
    ensures OldestOf(table, logs)
  {
    StableSortSorts(table, OldestFirst);
    var sorted := StableSort(table, OldestFirst);
    assert |multiset(sorted)| == |multiset(table)|;
    logs := sorted[..Min(TAKE, |table|)];
    assert sorted == logs + sorted[|logs|..];
    assert Splits(table, logs, sorted[|logs|..]);
  }

  /**
   * The loop overwrites unconditionally: its guard tests a field of the log entry named by the token id, which
   * does not exist.
   */
  method GetRecentViewedLogs(table: seq<Log>) returns (visits: seq<Visit>)
    ensures exists logs :: OldestOf(table, logs) && visits == RecentVisits(logs)
  {
    var logs := FindOldest(table);
    var keys: seq<string>, lastVisitMap: map<string, Time> := [], map[];
    for i := 0 to |logs|
      invariant Visits(keys, lastVisitMap) == VisitsOf(logs[..i])
    {
      var log := logs[i];
      assert logs[..i + 1][..i] == logs[..i];
      if log.tokenid !in lastVisitMap { keys := keys + [log.tokenid]; }
      lastVisitMap := lastVisitMap[log.tokenid := log.date];
    }
    assert logs[..|logs|] == logs;
    VisitsValid(logs);
    visits := StableSort(Entries(Visits(keys, lastVisitMap)), NewestFirst);
    assert visits == RecentVisits(logs);
  }

  // ----- The join -----

  function Find(tokens: seq<PublicToken>, id: string): Option<PublicToken> {
    if tokens == [] then None else if tokens[0].id == id then Some(tokens[0]) else Find(tokens[1..], id)
  }

  predicate Seen(visits: seq<Visit>, id: string) {
    visits != [] && (visits[0].tokenid == id || Seen(visits[1..], id))
  }

  function SeenTokens(tokens: seq<PublicToken>, visits: seq<Visit>): seq<PublicToken> {
    if tokens == [] then []
    else (if Seen(visits, tokens[0].id) then [tokens[0]] else []) + SeenTokens(tokens[1..], visits)
  }

  function Lookups(visits: seq<Visit>, tokens: seq<PublicToken>): seq<PublicToken> {
    if visits == [] then []
    else (match Find(tokens, visits[0].tokenid) case Some(t) => [t] case None => []) + Lookups(visits[1..], tokens)
  }

  function RecentTokenList(logs: seq<Log>, tokens: seq<PublicToken>): seq<PublicToken> {
    var visits := RecentVisits(logs);
    Lookups(visits, SeenTokens(tokens, visits))
  }

  // ----- The date kept is the latest, because the logs come in ascending order -----

  predicate Logged(logs: seq<Log>, id: string) {
    exists i :: 0 <= i < |logs| && logs[i].tokenid == id
  }

  ghost predicate Latest(logs: seq<Log>, id: string, date: Time) {
    && (exists i :: 0 <= i < |logs| && logs[i] == Log(id, date))
    && forall i :: 0 <= i < |logs| && logs[i].tokenid == id ==> logs[i].date <= date
  }

  ghost predicate Ascending(logs: seq<Log>) {
    forall i, j :: 0 <= i < j < |logs| ==> logs[i].date <= logs[j].date
  }

  lemma {:induction false} KeptDateIsLatest(logs: seq<Log>, id: string)
    requires Ascending(logs)
    ensures id in VisitsOf(logs).dates <==> Logged(logs, id)
    ensures id in VisitsOf(logs).dates ==> Latest(logs, id, VisitsOf(logs).dates[id])
  {
    if logs != [] {
      hide Logged;
      var front, last := logs[..|logs| - 1], logs[|logs| - 1];
      KeptDateIsLatest(front, id);
      assert logs[|logs| - 1] == Log(last.tokenid, last.date);
      LoggedSnoc(logs, id);
      if id != last.tokenid && id in VisitsOf(front).dates {
        LatestSnoc(logs, id, VisitsOf(front).dates[id]);
      }
    }
  }

  lemma LoggedSnoc(logs: seq<Log>, id: string)
    requires logs != []
    ensures Logged(logs, id) <==> Logged(logs[..|logs| - 1], id) || logs[|logs| - 1].tokenid == id
  {
    var front := logs[..|logs| - 1];
    if i :| 0 <= i < |front| && front[i].tokenid == id {
      assert logs[i].tokenid == id;
    }
    if i :| 0 <= i < |logs| && logs[i].tokenid == id {
      assert i < |front| ==> front[i].tokenid == id;
    }
  }

  lemma LatestSnoc(logs: seq<Log>, id: string, date: Time)
    requires logs != [] && logs[|logs| - 1].tokenid != id && Latest(logs[..|logs| - 1], id, date)
    ensures Latest(logs, id, date)
  {
    var front := logs[..|logs| - 1];
    var i :| 0 <= i < |front| && front[i] == Log(id, date);
    assert logs[i] == front[i];
    forall j | 0 <= j < |logs| && logs[j].tokenid == id ensures logs[j].date <= date {
      assert logs[j] == front[j];
    }
  }

  /** The query's own order is what makes the overwriting loop right about the entries it is given. */
  lemma FetchedAscend(table: seq<Log>, logs: seq<Log>)
    requires OldestOf(table, logs)
    ensures |logs| == (if |table| <= 500 then |table| else 500)
    ensures Ascending(logs)
    ensures forall e :: e in logs ==> e in table
  {
    var rest :| Splits(table, logs, rest);
    var all := logs + rest;
    forall i, j | 0 <= i < j < |logs| ensures logs[i].date <= logs[j].date {
      assert OldestFirst(all[i], all[j]);
    }
    forall e | e in logs ensures e in table {
      assert e in all && e in multiset(all);
    }
  }

  // ----- What the limit costs -----

  function Itself(e: Log): Log { e }

  /** For every token of the whole log the date kept is that of its latest visit. */
  ghost predicate AgreesWithWholeLog(table: seq<Log>, logs: seq<Log>) {
    forall id :: Logged(table, id) ==> id in VisitsOf(logs).dates && Latest(table, id, VisitsOf(logs).dates[id])
  }

  /**
   * The query takes the oldest entries, so the list knows the latest visits exactly when every entry of the log has
   * its token and date among those taken; if no two entries are the same, when the log has at most 500 of them.
   */
  lemma RecentIsCurrentIff(table: seq<Log>, logs: seq<Log>)
    requires OldestOf(table, logs)
    ensures AgreesWithWholeLog(table, logs) <==> forall e :: e in table ==> e in logs
    ensures DistinctBy(table, Itself) ==> (AgreesWithWholeLog(table, logs) <==> |table| <= 500)
  {
    hide VisitsOf;
    FetchedAscend(table, logs);
    if AgreesWithWholeLog(table, logs) {
      forall e | e in table ensures e in logs { KeptEntry(table, logs, e); }
    }
    if forall e :: e in table ==> e in logs {
      forall id | Logged(table, id)
        ensures id in VisitsOf(logs).dates && Latest(table, id, VisitsOf(logs).dates[id])
      {
        LatestOfMore(table, logs, id);
      }
    }
    if DistinctBy(table, Itself) { AllTakenIff(table, logs); }
  }

  /** If the dates kept are the latest, an entry that was not taken repeats one that was. */
  lemma KeptEntry(table: seq<Log>, logs: seq<Log>, e: Log)
    requires OldestOf(table, logs) && AgreesWithWholeLog(table, logs) && e in table
    ensures e in logs
  {
    hide VisitsOf, AgreesWithWholeLog;
    FetchedAscend(table, logs);
    var rest :| Splits(table, logs, rest);
    var all := logs + rest;
    assert e in multiset(all);
    assert e in logs || e in rest;
    if e in rest {
      var k :| 0 <= k < |table| && table[k] == e;
      assert Logged(table, e.tokenid);
      var kept := KeptDate(table, logs, e.tokenid);
      var i :| 0 <= i < |logs| && logs[i] == Log(e.tokenid, kept);
      var j :| 0 <= j < |rest| && rest[j] == e;
      assert OldestFirst(all[i], all[|logs| + j]);
      assert table[k].date <= kept;
      assert logs[i] == e;
    }
  }

  lemma KeptDate(table: seq<Log>, logs: seq<Log>, id: string) returns (date: Time)
    requires Ascending(logs) && AgreesWithWholeLog(table, logs) && Logged(table, id)
    ensures Latest(logs, id, date) && Latest(table, id, date)
  {
    KeptDateIsLatest(logs, id);
    date := VisitsOf(logs).dates[id];
  }

  lemma LatestOfMore(table: seq<Log>, logs: seq<Log>, id: string)
    requires Ascending(logs) && Logged(table, id) && forall e :: e in table <==> e in logs
    ensures id in VisitsOf(logs).dates && Latest(table, id, VisitsOf(logs).dates[id])
  {
    hide VisitsOf;
    KeptDateIsLatest(logs, id);
    var k :| 0 <= k < |table| && table[k].tokenid == id;
    assert table[k] in logs;
    var i :| 0 <= i < |logs| && logs[i] == table[k];
    assert Logged(logs, id);
    var date := VisitsOf(logs).dates[id];
    assert Log(id, date) in logs;
    forall m | 0 <= m < |table| && table[m].tokenid == id ensures table[m].date <= date {
      assert table[m] in logs;
    }
  }

  lemma AllTakenIff(table: seq<Log>, logs: seq<Log>)
    requires OldestOf(table, logs) && DistinctBy(table, Itself)
    ensures (forall e :: e in table ==> e in logs) <==> |table| <= TAKE
  {
    var rest :| Splits(table, logs, rest);
    var all := logs + rest;
    assert |multiset(all)| == |multiset(table)|;
    PermutationKeepsDistinct(table, all, Itself);
    if |table| <= TAKE {
      assert all == logs;
      forall e | e in table ensures e in logs { assert e in multiset(all); }
    } else {
      assert rest[0] == all[|logs|] && rest[0] in multiset(all);
      assert rest[0] in table;
      forall i | 0 <= i < |logs| ensures logs[i] != rest[0] {
        assert Itself(all[i]) != Itself(all[|logs|]);
      }
    }
  }

  /** Without the order the overwriting loop keeps the last date instead of the latest. */
  lemma UnorderedLogsKeepTheWrongDate(id: string)
    ensures var logs := [Log(id, 2), Log(id, 1)];
      VisitsOf(logs).dates[id] == 1 && !Latest(logs, id, 1)
  {
    var logs := [Log(id, 2), Log(id, 1)];
    assert logs[..1] == [Log(id, 2)] && [Log(id, 2)][..0] == [];
    assert logs[0].tokenid == id && logs[0].date > 1;
  }

  // ----- The list -----

  function TokenOf(v: Visit): string { v.tokenid }
  function IdOf(t: PublicToken): string { t.id }

  lemma VisitsOrdered()
    ensures TotalPreorder(NewestFirst)
  {}

  /** The sorted visits: one per logged token, newest first, with the latest date. */
  lemma RecentVisitsShape(logs: seq<Log>)
    requires Ascending(logs)
    ensures var r := RecentVisits(logs);
      && Sorted(r, NewestFirst) && DistinctBy(r, TokenOf)
      && (forall v :: v in r ==> Latest(logs, v.tokenid, v.date))
      && forall id :: Logged(logs, id) <==> Seen(r, id)
  {
    VisitsValid(logs);
    VisitsOrdered();
    var v := VisitsOf(logs);
    var entries, r := Entries(v), RecentVisits(logs);
    StableSortSorts(entries, NewestFirst);
    assert DistinctBy(entries, TokenOf);
    PermutationKeepsDistinct(entries, r, TokenOf);
    forall x | x in r ensures Latest(logs, x.tokenid, x.date) {
      assert x in multiset(r);
      assert x in entries;
      KeptDateIsLatest(logs, x.tokenid);
    }
    forall id ensures Logged(logs, id) <==> Seen(r, id) {
      KeptDateIsLatest(logs, id);
      SeenIff(r, id);
      if Logged(logs, id) {
        var k :| 0 <= k < |v.keys| && v.keys[k] == id;
        assert entries[k] in multiset(entries);
        assert entries[k] in r;
      }
      if Seen(r, id) {
        var x :| x in r && x.tokenid == id;
        assert x in multiset(r);
        assert x in entries;
      }
    }
  }

  lemma {:induction false} SeenIff(visits: seq<Visit>, id: string)
    ensures Seen(visits, id) <==> exists v :: v in visits && v.tokenid == id
  {
    if visits != [] {
      SeenIff(visits[1..], id);
      if Seen(visits[1..], id) {
        var v :| v in visits[1..] && v.tokenid == id;
        assert v in visits;
      }
      assert visits == [visits[0]] + visits[1..];
    }
  }

  lemma {:induction false} FindSeen(tokens: seq<PublicToken>, visits: seq<Visit>, id: string)
    requires Seen(visits, id)
    ensures Find(SeenTokens(tokens, visits), id) == Find(tokens, id)
  {
    if tokens != [] {
      FindSeen(tokens[1..], visits, id);
      if Seen(visits, tokens[0].id) {
        assert SeenTokens(tokens, visits)[1..] == SeenTokens(tokens[1..], visits);
      } else {
        assert SeenTokens(tokens, visits) == SeenTokens(tokens[1..], visits);
      }
    }
  }

  lemma {:induction false} FindIff(tokens: seq<PublicToken>, t: PublicToken)
    requires DistinctBy(tokens, IdOf)
    ensures t in tokens <==> Find(tokens, t.id) == Some(t)
  {
    if tokens != [] {
      assert DistinctBy(tokens[1..], IdOf) by {
        forall i, j | 0 <= i < j < |tokens[1..]| ensures IdOf(tokens[1..][i]) != IdOf(tokens[1..][j]) {
          assert IdOf(tokens[i + 1]) != IdOf(tokens[j + 1]);
        }
      }
      FindIff(tokens[1..], t);
      if t in tokens[1..] {
        var i :| 0 <= i < |tokens[1..]| && tokens[1..][i] == t;
        assert IdOf(tokens[0]) != IdOf(tokens[i + 1]);
      }
    }
  }

  lemma {:induction false} FindHasId(tokens: seq<PublicToken>, id: string)
    ensures Find(tokens, id).Some? ==> Find(tokens, id).value in tokens && Find(tokens, id).value.id == id
  {
    if tokens != [] { FindHasId(tokens[1..], id); }
  }

  /** Each token listed comes from a visit, and each visit of a known token is listed. */
  lemma {:induction false} LookupsMembers(visits: seq<Visit>, tokens: seq<PublicToken>)
    ensures var r := Lookups(visits, tokens);
      && (forall t :: t in r ==> t in tokens && Find(tokens, t.id) == Some(t) && Seen(visits, t.id))
      && forall v :: v in visits && Find(tokens, v.tokenid).Some? ==> Find(tokens, v.tokenid).value in r
  {
    if visits != [] {
      var v, rest := visits[0], visits[1..];
      assert visits == [v] + rest;
      LookupsMembers(rest, tokens);
      FindHasId(tokens, v.tokenid);
    }
  }

  /** No token comes before one whose visit is later. */
  ghost predicate InVisitOrder(r: seq<PublicToken>, visits: seq<Visit>) {
    forall i, j, a, b ::
      (0 <= i < j < |r| && a in visits && b in visits && a.tokenid == r[i].id && b.tokenid == r[j].id)
      ==> a.date >= b.date
  }

  /** The tokens listed are distinct and in the order of their visits. */
  lemma {:induction false} LookupsOrder(visits: seq<Visit>, tokens: seq<PublicToken>)
    requires Sorted(visits, NewestFirst) && DistinctBy(visits, TokenOf)
    ensures var r := Lookups(visits, tokens);
      DistinctBy(r, IdOf) && InVisitOrder(r, visits)
  {
    if visits != [] {
      hide Find, InVisitOrder, DistinctBy, Seen;
      var v, rest := visits[0], visits[1..];
      assert visits == [v] + rest;
      TailShape(visits);
      LookupsOrder(rest, tokens);
      LookupsMembers(rest, tokens);
      FindHasId(tokens, v.tokenid);
      var r, r' := Lookups(visits, tokens), Lookups(rest, tokens);
      forall t | t in r' ensures t.id != v.tokenid {
        SeenIff(rest, t.id);
      }
      var found := Find(tokens, v.tokenid);
      PrependKeepsOrder(v, if found.Some? then [found.value] else [], rest, r');
      assert r == (if found.Some? then [found.value] else []) + r';
    }
  }

  lemma PrependKeepsOrder(v: Visit, ts: seq<PublicToken>, rest: seq<Visit>, r: seq<PublicToken>)
    requires |ts| <= 1 && forall t :: t in ts ==> t.id == v.tokenid
    requires forall x :: x in r ==> x.id != v.tokenid
    requires forall x :: x in rest ==> v.date >= x.date && x.tokenid != v.tokenid
    requires DistinctBy(r, IdOf) && InVisitOrder(r, rest)
    ensures DistinctBy(ts + r, IdOf) && InVisitOrder(ts + r, [v] + rest)
  {
    var all, k := ts + r, |ts|;
    forall i, j, a, b | 0 <= i < j < |all| && a in [v] + rest && b in [v] + rest
                        && a.tokenid == all[i].id && b.tokenid == all[j].id
      ensures a.date >= b.date
    {
      assert all[j] == r[j - k] && r[j - k] in r;
      if i >= k { assert all[i] == r[i - k] && r[i - k] in r; }
    }
    forall i, j | 0 <= i < j < |all| ensures IdOf(all[i]) != IdOf(all[j]) {
      assert all[j] == r[j - k] && r[j - k] in r;
      if i >= k { assert IdOf(r[i - k]) != IdOf(r[j - k]); }
    }
  }

  lemma TailShape(visits: seq<Visit>)
    requires visits != [] && Sorted(visits, NewestFirst) && DistinctBy(visits, TokenOf)
    ensures Sorted(visits[1..], NewestFirst) && DistinctBy(visits[1..], TokenOf)
    ensures forall v :: v in visits[1..] ==> visits[0].date >= v.date && v.tokenid != visits[0].tokenid
  {
    var rest := visits[1..];
    forall v | v in rest ensures visits[0].date >= v.date && v.tokenid != visits[0].tokenid {
      var i :| 0 <= i < |rest| && rest[i] == v;
      assert NewestFirst(visits[0], visits[i + 1]);
      assert TokenOf(visits[0]) != TokenOf(visits[i + 1]);
    }
    forall i, j | 0 <= i < j < |rest| ensures TokenOf(rest[i]) != TokenOf(rest[j]) {
      assert TokenOf(visits[i + 1]) != TokenOf(visits[j + 1]);
    }
  }

  /**
   * Whatever the log, the list holds each public token seen in the entries taken from it exactly once and nothing
   * else, in non-increasing order of the token's latest visit among them.
   */
  lemma RecentTokensByLatestVisit(table: seq<Log>, logs: seq<Log>, tokens: seq<PublicToken>)
    requires OldestOf(table, logs) && DistinctBy(tokens, IdOf)
    ensures var r := RecentTokenList(logs, tokens);
      && DistinctBy(r, IdOf)
      && (forall t :: t in r <==> t in tokens && Logged(logs, t.id))
      && forall i, j, di, dj :: 0 <= i < j < |r| && Latest(logs, r[i].id, di) && Latest(logs, r[j].id, dj) ==> di >= dj
  {
    var visits := RecentVisits(logs);
    var seen, r := SeenTokens(tokens, visits), RecentTokenList(logs, tokens);
    FetchedAscend(table, logs);
    RecentVisitsShape(logs);
    LookupsMembers(visits, seen);
    LookupsOrder(visits, seen);
    forall t ensures t in r <==> t in tokens && Logged(logs, t.id) {
      FindIff(tokens, t);
      if Seen(visits, t.id) {
        FindSeen(tokens, visits, t.id);
        SeenIff(visits, t.id);
      }
    }
    forall i, j, di, dj | 0 <= i < j < |r| && Latest(logs, r[i].id, di) && Latest(logs, r[j].id, dj)
      ensures di >= dj
    {
      var a := VisitFor(logs, visits, r[i].id, di);
      var b := VisitFor(logs, visits, r[j].id, dj);
    }
  }

  lemma VisitFor(logs: seq<Log>, visits: seq<Visit>, id: string, date: Time) returns (v: Visit)
    requires forall x :: x in visits ==> Latest(logs, x.tokenid, x.date)
    requires Logged(logs, id) <==> Seen(visits, id)
    requires Latest(logs, id, date)
    ensures v in visits && v == Visit(id, date)
  {
    var k :| 0 <= k < |logs| && logs[k] == Log(id, date);
    assert Logged(logs, id);
    SeenIff(visits, id);
    v :| v in visits && v.tokenid == id;
    var m :| 0 <= m < |logs| && logs[m] == Log(id, v.date);
  }
}
