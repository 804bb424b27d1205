/**
 * Keeping the cached trees up to date (`addUserIndexUpdateSchedule`, `updateIndexes` and `updateTree`,
 * src/files/files.service.ts:51-71 and 531-535).
 *
 * A user's directory has a version that grows with every change; a cached tree is known by the version at which
 * its walk began. The drain loop suspends while it walks a directory and while it stores the tree, so changes
 * may fall in between.
 */
module TreeSchedule {
  import opened Seqs

  type UserId = string

  /** The user whose tree the drain loop is rebuilding, and the version its walk began with, once begun. */
  datatype Update = Idle | Popped(user: UserId) | Walked(user: UserId, version: nat)

  datatype State = State(
    scheduled: seq<UserId>,
    update: Update,
    versions: map<UserId, nat>,
    trees: map<UserId, nat>,
    lastScheduled: map<UserId, nat>)

  datatype Event =
    | Modify(user: UserId)
    | Schedule(user: UserId)
    | Pop
    | Walk
    | StoreTree

  function At(m: map<UserId, nat>, u: UserId): nat {
    if u in m then m[u] else 0
  }

  function Scheduled(q: seq<UserId>, u: UserId): seq<UserId> {
    if u in q then q else q + [u]
  }

  function Step(s: State, e: Event): State {
    match e
    case Modify(u) => s.(versions := s.versions[u := At(s.versions, u) + 1])
    case Schedule(u) =>
      s.(scheduled := Scheduled(s.scheduled, u), lastScheduled := s.lastScheduled[u := At(s.versions, u)])
    case Pop =>
      if s.update == Idle && s.scheduled != []
      then s.(scheduled := s.scheduled[..|s.scheduled| - 1], update := Popped(s.scheduled[|s.scheduled| - 1]))
      else s
    case Walk =>
      if s.update.Popped? then s.(update := Walked(s.update.user, At(s.versions, s.update.user))) else s
    case StoreTree =>
      if s.update.Walked? then s.(trees := s.trees[s.update.user := s.update.version], update := Idle) else s
  }

  function Run(s: State, es: seq<Event>): State
    decreases es
  {
    if es == [] then s else Run(Step(s, es[0]), es[1..])
  }

  predicate UpToDate(s: State, u: UserId) {
    At(s.trees, u) >= At(s.lastScheduled, u)
  }

  /** A scheduled change of `u` is waiting, is being worked on, or is in the cached tree. */
  ghost predicate Covered(s: State, u: UserId) {
    u in s.scheduled ||
    match s.update
    case Idle => UpToDate(s, u)
    case Popped(v) => v == u || UpToDate(s, u)
    case Walked(v, version) => if v == u then version >= At(s.lastScheduled, u) else UpToDate(s, u)
  }

  ghost predicate Inv(s: State) {
    && NoDup(s.scheduled)
    && forall u :: Covered(s, u) && At(s.lastScheduled, u) <= At(s.versions, u)
  }

  lemma StepKeepsInv(s: State, e: Event)
    requires Inv(s)
    ensures Inv(Step(s, e))
  {
    var s' := Step(s, e);
    forall u ensures Covered(s', u) && At(s'.lastScheduled, u) <= At(s'.versions, u) {
      assert Covered(s, u) && At(s.lastScheduled, u) <= At(s.versions, u);
      if e.Pop? && s.update == Idle && s.scheduled != [] {
        assert s.scheduled == s'.scheduled + [s'.update.user];
      }
    }
  }

  lemma {:induction false} RunKeepsInv(s: State, es: seq<Event>)
    requires Inv(s)
    ensures Inv(Run(s, es))
    decreases es
  {
    if es != [] {
      StepKeepsInv(s, es[0]);
      RunKeepsInv(Step(s, es[0]), es[1..]);
    }
  }

  lemma EmptyQueueIsUpToDate(s: State)
    requires Inv(s) && s.scheduled == [] && s.update == Idle
    ensures forall u :: At(s.trees, u) >= At(s.lastScheduled, u)
  {
    forall u ensures At(s.trees, u) >= At(s.lastScheduled, u) {
      assert Covered(s, u);
    }
  }

  /**
   * No scheduled change is lost: however changes, schedulings and the drain loop interleave, the queue has no
   * duplicates, and a user who is neither queued nor being updated has a cached tree no older than the last
   * change scheduled for them.
   */
  lemma NoScheduledChangeIsLost(versions: map<UserId, nat>, trees: map<UserId, nat>, es: seq<Event>, u: UserId)
    ensures
      var s := Run(State([], Idle, versions, trees, map[]), es);
      && NoDup(s.scheduled)
      && (u !in s.scheduled && (s.update.Idle? || s.update.user != u) ==> At(s.trees, u) >= At(s.lastScheduled, u))
  {
    RunKeepsInv(State([], Idle, versions, trees, map[]), es);
    assert Covered(Run(State([], Idle, versions, trees, map[]), es), u);
  }

  /**
   * What each step does: a change makes one user's directory newer; a scheduling queues the user last unless queued;
   * the drain takes the user queued last, walks the directory as it is then, and stores what it walked.
   */
  lemma StepEffects(s: State, u: UserId, rest: seq<UserId>)
    ensures
      var s' := Step(s, Modify(u));
      && At(s'.versions, u) == At(s.versions, u) + 1
      && (forall x :: x != u ==> At(s'.versions, x) == At(s.versions, x))
      && s'.scheduled == s.scheduled && s'.update == s.update && s'.trees == s.trees
    ensures
      var s' := Step(s, Schedule(u));
      && s'.scheduled == (if u in s.scheduled then s.scheduled else s.scheduled + [u])
      && s'.update == s.update && s'.trees == s.trees && s'.versions == s.versions
    ensures s.scheduled == rest + [u] && s.update == Idle ==>
              var s' := Step(s, Pop);
              && s'.scheduled == rest && s'.update == Popped(u)
              && s'.trees == s.trees && s'.versions == s.versions
    ensures s.update == Popped(u) ==> Step(s, Walk) == s.(update := Walked(u, At(s.versions, u)))
    ensures s.update.Walked? && s.update.user == u ==>
              var s' := Step(s, StoreTree);
              && s'.update == Idle && At(s'.trees, u) == s.update.version
              && (forall x :: x != u ==> At(s'.trees, x) == At(s.trees, x))
              && s'.scheduled == s.scheduled && s'.versions == s.versions
  {
    assert (rest + [u])[..|rest + [u]| - 1] == rest;
  }

  /** No tree is newer than the directory it shows. */
  ghost predicate NotAhead(s: State) {
    && (forall u :: At(s.trees, u) <= At(s.versions, u))
    && (s.update.Walked? ==> s.update.version <= At(s.versions, s.update.user))
  }

  lemma {:induction false} TreesAreNotAhead(s: State, es: seq<Event>)
    requires NotAhead(s)
    ensures NotAhead(Run(s, es))
    decreases es
  {
    if es != [] {
      StepNotAhead(s, es[0]);
      TreesAreNotAhead(Step(s, es[0]), es[1..]);
    }
  }

  lemma StepNotAhead(s: State, e: Event)
    requires NotAhead(s)
    ensures NotAhead(Step(s, e))
  {
    forall u ensures At(Step(s, e).trees, u) <= At(Step(s, e).versions, u) {
      assert At(s.trees, u) <= At(s.versions, u);
    }
  }

  // ----- In place -----

  /** What other requests do while the drain loop is suspended. */
  predicate FromRequests(es: seq<Event>) {
    forall e :: e in es ==> e.Modify? || e.Schedule?
  }

  /** The requests served during one turn of the drain loop: before the walk, and before the tree is stored. */
  datatype Interruption = Interruption(beforeWalk: seq<Event>, beforeStore: seq<Event>)

  class TreeUpdater {
    var userIndexUpdateScheduled: seq<UserId>
    /** Where the drain loop is suspended. */
    var update: Update
    var versions: map<UserId, nat>
    var trees: map<UserId, nat>
    ghost var lastScheduled: map<UserId, nat>

    ghost function Value(): State
      reads this
    {
      State(userIndexUpdateScheduled, update, versions, trees, lastScheduled)
    }

    constructor (versions: map<UserId, nat>)
      ensures Value() == State([], Idle, versions, map[], map[])
    {
      userIndexUpdateScheduled := [];
      update := Idle;
      this.versions := versions;
      trees := map[];
      lastScheduled := map[];
    }

    method AddUserIndexUpdateSchedule(userId: UserId)
      modifies this`userIndexUpdateScheduled, this`lastScheduled
      ensures Value() == Step(old(Value()), Schedule(userId))
    {
      lastScheduled := lastScheduled[userId := At(versions, userId)];
      if userId in userIndexUpdateScheduled { return; }
      userIndexUpdateScheduled := userIndexUpdateScheduled + [userId];
    }

    method ChangeDirectory(userId: UserId)
      modifies this`versions
      ensures Value() == Step(old(Value()), Modify(userId))
    {
      versions := versions[userId := At(versions, userId) + 1];
    }

    // The drain loop between its suspensions

    method BeginUpdate()
      requires update == Idle && userIndexUpdateScheduled != []
      modifies this`userIndexUpdateScheduled, this`update
      ensures Value() == Step(old(Value()), Pop)
    {
      update := Popped(userIndexUpdateScheduled[|userIndexUpdateScheduled| - 1]);
      userIndexUpdateScheduled := userIndexUpdateScheduled[..|userIndexUpdateScheduled| - 1];
    }

    method WalkDirectory()
      requires update.Popped?
      modifies this`update
      ensures Value() == Step(old(Value()), Walk)
    {
      update := Walked(update.user, At(versions, update.user));
    }

    method StoreTree()
      requires update.Walked?
      modifies this`trees, this`update
      ensures Value() == Step(old(Value()), Event.StoreTree)
    {
      trees := trees[update.user := update.version];
      update := Idle;
    }

    method Serve(es: seq<Event>)
      requires FromRequests(es)
      modifies this`userIndexUpdateScheduled, this`lastScheduled, this`versions
      ensures Value() == Run(old(Value()), es)
      decreases es
    {
      if es != [] {
        assert es[0] in es;
        match es[0] {
          case Modify(u) => ChangeDirectory(u);
          case Schedule(u) => AddUserIndexUpdateSchedule(u);
        }
        Serve(es[1..]);
      }
    }

    /**
     * The drain loop, however it is interrupted for as many turns as there are interruptions: it empties the queue
     * and leaves every user's tree no older than the last change scheduled for them.
     */
    method UpdateIndexes(interruptions: seq<Interruption>)
      requires Inv(Value()) && update == Idle
      requires forall x :: x in interruptions ==> FromRequests(x.beforeWalk) && FromRequests(x.beforeStore)
      modifies this
      ensures userIndexUpdateScheduled == [] && update == Idle && Inv(Value())
      ensures forall u :: At(trees, u) >= At(lastScheduled, u)
    {
      hide Inv, FromRequests;
      var turn := 0;
      while |userIndexUpdateScheduled| != 0
        invariant Inv(Value()) && update == Idle && 0 <= turn <= |interruptions|
        decreases |interruptions| - turn, |userIndexUpdateScheduled|
      {
        ghost var start := Value();
        StepKeepsInv(start, Pop);
        BeginUpdate();
        if turn < |interruptions| {
          RunKeepsInv(Value(), interruptions[turn].beforeWalk);
          Serve(interruptions[turn].beforeWalk);
        }
        StepKeepsInv(Value(), Walk);
        WalkDirectory();
        if turn < |interruptions| {
          RunKeepsInv(Value(), interruptions[turn].beforeStore);
          Serve(interruptions[turn].beforeStore);
          turn := turn + 1;
        }
        StepKeepsInv(Value(), Event.StoreTree);
        StoreTree();
      }
      EmptyQueueIsUpToDate(Value());
    }
  }
}
