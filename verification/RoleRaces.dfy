/** Revoking a director as it really runs: the count of directors is one statement, the delete another,
    and anything may happen on the console in between. */
module RoleRaces {
  import opened Options
  import RoleConsole
  import opened RoleLaws

  type Console = RoleConsole.State

  /** The console, the clock, and the revokes that have passed their count and not yet deleted. */
  datatype State = State(console: Console, now: int, pending: map<nat, nat>)

  /** Director revokes come in two steps. Every other submission is one event, made at the present time. */
  datatype Event =
    | Count(worker: nat, target: nat)
    | Delete(worker: nat)
    | Submit(submission: RoleConsole.Event)
    | Tick(seconds: nat)

  function Directors(s: State): set<nat> {
    RoleConsole.ActiveDirectors(s.console.grants, s.now)
  }

  predicate RevokesDirector(e: RoleConsole.Event) {
    e.RevokeRole? && e.role.Director?
  }

  predicate IsNow(e: RoleConsole.Event, now: int) {
    e.now == now
  }

  function Step(s: State, e: Event, supers: set<nat>): State {
    match e
    case Count(w, target) =>
      if w in s.pending || |Directors(s)| <= 1 then s else s.(pending := s.pending[w := target])
    case Delete(w) =>
      if w !in s.pending then s
      else s.(console := s.console.(grants := s.console.grants - {RoleConsole.Key(s.pending[w], RoleConsole.Director)}),
              pending := s.pending - {w})
    case Submit(submission) =>
      if RevokesDirector(submission) || !IsNow(submission, s.now) then s
      else s.(console := RoleConsole.Step(s.console, submission, supers))
    case Tick(seconds) =>
      s.(now := s.now + seconds)
  }

  ghost predicate IsTrace(states: seq<State>, events: seq<Event>, supers: set<nat>) {
    && |states| == |events| + 1 && states[0].pending == map[]
    && forall n | 0 <= n < |events| :: states[n + 1] == Step(states[n], events[n], supers)
  }

  /** A revoke of a director in two uninterrupted steps is the console's own revoke. */
  lemma UninterruptedRevoke(s: State, w: nat, actor: nat, target: nat, supers: set<nat>)
    requires w !in s.pending
    ensures Step(Step(s, Count(w, target), supers), Delete(w), supers)
         == s.(console := RoleConsole.Step(s.console, RoleConsole.RevokeRole(actor, target, RoleConsole.Director, s.now), supers))
  {
    assert s.pending[w := target] - {w} == s.pending;
  }

  // --- When the floor holds ----------------------------------------------------

  /** The step takes no director away by itself: the clock passes no director's expiry, and no request is
      approved after the expiry it asked for. */
  predicate Gentle(s: State, e: Event, supers: set<nat>) {
    && (e.Tick? ==> forall u | u in Directors(s) :: RoleConsole.HoldsDirector(s.console.grants, u, s.now + e.seconds))
    && (e.Submit? ==> !IsLateApproval(s.console, e.submission, supers))
  }

  lemma GentleKeepsDirectors(s: State, e: Event, supers: set<nat>)
    requires Gentle(s, e, supers) && !e.Delete?
    ensures Directors(s) <= Directors(Step(s, e, supers))
  {
    if e.Submit? && !RevokesDirector(e.submission) && IsNow(e.submission, s.now) {
      SubmissionKeepsDirectors(s.console, e.submission, supers);
    }
  }

  lemma SubmissionKeepsDirectors(s: Console, e: RoleConsole.Event, supers: set<nat>)
    requires !RevokesDirector(e) && !IsLateApproval(s, e, supers)
    ensures RoleConsole.ActiveDirectors(s.grants, e.now) <= RoleConsole.ActiveDirectors(RoleConsole.Step(s, e, supers).grants, e.now)
  {
    match e
    case GrantRole(actor, target, role, expiry, now) =>
      DirectorsAfterGrant(s.grants, RoleConsole.Key(target, role), RoleConsole.ExpiryOf(expiry), actor, now);
    case RevokeRole(actor, target, role, now) =>
      DirectorsAfterRemoval(s.grants, RoleConsole.Key(target, role), now);
    case Decide(actor, request, approve, now) =>
      if RoleConsole.MayDecide(s, supers, actor, request, approve) && approve {
        var r := s.requests[request];
        DirectorsAfterGrant(s.grants, RoleConsole.Key(r.target, r.role), r.expires, r.requester, now);
      }
  }

  /** While a revoke is pending, two directors are left for it. */
  ghost predicate TwoLeft(s: State) {
    s.pending != map[] ==> |Directors(s)| >= 2
  }

  lemma DirectorsAfterDelete(s: State, w: nat, supers: set<nat>)
    requires w in s.pending
    ensures Directors(Step(s, Delete(w), supers)) == Directors(s) - {s.pending[w]}
  {
    DirectorsAfterRemoval(s.console.grants, RoleConsole.Key(s.pending[w], RoleConsole.Director), s.now);
  }

  /** At most one director revoke is between its count and its delete. */
  predicate Alone(s: State) {
    |s.pending| <= 1
  }

  lemma StepKeepsTwoLeft(s: State, e: Event, supers: set<nat>)
    requires Alone(s) && TwoLeft(s) && (s.pending != map[] ==> Gentle(s, e, supers))
    ensures TwoLeft(Step(s, e, supers))
  {
    match e
    case Count(w, target) =>
    case Delete(w) =>
      if w in s.pending {
        OnlyOne(s.pending, w);
      }
    case _ =>
      if s.pending != map[] {
        GentleKeepsDirectors(s, e, supers);
        SmallerSet(Directors(s), Directors(Step(s, e, supers)));
      }
  }

  lemma OnlyOne(pending: map<nat, nat>, w: nat)
    requires |pending| <= 1 && w in pending
    ensures pending - {w} == map[]
  {
    assert pending.Keys == {w} + (pending.Keys - {w});
    assert |pending.Keys - {w}| == 0;
    assert (pending - {w}).Keys == {};
  }

  lemma {:induction false} AlwaysTwoLeft(states: seq<State>, events: seq<Event>, supers: set<nat>, n: nat)
    requires IsTrace(states, events, supers) && n < |states|
    requires forall k | 0 <= k < n :: Alone(states[k])
    requires forall k | 0 <= k < n && states[k].pending != map[] :: Gentle(states[k], events[k], supers)
    ensures TwoLeft(states[n])
  {
    if n > 0 {
      AlwaysTwoLeft(states, events, supers, n - 1);
      StepKeepsTwoLeft(states[n - 1], events[n - 1], supers);
    }
  }

  /** The floor: in every run in which at most one director revoke at a time is between its count and its
      delete, and no director lapses meanwhile, a revoke always leaves a director. */
  lemma FloorHolds(states: seq<State>, events: seq<Event>, supers: set<nat>, n: nat)
    requires IsTrace(states, events, supers) && n < |events| && events[n].Delete? && events[n].worker in states[n].pending
    requires forall k | 0 <= k <= n :: Alone(states[k])
    requires forall k | 0 <= k < n && states[k].pending != map[] :: Gentle(states[k], events[k], supers)
    ensures Directors(states[n + 1]) != {}
  {
    AlwaysTwoLeft(states, events, supers, n);
    var s, w := states[n], events[n].worker;
    assert s.pending != map[];
    DirectorsAfterDelete(s, w, supers);
    WithoutOne(Directors(s), s.pending[w]);
  }

  lemma WithoutOne(users: set<nat>, u: nat)
    ensures |users - {u}| >= |users| - 1
  {
    assert users - {u} + users * {u} == users;
    SmallerSet(users * {u}, {u});
  }

  // --- When pending deletes empty the board ---------------------------------------

  /** The state after some of the pending revokes have gone on to their deletes. */
  function Deleted(s: State, workers: seq<nat>, supers: set<nat>): State {
    if workers == [] then s
    else Step(Deleted(s, workers[..|workers| - 1], supers), Delete(workers[|workers| - 1]), supers)
  }

  predicate Named(s: State, u: nat) {
    exists w | w in s.pending :: s.pending[w] == u
  }

  /** A director survives any deletes that name somebody else. */
  lemma {:induction false} UnnamedSurvive(s: State, workers: seq<nat>, supers: set<nat>)
    ensures forall u | u in Directors(s) && !Named(s, u) :: u in Directors(Deleted(s, workers, supers))
    ensures forall w | w in Deleted(s, workers, supers).pending :: w in s.pending && Deleted(s, workers, supers).pending[w] == s.pending[w]
  {
    if workers != [] {
      var front, w := workers[..|workers| - 1], workers[|workers| - 1];
      UnnamedSurvive(s, front, supers);
      var before := Deleted(s, front, supers);
      if w in before.pending {
        DirectorsAfterDelete(before, w, supers);
        assert s.pending[w] == before.pending[w];
      }
    }
  }

  /** Deletes take only their own workers off the pending list, and no director comes back. */
  lemma {:induction false} OthersStay(s: State, workers: seq<nat>, supers: set<nat>)
    ensures var after := Deleted(s, workers, supers);
      && (forall w | w in s.pending && w !in workers :: w in after.pending && after.pending[w] == s.pending[w])
      && Directors(after) <= Directors(s)
  {
    if workers != [] {
      var front, w := workers[..|workers| - 1], workers[|workers| - 1];
      OthersStay(s, front, supers);
      var before := Deleted(s, front, supers);
      if w in before.pending {
        DirectorsAfterDelete(before, w, supers);
      }
      assert workers == front + [w];
    }
  }

  /** A director named by one of the workers is gone after them. */
  lemma {:induction false} NamedGoes(s: State, workers: seq<nat>, supers: set<nat>, named: nat)
    requires named in s.pending && named in workers
    ensures s.pending[named] !in Directors(Deleted(s, workers, supers))
  {
    var front, w := workers[..|workers| - 1], workers[|workers| - 1];
    var before := Deleted(s, front, supers);
    assert workers == front + [w];
    if named in front {
      NamedGoes(s, front, supers, named);
      OthersStay(before, [w], supers);
      DeletedOne(before, w, supers);
    } else {
      OthersStay(s, front, supers);
      DirectorsAfterDelete(before, w, supers);
    }
  }

  lemma DeletedOne(s: State, w: nat, supers: set<nat>)
    ensures Deleted(s, [w], supers) == Step(s, Delete(w), supers)
  {
    assert [w][..0] == [];
  }

  /** Every pending worker, in some order. */
  lemma {:induction false} Listing(workers: set<nat>) returns (list: seq<nat>)
    ensures forall w: nat :: w in list <==> w in workers
    ensures forall i, j | 0 <= i < j < |list| :: list[i] != list[j]
  {
    list := [];
    var left := workers;
    while left != {}
      invariant left <= workers && forall w: nat :: w in list <==> w in workers && w !in left
      invariant forall i, j | 0 <= i < j < |list| :: list[i] != list[j]
      decreases |left|
    {
      var w: nat :| w in left;
      list := list + [w];
      left := left - {w};
    }
  }

  /** Going on to these deletes leaves no director. */
  predicate Empties(s: State, workers: seq<nat>, supers: set<nat>) {
    Directors(Deleted(s, workers, supers)) == {}
  }

  lemma AllNamedEmpties(s: State, supers: set<nat>) returns (workers: seq<nat>)
    requires forall u | u in Directors(s) :: Named(s, u)
    ensures Empties(s, workers, supers)
  {
    workers := Listing(s.pending.Keys);
    OthersStay(s, workers, supers);
    forall u | u in Directors(s)
      ensures u !in Directors(Deleted(s, workers, supers))
    {
      assert Named(s, u);
      var w :| w in s.pending && s.pending[w] == u;
      NamedGoes(s, workers, supers, w);
    }
  }

  /** The deletes still pending can leave no director exactly when every director of the moment is named by
      a revoke that is already past its count. How many were counted no longer matters. */
  lemma PendingCanEmptyIff(s: State, supers: set<nat>)
    ensures (exists workers: seq<nat> :: Empties(s, workers, supers)) <==> forall u | u in Directors(s) :: Named(s, u)
  {
    if workers: seq<nat> :| Empties(s, workers, supers) {
      UnnamedSurvive(s, workers, supers);
    }
    if forall u | u in Directors(s) :: Named(s, u) {
      var workers := AllNamedEmpties(s, supers);
    }
  }

  // --- Two runs that empty the board -----------------------------------------------

  const BOTH: map<RoleConsole.Key, RoleConsole.Grant> :=
    map[RoleConsole.Key(1, RoleConsole.Director) := RoleConsole.Grant(None, 1),
        RoleConsole.Key(2, RoleConsole.Director) := RoleConsole.Grant(None, 1)]

  const TWO_EVENTS: seq<Event> := [Count(10, 2), Count(20, 1), Delete(10), Delete(20)]

  const TWO_STATES: seq<State> := [
    State(RoleConsole.State(BOTH, []), 0, map[]),
    State(RoleConsole.State(BOTH, []), 0, map[10 := 2]),
    State(RoleConsole.State(BOTH, []), 0, map[10 := 2, 20 := 1]),
    State(RoleConsole.State(map[RoleConsole.Key(1, RoleConsole.Director) := RoleConsole.Grant(None, 1)], []), 0, map[20 := 1]),
    State(RoleConsole.State(map[], []), 0, map[])]

  /** Two directors revoking each other at once: each counts two, and none is left. */
  lemma TwoRevokesEmptyTheBoard()
    ensures IsTrace(TWO_STATES, TWO_EVENTS, {})
    ensures |Directors(TWO_STATES[0])| == 2 && Directors(TWO_STATES[4]) == {}
  {
    assert RoleConsole.HoldsDirector(BOTH, 1, 0) && RoleConsole.HoldsDirector(BOTH, 2, 0);
    assert Directors(TWO_STATES[0]) == {1, 2} == Directors(TWO_STATES[1]);
    assert TWO_STATES[2].pending - {10} == map[20 := 1] && TWO_STATES[3].pending - {20} == map[];
    assert BOTH - {RoleConsole.Key(2, RoleConsole.Director)} == TWO_STATES[3].console.grants;
    assert TWO_STATES[3].console.grants - {RoleConsole.Key(1, RoleConsole.Director)} == map[];
  }

  const LAPSING: map<RoleConsole.Key, RoleConsole.Grant> :=
    map[RoleConsole.Key(1, RoleConsole.Director) := RoleConsole.Grant(None, 1),
        RoleConsole.Key(2, RoleConsole.Director) := RoleConsole.Grant(Some(5), 1)]

  const LAPSE_EVENTS: seq<Event> := [Count(10, 1), Tick(5), Delete(10)]

  const LAPSE_STATES: seq<State> := [
    State(RoleConsole.State(LAPSING, []), 0, map[]),
    State(RoleConsole.State(LAPSING, []), 0, map[10 := 1]),
    State(RoleConsole.State(LAPSING, []), 5, map[10 := 1]),
    State(RoleConsole.State(map[RoleConsole.Key(2, RoleConsole.Director) := RoleConsole.Grant(Some(5), 1)], []), 5, map[])]

  /** And a single revoke can do it when the other director lapses between its count and its delete. */
  lemma LapseEmptiesTheBoard()
    ensures IsTrace(LAPSE_STATES, LAPSE_EVENTS, {})
    ensures forall k | 0 <= k < 4 :: Alone(LAPSE_STATES[k])
    ensures Directors(LAPSE_STATES[2]) == {1} && Directors(LAPSE_STATES[3]) == {}
  {
    assert RoleConsole.HoldsDirector(LAPSING, 1, 0) && RoleConsole.HoldsDirector(LAPSING, 2, 0);
    assert Directors(LAPSE_STATES[0]) == {1, 2};
    assert RoleConsole.HoldsDirector(LAPSING, 1, 5) && !RoleConsole.HoldsDirector(LAPSING, 2, 5);
    assert LAPSE_STATES[2].pending - {10} == map[];
    assert LAPSING - {RoleConsole.Key(1, RoleConsole.Director)} == LAPSE_STATES[3].console.grants;
  }
}
