/** What every run of the role console keeps, and where the last director can be lost. */
module RoleLaws {
  import opened Options
  import opened RoleConsole

  /** The states a run of submissions passes through, starting with no request on file. */
  ghost predicate IsTrace(states: seq<State>, events: seq<Event>, supers: set<nat>) {
    && |states| == |events| + 1 && states[0].requests == []
    && forall n | 0 <= n < |events| :: states[n + 1] == Step(states[n], events[n], supers)
  }

  // --- Requests ------------------------------------------------------------------

  /** Requests are for director grants only; what was asked for never changes, and a decision is final. */
  predicate RequestKept(before: Request, after: Request) {
    && after.(status := before.status, decidedBy := before.decidedBy) == before
    && (!before.status.Pending? ==> after == before)
  }

  lemma StepKeepsRequests(s: State, e: Event, supers: set<nat>)
    requires forall i | 0 <= i < |s.requests| :: s.requests[i].role.Director?
    ensures var s' := Step(s, e, supers);
      && |s.requests| <= |s'.requests|
      && (forall i | 0 <= i < |s'.requests| :: s'.requests[i].role.Director?)
      && (forall i | 0 <= i < |s.requests| :: RequestKept(s.requests[i], s'.requests[i]))
      && (forall i | |s.requests| <= i < |s'.requests| :: s'.requests[i].status.Pending?)
  {
  }

  lemma {:induction false} RunKeepsRequests(states: seq<State>, events: seq<Event>, supers: set<nat>, m: nat, n: nat)
    requires IsTrace(states, events, supers) && m <= n < |states|
    ensures forall i | 0 <= i < |states[n].requests| :: states[n].requests[i].role.Director?
    ensures |states[m].requests| <= |states[n].requests|
    ensures forall i | 0 <= i < |states[m].requests| :: RequestKept(states[m].requests[i], states[n].requests[i])
    decreases n
  {
    if n > 0 {
      RunKeepsRequests(states, events, supers, if m == n then m - 1 else m, n - 1);
      StepKeepsRequests(states[n - 1], events[n - 1], supers);
    }
  }

  // --- Director grants --------------------------------------------------------------

  /** The user's grant of the role is new or has a new expiry. */
  predicate Mints(s: State, s': State, k: Key) {
    k in s'.grants && (k !in s.grants || s'.grants[k] != s.grants[k])
  }

  /** Request r is approved in this step, by someone other than its requester unless a superuser. */
  predicate Approves(s: State, e: Event, s': State, r: nat, supers: set<nat>) {
    && e.Decide? && e.approve && e.request == r && r < |s.requests| && r < |s'.requests|
    && s.requests[r].status.Pending?
    && (e.actor != s.requests[r].requester || e.actor in supers)
    && s'.requests[r] == s.requests[r].(status := Approved, decidedBy := Some(e.actor))
  }

  lemma MintingIsApproval(s: State, e: Event, supers: set<nat>, user: nat)
    requires Mints(s, Step(s, e, supers), Key(user, Director))
    ensures e.Decide? && Approves(s, e, Step(s, e, supers), e.request, supers)
    ensures s.requests[e.request].target == user && s.requests[e.request].role.Director?
    ensures Step(s, e, supers).grants[Key(user, Director)] == Grant(s.requests[e.request].expires, s.requests[e.request].requester)
  {
  }

  /** Every director grant that comes up in a run has an approved request of its own behind it, made for
      that user, pending until then, and decided by a second person unless a superuser; and no request
      is ever decided again, so no two grants share one. */
  lemma EachDirectorGrantHasItsOwnApproval(states: seq<State>, events: seq<Event>, supers: set<nat>, n: nat, user: nat)
    requires IsTrace(states, events, supers) && n < |events|
    requires Mints(states[n], states[n + 1], Key(user, Director))
    ensures events[n].Decide?
    ensures var r := events[n].request;
      && Approves(states[n], events[n], states[n + 1], r, supers)
      && states[n].requests[r].target == user
      && states[n + 1].grants[Key(user, Director)].expires == states[n].requests[r].expires
      && (forall m | n < m < |states| :: r < |states[m].requests| && states[m].requests[r] == states[n + 1].requests[r])
      && (forall m | 0 <= m < |events| && m != n :: !Approves(states[m], events[m], states[m + 1], r, supers))
  {
    MintingIsApproval(states[n], events[n], supers, user);
    var r := events[n].request;
    forall m | n < m < |states|
      ensures r < |states[m].requests| && states[m].requests[r] == states[n + 1].requests[r]
    {
      RunKeepsRequests(states, events, supers, n + 1, m);
      assert RequestKept(states[n + 1].requests[r], states[m].requests[r]);
    }
    forall m | 0 <= m < |events| && m != n
      ensures !Approves(states[m], events[m], states[m + 1], r, supers)
    {
      if m < n {
        RunKeepsRequests(states, events, supers, m + 1, n);
        assert r < |states[m + 1].requests| ==> RequestKept(states[m + 1].requests[r], states[n].requests[r]);
      }
    }
  }

  /** No run touches the admin role or a role the list does not know: nobody is made admin, and nobody's
      admin grant is taken away or given another expiry. */
  lemma {:induction false} UnmanagedRolesUntouched(states: seq<State>, events: seq<Event>, supers: set<nat>, n: nat, k: Key)
    requires IsTrace(states, events, supers) && n < |states| && (k.role.Admin? || k.role.Unlisted?)
    ensures k in states[n].grants <==> k in states[0].grants
    ensures k in states[n].grants ==> states[n].grants[k] == states[0].grants[k]
  {
    if n > 0 {
      UnmanagedRolesUntouched(states, events, supers, n - 1, k);
      RunKeepsRequests(states, events, supers, n - 1, n - 1);
    }
  }

  // --- The last director ---------------------------------------------------------------

  lemma DirectorsAfterRemoval(grants: map<Key, Grant>, k: Key, now: int)
    ensures ActiveDirectors(grants - {k}, now) == if k.role.Director? then ActiveDirectors(grants, now) - {k.user} else ActiveDirectors(grants, now)
  {
    forall u: nat
      ensures HoldsDirector(grants - {k}, u, now) <==> HoldsDirector(grants, u, now) && k != Key(u, Director)
    {
    }
  }

  lemma DirectorsAfterGrant(grants: map<Key, Grant>, k: Key, expires: Option<int>, by': nat, now: int)
    ensures ActiveDirectors(Granted(grants, k, expires, by'), now)
         == if !k.role.Director? then ActiveDirectors(grants, now)
            else if expires.Some? && expires.value <= now then ActiveDirectors(grants, now) - {k.user}
            else ActiveDirectors(grants, now) + {k.user}
  {
    forall u: nat
      ensures HoldsDirector(Granted(grants, k, expires, by'), u, now)
         <==> if k == Key(u, Director) then expires.None? || expires.value > now else HoldsDirector(grants, u, now)
    {
    }
  }

  /** An approval given after the expiry the request asked for. */
  predicate IsLateApproval(s: State, e: Event, supers: set<nat>) {
    && e.Decide? && e.approve && MayDecide(s, supers, e.actor, e.request, true)
    && s.requests[e.request].role.Director?
    && s.requests[e.request].expires.Some? && s.requests[e.request].expires.value <= e.now
  }

  /** A submission leaves no director at its own instant exactly when it approves, too late, a request
      for the only one there is: the lapsed expiry overwrites the standing grant. No revoke does. */
  lemma LastDirectorLostIff(s: State, e: Event, supers: set<nat>)
    requires ActiveDirectors(s.grants, e.now) != {}
    ensures ActiveDirectors(Step(s, e, supers).grants, e.now) == {}
       <==> IsLateApproval(s, e, supers) && ActiveDirectors(s.grants, e.now) == {s.requests[e.request].target}
  {
    match e
    case GrantRole(actor, target, role, expiry, now) =>
      DirectorsAfterGrant(s.grants, Key(target, role), ExpiryOf(expiry), actor, now);
    case RevokeRole(actor, target, role, now) =>
      RevokeLeavesOne(s, e, supers);
    case Decide(actor, request, approve, now) =>
      if MayDecide(s, supers, actor, request, approve) && approve {
        var r := s.requests[request];
        DirectorsAfterGrant(s.grants, Key(r.target, r.role), r.expires, r.requester, now);
        assert ActiveDirectors(s.grants, now) - {r.target} == {} <==> ActiveDirectors(s.grants, now) == {r.target};
      }
  }

  /** A revoke that takes effect, as one step, leaves at least one director whose grant has not lapsed. */
  lemma RevokeLeavesOne(s: State, e: Event, supers: set<nat>)
    requires e.RevokeRole?
    ensures e.role.Director? && Step(s, e, supers) != s ==> ActiveDirectors(Step(s, e, supers).grants, e.now) != {}
    ensures ActiveDirectors(s.grants, e.now) != {} ==> ActiveDirectors(Step(s, e, supers).grants, e.now) != {}
  {
    DirectorsAfterRemoval(s.grants, Key(e.target, e.role), e.now);
    var directors := ActiveDirectors(s.grants, e.now);
    if directors - {e.target} == {} {
      assert directors <= {e.target};
      SmallerSet(directors, {e.target});
    }
  }

  lemma SmallerSet(a: set<nat>, b: set<nat>)
    requires a <= b
    ensures |a| <= |b|
  {
    assert b == a + (b - a);
  }

  /** The states of a run that brings the late approval about: one director has asked for a short grant
      for the other, who is asked to approve it once the first one's own grant has lapsed. */
  const LATE_STATES: seq<State> := [
    State(map[Key(1, Director) := Grant(None, 1), Key(2, Director) := Grant(Some(15), 1)], []),
    State(map[Key(1, Director) := Grant(None, 1), Key(2, Director) := Grant(Some(15), 1)],
          [Request(1, Director, Some(10), 2, Pending, None)]),
    State(map[Key(1, Director) := Grant(Some(10), 2), Key(2, Director) := Grant(Some(15), 1)],
          [Request(1, Director, Some(10), 2, Approved, Some(1))])]

  const LATE_EVENTS: seq<Event> := [GrantRole(2, 1, Director, At(10), 5), Decide(1, 0, true, 20)]

  /** A run of two submissions, each by a director of its moment, that leaves none: the permanent grant of
      the only one left is replaced by one that has already lapsed. */
  lemma LateApprovalExample()
    ensures IsTrace(LATE_STATES, LATE_EVENTS, {})
    ensures HoldsDirector(LATE_STATES[0].grants, 2, 5) && HoldsDirector(LATE_STATES[1].grants, 1, 20)
    ensures ActiveDirectors(LATE_STATES[1].grants, 20) != {} && ActiveDirectors(LATE_STATES[2].grants, 20) == {}
  {
    var s := LATE_STATES[1];
    assert HoldsDirector(s.grants, 1, 20);
    assert ActiveDirectors(s.grants, 20) == {1};
    LateSteps();
    LastDirectorLostIff(s, LATE_EVENTS[1], {});
    assert IsLateApproval(s, LATE_EVENTS[1], {});
  }

  lemma LateSteps()
    ensures LATE_STATES[1] == Step(LATE_STATES[0], LATE_EVENTS[0], {})
    ensures LATE_STATES[2] == Step(LATE_STATES[1], LATE_EVENTS[1], {})
  {
    assert !HasOpen(LATE_STATES[0].requests, 1, Director);
    assert LATE_STATES[0].requests + [Request(1, Director, Some(10), 2, Pending, None)] == LATE_STATES[1].requests;
  }
}
