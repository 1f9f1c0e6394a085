/** Granting and revoking roles from the members console, with a second director for director grants. */
module RoleConsole {
  import opened Options

  datatype Role = Member | Officer | Director | Recruiter | Fc | Admin | Unlisted(key: string)

  /** The roles a director may manage here; everything else is refused. */
  predicate Manageable(role: Role) {
    role.Member? || role.Officer? || role.Director? || role.Recruiter? || role.Fc?
  }

  predicate RequiresDualControl(role: Role) {
    role.Director?
  }

  datatype Key = Key(user: nat, role: Role)

  datatype Grant = Grant(expires: Option<int>, grantedBy: nat)

  datatype Status = Pending | Approved | Rejected

  datatype Request = Request(target: nat, role: Role, expires: Option<int>, requester: nat, status: Status, decidedBy: Option<nat>)

  datatype State = State(grants: map<Key, Grant>, requests: seq<Request>)

  /** What was typed into the expiry field. */
  datatype Expiry = Blank | Unreadable | At(time: int)

  datatype Event =
    | GrantRole(actor: nat, target: nat, role: Role, expiry: Expiry, now: int)
    | RevokeRole(actor: nat, target: nat, role: Role, now: int)
    | Decide(actor: nat, request: nat, approve: bool, now: int)

  // --- The steps ---------------------------------------------------------------

  predicate Current(g: Grant, now: int) {
    g.expires.None? || g.expires.value > now
  }

  predicate HoldsDirector(grants: map<Key, Grant>, user: nat, now: int) {
    Key(user, Director) in grants && Current(grants[Key(user, Director)], now)
  }

  /** The directors whose grant has not lapsed. */
  function ActiveDirectors(grants: map<Key, Grant>, now: int): (users: set<nat>)
    ensures forall u: nat :: u in users <==>
      Key(u, Director) in grants && (grants[Key(u, Director)].expires.None? || grants[Key(u, Director)].expires.value > now)
  {
    var users := set k | k in grants && k.role.Director? && Current(grants[k], now) :: k.user;
    assert forall u: nat :: u in users ==> HoldsDirector(grants, u, now) by {
      forall u: nat | u in users
        ensures HoldsDirector(grants, u, now)
      {
        var k :| k in grants && k.role.Director? && Current(grants[k], now) && k.user == u;
        assert k == Key(u, Director);
      }
    }
    assert forall u: nat :: HoldsDirector(grants, u, now) ==> Key(u, Director).user in users;
    users
  }

  /** Create the grant, or give an existing one its new expiry. */
  function Granted(grants: map<Key, Grant>, k: Key, expires: Option<int>, grantedBy: nat): map<Key, Grant> {
    if k in grants && grants[k].expires == expires then grants else grants[k := Grant(expires, grantedBy)]
  }

  predicate ReadableExpiry(expiry: Expiry, now: int) {
    expiry.Blank? || (expiry.At? && expiry.time > now)
  }

  function ExpiryOf(expiry: Expiry): Option<int> {
    if expiry.At? then Some(expiry.time) else None
  }

  predicate IsOpenFor(r: Request, target: nat, role: Role) {
    r.status.Pending? && r.target == target && r.role == role
  }

  predicate HasOpen(requests: seq<Request>, target: nat, role: Role) {
    exists i :: 0 <= i < |requests| && IsOpenFor(requests[i], target, role)
  }

  predicate MayDecide(s: State, supers: set<nat>, actor: nat, request: nat, approve: bool) {
    && request < |s.requests| && s.requests[request].status.Pending?
    && (approve ==> s.requests[request].requester != actor || actor in supers)
  }

  /** The console has no more than one director left to count. */
  predicate LastDirector(grants: map<Key, Grant>, now: int) {
    |ActiveDirectors(grants, now)| <= 1
  }

  /** One submission; a refused one changes nothing. */
  function Step(s: State, e: Event, supers: set<nat>): State {
    match e
    case GrantRole(actor, target, role, expiry, now) =>
      if !Manageable(role) || !ReadableExpiry(expiry, now) then s
      else if RequiresDualControl(role) then
        if HasOpen(s.requests, target, role) then s
        else s.(requests := s.requests + [Request(target, role, ExpiryOf(expiry), actor, Pending, None)])
      else s.(grants := Granted(s.grants, Key(target, role), ExpiryOf(expiry), actor))
    case RevokeRole(actor, target, role, now) =>
      if !Manageable(role) || (role.Director? && LastDirector(s.grants, now)) then s
      else s.(grants := s.grants - {Key(target, role)})
    case Decide(actor, request, approve, now) =>
      if !MayDecide(s, supers, actor, request, approve) then s
      else
        var r := s.requests[request];
        State(if approve then Granted(s.grants, Key(r.target, r.role), r.expires, r.requester) else s.grants,
              s.requests[request := r.(status := if approve then Approved else Rejected, decidedBy := Some(actor))])
  }

  // --- The console as it runs ----------------------------------------------------

  datatype Answer = Applied | Requested | AlreadyAwaiting | NotManageable | BadExpiry | LastOne | NotPending | OwnRequest | Decided

  class Console {
    var grants: map<Key, Grant>
    var requests: seq<Request>
    const supers: set<nat>

    constructor (grants: map<Key, Grant>, supers: set<nat>)
      ensures AsState() == State(grants, []) && this.supers == supers
    {
      this.grants, requests, this.supers := grants, [], supers;
    }

    ghost function AsState(): State
      reads this
    {
      State(grants, requests)
    }

    method ApplyGrant(target: nat, role: Role, expires: Option<int>, grantedBy: nat)
      modifies this`grants
      ensures grants == if Key(target, role) in old(grants) && old(grants)[Key(target, role)].expires == expires then old(grants)
                        else old(grants)[Key(target, role) := Grant(expires, grantedBy)]
    {
      var k := Key(target, role);
      if k !in grants {
        grants := grants[k := Grant(expires, grantedBy)];
      } else if grants[k].expires != expires {
        grants := grants[k := grants[k].(expires := expires, grantedBy := grantedBy)];
      }
    }

    method SetRole(actor: nat, target: nat, role: Role, grant: bool, expiry: Expiry, now: int) returns (answer: Answer)
      modifies this
      ensures AsState() == Step(old(AsState()), if grant then GrantRole(actor, target, role, expiry, now) else RevokeRole(actor, target, role, now), supers)
      ensures answer.NotManageable? <==> role.Admin? || role.Unlisted?
      ensures answer.BadExpiry? <==>
        !answer.NotManageable? && grant && (expiry.Unreadable? || (expiry.At? && expiry.time <= now))
      ensures answer.Requested? || answer.AlreadyAwaiting? <==> grant && role.Director? && !answer.BadExpiry?
      ensures answer.AlreadyAwaiting? ==>
        exists i :: 0 <= i < |requests| && requests[i].status.Pending? && requests[i].target == target && requests[i].role == role
      ensures answer.Requested? ==>
        && (forall i | 0 <= i < |old(requests)| && old(requests)[i].status.Pending? ::
              old(requests)[i].target != target || old(requests)[i].role != role)
        && grants == old(grants)
        && requests == old(requests) + [Request(target, role, if expiry.At? then Some(expiry.time) else None, actor, Pending, None)]
      ensures answer.LastOne? <==> !grant && role.Director? && |ActiveDirectors(old(grants), now)| <= 1
      ensures answer.Applied? ==> requests == old(requests)
      ensures answer.Applied? && !grant ==> grants == old(grants) - {Key(target, role)}
      ensures answer.Applied? && grant ==>
        var k, expires := Key(target, role), if expiry.At? then Some(expiry.time) else None;
        grants == if k in old(grants) && old(grants)[k].expires == expires then old(grants) else old(grants)[k := Grant(expires, actor)]
      ensures answer in {NotManageable, BadExpiry, AlreadyAwaiting, LastOne, Requested, Applied}
      ensures answer in {NotManageable, BadExpiry, AlreadyAwaiting, LastOne} ==> AsState() == old(AsState())
    {
      if !Manageable(role) {
        return NotManageable;
      }
      if grant && !ReadableExpiry(expiry, now) {
        return BadExpiry;
      }
      if grant && RequiresDualControl(role) {
        if HasOpen(requests, target, role) {
          return AlreadyAwaiting;
        }
        requests := requests + [Request(target, role, ExpiryOf(expiry), actor, Pending, None)];
        return Requested;
      }
      if grant {
        ApplyGrant(target, role, ExpiryOf(expiry), actor);
      } else {
        if role.Director? && |ActiveDirectors(grants, now)| <= 1 {
          return LastOne;
        }
        grants := grants - {Key(target, role)};
      }
      return Applied;
    }

    method RoleRequestDecide(actor: nat, request: nat, approve: bool, now: int) returns (answer: Answer)
      modifies this
      ensures AsState() == Step(old(AsState()), Decide(actor, request, approve, now), supers)
      ensures answer.Decided? <==>
        && request < |old(requests)| && old(requests)[request].status.Pending?
        && (approve ==> old(requests)[request].requester != actor || actor in supers)
      ensures !answer.Decided? ==> AsState() == old(AsState())
      ensures answer.Decided? ==>
        var r := old(requests)[request];
        var k := Key(r.target, r.role);
        && requests == old(requests)[request := r.(status := if approve then Approved else Rejected, decidedBy := Some(actor))]
        && grants == if !approve || (k in old(grants) && old(grants)[k].expires == r.expires) then old(grants)
                     else old(grants)[k := Grant(r.expires, r.requester)]
    {
      if request >= |requests| || !requests[request].status.Pending? {
        return NotPending;
      }
      var r := requests[request];
      if approve && r.requester == actor && actor !in supers {
        return OwnRequest;
      }
      if approve {
        ApplyGrant(r.target, r.role, r.expires, r.requester);
      }
      requests := requests[request := r.(status := if approve then Approved else Rejected, decidedBy := Some(actor))];
      return Decided;
    }
  }
}
