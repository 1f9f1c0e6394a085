/** A posted lot under concurrent requests: buying is one conditional update, settling reads and then saves. */
module LotBoard {
  import opened Options

  datatype Status = Open | Purchased | Paid | Cancelled

  datatype Lot = Lot(seller: Option<nat>, status: Status, buyer: Option<nat>)

  datatype Action = Buy | Cancel | MarkPaid

  /** A request that has read the lot and still has to write. */
  datatype Pending = Claim(user: nat) | Save(status: Status)

  datatype State = State(lot: Lot, pending: map<nat, Pending>)

  /** Read the lot and pass its checks, or write what was decided on. */
  datatype Event = Begin(request: nat, user: nat, officer: bool, action: Action) | Finish(request: nat)

  /** What the checks on the lot as read allow the request to write. */
  function Admitted(lot: Lot, user: nat, officer: bool, action: Action): Option<Pending> {
    match action
    case Buy =>
      if lot.seller == Some(user) then None else Some(Claim(user))
    case Cancel =>
      if !(lot.seller == Some(user) || officer) then None
      else if !(lot.status.Open? || lot.status.Purchased?) then None
      else Some(Save(Cancelled))
    case MarkPaid =>
      if !(lot.buyer == Some(user) || lot.seller == Some(user) || officer) then None
      else if !lot.status.Purchased? then None
      else Some(Save(Paid))
  }

  /** A claim takes the lot only if it is still open; a save writes the status whatever it is by now. */
  function Written(lot: Lot, p: Pending): Lot {
    match p
    case Claim(user) => if lot.status.Open? then lot.(status := Purchased, buyer := Some(user)) else lot
    case Save(status) => lot.(status := status)
  }

  function Step(s: State, e: Event): State {
    match e
    case Begin(r, user, officer, action) =>
      var admitted := Admitted(s.lot, user, officer, action);
      if r in s.pending || admitted.None? then s else s.(pending := s.pending[r := admitted.value])
    case Finish(r) =>
      if r !in s.pending then s else State(Written(s.lot, s.pending[r]), s.pending - {r})
  }

  /** The states a run passes through, from a lot just posted. */
  ghost predicate IsTrace(states: seq<State>, events: seq<Event>) {
    && |states| == |events| + 1
    && states[0].lot.status.Open? && states[0].lot.buyer.None? && states[0].pending == map[]
    && forall n | 0 <= n < |events| :: states[n + 1] == Step(states[n], events[n])
  }

  // --- The two views, uninterrupted ------------------------------------------------

  class Row {
    var lot: Lot

    constructor (seller: Option<nat>)
      ensures lot == Lot(seller, Open, None)
    {
      lot := Lot(seller, Open, None);
    }

    /** The conditional update: how many rows it changed. */
    method UpdateIfOpen(buyer: nat) returns (changed: nat)
      modifies this
      ensures lot == if old(lot).status.Open? then Lot(old(lot).seller, Purchased, Some(buyer)) else old(lot)
      ensures changed == if old(lot).status.Open? then 1 else 0
    {
      if lot.status.Open? {
        lot := lot.(status := Purchased, buyer := Some(buyer));
        changed := 1;
      } else {
        changed := 0;
      }
    }

    method BuyOffer(user: nat) returns (bought: bool)
      modifies this
      ensures lot == Step(Step(State(old(lot), map[]), Begin(0, user, false, Buy)), Finish(0)).lot
      ensures bought <==> old(lot).status.Open? && old(lot).seller != Some(user)
      ensures bought ==> lot == Lot(old(lot).seller, Purchased, Some(user))
      ensures !bought ==> lot == old(lot)
    {
      if lot.seller == Some(user) {
        return false;
      }
      var changed := UpdateIfOpen(user);
      bought := changed != 0;
    }

    method OfferAction(user: nat, officer: bool, action: Action) returns (done: bool)
      requires action.Cancel? || action.MarkPaid?
      modifies this
      ensures lot == Step(Step(State(old(lot), map[]), Begin(0, user, officer, action)), Finish(0)).lot
      ensures done <==>
        if action.Cancel? then (old(lot).seller == Some(user) || officer) && (old(lot).status.Open? || old(lot).status.Purchased?)
        else (old(lot).buyer == Some(user) || old(lot).seller == Some(user) || officer) && old(lot).status.Purchased?
      ensures done ==> lot == old(lot).(status := if action.Cancel? then Cancelled else Paid)
      ensures !done ==> lot == old(lot)
    {
      var status: Status;
      if action.Cancel? {
        if !(lot.seller == Some(user) || officer) {
          return false;
        }
        if !(lot.status.Open? || lot.status.Purchased?) {
          return false;
        }
        status := Cancelled;
      } else {
        if !(lot.buyer == Some(user) || lot.seller == Some(user) || officer) {
          return false;
        }
        if !lot.status.Purchased? {
          return false;
        }
        status := Paid;
      }
      lot := lot.(status := status);
      return true;
    }
  }

  /** A request gets under way exactly when the lot as it reads it allows: anybody but the seller may buy, the
      seller or an officer may cancel an open or purchased lot, and buyer, seller or an officer may mark a
      purchased one as paid. */
  lemma BeginsIff(s: State, e: Event)
    requires e.Begin? && e.request !in s.pending
    ensures Step(s, e) != s <==>
      match e.action
      case Buy => s.lot.seller != Some(e.user)
      case Cancel => (s.lot.seller == Some(e.user) || e.officer) && (s.lot.status.Open? || s.lot.status.Purchased?)
      case MarkPaid => (s.lot.buyer == Some(e.user) || s.lot.seller == Some(e.user) || e.officer) && s.lot.status.Purchased?
    ensures Step(s, e) != s ==>
      Step(s, e).lot == s.lot && e.request in Step(s, e).pending && Step(s, e).pending[e.request] ==
        match e.action
        case Buy => Claim(e.user)
        case Cancel => Save(Cancelled)
        case MarkPaid => Save(Paid)
  {
    var admitted := Admitted(s.lot, e.user, e.officer, e.action);
    if admitted.Some? {
      assert e.request in s.pending[e.request := admitted.value];
    }
  }

  // --- Every interleaving ------------------------------------------------------------

  ghost predicate Sound(s: State) {
    && (s.lot.status.Open? ==> s.lot.buyer.None?)
    && (s.lot.status.Purchased? || s.lot.status.Paid? ==> s.lot.buyer.Some?)
    && (s.lot.buyer.Some? ==> s.lot.buyer != s.lot.seller)
    && forall r | r in s.pending ::
      match s.pending[r]
      case Claim(user) => s.lot.seller != Some(user)
      case Save(status) => status.Cancelled? || (status.Paid? && s.lot.buyer.Some?)
  }

  /** What one step may do to a lot. */
  predicate Progresses(before: Lot, after: Lot) {
    && after.seller == before.seller
    && (before.buyer.Some? ==> after.buyer == before.buyer)
    && (!before.status.Open? ==> !after.status.Open? && after.buyer == before.buyer)
  }

  lemma StepIsSound(s: State, e: Event)
    requires Sound(s)
    ensures Sound(Step(s, e)) && Progresses(s.lot, Step(s, e).lot)
  {
  }

  lemma {:induction false} RunIsSound(states: seq<State>, events: seq<Event>, n: nat)
    requires IsTrace(states, events) && n < |states|
    ensures Sound(states[n])
  {
    if n > 0 {
      RunIsSound(states, events, n - 1);
      StepIsSound(states[n - 1], events[n - 1]);
    }
  }

  /** However requests interleave: the buyer is set at most once and is never the seller, a lot that has
      left the board never comes back, and a lot taken or paid has its buyer on record. */
  lemma {:induction false} OneBuyerForGood(states: seq<State>, events: seq<Event>, m: nat, n: nat)
    requires IsTrace(states, events) && m <= n < |states|
    ensures states[m].lot.buyer.Some? ==> states[n].lot.buyer == states[m].lot.buyer
    ensures states[n].lot.buyer.Some? ==> states[n].lot.buyer != states[n].lot.seller == states[0].lot.seller
    ensures !states[m].lot.status.Open? ==> !states[n].lot.status.Open? && states[n].lot.buyer == states[m].lot.buyer
    ensures states[n].lot.status.Purchased? || states[n].lot.status.Paid? ==> states[n].lot.buyer.Some?
    decreases n - m, m
  {
    RunIsSound(states, events, n);
    if m < n {
      RunIsSound(states, events, m);
      StepIsSound(states[m], events[m]);
      OneBuyerForGood(states, events, m + 1, n);
    } else if m > 0 {
      RunIsSound(states, events, m - 1);
      StepIsSound(states[m - 1], events[m - 1]);
      SellerStays(states, events, m);
    }
  }

  lemma {:induction false} SellerStays(states: seq<State>, events: seq<Event>, n: nat)
    requires IsTrace(states, events) && n < |states|
    ensures states[n].lot.seller == states[0].lot.seller
  {
    if n > 0 {
      SellerStays(states, events, n - 1);
      RunIsSound(states, events, n - 1);
      StepIsSound(states[n - 1], events[n - 1]);
    }
  }

  // --- Settled lots ------------------------------------------------------------------

  predicate Settled(lot: Lot) {
    lot.status.Paid? || lot.status.Cancelled?
  }

  predicate SavePending(s: State, r: nat) {
    r in s.pending && s.pending[r].Save?
  }

  /** Every save comes straight after the read that allowed it. */
  ghost predicate AtomicActions(states: seq<State>, events: seq<Event>)
    requires |states| == |events| + 1
  {
    forall n, r | 0 <= n < |states| && SavePending(states[n], r) ::
      0 < n < |events| && events[n - 1].Begin? && events[n - 1].request == r && events[n] == Finish(r)
  }

  /** A settled lot changes exactly when a save decided on before is written over it. */
  lemma SettledOverwrittenIff(s: State, e: Event)
    requires Settled(s.lot)
    ensures Step(s, e).lot != s.lot
       <==> e.Finish? && e.request in s.pending && s.pending[e.request].Save? && s.pending[e.request].status != s.lot.status
  {
  }

  /** The lot's state after any further steps. */
  function After(s: State, events: seq<Event>): State {
    if events == [] then s else Step(After(s, events[..|events| - 1]), events[|events| - 1])
  }

  /** A save is under way that would write something else. */
  predicate Overhangs(s: State) {
    exists r | r in s.pending :: s.pending[r].Save? && s.pending[r].status != s.lot.status
  }

  /** No request that reads a settled lot is allowed to save to it. */
  lemma {:induction false} SettledStays(s: State, events: seq<Event>)
    requires Settled(s.lot) && !Overhangs(s)
    ensures After(s, events).lot == s.lot && !Overhangs(After(s, events))
  {
    if events != [] {
      var before, e := After(s, events[..|events| - 1]), events[|events| - 1];
      SettledStays(s, events[..|events| - 1]);
      SettledOverwrittenIff(before, e);
      forall r | r in Step(before, e).pending && Step(before, e).pending[r].Save?
        ensures Step(before, e).pending[r].status == s.lot.status
      {
        assert r in before.pending && before.pending[r].Save?;
      }
    }
  }

  predicate Changes(s: State, events: seq<Event>) {
    After(s, events).lot != s.lot
  }

  lemma OverhangChanges(s: State, r: nat)
    requires r in s.pending && s.pending[r].Save? && s.pending[r].status != s.lot.status
    ensures Changes(s, [Finish(r)])
  {
    var more := [Finish(r)];
    assert more[..0] == [] && After(s, more[..0]) == s;
    assert After(s, more) == Step(s, more[0]);
    assert After(s, more).lot.status == s.pending[r].status;
  }

  /** A settled lot can still change exactly when, by the time it is settled, some other request has read
      it and is about to save another status. Nothing that begins later can change it. */
  lemma SettledCanChangeIff(s: State)
    requires Settled(s.lot)
    ensures (exists events :: Changes(s, events)) <==> Overhangs(s)
  {
    if r :| r in s.pending && s.pending[r].Save? && s.pending[r].status != s.lot.status {
      OverhangChanges(s, r);
    } else {
      forall events
        ensures !Changes(s, events)
      {
        SettledStays(s, events);
      }
    }
  }

  /** With each settling request in one piece, paid and cancelled are final. */
  lemma {:induction false} SettledForGood(states: seq<State>, events: seq<Event>, m: nat, n: nat)
    requires IsTrace(states, events) && AtomicActions(states, events) && m <= n < |states|
    requires Settled(states[m].lot)
    ensures states[n].lot == states[m].lot
    decreases n
  {
    if m < n {
      SettledForGood(states, events, m, n - 1);
      var s, e := states[n - 1], events[n - 1];
      SettledOverwrittenIff(s, e);
      if e.Finish? && e.request in s.pending && s.pending[e.request].Save? {
        assert SavePending(states[n - 1], e.request);
        FreshRead(states, events, n - 1, e.request);
      }
    }
  }

  lemma SaveIsNext(states: seq<State>, events: seq<Event>, n: nat, r: nat)
    requires IsTrace(states, events) && AtomicActions(states, events) && n < |states| && SavePending(states[n], r)
    ensures 0 < n < |events| && events[n - 1].Begin? && events[n - 1].request == r && events[n] == Finish(r)
  {
  }

  lemma NoSaveBeforeRead(states: seq<State>, events: seq<Event>, n: nat, r: nat)
    requires IsTrace(states, events) && AtomicActions(states, events) && n < |events| && events[n].Begin?
    ensures !SavePending(states[n], r)
  {
    if SavePending(states[n], r) {
      SaveIsNext(states, events, n, r);
    }
  }

  /** A save that is pending straight after its read was allowed by the lot as it still is. */
  lemma FreshRead(states: seq<State>, events: seq<Event>, n: nat, r: nat)
    requires IsTrace(states, events) && AtomicActions(states, events) && n < |states| && SavePending(states[n], r)
    ensures !Settled(states[n].lot)
  {
    SaveIsNext(states, events, n, r);
    NoSaveBeforeRead(states, events, n - 1, r);
    assert states[n] == Step(states[n - 1], events[n - 1]);
  }

  /** Without that, a lot both sides settled as paid can end up cancelled: the seller's cancellation
      read it while it was still awaiting payment. */
  lemma PaidThenCancelled(seller: nat, buyer: nat)
    requires seller != buyer
    ensures exists states: seq<State>, events: seq<Event>, m: nat, n: nat ::
      IsTrace(states, events) && m < n < |states| && states[m].lot.status.Paid? && states[n].lot.status.Cancelled?
  {
    var events := [Begin(0, buyer, false, Buy), Finish(0), Begin(1, seller, false, Cancel), Begin(2, buyer, false, MarkPaid), Finish(2), Finish(1)];
    var s0 := State(Lot(Some(seller), Open, None), map[]);
    var s1 := Step(s0, events[0]);
    var s2 := Step(s1, events[1]);
    var s3 := Step(s2, events[2]);
    var s4 := Step(s3, events[3]);
    var s5 := Step(s4, events[4]);
    var s6 := Step(s5, events[5]);
    var states := [s0, s1, s2, s3, s4, s5, s6];
    assert IsTrace(states, events);
    assert states[5].lot.status.Paid? && states[6].lot.status.Cancelled?;
  }
}
