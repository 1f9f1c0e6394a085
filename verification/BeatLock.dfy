/** The TTL lock of the campaign beats: add, run, get, delete, with expiry at any moment. */
module BeatLock {
  import opened Options

  /** A cache entry under the lock key. */
  datatype Entry = Entry(token: nat, expires: int)

  /** How far one run has come; a run's number is its token, fresh per run. */
  datatype Phase =
    | Running(addedAt: int)
    | Compared(addedAt: int, matched: bool)
    | Finished(addedAt: int)
    | TurnedAway

  datatype State = State(now: int, cache: Option<Entry>, runs: map<nat, Phase>)

  datatype Event = Add(run: nat) | Get(run: nat) | Delete(run: nat) | Tick(seconds: nat)

  /** The token a reader finds at `now`. */
  function Visible(cache: Option<Entry>, now: int): Option<nat> {
    if cache.Some? && now < cache.value.expires then Some(cache.value.token) else None
  }

  // --- The cache itself ------------------------------------------------------

  class Cache {
    var entry: Option<Entry>

    constructor ()
      ensures entry == None
    {
      entry := None;
    }

    /** Store unless a live entry is there. */
    method Add(token: nat, ttl: int, now: int) returns (added: bool)
      modifies this
      ensures added <==> old(entry) == None || old(entry).value.expires <= now
      ensures entry == if added then Some(Entry(token, now + ttl)) else old(entry)
    {
      added := !(entry.Some? && now < entry.value.expires);
      if added {
        entry := Some(Entry(token, now + ttl));
      }
    }

    method Get(now: int) returns (token: Option<nat>)
      ensures token == Visible(entry, now)
      ensures token == if entry.Some? && now < entry.value.expires then Some(entry.value.token) else None
    {
      token := if entry.Some? && now < entry.value.expires then Some(entry.value.token) else None;
    }

    method Delete()
      modifies this
      ensures entry == None
    {
      entry := None;
    }

    /** Compare and delete with nobody in between: only the owner's own live lock goes. */
    method ReleaseLock(token: nat, now: int)
      modifies this
      ensures entry == if old(entry).Some? && old(entry).value.token == token && now < old(entry).value.expires then None else old(entry)
    {
      var seen := Get(now);
      if seen == Some(token) {
        Delete();
      }
    }
  }

  // --- Interleaved runs ------------------------------------------------------

  /** One step; `ttl` is the lock's time to live. A step out of turn changes nothing. */
  function Step(s: State, e: Event, ttl: int): State {
    match e
    case Add(r) =>
      if r in s.runs then s
      else if Visible(s.cache, s.now).Some? then s.(runs := s.runs[r := TurnedAway])
      else s.(cache := Some(Entry(r, s.now + ttl)), runs := s.runs[r := Running(s.now)])
    case Get(r) =>
      if r !in s.runs || !s.runs[r].Running? then s
      else s.(runs := s.runs[r := Compared(s.runs[r].addedAt, Visible(s.cache, s.now) == Some(r))])
    case Delete(r) =>
      if r !in s.runs || !s.runs[r].Compared? then s
      else s.(cache := if s.runs[r].matched then None else s.cache, runs := s.runs[r := Finished(s.runs[r].addedAt)])
    case Tick(seconds) =>
      s.(now := s.now + seconds)
  }

  /** The states a run of events passes through. */
  ghost predicate IsTrace(states: seq<State>, events: seq<Event>, ttl: int) {
    && |states| == |events| + 1 && states[0].cache == None && states[0].runs == map[]
    && forall n | 0 <= n < |events| :: states[n + 1] == Step(states[n], events[n], ttl)
  }

  /** Between its add and its delete. */
  predicate Active(s: State, r: nat) {
    r in s.runs && (s.runs[r].Running? || s.runs[r].Compared?)
  }

  predicate Unexpired(s: State, r: nat, ttl: int) {
    Active(s, r) && s.now < s.runs[r].addedAt + ttl
  }

  /** No run's own TTL has lapsed between its successful compare and its delete. */
  ghost predicate PromptRelease(s: State, ttl: int) {
    forall r | r in s.runs && s.runs[r].Compared? && s.runs[r].matched :: s.now < s.runs[r].addedAt + ttl
  }

  /** No active run has outlived its own TTL. */
  ghost predicate Timely(s: State, ttl: int) {
    forall r | Active(s, r) :: Unexpired(s, r, ttl)
  }

  /** An unexpired run owns the lock. */
  ghost predicate OwnersHold(s: State, ttl: int) {
    forall r | Unexpired(s, r, ttl) :: s.cache == Some(Entry(r, s.runs[r].addedAt + ttl))
  }

  /** No run but `r` has let its own TTL lapse between its successful compare and its delete. */
  ghost predicate OthersPrompt(s: State, r: nat, ttl: int) {
    forall q | q != r && q in s.runs && s.runs[q].Compared? && s.runs[q].matched :: s.now < s.runs[q].addedAt + ttl
  }

  lemma StepKeepsOwnersBut(s: State, e: Event, r: nat, ttl: int)
    requires OwnersHold(s, ttl) && OthersPrompt(s, r, ttl)
    requires e == Delete(r) ==> r in s.runs ==> !s.runs[r].Compared?
    ensures OwnersHold(Step(s, e, ttl), ttl)
  {
    var after := Step(s, e, ttl);
    if e.Delete? && e.run in s.runs && s.runs[e.run].Compared? && s.runs[e.run].matched {
      assert Unexpired(s, e.run, ttl);
    }
    forall q | Unexpired(after, q, ttl)
      ensures after.cache == Some(Entry(q, after.runs[q].addedAt + ttl))
    {
      assert (e.Add? && e.run == q && q !in s.runs) || Unexpired(s, q, ttl);
    }
  }

  lemma StepKeepsOwners(s: State, e: Event, ttl: int)
    requires OwnersHold(s, ttl) && PromptRelease(s, ttl)
    ensures OwnersHold(Step(s, e, ttl), ttl)
  {
    StepKeepsOwnersBut(s, e, if e.Delete? then e.run + 1 else 0, ttl);
  }

  lemma {:induction false} OwnersAlwaysHold(states: seq<State>, events: seq<Event>, ttl: int, n: nat)
    requires IsTrace(states, events, ttl) && n <= |events|
    requires forall i | 0 <= i < n :: PromptRelease(states[i], ttl)
    ensures OwnersHold(states[n], ttl)
  {
    if n > 0 {
      OwnersAlwaysHold(states, events, ttl, n - 1);
      StepKeepsOwners(states[n - 1], events[n - 1], ttl);
    }
  }

  /** At most one active run is within its own TTL, however many have overrun theirs, as long as no
      run let its TTL lapse between its compare and its delete. */
  lemma OneUnexpiredRun(states: seq<State>, events: seq<Event>, ttl: int, n: nat, a: nat, b: nat)
    requires IsTrace(states, events, ttl) && n <= |events|
    requires forall i | 0 <= i < n :: PromptRelease(states[i], ttl)
    requires Unexpired(states[n], a, ttl) && Unexpired(states[n], b, ttl)
    ensures a == b
  {
    OwnersAlwaysHold(states, events, ttl, n);
  }

  /** Mutual exclusion: when every run finishes its release before its own TTL elapses, at most one
      run is between add and delete. */
  lemma MutualExclusion(states: seq<State>, events: seq<Event>, ttl: int, n: nat, a: nat, b: nat)
    requires IsTrace(states, events, ttl) && n <= |events|
    requires forall i | 0 <= i <= n :: Timely(states[i], ttl)
    requires Active(states[n], a) && Active(states[n], b)
    ensures a == b
  {
    forall i | 0 <= i < n
      ensures PromptRelease(states[i], ttl)
    {
      assert forall r | r in states[i].runs && states[i].runs[r].Compared? :: Active(states[i], r);
    }
    OneUnexpiredRun(states, events, ttl, n, a, b);
  }

  /** A delete step takes another run's live lock away. */
  predicate TakesForeignLock(s: State, e: Event) {
    && e.Delete? && e.run in s.runs && s.runs[e.run].Compared? && s.runs[e.run].matched
    && s.cache.Some? && s.now < s.cache.value.expires && s.cache.value.token != e.run
  }

  /** A run whose compare saw another owner's token, or none, never touches the lock again, however
      late it is. */
  lemma MismatchNeverDeletes(states: seq<State>, events: seq<Event>, ttl: int, g: nat, n: nat)
    requires IsTrace(states, events, ttl) && g < n <= |events|
    requires events[g].Get? && events[g].run in states[g].runs && states[g].runs[events[g].run].Running?
    requires !(states[g].cache.Some? && states[g].cache.value.token == events[g].run && states[g].now < states[g].cache.value.expires)
    ensures var r := events[g].run;
      && r in states[n].runs
      && (states[n].runs[r] == Compared(states[g].runs[r].addedAt, false) || states[n].runs[r] == Finished(states[g].runs[r].addedAt))
      && (n < |events| && events[n] == Delete(r) ==> states[n + 1].cache == states[n].cache)
  {
    if n > g + 1 {
      MismatchNeverDeletes(states, events, ttl, g, n - 1);
    }
    assert states[n] == Step(states[n - 1], events[n - 1], ttl);
  }

  /** A stored entry expires one TTL after its run's add. */
  predicate EntryIsTrue(s: State, ttl: int) {
    s.cache.Some? ==>
      var token := s.cache.value.token;
      token in s.runs && !s.runs[token].TurnedAway? && s.cache.value.expires == s.runs[token].addedAt + ttl
  }

  lemma {:induction false} EntryStaysTrue(states: seq<State>, events: seq<Event>, ttl: int, n: nat)
    requires IsTrace(states, events, ttl) && n <= |events|
    ensures EntryIsTrue(states[n], ttl)
  {
    if n > 0 {
      EntryStaysTrue(states, events, ttl, n - 1);
      assert states[n] == Step(states[n - 1], events[n - 1], ttl);
    }
  }

  /** A run that is still to delete has not deleted before. */
  lemma {:induction false} NotYetDeleted(states: seq<State>, events: seq<Event>, ttl: int, r: nat, i: nat, n: nat)
    requires IsTrace(states, events, ttl) && i <= n <= |events|
    requires r in states[n].runs && states[n].runs[r].Compared?
    ensures r in states[i].runs ==> !states[i].runs[r].Finished?
    ensures i < n && events[i] == Delete(r) && r in states[i].runs ==> !states[i].runs[r].Compared?
    decreases n - i
  {
    if i < n {
      NotYetDeleted(states, events, ttl, r, i + 1, n);
      assert states[i + 1] == Step(states[i], events[i], ttl);
    }
  }

  lemma {:induction false} OwnersHoldUntilDelete(states: seq<State>, events: seq<Event>, ttl: int, r: nat, m: nat, n: nat)
    requires IsTrace(states, events, ttl) && m <= n <= |events|
    requires r in states[n].runs && states[n].runs[r].Compared?
    requires forall i | 0 <= i < n :: OthersPrompt(states[i], r, ttl)
    ensures OwnersHold(states[m], ttl)
  {
    if m > 0 {
      OwnersHoldUntilDelete(states, events, ttl, r, m - 1, n);
      NotYetDeleted(states, events, ttl, r, m - 1, n);
      StepKeepsOwnersBut(states[m - 1], events[m - 1], r, ttl);
    }
  }

  /** A release takes a lock that is not its own exactly when the run's TTL lapsed after its compare and
      somebody holds a live lock by the time of its delete. The run itself may be as late as it likes;
      only the others are taken to release in time. */
  lemma ForeignTakeIff(states: seq<State>, events: seq<Event>, ttl: int, n: nat)
    requires IsTrace(states, events, ttl) && n < |events|
    requires events[n].Delete? && events[n].run in states[n].runs
    requires states[n].runs[events[n].run].Compared? && states[n].runs[events[n].run].matched
    requires forall i | 0 <= i < n :: OthersPrompt(states[i], events[n].run, ttl)
    ensures TakesForeignLock(states[n], events[n]) <==>
      && states[n].now >= states[n].runs[events[n].run].addedAt + ttl
      && states[n].cache.Some? && states[n].now < states[n].cache.value.expires
  {
    OwnersHoldUntilDelete(states, events, ttl, events[n].run, n, n);
    EntryStaysTrue(states, events, ttl, n);
    var s, r := states[n], events[n].run;
    assert Unexpired(s, r, ttl) <==> s.now < s.runs[r].addedAt + ttl;
  }

  const LATE_EVENTS: seq<Event> := [Add(0), Get(0), Tick(10), Add(1), Delete(0), Add(2)]

  const LATE_STATES: seq<State> := [
    State(0, None, map[]),
    State(0, Some(Entry(0, 10)), map[0 := Running(0)]),
    State(0, Some(Entry(0, 10)), map[0 := Compared(0, true)]),
    State(10, Some(Entry(0, 10)), map[0 := Compared(0, true)]),
    State(10, Some(Entry(1, 20)), map[0 := Compared(0, true), 1 := Running(10)]),
    State(10, None, map[0 := Finished(0), 1 := Running(10)]),
    State(10, Some(Entry(2, 20)), map[0 := Finished(0), 1 := Running(10), 2 := Running(10)])]

  /** The admitted race: a run that compares in time but deletes after its TTL takes its successor's
      lock, and a third run then works beside the successor, both within their TTL. Every other run is
      prompt, so this is the case the exact condition describes. */
  lemma LateDeleteBreaksExclusion()
    ensures IsTrace(LATE_STATES, LATE_EVENTS, 10)
    ensures forall i | 0 <= i < 4 :: OthersPrompt(LATE_STATES[i], 0, 10)
    ensures TakesForeignLock(LATE_STATES[4], LATE_EVENTS[4])
    ensures Unexpired(LATE_STATES[6], 1, 10) && Unexpired(LATE_STATES[6], 2, 10)
  {
    forall n | 0 <= n < |LATE_EVENTS|
      ensures LATE_STATES[n + 1] == Step(LATE_STATES[n], LATE_EVENTS[n], 10)
    {
      LateStep(n);
    }
    ForeignTakeIff(LATE_STATES, LATE_EVENTS, 10, 4);
  }

  lemma LateStep(n: nat)
    requires n < 6
    ensures LATE_STATES[n + 1] == Step(LATE_STATES[n], LATE_EVENTS[n], 10)
  {
    if n < 3 {
      LateCompare();
    } else {
      LateTakeover();
    }
  }

  lemma LateCompare()
    ensures LATE_STATES[1] == Step(LATE_STATES[0], LATE_EVENTS[0], 10)
    ensures LATE_STATES[2] == Step(LATE_STATES[1], LATE_EVENTS[1], 10)
    ensures LATE_STATES[3] == Step(LATE_STATES[2], LATE_EVENTS[2], 10)
  {
  }

  lemma LateTakeover()
    ensures LATE_STATES[4] == Step(LATE_STATES[3], LATE_EVENTS[3], 10)
    ensures LATE_STATES[5] == Step(LATE_STATES[4], LATE_EVENTS[4], 10)
    ensures LATE_STATES[6] == Step(LATE_STATES[5], LATE_EVENTS[5], 10)
  {
  }
}
