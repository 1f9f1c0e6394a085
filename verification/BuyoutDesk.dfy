/** The guaranteed-buyback operations as they run, one call at a time, over the live tables. Each
    method is tied to the protocol step it performs, so every run of calls is a protocol run. */
module BuyoutDesk {
  import opened Options
  import opened Sums
  import opened Text
  import opened Guaranteed
  import opened Settlement
  import opened ApprovalProtocol

  datatype Decision = Done | NoSuchRequest | Blocked(why: Blocker)

  class Desk {
    var now: int
    var config: Config
    var rows: seq<Buyout>
    var journal: seq<Entry>
    var approvals: nat

    constructor (config: Config, now: int)
      ensures AsState() == Initial(config, now)
    {
      this.config, this.now := config, now;
      rows, journal, approvals := [], [], 0;
    }

    /** The protocol state seen between two calls: nobody holds a lock. */
    ghost function AsState(): State
      reads this
    {
      State(now, config, rows, journal, map[], None, approvals)
    }

    method RequestBuyout(user: User, character: Option<int>, quoted: int) returns (id: Option<nat>)
      modifies this`rows
      ensures AsState() == Step(old(AsState()), Request(user, character, quoted))
      ensures id.Some? <==>
        && config.enabled && 0 < quoted <= config.perLotCap
        && match config.audience
           case Public => true
           case Alliance => user.authenticated && (user.superuser || user.member || user.alliancePilot)
           case Corp => user.authenticated && (user.superuser || user.member)
           case Disabled => false
      ensures id.None? ==> rows == old(rows)
      ensures id.Some? ==>
        && id.value == |old(rows)|
        && rows == old(rows) + [Buyout(Some(user.id), character, quoted, Requested, None, None, None, Unsettled, "", None)]
    {
      if !CanRequest(user, config) || quoted <= 0 || quoted > config.perLotCap {
        return None;
      }
      id := Some(|rows|);
      rows := rows + [Buyout(Some(user.id), character, quoted, Requested, None, None, None, Unsettled, "", None)];
    }

    method ApproveBuyout(id: nat, officer: nat) returns (decision: Decision)
      modifies this`rows, this`approvals
      ensures AsState() == Run(old(AsState()), ApprovalEvents(id, officer))
      ensures decision.Done? <==>
        && id < |old(rows)| && config.enabled && config.audience != Disabled && old(rows)[id].status == Requested
        && old(rows)[id].seller != Some(officer) && old(rows)[id].quoted <= config.perLotCap
        && SumSet(DecidedSince(old(rows), now - 86400), QuoteIn(old(rows))) + old(rows)[id].quoted <= config.dailyBudget
      ensures decision == NoSuchRequest <==> id >= |old(rows)|
      ensures decision.Blocked? ==> ApprovalBlocker(old(rows), old(rows)[id], officer, config, now) == Some(decision.why)
      ensures !decision.Done? ==> rows == old(rows) && approvals == old(approvals)
      ensures decision.Done? ==>
        && approvals == old(approvals) + 1
        && rows == old(rows)[id := old(rows)[id].(status := Approved, decidedBy := Some(officer), decidedAt := Some(now),
                                                  approval := Some(Approval(old(approvals), config)))]
    {
      var read := config;
      ApprovalUninterrupted(AsState(), id, officer);
      if id >= |rows| {
        return NoSuchRequest;
      }
      BlockedIff(rows, rows[id], officer, read, now);
      var blocker := ApprovalBlocker(rows, rows[id], officer, read, now);
      if blocker.Some? {
        return Blocked(blocker.value);
      }
      rows := rows[id := ApprovedRow(rows[id], officer, now, Approval(approvals, read))];
      approvals := approvals + 1;
      return Done;
    }

    method RejectBuyout(id: nat, officer: nat) returns (ok: bool)
      modifies this`rows
      ensures AsState() == Step(old(AsState()), Reject(officer, id))
      ensures ok <==> id < |old(rows)| && old(rows)[id].status == Requested
      ensures ok ==>
        rows == old(rows)[id := old(rows)[id].(status := Rejected, decidedBy := Some(officer), decidedAt := Some(now))]
      ensures !ok ==> rows == old(rows)
    {
      if id >= |rows| || rows[id].status != Requested {
        return false;
      }
      rows := rows[id := RejectedRow(rows[id], officer, now)];
      return true;
    }

    method CancelBuyout(id: nat, user: nat) returns (ok: bool)
      modifies this`rows
      ensures AsState() == Step(old(AsState()), Cancel(user, id))
      ensures ok <==> id < |old(rows)| && old(rows)[id].status == Requested && old(rows)[id].seller == Some(user)
      ensures ok ==> rows == old(rows)[id := old(rows)[id].(status := Cancelled)]
      ensures !ok ==> rows == old(rows)
    {
      if id >= |rows| || rows[id].seller != Some(user) || rows[id].status != Requested {
        return false;
      }
      rows := rows[id := rows[id].(status := Cancelled)];
      return true;
    }

    method MarkSettledManual(id: nat, officer: nat, reference: string) returns (ok: bool)
      modifies this`rows
      ensures AsState() == Step(old(AsState()), SettleManually(officer, id, Clip(reference)))
      ensures ok <==>
        && !config.requireEsiReconcile && id < |old(rows)| && old(rows)[id].status == Approved
        && old(rows)[id].seller != Some(officer)
      ensures ok ==>
        && rows == old(rows)[id := old(rows)[id].(status := Settled, settledAt := Some(now), kind := Manual, ref := rows[id].ref)]
        && rows[id].ref <= reference && |rows[id].ref| == if |reference| > 64 then 64 else |reference|
      ensures !ok ==> rows == old(rows)
    {
      if config.requireEsiReconcile || id >= |rows| || rows[id].status != Approved || rows[id].seller == Some(officer) {
        return false;
      }
      rows := rows[id := SettledRow(rows[id], Manual, Clip(reference), now)];
      return true;
    }

    /** The stored reference keeps at most 64 characters. */
    function Clip(reference: string): string {
      if |reference| > 64 then reference[..64] else reference
    }

    /** One reconcile run over the oldest approvals; `None` when the feature is off. */
    method ReconcileSettlements(limit: nat) returns (settled: Option<nat>)
      modifies this`rows
      ensures AsState() == Step(old(AsState()), ReconcileRun(limit))
      ensures settled.Some? <==> config.enabled && config.audience != Disabled && config.requireEsiReconcile
      ensures settled.None? ==> rows == old(rows)
      ensures settled.Some? ==> |rows| == |old(rows)| && settled.value == |NewlySettled(old(rows), rows, |rows|)|
    {
      ghost var before := rows;
      if !(IsLive(config) && config.requireEsiReconcile) {
        return None;
      }
      var count := WorkQueue(RunQueue(rows, limit), UsedRefs(rows));
      CountIs(before, rows, |rows|);
      return Some(count);
    }

    /** The loop itself: walk the queue, settling each buyout on its earliest unspent payment. */
    method WorkQueue(queue: seq<nat>, spent: set<string>) returns (count: nat)
      requires QueuedApproved(rows, queue)
      modifies this`rows
      ensures rows == Sweep(old(rows), journal, now, queue, spent)
      ensures count == Count(old(rows), rows, |rows|)
    {
      var used, i := spent, 0;
      count := 0;
      ghost var start := rows;
      assert queue[0..] == queue;
      CountSame(start, |start|);
      assert forall k | 0 <= k < |queue| :: rows[queue[k]].status != Settled;
      while i < |queue|
        invariant 0 <= i <= |queue| && |rows| == |start|
        invariant Rest(rows, journal, now, queue, i, used) == Rest(start, journal, now, queue, 0, spent)
        invariant forall k | i <= k < |queue| :: rows[queue[k]].status != Settled && start[queue[k]].status != Settled
        invariant count == Count(start, rows, |rows|)
      {
        SweepNext(rows, journal, now, queue, i, used);
        var id := queue[i];
        var entry := SettlingEntry(rows, journal, id, used);
        if entry.Some? {
          var ref := IntText(entry.value.id);
          CountUpdate(start, rows, id, SettledRow(rows[id], Esi, ref, now), |rows|);
          rows, used, count := rows[id := SettledRow(rows[id], Esi, ref, now)], used + {ref}, count + 1;
        }
        i := i + 1;
      }
    }
  }

  /** How many of the first `n` rows turned settled. */
  function Count(before: seq<Buyout>, after: seq<Buyout>, n: nat): nat
    requires n <= |before| && n <= |after|
  {
    if n == 0 then 0 else
      Count(before, after, n - 1) + if before[n - 1].status != Settled && after[n - 1].status == Settled then 1 else 0
  }

  ghost function NewlySettled(before: seq<Buyout>, after: seq<Buyout>, n: nat): set<nat>
    requires n <= |before| && n <= |after|
  {
    set i: nat | i < n && before[i].status != Settled && after[i].status == Settled
  }

  lemma NewlySettledNext(before: seq<Buyout>, after: seq<Buyout>, n: nat)
    requires n < |before| && n < |after|
    ensures before[n].status != Settled && after[n].status == Settled ==>
      NewlySettled(before, after, n + 1) == NewlySettled(before, after, n) + {n}
    ensures !(before[n].status != Settled && after[n].status == Settled) ==>
      NewlySettled(before, after, n + 1) == NewlySettled(before, after, n)
  {
  }

  lemma {:induction false} CountIs(before: seq<Buyout>, after: seq<Buyout>, n: nat)
    requires n <= |before| && n <= |after|
    ensures Count(before, after, n) == |NewlySettled(before, after, n)|
  {
    if n > 0 {
      CountIs(before, after, n - 1);
      NewlySettledNext(before, after, n - 1);
    }
  }

  lemma CountSame(rows: seq<Buyout>, n: nat)
    requires n <= |rows|
    ensures Count(rows, rows, n) == 0
  {
  }

  lemma {:induction false} CountUpdate(before: seq<Buyout>, rows: seq<Buyout>, id: nat, b: Buyout, n: nat)
    requires n <= |rows| == |before| && id < |rows|
    requires before[id].status != Settled && rows[id].status != Settled && b.status == Settled
    ensures Count(before, rows[id := b], n) == Count(before, rows, n) + if id < n then 1 else 0
  {
    if n > 0 {
      CountUpdate(before, rows, id, b, n - 1);
    }
  }

  /** What the loop still has to do from position `i` on. */
  function Rest(rows: seq<Buyout>, journal: seq<Entry>, now: int, queue: seq<nat>, i: nat, used: set<string>): (r: seq<Buyout>)
    requires i <= |queue| && Within(queue, |rows|)
    ensures |r| == |rows|
  {
    Sweep(rows, journal, now, queue[i..], used)
  }

  /** One turn of the reconcile loop. */
  lemma SweepNext(rows: seq<Buyout>, journal: seq<Entry>, now: int, queue: seq<nat>, i: nat, used: set<string>)
    requires i < |queue| && Within(queue, |rows|)
    ensures var entry := SettlingEntry(rows, journal, queue[i], used);
      Rest(rows, journal, now, queue, i, used) ==
      if entry.None? then Rest(rows, journal, now, queue, i + 1, used) else
        var ref := IntText(entry.value.id);
        Rest(rows[queue[i] := SettledRow(rows[queue[i]], Esi, ref, now)], journal, now, queue, i + 1, used + {ref})
  {
    assert queue[i..][1..] == queue[i + 1..];
  }

  /** An approval with nobody in between. */
  function ApprovalEvents(id: nat, officer: nat): seq<Event> {
    [ReadConfig(0, officer, id), LockConfig(0), LockRow(0), Check(0), Stamp(0), Commit(0)]
  }

  lemma ApprovalSteps(s: State, id: nat, officer: nat)
    ensures Run(s, ApprovalEvents(id, officer)) == ApprovedAlone(s, id, officer)
  {
    var e := ApprovalEvents(id, officer);
    RunSnoc(s, [], e[0]);
    RunSnoc(s, [e[0]], e[1]);
    RunSnoc(s, [e[0], e[1]], e[2]);
    RunSnoc(s, [e[0], e[1], e[2]], e[3]);
    RunSnoc(s, [e[0], e[1], e[2], e[3]], e[4]);
    RunSnoc(s, [e[0], e[1], e[2], e[3], e[4]], e[5]);
    assert [] + [e[0]] == [e[0]] && [e[0]] + [e[1]] == [e[0], e[1]] && [e[0], e[1]] + [e[2]] == [e[0], e[1], e[2]];
    assert [e[0], e[1], e[2]] + [e[3]] == [e[0], e[1], e[2], e[3]];
    assert [e[0], e[1], e[2], e[3]] + [e[4]] == [e[0], e[1], e[2], e[3], e[4]];
    assert [e[0], e[1], e[2], e[3], e[4]] + [e[5]] == e;
  }

  /** Its steps. */
  function ApprovedAlone(s: State, id: nat, officer: nat): State {
    Step(Step(Step(Locked(s, id, officer), Check(0)), Stamp(0)), Commit(0))
  }

  /** Its first half: read the configuration, then take both locks. */
  function Locked(s: State, id: nat, officer: nat): State {
    Step(Step(Step(s, ReadConfig(0, officer, id)), LockConfig(0)), LockRow(0))
  }

  lemma LockedAlone(s: State, id: nat, officer: nat)
    requires s.txns == map[] && s.configLock == None
    ensures Locked(s, id, officer) == if id >= |s.rows| then s else
      s.(txns := map[0 := RowLocked(officer, id, s.config)], configLock := Some(0))
  {
    var s2 := Step(Step(s, ReadConfig(0, officer, id)), LockConfig(0));
    assert s2 == s.(txns := map[0 := ConfigLocked(officer, id, s.config)], configLock := Some(0));
    assert Finish(s2, 0) == s;
  }

  lemma AloneCommits(s: State, id: nat, officer: nat)
    requires s.txns == map[] && s.configLock == None
    ensures ApprovedAlone(s, id, officer)
         == if id < |s.rows| && ApprovalBlocker(s.rows, s.rows[id], officer, s.config, s.now).None?
            then s.(rows := s.rows[id := ApprovedRow(s.rows[id], officer, s.now, Approval(s.approvals, s.config))],
                    approvals := s.approvals + 1)
            else s
  {
    LockedAlone(s, id, officer);
    var s3 := Locked(s, id, officer);
    if id < |s.rows| {
      assert Finish(s3, 0) == s;
      if ApprovalBlocker(s.rows, s.rows[id], officer, s.config, s.now).None? {
        assert Step(s3, Check(0)) == s3.(txns := map[0 := Cleared(officer, id, s.config, s.now)]);
        var s5 := s3.(txns := map[0 := Stamped(officer, id, s.config, s.now, s.now)]);
        assert Step(Step(s3, Check(0)), Stamp(0)) == s5;
        assert s5.txns - {0} == map[];
      }
    }
  }

  /** Uninterrupted, the approving steps commit exactly when no gate blocks, and leave the tables
      alone otherwise. */
  lemma ApprovalUninterrupted(s: State, id: nat, officer: nat)
    requires s.txns == map[] && s.configLock == None
    ensures Run(s, ApprovalEvents(id, officer))
         == if id < |s.rows| && ApprovalBlocker(s.rows, s.rows[id], officer, s.config, s.now).None?
            then s.(rows := s.rows[id := ApprovedRow(s.rows[id], officer, s.now, Approval(s.approvals, s.config))],
                    approvals := s.approvals + 1)
            else s
  {
    ApprovalSteps(s, id, officer);
    AloneCommits(s, id, officer);
  }
}
