/** What a reconcile run may and must do: every wallet entry pays for at most one buyout, every
    match pays the right seller in full, and a buyout is passed over exactly when nobody has paid it or
    the oldest payment for it is spent, whatever later payments there are. */
module Settlement {
  import opened Options
  import opened Text
  import opened Sums
  import opened Guaranteed

  predicate EsiSettled(b: Buyout) {
    b.status == Settled && b.kind == Esi
  }

  /** The entry that settled row `i`. */
  predicate SettledBy(e: Entry, i: nat, rows: seq<Buyout>)
    requires i < |rows|
  {
    EsiSettled(rows[i]) && rows[i].ref == IntText(e.id) && Pays(e, i, rows[i])
  }

  ghost predicate MatchesArePayments(rows: seq<Buyout>, journal: seq<Entry>) {
    forall i | 0 <= i < |rows| && EsiSettled(rows[i]) :: exists e :: e in journal && SettledBy(e, i, rows)
  }

  predicate RefsDistinct(rows: seq<Buyout>) {
    forall i, j | 0 <= i < j < |rows| && EsiSettled(rows[i]) && EsiSettled(rows[j]) :: rows[i].ref != rows[j].ref
  }

  predicate DistinctEntries(journal: seq<Entry>) {
    forall i, j | 0 <= i < j < |journal| :: journal[i].id != journal[j].id
  }

  ghost predicate Reconciled(rows: seq<Buyout>, journal: seq<Entry>) {
    MatchesArePayments(rows, journal) && RefsDistinct(rows)
  }

  predicate RefsIn(rows: seq<Buyout>, used: set<string>) {
    forall i | 0 <= i < |rows| && rows[i].status == Settled && rows[i].ref != "" :: rows[i].ref in used
  }

  predicate QueuedApproved(rows: seq<Buyout>, queue: seq<nat>) {
    Within(queue, |rows|) && Distinct(queue) && forall k | 0 <= k < |queue| :: rows[queue[k]].status == Approved
  }

  lemma SettleOne(rows: seq<Buyout>, journal: seq<Entry>, now: int, id: nat, used: set<string>)
    returns (after: seq<Buyout>)
    requires id < |rows| && rows[id].status == Approved
    requires SettlingEntry(rows, journal, id, used).Some?
    requires Reconciled(rows, journal) && RefsIn(rows, used)
    ensures after == rows[id := SettledRow(rows[id], Esi, IntText(SettlingEntry(rows, journal, id, used).value.id), now)]
    ensures Reconciled(after, journal) && RefsIn(after, used + {after[id].ref})
  {
    var e := SettlingEntry(rows, journal, id, used).value;
    after := rows[id := SettledRow(rows[id], Esi, IntText(e.id), now)];
    assert |IntText(e.id)| > 0;
    forall i | 0 <= i < |after| && EsiSettled(after[i])
      ensures exists x :: x in journal && SettledBy(x, i, after)
    {
      if i == id {
        assert e in journal && SettledBy(e, id, after);
      } else {
        assert EsiSettled(rows[i]);
        var x :| x in journal && SettledBy(x, i, rows);
        assert SettledBy(x, i, after);
      }
    }
    forall i, j | 0 <= i < j < |after| && EsiSettled(after[i]) && EsiSettled(after[j])
      ensures after[i].ref != after[j].ref
    {
      var other := if i == id then j else i;
      if i == id || j == id {
        assert EsiSettled(rows[other]);
        var x :| x in journal && SettledBy(x, other, rows);
        assert |IntText(x.id)| > 0;
      }
    }
  }

  /** A run keeps every match a payment and every entry spent once. */
  lemma {:induction false} SweepKeepsReconciled(
      rows: seq<Buyout>, journal: seq<Entry>, now: int, queue: seq<nat>, used: set<string>)
    requires QueuedApproved(rows, queue) && Reconciled(rows, journal) && RefsIn(rows, used)
    ensures Reconciled(Sweep(rows, journal, now, queue, used), journal)
    decreases |queue|
  {
    if queue != [] {
      var id := queue[0];
      var entry := SettlingEntry(rows, journal, id, used);
      if entry.None? {
        SweepKeepsReconciled(rows, journal, now, queue[1..], used);
      } else {
        var after := SettleOne(rows, journal, now, id, used);
        SweepKeepsReconciled(after, journal, now, queue[1..], used + {IntText(entry.value.id)});
      }
    }
  }

  /** A row is either left alone or settled with an ESI reference, everything else kept. */
  predicate LeftOrSettled(before: Buyout, after: Buyout, now: int) {
    || after == before
    || (before.status == Approved && after == SettledRow(before, Esi, after.ref, now))
  }

  /** Another settled row carries the reference. */
  predicate SpentElsewhere(rows: seq<Buyout>, id: nat, ref: string) {
    exists j :: 0 <= j < |rows| && j != id && rows[j].status == Settled && rows[j].ref == ref
  }

  /** Why buyout `b` keeps waiting: it names no character, it was never decided, nobody has paid it, or
      the oldest payment for it, the only one considered, is spent on another buyout. */
  predicate KeepsWaiting(b: Buyout, after: seq<Buyout>, journal: seq<Entry>, id: nat) {
    || !HasCharacter(b) || b.decidedAt.None?
    || var entry := EarliestPayment(journal, id, b); entry.None? || SpentElsewhere(after, id, IntText(entry.value.id))
  }

  predicate UsedAreSettled(rows: seq<Buyout>, used: set<string>) {
    forall ref | ref in used :: exists j :: 0 <= j < |rows| && rows[j].status == Settled && rows[j].ref == ref
  }

  /** What the loop does to the rows, besides which of them it settles. */
  ghost predicate SettlesOnly(rows: seq<Buyout>, after: seq<Buyout>, now: int, queue: seq<nat>, used: set<string>) {
    && |after| == |rows|
    && (forall i | 0 <= i < |rows| :: LeftOrSettled(rows[i], after[i], now))
    && (forall i | 0 <= i < |rows| && i !in queue :: after[i] == rows[i])
    && (forall i | 0 <= i < |rows| && after[i] != rows[i] :: after[i].ref !in used)
  }

  lemma {:induction false} SweepSettlesOnly(rows: seq<Buyout>, journal: seq<Entry>, now: int, queue: seq<nat>, used: set<string>)
    requires QueuedApproved(rows, queue)
    ensures SettlesOnly(rows, Sweep(rows, journal, now, queue, used), now, queue, used)
    decreases |queue|
  {
    if queue != [] {
      var id := queue[0];
      var entry := SettlingEntry(rows, journal, id, used);
      if entry.None? {
        SweepSettlesOnly(rows, journal, now, queue[1..], used);
      } else {
        var ref := IntText(entry.value.id);
        SweepSettlesOnly(rows[id := SettledRow(rows[id], Esi, ref, now)], journal, now, queue[1..], used + {ref});
        assert id !in queue[1..];
      }
    }
  }

  /** The turn that passes a buyout over: the reason stays true for the rest of the run. */
  lemma PassedOver(rows: seq<Buyout>, journal: seq<Entry>, now: int, queue: seq<nat>, used: set<string>, id: nat)
    requires QueuedApproved(rows, queue) && UsedAreSettled(rows, used) && id < |rows| && rows[id].status == Approved
    requires SettlingEntry(rows, journal, id, used).None?
    ensures KeepsWaiting(rows[id], Sweep(rows, journal, now, queue, used), journal, id)
  {
    var after := Sweep(rows, journal, now, queue, used);
    SweepSettlesOnly(rows, journal, now, queue, used);
    var entry := EarliestPayment(journal, id, rows[id]);
    if HasCharacter(rows[id]) && rows[id].decidedAt.Some? && entry.Some? {
      var j :| 0 <= j < |rows| && rows[j].status == Settled && rows[j].ref == IntText(entry.value.id);
      assert LeftOrSettled(rows[j], after[j], now) && after[j] == rows[j];
    }
  }

  /** The turn that settles a buyout: its entry goes to nobody else for the rest of the run. */
  lemma PaidForGood(rows: seq<Buyout>, journal: seq<Entry>, now: int, queue: seq<nat>, used: set<string>, id: nat)
    requires id < |rows| && rows[id].status == Approved && RefsIn(rows, used)
    requires SettlingEntry(rows, journal, id, used).Some?
    requires var ref := IntText(SettlingEntry(rows, journal, id, used).value.id);
      QueuedApproved(rows[id := SettledRow(rows[id], Esi, ref, now)], queue)
    ensures var ref := IntText(SettlingEntry(rows, journal, id, used).value.id);
      !KeepsWaiting(rows[id], Sweep(rows[id := SettledRow(rows[id], Esi, ref, now)], journal, now, queue, used + {ref}), journal, id)
  {
    var ref := IntText(SettlingEntry(rows, journal, id, used).value.id);
    var next := rows[id := SettledRow(rows[id], Esi, ref, now)];
    var after := Sweep(next, journal, now, queue, used + {ref});
    SweepSettlesOnly(next, journal, now, queue, used + {ref});
    assert |ref| > 0;
    forall j | 0 <= j < |after| && j != id && after[j].status == Settled
      ensures after[j].ref != ref
    {
      if after[j] == next[j] {
        assert rows[j].status == Settled && (rows[j].ref != "" ==> rows[j].ref in used);
      }
    }
  }

  lemma UsedStaySettled(rows: seq<Buyout>, used: set<string>, id: nat, ref: string, now: int)
    requires UsedAreSettled(rows, used) && id < |rows| && rows[id].status == Approved
    ensures UsedAreSettled(rows[id := SettledRow(rows[id], Esi, ref, now)], used + {ref})
  {
    var next := rows[id := SettledRow(rows[id], Esi, ref, now)];
    forall r | r in used + {ref}
      ensures exists j :: 0 <= j < |next| && next[j].status == Settled && next[j].ref == r
    {
      if r in used {
        var j :| 0 <= j < |rows| && rows[j].status == Settled && rows[j].ref == r;
        assert next[j] == rows[j];
      } else {
        assert next[id].ref == r;
      }
    }
  }

  /** A run touches queued rows only, and leaves a queued buyout waiting exactly when it must. */
  lemma {:induction false} SweepIsThorough(
      rows: seq<Buyout>, journal: seq<Entry>, now: int, queue: seq<nat>, used: set<string>)
    requires QueuedApproved(rows, queue) && UsedAreSettled(rows, used) && RefsIn(rows, used)
    ensures var after := Sweep(rows, journal, now, queue, used);
      && SettlesOnly(rows, after, now, queue, used)
      && (forall k | 0 <= k < |queue| :: after[queue[k]].status == Approved <==> KeepsWaiting(rows[queue[k]], after, journal, queue[k]))
    decreases |queue|
  {
    SweepSettlesOnly(rows, journal, now, queue, used);
    if queue != [] {
      var id, rest := queue[0], queue[1..];
      var entry := SettlingEntry(rows, journal, id, used);
      var after := Sweep(rows, journal, now, queue, used);
      assert id !in rest;
      if entry.None? {
        SweepIsThorough(rows, journal, now, rest, used);
        PassedOver(rows, journal, now, rest, used, id);
      } else {
        var ref := IntText(entry.value.id);
        var next := rows[id := SettledRow(rows[id], Esi, ref, now)];
        UsedStaySettled(rows, used, id, ref, now);
        SweepIsThorough(next, journal, now, rest, used + {ref});
        PaidForGood(rows, journal, now, rest, used, id);
      }
      forall k | 0 <= k < |queue|
        ensures after[queue[k]].status == Approved <==> KeepsWaiting(rows[queue[k]], after, journal, queue[k])
      {
        if k > 0 {
          assert queue[k] == rest[k - 1];
        }
      }
    }
  }

  // --- Which buyouts wait, told before the run -------------------------------------

  /** The reference of the one payment the buyout can be settled on, if there is one. */
  function DueRef(rows: seq<Buyout>, journal: seq<Entry>, id: nat): Option<string>
    requires id < |rows|
  {
    var b := rows[id];
    if !HasCharacter(b) || b.decidedAt.None? then None else
      var entry := EarliestPayment(journal, id, b);
      if entry.None? then None else Some(IntText(entry.value.id))
  }

  /** The k-th of the queue will be passed over: it has nothing to be settled on, or that payment is spent
      already, or it is what somebody earlier in the queue is to be settled on. */
  predicate WillWait(rows: seq<Buyout>, journal: seq<Entry>, queue: seq<nat>, used: set<string>, k: nat)
    requires Within(queue, |rows|) && k < |queue|
  {
    var due := DueRef(rows, journal, queue[k]);
    due.None? || due.value in used || exists l :: 0 <= l < k && DueRef(rows, journal, queue[l]) == due
  }

  /** What one turn leaves for the rest of the queue to find. */
  function UsedAfter(rows: seq<Buyout>, journal: seq<Entry>, id: nat, used: set<string>): set<string>
    requires id < |rows|
  {
    var due := DueRef(rows, journal, id);
    if due.None? then used else used + {due.value}
  }

  lemma TurnSettles(rows: seq<Buyout>, journal: seq<Entry>, id: nat, used: set<string>)
    requires id < |rows|
    ensures var entry, due := SettlingEntry(rows, journal, id, used), DueRef(rows, journal, id);
      && (entry.Some? <==> due.Some? && due.value !in used)
      && (entry.Some? ==> due == Some(IntText(entry.value.id)))
      && UsedAfter(rows, journal, id, used) == (if entry.Some? then used + {IntText(entry.value.id)} else used)
  {
    var due := DueRef(rows, journal, id);
    if due.Some? && due.value in used {
      assert used + {due.value} == used;
    }
  }

  /** Passing the first of the queue on as a spent payment, or as none, asks the same of the others. */
  lemma WaitShifts(rows: seq<Buyout>, next: seq<Buyout>, journal: seq<Entry>, queue: seq<nat>, used: set<string>, k: nat)
    requires |rows| == |next| && Within(queue, |rows|) && Distinct(queue) && 0 < k < |queue|
    requires forall i | 0 <= i < |rows| && i != queue[0] :: next[i] == rows[i]
    ensures WillWait(next, journal, queue[1..], UsedAfter(rows, journal, queue[0], used), k - 1) <==> WillWait(rows, journal, queue, used, k)
  {
    var rest := queue[1..];
    forall l | 0 <= l < |rest|
      ensures DueRef(next, journal, rest[l]) == DueRef(rows, journal, queue[l + 1])
    {
      assert rest[l] == queue[l + 1] != queue[0];
    }
    var due := DueRef(rows, journal, queue[k]);
    assert DueRef(next, journal, rest[k - 1]) == due;
    if l :| 0 <= l < k && DueRef(rows, journal, queue[l]) == due {
      assert l > 0 ==> DueRef(next, journal, rest[l - 1]) == due;
    }
    if l :| 0 <= l < k - 1 && DueRef(next, journal, rest[l]) == due {
      assert DueRef(rows, journal, queue[l + 1]) == due;
    }
  }

  lemma FirstWaitsIff(rows: seq<Buyout>, journal: seq<Entry>, now: int, queue: seq<nat>, used: set<string>)
    requires QueuedApproved(rows, queue) && queue != []
    ensures Sweep(rows, journal, now, queue, used)[queue[0]].status == Approved <==> WillWait(rows, journal, queue, used, 0)
  {
    var id, entry := queue[0], SettlingEntry(rows, journal, queue[0], used);
    TurnSettles(rows, journal, id, used);
    assert id !in queue[1..];
    if entry.None? {
      SweepSettlesOnly(rows, journal, now, queue[1..], used);
    } else {
      var ref := IntText(entry.value.id);
      SweepSettlesOnly(rows[id := SettledRow(rows[id], Esi, ref, now)], journal, now, queue[1..], used + {ref});
    }
  }

  /** A queued buyout still waits after the run exactly when the rows, the journal and the spent references
      say so before it. */
  lemma {:induction false} SweepWaitsIff(rows: seq<Buyout>, journal: seq<Entry>, now: int, queue: seq<nat>, used: set<string>)
    requires QueuedApproved(rows, queue)
    ensures forall k | 0 <= k < |queue| ::
      Sweep(rows, journal, now, queue, used)[queue[k]].status == Approved <==> WillWait(rows, journal, queue, used, k)
    decreases |queue|
  {
    if queue != [] {
      var id, rest, entry := queue[0], queue[1..], SettlingEntry(rows, journal, queue[0], used);
      var next := if entry.None? then rows else rows[id := SettledRow(rows[id], Esi, IntText(entry.value.id), now)];
      assert id !in rest;
      TurnSettles(rows, journal, id, used);
      FirstWaitsIff(rows, journal, now, queue, used);
      SweepWaitsIff(next, journal, now, rest, UsedAfter(rows, journal, id, used));
      forall k | 0 < k < |queue|
        ensures Sweep(rows, journal, now, queue, used)[queue[k]].status == Approved <==> WillWait(rows, journal, queue, used, k)
      {
        assert rest[k - 1] == queue[k];
        WaitShifts(rows, next, journal, queue, used, k);
      }
    }
  }

  /** The queue of one run: the `limit` oldest approvals. */
  function RunQueue(rows: seq<Buyout>, limit: nat): (q: seq<nat>)
    ensures QueuedApproved(rows, q)
  {
    var queue := ApprovedQueue(rows, |rows|);
    assert forall k | 0 <= k < |queue| :: queue[k] in queue;
    if |queue| > limit then queue[..limit] else queue
  }

  lemma ReconcileKeepsReconciled(rows: seq<Buyout>, journal: seq<Entry>, config: Config, now: int, limit: nat)
    requires Reconciled(rows, journal)
    ensures Reconciled(Reconcile(rows, journal, config, now, limit), journal)
  {
    if IsLive(config) && config.requireEsiReconcile {
      SweepKeepsReconciled(rows, journal, now, RunQueue(rows, limit), UsedRefs(rows));
    }
  }

  /** A live run leaves waiting, among the `limit` oldest approvals, exactly those the tables single out
      before it; and their oldest payment, if they have one, is spent on another buyout after it. */
  lemma ReconcileIsThorough(rows: seq<Buyout>, journal: seq<Entry>, config: Config, now: int, limit: nat)
    ensures var after := Reconcile(rows, journal, config, now, limit);
      && (forall i | 0 <= i < |rows| :: LeftOrSettled(rows[i], after[i], now))
      && (!(IsLive(config) && config.requireEsiReconcile) ==> after == rows)
      && (IsLive(config) && config.requireEsiReconcile ==>
            var queue := RunQueue(rows, limit);
            && (forall i | 0 <= i < |rows| && i !in queue :: after[i] == rows[i])
            && (forall k | 0 <= k < |queue| ::
                  after[queue[k]].status == Approved <==> WillWait(rows, journal, queue, UsedRefs(rows), k))
            && (forall k | 0 <= k < |queue| ::
                  after[queue[k]].status == Approved <==> KeepsWaiting(rows[queue[k]], after, journal, queue[k])))
  {
    if IsLive(config) && config.requireEsiReconcile {
      var used := UsedRefs(rows);
      forall ref | ref in used
        ensures exists j :: 0 <= j < |rows| && rows[j].status == Settled && rows[j].ref == ref
      {
        var b :| b in rows && b.status == Settled && b.ref != "" && b.ref == ref;
      }
      SweepIsThorough(rows, journal, now, RunQueue(rows, limit), used);
      SweepWaitsIff(rows, journal, now, RunQueue(rows, limit), used);
    }
  }

  // --- What a run settles, in the columns of the tables ----------------------------

  /** A player donation to the seller's character, on or after the approval, of at least the quote, with the
      buyout's token in its reason. */
  ghost predicate IsFullPayment(e: Entry, id: nat, b: Buyout) {
    && e.refType == "player_donation"
    && b.sellerCharacter.Some? && e.secondParty == Some(b.sellerCharacter.value)
    && b.decidedAt.Some? && b.decidedAt.value <= e.date
    && b.quoted <= -e.amount
    && exists at: nat :: TokenAt(e.reason, id, at)
  }

  lemma PaysIff(e: Entry, id: nat, b: Buyout)
    ensures Pays(e, id, b) <==> IsFullPayment(e, id, b)
  {
    TokenFoundIff(e.reason, id);
  }

  /** The entry whose number the row keeps as its reference is in the journal and paid for it in full. */
  ghost predicate PaidThroughWallet(rows: seq<Buyout>, journal: seq<Entry>, i: nat)
    requires i < |rows|
  {
    exists e :: e in journal && rows[i].ref == IntText(e.id) && IsFullPayment(e, i, rows[i])
  }

  lemma SettledIsPaid(rows: seq<Buyout>, journal: seq<Entry>, i: nat)
    requires MatchesArePayments(rows, journal) && i < |rows| && EsiSettled(rows[i])
    ensures PaidThroughWallet(rows, journal, i)
  {
    var e :| e in journal && SettledBy(e, i, rows);
    PaysIff(e, i, rows[i]);
  }

  /** Entry `j` is the oldest payment for the buyout, of equally old ones the first listed. */
  ghost predicate IsOldestPayment(journal: seq<Entry>, id: nat, b: Buyout, j: nat) {
    && j < |journal| && IsFullPayment(journal[j], id, b)
    && forall k: nat | k < |journal| && IsFullPayment(journal[k], id, b) ::
         journal[j].date < journal[k].date || (journal[j].date == journal[k].date && j <= k)
  }

  lemma FirstPayment(journal: seq<Entry>, e: Entry, id: nat, b: Buyout)
    requires IsFullPayment(e, id, b) && forall k: nat | k < |journal| :: !IsFullPayment(journal[k], id, b)
    ensures IsOldestPayment(journal + [e], id, b, |journal|)
  {
    assert forall k: nat | k < |journal| :: (journal + [e])[k] == journal[k];
  }

  /** One more entry is the oldest payment when it pays and is older than the oldest so far. */
  lemma OldestNext(journal: seq<Entry>, e: Entry, id: nat, b: Buyout, j: nat)
    requires IsOldestPayment(journal, id, b, j)
    ensures IsOldestPayment(journal + [e], id, b, if IsFullPayment(e, id, b) && e.date < journal[j].date then |journal| else j)
  {
    assert forall k: nat | k < |journal| :: (journal + [e])[k] == journal[k];
  }

  lemma {:induction false} EarliestIsOldest(journal: seq<Entry>, id: nat, b: Buyout)
    ensures match EarliestPayment(journal, id, b)
      case None => forall k: nat | k < |journal| :: !IsFullPayment(journal[k], id, b)
      case Some(e) => exists j: nat :: IsOldestPayment(journal, id, b, j) && journal[j] == e
  {
    if journal != [] {
      var n := |journal| - 1;
      var before, e := journal[..n], journal[n];
      EarliestIsOldest(before, id, b);
      PaysIff(e, id, b);
      assert journal == before + [e];
      if EarliestPayment(before, id, b).Some? {
        var j: nat :| IsOldestPayment(before, id, b, j) && before[j] == EarliestPayment(before, id, b).value;
        OldestNext(before, e, id, b, j);
      } else if Pays(e, id, b) {
        FirstPayment(before, e, id, b);
      }
    }
  }

  /** The one payment buyout `id` can be settled on; a character numbered zero counts as none. */
  ghost predicate IsDue(rows: seq<Buyout>, journal: seq<Entry>, id: nat, j: nat)
    requires id < |rows|
  {
    rows[id].sellerCharacter != Some(0) && IsOldestPayment(journal, id, rows[id], j)
  }

  lemma DueIff(rows: seq<Buyout>, journal: seq<Entry>, id: nat, ref: string)
    requires id < |rows|
    ensures DueRef(rows, journal, id) == Some(ref) <==> exists j: nat :: IsDue(rows, journal, id, j) && ref == IntText(journal[j].id)
  {
    EarliestIsOldest(journal, id, rows[id]);
  }

  lemma DueIs(rows: seq<Buyout>, journal: seq<Entry>, id: nat, j: nat)
    requires id < |rows| && IsDue(rows, journal, id, j)
    ensures DueRef(rows, journal, id) == Some(IntText(journal[j].id))
  {
    DueIff(rows, journal, id, IntText(journal[j].id));
  }

  /** A buyout that is settled is settled on the payment due for it. */
  lemma {:induction false} SweepSettlesOnDue(rows: seq<Buyout>, journal: seq<Entry>, now: int, queue: seq<nat>, used: set<string>)
    requires QueuedApproved(rows, queue)
    ensures forall k | 0 <= k < |queue| :: var after := Sweep(rows, journal, now, queue, used)[queue[k]];
      after.status != Approved ==> DueRef(rows, journal, queue[k]) == Some(after.ref)
    decreases |queue|
  {
    if queue != [] {
      var id, rest, entry := queue[0], queue[1..], SettlingEntry(rows, journal, queue[0], used);
      var next := if entry.None? then rows else rows[id := SettledRow(rows[id], Esi, IntText(entry.value.id), now)];
      var used' := if entry.None? then used else used + {IntText(entry.value.id)};
      assert id !in rest && forall k | 0 <= k < |rest| :: rest[k] == queue[k + 1];
      TurnSettles(rows, journal, id, used);
      SweepSettlesOnDue(next, journal, now, rest, used');
      SweepSettlesOnly(next, journal, now, rest, used');
      forall k | 0 < k < |queue|
        ensures DueRef(next, journal, queue[k]) == DueRef(rows, journal, queue[k])
      {
        assert queue[k] != id;
      }
    }
  }

  ghost predicate SpentBefore(rows: seq<Buyout>, ref: string) {
    exists i :: 0 <= i < |rows| && rows[i].status == Settled && rows[i].ref == ref
  }

  /** Nobody has spent the payment before the run, and it is not what somebody earlier in the queue is
      settled on. */
  ghost predicate IsFree(rows: seq<Buyout>, journal: seq<Entry>, queue: seq<nat>, k: nat, j: nat)
    requires Within(queue, |rows|) && k < |queue| && j < |journal|
  {
    && !SpentBefore(rows, IntText(journal[j].id))
    && forall l: nat, m: nat | l < k && IsDue(rows, journal, queue[l], m) :: journal[m].id != journal[j].id
  }

  lemma WaitsUnlessFree(rows: seq<Buyout>, journal: seq<Entry>, queue: seq<nat>, k: nat, j: nat)
    requires Within(queue, |rows|) && k < |queue| && IsDue(rows, journal, queue[k], j)
    ensures WillWait(rows, journal, queue, UsedRefs(rows), k) <==> !IsFree(rows, journal, queue, k, j)
  {
    var ref := IntText(journal[j].id);
    DueIs(rows, journal, queue[k], j);
    UsedIff(rows, ref);
    if l: nat, m: nat :| l < k && IsDue(rows, journal, queue[l], m) && journal[m].id == journal[j].id {
      DueIs(rows, journal, queue[l], m);
    }
    if l :| 0 <= l < k && DueRef(rows, journal, queue[l]) == Some(ref) {
      DueIff(rows, journal, queue[l], ref);
      var m: nat :| IsDue(rows, journal, queue[l], m) && ref == IntText(journal[m].id);
      IntTextInjective(journal[m].id, journal[j].id);
    }
  }

  lemma UsedIff(rows: seq<Buyout>, ref: string)
    requires ref != ""
    ensures ref in UsedRefs(rows) <==> SpentBefore(rows, ref)
  {
    if i :| 0 <= i < |rows| && rows[i].status == Settled && rows[i].ref == ref {
      assert rows[i] in rows;
    }
  }

  /** A live run settles the k-th of its queue exactly when a payment is due for it that is free, and then on
      that payment; any other row stays as it is. */
  lemma RunSettlesIff(rows: seq<Buyout>, journal: seq<Entry>, config: Config, now: int, limit: nat, k: nat)
    requires config.enabled && config.audience != Disabled && config.requireEsiReconcile
    requires k < |RunQueue(rows, limit)|
    ensures var queue, after := RunQueue(rows, limit), Reconcile(rows, journal, config, now, limit);
      var id := queue[k];
      && (after[id] != rows[id] <==> exists j: nat :: IsDue(rows, journal, id, j) && IsFree(rows, journal, queue, k, j))
      && (forall j: nat | after[id] != rows[id] && IsDue(rows, journal, id, j) ::
            after[id] == rows[id].(status := Settled, settledAt := Some(now), kind := Esi, ref := IntText(journal[j].id)))
  {
    var queue, after, id := RunQueue(rows, limit), Reconcile(rows, journal, config, now, limit), RunQueue(rows, limit)[k];
    ReconcileIsThorough(rows, journal, config, now, limit);
    assert LeftOrSettled(rows[id], after[id], now);
    SweepSettlesOnDue(rows, journal, now, queue, UsedRefs(rows));
    if DueRef(rows, journal, id).Some? {
      DueIff(rows, journal, id, DueRef(rows, journal, id).value);
    }
    forall j: nat | IsDue(rows, journal, id, j)
      ensures after[id] != rows[id] <==> IsFree(rows, journal, queue, k, j)
      ensures after[id] != rows[id] ==> after[id].ref == IntText(journal[j].id)
    {
      WaitsUnlessFree(rows, journal, queue, k, j);
      DueIs(rows, journal, id, j);
    }
  }

  /** The queue of a run holds approved rows, at most `limit` of them, and none that it leaves out was decided
      before one that it holds. */
  lemma QueueIsOldest(rows: seq<Buyout>, limit: nat, i: nat)
    requires i < |rows|
    ensures var queue := RunQueue(rows, limit);
      && |queue| <= limit && (i in queue ==> rows[i].status == Approved)
      && (rows[i].status == Approved && i !in queue ==> |queue| == limit && forall k | 0 <= k < |queue| ::
            rows[i].decidedAt.Some? ==> rows[queue[k]].decidedAt.Some? && rows[queue[k]].decidedAt.value <= rows[i].decidedAt.value)
  {
    var all, queue := ApprovedQueue(rows, |rows|), RunQueue(rows, limit);
    if rows[i].status == Approved && i !in queue {
      assert i in all;
      var at :| 0 <= at < |all| && all[at] == i;
      assert at >= limit;
    }
  }

  // --- A later payment that is never considered ----------------------------------

  function Committed(decidedAt: int): Buyout {
    Buyout(Some(1), Some(7), 100, Approved, Some(2), Some(decidedAt), None, Unsettled, "", None)
  }

  /** One transfer whose reason names two buyouts, and a second one for the second of them. */
  const DOUBLE: Entry := Entry(1, DONATION_REF_TYPE, Some(7), 10, -100, "GB-0-GB-1-")
  const SECOND: Entry := Entry(2, DONATION_REF_TYPE, Some(7), 20, -100, "GB-1-")

  lemma TokensOccur()
    ensures ContainsIgnoringCase(DOUBLE.reason, PaymentToken(0)) && ContainsIgnoringCase(DOUBLE.reason, PaymentToken(1))
    ensures ContainsIgnoringCase(SECOND.reason, PaymentToken(1))
  {
    TokenIsUpper(0);
    TokenIsUpper(1);
    assert Numeral(0) == "0" && Numeral(1) == "1";
    assert PaymentToken(0) == "GB-0-" && PaymentToken(1) == "GB-1-";
    assert Upper(DOUBLE.reason) == DOUBLE.reason && Upper(SECOND.reason) == SECOND.reason;
    assert OccursAt(DOUBLE.reason, "GB-0-", 0) && OccursAt(DOUBLE.reason, "GB-1-", 5);
    assert OccursAt(SECOND.reason, "GB-1-", 0);
  }

  /** The double transfer settles the first buyout; the second keeps waiting, although a payment of its own
      for the full quote is in the journal and spent on nobody. */
  lemma LaterPaymentIgnored()
    ensures var rows, journal := [Committed(5), Committed(6)], [DOUBLE, SECOND];
      var after := Sweep(rows, journal, 30, [0, 1], UsedRefs(rows));
      && after[0].status == Settled && after[0].ref == IntText(DOUBLE.id)
      && after[1].status == Approved && Pays(SECOND, 1, after[1]) && !SpentElsewhere(after, 1, IntText(SECOND.id))
  {
    var rows, journal := [Committed(5), Committed(6)], [DOUBLE, SECOND];
    TokensOccur();
    OldestIsDouble(0);
    OldestIsDouble(1);
    assert UsedRefs(rows) == {};
    var ref := IntText(1);
    var next := rows[0 := SettledRow(rows[0], Esi, ref, 30)];
    assert [0, 1][1..] == [1] && [1][1..] == [];
    assert SettlingEntry(rows, journal, 0, {}) == Some(DOUBLE);
    assert SettlingEntry(next, journal, 1, {} + {ref}) == None;
    assert Sweep(next, journal, 30, [1], {} + {ref}) == next;
    if ref == IntText(2) {
      IntTextInjective(1, 2);
    }
  }

  lemma OldestIsDouble(id: nat)
    requires id < 2
    ensures EarliestPayment([DOUBLE, SECOND], id, Committed(5 + id)) == Some(DOUBLE)
  {
    TokensOccur();
    assert [DOUBLE, SECOND][..1] == [DOUBLE] && [DOUBLE][..0] == [];
    assert Pays(DOUBLE, id, Committed(5 + id));
    assert EarliestPayment([DOUBLE], id, Committed(5 + id)) == Some(DOUBLE);
  }

  // --- Conservation ----------------------------------------------------------

  function PaidOut(e: Entry): int {
    -e.amount
  }

  /** Quotes settled through the wallet among the first `n` rows. */
  function EsiQuoted(rows: seq<Buyout>, n: nat): int
    requires n <= |rows|
  {
    if n == 0 then 0 else
      EsiQuoted(rows, n - 1) + if EsiSettled(rows[n - 1]) then rows[n - 1].quoted else 0
  }

  /** The wallet entries that settled one of the first `n` rows. */
  ghost function MatchedEntries(rows: seq<Buyout>, journal: seq<Entry>, n: nat): set<Entry>
    requires n <= |rows|
  {
    set e | e in journal && exists i :: 0 <= i < n && SettledBy(e, i, rows)
  }

  lemma SameIdSameEntry(journal: seq<Entry>, a: Entry, b: Entry)
    requires DistinctEntries(journal) && a in journal && b in journal && IntText(a.id) == IntText(b.id)
    ensures a == b
  {
    IntTextInjective(a.id, b.id);
  }

  /** No entry settles two buyouts. */
  lemma EntrySettlesAtMostOne(rows: seq<Buyout>, journal: seq<Entry>, e: Entry, i: nat, j: nat)
    requires Reconciled(rows, journal) && i < |rows| && j < |rows|
    requires SettledBy(e, i, rows) && SettledBy(e, j, rows)
    ensures i == j
  {
  }

  lemma MatchedByNext(rows: seq<Buyout>, journal: seq<Entry>, n: nat, e: Entry)
    requires Reconciled(rows, journal) && DistinctEntries(journal) && 0 < n <= |rows|
    requires e in journal && SettledBy(e, n - 1, rows)
    ensures e !in MatchedEntries(rows, journal, n - 1)
    ensures MatchedEntries(rows, journal, n) == MatchedEntries(rows, journal, n - 1) + {e}
  {
    var before, after := MatchedEntries(rows, journal, n - 1), MatchedEntries(rows, journal, n);
    forall x | x in after
      ensures x in before + {e}
    {
      var i :| 0 <= i < n && SettledBy(x, i, rows);
      if i == n - 1 {
        SameIdSameEntry(journal, x, e);
      }
    }
  }

  lemma MatchedUnlessNext(rows: seq<Buyout>, journal: seq<Entry>, n: nat)
    requires 0 < n <= |rows| && !EsiSettled(rows[n - 1])
    ensures MatchedEntries(rows, journal, n) == MatchedEntries(rows, journal, n - 1)
  {
  }

  lemma MatchedWith(rows: seq<Buyout>, journal: seq<Entry>, i: nat) returns (e: Entry)
    requires Reconciled(rows, journal) && i < |rows| && EsiSettled(rows[i])
    ensures e in journal && SettledBy(e, i, rows) && rows[i].quoted <= PaidOut(e)
  {
    e :| e in journal && SettledBy(e, i, rows);
  }

  lemma AddedTo(before: set<Entry>, after: set<Entry>, e: Entry)
    requires e !in before && after == before + {e}
    ensures SumSet(after, PaidOut) == PaidOut(e) + SumSet(before, PaidOut)
  {
    SumSetAdd(before, PaidOut, e);
  }

  lemma {:induction false} QuotesCoveredUpTo(rows: seq<Buyout>, journal: seq<Entry>, n: nat)
    requires Reconciled(rows, journal) && DistinctEntries(journal) && n <= |rows|
    ensures EsiQuoted(rows, n) <= SumSet(MatchedEntries(rows, journal, n), PaidOut)
  {
    if n == 0 {
      assert MatchedEntries(rows, journal, 0) == {};
    } else {
      QuotesCoveredUpTo(rows, journal, n - 1);
      if EsiSettled(rows[n - 1]) {
        var e := MatchedWith(rows, journal, n - 1);
        MatchedByNext(rows, journal, n, e);
        AddedTo(MatchedEntries(rows, journal, n - 1), MatchedEntries(rows, journal, n), e);
      } else {
        MatchedUnlessNext(rows, journal, n);
      }
    }
  }
}
