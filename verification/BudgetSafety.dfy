/** The rolling budget, separation of duties and settlement safety over every run of the
    approval protocol. */
module BudgetSafety {
  import opened Options
  import opened Sums
  import opened Guaranteed
  import opened Settlement
  import opened ApprovalProtocol

  /** The quote counts when the row was committed in [from, ..] and before approval `upto`. */
  function Counted(b: Buyout, from: int, upto: nat): int {
    if CommittedSince(b, from) && b.approval.Some? && b.approval.value.order < upto then b.quoted else 0
  }

  /** ISK committed since `from` by the approvals numbered below `upto`. */
  function CommittedBefore(rows: seq<Buyout>, from: int, upto: nat): int {
    if rows == [] then 0 else
      CommittedBefore(rows[..|rows| - 1], from, upto) + Counted(rows[|rows| - 1], from, upto)
  }

  /** Approved or settled, and decided in [from, to]. */
  predicate DecidedIn(b: Buyout, from: int, to: int) {
    (b.status == Approved || b.status == Settled) && b.decidedAt.Some? && from <= b.decidedAt.value <= to
  }

  /** ISK of approved or settled buyouts decided in [from, to]. */
  function DecidedWithin(rows: seq<Buyout>, from: int, to: int): int {
    if rows == [] then 0 else
      var b := rows[|rows| - 1];
      DecidedWithin(rows[..|rows| - 1], from, to) + if DecidedIn(b, from, to) then b.quoted else 0
  }

  // --- The invariant ---------------------------------------------------------

  predicate GatesPassed(b: Buyout, officer: nat, config: Config) {
    IsLive(config) && b.seller != Some(officer) && b.quoted <= config.perLotCap
  }

  predicate RowOk(b: Buyout, now: int, approvals: nat) {
    && b.quoted > 0
    && (b.status == Requested ==> b.decidedAt.None? && b.approval.None?)
    && (b.approval.Some? <==> IsCommitted(b))
    && (b.kind != Unsettled <==> b.status == Settled)
    && (IsCommitted(b) ==>
          && b.decidedAt.Some? && b.decidedAt.value <= now
          && b.approval.value.order < approvals
          && b.decidedBy.Some? && GatesPassed(b, b.decidedBy.value, b.approval.value.config))
  }

  predicate RowsOk(rows: seq<Buyout>, now: int, approvals: nat) {
    forall i | 0 <= i < |rows| :: RowOk(rows[i], now, approvals)
  }

  /** Approval numbers differ, and a lower one was decided no later. */
  predicate InOrder(a: Buyout, b: Buyout) {
    IsCommitted(a) && IsCommitted(b) && a.approval.Some? && b.approval.Some? && a.decidedAt.Some? && b.decidedAt.Some? ==>
      && a.approval.value.order != b.approval.value.order
      && (a.approval.value.order < b.approval.value.order ==> a.decidedAt.value <= b.decidedAt.value)
  }

  predicate OrderFollowsTime(rows: seq<Buyout>) {
    forall i, j | 0 <= i < |rows| && 0 <= j < |rows| && i != j :: InOrder(rows[i], rows[j])
  }

  predicate WithinOwnBudget(rows: seq<Buyout>, b: Buyout) {
    IsCommitted(b) && b.decidedAt.Some? && b.approval.Some? ==>
      CommittedBefore(rows, b.decidedAt.value - DAY, b.approval.value.order + 1) <= b.approval.value.config.dailyBudget
  }

  predicate BudgetsKept(rows: seq<Buyout>) {
    forall i | 0 <= i < |rows| :: WithinOwnBudget(rows, rows[i])
  }

  predicate NoneDecidedAfter(rows: seq<Buyout>, t: int) {
    forall i | 0 <= i < |rows| && IsCommitted(rows[i]) && rows[i].decidedAt.Some? :: rows[i].decidedAt.value <= t
  }

  /** What a transaction past its check still knows when it commits. */
  predicate TxnOk(s: State, t: Txn) {
    t.Cleared? || t.Stamped? ==>
      && t.id < |s.rows| && s.rows[t.id].status == Requested
      && GatesPassed(s.rows[t.id], t.officer, t.config)
      && t.checkedAt <= (if t.Stamped? then t.decidedAt else s.now) <= s.now
      && NoneDecidedAfter(s.rows, t.checkedAt)
      && CommittedTotal(s.rows, t.checkedAt - DAY) + s.rows[t.id].quoted <= t.config.dailyBudget
  }

  predicate TxnsOk(s: State) {
    forall w | w in s.txns ::
      && TxnOk(s, s.txns[w])
      && (!s.txns[w].ConfigRead? ==> s.configLock == Some(w))
  }

  ghost predicate Inv(s: State) {
    && RowsOk(s.rows, s.now, s.approvals)
    && OrderFollowsTime(s.rows)
    && BudgetsKept(s.rows)
    && TxnsOk(s)
    && DistinctEntries(s.journal)
    && Reconciled(s.rows, s.journal)
  }

  // --- Sums under row changes ------------------------------------------------

  /** The parts of a row the budget reads. */
  predicate SameCommitment(a: Buyout, b: Buyout) {
    && a.quoted == b.quoted && a.approval == b.approval
    && (IsCommitted(a) <==> IsCommitted(b)) && (IsCommitted(a) ==> a.decidedAt == b.decidedAt)
  }

  /** Same commitments, row by row. */
  predicate SameCommitments(rows: seq<Buyout>, after: seq<Buyout>) {
    |rows| == |after| && forall i | 0 <= i < |rows| :: SameCommitment(rows[i], after[i])
  }

  lemma {:induction false} SumsUnchanged(rows: seq<Buyout>, after: seq<Buyout>, from: int, upto: nat)
    requires SameCommitments(rows, after)
    ensures CommittedBefore(after, from, upto) == CommittedBefore(rows, from, upto)
    ensures CommittedTotal(after, from) == CommittedTotal(rows, from)
  {
    if rows != [] {
      var n := |rows| - 1;
      assert SameCommitment(rows[n], after[n]);
      SumsUnchanged(rows[..n], after[..n], from, upto);
    }
  }

  lemma SumsAppended(rows: seq<Buyout>, b: Buyout, from: int, upto: nat)
    requires !IsCommitted(b)
    ensures CommittedBefore(rows + [b], from, upto) == CommittedBefore(rows, from, upto)
    ensures CommittedTotal(rows + [b], from) == CommittedTotal(rows, from)
  {
    assert (rows + [b])[..|rows|] == rows;
  }

  lemma {:induction false} CommittedBeforeUpdate(rows: seq<Buyout>, id: nat, b: Buyout, from: int, upto: nat)
    requires id < |rows|
    ensures CommittedBefore(rows[id := b], from, upto)
         == CommittedBefore(rows, from, upto) - Counted(rows[id], from, upto) + Counted(b, from, upto)
  {
    var n := |rows| - 1;
    if id == n {
      assert rows[id := b][..n] == rows[..n];
    } else {
      CommittedBeforeUpdate(rows[..n], id, b, from, upto);
      assert rows[id := b][..n] == rows[..n][id := b];
    }
  }

  /** Fewer approvals counted from a later moment cannot sum to more. */
  lemma {:induction false} CommittedBeforeAtMostTotal(rows: seq<Buyout>, from: int, upto: nat, since: int)
    requires since <= from && forall i | 0 <= i < |rows| :: rows[i].quoted >= 0
    ensures CommittedBefore(rows, from, upto) <= CommittedTotal(rows, since)
  {
    if rows != [] {
      CommittedBeforeAtMostTotal(rows[..|rows| - 1], from, upto, since);
    }
  }

  /** A window is covered by its last approval's own 24 hours. */
  lemma {:induction false} WindowCovered(rows: seq<Buyout>, from: int, to: int, since: int, upto: nat)
    requires since <= from && forall i | 0 <= i < |rows| :: rows[i].quoted >= 0
    requires forall i | 0 <= i < |rows| && DecidedIn(rows[i], from, to) ::
               rows[i].approval.Some? && rows[i].approval.value.order < upto
    ensures DecidedWithin(rows, from, to) <= CommittedBefore(rows, since, upto)
  {
    if rows != [] {
      WindowCovered(rows[..|rows| - 1], from, to, since, upto);
    }
  }

  // --- Every step keeps the invariant ----------------------------------------

  lemma KeptBySameCommitments(s: State, after: State)
    requires Inv(s) && SameCommitments(s.rows, after.rows)
    requires after.now >= s.now && after.approvals == s.approvals
    requires RowsOk(after.rows, after.now, after.approvals)
    ensures OrderFollowsTime(after.rows) && BudgetsKept(after.rows)
  {
    forall i | 0 <= i < |after.rows|
      ensures WithinOwnBudget(after.rows, after.rows[i])
    {
      var b := after.rows[i];
      assert SameCommitment(s.rows[i], b) && WithinOwnBudget(s.rows, s.rows[i]);
      if IsCommitted(b) && b.decidedAt.Some? && b.approval.Some? {
        SumsUnchanged(s.rows, after.rows, b.decidedAt.value - DAY, b.approval.value.order + 1);
      }
    }
    forall i, j | 0 <= i < |after.rows| && 0 <= j < |after.rows| && i != j
      ensures InOrder(after.rows[i], after.rows[j])
    {
      assert SameCommitment(s.rows[i], after.rows[i]) && SameCommitment(s.rows[j], after.rows[j]);
      assert InOrder(s.rows[i], s.rows[j]);
    }
  }

  /** A transaction's knowledge survives any change that moves no commitment and leaves its row
      requested. */
  lemma TxnKeptBySameCommitments(s: State, after: State, t: Txn)
    requires TxnOk(s, t) && SameCommitments(s.rows, after.rows) && after.now >= s.now
    requires t.id < |s.rows| && (t.Cleared? || t.Stamped?) ==> after.rows[t.id] == s.rows[t.id]
    ensures TxnOk(after, t)
  {
    if t.Cleared? || t.Stamped? {
      SumsUnchanged(s.rows, after.rows, t.checkedAt - DAY, 0);
      forall i | 0 <= i < |after.rows| && IsCommitted(after.rows[i]) && after.rows[i].decidedAt.Some?
        ensures after.rows[i].decidedAt.value <= t.checkedAt
      {
        assert SameCommitment(s.rows[i], after.rows[i]);
      }
    }
  }

  lemma RowChangeKeepsInv(s: State, id: nat, b: Buyout)
    requires Inv(s) && id < |s.rows|
    requires SameCommitment(s.rows[id], b) && RowOk(b, s.now, s.approvals)
    requires RowIsLocked(s, id) ==> b == s.rows[id]
    requires EsiSettled(b) <==> EsiSettled(s.rows[id])
    requires EsiSettled(b) ==> b == s.rows[id]
    ensures Inv(WithRow(s, id, b))
  {
    var after := WithRow(s, id, b);
    KeptBySameCommitments(s, after);
    forall w | w in after.txns
      ensures TxnOk(after, after.txns[w])
    {
      TxnKeptBySameCommitments(s, after, s.txns[w]);
    }
    MatchesCarryOver(s.rows, after.rows, s.journal, s.journal);
  }

  /** Wallet matches depend on the settled rows alone, and the journal only grows. */
  lemma MatchesCarryOver(rows: seq<Buyout>, after: seq<Buyout>, journal: seq<Entry>, grown: seq<Entry>)
    requires Reconciled(rows, journal) && |rows| <= |after|
    requires forall i | 0 <= i < |after| && EsiSettled(after[i]) :: i < |rows| && after[i] == rows[i]
    requires forall e | e in journal :: e in grown
    ensures Reconciled(after, grown)
  {
    forall i | 0 <= i < |after| && EsiSettled(after[i])
      ensures exists e :: e in grown && SettledBy(e, i, after)
    {
      var e :| e in journal && SettledBy(e, i, rows);
      assert SettledBy(e, i, after);
    }
  }

  lemma RequestKeepsInv(s: State, b: Buyout)
    requires Inv(s) && b.status == Requested && RowOk(b, s.now, s.approvals)
    ensures Inv(s.(rows := s.rows + [b]))
  {
    var after := s.(rows := s.rows + [b]);
    forall i | 0 <= i < |after.rows|
      ensures WithinOwnBudget(after.rows, after.rows[i])
    {
      var r := after.rows[i];
      if i < |s.rows| && IsCommitted(r) && r.decidedAt.Some? && r.approval.Some? {
        assert WithinOwnBudget(s.rows, s.rows[i]);
        SumsAppended(s.rows, b, r.decidedAt.value - DAY, r.approval.value.order + 1);
      }
    }
    forall w | w in after.txns
      ensures TxnOk(after, after.txns[w])
    {
      var t := s.txns[w];
      if t.Cleared? || t.Stamped? {
        SumsAppended(s.rows, b, t.checkedAt - DAY, 0);
      }
    }
    MatchesCarryOver(s.rows, after.rows, s.journal, s.journal);
  }

  /** The new approval fits the budget it read. */
  lemma OwnBudgetHolds(rows: seq<Buyout>, id: nat, row: Buyout, checkedAt: int)
    requires id < |rows| && !IsCommitted(rows[id]) && forall i | 0 <= i < |rows| :: rows[i].quoted >= 0
    requires row.approval.Some? && row.decidedAt.Some? && checkedAt <= row.decidedAt.value && row.quoted == rows[id].quoted
    requires CommittedTotal(rows, checkedAt - DAY) + row.quoted <= row.approval.value.config.dailyBudget
    ensures WithinOwnBudget(rows[id := row], row)
  {
    var from, upto := row.decidedAt.value - DAY, row.approval.value.order + 1;
    CommittedBeforeUpdate(rows, id, row, from, upto);
    CommittedBeforeAtMostTotal(rows, from, upto, checkedAt - DAY);
  }

  /** Earlier approvals do not count later ones. */
  lemma EarlierBudgetHolds(rows: seq<Buyout>, id: nat, row: Buyout, b: Buyout)
    requires id < |rows| && !IsCommitted(rows[id]) && row.approval.Some?
    requires IsCommitted(b) && b.approval.Some? ==> b.approval.value.order < row.approval.value.order
    requires WithinOwnBudget(rows, b)
    ensures WithinOwnBudget(rows[id := row], b)
  {
    if IsCommitted(b) && b.decidedAt.Some? && b.approval.Some? {
      CommittedBeforeUpdate(rows, id, row, b.decidedAt.value - DAY, b.approval.value.order + 1);
    }
  }

  lemma CommitKeepsBudgets(s: State, w: nat)
    requires Inv(s) && w in s.txns && s.txns[w].Stamped?
    ensures BudgetsKept(Step(s, Commit(w)).rows)
  {
    var t := s.txns[w];
    assert TxnOk(s, t);
    var row := ApprovedRow(s.rows[t.id], t.officer, t.decidedAt, Approval(s.approvals, t.config));
    var after := s.rows[t.id := row];
    assert forall k | 0 <= k < |s.rows| :: RowOk(s.rows[k], s.now, s.approvals);
    forall i | 0 <= i < |after|
      ensures WithinOwnBudget(after, after[i])
    {
      if i == t.id {
        OwnBudgetHolds(s.rows, t.id, row, t.checkedAt);
      } else {
        EarlierBudgetHolds(s.rows, t.id, row, s.rows[i]);
      }
    }
  }

  lemma CommitKeepsInv(s: State, w: nat)
    requires Inv(s) && w in s.txns && s.txns[w].Stamped?
    ensures Inv(Step(s, Commit(w)))
  {
    CommitKeepsBudgets(s, w);
    var t := s.txns[w];
    assert TxnOk(s, t);
    var after := Step(s, Commit(w));
    forall i | 0 <= i < |after.rows|
      ensures RowOk(after.rows[i], after.now, after.approvals)
    {
      assert RowOk(s.rows[i], s.now, s.approvals);
    }
    forall v | v in after.txns
      ensures TxnOk(after, after.txns[v]) && after.txns[v].ConfigRead?
    {
      assert v != w && s.configLock == Some(w);
    }
    assert forall i | 0 <= i < |s.rows| && i != t.id && s.rows[i].approval.Some? ::
        RowOk(s.rows[i], s.now, s.approvals) && s.rows[i].decidedAt.Some? && s.rows[i].decidedAt.value <= t.checkedAt;
    MatchesCarryOver(s.rows, after.rows, s.journal, s.journal);
  }

  lemma ReconcileKeepsInv(s: State, limit: nat)
    requires Inv(s)
    ensures Inv(Step(s, ReconcileRun(limit)))
  {
    var after := Step(s, ReconcileRun(limit));
    ReconcileIsThorough(s.rows, s.journal, s.config, s.now, limit);
    ReconcileKeepsReconciled(s.rows, s.journal, s.config, s.now, limit);
    forall i | 0 <= i < |s.rows|
      ensures SameCommitment(s.rows[i], after.rows[i]) && RowOk(after.rows[i], s.now, s.approvals)
    {
      assert LeftOrSettled(s.rows[i], after.rows[i], s.now) && RowOk(s.rows[i], s.now, s.approvals);
    }
    KeptBySameCommitments(s, after);
    forall w | w in after.txns
      ensures TxnOk(after, after.txns[w])
    {
      var t := s.txns[w];
      if t.Cleared? || t.Stamped? {
        assert LeftOrSettled(s.rows[t.id], after.rows[t.id], s.now);
      }
      TxnKeptBySameCommitments(s, after, t);
    }
  }

  /** Steps that move locks and transactions only. */
  lemma LockStepsKeepInv(s: State, e: Event)
    requires Inv(s) && (e.ReadConfig? || e.LockConfig? || e.LockRow? || e.Abort? || e.EditConfig?)
    ensures Inv(Step(s, e))
  {
    var after := Step(s, e);
    assert SameCommitments(s.rows, after.rows);
    forall w | w in after.txns
      ensures TxnOk(after, after.txns[w])
    {
      if w in s.txns && after.txns[w] == s.txns[w] {
        TxnKeptBySameCommitments(s, after, s.txns[w]);
      }
    }
  }

  lemma StampKeepsInv(s: State, w: nat)
    requires Inv(s)
    ensures Inv(Step(s, Stamp(w)))
  {
    var after := Step(s, Stamp(w));
    assert SameCommitments(s.rows, after.rows);
    forall v | v in after.txns
      ensures TxnOk(after, after.txns[v])
    {
      assert TxnOk(s, s.txns[v]);
      if after.txns[v] == s.txns[v] {
        TxnKeptBySameCommitments(s, after, s.txns[v]);
      }
    }
  }

  lemma TimeAndJournalKeepInv(s: State, e: Event)
    requires Inv(s) && (e.Tick? || e.JournalSync?)
    ensures Inv(Step(s, e))
  {
    var after := Step(s, e);
    forall i | 0 <= i < |s.rows|
      ensures RowOk(s.rows[i], after.now, s.approvals) && SameCommitment(s.rows[i], s.rows[i])
    {
      assert RowOk(s.rows[i], s.now, s.approvals);
    }
    forall w | w in after.txns
      ensures TxnOk(after, after.txns[w])
    {
      TxnKeptBySameCommitments(s, after, s.txns[w]);
    }
    MatchesCarryOver(s.rows, after.rows, s.journal, after.journal);
  }

  lemma CheckKeepsInv(s: State, w: nat)
    requires Inv(s)
    ensures Inv(Step(s, Check(w)))
  {
    assert forall i | 0 <= i < |s.rows| :: RowOk(s.rows[i], s.now, s.approvals);
    assert SameCommitments(s.rows, s.rows);
    var after := Step(s, Check(w));
    forall v | v in after.txns && v != w
      ensures TxnOk(after, after.txns[v])
    {
      TxnKeptBySameCommitments(s, after, s.txns[v]);
    }
  }

  lemma StepKeepsInv(s: State, e: Event)
    requires Inv(s)
    ensures Inv(Step(s, e))
  {
    match e
    case Check(w) => CheckKeepsInv(s, w);
    case Commit(w) =>
      if w in s.txns && s.txns[w].Stamped? {
        CommitKeepsInv(s, w);
      }
    case Request(user, character, quoted) =>
      var row := RequestedRow(user, character, quoted, s.config);
      if row.Some? {
        RequestKeepsInv(s, row.value);
      }
    case Reject(officer, id) =>
      if Step(s, e) != s {
        assert RowOk(s.rows[id], s.now, s.approvals);
        RejectKeepsInv(s, officer, id);
      }
    case Cancel(user, id) =>
      if Step(s, e) != s {
        assert RowOk(s.rows[id], s.now, s.approvals);
        RowChangeKeepsInv(s, id, s.rows[id].(status := Cancelled));
      }
    case SettleManually(officer, id, ref) =>
      if Step(s, e) != s {
        assert RowOk(s.rows[id], s.now, s.approvals);
        RowChangeKeepsInv(s, id, SettledRow(s.rows[id], Manual, ref, s.now));
      }
    case ReconcileRun(limit) => ReconcileKeepsInv(s, limit);
    case Stamp(w) => StampKeepsInv(s, w);
    case Tick(_) => TimeAndJournalKeepInv(s, e);
    case JournalSync(_) => TimeAndJournalKeepInv(s, e);
    case _ => LockStepsKeepInv(s, e);
  }

  lemma RejectKeepsInv(s: State, officer: nat, id: nat)
    requires Inv(s) && id < |s.rows| && s.rows[id].status == Requested && !RowIsLocked(s, id)
    requires RowOk(s.rows[id], s.now, s.approvals)
    ensures Inv(WithRow(s, id, RejectedRow(s.rows[id], officer, s.now)))
  {
    RowChangeKeepsInv(s, id, RejectedRow(s.rows[id], officer, s.now));
  }

  lemma {:induction false} RunKeepsInv(s: State, events: seq<Event>)
    requires Inv(s)
    ensures Inv(Run(s, events))
  {
    if events != [] {
      RunKeepsInv(s, events[..|events| - 1]);
      StepKeepsInv(Run(s, events[..|events| - 1]), events[|events| - 1]);
    }
  }

  // --- What every run guarantees ---------------------------------------------

  lemma ReachableInv(config: Config, start: int, events: seq<Event>)
    ensures Inv(Run(Initial(config, start), events))
  {
    RunKeepsInv(Initial(config, start), events);
  }

  predicate InWindow(b: Buyout, t: int) {
    DecidedIn(b, t - 86400, t)
  }

  /** Row `last` is the most recent approval among those decided in [t - 24h, t]. */
  predicate LastInWindow(rows: seq<Buyout>, last: nat, t: int) {
    && last < |rows| && InWindow(rows[last], t) && rows[last].approval.Some?
    && forall i | 0 <= i < |rows| && InWindow(rows[i], t) ::
         rows[i].approval.Some? && rows[i].approval.value.order <= rows[last].approval.value.order
  }

  lemma CeilingAt(s: State, t: int, last: nat)
    requires Inv(s) && LastInWindow(s.rows, last, t)
    ensures DecidedWithin(s.rows, t - 86400, t) <= s.rows[last].approval.value.config.dailyBudget
  {
    var b := s.rows[last];
    assert forall i | 0 <= i < |s.rows| :: RowOk(s.rows[i], s.now, s.approvals);
    WindowCovered(s.rows, t - 86400, t, b.decidedAt.value - DAY, b.approval.value.order + 1);
    assert WithinOwnBudget(s.rows, b);
  }

  lemma LastStep(rows: seq<Buyout>, b: Buyout, last: nat, t: int) returns (last': nat)
    requires LastInWindow(rows, last, t) && (InWindow(b, t) ==> b.approval.Some?)
    ensures LastInWindow(rows + [b], last', t)
  {
    last' := if InWindow(b, t) && b.approval.value.order > rows[last].approval.value.order then |rows| else last;
  }

  lemma {:induction false} LastExists(s: State, t: int, n: nat)
    requires RowsOk(s.rows, s.now, s.approvals) && n <= |s.rows|
    ensures DecidedWithin(s.rows[..n], t - 86400, t) == 0 || exists last: nat :: LastInWindow(s.rows[..n], last, t)
  {
    if n > 0 {
      var before, b := s.rows[..n - 1], s.rows[n - 1];
      assert s.rows[..n] == before + [b] && (before + [b])[..n - 1] == before;
      LastExists(s, t, n - 1);
      assert RowOk(b, s.now, s.approvals);
      if last: nat :| LastInWindow(before, last, t) {
        var last' := LastStep(before, b, last, t);
      } else {
        NothingInWindow(s, t, n - 1);
        assert InWindow(b, t) ==> LastInWindow(before + [b], n - 1, t);
      }
    }
  }

  lemma {:induction false} NothingInWindow(s: State, t: int, n: nat)
    requires RowsOk(s.rows, s.now, s.approvals) && n <= |s.rows|
    ensures DecidedWithin(s.rows[..n], t - 86400, t) >= 0
    ensures DecidedWithin(s.rows[..n], t - 86400, t) == 0 ==> forall i | 0 <= i < n :: !InWindow(s.rows[i], t)
  {
    if n > 0 {
      assert s.rows[..n][..n - 1] == s.rows[..n - 1];
      NothingInWindow(s, t, n - 1);
      assert RowOk(s.rows[n - 1], s.now, s.approvals);
    }
  }

  /** The rolling ceiling: at every instant of every run, either nothing was committed in the
      trailing 24 hours, or the commitments decided there sum to at most the budget that the last
      of those approvals read. */
  lemma BudgetCeiling(config: Config, start: int, events: seq<Event>, t: int)
    ensures var rows := Run(Initial(config, start), events).rows;
      && (forall last: nat | LastInWindow(rows, last, t) ::
            DecidedWithin(rows, t - 86400, t) <= rows[last].approval.value.config.dailyBudget)
      && (DecidedWithin(rows, t - 86400, t) == 0 || exists last: nat :: LastInWindow(rows, last, t))
  {
    ReachableInv(config, start, events);
    var s := Run(Initial(config, start), events);
    forall last: nat | LastInWindow(s.rows, last, t)
      ensures DecidedWithin(s.rows, t - 86400, t) <= s.rows[last].approval.value.config.dailyBudget
    {
      CeilingAt(s, t, last);
    }
    LastExists(s, t, |s.rows|);
    assert s.rows[..|s.rows|] == s.rows;
  }

  /** Configurations in force at some moment of the run. */
  function ConfigsInForce(s: State, events: seq<Event>): set<Config> {
    if events == [] then {s.config} else
      ConfigsInForce(s, events[..|events| - 1]) + {Run(s, events).config}
  }

  predicate ConfigsFrom(s: State, known: set<Config>) {
    && s.config in known
    && (forall w | w in s.txns :: s.txns[w].config in known)
    && (forall i | 0 <= i < |s.rows| && s.rows[i].approval.Some? :: s.rows[i].approval.value.config in known)
  }

  lemma StepReadsConfigs(s: State, e: Event, known: set<Config>)
    requires ConfigsFrom(s, known)
    ensures ConfigsFrom(Step(s, e), known + {Step(s, e).config})
  {
    if e.ReconcileRun? {
      ReconcileIsThorough(s.rows, s.journal, s.config, s.now, e.limit);
      forall i | 0 <= i < |s.rows|
        ensures Step(s, e).rows[i].approval == s.rows[i].approval
      {
        assert LeftOrSettled(s.rows[i], Step(s, e).rows[i], s.now);
      }
    }
  }

  lemma {:induction false} RunReadsConfigs(config: Config, start: int, events: seq<Event>)
    ensures ConfigsFrom(Run(Initial(config, start), events), ConfigsInForce(Initial(config, start), events))
  {
    if events != [] {
      RunReadsConfigs(config, start, events[..|events| - 1]);
      StepReadsConfigs(Run(Initial(config, start), events[..|events| - 1]), events[|events| - 1],
                       ConfigsInForce(Initial(config, start), events[..|events| - 1]));
    }
  }

  /** While the feature is off nothing is requested and nothing is settled through the wallet, and an approval
      that read it as off never gets past its check. */
  lemma NothingMovesWhileOff(s: State, e: Event)
    ensures (e.Request? || e.ReconcileRun?) && Step(s, e).rows != s.rows ==> s.config.enabled && s.config.audience != Disabled
    ensures e.Check? && e.worker in Step(s, e).txns && Step(s, e) != s ==>
      s.txns[e.worker].config.enabled && s.txns[e.worker].config.audience != Disabled
  {
    if e.Check? && e.worker in s.txns && s.txns[e.worker].RowLocked? && s.txns[e.worker].id < |s.rows| {
      var t := s.txns[e.worker];
      BlockedIff(s.rows, s.rows[t.id], t.officer, t.config, s.now);
    }
  }

  /** Every commitment passed every gate of a configuration that really was in force: the feature
      live, somebody else's request, a positive quote within the per-lot cap. */
  lemma CommitmentsPassedGates(config: Config, start: int, events: seq<Event>, i: nat)
    requires i < |Run(Initial(config, start), events).rows|
    requires Run(Initial(config, start), events).rows[i].status in {Approved, Settled}
    ensures var b := Run(Initial(config, start), events).rows[i];
      && b.approval.Some? && b.decidedBy.Some? && b.decidedAt.Some? && b.quoted > 0
      && b.approval.value.config.enabled && b.approval.value.config.audience != Disabled && b.quoted <= b.approval.value.config.perLotCap
      && b.seller != b.decidedBy
      && b.approval.value.config in ConfigsInForce(Initial(config, start), events)
      && (exists before :: 0 <= before <= |events| && Run(Initial(config, start), events[..before]).config == b.approval.value.config)
  {
    ReachableInv(config, start, events);
    RunReadsConfigs(config, start, events);
    var s := Run(Initial(config, start), events);
    assert RowOk(s.rows[i], s.now, s.approvals);
    InForceAtSomePrefix(Initial(config, start), events, s.rows[i].approval.value.config);
  }

  lemma {:induction false} InForceAtSomePrefix(s: State, events: seq<Event>, c: Config)
    requires c in ConfigsInForce(s, events)
    ensures exists before :: 0 <= before <= |events| && Run(s, events[..before]).config == c
  {
    var n := |events|;
    assert events[..n] == events;
    if n > 0 && c in ConfigsInForce(s, events[..n - 1]) {
      InForceAtSomePrefix(s, events[..n - 1], c);
      var before :| 0 <= before <= n - 1 && Run(s, events[..n - 1][..before]).config == c;
      assert events[..n - 1][..before] == events[..before];
    } else {
      assert Run(s, events[..n]).config == c;
    }
  }

  /** Wallet safety of every run: distinct entries settle distinct buyouts, every match is a full
      payment to the right seller on or after approval, and the quotes settled through the wallet
      are covered by what those entries paid out. */
  lemma SettlementSafety(config: Config, start: int, events: seq<Event>)
    ensures var s := Run(Initial(config, start), events);
      && (forall i | 0 <= i < |s.rows| && s.rows[i].status == Settled && s.rows[i].kind == Esi :: PaidThroughWallet(s.rows, s.journal, i))
      && (forall i, j | 0 <= i < j < |s.rows| && s.rows[i].status == s.rows[j].status == Settled && s.rows[i].kind == s.rows[j].kind == Esi ::
            s.rows[i].ref != s.rows[j].ref)
      && EsiQuoted(s.rows, |s.rows|) <= SumSet(MatchedEntries(s.rows, s.journal, |s.rows|), PaidOut)
  {
    ReachableInv(config, start, events);
    var s := Run(Initial(config, start), events);
    QuotesCoveredUpTo(s.rows, s.journal, |s.rows|);
    forall i | 0 <= i < |s.rows| && EsiSettled(s.rows[i])
      ensures PaidThroughWallet(s.rows, s.journal, i)
    {
      SettledIsPaid(s.rows, s.journal, i);
    }
  }

  // --- Life cycle ------------------------------------------------------------

  /** How one row may differ later: the deal itself is frozen, a decision stands, an approval can
      only be settled, and a final row never moves again. */
  predicate Evolved(before: Buyout, after: Buyout) {
    && after.seller == before.seller && after.sellerCharacter == before.sellerCharacter && after.quoted == before.quoted
    && (before.status in {Settled, Rejected, Cancelled} ==> after == before)
    && (before.status == Approved ==>
          && after.status in {Approved, Settled} && after.decidedAt == before.decidedAt && after.decidedBy == before.decidedBy
          && after.approval == before.approval)
  }

  lemma StepEvolves(s: State, e: Event, i: nat)
    requires Inv(s) && i < |s.rows|
    ensures |Step(s, e).rows| >= |s.rows| && Evolved(s.rows[i], Step(s, e).rows[i])
    ensures s.rows[i].status !in {Approved, Settled} && Step(s, e).rows[i].status in {Approved, Settled} ==>
      e.Commit? && e.worker in s.txns && s.configLock == Some(e.worker) && s.txns[e.worker].id == i
  {
    if e.ReconcileRun? {
      ReconcileIsThorough(s.rows, s.journal, s.config, s.now, e.limit);
      assert LeftOrSettled(s.rows[i], Step(s, e).rows[i], s.now);
    } else if e.Commit? && e.worker in s.txns {
      assert TxnOk(s, s.txns[e.worker]);
    }
  }

  lemma {:induction false} RunEvolves(s: State, events: seq<Event>, i: nat)
    requires Inv(s) && i < |s.rows|
    ensures |Run(s, events).rows| >= |s.rows| && Evolved(s.rows[i], Run(s, events).rows[i])
  {
    if events != [] {
      var before := events[..|events| - 1];
      RunEvolves(s, before, i);
      RunKeepsInv(s, before);
      StepEvolves(Run(s, before), events[|events| - 1], i);
    }
  }

  // --- Locks, clock and journal ----------------------------------------------

  /** Worker `w` holds the lock on row `id`: it has taken both locks and has neither committed nor given up. */
  predicate Holds(s: State, w: nat, id: nat) {
    w in s.txns && !s.txns[w].ConfigRead? && !s.txns[w].ConfigLocked? && s.txns[w].id == id
  }

  /** In every run a locked row stays as it is until its holder commits; only a reconcile run, which takes
      approved rows alone, does not ask for the lock. */
  lemma LockedRowStays(config: Config, start: int, events: seq<Event>, e: Event, w: nat, id: nat)
    requires var s := Run(Initial(config, start), events); Holds(s, w, id) && id < |s.rows|
    requires e != Commit(w) && !e.ReconcileRun?
    ensures var s := Run(Initial(config, start), events); id < |Step(s, e).rows| && Step(s, e).rows[id] == s.rows[id]
    ensures e == Abort(w) ==>
      var s := Step(Run(Initial(config, start), events), e); w !in s.txns && s.configLock == None
  {
    ReachableInv(config, start, events);
    var s := Run(Initial(config, start), events);
    assert s.configLock == Some(w) && RowIsLocked(s, id);
  }

  /** A row that no approval holds can be decided, withdrawn or settled at once, whatever other rows are locked. */
  lemma FreeRowMoves(s: State, id: nat, user: nat, ref: string)
    requires id < |s.rows| && forall w | w in s.txns :: !Holds(s, w, id)
    ensures s.rows[id].status == Requested ==>
      Step(s, Reject(user, id)) == WithRow(s, id, s.rows[id].(status := Rejected, decidedBy := Some(user), decidedAt := Some(s.now)))
    ensures s.rows[id].status == Requested && s.rows[id].seller == Some(user) ==>
      Step(s, Cancel(user, id)) == WithRow(s, id, s.rows[id].(status := Cancelled))
    ensures s.rows[id].status == Approved && s.rows[id].seller != Some(user) && !s.config.requireEsiReconcile ==>
      Step(s, SettleManually(user, id, ref))
      == WithRow(s, id, s.rows[id].(status := Settled, settledAt := Some(s.now), kind := Manual, ref := ref))
  {
    assert !RowIsLocked(s, id);
  }

  lemma {:induction false} StampKept(s: State, w: nat, events: seq<Event>)
    requires w in s.txns && s.txns[w].Stamped?
    requires forall i | 0 <= i < |events| :: events[i] != Commit(w) && events[i] != Abort(w)
    ensures w in Run(s, events).txns && Run(s, events).txns[w] == s.txns[w]
    ensures |Run(s, events).rows| >= |s.rows|
  {
    if events != [] {
      StampKept(s, w, events[..|events| - 1]);
    }
  }

  /** The time on record for a decision is that of its stamp, between check and commit, whatever happens and
      however long it takes until the commit. */
  lemma DatedByStamp(s: State, w: nat, events: seq<Event>)
    requires w in s.txns && s.txns[w].Cleared? && s.txns[w].id < |s.rows|
    requires forall i | 0 <= i < |events| :: events[i] != Commit(w) && events[i] != Abort(w)
    ensures var id, rows := s.txns[w].id, Step(Run(Step(s, Stamp(w)), events), Commit(w)).rows;
      id < |rows| && rows[id].status == Approved && rows[id].decidedAt == Some(s.now) && rows[id].decidedBy == Some(s.txns[w].officer)
  {
    StampKept(Step(s, Stamp(w)), w, events);
  }

  function Seconds(events: seq<Event>): nat {
    if events == [] then 0 else
      var e := events[|events| - 1];
      Seconds(events[..|events| - 1]) + if e.Tick? then e.seconds else 0
  }

  /** The clock shows the start plus every tick; the journal keeps what it has, and has an entry of every number
      that was ever synced. */
  lemma {:induction false} ClockAndJournal(s: State, events: seq<Event>)
    ensures Run(s, events).now == s.now + Seconds(events)
    ensures s.journal <= Run(s, events).journal
    ensures forall i | 0 <= i < |events| && events[i].JournalSync? ::
      exists j :: 0 <= j < |Run(s, events).journal| && Run(s, events).journal[j].id == events[i].entry.id
  {
    if events != [] {
      var n := |events| - 1;
      var before, after := Run(s, events[..n]), Run(s, events);
      ClockAndJournal(s, events[..n]);
      SyncAdds(before, events[n]);
      forall i | 0 <= i < |events| && events[i].JournalSync?
        ensures exists j :: 0 <= j < |after.journal| && after.journal[j].id == events[i].entry.id
      {
        if i < n {
          assert events[..n][i] == events[i];
          var j :| 0 <= j < |before.journal| && before.journal[j].id == events[i].entry.id;
          assert after.journal[j] == before.journal[j];
        }
      }
    }
  }

  lemma SyncAdds(s: State, e: Event)
    ensures s.journal <= Step(s, e).journal
    ensures e.JournalSync? ==> exists j :: 0 <= j < |Step(s, e).journal| && Step(s, e).journal[j].id == e.entry.id
    ensures Step(s, e).now == s.now + if e.Tick? then e.seconds else 0
  {
    if e.JournalSync? && Step(s, e) != s {
      assert Step(s, e).journal[|s.journal|] == e.entry;
    }
  }

  // --- The budget that binds is the one read, not the one in force -----------

  predicate QuotesPositive(rows: seq<Buyout>) {
    forall i | 0 <= i < |rows| :: rows[i].quoted > 0
  }

  lemma {:induction false} TotalNotNegative(rows: seq<Buyout>, since: int)
    requires QuotesPositive(rows)
    ensures CommittedTotal(rows, since) >= 0
  {
    if rows != [] {
      TotalNotNegative(rows[..|rows| - 1], since);
    }
  }

  /** Every lot that clears the check under `read` also fits the budget of `inForce`. */
  ghost predicate AlwaysFits(read: Config, inForce: Config) {
    forall rows: seq<Buyout>, b: Buyout, officer: nat, now: int
      | QuotesPositive(rows + [b]) && ApprovalBlocker(rows, b, officer, read, now).None? ::
      CommittedTotal(rows, now - DAY) + b.quoted <= inForce.dailyBudget
  }

  function SampleRow(quoted: int): Buyout {
    Buyout(Some(1), Some(7), quoted, Requested, None, None, None, Unsettled, "", None)
  }

  /** An approval working from a configuration read earlier is sure to respect the budget now in
      force exactly when that budget was not lowered below the one read (or the old configuration
      approves nothing at all). */
  lemma StaleBudgetExact(read: Config, inForce: Config)
    requires IsLive(read)
    ensures AlwaysFits(read, inForce) <==>
      read.dailyBudget <= inForce.dailyBudget || read.dailyBudget < 1 || read.perLotCap < 1
  {
    if AlwaysFits(read, inForce) && read.dailyBudget >= 1 && read.perLotCap >= 1 {
      var rows := if read.dailyBudget == 1 then [] else [SampleRow(read.dailyBudget - 1).(status := Approved, decidedAt := Some(0))];
      assert CommittedTotal(rows, 0 - DAY) == read.dailyBudget - 1;
      assert QuotesPositive(rows + [SampleRow(1)]);
      assert ApprovalBlocker(rows, SampleRow(1), 2, read, 0).None?;
    }
    forall rows: seq<Buyout>, b: Buyout, officer: nat, now: int
      | QuotesPositive(rows + [b]) && ApprovalBlocker(rows, b, officer, read, now).None?
      ensures CommittedTotal(rows, now - DAY) + b.quoted <= read.dailyBudget && 1 <= b.quoted <= read.perLotCap && read.dailyBudget >= 1
    {
      assert (rows + [b])[|rows|] == b;
      assert forall i | 0 <= i < |rows| :: rows[i] == (rows + [b])[i];
      TotalNotNegative(rows, now - DAY);
    }
  }

  /** A transaction keeps the configuration it read, and only an edit changes the one in force. */
  lemma StepKeepsRead(s: State, e: Event, w: nat)
    requires !(e.ReadConfig? && e.worker == w)
    ensures w in Step(s, e).txns ==> w in s.txns && Step(s, e).txns[w].config == s.txns[w].config && Step(s, e).txns[w].id == s.txns[w].id
  {
  }

  lemma StepKeepsConfig(s: State, e: Event)
    ensures Step(s, e).config == if e.EditConfig? then e.config else s.config
  {
  }

  /** Worker `w` approves row `id` under `read`, whose budget is no more than the one in force. */
  predicate GoesBy(s: State, w: nat, id: nat, read: Config) {
    && (w in s.txns ==> s.txns[w].config == read && s.txns[w].id == id)
    && read.dailyBudget <= s.config.dailyBudget
  }

  lemma ReadGoesBy(s: State, e: Event)
    requires e.ReadConfig? && e.worker !in s.txns
    ensures GoesBy(Step(s, e), e.worker, e.id, s.config)
  {
  }

  lemma StepGoesBy(s: State, e: Event, w: nat, id: nat, read: Config)
    requires GoesBy(s, w, id, read) && !(e.ReadConfig? && e.worker == w)
    requires e.EditConfig? ==> s.config.dailyBudget <= e.config.dailyBudget
    ensures GoesBy(Step(s, e), w, id, read)
  {
    StepKeepsRead(s, e, w);
    StepKeepsConfig(s, e);
  }

  /** No edit among the events after `r` lowers the daily budget. */
  predicate NoBudgetCut(s: State, events: seq<Event>, r: nat) {
    |events| <= r + 1 ||
    var before, e := events[..|events| - 1], events[|events| - 1];
    NoBudgetCut(s, before, r) && (e.EditConfig? ==> Run(s, before).config.dailyBudget <= e.config.dailyBudget)
  }

  ghost predicate ReadOnce(events: seq<Event>, r: nat, w: nat) {
    forall i | r < i < |events| :: !(events[i].ReadConfig? && events[i].worker == w)
  }

  lemma RunLast(s: State, events: seq<Event>)
    requires events != []
    ensures Run(s, events) == Step(Run(s, events[..|events| - 1]), events[|events| - 1])
  {
  }

  /** What the worker read at `r` is still what it goes by, and no more than the budget now in force. */
  lemma {:induction false} ReadStaysBelow(s: State, events: seq<Event>, r: nat)
    requires r < |events| && events[r].ReadConfig? && events[r].worker !in Run(s, events[..r]).txns
    requires ReadOnce(events, r, events[r].worker) && NoBudgetCut(s, events, r)
    ensures GoesBy(Run(s, events), events[r].worker, events[r].id, Run(s, events[..r]).config)
  {
    var before, e := events[..|events| - 1], events[|events| - 1];
    RunLast(s, events);
    if r < |before| {
      assert before[r] == events[r] && before[..r] == events[..r];
      ReadStaysBelow(s, before, r);
      StepGoesBy(Run(s, before), e, events[r].worker, events[r].id, Run(s, events[..r]).config);
    } else {
      ReadGoesBy(Run(s, before), e);
    }
  }

  lemma {:induction false} TotalOfChange(rows: seq<Buyout>, id: nat, b: Buyout, since: int)
    requires id < |rows| && !IsCommitted(rows[id])
    ensures CommittedTotal(rows[id := b], since) == CommittedTotal(rows, since) + if CommittedSince(b, since) then b.quoted else 0
  {
    var n, after := |rows| - 1, rows[id := b];
    if id == n {
      assert after[..n] == rows[..n];
    } else {
      assert after[..n] == rows[..n][id := b];
      TotalOfChange(rows[..n], id, b, since);
    }
  }

  lemma {:induction false} LaterTotalSmaller(rows: seq<Buyout>, since: int, later: int)
    requires since <= later && forall i | 0 <= i < |rows| :: rows[i].quoted >= 0
    ensures CommittedTotal(rows, later) <= CommittedTotal(rows, since)
  {
    if rows != [] {
      LaterTotalSmaller(rows[..|rows| - 1], since, later);
    }
  }

  lemma CommitTotalFits(s: State, w: nat)
    requires Inv(s) && w in s.txns && s.txns[w].Stamped?
    ensures var t, after := s.txns[w], Step(s, Commit(w)).rows;
      && t.id < |after| && after[t.id].status == Approved && after[t.id].decidedAt == Some(t.decidedAt)
      && CommittedTotal(after, t.decidedAt - DAY) <= t.config.dailyBudget
  {
    var t := s.txns[w];
    assert TxnOk(s, t);
    assert forall i | 0 <= i < |s.rows| :: RowOk(s.rows[i], s.now, s.approvals);
    TotalOfChange(s.rows, t.id, ApprovedRow(s.rows[t.id], t.officer, t.decidedAt, Approval(s.approvals, t.config)), t.decidedAt - DAY);
    LaterTotalSmaller(s.rows, t.checkedAt - DAY, t.decidedAt - DAY);
  }

  /** At its commit, an approval and everything committed in the 24 hours before it fit the budget it read. */
  lemma CommitFitsRead(s: State, w: nat)
    requires Inv(s) && w in s.txns && s.txns[w].Stamped?
    ensures var t, after := s.txns[w], Step(s, Commit(w)).rows;
      && t.id < |after| && after[t.id].status == Approved && after[t.id].decidedAt == Some(t.decidedAt)
      && SumSet(DecidedSince(after, t.decidedAt - 86400), QuoteIn(after)) <= t.config.dailyBudget
  {
    CommitTotalFits(s, w);
    CommittedTotalIs(Step(s, Commit(w)).rows, s.txns[w].decidedAt - 86400);
  }

  /** Row `id` was just approved and fits the budget of `config` together with the 24 hours before it. */
  ghost predicate FitsAt(rows: seq<Buyout>, id: nat, config: Config) {
    && id < |rows| && rows[id].status == Approved && rows[id].decidedAt.Some?
    && SumSet(DecidedSince(rows, rows[id].decidedAt.value - 86400), QuoteIn(rows)) <= config.dailyBudget
  }

  lemma CommitFitsWider(s: State, w: nat)
    requires Inv(s) && w in s.txns && s.txns[w].Stamped? && s.txns[w].config.dailyBudget <= s.config.dailyBudget
    ensures FitsAt(Step(s, Commit(w)).rows, s.txns[w].id, s.config)
  {
    CommitFitsRead(s, w);
  }

  /** When nobody cuts the budget between an approval's read and its commit, the approval fits the budget
      in force at its commit too, in every run. */
  lemma CommitFitsInForce(config: Config, start: int, events: seq<Event>, r: nat, w: nat)
    requires r < |events| && events[r].ReadConfig? && events[r].worker == w && w !in Run(Initial(config, start), events[..r]).txns
    requires ReadOnce(events, r, w) && NoBudgetCut(Initial(config, start), events, r)
    requires w in Run(Initial(config, start), events).txns && Run(Initial(config, start), events).txns[w].Stamped?
    ensures var s := Run(Initial(config, start), events); FitsAt(Step(s, Commit(w)).rows, events[r].id, s.config)
  {
    ReachableInv(config, start, events);
    ReadBelowAtEnd(Initial(config, start), events, r, w);
    CommitFitsWider(Run(Initial(config, start), events), w);
  }

  lemma ReadBelowAtEnd(s: State, events: seq<Event>, r: nat, w: nat)
    requires r < |events| && events[r].ReadConfig? && events[r].worker == w && w !in Run(s, events[..r]).txns
    requires ReadOnce(events, r, w) && NoBudgetCut(s, events, r) && w in Run(s, events).txns
    ensures Run(s, events).txns[w].id == events[r].id
    ensures Run(s, events).txns[w].config.dailyBudget <= Run(s, events).config.dailyBudget
  {
    ReadStaysBelow(s, events, r);
  }

  const OLD_CONFIG: Config := Config(true, Public, 100, 100, true)
  const CUT_CONFIG: Config := Config(true, Public, 100, 10, true)
  const STALE_READ: seq<Event> :=
    [Request(User(1, true, false, true, false), Some(7), 100), ReadConfig(0, 2, 0), EditConfig(CUT_CONFIG)]
  const STALE_COMMIT: seq<Event> := [LockConfig(0), LockRow(0), Check(0), Stamp(0), Commit(0)]

  lemma StaleReadReached()
    ensures Run(Initial(OLD_CONFIG, 0), STALE_READ)
         == State(0, CUT_CONFIG, [SampleRow(100)], [], map[0 := ConfigRead(2, 0, OLD_CONFIG)], None, 0)
  {
    var s, e := Initial(OLD_CONFIG, 0), STALE_READ;
    RunSnoc(s, [], e[0]);
    RunSnoc(s, [e[0]], e[1]);
    RunSnoc(s, [e[0]] + [e[1]], e[2]);
    assert e == [e[0]] + [e[1]] + [e[2]];
    assert [] + [e[0]] == [e[0]];
  }

  lemma StaleReadLocks(s: State)
    requires s == State(0, CUT_CONFIG, [SampleRow(100)], [], map[0 := ConfigRead(2, 0, OLD_CONFIG)], None, 0)
    ensures Step(Step(s, LockConfig(0)), LockRow(0)) == s.(txns := map[0 := RowLocked(2, 0, OLD_CONFIG)], configLock := Some(0))
  {
    assert Step(s, LockConfig(0)) == s.(txns := map[0 := ConfigLocked(2, 0, OLD_CONFIG)], configLock := Some(0));
  }

  lemma RunTwo(s: State, a: Event, b: Event)
    ensures Run(s, [a, b]) == Step(Step(s, a), b)
  {
    RunSnoc(s, [], a);
    RunSnoc(s, [a], b);
    assert [] + [a] == [a] && [a] + [b] == [a, b];
  }

  lemma StaleReadCommits(s: State)
    requires s == State(0, CUT_CONFIG, [SampleRow(100)], [], map[0 := ConfigRead(2, 0, OLD_CONFIG)], None, 0)
    ensures Run(s, STALE_COMMIT).rows == [ApprovedRow(SampleRow(100), 2, 0, Approval(0, OLD_CONFIG))]
    ensures Run(s, STALE_COMMIT).config == CUT_CONFIG && Run(s, STALE_COMMIT).now == 0
  {
    var e := STALE_COMMIT;
    StaleReadLocks(s);
    RunTwo(s, LockConfig(0), LockRow(0));
    assert e[..2] == [LockConfig(0), LockRow(0)];
    RunSnoc(s, e[..2], e[2]);
    RunSnoc(s, e[..3], e[3]);
    RunSnoc(s, e[..4], e[4]);
    assert e[..2] + [e[2]] == e[..3] && e[..3] + [e[3]] == e[..4] && e[..4] + [e[4]] == e;
    assert s.rows[..0] == [];
    assert CommittedTotal(s.rows, 0 - DAY) == 0;
  }

  lemma ConcatNext(s: State, first: seq<Event>, second: seq<Event>, e: Event)
    requires Run(s, first + second) == Run(Run(s, first), second)
    ensures Run(s, first + (second + [e])) == Run(Run(s, first), second + [e])
  {
    assert first + (second + [e]) == first + second + [e];
    RunSnoc(s, first + second, e);
    RunSnoc(Run(s, first), second, e);
  }

  lemma {:induction false} RunConcat(s: State, first: seq<Event>, second: seq<Event>)
    ensures Run(s, first + second) == Run(Run(s, first), second)
  {
    if second == [] {
      assert first + second == first;
    } else {
      var n := |second| - 1;
      RunConcat(s, first, second[..n]);
      assert second == second[..n] + [second[n]];
      ConcatNext(s, first, second[..n], second[n]);
    }
  }

  lemma StaleRunEnds(first: seq<Event>, second: seq<Event>)
    requires first == STALE_READ && second == STALE_COMMIT
    ensures var s := Run(Initial(OLD_CONFIG, 0), first + second);
      s.rows == [ApprovedRow(SampleRow(100), 2, 0, Approval(0, OLD_CONFIG))] && s.config == CUT_CONFIG && s.now == 0
  {
    StaleReadReached();
    StaleReadCommits(Run(Initial(OLD_CONFIG, 0), first));
    RunConcat(Initial(OLD_CONFIG, 0), first, second);
  }

  /** Such a run exists: the budget is cut to 10 after an approval has read 100, and 100 is
      committed under the new budget. */
  lemma StaleBudgetRun()
    ensures var s := Run(Initial(OLD_CONFIG, 0), STALE_READ + STALE_COMMIT);
      DecidedWithin(s.rows, s.now - 86400, s.now) == 100 && s.config.dailyBudget == 10
  {
    StaleRunEnds(STALE_READ, STALE_COMMIT);
    OneRowWindow(ApprovedRow(SampleRow(100), 2, 0, Approval(0, OLD_CONFIG)), 0 - 86400, 0);
  }

  lemma OneRowWindow(b: Buyout, from: int, to: int)
    ensures DecidedWithin([b], from, to) == if DecidedIn(b, from, to) then b.quoted else 0
  {
    assert [b][..0] == [];
  }
}
