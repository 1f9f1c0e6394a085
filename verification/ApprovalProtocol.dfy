/** Every interleaving of requests, approvals, rejections, cancellations, settlements, wallet
    syncs, configuration edits and clock ticks. An approval is not one step: it reads the
    configuration, takes the configuration lock, takes the row lock, checks, stamps and commits,
    and anything may happen in between that the locks do not forbid. */
module ApprovalProtocol {
  import opened Options
  import opened Guaranteed

  /** How far one approving transaction has come. */
  datatype Txn =
    | ConfigRead(officer: nat, id: nat, config: Config)
    | ConfigLocked(officer: nat, id: nat, config: Config)
    | RowLocked(officer: nat, id: nat, config: Config)
    | Cleared(officer: nat, id: nat, config: Config, checkedAt: int)
    | Stamped(officer: nat, id: nat, config: Config, checkedAt: int, decidedAt: int)

  datatype State = State(
    now: int,
    config: Config,
    rows: seq<Buyout>,
    journal: seq<Entry>,
    txns: map<nat, Txn>,
    configLock: Option<nat>,
    approvals: nat)

  datatype Event =
    | ReadConfig(worker: nat, officer: nat, id: nat)
    | LockConfig(worker: nat)
    | LockRow(worker: nat)
    | Check(worker: nat)
    | Stamp(worker: nat)
    | Commit(worker: nat)
    | Abort(worker: nat)
    | Request(user: User, character: Option<int>, quoted: int)
    | Reject(officer: nat, id: nat)
    | Cancel(seller: nat, id: nat)
    | SettleManually(officer: nat, id: nat, ref: string)
    | ReconcileRun(limit: nat)
    | JournalSync(entry: Entry)
    | EditConfig(config: Config)
    | Tick(seconds: nat)

  function Initial(config: Config, now: int): State {
    State(now, config, [], [], map[], None, 0)
  }

  predicate HoldsRow(t: Txn, id: nat) {
    (t.RowLocked? || t.Cleared? || t.Stamped?) && t.id == id
  }

  predicate RowIsLocked(s: State, id: nat) {
    s.configLock.Some? && s.configLock.value in s.txns && HoldsRow(s.txns[s.configLock.value], id)
  }

  /** End of a transaction: its locks go with it. */
  function Finish(s: State, w: nat): State {
    s.(txns := s.txns - {w}, configLock := if s.configLock == Some(w) then None else s.configLock)
  }

  function WithRow(s: State, id: nat, b: Buyout): State
    requires id < |s.rows|
  {
    s.(rows := s.rows[id := b])
  }

  /** One step. A step whose guard fails, or that a lock holds back, changes nothing. */
  function Step(s: State, e: Event): State {
    match e
    case ReadConfig(w, officer, id) =>
      if w in s.txns then s else s.(txns := s.txns[w := ConfigRead(officer, id, s.config)])
    case LockConfig(w) =>
      if w !in s.txns || !s.txns[w].ConfigRead? || s.configLock.Some? then s else
        var t := s.txns[w];
        s.(txns := s.txns[w := ConfigLocked(t.officer, t.id, t.config)], configLock := Some(w))
    case LockRow(w) =>
      if w !in s.txns || !s.txns[w].ConfigLocked? then s else
        var t := s.txns[w];
        if t.id >= |s.rows| then Finish(s, w) else s.(txns := s.txns[w := RowLocked(t.officer, t.id, t.config)])
    case Check(w) =>
      if w !in s.txns || !s.txns[w].RowLocked? || s.txns[w].id >= |s.rows| then s else
        var t := s.txns[w];
        if ApprovalBlocker(s.rows, s.rows[t.id], t.officer, t.config, s.now).Some? then Finish(s, w)
        else s.(txns := s.txns[w := Cleared(t.officer, t.id, t.config, s.now)])
    case Stamp(w) =>
      if w !in s.txns || !s.txns[w].Cleared? then s else
        var t := s.txns[w];
        s.(txns := s.txns[w := Stamped(t.officer, t.id, t.config, t.checkedAt, s.now)])
    case Commit(w) =>
      if w !in s.txns || !s.txns[w].Stamped? || s.txns[w].id >= |s.rows| then s else
        var t := s.txns[w];
        var row := ApprovedRow(s.rows[t.id], t.officer, t.decidedAt, Approval(s.approvals, t.config));
        Finish(WithRow(s, t.id, row), w).(approvals := s.approvals + 1)
    case Abort(w) =>
      Finish(s, w)
    case Request(user, character, quoted) =>
      var row := RequestedRow(user, character, quoted, s.config);
      if row.None? then s else s.(rows := s.rows + [row.value])
    case Reject(officer, id) =>
      if id >= |s.rows| || RowIsLocked(s, id) || s.rows[id].status != Requested then s
      else WithRow(s, id, RejectedRow(s.rows[id], officer, s.now))
    case Cancel(user, id) =>
      if id >= |s.rows| || RowIsLocked(s, id) || s.rows[id].status != Requested || s.rows[id].seller != Some(user) then s
      else WithRow(s, id, s.rows[id].(status := Cancelled))
    case SettleManually(officer, id, ref) =>
      if s.config.requireEsiReconcile || id >= |s.rows| || RowIsLocked(s, id) || s.rows[id].status != Approved
         || s.rows[id].seller == Some(officer) then s
      else WithRow(s, id, SettledRow(s.rows[id], Manual, ref, s.now))
    case ReconcileRun(limit) =>
      s.(rows := Reconcile(s.rows, s.journal, s.config, s.now, limit))
    case JournalSync(entry) =>
      if exists i :: 0 <= i < |s.journal| && s.journal[i].id == entry.id then s
      else s.(journal := s.journal + [entry])
    case EditConfig(config) =>
      s.(config := config)
    case Tick(seconds) =>
      s.(now := s.now + seconds)
  }

  function Run(s: State, events: seq<Event>): State {
    if events == [] then s else Step(Run(s, events[..|events| - 1]), events[|events| - 1])
  }

  lemma RunSnoc(s: State, events: seq<Event>, e: Event)
    ensures Run(s, events + [e]) == Step(Run(s, events), e)
  {
    assert (events + [e])[..|events|] == events;
  }
}
