/** Linked tasks and the objective's roll-up marker: saves inside transactions, commits, and the
    check that runs after each commit, in any interleaving. The check itself is three statements
    (is anything active, is anything done, record), and commits may come in between. */
module TaskRollup {
  import opened Options

  datatype Status = Open | Claimed | InProgress | Done | Cancelled

  predicate IsActive(status: Status) {
    status == Open || status == Claimed || status == InProgress
  }

  /** A task linked to a campaign objective. */
  datatype Task = Task(objective: nat, status: Status)

  datatype Activity = TaskEnded(objective: nat, task: nat, status: Status) | TasksDone(objective: nat)

  /** A transaction: its own writes, the status each instance carries from its pre-save read, the
      activity it will add, and the objectives to check once it has committed. */
  datatype Txn = Txn(writes: map<nat, Task>, snapshots: map<nat, Option<Status>>, activity: seq<Activity>, hooks: seq<nat>)

  /** How far a running check has come: its first query found nothing active; its second found
      something done. */
  datatype Checking = NothingActive(objective: nat) | SomethingDone(objective: nat)

  /** Committed tables, open transactions, the after-commit checks still to start, in whatever order
      they get to it, and the checks under way, each in a worker of its own. */
  datatype State = State(tasks: map<nat, Task>, txns: map<nat, Txn>, pending: seq<nat>, checks: map<nat, Checking>, log: seq<Activity>)

  datatype Event =
    | PreSave(txn: nat, task: nat)
    | Save(txn: nat, task: nat, objective: nat, status: Status)
    | Commit(txn: nat)
    | Abort(txn: nat)
    | CheckActive(index: nat, worker: nat)
    | CheckDone(worker: nat)
    | Record(worker: nat)

  const EMPTY_TXN: Txn := Txn(map[], map[], [], [])

  function TxnOf(s: State, x: nat): Txn {
    if x in s.txns then s.txns[x] else EMPTY_TXN
  }

  /** The status a transaction reads: its own write first, else the committed row. */
  function StatusSeen(s: State, x: nat, task: nat): Option<Status> {
    if task in TxnOf(s, x).writes then Some(TxnOf(s, x).writes[task].status)
    else if task in s.tasks then Some(s.tasks[task].status)
    else None
  }

  /** Another open transaction has written the row. */
  predicate RowLocked(s: State, x: nat, task: nat) {
    exists y | y in s.txns :: y != x && task in s.txns[y].writes
  }

  /** A save is a terminal transition unless the row existed and already read the same status. */
  predicate IsTransition(snapshot: Option<Status>, created: bool, status: Status) {
    (status == Done || status == Cancelled) && (created || snapshot != Some(status))
  }

  /** The save handler: what one save adds to its transaction. */
  function Saved(t: Txn, task: nat, created: bool, objective: nat, status: Status): Txn
    requires task in t.snapshots
  {
    var written := t.(writes := t.writes[task := Task(objective, status)]);
    if !IsTransition(t.snapshots[task], created, status) then written else
      var logged := written.(activity := t.activity + [TaskEnded(objective, task, status)]);
      if status == Done then logged.(hooks := t.hooks + [objective]) else logged
  }

  predicate HasActive(tasks: map<nat, Task>, objective: nat) {
    exists t | t in tasks :: tasks[t].objective == objective && IsActive(tasks[t].status)
  }

  predicate HasDone(tasks: map<nat, Task>, objective: nat) {
    exists t | t in tasks :: tasks[t].objective == objective && tasks[t].status == Done
  }

  /** Every task of the objective is done or cancelled. */
  predicate AllEnded(tasks: map<nat, Task>, objective: nat) {
    forall t | t in tasks && tasks[t].objective == objective :: tasks[t].status == Done || tasks[t].status == Cancelled
  }

  /** And at least one of them is done. */
  predicate RollsUp(tasks: map<nat, Task>, objective: nat) {
    AllEnded(tasks, objective) && exists t | t in tasks :: tasks[t] == Task(objective, Done)
  }

  function Step(s: State, e: Event): State {
    match e
    case PreSave(x, task) =>
      var t := TxnOf(s, x);
      s.(txns := s.txns[x := t.(snapshots := t.snapshots[task := StatusSeen(s, x, task)])])
    case Save(x, task, objective, status) =>
      if x !in s.txns || task !in s.txns[x].snapshots || RowLocked(s, x, task) then s
      else s.(txns := s.txns[x := Saved(s.txns[x], task, StatusSeen(s, x, task).None?, objective, status)])
    case Commit(x) =>
      if x !in s.txns then s else
        var t := s.txns[x];
        State(s.tasks + t.writes, s.txns - {x}, s.pending + t.hooks, s.checks, s.log + t.activity)
    case Abort(x) =>
      s.(txns := s.txns - {x})
    case CheckActive(k, w) =>
      if k >= |s.pending| || w in s.checks then s else
        var o := s.pending[k];
        s.(pending := s.pending[..k] + s.pending[k + 1..],
           checks := if HasActive(s.tasks, o) then s.checks else s.checks[w := NothingActive(o)])
    case CheckDone(w) =>
      if w !in s.checks || !s.checks[w].NothingActive? then s else
        var o := s.checks[w].objective;
        s.(checks := if HasDone(s.tasks, o) then s.checks[w := SomethingDone(o)] else s.checks - {w})
    case Record(w) =>
      if w !in s.checks || !s.checks[w].SomethingDone? then s
      else s.(checks := s.checks - {w}, log := s.log + [TasksDone(s.checks[w].objective)])
  }

  ghost predicate IsTrace(states: seq<State>, events: seq<Event>) {
    && |states| == |events| + 1
    && states[0].txns == map[] && states[0].pending == [] && states[0].checks == map[] && states[0].log == []
    && forall n | 0 <= n < |events| :: states[n + 1] == Step(states[n], events[n])
  }

  /** A check goes on after its first query exactly when every task of its objective has ended, and after its
      second exactly when one is done; otherwise it is over and nothing is recorded. */
  lemma CheckGoesOnIff(s: State, e: Event)
    ensures e.CheckActive? && e.index < |s.pending| && e.worker !in s.checks ==>
      var o := s.pending[e.index];
      && |Step(s, e).pending| == |s.pending| - 1 && Step(s, e).log == s.log
      && Step(s, e).checks == if AllEnded(s.tasks, o) then s.checks[e.worker := NothingActive(o)] else s.checks
    ensures e.CheckDone? && e.worker in s.checks && s.checks[e.worker].NothingActive? ==>
      var o := s.checks[e.worker].objective;
      && Step(s, e).log == s.log
      && Step(s, e).checks == if exists t | t in s.tasks :: s.tasks[t] == Task(o, Done) then s.checks[e.worker := SomethingDone(o)]
                              else s.checks - {e.worker}
    ensures e.Record? && e.worker in s.checks && s.checks[e.worker].SomethingDone? ==>
      Step(s, e).log == s.log + [TasksDone(s.checks[e.worker].objective)] && Step(s, e).checks == s.checks - {e.worker}
  {
    if e.CheckActive? && e.index < |s.pending| && e.worker !in s.checks {
      NoneActiveIff(s.tasks, s.pending[e.index]);
    } else if e.CheckDone? && e.worker in s.checks {
      SomeDoneIff(s.tasks, s.checks[e.worker].objective);
    }
  }

  lemma NoneActiveIff(tasks: map<nat, Task>, objective: nat)
    ensures !HasActive(tasks, objective) <==> AllEnded(tasks, objective)
  {
  }

  lemma SomeDoneIff(tasks: map<nat, Task>, objective: nat)
    ensures HasDone(tasks, objective) <==> exists t | t in tasks :: tasks[t] == Task(objective, Done)
  {
    if t :| t in tasks && tasks[t] == Task(objective, Done) {
      assert tasks[t].objective == objective;
    }
    if t :| t in tasks && tasks[t].objective == objective && tasks[t].status == Done {
      assert tasks[t] == Task(objective, Done);
    }
  }

  // --- What a save registers -------------------------------------------------

  /** Saving registers activity exactly for a move into a terminal status, and a roll-up check
      exactly for a move into DONE, as far as the instance's pre-save read can tell. A re-save of a
      task already in that status registers nothing. */
  lemma SaveRegisters(s: State, x: nat, task: nat, objective: nat, status: Status)
    requires x in s.txns && task in s.txns[x].snapshots && forall y | y in s.txns && y != x :: task !in s.txns[y].writes
    ensures x in Step(s, Save(x, task, objective, status)).txns
    ensures var before, after := s.txns[x], Step(s, Save(x, task, objective, status)).txns[x];
      var ends := (status == Done || status == Cancelled)
                  && ((task !in before.writes && task !in s.tasks) || before.snapshots[task] != Some(status));
      && after.writes == before.writes[task := Task(objective, status)]
      && after.activity == (if ends then before.activity + [TaskEnded(objective, task, status)] else before.activity)
      && after.hooks == (if ends && status == Done then before.hooks + [objective] else before.hooks)
  {
  }

  /** A save of a row that another open transaction has written waits, so no two of them have written the same row. */
  lemma {:induction false} OneWriterPerRow(states: seq<State>, events: seq<Event>, n: nat, x: nat, y: nat, task: nat)
    requires IsTrace(states, events) && n < |states| && x in states[n].txns && y in states[n].txns
    requires task in states[n].txns[x].writes && task in states[n].txns[y].writes
    ensures x == y
  {
    if n > 0 && x != y {
      var s, e := states[n - 1], events[n - 1];
      assert states[n] == Step(s, e);
      if x in s.txns && task in s.txns[x].writes && y in s.txns && task in s.txns[y].writes {
        OneWriterPerRow(states, events, n - 1, x, y, task);
      }
    }
  }

  /** What a transaction has written shows when it commits, all at once, and never otherwise; a transaction
      that has ended is gone. */
  lemma OnlyCommitsShow(s: State, e: Event)
    ensures !e.Commit? ==> Step(s, e).tasks == s.tasks
    ensures !e.Commit? && !e.Record? ==> Step(s, e).log == s.log
    ensures e.Commit? && e.txn in s.txns ==> forall t ::
      && (t in Step(s, e).tasks <==> t in s.tasks || t in s.txns[e.txn].writes)
      && (t in Step(s, e).tasks ==> Step(s, e).tasks[t] == if t in s.txns[e.txn].writes then s.txns[e.txn].writes[t] else s.tasks[t])
    ensures e.Commit? && e.txn in s.txns ==> Step(s, e).log == s.log + s.txns[e.txn].activity
    ensures e.Commit? || e.Abort? ==> e.txn !in Step(s, e).txns
  {
  }

  /** With no pre-save read in between, the registered check is still there at commit time. */
  lemma {:induction false} HooksOnlyGrow(states: seq<State>, events: seq<Event>, x: nat, j: nat, c: nat)
    requires IsTrace(states, events) && j <= c <= |events| && x in states[j].txns
    requires forall i | j <= i < c :: events[i] != Commit(x) && events[i] != Abort(x)
    ensures x in states[c].txns && states[j].txns[x].hooks <= states[c].txns[x].hooks
    decreases c - j
  {
    if j < c {
      HooksOnlyGrow(states, events, x, j, c - 1);
      assert states[c] == Step(states[c - 1], events[c - 1]);
    }
  }

  // --- The marker is never lost ----------------------------------------------

  predicate MarkedSince(s: State, objective: nat, mark: nat) {
    exists i :: mark <= i < |s.log| && s.log[i] == TasksDone(objective)
  }

  predicate CheckWaits(s: State, objective: nat) {
    exists i :: 0 <= i < |s.pending| && s.pending[i] == objective
  }

  predicate CheckRuns(s: State, objective: nat) {
    exists w | w in s.checks :: s.checks[w].objective == objective
  }

  /** A check of the objective is still waiting or under way, or the marker has been recorded since. */
  predicate Settling(s: State, objective: nat, mark: nat) {
    CheckWaits(s, objective) || CheckRuns(s, objective) || MarkedSince(s, objective, mark)
  }

  lemma StepKeepsWaiting(s: State, e: Event, objective: nat)
    requires CheckWaits(s, objective) && RollsUp(s.tasks, objective)
    ensures CheckWaits(Step(s, e), objective) || CheckRuns(Step(s, e), objective)
  {
    var after := Step(s, e);
    var i :| 0 <= i < |s.pending| && s.pending[i] == objective;
    if e.CheckActive? && e.index < |s.pending| && e.worker !in s.checks {
      if e.index == i {
        assert after.checks[e.worker].objective == objective;
      } else {
        assert after.pending[if e.index < i then i - 1 else i] == objective;
      }
    } else {
      assert after.pending[i] == objective;
    }
  }

  lemma StepKeepsRunning(s: State, e: Event, objective: nat, mark: nat)
    requires CheckRuns(s, objective) && RollsUp(s.tasks, objective) && mark <= |s.log|
    ensures CheckRuns(Step(s, e), objective) || MarkedSince(Step(s, e), objective, mark)
  {
    var after := Step(s, e);
    var w :| w in s.checks && s.checks[w].objective == objective;
    if e == Record(w) && s.checks[w].SomethingDone? {
      assert after.log[|s.log|] == TasksDone(objective);
    } else {
      assert w in after.checks && after.checks[w].objective == objective;
    }
  }

  lemma StepKeepsSettling(s: State, e: Event, objective: nat, mark: nat)
    requires Settling(s, objective, mark) && RollsUp(s.tasks, objective) && mark <= |s.log|
    ensures Settling(Step(s, e), objective, mark)
  {
    if i :| mark <= i < |s.log| && s.log[i] == TasksDone(objective) {
      assert Step(s, e).log[i] == TasksDone(objective);
    } else if CheckWaits(s, objective) {
      StepKeepsWaiting(s, e, objective);
    } else {
      StepKeepsRunning(s, e, objective, mark);
    }
  }

  lemma {:induction false} StaysSettling(states: seq<State>, events: seq<Event>, objective: nat, mark: nat, c: nat, n: nat)
    requires IsTrace(states, events) && c <= n <= |events| && mark <= |states[c].log|
    requires Settling(states[c], objective, mark)
    requires forall i | c <= i < n :: RollsUp(states[i].tasks, objective)
    ensures Settling(states[n], objective, mark)
    decreases n - c
  {
    if c < n {
      StaysSettling(states, events, objective, mark, c, n - 1);
      LogOnlyGrows(states, events, c, n - 1);
      StepKeepsSettling(states[n - 1], events[n - 1], objective, mark);
      assert states[n] == Step(states[n - 1], events[n - 1]);
    }
  }

  lemma {:induction false} LogOnlyGrows(states: seq<State>, events: seq<Event>, c: nat, n: nat)
    requires IsTrace(states, events) && c <= n <= |events|
    ensures |states[c].log| <= |states[n].log|
    decreases n - c
  {
    if c < n {
      LogOnlyGrows(states, events, c, n - 1);
      assert states[n] == Step(states[n - 1], events[n - 1]);
    }
  }

  /** A DONE save whose pre-save read saw another status (or no row). */
  predicate SavesAsDone(s: State, e: Event, x: nat, objective: nat) {
    && e.Save? && e.txn == x && e.objective == objective && e.status == Done
    && x in s.txns && e.task in s.txns[x].snapshots && !RowLocked(s, x, e.task)
    && ((e.task !in s.txns[x].writes && e.task !in s.tasks) || s.txns[x].snapshots[e.task] != Some(Done))
  }

  /** The roll-up is never lost: once a transaction that moved a task of the objective to DONE
      commits, then for as long as no linked task is active, either a check of the objective is still
      waiting or under way, or the marker has been recorded after that commit. */
  lemma MarkerFollowsLastDone(states: seq<State>, events: seq<Event>, x: nat, objective: nat, j: nat, c: nat, n: nat)
    requires IsTrace(states, events) && j < c < n <= |events|
    requires SavesAsDone(states[j], events[j], x, objective) && events[c] == Commit(x)
    requires forall i | j < i < c :: events[i] != Commit(x) && events[i] != Abort(x)
    requires forall i | c < i < n :: RollsUp(states[i].tasks, objective)
    ensures Settling(states[n], objective, |states[c].log|)
    ensures states[n].pending == [] && states[n].checks == map[] ==> MarkedSince(states[n], objective, |states[c].log|)
  {
    assert states[j + 1] == Step(states[j], events[j]);
    var registered := states[j + 1].txns[x].hooks;
    assert registered[|registered| - 1] == objective;
    HooksOnlyGrow(states, events, x, j + 1, c);
    assert states[c + 1] == Step(states[c], events[c]);
    var hooks := states[c].txns[x].hooks;
    assert hooks[|registered| - 1] == objective;
    assert states[c + 1].pending[|states[c].pending| + |registered| - 1] == objective;
    LogOnlyGrows(states, events, c, c + 1);
    StaysSettling(states, events, objective, |states[c].log|, c + 1, n);
  }

  // --- What a marker says ------------------------------------------------------

  ghost predicate TxnsLogTasksOnly(s: State) {
    forall x | x in s.txns :: forall i | 0 <= i < |s.txns[x].activity| :: s.txns[x].activity[i].TaskEnded?
  }

  lemma {:induction false} TraceLogsTasksOnly(states: seq<State>, events: seq<Event>, n: nat)
    requires IsTrace(states, events) && n <= |events|
    ensures TxnsLogTasksOnly(states[n])
  {
    if n > 0 {
      TraceLogsTasksOnly(states, events, n - 1);
      assert states[n] == Step(states[n - 1], events[n - 1]);
    }
  }

  /** The marker is recorded at step `n`, by worker `w`. */
  predicate Records(s: State, e: Event, w: nat, objective: nat) {
    e == Record(w) && w in s.checks && s.checks[w] == SomethingDone(objective)
  }

  /** Markers come from checks that have made both queries, and from nothing else. */
  lemma MarkerOnlyWhenRolledUp(s: State, e: Event)
    requires TxnsLogTasksOnly(s)
    ensures s.log <= Step(s, e).log
    ensures forall i, o | |s.log| <= i < |Step(s, e).log| && Step(s, e).log[i] == TasksDone(o) :: e.Record? && Records(s, e, e.worker, o)
  {
    match e
    case Commit(x) =>
      if x in s.txns {
        assert forall i | |s.log| <= i < |Step(s, e).log| :: Step(s, e).log[i] == s.txns[x].activity[i - |s.log|];
      }
    case _ =>
  }

  /** Worker `w` began its check of the objective at `a`, when every task of it had ended. */
  ghost predicate FirstRead(states: seq<State>, events: seq<Event>, w: nat, objective: nat, a: nat)
    requires |states| == |events| + 1
  {
    && a < |events| && events[a].CheckActive? && events[a].worker == w && w !in states[a].checks
    && events[a].index < |states[a].pending| && states[a].pending[events[a].index] == objective
    && AllEnded(states[a].tasks, objective)
  }

  /** At `d` it made its second query, when one of them was done. */
  ghost predicate SecondRead(states: seq<State>, events: seq<Event>, w: nat, objective: nat, d: nat)
    requires |states| == |events| + 1
  {
    && d < |events| && events[d] == CheckDone(w) && w in states[d].checks && states[d].checks[w] == NothingActive(objective)
    && exists t | t in states[d].tasks :: states[d].tasks[t] == Task(objective, Done)
  }

  /** Both queries are those of one check, which has been under way ever since. */
  ghost predicate CheckedBy(states: seq<State>, events: seq<Event>, w: nat, objective: nat, a: nat, d: nat, n: nat)
    requires |states| == |events| + 1 && n <= |events|
  {
    && FirstRead(states, events, w, objective, a) && SecondRead(states, events, w, objective, d)
    && forall k | a < k <= n :: w in states[k].checks
  }

  /** A check under way was begun by a query that found nothing active, and has been under way since. */
  lemma {:induction false} CheckHistory(states: seq<State>, events: seq<Event>, w: nat, n: nat) returns (a: nat, d: nat)
    requires IsTrace(states, events) && n <= |events| && w in states[n].checks
    ensures a < n && FirstRead(states, events, w, states[n].checks[w].objective, a)
    ensures forall k | a < k <= n :: w in states[k].checks
    ensures states[n].checks[w].SomethingDone? ==> a < d < n && SecondRead(states, events, w, states[n].checks[w].objective, d)
  {
    var s, e := states[n - 1], events[n - 1];
    assert states[n] == Step(s, e);
    if w in s.checks {
      a, d := CheckHistory(states, events, w, n - 1);
      if e == CheckDone(w) && s.checks[w].NothingActive? {
        d := n - 1;
      }
    } else {
      a, d := n - 1, 0;
    }
  }

  /** Every marker of every run was recorded by a check at whose own first query every task of the objective
      was done or cancelled, and at whose own second query, later, one was done. */
  lemma MarkersAreTrue(states: seq<State>, events: seq<Event>, n: nat, i: nat, objective: nat)
    requires IsTrace(states, events) && n < |events|
    requires |states[n].log| <= i < |states[n + 1].log| && states[n + 1].log[i] == TasksDone(objective)
    ensures events[n].Record? && Records(states[n], events[n], events[n].worker, objective)
    ensures exists a, d :: 0 <= a < d < n && CheckedBy(states, events, events[n].worker, objective, a, d, n)
  {
    TraceLogsTasksOnly(states, events, n);
    MarkerOnlyWhenRolledUp(states[n], events[n]);
    assert states[n + 1] == Step(states[n], events[n]);
    var a, d := CheckHistory(states, events, events[n].worker, n);
    assert CheckedBy(states, events, events[n].worker, objective, a, d, n);
  }

  /** A commit that writes the task. */
  predicate CommitWrites(s: State, e: Event, t: nat) {
    e.Commit? && e.txn in s.txns && t in s.txns[e.txn].writes
  }

  ghost predicate NotWritten(states: seq<State>, events: seq<Event>, t: nat, from: nat, n: nat)
    requires |states| == |events| + 1 && n <= |events|
  {
    forall k | from <= k < n :: !CommitWrites(states[k], events[k], t)
  }

  /** A task is what its last committed write left. */
  lemma {:induction false} TaskKept(states: seq<State>, events: seq<Event>, t: nat, from: nat, n: nat)
    requires IsTrace(states, events) && from <= n <= |events| && NotWritten(states, events, t, from, n)
    ensures t in states[n].tasks <==> t in states[from].tasks
    ensures t in states[n].tasks ==> states[n].tasks[t] == states[from].tasks[t]
    decreases n - from
  {
    if from < n {
      TaskKept(states, events, t, from, n - 1);
      assert states[n] == Step(states[n - 1], events[n - 1]);
      assert !CommitWrites(states[n - 1], events[n - 1], t);
    }
  }

  lemma {:induction false} LastWrite(states: seq<State>, events: seq<Event>, t: nat, from: nat, n: nat) returns (c: nat)
    requires IsTrace(states, events) && from <= n <= |events| && !NotWritten(states, events, t, from, n)
    ensures from <= c < n && CommitWrites(states[c], events[c], t) && NotWritten(states, events, t, c + 1, n)
    decreases n - from
  {
    if CommitWrites(states[n - 1], events[n - 1], t) {
      c := n - 1;
    } else {
      c := LastWrite(states, events, t, from, n - 1);
    }
  }

  /** Commit `c` leaves task `t` of the objective active, and nothing up to `n` commits it again. */
  ghost predicate LeavesActive(states: seq<State>, events: seq<Event>, objective: nat, c: nat, t: nat, n: nat)
    requires |states| == |events| + 1 && n <= |events|
  {
    && c < n && CommitWrites(states[c], events[c], t) && NotWritten(states, events, t, c + 1, n)
    && var written := states[c].txns[events[c].txn].writes[t]; written.objective == objective && written.status in {Open, Claimed, InProgress}
  }

  /** A marker is recorded over an active task exactly when, since its check's first query, some commit
      opened, reopened or linked a task of the objective that no later commit has touched. */
  lemma MarkerOverActiveIff(states: seq<State>, events: seq<Event>, w: nat, objective: nat, a: nat, n: nat)
    requires IsTrace(states, events) && a < n < |events|
    requires FirstRead(states, events, w, objective, a) && Records(states[n], events[n], w, objective)
    ensures !AllEnded(states[n].tasks, objective) <==> exists c, t :: a <= c && LeavesActive(states, events, objective, c, t, n)
  {
    if !AllEnded(states[n].tasks, objective) {
      var t :| t in states[n].tasks && states[n].tasks[t].objective == objective && states[n].tasks[t].status in {Open, Claimed, InProgress};
      if NotWritten(states, events, t, a, n) {
        TaskKept(states, events, t, a, n);
        assert false;
      }
      var c := LastWrite(states, events, t, a, n);
      WrittenStays(states, events, c, t, n);
      assert LeavesActive(states, events, objective, c, t, n);
    }
    if c, t :| a <= c && LeavesActive(states, events, objective, c, t, n) {
      WrittenStays(states, events, c, t, n);
    }
  }

  lemma WrittenStays(states: seq<State>, events: seq<Event>, c: nat, t: nat, n: nat)
    requires IsTrace(states, events) && c < n <= |events|
    requires CommitWrites(states[c], events[c], t) && NotWritten(states, events, t, c + 1, n)
    ensures t in states[n].tasks && states[n].tasks[t] == states[c].txns[events[c].txn].writes[t]
  {
    assert states[c + 1] == Step(states[c], events[c]);
    TaskKept(states, events, t, c + 1, n);
  }

  const FINISHING: Txn := Txn(map[7 := Task(1, Done)], map[7 := Some(Open)], [TaskEnded(1, 7, Done)], [1])
  const ADDING: Txn := Txn(map[8 := Task(1, Open)], map[8 := None], [], [])

  const RACE_EVENTS: seq<Event> :=
    [PreSave(2, 7), Save(2, 7, 1, Done), Commit(2), CheckActive(0, 5),
     PreSave(3, 8), Save(3, 8, 1, Open), Commit(3), CheckDone(5), Record(5)]

  const RACE_STATES: seq<State> := [
    State(map[7 := Task(1, Open)], map[], [], map[], []),
    State(map[7 := Task(1, Open)], map[2 := Txn(map[], map[7 := Some(Open)], [], [])], [], map[], []),
    State(map[7 := Task(1, Open)], map[2 := FINISHING], [], map[], []),
    State(map[7 := Task(1, Done)], map[], [1], map[], [TaskEnded(1, 7, Done)]),
    State(map[7 := Task(1, Done)], map[], [], map[5 := NothingActive(1)], [TaskEnded(1, 7, Done)]),
    State(map[7 := Task(1, Done)], map[3 := Txn(map[], map[8 := None], [], [])], [], map[5 := NothingActive(1)], [TaskEnded(1, 7, Done)]),
    State(map[7 := Task(1, Done)], map[3 := ADDING], [], map[5 := NothingActive(1)], [TaskEnded(1, 7, Done)]),
    State(map[7 := Task(1, Done), 8 := Task(1, Open)], map[], [], map[5 := NothingActive(1)], [TaskEnded(1, 7, Done)]),
    State(map[7 := Task(1, Done), 8 := Task(1, Open)], map[], [], map[5 := SomethingDone(1)], [TaskEnded(1, 7, Done)]),
    State(map[7 := Task(1, Done), 8 := Task(1, Open)], map[], [], map[], [TaskEnded(1, 7, Done), TasksDone(1)])]

  /** Such a run: the last task is done, its check finds nothing active, a new task is added and
      committed, and the check records that all tasks are done. */
  lemma MarkerOverActiveRun()
    ensures IsTrace(RACE_STATES, RACE_EVENTS)
    ensures FirstRead(RACE_STATES, RACE_EVENTS, 5, 1, 3) && Records(RACE_STATES[8], RACE_EVENTS[8], 5, 1)
    ensures RACE_STATES[8].tasks[8] == Task(1, Open) && RACE_STATES[9].log[1] == TasksDone(1)
  {
    forall n | 0 <= n < |RACE_EVENTS|
      ensures RACE_STATES[n + 1] == Step(RACE_STATES[n], RACE_EVENTS[n])
    {
      RaceStep(n);
    }
    assert RACE_STATES[8].tasks[8] == Task(1, Open);
  }

  lemma RaceStep(n: nat)
    requires n < 9
    ensures RACE_STATES[n + 1] == Step(RACE_STATES[n], RACE_EVENTS[n])
  {
    if n < 2 {
      RaceSaves();
    } else if n < 4 {
      RaceChecks();
    } else if n < 6 {
      RaceAdds();
    } else if n < 7 {
      RaceCommits();
    } else {
      RaceRecords();
    }
  }

  lemma RaceSaves()
    ensures RACE_STATES[1] == Step(RACE_STATES[0], RACE_EVENTS[0])
    ensures RACE_STATES[2] == Step(RACE_STATES[1], RACE_EVENTS[1])
  {
    var before := RACE_STATES[1];
    assert !RowLocked(before, 2, 7) && StatusSeen(before, 2, 7) == Some(Open);
    assert Saved(before.txns[2], 7, false, 1, Done) == FINISHING;
    assert before.txns[2 := FINISHING] == map[2 := FINISHING];
  }

  lemma RaceChecks()
    ensures RACE_STATES[3] == Step(RACE_STATES[2], RACE_EVENTS[2])
    ensures RACE_STATES[4] == Step(RACE_STATES[3], RACE_EVENTS[3])
  {
    assert map[7 := Task(1, Open)] + map[7 := Task(1, Done)] == map[7 := Task(1, Done)];
    assert map[2 := FINISHING] - {2} == map[];
    assert !HasActive(RACE_STATES[3].tasks, 1);
  }

  lemma RaceAdds()
    ensures RACE_STATES[5] == Step(RACE_STATES[4], RACE_EVENTS[4])
    ensures RACE_STATES[6] == Step(RACE_STATES[5], RACE_EVENTS[5])
  {
    assert !RowLocked(RACE_STATES[5], 3, 8);
  }

  lemma RaceCommits()
    ensures RACE_STATES[7] == Step(RACE_STATES[6], RACE_EVENTS[6])
  {
    assert map[7 := Task(1, Done)] + map[8 := Task(1, Open)] == map[7 := Task(1, Done), 8 := Task(1, Open)];
    assert map[3 := ADDING] - {3} == map[];
  }

  lemma RaceRecords()
    ensures RACE_STATES[8] == Step(RACE_STATES[7], RACE_EVENTS[7])
    ensures RACE_STATES[9] == Step(RACE_STATES[8], RACE_EVENTS[8])
  {
    assert RACE_STATES[7].tasks[7] == Task(1, Done);
  }

  // --- The one way a marker is missed ----------------------------------------

  /** Nothing between the pre-save read at `b` and step `j` touches what that read saw. */
  ghost predicate Undisturbed(states: seq<State>, events: seq<Event>, x: nat, task: nat, b: nat, j: nat)
    requires IsTrace(states, events) && j <= |events|
  {
    forall i | b < i < j ::
      && events[i] != PreSave(x, task) && events[i] != Commit(x) && events[i] != Abort(x)
      && !(events[i].Save? && events[i].txn == x && events[i].task == task)
      && !(events[i].Commit? && task in TxnOf(states[i], events[i].txn).writes)
  }

  /** What transaction `x` finds under the task: its own write, failing that the committed row, failing that
      nothing. */
  predicate Sees(s: State, x: nat, task: nat, read: Option<Status>) {
    if x in s.txns && task in s.txns[x].writes then read == Some(s.txns[x].writes[task].status)
    else if task in s.tasks then read == Some(s.tasks[task].status)
    else read == None
  }

  lemma StepKeepsRead(s: State, e: Event, x: nat, task: nat)
    requires x in s.txns && task in s.txns[x].snapshots && s.txns[x].snapshots[task] == StatusSeen(s, x, task)
    requires e != PreSave(x, task) && e != Commit(x) && e != Abort(x) && !(e.Save? && e.txn == x && e.task == task)
    requires !(e.Commit? && task in TxnOf(s, e.txn).writes)
    ensures x in Step(s, e).txns && task in Step(s, e).txns[x].snapshots
    ensures Step(s, e).txns[x].snapshots[task] == StatusSeen(Step(s, e), x, task)
  {
  }

  lemma {:induction false} ReadKept(states: seq<State>, events: seq<Event>, x: nat, task: nat, b: nat, j: nat)
    requires IsTrace(states, events) && b < j <= |events| && events[b] == PreSave(x, task)
    requires Undisturbed(states, events, x, task, b, j)
    ensures x in states[j].txns && task in states[j].txns[x].snapshots
    ensures states[j].txns[x].snapshots[task] == StatusSeen(states[j], x, task)
    decreases j - b
  {
    assert states[j] == Step(states[j - 1], events[j - 1]);
    if b < j - 1 {
      ReadKept(states, events, x, task, b, j - 1);
      StepKeepsRead(states[j - 1], events[j - 1], x, task);
    }
  }

  /** Undisturbed, the pre-save read is still the truth when the task is saved. */
  lemma ReadStaysTrue(states: seq<State>, events: seq<Event>, x: nat, task: nat, b: nat, j: nat)
    requires IsTrace(states, events) && b < j <= |events| && events[b] == PreSave(x, task)
    requires Undisturbed(states, events, x, task, b, j)
    ensures x in states[j].txns && task in states[j].txns[x].snapshots
    ensures Sees(states[j], x, task, states[j].txns[x].snapshots[task])
  {
    ReadKept(states, events, x, task, b, j);
  }

  /** A DONE save registers the roll-up check unless its pre-save read already saw DONE; while
      nobody else commits the task in between, that is exactly when the task really was not DONE. */
  lemma CheckRegisteredIff(states: seq<State>, events: seq<Event>, x: nat, task: nat, objective: nat, b: nat, j: nat)
    requires IsTrace(states, events) && b < j < |events|
    requires events[b] == PreSave(x, task) && events[j] == Save(x, task, objective, Done) && !RowLocked(states[j], x, task)
    requires Undisturbed(states, events, x, task, b, j)
    ensures x in states[j].txns && x in states[j + 1].txns
    ensures |states[j + 1].txns[x].hooks| == |states[j].txns[x].hooks| + 1 <==> !Sees(states[j], x, task, Some(Done))
  {
    ReadStaysTrue(states, events, x, task, b, j);
    assert states[j + 1] == Step(states[j], events[j]);
    SaveRegisters(states[j], x, task, objective, Done);
  }

  /** Saving a task into a terminal status, undisturbed since its read: an activity is added exactly when
      the task was not in that status already, and a roll-up check exactly when it is done besides. So a
      re-save of an already terminal task records nothing. */
  lemma OnlyTransitionsRecord(states: seq<State>, events: seq<Event>, x: nat, task: nat, objective: nat, status: Status, b: nat, j: nat)
    requires IsTrace(states, events) && b < j < |events| && (status == Done || status == Cancelled)
    requires events[b] == PreSave(x, task) && events[j] == Save(x, task, objective, status) && !RowLocked(states[j], x, task)
    requires Undisturbed(states, events, x, task, b, j)
    ensures x in states[j].txns && x in states[j + 1].txns
    ensures var before, after := states[j].txns[x], states[j + 1].txns[x];
      && (after.activity != before.activity <==> !Sees(states[j], x, task, Some(status)))
      && (after.activity != before.activity ==> after.activity == before.activity + [TaskEnded(objective, task, status)])
      && (after.hooks != before.hooks <==> status == Done && !Sees(states[j], x, task, Some(Done)))
  {
    ReadStaysTrue(states, events, x, task, b, j);
    assert states[j + 1] == Step(states[j], events[j]);
    SaveRegisters(states[j], x, task, objective, status);
    var before := states[j].txns[x];
    assert |before.activity + [TaskEnded(objective, task, status)]| == |before.activity| + 1;
    assert |before.hooks + [objective]| == |before.hooks| + 1;
  }

  const SECOND: Txn := Txn(map[], map[7 := Some(Done)], [], [])

  /** A re-save that read DONE, overtaken by another transaction reopening the task, closes it again
      without a check: every linked task is done, nothing is waiting, and no marker follows. */
  lemma StaleReadMissesMarker()
    ensures var s0 := State(map[7 := Task(1, Done)], map[], [], map[], []);
      var s1 := Step(s0, PreSave(2, 7));
      var s2 := Step(Step(Step(s1, PreSave(3, 7)), Save(3, 7, 1, Open)), Commit(3));
      var s3 := Step(Step(s2, Save(2, 7, 1, Done)), Commit(2));
      && !AllEnded(s2.tasks, 1)
      && RollsUp(s3.tasks, 1) && s3.txns == map[] && s3.pending == [] && s3.checks == map[] && s3.log == []
  {
    var s0 := State(map[7 := Task(1, Done)], map[], [], map[], []);
    var s1 := Step(s0, PreSave(2, 7));
    assert s1 == s0.(txns := map[2 := SECOND]);
    ReopenBetween(s1);
    var s2 := Step(Step(Step(s1, PreSave(3, 7)), Save(3, 7, 1, Open)), Commit(3));
    assert s2.tasks[7].objective == 1;
    var s := Step(s2, Save(2, 7, 1, Done));
    assert s.txns == map[2 := SECOND.(writes := map[7 := Task(1, Done)])];
    var s3 := Step(s, Commit(2));
    assert s3.tasks == map[7 := Task(1, Done)];
  }

  lemma ReopenBetween(s: State)
    requires s == State(map[7 := Task(1, Done)], map[2 := SECOND], [], map[], [])
    ensures Step(Step(Step(s, PreSave(3, 7)), Save(3, 7, 1, Open)), Commit(3)) == State(map[7 := Task(1, Open)], map[2 := SECOND], [], map[], [])
  {
    var a := Step(s, PreSave(3, 7));
    assert a == s.(txns := map[2 := SECOND, 3 := Txn(map[], map[7 := Some(Done)], [], [])]);
    assert !RowLocked(a, 3, 7);
    var b := Step(a, Save(3, 7, 1, Open));
    assert b == s.(txns := map[2 := SECOND, 3 := Txn(map[7 := Task(1, Open)], map[7 := Some(Done)], [], [])]);
    assert b.txns - {3} == map[2 := SECOND];
    assert b.tasks + map[7 := Task(1, Open)] == map[7 := Task(1, Open)];
  }
}
