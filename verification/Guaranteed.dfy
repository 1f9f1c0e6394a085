/** Corp-funded guaranteed buyback: the rows, the gates and the wallet match.

    ISK amounts are whole hundredths and times are whole seconds. A buyout's id is its
    position in the table. */
module Guaranteed {
  import opened Options
  import opened Sums
  import opened Text

  const DAY: int := 24 * 60 * 60

  datatype Audience = Public | Alliance | Corp | Disabled

  datatype Config = Config(
    enabled: bool,
    audience: Audience,
    perLotCap: int,
    dailyBudget: int,
    requireEsiReconcile: bool)

  datatype User = User(id: nat, authenticated: bool, superuser: bool, member: bool, alliancePilot: bool)

  datatype Status = Requested | Approved | Settled | Rejected | Cancelled

  datatype SettlementKind = Unsettled | Esi | Manual

  /** History of an approval that the table itself does not keep: its place in the commit order
      and the configuration the approving transaction read. */
  datatype Approval = Approval(order: nat, config: Config)

  datatype Buyout = Buyout(
    seller: Option<nat>,
    sellerCharacter: Option<int>,
    quoted: int,
    status: Status,
    decidedBy: Option<nat>,
    decidedAt: Option<int>,
    settledAt: Option<int>,
    kind: SettlementKind,
    ref: string,
    approval: Option<Approval>)

  predicate IsLive(config: Config) {
    config.enabled && config.audience != Disabled
  }

  predicate AudienceAllows(user: User, audience: Audience) {
    match audience
    case Public => true
    case Disabled => false
    case Corp => user.authenticated && (user.superuser || user.member)
    case Alliance => user.authenticated && (user.superuser || user.member || user.alliancePilot)
  }

  predicate CanRequest(user: User, config: Config) {
    IsLive(config) && AudienceAllows(user, config.audience)
  }

  predicate IsCommitted(b: Buyout) {
    b.status == Approved || b.status == Settled
  }

  predicate CommittedSince(b: Buyout, since: int) {
    IsCommitted(b) && b.decidedAt.Some? && b.decidedAt.value >= since
  }

  /** ISK newly committed since `since`: the rolling budget's denominator. */
  function CommittedTotal(rows: seq<Buyout>, since: int): int {
    if rows == [] then 0 else
      var b := rows[|rows| - 1];
      CommittedTotal(rows[..|rows| - 1], since) + if CommittedSince(b, since) then b.quoted else 0
  }

  ghost function QuoteIn(rows: seq<Buyout>): nat -> int {
    (i: nat) => if i < |rows| then rows[i].quoted else 0
  }

  /** The rows a rolling budget counts: approved or settled, and decided at `since` or later. */
  ghost function DecidedSince(rows: seq<Buyout>, since: int): set<nat> {
    set i: nat | i < |rows| && rows[i].status in {Approved, Settled} && rows[i].decidedAt.Some? && rows[i].decidedAt.value >= since
  }

  ghost function FirstDecided(rows: seq<Buyout>, since: int, n: nat): set<nat> {
    set i | i in DecidedSince(rows, since) && i < n
  }

  lemma DecidedNext(rows: seq<Buyout>, since: int, n: nat)
    requires n < |rows|
    ensures CommittedSince(rows[n], since) ==> FirstDecided(rows, since, n + 1) == FirstDecided(rows, since, n) + {n}
    ensures !CommittedSince(rows[n], since) ==> FirstDecided(rows, since, n + 1) == FirstDecided(rows, since, n)
  {
  }

  /** Each of the first `n` rows that counts is added once, whatever its place. */
  lemma {:induction false} CommittedTotalUpTo(rows: seq<Buyout>, since: int, n: nat)
    requires n <= |rows|
    ensures CommittedTotal(rows[..n], since) == SumSet(FirstDecided(rows, since, n), QuoteIn(rows))
  {
    if n == 0 {
      assert FirstDecided(rows, since, 0) == {};
    } else {
      CommittedTotalUpTo(rows, since, n - 1);
      assert rows[..n][..n - 1] == rows[..n - 1];
      DecidedNext(rows, since, n - 1);
      if CommittedSince(rows[n - 1], since) {
        assert QuoteIn(rows)(n - 1) == rows[n - 1].quoted;
        SumSetAdd<nat>(FirstDecided(rows, since, n - 1), QuoteIn(rows), n - 1);
      }
    }
  }

  /** The rolling total is the sum of the quotes of the rows approved or settled that were decided in time. */
  lemma CommittedTotalIs(rows: seq<Buyout>, since: int)
    ensures CommittedTotal(rows, since) == SumSet(DecidedSince(rows, since), QuoteIn(rows))
  {
    CommittedTotalUpTo(rows, since, |rows|);
    assert rows[..|rows|] == rows;
    assert FirstDecided(rows, since, |rows|) == DecidedSince(rows, since);
  }

  datatype Blocker = TurnedOff | NotPending | OwnRequest | AboveCap | OverBudget

  /** Why `officer` cannot approve `b` at `now`, or None. The first failing gate is reported. */
  function ApprovalBlocker(rows: seq<Buyout>, b: Buyout, officer: nat, config: Config, now: int): Option<Blocker> {
    if !IsLive(config) then Some(TurnedOff)
    else if b.status != Requested then Some(NotPending)
    else if b.seller == Some(officer) then Some(OwnRequest)
    else if b.quoted > config.perLotCap then Some(AboveCap)
    else if CommittedTotal(rows, now - DAY) + b.quoted > config.dailyBudget then Some(OverBudget)
    else None
  }

  /** Nothing blocks an approval exactly when the feature is on and open to somebody, the request is pending
      and another's, and the quote fits the cap and, with what was decided in the last 24 hours, the budget;
      a gate is named only after every gate before it is passed. */
  lemma BlockedIff(rows: seq<Buyout>, b: Buyout, officer: nat, config: Config, now: int)
    ensures var blocker, spent := ApprovalBlocker(rows, b, officer, config, now), SumSet(DecidedSince(rows, now - 86400), QuoteIn(rows));
      && (blocker == None <==>
            && config.enabled && config.audience != Disabled && b.status == Requested && b.seller != Some(officer)
            && b.quoted <= config.perLotCap && spent + b.quoted <= config.dailyBudget)
      && (blocker == Some(TurnedOff) <==> !config.enabled || config.audience == Disabled)
      && (blocker == Some(NotPending) ==> b.status != Requested)
      && (blocker == Some(OwnRequest) ==> b.status == Requested && b.seller == Some(officer))
      && (blocker == Some(AboveCap) ==> b.status == Requested && b.seller != Some(officer) && b.quoted > config.perLotCap)
      && (blocker == Some(OverBudget) ==> b.seller != Some(officer) && b.quoted <= config.perLotCap)
  {
    CommittedTotalIs(rows, now - 86400);
  }

  /** The row a request creates, when the gates let it through. */
  function RequestedRow(user: User, character: Option<int>, quoted: int, config: Config): Option<Buyout> {
    if !CanRequest(user, config) then None
    else if quoted <= 0 || quoted > config.perLotCap then None
    else Some(Buyout(Some(user.id), character, quoted, Requested, None, None, None, Unsettled, "", None))
  }

  function ApprovedRow(b: Buyout, officer: nat, at: int, approval: Approval): Buyout {
    b.(status := Approved, decidedBy := Some(officer), decidedAt := Some(at), approval := Some(approval))
  }

  function RejectedRow(b: Buyout, officer: nat, at: int): Buyout {
    b.(status := Rejected, decidedBy := Some(officer), decidedAt := Some(at))
  }

  function SettledRow(b: Buyout, kind: SettlementKind, ref: string, at: int): Buyout {
    b.(status := Settled, settledAt := Some(at), kind := kind, ref := ref)
  }

  /** One corp wallet journal line; a negative amount is money leaving the corp. */
  datatype Entry = Entry(
    id: int,
    refType: string,
    secondParty: Option<int>,
    date: int,
    amount: int,
    reason: string)

  const DONATION_REF_TYPE := "player_donation"

  predicate HasCharacter(b: Buyout) {
    b.sellerCharacter.Some? && b.sellerCharacter.value != 0
  }

  /** Entry `e` is a donation to the seller of buyout `id`, on or after its approval, for at
      least the full quote, carrying its token. */
  predicate Pays(e: Entry, id: nat, b: Buyout) {
    && e.refType == DONATION_REF_TYPE
    && b.sellerCharacter.Some? && e.secondParty == b.sellerCharacter
    && b.decidedAt.Some? && e.date >= b.decidedAt.value
    && e.amount <= -b.quoted
    && ContainsIgnoringCase(e.reason, PaymentToken(id))
  }

  /** The oldest entry that pays for the buyout; among equally old ones the first listed. */
  function EarliestPayment(journal: seq<Entry>, id: nat, b: Buyout): (r: Option<Entry>)
    ensures r.Some? ==> r.value in journal && Pays(r.value, id, b)
    ensures forall e | e in journal && Pays(e, id, b) :: r.Some? && r.value.date <= e.date
  {
    if journal == [] then None else
      var e := journal[|journal| - 1];
      var r := EarliestPayment(journal[..|journal| - 1], id, b);
      assert forall x | x in journal :: x == e || x in journal[..|journal| - 1];
      if Pays(e, id, b) && (r.None? || e.date < r.value.date) then Some(e) else r
  }

  /** Ordering by decision time; rows never decided come last. */
  predicate DecidedNoLater(a: Buyout, b: Buyout) {
    b.decidedAt.None? || (a.decidedAt.Some? && a.decidedAt.value <= b.decidedAt.value)
  }

  predicate Within(queue: seq<nat>, n: nat) {
    forall k | 0 <= k < |queue| :: queue[k] < n
  }

  predicate OldestFirst(rows: seq<Buyout>, queue: seq<nat>)
    requires Within(queue, |rows|)
  {
    forall k, l | 0 <= k < l < |queue| :: DecidedNoLater(rows[queue[k]], rows[queue[l]])
  }

  predicate Distinct(queue: seq<nat>) {
    forall k, l | 0 <= k < l < |queue| :: queue[k] != queue[l]
  }

  function InsertByDecision(rows: seq<Buyout>, queue: seq<nat>, id: nat): (q: seq<nat>)
    requires id < |rows| && Within(queue, |rows|) && id !in queue
    requires OldestFirst(rows, queue) && Distinct(queue)
    ensures Within(q, |rows|) && OldestFirst(rows, q) && Distinct(q)
    ensures forall i :: i in q <==> i in queue || i == id
  {
    var n := |queue|;
    if n != 0 && !DecidedNoLater(rows[queue[n - 1]], rows[id])
    then
      var init := InsertByDecision(rows, queue[..n - 1], id);
      InsertedBelow(rows, queue, id, init);
      init + [queue[n - 1]]
    else
      queue + [id]
  }

  /** The last of the queue stays last when `id` was decided before it. */
  lemma InsertedBelow(rows: seq<Buyout>, queue: seq<nat>, id: nat, init: seq<nat>)
    requires |queue| > 0 && id < |rows| && Within(queue, |rows|) && id !in queue
    requires OldestFirst(rows, queue) && Distinct(queue)
    requires !DecidedNoLater(rows[queue[|queue| - 1]], rows[id])
    requires Within(init, |rows|) && OldestFirst(rows, init) && Distinct(init)
    requires forall i :: i in init <==> i in queue[..|queue| - 1] || i == id
    ensures var q := init + [queue[|queue| - 1]];
      Within(q, |rows|) && OldestFirst(rows, q) && Distinct(q) && forall i :: i in q <==> i in queue || i == id
  {
    var last := queue[|queue| - 1];
    assert queue == queue[..|queue| - 1] + [last];
    forall k | 0 <= k < |init|
      ensures init[k] != last && DecidedNoLater(rows[init[k]], rows[last])
    {
      assert init[k] in init;
    }
  }

  /** The approved buyouts among the first `n` rows, oldest decision first. */
  function ApprovedQueue(rows: seq<Buyout>, n: nat): (q: seq<nat>)
    requires n <= |rows|
    ensures Within(q, |rows|) && OldestFirst(rows, q) && Distinct(q)
    ensures forall i :: i in q <==> 0 <= i < n && rows[i].status == Approved
    ensures forall k, l | 0 <= k < l < |q| :: rows[q[l]].decidedAt.Some? ==>
      rows[q[k]].decidedAt.Some? && rows[q[k]].decidedAt.value <= rows[q[l]].decidedAt.value
  {
    if n == 0 then [] else
      var q := ApprovedQueue(rows, n - 1);
      if rows[n - 1].status != Approved then q else InsertByDecision(rows, q, n - 1)
  }

  /** References already spent by settled buyouts. */
  function UsedRefs(rows: seq<Buyout>): set<string> {
    set b | b in rows && b.status == Settled && b.ref != "" :: b.ref
  }

  /** Whether buyout `id` settles now, and through which entry. */
  function SettlingEntry(rows: seq<Buyout>, journal: seq<Entry>, id: nat, used: set<string>): (r: Option<Entry>)
    requires id < |rows|
  {
    var b := rows[id];
    if !HasCharacter(b) || b.decidedAt.None? then None else
      var entry := EarliestPayment(journal, id, b);
      if entry.None? || IntText(entry.value.id) in used then None else entry
  }

  /** The table after the queue has been worked off, front first. */
  function Sweep(rows: seq<Buyout>, journal: seq<Entry>, now: int, queue: seq<nat>, used: set<string>): (r: seq<Buyout>)
    requires Within(queue, |rows|)
    ensures |r| == |rows|
    decreases |queue|
  {
    if queue == [] then rows else
      var id := queue[0];
      var entry := SettlingEntry(rows, journal, id, used);
      if entry.None? then Sweep(rows, journal, now, queue[1..], used) else
        var ref := IntText(entry.value.id);
        Sweep(rows[id := SettledRow(rows[id], Esi, ref, now)], journal, now, queue[1..], used + {ref})
  }

  /** A whole reconcile run: nothing unless the feature is live and set to reconcile. */
  function Reconcile(rows: seq<Buyout>, journal: seq<Entry>, config: Config, now: int, limit: nat): (r: seq<Buyout>)
    ensures |r| == |rows|
  {
    if !(IsLive(config) && config.requireEsiReconcile) then rows else
      var queue := ApprovedQueue(rows, |rows|);
      Sweep(rows, journal, now, if |queue| > limit then queue[..limit] else queue, UsedRefs(rows))
  }
}
