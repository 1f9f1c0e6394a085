/** The finding state machine shared by both scanners: open on findings, close on a confirmed clean
    scan, and leave everything alone when the scan taught us nothing. */
module Findings {
  import opened Options
  import opened ScanReport
  import opened ImageScan
  import opened ScanPipeline
  import Traces

  datatype Subject = DependencyAudit | ImageScanFinding

  datatype RecState = New | Acknowledged | Actioned | Dismissed | Superseded

  datatype Finding = Finding(subject: Subject, state: RecState, records: seq<Vuln>, severity: int, asOf: int, closedAt: Option<int>)

  datatype Transition = Opened | Worsened | Changed | Unchanged | Cleared | Clean | ScanError

  predicate IsOpen(f: Finding) {
    f.state == New || f.state == Acknowledged
  }

  predicate OpenFor(f: Finding, subject: Subject) {
    f.subject == subject && IsOpen(f)
  }

  /** The control's finding is up: new, or acknowledged by a director. */
  predicate Stands(f: Finding, subject: Subject) {
    f.subject == subject && (f.state == New || f.state == Acknowledged)
  }

  // --- Identity of a finding set ---------------------------------------------

  /** An advisory's identity: scoped by image when the record names one. */
  function ScopedId(v: Vuln): string {
    if v.image != "" then v.image + ":" + v.id else v.id
  }

  function VulnIdSet(vulns: seq<Vuln>): set<string> {
    set v | v in vulns && v.id != "" :: ScopedId(v)
  }

  method VulnIds(vulns: seq<Vuln>) returns (ids: set<string>)
    ensures ids == VulnIdSet(vulns)
  {
    ids := {};
    var i := 0;
    while i < |vulns|
      invariant 0 <= i <= |vulns|
      invariant ids == VulnIdSet(vulns[..i])
    {
      var v := vulns[i];
      assert vulns[..i + 1] == vulns[..i] + [v];
      assert forall x | x in vulns[..i] :: x in vulns[..i + 1];
      assert v in vulns[..i + 1];
      if v.id != "" {
        ids := ids + {ScopedId(v)};
      }
      i := i + 1;
    }
    assert vulns[..i] == vulns;
  }

  lemma LastColon(a: string, b: string, c: string, d: string)
    requires ':' !in b && ':' !in d && a + ":" + b == c + ":" + d
    ensures a == c && b == d
  {
    var s := a + ":" + b;
    assert s[|a|] == ':' && s[|c|] == ':';
    assert forall i | |a| < i < |s| :: s[i] == b[i - |a| - 1];
    assert forall i | |c| < i < |s| :: s[i] == d[i - |c| - 1];
    assert |a| == |c|;
    assert s[..|a|] == a && s[..|c|] == c && s[|a| + 1..] == b && s[|c| + 1..] == d;
  }

  /** With ids free of colons, as advisory ids are, two records have the same identity exactly when they name
      the same advisory in the same image, whatever colons the image's name contains. */
  lemma ScopedIdSameIff(v: Vuln, w: Vuln)
    requires ':' !in v.id && ':' !in w.id
    ensures ScopedId(v) == ScopedId(w) <==> v.image == w.image && v.id == w.id
  {
    assert v.image != "" ==> ScopedId(v)[|v.image|] == ':';
    assert w.image != "" ==> ScopedId(w)[|w.image|] == ':';
    if ScopedId(v) == ScopedId(w) && v.image != "" && w.image != "" {
      LastColon(v.image, v.id, w.image, w.id);
    }
  }

  // --- One scan result -------------------------------------------------------

  /** The open finding of a subject, if any. */
  function OpenIndex(rows: seq<Finding>, subject: Subject): (r: Option<nat>)
    ensures r.Some? ==> r.value < |rows| && OpenFor(rows[r.value], subject)
    ensures r.None? ==> forall i | 0 <= i < |rows| :: !OpenFor(rows[i], subject)
  {
    if rows == [] then None else
      var n := |rows| - 1;
      var r := OpenIndex(rows[..n], subject);
      if r.Some? then r else if OpenFor(rows[n], subject) then Some(n) else None
  }

  /** How a new finding set relates to the standing one. */
  function Compare(before: set<string>, after: set<string>): Transition {
    if after == before then Unchanged else if after > before then Worsened else Changed
  }

  /** What one scan result does to the table, and what to report. */
  function Synced(rows: seq<Finding>, subject: Subject, status: ScanStatus, records: seq<Vuln>, severity: int, asOf: int, now: int)
    : (r: (seq<Finding>, Transition))
  {
    var open := OpenIndex(rows, subject);
    match status
    case Error => (rows, ScanError)
    case Vulnerable =>
      if open.None? then (rows + [Finding(subject, New, records, severity, asOf, None)], Opened) else
        var standing := rows[open.value];
        var transition := Compare(VulnIdSet(standing.records), VulnIdSet(records));
        var state := if transition == Unchanged then standing.state else New;
        (rows[open.value := Finding(subject, state, records, severity, asOf, standing.closedAt)], transition)
    case Ok =>
      if open.None? then (rows, Clean)
      else (rows[open.value := rows[open.value].(state := Superseded, closedAt := Some(now))], Cleared)
  }

  class Board {
    var rows: seq<Finding>

    constructor ()
      ensures rows == []
    {
      rows := [];
    }

    method SyncFinding(subject: Subject, status: ScanStatus, records: seq<Vuln>, severity: int, asOf: int, now: int)
      returns (transition: Transition)
      modifies this
      ensures (rows, transition) == Synced(old(rows), subject, status, records, severity, asOf, now)
      ensures transition == ScanError <==> status == Error
      ensures transition == ScanError || transition == Clean ==> rows == old(rows)
      ensures transition == Cleared <==> status == Ok && exists i :: 0 <= i < |old(rows)| && Stands(old(rows)[i], subject)
      ensures transition == Cleared ==>
        exists i | 0 <= i < |old(rows)| && Stands(old(rows)[i], subject) ::
          rows == old(rows)[i := old(rows)[i].(state := Superseded, closedAt := Some(now))]
      ensures transition == Opened <==> status == Vulnerable && forall i | 0 <= i < |old(rows)| :: !Stands(old(rows)[i], subject)
      ensures transition == Opened ==> rows == old(rows) + [Finding(subject, New, records, severity, asOf, None)]
      ensures transition in {Worsened, Changed, Unchanged} ==>
        exists i | 0 <= i < |old(rows)| && i < |rows| && Stands(old(rows)[i], subject) ::
          rows == old(rows)[i := old(rows)[i].(state := rows[i].state, records := records, severity := severity, asOf := asOf)]
    {
      var existing := OpenIndex(rows, subject);
      if status == Error {
        return ScanError;
      }
      if status == Vulnerable {
        if existing.None? {
          rows := rows + [Finding(subject, New, records, severity, asOf, None)];
          return Opened;
        }
        var i := existing.value;
        var before := VulnIds(rows[i].records);
        var after := VulnIds(records);
        transition := if after == before then Unchanged else if after > before then Worsened else Changed;
        var state := if transition != Unchanged then New else rows[i].state;
        rows := rows[i := rows[i].(state := state, records := records, severity := severity, asOf := asOf)];
        return;
      }
      if existing.Some? {
        rows := rows[existing.value := rows[existing.value].(state := Superseded, closedAt := Some(now))];
        return Cleared;
      }
      return Clean;
    }
  }

  // --- Runs ------------------------------------------------------------------

  /** What a director can do with an open finding. */
  datatype Action = Acknowledge | MarkActioned | Dismiss

  datatype Event =
    | ImageScanned(raw: RawDocument, at: int)
    | DependenciesScanned(status: ScanStatus, records: seq<Vuln>, at: int)
    | Acted(index: nat, action: Action, at: int)

  function ActedRow(f: Finding, action: Action, at: int): Finding {
    match action
    case Acknowledge => f.(state := Acknowledged)
    case MarkActioned => f.(state := Actioned, closedAt := Some(at))
    case Dismiss => f.(state := Dismissed, closedAt := Some(at))
  }

  datatype Notice = Notice(subject: Subject, transition: Transition)

  /** The table after one event, with the transition a scan reports. A delivery that ends in an
      uncaught error never gets as far as the findings. */
  function Step(rows: seq<Finding>, e: Event): (seq<Finding>, Option<Notice>) {
    match e
    case ImageScanned(raw, at) =>
      if Escapes(raw) then (rows, None) else
        var summary := IngestedSummary(raw, at);
        var r := Synced(rows, ImageScanFinding, summary.status, FindingRecords(summary),
                        if summary.fixableCount > 0 then 80 else 60, summary.asOf, at);
        (r.0, Some(Notice(ImageScanFinding, r.1)))
    case DependenciesScanned(status, records, at) =>
      var r := Synced(rows, DependencyAudit, status, Clip(records, MAX_FINDING), 80, at, at);
      (r.0, Some(Notice(DependencyAudit, r.1)))
    case Acted(index, action, at) =>
      if index < |rows| && IsOpen(rows[index]) then (rows[index := ActedRow(rows[index], action, at)], None) else (rows, None)
  }

  function Run(events: seq<Event>): seq<Finding> {
    Traces.Final(Step, [], events)
  }

  /** The transitions all scans reported, oldest first. */
  function Transitions(events: seq<Event>): seq<Notice> {
    Traces.Reports(Step, [], events)
  }

  predicate AtMostOneOpen(rows: seq<Finding>) {
    forall i, j | 0 <= i < j < |rows| && rows[i].subject == rows[j].subject ::
      !Stands(rows[i], rows[i].subject) || !Stands(rows[j], rows[j].subject)
  }

  lemma SyncKeepsOneOpen(rows: seq<Finding>, subject: Subject, status: ScanStatus, records: seq<Vuln>, severity: int, asOf: int, now: int)
    requires AtMostOneOpen(rows)
    ensures AtMostOneOpen(Synced(rows, subject, status, records, severity, asOf, now).0)
  {
  }

  lemma StepKeepsOneOpen(rows: seq<Finding>, e: Event)
    requires AtMostOneOpen(rows)
    ensures AtMostOneOpen(Step(rows, e).0)
  {
    match e
    case ImageScanned(raw, at) =>
      if !Escapes(raw) {
        var summary := IngestedSummary(raw, at);
        SyncKeepsOneOpen(rows, ImageScanFinding, summary.status, FindingRecords(summary),
                         if summary.fixableCount > 0 then 80 else 60, summary.asOf, at);
      }
    case DependenciesScanned(status, records, at) =>
      SyncKeepsOneOpen(rows, DependencyAudit, status, Clip(records, MAX_FINDING), 80, at, at);
    case Acted(_, _, _) =>
  }

  /** There is never more than one open finding per control. */
  lemma RunKeepsOneOpen(events: seq<Event>)
    ensures AtMostOneOpen(Run(events))
  {
    forall rows, e | AtMostOneOpen(rows)
      ensures AtMostOneOpen(Step(rows, e).0)
    {
      StepKeepsOneOpen(rows, e);
    }
    Traces.InvariantHolds(Step, [], events, AtMostOneOpen);
  }

  lemma SyncClosesOnlyWhenOk(rows: seq<Finding>, i: nat, status: ScanStatus, records: seq<Vuln>, severity: int, asOf: int, now: int)
    requires AtMostOneOpen(rows) && i < |rows| && IsOpen(rows[i])
    ensures var after := Synced(rows, rows[i].subject, status, records, severity, asOf, now).0;
      |after| >= |rows| && after[i].subject == rows[i].subject && (IsOpen(after[i]) <==> status != Ok)
  {
    assert OpenIndex(rows, rows[i].subject) == Some(i);
  }

  lemma SyncLeavesOthers(rows: seq<Finding>, subject: Subject, i: nat, status: ScanStatus, records: seq<Vuln>, severity: int, asOf: int, now: int)
    requires i < |rows| && rows[i].subject != subject
    ensures var after := Synced(rows, subject, status, records, severity, asOf, now).0;
      |after| >= |rows| && after[i] == rows[i]
  {
  }

  /** The one outcome that must be impossible: an open image finding leaves the open states only by
      a director's hand, or on an accepted document that scanned every image and found nothing. */
  lemma ImageFindingClosesOnlyWhenClean(events: seq<Event>, e: Event, i: nat)
    requires i < |Run(events)| && Stands(Run(events)[i], ImageScanFinding)
    ensures |Run(events + [e])| > i && Run(events + [e])[i].subject == ImageScanFinding
    ensures !Stands(Run(events + [e])[i], ImageScanFinding) <==>
      || (e.Acted? && e.index == i && e.action != Acknowledge)
      || (e.ImageScanned? && SaysClean(e.raw) && !Escapes(e.raw))
  {
    Traces.FinalSnoc(Step, [], events, e);
    RunKeepsOneOpen(events);
    var rows := Run(events);
    match e
    case ImageScanned(raw, at) =>
      if !Escapes(raw) {
        var s := IngestedSummary(raw, at);
        AcceptedCleanIff(raw);
        SyncClosesOnlyWhenOk(rows, i, s.status, FindingRecords(s), if s.fixableCount > 0 then 80 else 60, s.asOf, at);
      }
    case DependenciesScanned(status, records, at) =>
      SyncLeavesOthers(rows, DependencyAudit, i, status, Clip(records, MAX_FINDING), 80, at, at);
    case Acted(_, _, _) =>
  }

  // --- Error scans leave no trace --------------------------------------------

  predicate IsErrorScan(e: Event) {
    (e.ImageScanned? && !Escapes(e.raw) && IngestedSummary(e.raw, e.at).status == Error) || (e.DependenciesScanned? && e.status == Error)
  }

  predicate IsErrorReport(r: Notice) {
    r.transition == ScanError
  }

  lemma StepReportsError(rows: seq<Finding>, e: Event)
    ensures IsErrorScan(e) ==> Step(rows, e).0 == rows && Step(rows, e).1.Some? && IsErrorReport(Step(rows, e).1.value)
    ensures !IsErrorScan(e) && Step(rows, e).1.Some? ==> !IsErrorReport(Step(rows, e).1.value)
  {
  }

  /** Deleting every error scan from a history changes neither the findings it ends with nor the
      sequence of transitions that were not errors. */
  lemma ErrorsLeaveNoTrace(events: seq<Event>)
    ensures Run(Traces.Drop(IsErrorScan, events)) == Run(events)
    ensures Transitions(Traces.Drop(IsErrorScan, events)) == Traces.Drop(IsErrorReport, Transitions(events))
  {
    forall rows, e
      ensures IsErrorScan(e) ==> Step(rows, e).0 == rows && Step(rows, e).1.Some? && IsErrorReport(Step(rows, e).1.value)
      ensures !IsErrorScan(e) && Step(rows, e).1.Some? ==> !IsErrorReport(Step(rows, e).1.value)
    {
      StepReportsError(rows, e);
    }
    Traces.NoiseLeavesNoTrace(Step, [], events, IsErrorScan, IsErrorReport);
  }

  // --- Opened and cleared alternate ------------------------------------------

  /** Every event but a director closing a finding. */
  predicate NobodyCloses(e: Event) {
    e.Acted? ==> e.action == Acknowledge
  }

  ghost predicate HasOpen(rows: seq<Finding>, subject: Subject) {
    exists i :: 0 <= i < |rows| && Stands(rows[i], subject)
  }

  function Opens(subject: Subject): Notice -> bool {
    r => r == Notice(subject, Opened)
  }

  function Clears(subject: Subject): Notice -> bool {
    r => r == Notice(subject, Cleared)
  }

  function OpensOrClears(subject: Subject): Notice -> bool {
    r => r == Notice(subject, Opened) || r == Notice(subject, Cleared)
  }

  lemma SyncedOpens(rows: seq<Finding>, subject: Subject, status: ScanStatus, records: seq<Vuln>, severity: int, asOf: int, now: int)
    requires AtMostOneOpen(rows)
    ensures var r := Synced(rows, subject, status, records, severity, asOf, now);
      && (HasOpen(r.0, subject) <==> r.1 == Opened || (HasOpen(rows, subject) && r.1 != Cleared))
      && (r.1 == Opened ==> !HasOpen(rows, subject)) && (r.1 == Cleared ==> HasOpen(rows, subject))
  {
    var after := Synced(rows, subject, status, records, severity, asOf, now).0;
    var open := OpenIndex(rows, subject);
    if status == Vulnerable {
      assert Stands(after[if open.Some? then open.value else |rows|], subject);
    } else if status == Ok && open.Some? {
      assert forall i | 0 <= i < |after| && i != open.value :: after[i] == rows[i] && !Stands(rows[i], subject);
    }
  }

  lemma SyncedElsewhere(rows: seq<Finding>, subject: Subject, status: ScanStatus, records: seq<Vuln>, severity: int, asOf: int, now: int, other: Subject)
    requires other != subject
    ensures HasOpen(Synced(rows, subject, status, records, severity, asOf, now).0, other) <==> HasOpen(rows, other)
  {
    var after := Synced(rows, subject, status, records, severity, asOf, now).0;
    assert forall i | 0 <= i < |rows| :: Stands(after[i], other) <==> Stands(rows[i], other);
    assert forall i | |rows| <= i < |after| :: !Stands(after[i], other);
  }

  lemma StepFollows(rows: seq<Finding>, e: Event, subject: Subject)
    requires AtMostOneOpen(rows) && NobodyCloses(e)
    ensures Traces.Follows(HasOpen(rows, subject), Step(rows, e).1, HasOpen(Step(rows, e).0, subject), Opens(subject), Clears(subject))
  {
    match e
    case ImageScanned(raw, at) =>
      if !Escapes(raw) {
        var s := IngestedSummary(raw, at);
        var severity := if s.fixableCount > 0 then 80 else 60;
        SyncedOpens(rows, ImageScanFinding, s.status, FindingRecords(s), severity, s.asOf, at);
        if subject != ImageScanFinding {
          SyncedElsewhere(rows, ImageScanFinding, s.status, FindingRecords(s), severity, s.asOf, at, subject);
        }
      }
    case DependenciesScanned(status, records, at) =>
      SyncedOpens(rows, DependencyAudit, status, Clip(records, MAX_FINDING), 80, at, at);
      if subject != DependencyAudit {
        SyncedElsewhere(rows, DependencyAudit, status, Clip(records, MAX_FINDING), 80, at, at, subject);
      }
    case Acted(index, action, at) =>
      var after := Step(rows, e).0;
      assert forall i | 0 <= i < |rows| :: Stands(after[i], subject) <==> Stands(rows[i], subject);
  }

  /** While nobody but the scanner closes findings, a control's `opened` and `cleared` alternate,
      starting with `opened`, and a finding stands exactly after an odd number of them. */
  lemma OpenedAndClearedAlternate(events: seq<Event>, subject: Subject)
    requires forall i | 0 <= i < |events| :: NobodyCloses(events[i])
    ensures var ends := Traces.Keep(OpensOrClears(subject), Transitions(events));
      && Traces.Alternating(ends, Opens(subject), Clears(subject))
      && (HasOpen(Run(events), subject) <==> |ends| % 2 == 1)
  {
    forall rows, e | AtMostOneOpen(rows) && NobodyCloses(e)
      ensures AtMostOneOpen(Step(rows, e).0)
      ensures Traces.Follows(HasOpen(rows, subject), Step(rows, e).1, HasOpen(Step(rows, e).0, subject), Opens(subject), Clears(subject))
    {
      StepKeepsOneOpen(rows, e);
      StepFollows(rows, e, subject);
    }
    Traces.StartsAndEndsAlternate(Step, [], events, AtMostOneOpen, rows => HasOpen(rows, subject), NobodyCloses,
                                  Opens(subject), Clears(subject), OpensOrClears(subject));
  }

  // --- What a re-scan says ---------------------------------------------------

  /** A re-scan of a standing finding reports exactly how the advisory set moved, and only a real
      move takes a director's acknowledgement back. */
  lemma RescanReportsTheMove(rows: seq<Finding>, subject: Subject, i: nat, records: seq<Vuln>, severity: int, asOf: int, now: int)
    requires AtMostOneOpen(rows) && i < |rows| && Stands(rows[i], subject)
    ensures var r := Synced(rows, subject, Vulnerable, records, severity, asOf, now);
      var before, after := VulnIdSet(rows[i].records), VulnIdSet(records);
      && r.0[i].records == records && Stands(r.0[i], subject) && |r.0| == |rows|
      && (r.1 == Unchanged <==> forall id :: id in before <==> id in after)
      && (r.1 == Worsened <==> (forall id | id in before :: id in after) && exists id :: id in after && id !in before)
      && (r.1 == Changed <==> exists id :: id in before && id !in after)
      && (r.0[i].state == Acknowledged <==> rows[i].state == Acknowledged && r.1 == Unchanged)
      && forall j | 0 <= j < |rows| && j != i :: r.0[j] == rows[j]
  {
    assert OpenIndex(rows, subject) == Some(i);
  }

  /** Some record names the advisory in the image. */
  predicate Lists(records: seq<Vuln>, image: string, id: string) {
    id != "" && exists v | v in records :: v.image == image && v.id == id
  }

  predicate ColonFree(records: seq<Vuln>) {
    forall v | v in records :: ':' !in v.id
  }

  lemma ListedIff(records: seq<Vuln>, w: Vuln)
    requires ColonFree(records) && ':' !in w.id && w.id != ""
    ensures ScopedId(w) in VulnIdSet(records) <==> Lists(records, w.image, w.id)
  {
    forall v | v in records
      ensures ScopedId(v) == ScopedId(w) <==> v.image == w.image && v.id == w.id
    {
      ScopedIdSameIff(v, w);
    }
  }

  /** Every advisory that one set of records lists in an image, the other lists in the same image. */
  predicate AllListed(records: seq<Vuln>, others: seq<Vuln>) {
    forall v | v in records && v.id != "" :: Lists(others, v.image, v.id)
  }

  lemma SubsetIff(records: seq<Vuln>, others: seq<Vuln>)
    requires ColonFree(records) && ColonFree(others)
    ensures VulnIdSet(records) <= VulnIdSet(others) <==> AllListed(records, others)
  {
    forall v | v in records && v.id != ""
      ensures ScopedId(v) in VulnIdSet(others) <==> Lists(others, v.image, v.id)
      ensures ScopedId(v) in VulnIdSet(records)
    {
      ListedIff(others, v);
    }
  }

  /** The same in terms of advisories and images: a re-scan is unchanged when both lists name the same
      advisories in the same images, worsened when it only adds some, and changed when one is gone from an
      image, even if another has taken its place. */
  lemma RescanInAdvisories(rows: seq<Finding>, subject: Subject, i: nat, records: seq<Vuln>, severity: int, asOf: int, now: int)
    requires AtMostOneOpen(rows) && i < |rows| && Stands(rows[i], subject)
    requires ColonFree(rows[i].records) && ColonFree(records)
    ensures var transition := Synced(rows, subject, Vulnerable, records, severity, asOf, now).1;
      && (transition == Unchanged <==> AllListed(rows[i].records, records) && AllListed(records, rows[i].records))
      && (transition == Worsened <==> AllListed(rows[i].records, records) && !AllListed(records, rows[i].records))
      && (transition == Changed <==> !AllListed(rows[i].records, records))
  {
    RescanReportsTheMove(rows, subject, i, records, severity, asOf, now);
    SubsetIff(rows[i].records, records);
    SubsetIff(records, rows[i].records);
  }

  // --- What each event writes --------------------------------------------------

  /** The control has a standing finding with these records, rating and time. */
  ghost predicate StandsWith(rows: seq<Finding>, subject: Subject, records: seq<Vuln>, severity: int, asOf: int) {
    exists i | 0 <= i < |rows| && Stands(rows[i], subject) ::
      rows[i].records == records && rows[i].severity == severity && rows[i].asOf == asOf
  }

  /** After a scan that found something its control has a standing finding with the head of the list, at most
      fifty records; an image finding is rated by whether anything can be fixed. */
  lemma ScansWrite(rows: seq<Finding>, e: Event)
    ensures e.ImageScanned? && IsCoherent(e.raw) && !Escapes(e.raw) && e.raw.vulnCount.value > 0 && e.raw.status.value != "error" ==>
      StandsWith(Step(rows, e).0, ImageScanFinding, Clip(IngestedSummary(e.raw, e.at).vulns, 50),
                 if e.raw.fixableCount.value > 0 then 80 else 60,
                 if e.raw.asOf.Stamped? && e.raw.asOf.time < e.at then e.raw.asOf.time else e.at)
    ensures e.DependenciesScanned? && e.status == Vulnerable ==>
      StandsWith(Step(rows, e).0, DependencyAudit, Clip(e.records, 50), 80, e.at)
  {
    if e.ImageScanned? && !Escapes(e.raw) && IsCoherent(e.raw) {
      StoredExactly(e.raw, e.at);
      var s := IngestedSummary(e.raw, e.at);
      if s.status == Vulnerable {
        SyncedStands(rows, ImageScanFinding, FindingRecords(s), if s.fixableCount > 0 then 80 else 60, s.asOf, e.at);
      }
    } else if e.DependenciesScanned? && e.status == Vulnerable {
      SyncedStands(rows, DependencyAudit, Clip(e.records, MAX_FINDING), 80, e.at, e.at);
    }
  }

  lemma SyncedStands(rows: seq<Finding>, subject: Subject, records: seq<Vuln>, severity: int, asOf: int, now: int)
    ensures StandsWith(Synced(rows, subject, Vulnerable, records, severity, asOf, now).0, subject, records, severity, asOf)
  {
    var open := OpenIndex(rows, subject);
    var after := Synced(rows, subject, Vulnerable, records, severity, asOf, now).0;
    assert Stands(after[if open.Some? then open.value else |rows|], subject);
  }

  /** A director's action moves the one standing finding it names, and notes when it closed it. */
  lemma ActionsWrite(rows: seq<Finding>, index: nat, action: Action, at: int)
    ensures var after := Step(rows, Acted(index, action, at)).0;
      if index < |rows| && Stands(rows[index], rows[index].subject) then
        after == rows[index := match action
                               case Acknowledge => rows[index].(state := Acknowledged)
                               case MarkActioned => rows[index].(state := Actioned, closedAt := Some(at))
                               case Dismiss => rows[index].(state := Dismissed, closedAt := Some(at))]
      else after == rows
  {
  }
}
