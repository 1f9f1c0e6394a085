/** Producer and consumer together: what the host builds, the app accepts, and what it stores says
    the same as the host's own verdict. */
module ScanPipeline {
  import opened Options
  import opened ScanReport
  import opened ImageScan

  // --- Every target is accounted for -----------------------------------------

  predicate Scannable(t: Target, reports: Reports) {
    ScanOf(t, reports).Some?
  }

  /** The target could be attempted, and its scan came back with a report. */
  predicate WasScanned(t: Target, reports: Reports) {
    t.error == "" && t.key in reports && reports[t.key].Some?
  }

  function ScannableOnly(targets: seq<Target>, reports: Reports): seq<Target> {
    if targets == [] then [] else
      var t := targets[|targets| - 1];
      ScannableOnly(targets[..|targets| - 1], reports) + if Scannable(t, reports) then [t] else []
  }

  function UnscannableOnly(targets: seq<Target>, reports: Reports): seq<Target> {
    if targets == [] then [] else
      var t := targets[|targets| - 1];
      UnscannableOnly(targets[..|targets| - 1], reports) + if Scannable(t, reports) then [] else [t]
  }

  function TotalVulns(images: seq<ImageRow>): int {
    if images == [] then 0 else TotalVulns(images[..|images| - 1]) + images[|images| - 1].vulnCount
  }

  function TotalFixable(images: seq<ImageRow>): int {
    if images == [] then 0 else TotalFixable(images[..|images| - 1]) + images[|images| - 1].fixableCount
  }

  lemma FixableOfConcat(a: seq<Vuln>, b: seq<Vuln>)
    ensures FixableCount(a + b) == FixableCount(a) + FixableCount(b)
  {
    if b == [] {
      assert a + b == a;
    } else {
      var n := |b| - 1;
      FixableOfConcat(a, b[..n]);
      assert (a + b)[..|a| + n] == a + b[..n];
    }
  }

  lemma {:induction false} FixableOfPlaced(vulns: seq<Vuln>, t: Target)
    ensures FixableCount(Placed(vulns, t)) == FixableCount(vulns)
  {
    if vulns != [] {
      var n := |vulns| - 1;
      FixableOfPlaced(vulns[..n], t);
      assert Placed(vulns, t)[..n] == Placed(vulns[..n], t);
    }
  }

  lemma {:induction false} FixableOfInsert(sorted: seq<Vuln>, v: Vuln)
    ensures FixableCount(Insert(sorted, v)) == FixableCount(sorted) + if Fixable(v) then 1 else 0
  {
    var n := |sorted|;
    if n == 0 || KeyLe(sorted[n - 1], v) {
      assert (sorted + [v])[..n] == sorted;
    } else {
      FixableOfInsert(sorted[..n - 1], v);
      var init := Insert(sorted[..n - 1], v);
      assert (init + [sorted[n - 1]])[..|init|] == init;
    }
  }

  lemma {:induction false} FixableOfSort(vulns: seq<Vuln>)
    ensures FixableCount(SortVulns(vulns)) == FixableCount(vulns)
  {
    if vulns != [] {
      var n := |vulns| - 1;
      FixableOfSort(vulns[..n]);
      FixableOfInsert(SortVulns(vulns[..n]), vulns[n]);
    }
  }

  /** The scanned rows are those of the scannable targets, in order. */
  lemma {:induction false} ScannedInOrder(targets: seq<Target>, reports: Reports)
    ensures var scanned := ScannableOnly(targets, reports);
      && |scanned| == |Images(targets, reports)|
      && forall i | 0 <= i < |scanned| ::
           Scannable(scanned[i], reports) && Images(targets, reports)[i] == ImageOf(scanned[i], ScanOf(scanned[i], reports).value)
  {
    if targets != [] {
      ScannedInOrder(targets[..|targets| - 1], reports);
    }
  }

  /** The unscannable rows are those of the other targets, in order. */
  lemma {:induction false} MissedInOrder(targets: seq<Target>, reports: Reports)
    ensures var missed := UnscannableOnly(targets, reports);
      && |missed| == |Unscannable(targets, reports)|
      && forall i | 0 <= i < |missed| ::
           !Scannable(missed[i], reports) && Unscannable(targets, reports)[i] == UnscannableOf(missed[i])
  {
    if targets != [] {
      MissedInOrder(targets[..|targets| - 1], reports);
    }
  }

  /** Between them the two lists have every target exactly once. */
  lemma {:induction false} NoTargetLost(targets: seq<Target>, reports: Reports)
    ensures multiset(ScannableOnly(targets, reports)) + multiset(UnscannableOnly(targets, reports)) == multiset(targets)
  {
    if targets != [] {
      var front, t := targets[..|targets| - 1], targets[|targets| - 1];
      var scanned, missed := ScannableOnly(front, reports), UnscannableOnly(front, reports);
      NoTargetLost(front, reports);
      assert targets == front + [t];
      if Scannable(t, reports) {
        assert ScannableOnly(targets, reports) == scanned + [t] && UnscannableOnly(targets, reports) == missed;
      } else {
        assert ScannableOnly(targets, reports) == scanned && UnscannableOnly(targets, reports) == missed + [t];
      }
    }
  }

  lemma RowsShowTargets(t: Target, reports: Reports)
    ensures Scannable(t, reports) <==> WasScanned(t, reports)
    ensures WasScanned(t, reports) ==>
      var report := reports[t.key].value;
      ImageOf(t, ScanOf(t, reports).value)
      == ImageRow(t.image, t.imageId, t.services, t.containers, report.os, |Found(report)|, FixableCount(Found(report)))
    ensures var row := UnscannableOf(t);
      && row.(error := "") == UnscannableRow(t.image, t.imageId, t.services, t.containers, "")
      && (t.error != "" ==> row.error == t.error) && row.error != ""
  {
  }

  /** Targets split into scanned and unscannable, each target in exactly one list and in order. */
  lemma TargetsSplit(targets: seq<Target>, reports: Reports)
    ensures multiset(ScannableOnly(targets, reports)) + multiset(UnscannableOnly(targets, reports)) == multiset(targets)
    ensures |Images(targets, reports)| + |Unscannable(targets, reports)| == |targets|
    ensures var scanned := ScannableOnly(targets, reports);
      && |scanned| == |Images(targets, reports)|
      && forall i | 0 <= i < |scanned| ::
           var t, row := scanned[i], Images(targets, reports)[i];
           && WasScanned(t, reports)
           && row == ImageRow(t.image, t.imageId, t.services, t.containers, reports[t.key].value.os,
                              |Found(reports[t.key].value)|, FixableCount(Found(reports[t.key].value)))
    ensures var missed := UnscannableOnly(targets, reports);
      && |missed| == |Unscannable(targets, reports)|
      && forall i | 0 <= i < |missed| ::
           var t, row := missed[i], Unscannable(targets, reports)[i];
           && !WasScanned(t, reports)
           && row.(error := "") == UnscannableRow(t.image, t.imageId, t.services, t.containers, "")
           && (t.error != "" ==> row.error == t.error) && row.error != ""
  {
    ScannedInOrder(targets, reports);
    MissedInOrder(targets, reports);
    NoTargetLost(targets, reports);
    forall t ensures Scannable(t, reports) <==> WasScanned(t, reports) {
      RowsShowTargets(t, reports);
    }
    var scanned, missed := ScannableOnly(targets, reports), UnscannableOnly(targets, reports);
    forall i | 0 <= i < |scanned|
      ensures var report := reports[scanned[i].key].value;
        Images(targets, reports)[i] == ImageRow(scanned[i].image, scanned[i].imageId, scanned[i].services, scanned[i].containers,
                                                report.os, |Found(report)|, FixableCount(Found(report)))
    {
      RowsShowTargets(scanned[i], reports);
    }
    forall i | 0 <= i < |missed|
      ensures var t, row := missed[i], Unscannable(targets, reports)[i];
        && row.(error := "") == UnscannableRow(t.image, t.imageId, t.services, t.containers, "")
        && (t.error != "" ==> row.error == t.error) && row.error != ""
    {
      RowsShowTargets(missed[i], reports);
    }
    assert |multiset(ScannableOnly(targets, reports)) + multiset(UnscannableOnly(targets, reports))| == |multiset(targets)|;
  }

  lemma {:induction false} NoneMissedIff(targets: seq<Target>, reports: Reports)
    ensures Unscannable(targets, reports) == [] <==> forall t | t in targets :: Scannable(t, reports)
  {
    if targets != [] {
      var n := |targets| - 1;
      NoneMissedIff(targets[..n], reports);
      assert targets[n] in targets;
      assert forall t | t in targets[..n] :: t in targets;
      assert forall t | t in targets :: t in targets[..n] || t == targets[n];
    }
  }

  /** The per-image counts add up to the whole. */
  lemma {:induction false} CountsAddUp(targets: seq<Target>, reports: Reports)
    ensures TotalVulns(Images(targets, reports)) == |AllVulns(targets, reports)|
    ensures TotalFixable(Images(targets, reports)) == FixableCount(AllVulns(targets, reports))
  {
    if targets != [] {
      var n := |targets| - 1;
      var t := targets[n];
      CountsAddUp(targets[..n], reports);
      if Scannable(t, reports) {
        var before := Images(targets[..n], reports);
        var row := ImageOf(t, ScanOf(t, reports).value);
        TotalsOfAppend(before, row);
        var found := Found(ScanOf(t, reports).value);
        FixableOfPlaced(found, t);
        FixableOfConcat(AllVulns(targets[..n], reports), Placed(found, t));
      }
    }
  }

  lemma TotalsOfAppend(images: seq<ImageRow>, row: ImageRow)
    ensures TotalVulns(images + [row]) == TotalVulns(images) + row.vulnCount
    ensures TotalFixable(images + [row]) == TotalFixable(images) + row.fixableCount
  {
    assert (images + [row])[..|images|] == images;
  }

  lemma {:induction false} FixableAtMost(vulns: seq<Vuln>)
    ensures FixableCount(vulns) <= |vulns|
  {
    if vulns != [] {
      FixableAtMost(vulns[..|vulns| - 1]);
    }
  }

  // --- Honest documents are accepted -----------------------------------------

  /** A document whose parts were counted from one scan does not contradict itself. */
  lemma CountedIsConsistent(doc: Document)
    requires doc.scannedCount == |doc.images| && doc.scannedCount + |doc.unscannable| == doc.imageCount
    requires doc.fixableCount <= doc.vulnCount
    requires if doc.truncated then |doc.vulns| < doc.vulnCount else |doc.vulns| == doc.vulnCount
    requires doc.status == if doc.images == [] then Error else if doc.vulnCount != 0 then Vulnerable else Ok
    requires doc.complete <==> doc.unscannable == [] && doc.images != []
    ensures Inconsistency(doc).None?
  {
  }

  lemma BuiltConsistent(targets: seq<Target>, reports: Reports, asOf: Stamp)
    ensures Inconsistency(BuiltDocument(targets, reports, asOf)).None?
  {
    TargetsSplit(targets, reports);
    var vulns := SortVulns(AllVulns(targets, reports));
    FixableAtMost(vulns);
    assert vulns == [] <==> |vulns| == 0;
    CountedIsConsistent(BuiltDocument(targets, reports, asOf));
  }

  lemma DeliveryKeepsDocument(doc: Document)
    requires doc.schema == SCHEMA_VERSION && doc.imageCount >= 0 && doc.scannedCount >= 0 && doc.vulnCount >= 0 && doc.fixableCount >= 0
    ensures ValidShape(Delivered(doc)) && Typed(Delivered(doc)) == doc
  {
    StatusRoundTrip(doc.status);
  }

  /** Every document the host can build passes both validators. */
  lemma BuiltDocumentsAccepted(targets: seq<Target>, reports: Reports, asOf: Stamp)
    ensures Accepted(Delivered(BuiltDocument(targets, reports, asOf)))
    ensures Typed(Delivered(BuiltDocument(targets, reports, asOf))) == BuiltDocument(targets, reports, asOf)
  {
    BuiltConsistent(targets, reports, asOf);
    DeliveryKeepsDocument(BuiltDocument(targets, reports, asOf));
  }

  lemma StatusRoundTrip(status: ScanStatus)
    ensures ParseStatus(StatusText(status)) == Some(status)
  {
  }

  lemma {:induction false} NoImagesNoVulns(targets: seq<Target>, reports: Reports)
    requires Images(targets, reports) == []
    ensures AllVulns(targets, reports) == []
  {
    if targets != [] {
      NoImagesNoVulns(targets[..|targets| - 1], reports);
    }
  }

  ghost function WithFix(vulns: seq<Vuln>): set<nat> {
    FirstWithFix(vulns, |vulns|)
  }

  ghost function FirstWithFix(vulns: seq<Vuln>, n: nat): set<nat>
    requires n <= |vulns|
  {
    set i: nat | i < n && vulns[i].fixVersions != []
  }

  lemma {:induction false} FixableCountIs(vulns: seq<Vuln>, n: nat)
    requires n <= |vulns|
    ensures FixableCount(vulns[..n]) == |FirstWithFix(vulns, n)|
  {
    if n > 0 {
      FixableCountIs(vulns, n - 1);
      assert vulns[..n][..n - 1] == vulns[..n - 1];
      var before := FirstWithFix(vulns, n - 1);
      if vulns[n - 1].fixVersions != [] {
        assert FirstWithFix(vulns, n) == before + {n - 1};
      } else {
        assert FirstWithFix(vulns, n) == before;
      }
    }
  }

  lemma BuiltSizes(targets: seq<Target>, reports: Reports, asOf: Stamp)
    ensures var doc, all := BuiltDocument(targets, reports, asOf), AllVulns(targets, reports);
      && doc.schema == 1 && doc.imageCount == |targets| && doc.vulnCount == |all|
      && |doc.vulns| == (if doc.vulnCount > 200 then 200 else doc.vulnCount) && (doc.truncated <==> doc.vulnCount > 200)
      && doc.fixableCount == |WithFix(all)|
  {
    var all := AllVulns(targets, reports);
    FixableOfSort(all);
    FixableCountIs(all, |all|);
    assert all[..|all|] == all;
  }

  /** The counts of a built document: exact totals, whatever the list was clipped to. */
  lemma BuiltTotals(targets: seq<Target>, reports: Reports, asOf: Stamp)
    ensures var doc := BuiltDocument(targets, reports, asOf);
      && doc.vulnCount == TotalVulns(doc.images)
      && doc.fixableCount == TotalFixable(doc.images)
      && doc.scannedCount + |doc.unscannable| == doc.imageCount
      && doc.schema == 1 && doc.imageCount == |targets| && doc.vulnCount == |AllVulns(targets, reports)|
      && |doc.vulns| == (if doc.vulnCount > 200 then 200 else doc.vulnCount) && (doc.truncated <==> doc.vulnCount > 200)
      && doc.fixableCount == |WithFix(AllVulns(targets, reports))|
      && (doc.complete <==> targets != [] && forall t | t in targets :: WasScanned(t, reports))
  {
    BuiltSizes(targets, reports, asOf);
    TargetsSplit(targets, reports);
    NoneMissedIff(targets, reports);
    CountsAddUp(targets, reports);
    FixableOfSort(AllVulns(targets, reports));
    if targets != [] && Unscannable(targets, reports) == [] {
      assert |Images(targets, reports)| == |targets|;
    }
  }

  /** The report on the target lists no advisory with an id. */
  ghost predicate ListsNothing(t: Target, reports: Reports)
    requires WasScanned(t, reports)
  {
    forall a | a in Flatten(reports[t.key].value.results) :: a.id == ""
  }

  lemma {:induction false} NothingFirst(flat: seq<TrivyVuln>)
    ensures FirstOccurrences(flat) == [] <==> forall a | a in flat :: a.id == ""
  {
    if flat != [] {
      var n := |flat| - 1;
      NothingFirst(flat[..n]);
      assert flat == flat[..n] + [flat[n]] && flat[n] in flat;
      assert FirstOccurrences(flat[..n]) == [] ==> RecordKeys(FirstOccurrences(flat[..n])) == {};
    }
  }

  lemma {:induction false} NothingFoundIff(targets: seq<Target>, reports: Reports)
    ensures AllVulns(targets, reports) == [] <==> forall t | t in targets && WasScanned(t, reports) :: ListsNothing(t, reports)
  {
    if targets != [] {
      var n := |targets| - 1;
      NothingFoundIff(targets[..n], reports);
      assert targets == targets[..n] + [targets[n]];
      if WasScanned(targets[n], reports) {
        NothingFirst(Flatten(reports[targets[n].key].value.results));
      }
    }
  }

  // --- The exit code of a scan, told from its targets and reports -----------------

  /** Some identified advisory, where the report first lists it, names a version that fixes it. */
  ghost predicate OffersFix(report: Report) {
    var flat := Flatten(report.results);
    exists i :: 0 <= i < |flat| && IsFirst(flat, i) && NamesFix(flat[i])
  }

  predicate NamesFix(a: TrivyVuln) {
    exists p | p in a.fixed :: p != ""
  }

  ghost predicate AnyFix(vulns: seq<Vuln>) {
    exists v :: v in vulns && v.fixVersions != []
  }

  lemma {:induction false} CountPositiveIff(vulns: seq<Vuln>)
    ensures FixableCount(vulns) > 0 <==> AnyFix(vulns)
  {
    if vulns != [] {
      var n := |vulns| - 1;
      CountPositiveIff(vulns[..n]);
      assert vulns == vulns[..n] + [vulns[n]] && vulns[n] in vulns;
    }
  }

  lemma FixNamedIff(v: Vuln, a: TrivyVuln)
    requires Shows(v, a)
    ensures v.fixVersions != [] <==> NamesFix(a)
  {
    var at: seq<nat> :| KeepsNonBlank(v.fixVersions, a.fixed, at);
    if v.fixVersions != [] {
      assert at[0] in at && a.fixed[at[0]] != "" && a.fixed[at[0]] in a.fixed;
    }
    if p :| p in a.fixed && p != "" {
      var i :| 0 <= i < |a.fixed| && a.fixed[i] == p;
      assert i in at;
    }
  }

  lemma FixComesFrom(flat: seq<TrivyVuln>, v: Vuln) returns (i: nat)
    requires v in FirstOccurrences(flat) && v.fixVersions != []
    ensures i < |flat| && IsFirst(flat, i) && NamesFix(flat[i])
  {
    RecordsShowAdvisories(flat);
    i :| 0 <= i < |flat| && IsFirst(flat, i) && Shows(v, flat[i]);
    FixNamedIff(v, flat[i]);
  }

  lemma FixComesThrough(flat: seq<TrivyVuln>, i: nat) returns (v: Vuln)
    requires i < |flat| && IsFirst(flat, i) && NamesFix(flat[i])
    ensures v in FirstOccurrences(flat) && v.fixVersions != []
  {
    RecordsShowAdvisories(flat);
    v :| v in FirstOccurrences(flat) && Shows(v, flat[i]);
    FixNamedIff(v, flat[i]);
  }

  lemma FoundFixIff(report: Report)
    ensures AnyFix(Found(report)) <==> OffersFix(report)
  {
    var flat := Flatten(report.results);
    if v :| v in Found(report) && v.fixVersions != [] {
      var i := FixComesFrom(flat, v);
    }
    if i :| 0 <= i < |flat| && IsFirst(flat, i) && NamesFix(flat[i]) {
      var v := FixComesThrough(flat, i);
    }
  }

  lemma PlacedFixIff(vulns: seq<Vuln>, t: Target)
    ensures AnyFix(Placed(vulns, t)) <==> AnyFix(vulns)
  {
    if v :| v in vulns && v.fixVersions != [] {
      var i :| 0 <= i < |vulns| && vulns[i] == v;
      assert Placed(vulns, t)[i] in Placed(vulns, t);
    }
  }

  lemma AnyFixOfConcat(a: seq<Vuln>, b: seq<Vuln>)
    ensures AnyFix(a + b) <==> AnyFix(a) || AnyFix(b)
  {
  }

  lemma {:induction false} AllFixIff(targets: seq<Target>, reports: Reports)
    ensures AnyFix(AllVulns(targets, reports)) <==> exists t | t in targets :: WasScanned(t, reports) && OffersFix(reports[t.key].value)
  {
    if targets != [] {
      var n := |targets| - 1;
      AllFixIff(targets[..n], reports);
      assert targets == targets[..n] + [targets[n]] && targets[n] in targets;
      if WasScanned(targets[n], reports) {
        var found := Found(reports[targets[n].key].value);
        FoundFixIff(reports[targets[n].key].value);
        PlacedFixIff(found, targets[n]);
        AnyFixOfConcat(AllVulns(targets[..n], reports), Placed(found, targets[n]));
      }
    }
  }

  /** The exit code: incomplete exactly when there was nothing to scan or some target was not scanned;
      findings exactly when all were scanned and some report offers a fix for an advisory; clean otherwise. */
  lemma VerdictIff(targets: seq<Target>, reports: Reports, asOf: Stamp)
    ensures var exit := Verdict(BuiltDocument(targets, reports, asOf));
      var allScanned := targets != [] && forall t | t in targets :: WasScanned(t, reports);
      var fixAtHand := exists t | t in targets :: WasScanned(t, reports) && OffersFix(reports[t.key].value);
      && (exit == ExitIncomplete <==> !allScanned)
      && (exit == ExitFindings <==> allScanned && fixAtHand)
      && (exit == ExitOk <==> allScanned && !fixAtHand)
  {
    BuiltTotals(targets, reports, asOf);
    AllFixIff(targets, reports);
    CountPositiveIff(AllVulns(targets, reports));
    FixableOfSort(AllVulns(targets, reports));
    TargetsSplit(targets, reports);
  }

  /** The app stores `ok` exactly when the host's exit code is clean and nothing at all was found;
      a clean exit with unfixable findings is stored as a finding. Only a stamp that is no time keeps
      a built document from being stored at all. */
  lemma VerdictsAgree(targets: seq<Target>, reports: Reports, asOf: Stamp, now: int)
    ensures var doc := BuiltDocument(targets, reports, asOf);
      && (Escapes(Delivered(doc)) <==> asOf.NoSuchTime?)
      && (!asOf.NoSuchTime? ==>
            var stored := IngestedSummary(Delivered(doc), now);
            && (stored.status == Ok <==> Verdict(doc) == ExitOk && doc.vulnCount == 0)
            && (stored.status == Vulnerable <==> doc.vulnCount > 0)
            && (stored.status == Error ==> Verdict(doc) == ExitIncomplete)
            && (stored.status == Ok <==> targets != [] && forall t | t in targets :: WasScanned(t, reports) && ListsNothing(t, reports)))
  {
    BuiltDocumentsAccepted(targets, reports, asOf);
    BuiltTotals(targets, reports, asOf);
    NothingFoundIff(targets, reports);
    FixableAtMost(SortVulns(AllVulns(targets, reports)));
    if Images(targets, reports) == [] {
      NoImagesNoVulns(targets, reports);
      TargetsSplit(targets, reports);
    }
  }

  // --- The clips compose -----------------------------------------------------

  const MAX_FINDING := 50

  /** The records a finding carries. */
  function FindingRecords(summary: Summary): seq<Vuln> {
    Clip(summary.vulns, MAX_FINDING)
  }

  lemma {:induction false} AllIdentified(targets: seq<Target>, reports: Reports)
    ensures forall v | v in AllVulns(targets, reports) :: v.id != ""
  {
    if targets != [] {
      var n := |targets| - 1;
      AllIdentified(targets[..n], reports);
      if Scannable(targets[n], reports) {
        var flat := Flatten(ScanOf(targets[n], reports).value.results);
        FirstOccurrencesExact(flat);
        var placed := Placed(FirstOccurrences(flat), targets[n]);
        forall v | v in placed
          ensures v.id != ""
        {
          var i :| 0 <= i < |placed| && placed[i] == v;
          assert FirstOccurrences(flat)[i] in FirstOccurrences(flat);
          assert RecordOfFirst(flat, FirstOccurrences(flat)[i]);
        }
      }
    }
  }

  lemma {:induction false} StoredOfIdentified(vulns: seq<Vuln>)
    requires forall v | v in vulns :: v.id != ""
    ensures StoredOf(vulns) == seq(|vulns|, i requires 0 <= i < |vulns| => StoredVuln(vulns[i]))
  {
    if vulns != [] {
      var n := |vulns| - 1;
      var init := vulns[..n];
      assert forall v | v in init :: v in vulns;
      StoredOfIdentified(init);
      assert vulns[n].id != "";
      assert StoredOf(vulns) == StoredOf(init) + [StoredVuln(vulns[n])];
    }
  }

  lemma ClipTwice<T>(items: seq<T>, outer: nat, inner: nat)
    requires inner <= outer
    ensures Clip(Clip(items, outer), inner) == Clip(items, inner)
  {
  }

  lemma SortedHead(sorted: seq<Vuln>, limit: nat)
    requires SortedByKey(sorted)
    ensures forall i, j | 0 <= i < |Clip(sorted, limit)| <= j < |sorted| :: KeyLe(sorted[i], sorted[j])
  {
  }

  lemma IngestKeepsHead(targets: seq<Target>, reports: Reports, asOf: Stamp, now: int)
    requires !asOf.NoSuchTime?
    ensures IngestedSummary(Delivered(BuiltDocument(targets, reports, asOf)), now).vulns
         == StoredOf(Clip(SortVulns(AllVulns(targets, reports)), MAX_STORED))
  {
    BuiltDocumentsAccepted(targets, reports, asOf);
    ClipTwice(SortVulns(AllVulns(targets, reports)), MAX_REPORTED, MAX_STORED);
  }

  lemma HeadIdentified(targets: seq<Target>, reports: Reports, limit: nat)
    ensures forall v | v in Clip(SortVulns(AllVulns(targets, reports)), limit) :: v.id != ""
  {
    AllIdentified(targets, reports);
    var sorted := SortVulns(AllVulns(targets, reports));
    forall v | v in Clip(sorted, limit)
      ensures v.id != ""
    {
      assert v in multiset(sorted);
      assert v in AllVulns(targets, reports);
    }
  }

  lemma RecordsOfHead(sorted: seq<Vuln>)
    requires forall v | v in Clip(sorted, MAX_STORED) :: v.id != ""
    ensures var records := Clip(StoredOf(Clip(sorted, MAX_STORED)), MAX_FINDING);
      && |records| == |Clip(sorted, MAX_FINDING)|
      && (forall i | 0 <= i < |records| :: IsStored(records[i], sorted[i]))
  {
    StoredOfIdentified(Clip(sorted, MAX_STORED));
    var records := Clip(StoredOf(Clip(sorted, MAX_STORED)), MAX_FINDING);
    forall i | 0 <= i < |records|
      ensures IsStored(records[i], sorted[i])
    {
      assert records[i] == StoredVuln(sorted[i]);
      StoredVulnIs(sorted[i]);
    }
  }

  /** Through the clips at 200, 100 and 50 a finding carries the 50 least records of the whole scan
      in worst-first order (fields bounded), and drops nothing that precedes what it keeps. */
  lemma ClipsCompose(targets: seq<Target>, reports: Reports, asOf: Stamp, now: int)
    requires !asOf.NoSuchTime?
    ensures var sorted := SortVulns(AllVulns(targets, reports));
      var records := FindingRecords(IngestedSummary(Delivered(BuiltDocument(targets, reports, asOf)), now));
      && multiset(sorted) == multiset(AllVulns(targets, reports)) && SortedByKey(sorted)
      && |records| == (if |sorted| > 50 then 50 else |sorted|)
      && (forall i | 0 <= i < |records| :: IsStored(records[i], sorted[i]))
      && (forall i, j | 0 <= i < |records| <= j < |sorted| :: KeyLe(sorted[i], sorted[j]))
  {
    var sorted := SortVulns(AllVulns(targets, reports));
    IngestKeepsHead(targets, reports, asOf, now);
    HeadIdentified(targets, reports, MAX_STORED);
    RecordsOfHead(sorted);
    SortSorts(AllVulns(targets, reports));
    SortedHead(sorted, MAX_FINDING);
  }

  /** Within one severity no fixable finding is dropped while an unfixable one is kept. */
  lemma FixableKeptFirst(targets: seq<Target>, reports: Reports, kept: nat, dropped: nat)
    requires kept < 50 <= dropped < |SortVulns(AllVulns(targets, reports))|
    ensures var a, b := SortVulns(AllVulns(targets, reports))[kept], SortVulns(AllVulns(targets, reports))[dropped];
      && (a.severity == b.severity || (a.severity !in SEVERITIES && b.severity !in SEVERITIES) ==>
            b.fixVersions != [] ==> a.fixVersions != [])
      && forall s | 0 <= s < |SEVERITIES| && b.severity == SEVERITIES[s] :: a.severity in SEVERITIES[..s + 1]
  {
    WorstFirst(AllVulns(targets, reports), kept, dropped);
  }
}
