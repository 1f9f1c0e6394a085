/** The deduplicating director alert: one delivery per distinct problem set, reset by recovery. */
module HealthAlert {
  import opened Options
  import opened ScanReport
  import opened Findings

  // --- Ordering and joining text ---------------------------------------------

  predicate Ascending(texts: seq<string>) {
    forall i, j | 0 <= i < j < |texts| :: TextLe(texts[i], texts[j])
  }

  function InsertText(sorted: seq<string>, t: string): (r: seq<string>)
    ensures multiset(r) == multiset(sorted) + multiset{t}
  {
    var n := |sorted|;
    if n == 0 || TextLe(sorted[n - 1], t) then sorted + [t] else
      assert sorted == sorted[..n - 1] + [sorted[n - 1]];
      InsertText(sorted[..n - 1], t) + [sorted[n - 1]]
  }

  function SortTexts(texts: seq<string>): (r: seq<string>)
    ensures multiset(r) == multiset(texts)
  {
    if texts == [] then [] else
      assert texts == texts[..|texts| - 1] + [texts[|texts| - 1]];
      InsertText(SortTexts(texts[..|texts| - 1]), texts[|texts| - 1])
  }

  lemma AppendAscends(sorted: seq<string>, t: string)
    requires Ascending(sorted) && forall i | 0 <= i < |sorted| :: TextLe(sorted[i], t)
    ensures Ascending(sorted + [t])
  {
  }

  lemma InsertedBelow(sorted: seq<string>, t: string, top: string)
    requires TextLe(t, top) && forall i | 0 <= i < |sorted| :: TextLe(sorted[i], top)
    ensures forall i | 0 <= i < |InsertText(sorted, t)| :: TextLe(InsertText(sorted, t)[i], top)
  {
    var r := InsertText(sorted, t);
    forall i | 0 <= i < |r|
      ensures TextLe(r[i], top)
    {
      assert r[i] in multiset(r);
      assert r[i] in multiset(sorted) || r[i] == t;
    }
  }

  lemma {:induction false} InsertAscends(sorted: seq<string>, t: string)
    requires Ascending(sorted)
    ensures Ascending(InsertText(sorted, t))
  {
    var n := |sorted|;
    if n == 0 {
    } else if TextLe(sorted[n - 1], t) {
      forall i | 0 <= i < n
        ensures TextLe(sorted[i], t)
      {
        if i < n - 1 {
          TextOrder(sorted[i], sorted[n - 1], t);
        }
      }
      AppendAscends(sorted, t);
    } else {
      InsertAscends(sorted[..n - 1], t);
      TextOrder(t, sorted[n - 1], t);
      InsertedBelow(sorted[..n - 1], t, sorted[n - 1]);
      AppendAscends(InsertText(sorted[..n - 1], t), sorted[n - 1]);
    }
  }

  lemma {:induction false} SortAscends(texts: seq<string>)
    ensures Ascending(SortTexts(texts))
  {
    if texts != [] {
      SortAscends(texts[..|texts| - 1]);
      InsertAscends(SortTexts(texts[..|texts| - 1]), texts[|texts| - 1]);
    }
  }

  lemma LeastFirst(a: seq<string>, t: string)
    requires Ascending(a) && t in multiset(a)
    ensures a != [] && TextLe(a[0], t)
  {
    var i :| 0 <= i < |a| && a[i] == t;
    TextOrder(a[0], t, t);
  }

  lemma RestOf(a: seq<string>)
    requires a != [] && Ascending(a)
    ensures Ascending(a[1..]) && multiset(a[1..]) == multiset(a) - multiset{a[0]} && a == [a[0]] + a[1..]
  {
    assert a == [a[0]] + a[1..];
  }

  /** The sorted arrangement of a collection is unique. */
  lemma {:induction false} AscendingUnique(a: seq<string>, b: seq<string>)
    requires Ascending(a) && Ascending(b) && multiset(a) == multiset(b)
    ensures a == b
  {
    if a == [] {
      assert |multiset(b)| == 0;
    } else {
      assert a[0] in multiset(a);
      LeastFirst(b, a[0]);
      assert b[0] in multiset(b);
      LeastFirst(a, b[0]);
      TextOrder(a[0], b[0], a[0]);
      RestOf(a);
      RestOf(b);
      AscendingUnique(a[1..], b[1..]);
    }
  }

  function Join(texts: seq<string>, separator: char): string {
    if texts == [] then "" else if |texts| == 1 then texts[0] else texts[0] + [separator] + Join(texts[1..], separator)
  }

  predicate FreeOf(t: string, separator: char) {
    t != "" && forall i | 0 <= i < |t| :: t[i] != separator
  }

  predicate AllFreeOf(texts: seq<string>, separator: char) {
    forall i | 0 <= i < |texts| :: FreeOf(texts[i], separator)
  }

  /** Where a join's first piece ends. */
  lemma JoinHead(texts: seq<string>, separator: char)
    requires texts != [] && AllFreeOf(texts, separator)
    ensures |Join(texts, separator)| >= |texts[0]| && Join(texts, separator)[..|texts[0]|] == texts[0]
    ensures forall i | 0 <= i < |texts[0]| :: Join(texts, separator)[i] != separator
    ensures |texts| == 1 <==> |Join(texts, separator)| == |texts[0]|
    ensures |texts| > 1 ==> Join(texts, separator)[|texts[0]|] == separator && Join(texts, separator)[|texts[0]| + 1..] == Join(texts[1..], separator)
  {
    var whole := Join(texts, separator);
    assert FreeOf(texts[0], separator);
    if |texts| > 1 {
      assert whole == texts[0] + [separator] + Join(texts[1..], separator);
    }
    assert whole[..|texts[0]|] == texts[0];
    assert forall i | 0 <= i < |texts[0]| :: whole[i] == texts[0][i];
  }

  /** Pieces that contain no separator can be read back from their join. */
  lemma {:induction false} JoinInjective(a: seq<string>, b: seq<string>, separator: char)
    requires AllFreeOf(a, separator) && AllFreeOf(b, separator) && Join(a, separator) == Join(b, separator)
    ensures a == b
  {
    if a != [] {
      JoinHead(a, separator);
    }
    if b != [] {
      JoinHead(b, separator);
    }
    if a != [] && b != [] {
      assert FreeOf(a[0], separator) && FreeOf(b[0], separator);
      assert |a[0]| == |b[0]|;
      assert a[0] == b[0];
      if |a| > 1 {
        JoinInjective(a[1..], b[1..], separator);
      }
      assert a == [a[0]] + a[1..] && b == [b[0]] + b[1..];
    }
  }

  // --- What is wrong right now -----------------------------------------------

  datatype Problem = Problem(kind: string, key: string)

  datatype Beat = Beat(key: string, stale: bool)

  function BareIds(vulns: seq<Vuln>): set<string> {
    set v | v in vulns && v.id != "" :: v.id
  }

  /** The distinct bare advisory ids, ascending. */
  function SortedIds(vulns: seq<Vuln>): (r: seq<string>)
    ensures forall t :: multiset(r)[t] == if t in BareIds(vulns) then 1 else 0
  {
    if vulns == [] then [] else
      var n := |vulns| - 1;
      var before := SortedIds(vulns[..n]);
      BareIdsNext(vulns);
      if vulns[n].id == "" || vulns[n].id in BareIds(vulns[..n]) then before else InsertText(before, vulns[n].id)
  }

  lemma BareIdsNext(vulns: seq<Vuln>)
    requires vulns != []
    ensures BareIds(vulns) == BareIds(vulns[..|vulns| - 1]) + if vulns[|vulns| - 1].id == "" then {} else {vulns[|vulns| - 1].id}
  {
    var n := |vulns| - 1;
    assert forall v | v in vulns :: v in vulns[..n] || v == vulns[n];
    assert forall v | v in vulns[..n] :: v in vulns;
    assert vulns[n] in vulns;
  }

  lemma {:induction false} SortedIdsAscend(vulns: seq<Vuln>)
    ensures Ascending(SortedIds(vulns))
  {
    if vulns != [] {
      SortedIdsAscend(vulns[..|vulns| - 1]);
      InsertAscends(SortedIds(vulns[..|vulns| - 1]), vulns[|vulns| - 1].id);
    }
  }

  /** The problem an open finding of `subject` raises, if it lists anything. */
  function CveProblem(rows: seq<Finding>, subject: Subject): Option<Problem> {
    var open := OpenIndex(rows, subject);
    if open.None? || rows[open.value].records == [] then None
    else Some(ProblemOf(subject, rows[open.value].records))
  }

  function ProblemOf(subject: Subject, records: seq<Vuln>): Problem {
    var ids := Join(SortedIds(records), ',');
    match subject
    case DependencyAudit => Problem("cve", "cve:" + ids)
    case ImageScanFinding => Problem("image_cve", "image_cve:" + ids)
  }

  function StaleBeats(beats: seq<Beat>): seq<Problem> {
    if beats == [] then [] else
      var n := |beats| - 1;
      if beats[n].stale then StaleBeats(beats[..n]) + [Problem("beat", beats[n].key)] else StaleBeats(beats[..n])
  }

  function WithProblem(problems: seq<Problem>, p: Option<Problem>): seq<Problem> {
    if p.Some? then problems + [p.value] else problems
  }

  function Collected(beats: seq<Beat>, sdeStale: bool, rows: seq<Finding>): seq<Problem> {
    var stopped := StaleBeats(beats);
    var infrastructure := if sdeStale then stopped + [Problem("sde", "sde")] else stopped;
    WithProblem(WithProblem(infrastructure, CveProblem(rows, DependencyAudit)), CveProblem(rows, ImageScanFinding))
  }

  method CollectProblems(beats: seq<Beat>, sdeStale: bool, rows: seq<Finding>) returns (problems: seq<Problem>)
    ensures problems == Collected(beats, sdeStale, rows)
  {
    problems := [];
    var i := 0;
    while i < |beats|
      invariant 0 <= i <= |beats|
      invariant problems == StaleBeats(beats[..i])
    {
      assert beats[..i + 1][..i] == beats[..i];
      if beats[i].stale {
        problems := problems + [Problem("beat", beats[i].key)];
      }
      i := i + 1;
    }
    assert beats[..i] == beats;
    if sdeStale {
      problems := problems + [Problem("sde", "sde")];
    }
    var cve := CveProblem(rows, DependencyAudit);
    if cve.Some? {
      problems := problems + [cve.value];
    }
    var image := CveProblem(rows, ImageScanFinding);
    if image.Some? {
      problems := problems + [image.value];
    }
  }

  lemma {:induction false} StaleBeatsExact(beats: seq<Beat>)
    ensures forall p :: p in StaleBeats(beats) <==> exists i :: 0 <= i < |beats| && beats[i].stale && p == Problem("beat", beats[i].key)
  {
    if beats != [] {
      var n := |beats| - 1;
      StaleBeatsExact(beats[..n]);
      forall p
        ensures p in StaleBeats(beats) <==> exists i :: 0 <= i < |beats| && beats[i].stale && p == Problem("beat", beats[i].key)
      {
        if i :| 0 <= i < n && beats[..n][i].stale && p == Problem("beat", beats[..n][i].key) {
          assert beats[i].stale && p == Problem("beat", beats[i].key);
        }
        if i :| 0 <= i < |beats| && beats[i].stale && p == Problem("beat", beats[i].key) {
          assert i < n ==> beats[..n][i].stale && p == Problem("beat", beats[..n][i].key);
        }
      }
    }
  }

  /** An open finding of `subject` lists records that read `p`. */
  predicate Raised(rows: seq<Finding>, subject: Subject, p: Problem) {
    exists i :: 0 <= i < |rows| && OpenFor(rows[i], subject) && rows[i].records != [] && p == ProblemOf(subject, rows[i].records)
  }

  /** What counts as a problem, and nothing else does: a stopped beat, a stale build, and each
      control's open finding that lists anything. A cleared finding of one control never hides the
      open finding of the other. */
  lemma CollectedExact(beats: seq<Beat>, sdeStale: bool, rows: seq<Finding>, p: Problem)
    requires AtMostOneOpen(rows)
    ensures p in Collected(beats, sdeStale, rows) <==>
      || (exists i :: 0 <= i < |beats| && beats[i].stale && p == Problem("beat", beats[i].key))
      || (sdeStale && p == Problem("sde", "sde"))
      || (exists i :: 0 <= i < |rows| && Stands(rows[i], rows[i].subject) && rows[i].records != [] && p == ProblemOf(rows[i].subject, rows[i].records))
  {
    StaleBeatsExact(beats);
    CollectedFrom(beats, sdeStale, CveProblem(rows, DependencyAudit), CveProblem(rows, ImageScanFinding), p);
    OpenProblem(rows, DependencyAudit, p);
    OpenProblem(rows, ImageScanFinding, p);
    RaisedByEither(rows, p);
  }

  lemma CollectedFrom(beats: seq<Beat>, sdeStale: bool, cve: Option<Problem>, image: Option<Problem>, p: Problem)
    ensures var stopped := StaleBeats(beats);
      var infrastructure := if sdeStale then stopped + [Problem("sde", "sde")] else stopped;
      p in WithProblem(WithProblem(infrastructure, cve), image) <==>
        p in stopped || (sdeStale && p == Problem("sde", "sde")) || cve == Some(p) || image == Some(p)
  {
  }

  lemma RaisedByEither(rows: seq<Finding>, p: Problem)
    ensures (exists i :: 0 <= i < |rows| && Stands(rows[i], rows[i].subject) && rows[i].records != [] && p == ProblemOf(rows[i].subject, rows[i].records))
      <==> Raised(rows, DependencyAudit, p) || Raised(rows, ImageScanFinding, p)
  {
    if i :| 0 <= i < |rows| && Stands(rows[i], rows[i].subject) && rows[i].records != [] && p == ProblemOf(rows[i].subject, rows[i].records) {
      assert OpenFor(rows[i], DependencyAudit) || OpenFor(rows[i], ImageScanFinding);
    }
  }

  lemma OpenProblem(rows: seq<Finding>, subject: Subject, p: Problem)
    requires AtMostOneOpen(rows)
    ensures CveProblem(rows, subject) == Some(p) <==> Raised(rows, subject, p)
  {
    if CveProblem(rows, subject) == Some(p) {
      assert OpenFor(rows[OpenIndex(rows, subject).value], subject);
    }
    if i: nat :| i < |rows| && OpenFor(rows[i], subject) && rows[i].records != [] && p == ProblemOf(subject, rows[i].records) {
      OpenIsFound(rows, subject, i);
    }
  }

  lemma OpenIsFound(rows: seq<Finding>, subject: Subject, i: nat)
    requires AtMostOneOpen(rows) && i < |rows| && OpenFor(rows[i], subject)
    ensures OpenIndex(rows, subject) == Some(i)
  {
  }

  // --- The signature ---------------------------------------------------------

  function Labels(problems: seq<Problem>): (r: seq<string>)
    ensures |r| == |problems| && forall i | 0 <= i < |r| :: r[i] == problems[i].kind + ":" + problems[i].key
  {
    seq(|problems|, i requires 0 <= i < |problems| => problems[i].kind + ":" + problems[i].key)
  }

  /** The text whose hash is stored; the hash itself is taken as injective. */
  function Signature(problems: seq<Problem>): string {
    Join(SortTexts(Labels(problems)), '|')
  }

  lemma {:induction false} LabelsCount(problems: seq<Problem>, text: string)
    ensures multiset(Labels(problems))[text] == |Matching(problems, text)|
  {
    if problems != [] {
      var n := |problems| - 1;
      LabelsCount(problems[..n], text);
      assert Labels(problems) == Labels(problems[..n]) + [problems[n].kind + ":" + problems[n].key];
    }
  }

  /** The problems that read `text`. */
  function Matching(problems: seq<Problem>, text: string): multiset<Problem> {
    if problems == [] then multiset{} else
      var n := |problems| - 1;
      var p := problems[n];
      Matching(problems[..n], text) + if p.kind + ":" + p.key == text then multiset{p} else multiset{}
  }

  lemma {:induction false} MatchingIsFilter(problems: seq<Problem>, text: string)
    ensures forall p :: Matching(problems, text)[p] == if p.kind + ":" + p.key == text then multiset(problems)[p] else 0
  {
    if problems != [] {
      var n := |problems| - 1;
      MatchingIsFilter(problems[..n], text);
      assert problems == problems[..n] + [problems[n]];
    }
  }

  /** The signature does not depend on the order problems were found in. */
  lemma SignatureIgnoresOrder(a: seq<Problem>, b: seq<Problem>)
    requires multiset(a) == multiset(b)
    ensures Signature(a) == Signature(b)
  {
    forall text
      ensures multiset(Labels(a))[text] == multiset(Labels(b))[text]
    {
      LabelsCount(a, text);
      LabelsCount(b, text);
      MatchingIsFilter(a, text);
      MatchingIsFilter(b, text);
      assert Matching(a, text) == Matching(b, text);
    }
    assert multiset(Labels(a)) == multiset(Labels(b));
    SortAscends(Labels(a));
    SortAscends(Labels(b));
    AscendingUnique(SortTexts(Labels(a)), SortTexts(Labels(b)));
  }

  lemma SortedFreeOf(texts: seq<string>, separator: char)
    requires AllFreeOf(texts, separator)
    ensures AllFreeOf(SortTexts(texts), separator)
  {
    var sorted := SortTexts(texts);
    forall i | 0 <= i < |sorted|
      ensures FreeOf(sorted[i], separator)
    {
      assert sorted[i] in multiset(sorted);
      assert sorted[i] in texts;
    }
  }

  /** As long as no label contains the separator, two sweeps carry the same signature exactly when they
      found the same problems, in whatever order. */
  lemma SignatureSameIff(a: seq<Problem>, b: seq<Problem>)
    requires AllFreeOf(Labels(a), '|') && AllFreeOf(Labels(b), '|')
    ensures Signature(a) == Signature(b) <==> multiset(Labels(a)) == multiset(Labels(b))
  {
    if multiset(Labels(a)) == multiset(Labels(b)) {
      SortAscends(Labels(a));
      SortAscends(Labels(b));
      AscendingUnique(SortTexts(Labels(a)), SortTexts(Labels(b)));
    }
    if Signature(a) == Signature(b) {
      SortedFreeOf(Labels(a), '|');
      SortedFreeOf(Labels(b), '|');
      JoinInjective(SortTexts(Labels(a)), SortTexts(Labels(b)), '|');
    }
  }

  // --- One sweep -------------------------------------------------------------

  datatype Outcome = Disabled | Healthy | Repeat | AlertFailed | Alerted

  /** What a problem set is remembered by; nothing wrong is nothing to remember. */
  function Alarm(problems: seq<Problem>): Option<string> {
    if problems == [] then None else Some(Signature(problems))
  }

  /** One sweep's inputs: the event switch, what is wrong (by signature), and whether the broadcast
      is accepted. */
  datatype Sweep = Sweep(enabled: bool, alarm: Option<string>, accepted: bool)

  function Swept(stored: Option<string>, sweep: Sweep): (Option<string>, Outcome) {
    if !sweep.enabled then (stored, Disabled)
    else if sweep.alarm.None? then (None, Healthy)
    else if stored == sweep.alarm then (stored, Repeat)
    else if !sweep.accepted then (stored, AlertFailed)
    else (sweep.alarm, Alerted)
  }

  class Alerter {
    var stored: Option<string>

    constructor ()
      ensures stored == None
    {
      stored := None;
    }

    method ScanIntegrationHealth(enabled: bool, problems: seq<Problem>, accepted: bool) returns (outcome: Outcome)
      modifies this
      ensures (stored, outcome) == Swept(old(stored), Sweep(enabled, Alarm(problems), accepted))
      ensures outcome == AlertFailed || outcome == Disabled || outcome == Repeat ==> stored == old(stored)
      ensures outcome == Alerted <==>
        enabled && problems != [] && accepted && old(stored) != Some(Signature(problems))
    {
      if !enabled {
        return Disabled;
      }
      if problems == [] {
        if stored.Some? {
          stored := None;
        }
        return Healthy;
      }
      var sig := Signature(problems);
      if stored.Some? && stored.value == sig {
        return Repeat;
      }
      if !accepted {
        return AlertFailed;
      }
      stored := Some(sig);
      return Alerted;
    }
  }

  // --- Runs ------------------------------------------------------------------

  /** A run: the signature stored before each sweep and after the last, and what each sweep did. */
  ghost predicate IsRun(run: seq<Sweep>, stored: seq<Option<string>>, outcomes: seq<Outcome>) {
    && |stored| == |run| + 1 && |outcomes| == |run| && stored[0] == None
    && forall n | 0 <= n < |run| :: outcomes[n] == Swept(stored[n], run[n]).1 && stored[n + 1] == Swept(stored[n], run[n]).0
  }

  /** Sweep `m` delivered an alert, and up to `n` no enabled sweep delivered another or found
      everything healthy. */
  ghost predicate LastAlert(run: seq<Sweep>, outcomes: seq<Outcome>, m: nat, n: nat)
    requires n <= |run| == |outcomes|
  {
    && m < n && outcomes[m] == Alerted
    && forall k | m < k < n && run[k].enabled :: run[k].alarm.Some? && outcomes[k] != Alerted
  }

  /** `stored` is the signature of the last alert before sweep `n`, or there is no such alert. */
  ghost predicate Recorded(run: seq<Sweep>, outcomes: seq<Outcome>, n: nat, stored: Option<string>)
    requires n <= |run| == |outcomes|
  {
    && (stored.Some? ==> exists m: nat :: LastAlert(run, outcomes, m, n) && stored == run[m].alarm)
    && (stored.None? ==> forall m: nat :: !LastAlert(run, outcomes, m, n))
  }

  lemma RecordedNext(run: seq<Sweep>, outcomes: seq<Outcome>, n: nat, next: nat, stored: Option<string>)
    requires n < |run| == |outcomes| && next == n + 1 && Recorded(run, outcomes, n, stored)
    requires outcomes[n] == Swept(stored, run[n]).1
    ensures Recorded(run, outcomes, next, Swept(stored, run[n]).0)
  {
    if outcomes[n] == Alerted {
      assert LastAlert(run, outcomes, n, next);
    } else if outcomes[n] == Healthy || stored.None? {
      forall m: nat
        ensures !LastAlert(run, outcomes, m, next)
      {
        assert LastAlert(run, outcomes, m, next) ==> LastAlert(run, outcomes, m, n);
      }
    } else {
      var m: nat :| LastAlert(run, outcomes, m, n) && stored == run[m].alarm;
      assert LastAlert(run, outcomes, m, next);
    }
  }

  /** The stored signature is that of the last alert delivered since recovery. */
  lemma {:induction false} StoredIsLastAlert(run: seq<Sweep>, stored: seq<Option<string>>, outcomes: seq<Outcome>, n: nat)
    requires IsRun(run, stored, outcomes) && n <= |run|
    ensures Recorded(run, outcomes, n, stored[n])
  {
    if n > 0 {
      StoredIsLastAlert(run, stored, outcomes, n - 1);
      RecordedNext(run, outcomes, n - 1, n, stored[n - 1]);
    }
  }

  lemma LastAlertUnique(run: seq<Sweep>, outcomes: seq<Outcome>, a: nat, b: nat, n: nat)
    requires n <= |run| == |outcomes| && LastAlert(run, outcomes, a, n) && LastAlert(run, outcomes, b, n)
    requires run[a].enabled && run[b].enabled
    ensures a == b
  {
  }

  /** Over every run: an alert is delivered exactly when the event is on, something is wrong, the
      broadcast is accepted, and the last alert delivered since the last enabled healthy sweep (if
      there is one) had a different signature. */
  lemma AlertedIff(run: seq<Sweep>, stored: seq<Option<string>>, outcomes: seq<Outcome>, n: nat)
    requires IsRun(run, stored, outcomes) && n < |run|
    ensures outcomes[n] == Alerted <==>
      && run[n].enabled && run[n].alarm.Some? && run[n].accepted
      && !exists m: nat :: LastAlert(run, outcomes, m, n) && run[m].alarm == run[n].alarm
  {
    StoredIsLastAlert(run, stored, outcomes, n);
    if m: nat :| LastAlert(run, outcomes, m, n) && run[m].alarm == run[n].alarm {
      var k: nat :| LastAlert(run, outcomes, k, n) && stored[n] == run[k].alarm;
      LastAlertUnique(run, outcomes, m, k, n);
    }
  }

  /** The same in terms of what was found: an alert is delivered exactly when the event is on, something
      is wrong, the broadcast is accepted, and the last alert since recovery was for other problems. */
  lemma AlertedForOtherProblemsIff(run: seq<Sweep>, found: seq<seq<Problem>>, stored: seq<Option<string>>, outcomes: seq<Outcome>, n: nat)
    requires IsRun(run, stored, outcomes) && n < |run| == |found|
    requires forall k | 0 <= k < |run| :: run[k].alarm == Alarm(found[k]) && AllFreeOf(Labels(found[k]), '|')
    ensures outcomes[n] == Alerted <==>
      && run[n].enabled && found[n] != [] && run[n].accepted
      && !exists m: nat :: LastAlert(run, outcomes, m, n) && multiset(Labels(found[m])) == multiset(Labels(found[n]))
  {
    AlertedIff(run, stored, outcomes, n);
    forall m: nat | LastAlert(run, outcomes, m, n) && found[n] != []
      ensures run[m].alarm == run[n].alarm <==> multiset(Labels(found[m])) == multiset(Labels(found[n]))
    {
      assert run[m].alarm.Some?;
      SignatureSameIff(found[m], found[n]);
    }
  }

  /** A refused broadcast is retried: while it is refused or muted the state stands still, so the
      first accepted sweep of the same problems delivers. */
  lemma RefusedIsRetried(run: seq<Sweep>, stored: seq<Option<string>>, outcomes: seq<Outcome>, m: nat, n: nat)
    requires IsRun(run, stored, outcomes) && m < n < |run| && outcomes[m] == AlertFailed
    requires forall k | m <= k <= n && run[k].enabled :: run[k].alarm == run[m].alarm
    requires forall k | m <= k < n :: !run[k].accepted
    requires run[n].enabled && run[n].accepted
    ensures outcomes[n] == Alerted
  {
    StateStandsStill(run, stored, outcomes, m, n);
  }

  lemma {:induction false} StateStandsStill(run: seq<Sweep>, stored: seq<Option<string>>, outcomes: seq<Outcome>, m: nat, n: nat)
    requires IsRun(run, stored, outcomes) && m < n < |run| && outcomes[m] == AlertFailed
    requires forall k | m <= k < n && run[k].enabled :: run[k].alarm == run[m].alarm
    requires forall k | m <= k < n :: !run[k].accepted
    ensures stored[n] == stored[m]
  {
    if n - 1 > m {
      StateStandsStill(run, stored, outcomes, m, n - 1);
    }
    assert stored[n] == Swept(stored[n - 1], run[n - 1]).0;
  }

  // --- Where the two identities part -----------------------------------------

  lemma SameIdsSameText(before: seq<Vuln>, after: seq<Vuln>)
    requires BareIds(before) == BareIds(after)
    ensures SortedIds(before) == SortedIds(after)
  {
    SortedIdsAscend(before);
    SortedIdsAscend(after);
    assert multiset(SortedIds(before)) == multiset(SortedIds(after));
    AscendingUnique(SortedIds(before), SortedIds(after));
  }

  lemma SameTextSameIds(before: seq<Vuln>, after: seq<Vuln>)
    requires AllFreeOf(SortedIds(before), ',') && AllFreeOf(SortedIds(after), ',')
    requires Join(SortedIds(before), ',') == Join(SortedIds(after), ',')
    ensures BareIds(before) == BareIds(after)
  {
    JoinInjective(SortedIds(before), SortedIds(after), ',');
    forall t
      ensures t in BareIds(before) <==> t in BareIds(after)
    {
      assert multiset(SortedIds(before))[t] == multiset(SortedIds(after))[t];
    }
  }

  predicate CommaFree(records: seq<Vuln>) {
    forall v | v in records :: ',' !in v.id
  }

  lemma CommaFreeSorted(records: seq<Vuln>)
    requires CommaFree(records)
    ensures AllFreeOf(SortedIds(records), ',')
  {
    var sorted := SortedIds(records);
    forall i | 0 <= i < |sorted|
      ensures FreeOf(sorted[i], ',')
    {
      assert sorted[i] in multiset(sorted);
      assert sorted[i] in BareIds(records);
    }
  }

  /** Every advisory that one list names, the other names too, in whatever image. */
  predicate NamesAll(records: seq<Vuln>, others: seq<Vuln>) {
    forall v | v in records && v.id != "" :: exists w | w in others :: w.id == v.id
  }

  lemma BareIdsSameIff(before: seq<Vuln>, after: seq<Vuln>)
    ensures BareIds(before) == BareIds(after) <==> NamesAll(before, after) && NamesAll(after, before)
  {
    BareSubsetIff(before, after);
    BareSubsetIff(after, before);
  }

  lemma BareSubsetIff(records: seq<Vuln>, others: seq<Vuln>)
    ensures BareIds(records) <= BareIds(others) <==> NamesAll(records, others)
  {
    if BareIds(records) <= BareIds(others) {
      forall v | v in records && v.id != ""
        ensures exists w | w in others :: w.id == v.id
      {
        assert v.id in BareIds(records);
      }
    }
  }

  lemma PrefixesApart(a: string, b: string)
    ensures "cve:" + a == "cve:" + b <==> a == b
    ensures "image_cve:" + a == "image_cve:" + b <==> a == b
  {
    assert ("cve:" + a)[4..] == a && ("cve:" + b)[4..] == b;
    assert ("image_cve:" + a)[10..] == a && ("image_cve:" + b)[10..] == b;
  }

  /** The alerter sees bare advisory ids. When no id contains a comma, two findings raise the same problem
      exactly when they are of the same control and name the same advisories, in whatever images. */
  lemma ProblemSameIff(subject: Subject, before: seq<Vuln>, other: Subject, after: seq<Vuln>)
    requires CommaFree(before) && CommaFree(after)
    ensures ProblemOf(subject, before) == ProblemOf(other, after) <==>
      subject == other && NamesAll(before, after) && NamesAll(after, before)
    ensures ProblemOf(subject, before).kind == if subject == DependencyAudit then "cve" else "image_cve"
  {
    var a, b := Join(SortedIds(before), ','), Join(SortedIds(after), ',');
    PrefixesApart(a, b);
    CommaFreeSorted(before);
    CommaFreeSorted(after);
    BareIdsSameIff(before, after);
    if a == b {
      SameTextSameIds(before, after);
    }
    if BareIds(before) == BareIds(after) {
      SameIdsSameText(before, after);
    }
  }

  function Advisory(id: string, image: string): Vuln {
    Vuln(id, "HIGH", "openssl", "3.0", ["3.1"], image, [], "")
  }

  /** So a finding can be reported as changed while the alerter sees nothing new: an advisory
      patched in one image and still present in another. */
  lemma ChangedWithoutAlert()
    ensures var before, after := [Advisory("CVE-1", "nginx"), Advisory("CVE-1", "web")], [Advisory("CVE-1", "web")];
      && Compare(VulnIdSet(before), VulnIdSet(after)) == Changed
      && ProblemOf(ImageScanFinding, before) == ProblemOf(ImageScanFinding, after)
  {
    var before, after := [Advisory("CVE-1", "nginx"), Advisory("CVE-1", "web")], [Advisory("CVE-1", "web")];
    assert before[0] in before && before[1] in before && after[0] in after;
    assert ScopedId(before[0])[0] == 'n' && ScopedId(after[0])[0] == 'w';
    assert ScopedId(before[0]) in VulnIdSet(before) && ScopedId(before[0]) !in VulnIdSet(after);
    SameIdsSameText(before, after);
  }

  /** And with a comma inside an id two different sets can read the same. */
  lemma CommaHidesAChange()
    ensures var before, after := [Advisory("A", "web"), Advisory("B", "web")], [Advisory("A,B", "web")];
      BareIds(before) != BareIds(after) && ProblemOf(ImageScanFinding, before) == ProblemOf(ImageScanFinding, after)
  {
    var before, after := [Advisory("A", "web"), Advisory("B", "web")], [Advisory("A,B", "web")];
    assert before[0] in before && "A" in BareIds(before) && "A" !in BareIds(after);
    OneId(after[0]);
    SortedPair();
    JoinedPair();
  }

  lemma JoinedPair()
    ensures Join(["A", "B"], ',') == Join(["A,B"], ',')
  {
    assert Join(["A", "B"], ',') == "A" + [','] + Join(["B"], ',');
  }

  lemma SortedPair()
    ensures SortedIds([Advisory("A", "web"), Advisory("B", "web")]) == ["A", "B"]
  {
    var pair := [Advisory("A", "web"), Advisory("B", "web")];
    assert pair[..1] == [pair[0]];
    OneId(pair[0]);
    assert "B" !in BareIds(pair[..1]);
    assert TextLe("A", "B");
    assert InsertText(["A"], "B") == ["A"] + ["B"];
  }

  lemma OneId(v: Vuln)
    requires v.id != ""
    ensures SortedIds([v]) == [v.id]
  {
    assert [v][..0] == [];
  }
}
