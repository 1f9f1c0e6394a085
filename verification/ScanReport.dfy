/** The host half of the image scan: trivy reports in, one document and one verdict out. */
module ScanReport {
  import opened Options

  /** One advisory as trivy reports it; absent text fields are empty, and `fixed` holds the
      comma-separated fix candidates already split and trimmed. */
  datatype TrivyVuln = TrivyVuln(id: string, package: string, version: string, severity: string, fixed: seq<string>, url: string)

  /** One parsed report: its advisories grouped by result, and the base label. */
  datatype Report = Report(results: seq<seq<TrivyVuln>>, os: string)

  datatype Target = Target(key: string, image: string, imageId: string, services: seq<string>, containers: seq<string>, error: string)

  datatype Vuln = Vuln(
    id: string,
    severity: string,
    package: string,
    version: string,
    fixVersions: seq<string>,
    image: string,
    services: seq<string>,
    url: string)

  /** A claimed time. A stamp can have the form of a time and be none, such as one in a thirteenth
      month; anything else unreadable counts as absent. */
  datatype Stamp = Unstamped | Stamped(time: int) | NoSuchTime

  datatype ImageRow = ImageRow(image: string, imageId: string, services: seq<string>, containers: seq<string>,
                               os: string, vulnCount: nat, fixableCount: nat)

  datatype UnscannableRow = UnscannableRow(image: string, imageId: string, services: seq<string>, containers: seq<string>, error: string)

  datatype ScanStatus = Ok | Vulnerable | Error

  datatype Document = Document(
    schema: int,
    status: ScanStatus,
    complete: bool,
    imageCount: int,
    scannedCount: int,
    vulnCount: int,
    fixableCount: int,
    truncated: bool,
    images: seq<ImageRow>,
    unscannable: seq<UnscannableRow>,
    vulns: seq<Vuln>,
    asOf: Stamp)

  const SCHEMA_VERSION := 1
  const MAX_REPORTED := 200

  // --- Flattening one report -------------------------------------------------

  /** Python's upper-casing, on the ASCII letters severities are made of. */
  function UpperText(s: string): (u: string)
    ensures |u| == |s|
  {
    seq(|s|, i requires 0 <= i < |s| => if 'a' <= s[i] <= 'z' then s[i] - 'a' + 'A' else s[i])
  }

  function NonBlank(pieces: seq<string>): (r: seq<string>)
    ensures forall p | p in r :: p != "" && p in pieces
  {
    if pieces == [] then [] else
      var last := pieces[|pieces| - 1];
      if last == "" then NonBlank(pieces[..|pieces| - 1]) else NonBlank(pieces[..|pieces| - 1]) + [last]
  }

  function RecordOf(v: TrivyVuln): Vuln {
    Vuln(v.id, UpperText(if v.severity == "" then "UNKNOWN" else v.severity), v.package, v.version, NonBlank(v.fixed), "", [], v.url)
  }

  datatype AdvisoryKey = AdvisoryKey(id: string, package: string, version: string)

  function KeyOf(v: TrivyVuln): AdvisoryKey {
    AdvisoryKey(v.id, v.package, v.version)
  }

  function RecordKey(v: Vuln): AdvisoryKey {
    AdvisoryKey(v.id, v.package, v.version)
  }

  function RecordKeys(vulns: seq<Vuln>): set<AdvisoryKey> {
    set v | v in vulns :: RecordKey(v)
  }

  /** Each identified advisory once, where it first occurs. */
  function FirstOccurrences(flat: seq<TrivyVuln>): seq<Vuln> {
    if flat == [] then [] else
      var v := flat[|flat| - 1];
      var before := FirstOccurrences(flat[..|flat| - 1]);
      if v.id == "" || KeyOf(v) in RecordKeys(before) then before else before + [RecordOf(v)]
  }

  function Flatten(results: seq<seq<TrivyVuln>>): seq<TrivyVuln> {
    if results == [] then [] else Flatten(results[..|results| - 1]) + results[|results| - 1]
  }

  function Found(report: Report): seq<Vuln> {
    FirstOccurrences(Flatten(report.results))
  }

  /** Position `i` holds the first record of an identified advisory. */
  predicate IsFirst(flat: seq<TrivyVuln>, i: nat)
    requires i < |flat|
  {
    && flat[i].id != ""
    && forall j | 0 <= j < i :: flat[j].id != flat[i].id || flat[j].package != flat[i].package || flat[j].version != flat[i].version
  }

  lemma {:induction false} KeysCovered(flat: seq<TrivyVuln>)
    ensures forall k :: k in RecordKeys(FirstOccurrences(flat)) <==> exists i :: 0 <= i < |flat| && flat[i].id != "" && KeyOf(flat[i]) == k
  {
    if flat != [] {
      var n := |flat| - 1;
      KeysCovered(flat[..n]);
      KeysGrow(flat[..n], flat[n]);
      assert flat == flat[..n] + [flat[n]];
      forall k
        ensures k in RecordKeys(FirstOccurrences(flat)) <==> exists i :: 0 <= i < |flat| && flat[i].id != "" && KeyOf(flat[i]) == k
      {
        if i :| 0 <= i < |flat| && flat[i].id != "" && KeyOf(flat[i]) == k {
          assert i < n ==> flat[i] == flat[..n][i];
        }
        if i :| 0 <= i < n && flat[..n][i].id != "" && KeyOf(flat[..n][i]) == k {
          assert flat[i] == flat[..n][i];
        }
      }
    }
  }

  /** What one more advisory does to the records and to the keys already seen. */
  lemma KeysGrow(flat: seq<TrivyVuln>, v: TrivyVuln)
    ensures var before := FirstOccurrences(flat);
      && FirstOccurrences(flat + [v]) == (if v.id == "" || KeyOf(v) in RecordKeys(before) then before else before + [RecordOf(v)])
      && RecordKeys(FirstOccurrences(flat + [v])) == RecordKeys(before) + if v.id == "" then {} else {KeyOf(v)}
  {
    var before := FirstOccurrences(flat);
    assert (flat + [v])[..|flat|] == flat;
    KeysOfAppend(before, RecordOf(v));
  }

  lemma KeysOfAppend(vulns: seq<Vuln>, v: Vuln)
    ensures RecordKeys(vulns + [v]) == RecordKeys(vulns) + {RecordKey(v)}
  {
    assert forall x | x in vulns :: x in vulns + [v];
    assert v in vulns + [v];
    assert forall x | x in vulns + [v] :: x in vulns || x == v;
  }

  /** Being first is decided by what came before. */
  lemma FirstInPrefix(flat: seq<TrivyVuln>, i: nat)
    requires i < |flat| - 1
    ensures IsFirst(flat, i) <==> IsFirst(flat[..|flat| - 1], i)
  {
    assert forall j | 0 <= j <= i :: flat[j] == flat[..|flat| - 1][j];
  }

  lemma LastIsFirst(flat: seq<TrivyVuln>)
    requires flat != []
    ensures IsFirst(flat, |flat| - 1) <==>
      flat[|flat| - 1].id != "" && KeyOf(flat[|flat| - 1]) !in RecordKeys(FirstOccurrences(flat[..|flat| - 1]))
  {
    var n := |flat| - 1;
    KeysCovered(flat[..n]);
    assert forall j | 0 <= j < n :: flat[j] == flat[..n][j];
  }

  ghost predicate RecordOfFirst(flat: seq<TrivyVuln>, v: Vuln) {
    exists i :: 0 <= i < |flat| && IsFirst(flat, i) && v == RecordOf(flat[i])
  }

  lemma RecordOfFirstNext(flat: seq<TrivyVuln>, v: Vuln)
    requires flat != []
    ensures RecordOfFirst(flat, v) <==>
      RecordOfFirst(flat[..|flat| - 1], v) || (IsFirst(flat, |flat| - 1) && v == RecordOf(flat[|flat| - 1]))
  {
    var n := |flat| - 1;
    if RecordOfFirst(flat, v) {
      var i :| 0 <= i < |flat| && IsFirst(flat, i) && v == RecordOf(flat[i]);
      if i < n {
        FirstInPrefix(flat, i);
        assert flat[..n][i] == flat[i];
      }
    }
    if RecordOfFirst(flat[..n], v) {
      var i :| 0 <= i < n && IsFirst(flat[..n], i) && v == RecordOf(flat[..n][i]);
      FirstInPrefix(flat, i);
      assert flat[..n][i] == flat[i];
    }
  }

  /** The records are exactly those of the first occurrences: no advisory is missed or taken from a
      later duplicate. */
  lemma {:induction false} FirstOccurrencesExact(flat: seq<TrivyVuln>)
    ensures forall v :: v in FirstOccurrences(flat) <==> RecordOfFirst(flat, v)
  {
    if flat != [] {
      FirstOccurrencesExact(flat[..|flat| - 1]);
      LastIsFirst(flat);
      forall v
        ensures v in FirstOccurrences(flat) <==> RecordOfFirst(flat, v)
      {
        RecordOfFirstNext(flat, v);
      }
    }
  }

  // --- What a record takes from its advisory ------------------------------------

  /** `upper` is `text` with its lower-case letters replaced by capitals. */
  predicate Capitalised(upper: string, text: string) {
    && |upper| == |text|
    && forall i | 0 <= i < |text| ::
         if 'a' <= text[i] <= 'z' then upper[i] as int == text[i] as int - 32 else upper[i] == text[i]
  }

  /** `kept` holds the non-blank pieces, each once and in order: piece `at[k]` is the k-th of them. */
  predicate KeepsNonBlank(kept: seq<string>, pieces: seq<string>, at: seq<nat>) {
    && |at| == |kept| && (forall k | 0 <= k < |at| :: at[k] < |pieces| && kept[k] == pieces[at[k]])
    && (forall k, l | 0 <= k < l < |at| :: at[k] < at[l])
    && forall i: nat | i < |pieces| :: pieces[i] != "" <==> i in at
  }

  lemma KeepsNext(kept: seq<string>, pieces: seq<string>, at: seq<nat>, p: string)
    requires KeepsNonBlank(kept, pieces, at)
    ensures p != "" ==> KeepsNonBlank(kept + [p], pieces + [p], at + [|pieces|])
    ensures p == "" ==> KeepsNonBlank(kept, pieces + [p], at)
  {
  }

  lemma {:induction false} NonBlankKeeps(pieces: seq<string>) returns (at: seq<nat>)
    ensures KeepsNonBlank(NonBlank(pieces), pieces, at)
  {
    if pieces == [] {
      at := [];
    } else {
      var n := |pieces| - 1;
      at := NonBlankKeeps(pieces[..n]);
      KeepsNext(NonBlank(pieces[..n]), pieces[..n], at, pieces[n]);
      assert pieces == pieces[..n] + [pieces[n]];
      at := if pieces[n] == "" then at else at + [n];
    }
  }

  /** The record shows the advisory's own fields, an absent severity as UNKNOWN, and no image yet. */
  ghost predicate Shows(v: Vuln, a: TrivyVuln) {
    && v.id == a.id && v.package == a.package && v.version == a.version && v.url == a.url
    && v.image == "" && v.services == []
    && Capitalised(v.severity, if a.severity == "" then "UNKNOWN" else a.severity)
    && exists at: seq<nat> :: KeepsNonBlank(v.fixVersions, a.fixed, at)
  }

  lemma RecordShows(a: TrivyVuln)
    ensures Shows(RecordOf(a), a)
  {
    var at := NonBlankKeeps(a.fixed);
  }

  /** Every record shows the first occurrence of an identified advisory, and every such first occurrence is
      shown by a record. */
  lemma RecordsShowAdvisories(flat: seq<TrivyVuln>)
    ensures forall v | v in FirstOccurrences(flat) :: exists i :: 0 <= i < |flat| && IsFirst(flat, i) && Shows(v, flat[i])
    ensures forall i | 0 <= i < |flat| && IsFirst(flat, i) :: exists v :: v in FirstOccurrences(flat) && Shows(v, flat[i])
  {
    FirstOccurrencesExact(flat);
    forall v | v in FirstOccurrences(flat)
      ensures exists i :: 0 <= i < |flat| && IsFirst(flat, i) && Shows(v, flat[i])
    {
      assert RecordOfFirst(flat, v);
      var i :| 0 <= i < |flat| && IsFirst(flat, i) && v == RecordOf(flat[i]);
      RecordShows(flat[i]);
    }
    forall i | 0 <= i < |flat| && IsFirst(flat, i)
      ensures exists v :: v in FirstOccurrences(flat) && Shows(v, flat[i])
    {
      RecordShows(flat[i]);
      assert RecordOfFirst(flat, RecordOf(flat[i]));
    }
  }

  /** No advisory is counted twice. */
  lemma {:induction false} RecordsDistinct(flat: seq<TrivyVuln>)
    ensures forall i, j | 0 <= i < j < |FirstOccurrences(flat)| :: var a, b := FirstOccurrences(flat)[i], FirstOccurrences(flat)[j];
      a.id != b.id || a.package != b.package || a.version != b.version
  {
    if flat != [] {
      var before, out := FirstOccurrences(flat[..|flat| - 1]), FirstOccurrences(flat);
      RecordsDistinct(flat[..|flat| - 1]);
      forall i, j | 0 <= i < j < |out|
        ensures RecordKey(out[i]) != RecordKey(out[j])
        ensures out[i].id != out[j].id || out[i].package != out[j].package || out[i].version != out[j].version
      {
        if j == |before| {
          assert before[i] in before && RecordKey(before[i]) in RecordKeys(before);
        }
      }
    }
  }

  /** One result group, read after the advisories in `done`. */
  method ExtractResult(result: seq<TrivyVuln>, ghost done: seq<TrivyVuln>, before: seq<Vuln>, seenBefore: set<AdvisoryKey>)
    returns (out: seq<Vuln>, seen: set<AdvisoryKey>)
    requires before == FirstOccurrences(done) && seenBefore == RecordKeys(before)
    ensures out == FirstOccurrences(done + result) && seen == RecordKeys(out)
  {
    out, seen := before, seenBefore;
    assert done + result[..0] == done;
    var i := 0;
    while i < |result|
      invariant 0 <= i <= |result|
      invariant out == FirstOccurrences(done + result[..i]) && seen == RecordKeys(out)
    {
      var v := result[i];
      KeysGrow(done + result[..i], v);
      assert done + result[..i] + [v] == done + result[..i + 1];
      if v.id != "" && KeyOf(v) !in seen {
        seen := seen + {KeyOf(v)};
        out := out + [RecordOf(v)];
      }
      i := i + 1;
    }
    assert result[..|result|] == result;
  }

  method ExtractVulns(report: Report) returns (out: seq<Vuln>)
    ensures out == Found(report)
  {
    var seen: set<AdvisoryKey> := {};
    out := [];
    var r := 0;
    while r < |report.results|
      invariant 0 <= r <= |report.results|
      invariant out == FirstOccurrences(Flatten(report.results[..r])) && seen == RecordKeys(out)
    {
      out, seen := ExtractResult(report.results[r], Flatten(report.results[..r]), out, seen);
      assert report.results[..r + 1][..r] == report.results[..r];
      r := r + 1;
    }
    assert report.results[..r] == report.results;
  }

  // --- The worst-first order -------------------------------------------------

  function SeverityRank(severity: string): nat {
    if severity == "CRITICAL" then 0
    else if severity == "HIGH" then 1
    else if severity == "MEDIUM" then 2
    else if severity == "LOW" then 3
    else if severity == "UNKNOWN" then 4
    else 9
  }

  /** Code-point order of text. */
  predicate TextLe(a: string, b: string) {
    if a == [] then true
    else if b == [] then false
    else a[0] < b[0] || (a[0] == b[0] && TextLe(a[1..], b[1..]))
  }

  predicate Fixable(v: Vuln) {
    v.fixVersions != []
  }

  /** Severity first, then fixable before unfixable, then image, id and package. */
  predicate KeyLe(a: Vuln, b: Vuln) {
    var ra, rb := SeverityRank(a.severity), SeverityRank(b.severity);
    if ra != rb then ra < rb
    else if Fixable(a) != Fixable(b) then Fixable(a)
    else if a.image != b.image then TextLe(a.image, b.image)
    else if a.id != b.id then TextLe(a.id, b.id)
    else TextLe(a.package, b.package)
  }

  lemma {:induction false} TextOrder(a: string, b: string, c: string)
    ensures TextLe(a, a)
    ensures TextLe(a, b) || TextLe(b, a)
    ensures TextLe(a, b) && TextLe(b, a) ==> a == b
    ensures TextLe(a, b) && TextLe(b, c) ==> TextLe(a, c)
  {
    if a != [] {
      if b != [] {
        TextOrder(a[1..], b[1..], if c == [] then [] else c[1..]);
        assert a == [a[0]] + a[1..] && b == [b[0]] + b[1..];
      } else {
        TextOrder(a[1..], [], []);
      }
    }
  }

  lemma KeyOrder(a: Vuln, b: Vuln, c: Vuln)
    ensures KeyLe(a, b) || KeyLe(b, a)
    ensures KeyLe(a, b) && KeyLe(b, c) ==> KeyLe(a, c)
  {
    TextOrder(a.image, b.image, c.image);
    TextOrder(a.id, b.id, c.id);
    TextOrder(a.package, b.package, c.package);
    TextOrder(b.image, c.image, a.image);
    TextOrder(b.id, c.id, a.id);
  }

  predicate SortedByKey(vulns: seq<Vuln>) {
    forall i, j | 0 <= i < j < |vulns| :: KeyLe(vulns[i], vulns[j])
  }

  /** Stable insertion: after everything that is not strictly later. */
  function Insert(sorted: seq<Vuln>, v: Vuln): (r: seq<Vuln>)
    ensures multiset(r) == multiset(sorted) + multiset{v}
    ensures |r| == |sorted| + 1
  {
    var n := |sorted|;
    if n == 0 || KeyLe(sorted[n - 1], v) then sorted + [v] else
      assert sorted == sorted[..n - 1] + [sorted[n - 1]];
      Insert(sorted[..n - 1], v) + [sorted[n - 1]]
  }

  /** The list sorted worst first, equal keys in their original order. */
  function SortVulns(vulns: seq<Vuln>): (r: seq<Vuln>)
    ensures multiset(r) == multiset(vulns) && |r| == |vulns|
  {
    if vulns == [] then [] else
      assert vulns == vulns[..|vulns| - 1] + [vulns[|vulns| - 1]];
      Insert(SortVulns(vulns[..|vulns| - 1]), vulns[|vulns| - 1])
  }

  lemma AppendKeepsSorted(sorted: seq<Vuln>, v: Vuln)
    requires SortedByKey(sorted) && forall i | 0 <= i < |sorted| :: KeyLe(sorted[i], v)
    ensures SortedByKey(sorted + [v])
  {
  }

  lemma {:induction false} InsertSorts(sorted: seq<Vuln>, v: Vuln)
    requires SortedByKey(sorted)
    ensures SortedByKey(Insert(sorted, v))
  {
    var n := |sorted|;
    if n == 0 {
    } else if KeyLe(sorted[n - 1], v) {
      forall i | 0 <= i < n
        ensures KeyLe(sorted[i], v)
      {
        KeyOrder(sorted[i], sorted[n - 1], v);
      }
      AppendKeepsSorted(sorted, v);
    } else {
      InsertSorts(sorted[..n - 1], v);
      KeyOrder(v, sorted[n - 1], v);
      InsertBelow(sorted[..n - 1], v, sorted[n - 1]);
      AppendKeepsSorted(Insert(sorted[..n - 1], v), sorted[n - 1]);
    }
  }

  lemma InsertBelow(sorted: seq<Vuln>, v: Vuln, top: Vuln)
    requires KeyLe(v, top) && forall i | 0 <= i < |sorted| :: KeyLe(sorted[i], top)
    ensures forall i | 0 <= i < |Insert(sorted, v)| :: KeyLe(Insert(sorted, v)[i], top)
  {
    var r := Insert(sorted, v);
    forall i | 0 <= i < |r|
      ensures KeyLe(r[i], top)
    {
      assert r[i] in multiset(r);
      assert r[i] in multiset(sorted) || r[i] == v;
    }
  }

  lemma {:induction false} SortSorts(vulns: seq<Vuln>)
    ensures SortedByKey(SortVulns(vulns))
  {
    if vulns != [] {
      SortSorts(vulns[..|vulns| - 1]);
      InsertSorts(SortVulns(vulns[..|vulns| - 1]), vulns[|vulns| - 1]);
    }
  }

  /** At the first place where they differ, if neither text begins the other, `a` has the lower character. */
  ghost predicate IsBefore(a: string, b: string) {
    a != b && (a <= b || exists k :: 0 <= k < |a| && k < |b| && a[..k] == b[..k] && a[k] < b[k])
  }

  lemma {:induction false} TextLeIff(a: string, b: string)
    ensures TextLe(a, b) <==> a == b || IsBefore(a, b)
  {
    if a != [] && b != [] {
      TextLeIff(a[1..], b[1..]);
      assert a == [a[0]] + a[1..] && b == [b[0]] + b[1..];
      if k :| 0 <= k < |a| && k < |b| && a[..k] == b[..k] && a[k] < b[k] {
        if k > 0 {
          assert a[0] == a[..k][0] == b[..k][0];
          assert a[1..][..k - 1] == a[..k][1..] && b[1..][..k - 1] == b[..k][1..];
        }
      }
      if a[0] == b[0] {
        if k :| 0 <= k < |a[1..]| && k < |b[1..]| && a[1..][..k] == b[1..][..k] && a[1..][k] < b[1..][k] {
          assert a[..k + 1] == [a[0]] + a[1..][..k] && b[..k + 1] == [b[0]] + b[1..][..k];
        }
      } else if a[0] < b[0] {
        assert a[..0] == b[..0];
      }
    }
  }

  const SEVERITIES: seq<string> := ["CRITICAL", "HIGH", "MEDIUM", "LOW", "UNKNOWN"]

  /** Two records that the severity and the fix do not tell apart. */
  predicate AsBad(a: Vuln, b: Vuln) {
    && (a.severity == b.severity || (a.severity !in SEVERITIES && b.severity !in SEVERITIES))
    && (a.fixVersions == [] <==> b.fixVersions == [])
  }

  /** The worst come first: of two records the later is never of a severity listed earlier, nor, at the same
      severity, the only one with a fix; and among records as bad as each other image, id and package follow
      the order of text. */
  lemma WorstFirst(vulns: seq<Vuln>, i: nat, j: nat)
    requires i < j < |vulns|
    ensures var a, b := SortVulns(vulns)[i], SortVulns(vulns)[j];
      && (forall s | 0 <= s < |SEVERITIES| && b.severity == SEVERITIES[s] :: a.severity in SEVERITIES[..s + 1])
      && (a.severity == b.severity || (a.severity !in SEVERITIES && b.severity !in SEVERITIES) ==>
            b.fixVersions != [] ==> a.fixVersions != [])
      && (AsBad(a, b) ==> a.image == b.image || IsBefore(a.image, b.image))
      && (AsBad(a, b) && a.image == b.image ==> a.id == b.id || IsBefore(a.id, b.id))
      && (AsBad(a, b) && a.image == b.image && a.id == b.id ==> a.package == b.package || IsBefore(a.package, b.package))
  {
    SortSorts(vulns);
    KeyLeSays(SortVulns(vulns)[i], SortVulns(vulns)[j]);
  }

  lemma KeyLeSays(a: Vuln, b: Vuln)
    requires KeyLe(a, b)
    ensures forall s | 0 <= s < |SEVERITIES| && b.severity == SEVERITIES[s] :: a.severity in SEVERITIES[..s + 1]
    ensures a.severity == b.severity || (a.severity !in SEVERITIES && b.severity !in SEVERITIES) ==>
      b.fixVersions != [] ==> a.fixVersions != []
    ensures AsBad(a, b) ==> a.image == b.image || IsBefore(a.image, b.image)
    ensures AsBad(a, b) && a.image == b.image ==> a.id == b.id || IsBefore(a.id, b.id)
    ensures AsBad(a, b) && a.image == b.image && a.id == b.id ==> a.package == b.package || IsBefore(a.package, b.package)
  {
    RankIs(a.severity);
    RankIs(b.severity);
    TextLeIff(a.image, b.image);
    TextLeIff(a.id, b.id);
    TextLeIff(a.package, b.package);
  }

  lemma RankIs(severity: string)
    ensures severity in SEVERITIES ==> SeverityRank(severity) < 5 && SEVERITIES[SeverityRank(severity)] == severity
    ensures severity !in SEVERITIES ==> SeverityRank(severity) >= 5
    ensures forall s, t | 0 <= s < |SEVERITIES| && 0 <= t < |SEVERITIES| && SEVERITIES[s] == SEVERITIES[t] :: s == t
    ensures forall s | 0 <= s < |SEVERITIES| && SEVERITIES[s] == severity :: SeverityRank(severity) == s
  {
  }

  // --- Assembling the document -----------------------------------------------

  type Reports = map<string, Option<Report>>

  /** The report a target was scanned into, unless it failed or could not be attempted. */
  function ScanOf(t: Target, reports: Reports): Option<Report> {
    if t.error != "" || t.key !in reports then None else reports[t.key]
  }

  function FixableCount(vulns: seq<Vuln>): nat {
    if vulns == [] then 0 else FixableCount(vulns[..|vulns| - 1]) + if Fixable(vulns[|vulns| - 1]) then 1 else 0
  }

  function Placed(vulns: seq<Vuln>, t: Target): (r: seq<Vuln>)
    ensures |r| == |vulns|
    ensures forall i | 0 <= i < |r| :: r[i] == vulns[i].(image := t.image, services := t.services)
  {
    seq(|vulns|, i requires 0 <= i < |vulns| => vulns[i].(image := t.image, services := t.services))
  }

  function ImageOf(t: Target, report: Report): ImageRow {
    var found := Found(report);
    ImageRow(t.image, t.imageId, t.services, t.containers, report.os, |found|, FixableCount(found))
  }

  function UnscannableOf(t: Target): UnscannableRow {
    UnscannableRow(t.image, t.imageId, t.services, t.containers, if t.error != "" then t.error else "trivy did not produce a report")
  }

  function Images(targets: seq<Target>, reports: Reports): seq<ImageRow> {
    if targets == [] then [] else
      var t := targets[|targets| - 1];
      var before := Images(targets[..|targets| - 1], reports);
      if ScanOf(t, reports).None? then before else before + [ImageOf(t, ScanOf(t, reports).value)]
  }

  function Unscannable(targets: seq<Target>, reports: Reports): seq<UnscannableRow> {
    if targets == [] then [] else
      var t := targets[|targets| - 1];
      var before := Unscannable(targets[..|targets| - 1], reports);
      if ScanOf(t, reports).None? then before + [UnscannableOf(t)] else before
  }

  function AllVulns(targets: seq<Target>, reports: Reports): seq<Vuln> {
    if targets == [] then [] else
      var t := targets[|targets| - 1];
      var before := AllVulns(targets[..|targets| - 1], reports);
      if ScanOf(t, reports).None? then before else before + Placed(Found(ScanOf(t, reports).value), t)
  }

  function Clip<T>(items: seq<T>, limit: nat): (r: seq<T>)
    ensures |r| == if |items| > limit then limit else |items|
    ensures r == items[..|r|]
  {
    if |items| > limit then items[..limit] else items
  }

  function BuiltDocument(targets: seq<Target>, reports: Reports, asOf: Stamp): Document {
    var images, unscannable := Images(targets, reports), Unscannable(targets, reports);
    var vulns := SortVulns(AllVulns(targets, reports));
    Document(
      SCHEMA_VERSION,
      if images == [] then Error else if vulns != [] then Vulnerable else Ok,
      unscannable == [] && images != [],
      |targets|, |images|, |vulns|, FixableCount(vulns), |vulns| > MAX_REPORTED,
      images, unscannable, Clip(vulns, MAX_REPORTED), asOf)
  }

  /** What the next target adds to the three lists. */
  lemma NextTarget(targets: seq<Target>, reports: Reports, i: nat)
    requires i < |targets|
    ensures var t, scan := targets[i], ScanOf(targets[i], reports);
      && Images(targets[..i + 1], reports) == Images(targets[..i], reports) + (if scan.None? then [] else [ImageOf(t, scan.value)])
      && Unscannable(targets[..i + 1], reports) == Unscannable(targets[..i], reports) + (if scan.None? then [UnscannableOf(t)] else [])
      && AllVulns(targets[..i + 1], reports) == AllVulns(targets[..i], reports) + (if scan.None? then [] else Placed(Found(scan.value), t))
  {
    assert targets[..i + 1][..i] == targets[..i];
  }

  method BuildDocument(targets: seq<Target>, reports: Reports, asOf: Stamp) returns (doc: Document)
    ensures doc == BuiltDocument(targets, reports, asOf)
  {
    var images: seq<ImageRow>, unscannable: seq<UnscannableRow>, vulns: seq<Vuln> := [], [], [];
    var i := 0;
    while i < |targets|
      invariant 0 <= i <= |targets|
      invariant images == Images(targets[..i], reports) && unscannable == Unscannable(targets[..i], reports)
      invariant vulns == AllVulns(targets[..i], reports)
    {
      var t := targets[i];
      NextTarget(targets, reports, i);
      var raw := if t.key in reports then reports[t.key] else None;
      if t.error != "" || raw.None? {
        unscannable := unscannable + [UnscannableOf(t)];
      } else {
        var found := ExtractVulns(raw.value);
        vulns := vulns + Placed(found, t);
        images := images + [ImageRow(t.image, t.imageId, t.services, t.containers, raw.value.os, |found|, FixableCount(found))];
      }
      i := i + 1;
    }
    assert targets[..i] == targets;
    vulns := SortVulns(vulns);
    var fixable := FixableCount(vulns);
    var status := if images == [] then Error else if vulns != [] then Vulnerable else Ok;
    doc := Document(SCHEMA_VERSION, status, unscannable == [] && images != [], |targets|, |images|, |vulns|, fixable,
                    |vulns| > MAX_REPORTED, images, unscannable, Clip(vulns, MAX_REPORTED), asOf);
  }

  datatype Exit = ExitOk | ExitFindings | ExitIncomplete

  /** The process exit code of a document: incompleteness outranks findings. */
  function Verdict(doc: Document): Exit {
    if doc.status == Error || !doc.complete then ExitIncomplete
    else if doc.fixableCount > 0 then ExitFindings
    else ExitOk
  }
}
