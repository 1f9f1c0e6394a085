/** The app half of the image scan: validate an untrusted document, decide what it establishes,
    store one row, and say how much that row is worth later. Times are whole seconds. */
module ImageScan {
  import opened Options
  import opened ScanReport

  /** One field of an untrusted document. A wrong type is any value the reader cannot use there:
      for a count that includes booleans, for a list any element that is not a record. */
  datatype Field<+T> = Missing | WrongType | Given(value: T)

  /** The status field; a list or an object cannot be looked up among the known statuses at all. */
  datatype StatusField = NoStatus | Text(value: string) | OtherScalar | ListOrObject

  /** A delivered document. A true or 1.0 in the schema field equals one, and arrives as the number. */
  datatype RawDocument =
    | Unparseable
    | NestedTooDeep
    | NotAnObject
    | RawDocument(
        schema: Field<int>,
        status: StatusField,
        complete: Field<bool>,
        imageCount: Field<int>,
        scannedCount: Field<int>,
        vulnCount: Field<int>,
        fixableCount: Field<int>,
        truncated: bool,
        images: Field<seq<ImageRow>>,
        unscannable: Field<seq<UnscannableRow>>,
        vulns: Field<seq<Vuln>>,
        asOf: Stamp)

  const MAX_STORED := 100
  const MAX_AGE: int := 36 * 60 * 60

  function StatusText(status: ScanStatus): string {
    match status
    case Ok => "ok"
    case Vulnerable => "vulnerable"
    case Error => "error"
  }

  function ParseStatus(text: string): Option<ScanStatus> {
    if text == "ok" then Some(Ok)
    else if text == "vulnerable" then Some(Vulnerable)
    else if text == "error" then Some(Error)
    else None
  }

  predicate IsCount(f: Field<int>) {
    f.Given? && f.value >= 0
  }

  /** Every field the later rules branch on has the type those rules need. */
  predicate ValidShape(raw: RawDocument) {
    && raw.RawDocument?
    && raw.schema == Given(SCHEMA_VERSION)
    && raw.status.Text? && ParseStatus(raw.status.value).Some?
    && raw.complete.Given?
    && IsCount(raw.imageCount) && IsCount(raw.scannedCount) && IsCount(raw.vulnCount) && IsCount(raw.fixableCount)
    && raw.images.Given? && raw.unscannable.Given? && raw.vulns.Given?
  }

  function Typed(raw: RawDocument): Document
    requires ValidShape(raw)
  {
    Document(raw.schema.value, ParseStatus(raw.status.value).value, raw.complete.value,
             raw.imageCount.value, raw.scannedCount.value, raw.vulnCount.value, raw.fixableCount.value, raw.truncated,
             raw.images.value, raw.unscannable.value, raw.vulns.value, raw.asOf)
  }

  /** A producer's document as it arrives. */
  function Delivered(doc: Document): RawDocument {
    RawDocument(Given(doc.schema), Text(StatusText(doc.status)), Given(doc.complete),
                Given(doc.imageCount), Given(doc.scannedCount), Given(doc.vulnCount), Given(doc.fixableCount), doc.truncated,
                Given(doc.images), Given(doc.unscannable), Given(doc.vulns), doc.asOf)
  }

  datatype Contradiction =
    | ScannedTooMany | ImageListMismatch | TooManyFixable | TruncatedNothing | FindingListMismatch
    | CleanWithFindings | FindingsWithoutList | ErrorWithImages | CompleteWithUnscannable | CompleteButMissed

  /** The first way in which a document contradicts itself. */
  function Inconsistency(doc: Document): Option<Contradiction> {
    if doc.scannedCount > doc.imageCount then Some(ScannedTooMany)
    else if |doc.images| != doc.scannedCount then Some(ImageListMismatch)
    else if doc.fixableCount > doc.vulnCount then Some(TooManyFixable)
    else if doc.truncated && |doc.vulns| >= doc.vulnCount then Some(TruncatedNothing)
    else if !doc.truncated && |doc.vulns| != doc.vulnCount then Some(FindingListMismatch)
    else if doc.status == Ok && doc.vulnCount != 0 then Some(CleanWithFindings)
    else if doc.status == Vulnerable && doc.vulnCount == 0 then Some(FindingsWithoutList)
    else if doc.status == Error && doc.images != [] then Some(ErrorWithImages)
    else if doc.complete && doc.unscannable != [] then Some(CompleteWithUnscannable)
    else if doc.complete && (doc.scannedCount == 0 || doc.scannedCount != doc.imageCount) then Some(CompleteButMissed)
    else None
  }

  predicate Accepted(raw: RawDocument) {
    ValidShape(raw) && Inconsistency(Typed(raw)).None?
  }

  datatype Check = Passed | Refused | Raised

  /** The shape check in the order it runs, which decides whether a bad status is refused or raises. */
  function CheckShape(raw: RawDocument): Check {
    match raw
    case NestedTooDeep => Raised
    case Unparseable => Refused
    case NotAnObject => Refused
    case RawDocument(_, _, _, _, _, _, _, _, _, _, _, _) =>
      if raw.schema != Given(SCHEMA_VERSION) then Refused
      else if raw.status.ListOrObject? then Raised
      else if !raw.status.Text? || ParseStatus(raw.status.value).None? then Refused
      else if !raw.complete.Given? then Refused
      else if !(IsCount(raw.imageCount) && IsCount(raw.scannedCount) && IsCount(raw.vulnCount) && IsCount(raw.fixableCount)) then Refused
      else if !(raw.images.Given? && raw.unscannable.Given? && raw.vulns.Given?) then Refused
      else Passed
  }

  /** Deliveries that end in an error nobody catches, before any row is written. */
  predicate Escapes(raw: RawDocument) {
    || raw.NestedTooDeep?
    || (raw.RawDocument? && raw.schema == Given(SCHEMA_VERSION) && raw.status.ListOrObject?)
    || (Accepted(raw) && raw.asOf.NoSuchTime?)
  }

  /** What a run established; findings outrank incompleteness. */
  function DerivedStatus(doc: Document): ScanStatus {
    if doc.status == Error then Error
    else if doc.vulnCount > 0 then Vulnerable
    else if !doc.complete then Error
    else Ok
  }

  function ClipText(s: string, limit: nat): string {
    Clip(s, limit)
  }

  function ClipTexts(items: seq<string>, limit: nat, itemLimit: nat): (r: seq<string>)
    ensures |r| == if |items| > limit then limit else |items|
  {
    var kept := Clip(items, limit);
    seq(|kept|, i requires 0 <= i < |kept| => Clip(kept[i], itemLimit))
  }

  /** One finding as stored: every field bounded. */
  function StoredVuln(v: Vuln): Vuln {
    Vuln(ClipText(v.id, 64), UpperText(ClipText(v.severity, 16)), ClipText(v.package, 128), ClipText(v.version, 64),
         ClipTexts(v.fixVersions, 6, 64), ClipText(v.image, 200), ClipTexts(v.services, 12, 200), ClipText(v.url, 300))
  }

  function StoredOf(vulns: seq<Vuln>): (r: seq<Vuln>)
    ensures |r| <= |vulns|
  {
    if vulns == [] then [] else
      var v := vulns[|vulns| - 1];
      StoredOf(vulns[..|vulns| - 1]) + if v.id == "" then [] else [StoredVuln(v)]
  }

  /** The findings kept in the row: the head of the list, unidentified ones dropped. */
  function VulnRecords(vulns: seq<Vuln>): seq<Vuln> {
    StoredOf(Clip(vulns, MAX_STORED))
  }

  /** The stored row. */
  datatype Summary = Summary(
    asOf: int,
    ingestedAt: int,
    maxAge: int,
    status: ScanStatus,
    complete: bool,
    imageCount: int,
    scannedCount: int,
    vulnCount: int,
    fixableCount: int,
    truncated: bool,
    vulns: seq<Vuln>)

  /** The freshness clock never starts later than ingest. */
  function EffectiveAsOf(claimed: Stamp, now: int): int {
    if claimed.Stamped? && claimed.time < now then claimed.time else now
  }

  function ErrorSummary(now: int): Summary {
    Summary(now, now, MAX_AGE, Error, false, 0, 0, 0, 0, false, [])
  }

  function IngestedSummary(raw: RawDocument, now: int): Summary
    requires !Escapes(raw)
  {
    if !Accepted(raw) then ErrorSummary(now) else
      var doc := Typed(raw);
      var vulns := VulnRecords(doc.vulns);
      Summary(EffectiveAsOf(doc.asOf, now), now, MAX_AGE, DerivedStatus(doc), doc.complete, doc.imageCount, doc.scannedCount,
              doc.vulnCount, doc.fixableCount, doc.truncated || |vulns| < doc.vulnCount, vulns)
  }

  // --- What a document has to say ------------------------------------------------

  /** Every field the checks branch on is there in its right type, and counts, lists, status and completeness
      agree with each other. */
  predicate IsCoherent(raw: RawDocument) {
    && raw.RawDocument? && raw.schema == Given(1) && raw.status.Text? && raw.complete.Given?
    && raw.imageCount.Given? && raw.scannedCount.Given? && raw.vulnCount.Given? && raw.fixableCount.Given?
    && raw.images.Given? && raw.unscannable.Given? && raw.vulns.Given?
    && |raw.images.value| == raw.scannedCount.value <= raw.imageCount.value
    && 0 <= raw.fixableCount.value <= raw.vulnCount.value
    && (if raw.truncated then |raw.vulns.value| < raw.vulnCount.value else |raw.vulns.value| == raw.vulnCount.value)
    && (|| (raw.status.value == "ok" && raw.vulnCount.value == 0)
        || (raw.status.value == "vulnerable" && raw.vulnCount.value > 0)
        || (raw.status.value == "error" && raw.images.value == []))
    && (raw.complete.value ==>
          raw.unscannable.value == [] && raw.images.value != [] && raw.imageCount.value == |raw.images.value|)
  }

  /** The document says that every image was scanned, at least one, and that nothing was found. */
  predicate SaysClean(raw: RawDocument) {
    && raw.RawDocument? && raw.schema == Given(1) && raw.status == StatusField.Text("ok") && raw.complete == Given(true)
    && raw.images.Given? && raw.images.value != []
    && raw.imageCount == raw.scannedCount == Given(|raw.images.value|)
    && raw.unscannable == Given([]) && raw.vulns == Given([])
    && raw.vulnCount == raw.fixableCount == Given(0) && !raw.truncated
  }

  /** `kept` is the first `limit` characters of `text`, all of it when it is no longer. */
  predicate IsCut(kept: string, text: string, limit: nat) {
    kept <= text && |kept| == if |text| > limit then limit else |text|
  }

  predicate AreCut(kept: seq<string>, texts: seq<string>, limit: nat, itemLimit: nat) {
    && |kept| == (if |texts| > limit then limit else |texts|)
    && forall i | 0 <= i < |kept| :: IsCut(kept[i], texts[i], itemLimit)
  }

  /** A finding as the row keeps it: every field cut to its own length, the severity in capitals. */
  predicate IsStored(r: Vuln, v: Vuln) {
    && IsCut(r.id, v.id, 64) && IsCut(r.package, v.package, 128) && IsCut(r.version, v.version, 64)
    && IsCut(r.image, v.image, 200) && IsCut(r.url, v.url, 300)
    && Capitalised(r.severity, if |v.severity| > 16 then v.severity[..16] else v.severity)
    && AreCut(r.fixVersions, v.fixVersions, 6, 64) && AreCut(r.services, v.services, 12, 200)
  }

  lemma StoredVulnIs(v: Vuln)
    ensures IsStored(StoredVuln(v), v)
  {
  }

  lemma {:induction false} StoredFrom(vulns: seq<Vuln>)
    ensures forall r | r in StoredOf(vulns) :: exists v :: v in vulns && v.id != "" && IsStored(r, v)
  {
    if vulns != [] {
      var n := |vulns| - 1;
      StoredFrom(vulns[..n]);
      StoredVulnIs(vulns[n]);
      assert vulns[n] in vulns && forall v | v in vulns[..n] :: v in vulns;
      forall r | r in StoredOf(vulns)
        ensures exists v :: v in vulns && v.id != "" && IsStored(r, v)
      {
        if r in StoredOf(vulns[..n]) {
          var v :| v in vulns[..n] && v.id != "" && IsStored(r, v);
        } else {
          assert r == StoredVuln(vulns[n]);
        }
      }
    }
  }

  /** The one stored row per control. */
  class ScanStore {
    var row: Option<Summary>

    constructor ()
      ensures row == None
    {
      row := None;
    }

    /** Validate, store and return. A refused document is stored as an error; one whose handling ends
        in an uncaught error (`None`) leaves the old row in place. */
    method IngestDocument(raw: RawDocument, now: int) returns (summary: Option<Summary>)
      modifies this
      ensures summary.None? <==>
        || raw.NestedTooDeep?
        || (raw.RawDocument? && raw.schema == Given(1) && raw.status.ListOrObject?)
        || (IsCoherent(raw) && raw.asOf.NoSuchTime?)
      ensures row == if summary.Some? then summary else old(row)
      ensures summary.Some? ==> !Escapes(raw) && summary.value == IngestedSummary(raw, now)
      ensures summary.Some? && summary.value.status == Ok <==> SaysClean(raw) && !raw.asOf.NoSuchTime?
      ensures summary.Some? && !IsCoherent(raw) ==>
        summary.value == Summary(now, now, 129600, Error, false, 0, 0, 0, 0, false, [])
      ensures summary.Some? ==> summary.value.asOf <= summary.value.ingestedAt == now
    {
      EscapesIff(raw);
      if !Escapes(raw) {
        StoredExactly(raw, now);
      }
      var check := CheckShape(raw);
      if check.Raised? {
        return None;
      }
      if check.Refused? || Inconsistency(Typed(raw)).Some? {
        summary := Some(ErrorSummary(now));
      } else {
        var doc := Typed(raw);
        var status := DerivedStatus(doc);
        var vulns := VulnRecords(doc.vulns);
        if raw.asOf.NoSuchTime? {
          return None;
        }
        summary := Some(Summary(EffectiveAsOf(doc.asOf, now), now, MAX_AGE, status, doc.complete, doc.imageCount, doc.scannedCount,
                                doc.vulnCount, doc.fixableCount, doc.truncated || |vulns| < doc.vulnCount, vulns));
      }
      row := summary;
    }
  }

  // --- "Could not tell" never reads as "clean" -------------------------------

  /** A stored `ok` is exactly a document that scanned every one of its images, at least one, left none out,
      found nothing and lists nothing. */
  lemma AcceptedCleanIff(raw: RawDocument)
    requires !Escapes(raw)
    ensures forall now :: IngestedSummary(raw, now).status == Ok <==> SaysClean(raw)
  {
    if Accepted(raw) {
      StatusRead(raw.status.value);
      assert Inconsistency(Typed(raw)).None?;
    }
  }

  lemma StatusRead(text: string)
    ensures ParseStatus(text) == Some(Ok) <==> text == "ok"
    ensures ParseStatus(text) == Some(Vulnerable) <==> text == "vulnerable"
    ensures ParseStatus(text) == Some(Error) <==> text == "error"
  {
  }

  lemma AcceptedIff(raw: RawDocument)
    ensures Accepted(raw) <==> IsCoherent(raw)
  {
    if raw.RawDocument? && raw.status.Text? {
      StatusRead(raw.status.value);
    }
  }

  /** What is stored: the document's own counts when it is coherent, with a time that is the claimed one
      unless it lies ahead; otherwise an error that counts nothing. */
  lemma StoredExactly(raw: RawDocument, now: int)
    requires !Escapes(raw)
    ensures var s := IngestedSummary(raw, now);
      && (!IsCoherent(raw) ==> s == Summary(now, now, 129600, Error, false, 0, 0, 0, 0, false, []))
      && (IsCoherent(raw) ==>
            && s.asOf == (if raw.asOf.Stamped? && raw.asOf.time < now then raw.asOf.time else now)
            && s.ingestedAt == now && s.maxAge == 129600 && s.complete == raw.complete.value
            && s.imageCount == raw.imageCount.value && s.scannedCount == raw.scannedCount.value
            && s.vulnCount == raw.vulnCount.value && s.fixableCount == raw.fixableCount.value
            && (s.status == Ok <==> SaysClean(raw))
            && (s.status == Vulnerable <==> raw.vulnCount.value > 0 && raw.status.value != "error")
            && |s.vulns| <= 100
            && forall r | r in s.vulns :: exists v :: v in Clip(raw.vulns.value, 100) && v.id != "" && IsStored(r, v))
  {
    AcceptedIff(raw);
    if Accepted(raw) {
      StatusRead(raw.status.value);
      AcceptedCleanIff(raw);
      assert Inconsistency(Typed(raw)).None?;
      StoredFrom(Clip(raw.vulns.value, MAX_STORED));
    }
  }

  lemma EscapesIff(raw: RawDocument)
    ensures Escapes(raw) <==>
      || raw.NestedTooDeep?
      || (raw.RawDocument? && raw.schema == Given(1) && raw.status.ListOrObject?)
      || (IsCoherent(raw) && raw.asOf.NoSuchTime?)
  {
    AcceptedIff(raw);
  }

  /** What such a document then really says: at least one image, every image scanned, none left
      out, nothing listed. */
  lemma CleanMeansEverythingScanned(raw: RawDocument, now: int)
    requires !Escapes(raw) && IngestedSummary(raw, now).status == Ok
    ensures raw.scannedCount.value == raw.imageCount.value == |raw.images.value| && |raw.images.value| >= 1
    ensures raw.unscannable.value == [] && raw.vulns.value == [] && raw.fixableCount.value == 0
    ensures raw.status.value == "ok"
  {
    assert Inconsistency(Typed(raw)).None?;
    assert ParseStatus(raw.status.value).value != Error;
  }

  lemma {:induction false} StoredOfLength(vulns: seq<Vuln>)
    ensures |StoredOf(vulns)| == |vulns| <==> forall v | v in vulns :: v.id != ""
  {
    if vulns != [] {
      var n := |vulns| - 1;
      StoredOfLength(vulns[..n]);
      assert vulns == vulns[..n] + [vulns[n]];
    }
  }

  /** The stored flag says exactly whether the stored list is shorter than the count. */
  lemma TruncatedIff(raw: RawDocument, now: int)
    requires !Escapes(raw)
    ensures IngestedSummary(raw, now).truncated <==> |IngestedSummary(raw, now).vulns| < IngestedSummary(raw, now).vulnCount
    ensures |IngestedSummary(raw, now).vulns| <= IngestedSummary(raw, now).vulnCount
  {
    if Accepted(raw) {
      assert |VulnRecords(raw.vulns.value)| <= |raw.vulns.value|;
    }
  }

  /** A stored list is short of its count exactly when the producer clipped it, it was longer than a row
      holds, or a finding on it has no id. */
  lemma TruncatedWhen(raw: RawDocument, now: int)
    requires !Escapes(raw) && IsCoherent(raw)
    ensures IngestedSummary(raw, now).truncated <==>
      raw.truncated || |raw.vulns.value| > 100 || exists v | v in raw.vulns.value :: v.id == ""
  {
    AcceptedIff(raw);
    StoredOfLength(Clip(raw.vulns.value, MAX_STORED));
  }

  // --- Freshness -------------------------------------------------------------

  datatype Effective = Unknown | Known(status: ScanStatus)

  /** What the stored row is worth at `now`. */
  function EffectiveStatus(row: Option<Summary>, now: int): Effective {
    if row.None? then Unknown
    else if now - row.value.asOf > row.value.maxAge || row.value.status == Error then Unknown
    else Known(row.value.status)
  }

  datatype Delivery = Delivery(raw: RawDocument, at: int)

  /** The stored row after a run of deliveries: an escaping one leaves it as it was. */
  function RowAfter(log: seq<Delivery>): Option<Summary> {
    if log == [] then None else
      var before, last := log[..|log| - 1], log[|log| - 1];
      if Escapes(last.raw) then RowAfter(before) else Some(IngestedSummary(last.raw, last.at))
  }

  /** Delivery `n` is the last one that wrote a row. */
  ghost predicate LastWritten(log: seq<Delivery>, n: nat) {
    n < |log| && !Escapes(log[n].raw) && forall k | n < k < |log| :: Escapes(log[k].raw)
  }

  lemma {:induction false} RowOfLastWritten(log: seq<Delivery>) returns (n: nat)
    requires RowAfter(log).Some?
    ensures LastWritten(log, n) && RowAfter(log) == Some(IngestedSummary(log[n].raw, log[n].at))
  {
    if Escapes(log[|log| - 1].raw) {
      n := RowOfLastWritten(log[..|log| - 1]);
      assert forall k | n < k < |log| - 1 :: log[..|log| - 1][k] == log[k];
    } else {
      n := |log| - 1;
    }
  }

  /** Reading `ok` at time t means: the latest delivery that wrote a row was a complete, zero-finding,
      accepted document, delivered within the last 36 hours, whatever time it claimed. */
  lemma OkIsRecentAndClean(log: seq<Delivery>, t: int)
    requires EffectiveStatus(RowAfter(log), t) == Known(Ok)
    ensures exists n: nat :: LastWritten(log, n) && SaysClean(log[n].raw) && t - log[n].at <= 129600
  {
    var n := RowOfLastWritten(log);
    AcceptedCleanIff(log[n].raw);
  }

  /** Reading `ok` vouches for the latest delivery of all exactly when that one did not escape. */
  lemma OkVouchesForLatestIff(log: seq<Delivery>, t: int)
    requires EffectiveStatus(RowAfter(log), t) == Known(Ok)
    ensures log != []
    ensures var latest := log[|log| - 1];
      SaysClean(latest.raw) && t - latest.at <= 129600 && !latest.raw.asOf.NoSuchTime? <==> !Escapes(latest.raw)
  {
    var n := RowOfLastWritten(log);
    AcceptedCleanIff(log[n].raw);
    if !Escapes(log[|log| - 1].raw) {
      assert n == |log| - 1;
    }
  }

  const CLEAN_IMAGE: ImageRow := ImageRow("web", "", [], [], "", 0, 0)

  /** A clean scan delivered, and a document whose status is a list after it: nothing is written for the
      second, and the control still reads `ok`. */
  lemma EscapeLeavesOk()
    ensures var clean := RawDocument(Given(1), Text("ok"), Given(true), Given(1), Given(1), Given(0), Given(0), false,
                                     Given([CLEAN_IMAGE]), Given([]), Given([]), Unstamped);
      var broken := clean.(status := ListOrObject);
      Escapes(broken) && !SaysClean(broken)
      && EffectiveStatus(RowAfter([Delivery(clean, 0), Delivery(broken, 60)]), 120) == Known(Ok)
  {
    var clean := RawDocument(Given(1), Text("ok"), Given(true), Given(1), Given(1), Given(0), Given(0), false,
                             Given([CLEAN_IMAGE]), Given([]), Given([]), Unstamped);
    assert Accepted(clean) && !Escapes(clean);
    var log := [Delivery(clean, 0), Delivery(clean.(status := ListOrObject), 60)];
    assert log[..1] == [Delivery(clean, 0)];
    assert RowAfter(log) == RowAfter([Delivery(clean, 0)]);
  }

  /** An honest stamp shortens the credit, never the other way round; without one it starts at ingest. A row
      reads `ok` or vulnerable exactly when its document was clean or listed findings, until 36 hours after
      the earlier of the two times; otherwise it reads unknown. */
  lemma OkUntil(raw: RawDocument, at: int, t: int)
    requires !Escapes(raw) && at <= t
    ensures var read := EffectiveStatus(Some(IngestedSummary(raw, at)), t);
      var recent := t - at <= 129600 && (raw.RawDocument? && raw.asOf.Stamped? ==> t - raw.asOf.time <= 129600);
      && (read == Known(Ok) <==> SaysClean(raw) && recent)
      && (read == Known(Vulnerable) <==> IsCoherent(raw) && raw.vulnCount.value > 0 && raw.status.value != "error" && recent)
      && read != Known(Error)
  {
    StoredExactly(raw, at);
  }

  /** Once a row reads unknown it keeps reading unknown until the next delivery. */
  lemma UnknownStays(row: Option<Summary>, t: int, later: int)
    requires t <= later && EffectiveStatus(row, t) == Unknown
    ensures EffectiveStatus(row, later) == Unknown
  {
  }
}
