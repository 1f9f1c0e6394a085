/** How a list is pasted does not change what it is worth: order, spelling and split stacks. */
module AppraisalInvariance {
  import opened Options
  import opened PasteParser
  import opened PasteLaws
  import opened Appraisal

  // --- Spelling ------------------------------------------------------------------

  lemma LowerKeepsBlanks(s: string, i: nat)
    requires i < |s|
    ensures IsSpace(Lower(s)[i]) <==> IsSpace(s[i])
  {
  }

  lemma {:induction false} LowerStripLeft(s: string)
    ensures Lower(StripLeft(s)) == StripLeft(Lower(s))
  {
    if s != [] {
      LowerKeepsBlanks(s, 0);
      if IsSpace(s[0]) {
        LowerStripLeft(s[1..]);
        assert Lower(s)[1..] == Lower(s[1..]);
      }
    }
  }

  lemma {:induction false} LowerStripRight(s: string)
    ensures Lower(StripRight(s)) == StripRight(Lower(s))
  {
    if s != [] {
      var n := |s| - 1;
      LowerKeepsBlanks(s, n);
      if IsSpace(s[n]) {
        LowerStripRight(s[..n]);
        assert Lower(s)[..n] == Lower(s[..n]);
      }
    }
  }

  lemma LowerStrip(s: string)
    ensures Lower(Strip(s)) == Strip(Lower(s))
  {
    LowerStripLeft(s);
    LowerStripRight(StripLeft(s));
  }

  /** Names that differ only in case name the same type. */
  lemma SpellingIsInvisible(types: seq<ItemType>, a: string, b: string)
    requires SameButCase(a, b)
    ensures Resolve(types, a) == Resolve(types, b)
  {
    LowerSameIff(a, b);
    LowerStrip(a);
    LowerStrip(b);
    FindBySpelling(types, a, b);
    FindBySpelling(types, Strip(a), Strip(b));
  }

  lemma FindBySpelling(types: seq<ItemType>, a: string, b: string)
    requires Lower(a) == Lower(b)
    ensures Find(types, a) == Find(types, b)
  {
  }

  // --- Order ---------------------------------------------------------------------

  /** The amounts one row adds to the two totals; nothing for an unknown name. */
  function JitaOf(terms: Terms, m: Match): real {
    if m.item.Some? then LineFor(terms, m.item.value, m.row.qty).lineJita else 0.0
  }

  function OfferOf(terms: Terms, m: Match): real {
    if m.item.Some? then LineFor(terms, m.item.value, m.row.qty).lineOffer else 0.0
  }

  function SumBy(f: Entry -> real, rows: seq<Entry>): real {
    if rows == [] then 0.0 else SumBy(f, rows[..|rows| - 1]) + f(rows[|rows| - 1])
  }

  lemma {:induction false} SumByConcat(f: Entry -> real, a: seq<Entry>, b: seq<Entry>)
    ensures SumBy(f, a + b) == SumBy(f, a) + SumBy(f, b)
  {
    if b == [] {
      assert a + b == a;
    } else {
      var n := |b| - 1;
      assert (a + b)[..|a| + n] == a + b[..n];
      SumByConcat(f, a, b[..n]);
    }
  }

  lemma SumByNext(f: Entry -> real, rows: seq<Entry>, row: Entry)
    ensures SumBy(f, rows + [row]) == SumBy(f, rows) + f(row)
  {
    assert (rows + [row])[..|rows|] == rows;
  }

  lemma CutOut(rows: seq<Entry>, k: nat)
    requires k < |rows|
    ensures rows == rows[..k] + [rows[k]] + rows[k + 1..]
  {
  }

  lemma SumByWithout(f: Entry -> real, rows: seq<Entry>, k: nat)
    requires k < |rows|
    ensures SumBy(f, rows) == SumBy(f, Without(rows, k)) + f(rows[k])
  {
    var front, row, back := rows[..k], rows[k], rows[k + 1..];
    CutOut(rows, k);
    SumByNext(f, front, row);
    SumByConcat(f, front + [row], back);
    SumByConcat(f, front, back);
  }

  predicate Distinct(rows: seq<Entry>) {
    forall i, j | 0 <= i < j < |rows| :: KeyOf(rows[i]) != KeyOf(rows[j])
  }

  /** The same item, however spelled, in the same quantity. */
  predicate SameItem(a: Entry, b: Entry) {
    KeyOf(a) == KeyOf(b) && a.qty == b.qty
  }

  predicate Listed(rows: seq<Entry>, e: Entry) {
    exists j :: 0 <= j < |rows| && SameItem(rows[j], e)
  }

  predicate Covers(a: seq<Entry>, b: seq<Entry>) {
    forall i | 0 <= i < |b| :: Listed(a, b[i])
  }

  lemma WithoutAt(rows: seq<Entry>, k: nat, i: nat)
    requires k < |rows| && i < |rows| - 1
    ensures Without(rows, k)[i] == rows[if i < k then i else i + 1]
  {
  }

  lemma CoversWithout(a: seq<Entry>, b: seq<Entry>, j: nat, k: nat)
    requires Distinct(b) && Covers(a, b)
    requires j < |a| && k < |b| && SameItem(a[j], b[k])
    ensures Covers(Without(a, j), Without(b, k))
  {
    forall i | 0 <= i < |Without(b, k)|
      ensures Listed(Without(a, j), Without(b, k)[i])
    {
      WithoutAt(b, k, i);
      var at := if i < k then i else i + 1;
      assert KeyOf(b[at]) != KeyOf(b[k]);
      assert Listed(a, b[at]);
      var h :| 0 <= h < |a| && SameItem(a[h], b[at]);
      assert h != j;
      var h' := if h < j then h else h - 1;
      WithoutAt(a, j, h');
    }
  }

  lemma DistinctWithout(rows: seq<Entry>, k: nat)
    requires k < |rows| && Distinct(rows)
    ensures Distinct(Without(rows, k))
  {
    forall i, j | 0 <= i < j < |Without(rows, k)|
      ensures KeyOf(Without(rows, k)[i]) != KeyOf(Without(rows, k)[j])
    {
      WithoutAt(rows, k, i);
      WithoutAt(rows, k, j);
    }
  }

  /** `f` sees an item's key and quantity only. */
  ghost predicate SeesItemsOnly(f: Entry -> real) {
    forall x, y | SameItem(x, y) :: f(x) == f(y)
  }

  lemma {:induction false} SameItemsSameSum(f: Entry -> real, a: seq<Entry>, b: seq<Entry>)
    requires SeesItemsOnly(f)
    requires Distinct(a) && Distinct(b) && Covers(a, b) && Covers(b, a)
    ensures SumBy(f, a) == SumBy(f, b)
    decreases |a|
  {
    if a == [] {
      NothingCovered(b);
    } else {
      var k := CoveredBy(b, a, 0);
      DistinctWithout(a, 0);
      DistinctWithout(b, k);
      CoversWithout(a, b, 0, k);
      CoversWithout(b, a, k, 0);
      SameItemsSameSum(f, Without(a, 0), Without(b, k));
      SumByWithout(f, a, 0);
      SumByWithout(f, b, k);
      SameValue(f, a[0], b[k]);
    }
  }

  lemma SameValue(f: Entry -> real, x: Entry, y: Entry)
    requires SeesItemsOnly(f) && SameItem(x, y)
    ensures f(x) == f(y)
  {
  }

  lemma NothingCovered(b: seq<Entry>)
    requires Covers([], b)
    ensures b == []
  {
    if b != [] {
      var k := CoveredBy([], b, 0);
    }
  }

  lemma CoveredBy(a: seq<Entry>, b: seq<Entry>, i: nat) returns (j: nat)
    requires Covers(a, b) && i < |b|
    ensures j < |a| && SameItem(b[i], a[j]) && SameItem(a[j], b[i])
  {
    assert Listed(a, b[i]);
    j :| 0 <= j < |a| && SameItem(a[j], b[i]);
  }

  lemma LinesNext(terms: Terms, matches: seq<Match>)
    requires matches != []
    ensures var before, m := LinesFor(terms, matches[..|matches| - 1]), matches[|matches| - 1];
      LinesFor(terms, matches) == if m.item.Some? then before + [LineFor(terms, m.item.value, m.row.qty)] else before
  {
  }

  lemma SumsNext(lines: seq<Line>, line: Line)
    ensures SumJita(lines + [line]) == SumJita(lines) + line.lineJita
    ensures SumOffer(lines + [line]) == SumOffer(lines) + line.lineOffer
  {
    assert (lines + [line])[..|lines|] == lines;
  }

  /** The totals add up row by row, unknown rows adding nothing. */
  lemma {:induction false} JitaByRow(terms: Terms, matches: seq<Match>, rows: seq<Entry>, f: Entry -> real)
    requires |matches| == |rows|
    requires forall i | 0 <= i < |rows| :: f(rows[i]) == JitaOf(terms, matches[i])
    ensures SumJita(LinesFor(terms, matches)) == SumBy(f, rows)
  {
    if matches != [] {
      var n := |matches| - 1;
      JitaByRow(terms, matches[..n], rows[..n], f);
      LinesNext(terms, matches);
      if matches[n].item.Some? {
        SumsNext(LinesFor(terms, matches[..n]), LineFor(terms, matches[n].item.value, matches[n].row.qty));
      }
    }
  }

  lemma {:induction false} OfferByRow(terms: Terms, matches: seq<Match>, rows: seq<Entry>, f: Entry -> real)
    requires |matches| == |rows|
    requires forall i | 0 <= i < |rows| :: f(rows[i]) == OfferOf(terms, matches[i])
    ensures SumOffer(LinesFor(terms, matches)) == SumBy(f, rows)
  {
    if matches != [] {
      var n := |matches| - 1;
      OfferByRow(terms, matches[..n], rows[..n], f);
      LinesNext(terms, matches);
      if matches[n].item.Some? {
        SumsNext(LinesFor(terms, matches[..n]), LineFor(terms, matches[n].item.value, matches[n].row.qty));
      }
    }
  }

  function MatchOf(terms: Terms, row: Entry): Match {
    Match(row, Resolve(terms.types, row.name))
  }

  lemma SameItemSameAmounts(terms: Terms, x: Entry, y: Entry)
    requires SameItem(x, y)
    ensures JitaOf(terms, MatchOf(terms, x)) == JitaOf(terms, MatchOf(terms, y))
    ensures OfferOf(terms, MatchOf(terms, x)) == OfferOf(terms, MatchOf(terms, y))
  {
    LowerSameIff(x.name, y.name);
    SpellingIsInvisible(terms.types, x.name, y.name);
  }

  lemma RowsCover(a: seq<Entry>, b: seq<Entry>)
    requires forall i | 0 <= i < |a| :: a[i].qty >= 1
    requires forall i | 0 <= i < |b| :: b[i].qty >= 1
    requires multiset(a) == multiset(b)
    ensures Covers(Merged(a), Merged(b))
  {
    var rowsA, rowsB := Merged(a), Merged(b);
    MergedExact(a);
    MergedExact(b);
    forall i | 0 <= i < |rowsB|
      ensures Listed(rowsA, rowsB[i])
    {
      var key := KeyOf(rowsB[i]);
      ReorderingKeepsTotals(a, b, key);
      assert Mentions(rowsB, key);
      assert Mentions(rowsA, key);
      var j :| 0 <= j < |rowsA| && KeyOf(rowsA[j]) == key;
      assert SameItem(rowsA[j], rowsB[i]);
    }
  }

  lemma AmountsSeeItemsOnly(terms: Terms, f: Entry -> real, g: Entry -> real)
    requires forall e :: f(e) == JitaOf(terms, MatchOf(terms, e)) && g(e) == OfferOf(terms, MatchOf(terms, e))
    ensures SeesItemsOnly(f) && SeesItemsOnly(g)
  {
    forall x, y | SameItem(x, y)
      ensures f(x) == f(y) && g(x) == g(y)
    {
      SameItemSameAmounts(terms, x, y);
    }
  }

  lemma AppraisedByRow(terms: Terms, rows: seq<Entry>, f: Entry -> real, g: Entry -> real)
    requires forall e :: f(e) == JitaOf(terms, MatchOf(terms, e)) && g(e) == OfferOf(terms, MatchOf(terms, e))
    ensures Appraised(terms, rows).jitaTotal == Q(SumBy(f, rows))
    ensures Appraised(terms, rows).offerTotal == Q(SumBy(g, rows))
  {
    JitaByRow(terms, Matched(terms.types, rows), rows, f);
    OfferByRow(terms, Matched(terms.types, rows), rows, g);
  }

  lemma MergedDistinctly(entries: seq<Entry>)
    requires forall i | 0 <= i < |entries| :: entries[i].qty >= 1
    ensures Distinct(Merged(entries))
  {
    MergedExact(entries);
  }

  /** The same entries in another order give the same two totals. */
  lemma EntryOrderIsInvisible(terms: Terms, a: seq<Entry>, b: seq<Entry>)
    requires forall i | 0 <= i < |a| :: a[i].qty >= 1
    requires forall i | 0 <= i < |b| :: b[i].qty >= 1
    requires multiset(a) == multiset(b)
    ensures Appraised(terms, Merged(a)).jitaTotal == Appraised(terms, Merged(b)).jitaTotal
    ensures Appraised(terms, Merged(a)).offerTotal == Appraised(terms, Merged(b)).offerTotal
  {
    var f, g := (e: Entry) => JitaOf(terms, MatchOf(terms, e)), (e: Entry) => OfferOf(terms, MatchOf(terms, e));
    AmountsSeeItemsOnly(terms, f, g);
    MergedDistinctly(a);
    MergedDistinctly(b);
    RowsCover(a, b);
    RowsCover(b, a);
    SameItemsSameSum(f, Merged(a), Merged(b));
    SameItemsSameSum(g, Merged(a), Merged(b));
    AppraisedByRow(terms, Merged(a), f, g);
    AppraisedByRow(terms, Merged(b), f, g);
  }

  // --- Nothing is dropped ------------------------------------------------------------

  function ItemCount(lines: seq<Line>): int {
    if lines == [] then 0 else ItemCount(lines[..|lines| - 1]) + lines[|lines| - 1].quantity
  }

  function UnknownQty(matches: seq<Match>): int {
    if matches == [] then 0 else
      var n := |matches| - 1;
      UnknownQty(matches[..n]) + if matches[n].item.Some? then 0 else matches[n].row.qty
  }

  lemma {:induction false} EveryRowCounts(matches: seq<Match>, rows: seq<Entry>, terms: Terms)
    requires |matches| == |rows| && forall i | 0 <= i < |rows| :: matches[i].row == rows[i]
    ensures |LinesFor(terms, matches)| + |UnknownIn(matches)| == |rows|
    ensures ItemCount(LinesFor(terms, matches)) + UnknownQty(matches) == SumQty(rows)
  {
    if matches != [] {
      var n := |matches| - 1;
      var m, before := matches[n], LinesFor(terms, matches[..n]);
      EveryRowCounts(matches[..n], rows[..n], terms);
      if m.item.Some? {
        var line := LineFor(terms, m.item.value, m.row.qty);
        assert (before + [line])[..|before|] == before;
      } else {
        assert LinesFor(terms, matches) == before;
      }
    }
  }

  lemma {:induction false} NothingUnknown(matches: seq<Match>)
    requires UnknownIn(matches) == []
    ensures UnknownQty(matches) == 0
  {
    if matches != [] {
      NothingUnknown(matches[..|matches| - 1]);
    }
  }

  /** Every merged row is a line or an unknown name; with no unknown name the appraisal counts every
      unit that was pasted. */
  lemma EveryUnitIsCounted(terms: Terms, entries: seq<Entry>)
    ensures var result := Appraised(terms, Merged(entries));
      && |result.lines| + |result.unknown| == |Merged(entries)|
      && (result.unknown == [] ==> ItemCount(result.lines) == SumQty(entries))
  {
    var matches := Matched(terms.types, Merged(entries));
    EveryRowCounts(matches, Merged(entries), terms);
    MergedConserves(entries);
    if UnknownIn(matches) == [] {
      NothingUnknown(matches);
    }
  }

  // --- Split stacks ----------------------------------------------------------------

  lemma {:induction false} PresentConcat(a: seq<Option<Entry>>, b: seq<Option<Entry>>)
    ensures Present(a + b) == Present(a) + Present(b)
  {
    if b == [] {
      assert a + b == a;
    } else {
      var n := |b| - 1;
      PresentConcat(a, b[..n]);
      assert a + b == a + b[..n] + [b[n]] && b == b[..n] + [b[n]];
      PresentNext(a + b[..n], b[n]);
      PresentNext(b[..n], b[n]);
    }
  }

  lemma ParseAllConcat(a: seq<string>, b: seq<string>)
    ensures ParseAll(a + b) == ParseAll(a) + ParseAll(b)
  {
    assert Parsed(a + b) == Parsed(a) + Parsed(b);
    PresentConcat(Parsed(a), Parsed(b));
  }

  /** What one line adds to the parsed entries. */
  function Says(line: string): seq<Entry> {
    var e := ParseLine(line);
    if e.Some? then [e.value] else []
  }

  lemma PresentOne(parsed: seq<Option<Entry>>)
    requires |parsed| == 1
    ensures Present(parsed) == if parsed[0].Some? then [parsed[0].value] else []
  {
    assert parsed[..0] == [];
  }

  lemma ParseAllAround(a: seq<string>, line: string)
    ensures ParseAll(a + [line]) == ParseAll(a) + Says(line)
  {
    ParseAllConcat(a, [line]);
    PresentOne(Parsed([line]));
  }

  function Worth(terms: Terms, lines: seq<string>): Result {
    Appraised(terms, Merged(ParseAll(Capped(lines))))
  }

  /** One stack pasted as two lines, the second anywhere below, in any layout and any case, is worth
      exactly the same, line for line. */
  lemma SplitStackIsInvisible(terms: Terms, a: seq<string>, first: string, b: seq<string>, second: string, c: seq<string>,
                              whole: string, name: string, q1: int, name': string, q2: int)
    requires SameButCase(name, name') && |a| + |b| + |c| + 2 <= 500
    ensures Says(first) == [Entry(name, q1)] && Says(second) == [Entry(name', q2)] && Says(whole) == [Entry(name, q1 + q2)] ==>
      Worth(terms, a + [first] + b + [second] + c) == Worth(terms, a + [whole] + b + c)
  {
    LowerSameIff(name, name');
    SplitParses(a, first, b, second, c);
    WholeParses(a, whole, b, c);
    SplittingIsInvisible(ParseAll(a), name, q1, ParseAll(b), name', q2, ParseAll(c));
  }

  lemma SplitParses(a: seq<string>, first: string, b: seq<string>, second: string, c: seq<string>)
    ensures ParseAll(a + [first] + b + [second] + c) == ParseAll(a) + Says(first) + ParseAll(b) + Says(second) + ParseAll(c)
  {
    ParseAllAround(a, first);
    ParseAllConcat(a + [first], b);
    ParseAllAround(a + [first] + b, second);
    ParseAllConcat(a + [first] + b + [second], c);
  }

  lemma WholeParses(a: seq<string>, whole: string, b: seq<string>, c: seq<string>)
    ensures ParseAll(a + [whole] + b + c) == ParseAll(a) + Says(whole) + ParseAll(b) + ParseAll(c)
  {
    ParseAllAround(a, whole);
    ParseAllConcat(a + [whole], b);
    ParseAllConcat(a + [whole] + b, c);
  }

  // --- The order of the pasted lines -------------------------------------------------

  function CutLine(lines: seq<string>, k: nat): seq<string>
    requires k < |lines|
  {
    lines[..k] + lines[k + 1..]
  }

  lemma SplitLines(lines: seq<string>, k: nat)
    requires k < |lines|
    ensures lines == lines[..k] + [lines[k]] + lines[k + 1..]
  {
  }

  lemma CutLineMultiset(lines: seq<string>, k: nat)
    requires k < |lines|
    ensures multiset(CutLine(lines, k)) == multiset(lines) - multiset{lines[k]}
  {
    SplitLines(lines, k);
  }

  /** What a line says can be taken out of what the lines say together. */
  lemma ParseAllCut(lines: seq<string>, k: nat)
    requires k < |lines|
    ensures multiset(ParseAll(lines)) == multiset(ParseAll(CutLine(lines, k))) + multiset(Says(lines[k]))
  {
    var front, line, back := lines[..k], lines[k], lines[k + 1..];
    SplitLines(lines, k);
    ParseAllAround(front, line);
    ParseAllConcat(front + [line], back);
    ParseAllConcat(front, back);
  }

  /** Lines in another order say the same things in another order. */
  lemma {:induction false} ParseAllPermutes(a: seq<string>, b: seq<string>)
    requires multiset(a) == multiset(b)
    ensures multiset(ParseAll(a)) == multiset(ParseAll(b))
    decreases |a|
  {
    if a == [] {
      assert |multiset(b)| == 0;
      assert b == [];
    } else {
      var k := PlaceOf(b, a[0], a);
      CutLineMultiset(a, 0);
      CutLineMultiset(b, k);
      ParseAllPermutes(CutLine(a, 0), CutLine(b, k));
      ParseAllCut(a, 0);
      ParseAllCut(b, k);
    }
  }

  lemma PlaceOf(b: seq<string>, line: string, a: seq<string>) returns (k: nat)
    requires multiset(a) == multiset(b) && a != [] && a[0] == line
    ensures k < |b| && b[k] == line
  {
    assert line in multiset(b);
    k :| 0 <= k < |b| && b[k] == line;
  }

  lemma PresentCounts(parsed: seq<Option<Entry>>)
    requires forall i | 0 <= i < |parsed| && parsed[i].Some? :: parsed[i].value.qty >= 1
    ensures forall i | 0 <= i < |Present(parsed)| :: Present(parsed)[i].qty >= 1
  {
  }

  lemma ParsedCounts(lines: seq<string>)
    ensures forall i | 0 <= i < |ParseAll(lines)| :: ParseAll(lines)[i].qty >= 1
  {
    PresentCounts(Parsed(lines));
  }

  /** Pasting the same lines in another order gives the same two totals. */
  lemma OrderIsInvisible(terms: Terms, a: seq<string>, b: seq<string>)
    requires multiset(a) == multiset(b) && |a| <= 500
    ensures Worth(terms, a).jitaTotal == Worth(terms, b).jitaTotal
    ensures Worth(terms, a).offerTotal == Worth(terms, b).offerTotal
  {
    assert |a| == |multiset(a)| == |multiset(b)| == |b|;
    ParseAllPermutes(a, b);
    ParsedCounts(a);
    ParsedCounts(b);
    EntryOrderIsInvisible(terms, ParseAll(a), ParseAll(b));
  }
}
