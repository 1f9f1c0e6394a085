/** Turning pasted inventory lines into item names and quantities. */
module PasteParser {
  import opened Options
  import opened Text

  const MAX_LINES := 500
  const MAX_LINE := 200
  const MAX_QTY: int := 1_000_000_000_000

  /** One recognised item. */
  datatype Entry = Entry(name: string, qty: int)

  // --- Characters ------------------------------------------------------------

  predicate IsSpace(c: char) {
    '\t' <= c <= '\r' || '\U{1C}' <= c <= ' ' || c == '\U{85}' || c == '\U{A0}' || c == '\U{1680}'
    || '\U{2000}' <= c <= '\U{200A}' || c == '\U{2028}' || c == '\U{2029}' || c == '\U{202F}' || c == '\U{205F}' || c == '\U{3000}'
  }

  /** The characters that count as blank, listed one by one. */
  const BLANKS: string := "\t\n\U{0B}\U{0C}\r\U{1C}\U{1D}\U{1E}\U{1F} \U{85}\U{A0}\U{1680}" +
    "\U{2000}\U{2001}\U{2002}\U{2003}\U{2004}\U{2005}\U{2006}\U{2007}\U{2008}\U{2009}\U{200A}\U{2028}\U{2029}\U{202F}\U{205F}\U{3000}"

  lemma SpaceIff(c: char)
    ensures IsSpace(c) <==> c in BLANKS
  {
  }

  function LowerChar(c: char): char {
    if 'A' <= c <= 'Z' then c - 'A' + 'a' else c
  }

  function Lower(s: string): (r: string)
    ensures |r| == |s| && forall i | 0 <= i < |s| :: r[i] == LowerChar(s[i])
  {
    seq(|s|, i requires 0 <= i < |s| => LowerChar(s[i]))
  }

  /** The same text, each letter in either case. */
  predicate SameButCase(a: string, b: string) {
    && |a| == |b|
    && forall i | 0 <= i < |a| ::
         || a[i] == b[i]
         || ('A' <= a[i] <= 'Z' && b[i] as int == a[i] as int + 32)
         || ('A' <= b[i] <= 'Z' && a[i] as int == b[i] as int + 32)
  }

  lemma LowerSameIff(a: string, b: string)
    ensures Lower(a) == Lower(b) <==> SameButCase(a, b)
  {
    if |a| == |b| {
      forall i | 0 <= i < |a|
        ensures Lower(a)[i] == Lower(b)[i] <==>
          || a[i] == b[i]
          || ('A' <= a[i] <= 'Z' && b[i] as int == a[i] as int + 32)
          || ('A' <= b[i] <= 'Z' && a[i] as int == b[i] as int + 32)
      {
      }
    }
  }

  function StripLeft(s: string): (r: string)
    ensures r == [] || !IsSpace(r[0])
    ensures |r| <= |s| && r == s[|s| - |r|..]
    ensures r == [] <==> forall i | 0 <= i < |s| :: IsSpace(s[i])
  {
    if s != [] && IsSpace(s[0]) then StripLeft(s[1..]) else s
  }

  function StripRight(s: string): (r: string)
    ensures r == [] || !IsSpace(r[|r| - 1])
    ensures |r| <= |s| && r == s[..|r|]
    ensures s != [] && !IsSpace(s[0]) ==> r != []
  {
    if s != [] && IsSpace(s[|s| - 1]) then StripRight(s[..|s| - 1]) else s
  }

  function Strip(s: string): (r: string)
    ensures |r| <= |s|
    ensures r != [] ==> !IsSpace(r[0]) && !IsSpace(r[|r| - 1])
    ensures r == [] <==> forall i | 0 <= i < |s| :: IsSpace(s[i])
  {
    StripRight(StripLeft(s))
  }

  /** Text that starts with a character which is no blank is not stripped away. */
  lemma StripKeepsStart(s: string)
    requires s != [] && !IsSpace(s[0])
    ensures Strip(s) != []
  {
  }

  // --- Quantities ------------------------------------------------------------

  function Digits(token: string): string {
    if token == [] then [] else
      var n := |token| - 1;
      if IsDigit(token[n]) then Digits(token[..n]) + [token[n]] else Digits(token[..n])
  }

  function DigitValue(c: char): nat
    requires IsDigit(c)
  {
    c as int - '0' as int
  }

  function Value(digits: string): nat
    requires forall i | 0 <= i < |digits| :: IsDigit(digits[i])
  {
    if digits == [] then 0 else Value(digits[..|digits| - 1]) * 10 + DigitValue(digits[|digits| - 1])
  }

  lemma DigitsAreDigits(token: string)
    ensures forall i | 0 <= i < |Digits(token)| :: IsDigit(Digits(token)[i])
  {
  }

  /** The digits of a token read as one capped number; None without digits. */
  function ToInt(token: string): (r: Option<int>)
    ensures r.Some? ==> 0 <= r.value <= MAX_QTY
  {
    DigitsAreDigits(token);
    var digits := Digits(token);
    if digits == [] then None else Some(if Value(digits) < MAX_QTY then Value(digits) else MAX_QTY)
  }

  // --- One line --------------------------------------------------------------

  /** Where the run of blanks starting at `i` ends. */
  function SkipSpaces(s: string, i: nat): (j: nat)
    requires i <= |s|
    ensures i <= j <= |s|
    ensures forall k | i <= k < j :: IsSpace(s[k])
    ensures j < |s| ==> !IsSpace(s[j])
    decreases |s| - i
  {
    if i < |s| && IsSpace(s[i]) then SkipSpaces(s, i + 1) else i
  }

  /** A digit followed by digits, dots and commas. */
  predicate IsQuantity(t: string) {
    t != [] && IsDigit(t[0]) && forall i | 0 <= i < |t| :: IsDigit(t[i]) || t[i] == '.' || t[i] == ','
  }

  /** The quantity text when blanks at `i` are followed by an optional x and a quantity up to the
      end of the line. */
  function QuantityFrom(line: string, i: nat): Option<string>
    requires i <= |line|
  {
    var j := SkipSpaces(line, i);
    if j == i then None else
      var rest := line[j..];
      if rest != [] && (rest[0] == 'x' || rest[0] == 'X') && IsQuantity(rest[1..]) then Some(rest[1..])
      else if IsQuantity(rest) then Some(rest)
      else None
  }

  /** The first split of the line into a name and a trailing quantity. */
  function QuantityTail(line: string, i: nat): (r: Option<(nat, string)>)
    requires 1 <= i
    ensures r.Some? ==> i <= r.value.0 < |line| && IsSpace(line[r.value.0])
    decreases |line| - i
  {
    if i >= |line| then None
    else if QuantityFrom(line, i).Some? then Some((i, QuantityFrom(line, i).value))
    else QuantityTail(line, i + 1)
  }

  /** The pieces between tabs. */
  function SplitTabs(line: string): (r: seq<string>)
    ensures |r| >= 1
    ensures line != [] && line[0] != '\t' ==> r[0] != [] && r[0][0] == line[0]
  {
    if line == [] then [[]]
    else
      var rest := SplitTabs(line[1..]);
      if line[0] == '\t' then [[]] + rest else [[line[0]] + rest[0]] + rest[1..]
  }

  /** The first piece that reads as a positive number. */
  function FirstQuantity(pieces: seq<string>): (r: Option<int>)
    ensures r.Some? ==> 1 <= r.value <= MAX_QTY
  {
    if pieces == [] then None
    else
      var v := ToInt(Strip(pieces[0]));
      if v.Some? && v.value != 0 then v else FirstQuantity(pieces[1..])
  }

  /** A line copied from an inventory window: the name, and the first column that reads as a quantity. */
  function ColumnsEntry(pieces: seq<string>): (e: Entry)
    requires pieces != [] && pieces[0] != [] && !IsSpace(pieces[0][0])
    ensures 1 <= e.qty <= MAX_QTY && e.name != []
  {
    var qty := FirstQuantity(pieces[1..]);
    StripKeepsStart(pieces[0]);
    Entry(Strip(pieces[0]), if qty.Some? then qty.value else 1)
  }

  /** A line with no tab: a name with a quantity behind it, or a bare name. */
  function TailEntry(line: string): (e: Entry)
    requires line != [] && !IsSpace(line[0])
    ensures 1 <= e.qty <= MAX_QTY && e.name != []
  {
    var split := QuantityTail(line, 1);
    var qty := if split.Some? then ToInt(split.value.1) else None;
    if qty.Some? && qty.value != 0 then
      StripKeepsStart(line[..split.value.0]);
      Entry(Strip(line[..split.value.0]), qty.value)
    else
      Entry(line, 1)
  }

  function Cut(line: string): string {
    if |line| > MAX_LINE then line[..MAX_LINE] else line
  }

  /** What one pasted line says; None for a blank one. */
  function ParseLine(raw: string): (r: Option<Entry>)
    ensures r.Some? ==> 1 <= r.value.qty <= 1_000_000_000_000 && r.value.name != []
    ensures r.None? <==> forall i | 0 <= i < |raw| :: IsSpace(raw[i])
  {
    var line := Cut(Strip(raw));
    if line == [] then None
    else if '\t' in line then Some(ColumnsEntry(SplitTabs(line)))
    else Some(TailEntry(line))
  }

  /** The entries of the lines that have one. */
  function Present(parsed: seq<Option<Entry>>): seq<Entry> {
    if parsed == [] then [] else
      var n := |parsed| - 1;
      Present(parsed[..n]) + if parsed[n].Some? then [parsed[n].value] else []
  }

  function Parsed(lines: seq<string>): (r: seq<Option<Entry>>)
    ensures |r| == |lines| && forall i | 0 <= i < |r| :: r[i] == ParseLine(lines[i])
  {
    seq(|lines|, i requires 0 <= i < |lines| => ParseLine(lines[i]))
  }

  function ParseAll(lines: seq<string>): seq<Entry> {
    Present(Parsed(lines))
  }

  function Capped(lines: seq<string>): seq<string> {
    if |lines| > MAX_LINES then lines[..MAX_LINES] else lines
  }

  // --- Merging ---------------------------------------------------------------

  function KeyOf(e: Entry): string {
    Lower(e.name)
  }

  function TotalOf(entries: seq<Entry>, key: string): int {
    if entries == [] then 0 else
      var n := |entries| - 1;
      TotalOf(entries[..n], key) + if KeyOf(entries[n]) == key then entries[n].qty else 0
  }

  predicate Mentions(entries: seq<Entry>, key: string) {
    exists i :: 0 <= i < |entries| && KeyOf(entries[i]) == key
  }

  /** The names as first spelled, in order of first occurrence. */
  function FirstNames(entries: seq<Entry>): seq<string> {
    if entries == [] then [] else
      var n := |entries| - 1;
      if Mentions(entries[..n], KeyOf(entries[n])) then FirstNames(entries[..n]) else FirstNames(entries[..n]) + [entries[n].name]
  }

  /** Each item once, as first spelled, with its whole quantity. */
  function Merged(entries: seq<Entry>): (r: seq<Entry>)
    ensures |r| == |FirstNames(entries)|
    ensures forall i | 0 <= i < |r| :: r[i] == Entry(FirstNames(entries)[i], TotalOf(entries, Lower(FirstNames(entries)[i])))
  {
    var names := FirstNames(entries);
    seq(|names|, i requires 0 <= i < |names| => Entry(names[i], TotalOf(entries, Lower(names[i]))))
  }

  lemma MentionsNext(entries: seq<Entry>, key: string)
    requires entries != []
    ensures Mentions(entries, key) <==> Mentions(entries[..|entries| - 1], key) || KeyOf(entries[|entries| - 1]) == key
  {
    var n := |entries| - 1;
    if i :| 0 <= i < |entries| && KeyOf(entries[i]) == key {
      assert i < n ==> entries[..n][i] == entries[i];
    }
    if i :| 0 <= i < n && KeyOf(entries[..n][i]) == key {
      assert entries[i] == entries[..n][i];
    }
    assert KeyOf(entries[n]) == KeyOf(entries[n]);
  }

  /** Exactly the mentioned items appear, each once whatever its spelling. */
  lemma {:induction false} FirstNamesExact(entries: seq<Entry>)
    ensures forall key :: Mentions(entries, key) <==> exists i :: 0 <= i < |FirstNames(entries)| && Lower(FirstNames(entries)[i]) == key
    ensures forall i, j | 0 <= i < j < |FirstNames(entries)| :: Lower(FirstNames(entries)[i]) != Lower(FirstNames(entries)[j])
  {
    if entries != [] {
      var n := |entries| - 1;
      var before, after := FirstNames(entries[..n]), FirstNames(entries);
      FirstNamesExact(entries[..n]);
      forall key
        ensures Mentions(entries, key) <==> exists i :: 0 <= i < |after| && Lower(after[i]) == key
      {
        MentionsNext(entries, key);
        if i :| 0 <= i < |before| && Lower(before[i]) == key {
          assert after[i] == before[i];
        }
        if i :| 0 <= i < |after| && Lower(after[i]) == key {
          assert i < |before| ==> before[i] == after[i];
        }
        assert !Mentions(entries[..n], KeyOf(entries[n])) ==> Lower(after[|before|]) == KeyOf(entries[n]);
      }
      forall i, j | 0 <= i < j < |after|
        ensures Lower(after[i]) != Lower(after[j])
      {
        if j == |before| {
          assert Lower(before[i]) == Lower(after[i]);
        }
      }
    }
  }

  lemma {:induction false} Unmentioned(entries: seq<Entry>, key: string)
    requires !Mentions(entries, key)
    ensures TotalOf(entries, key) == 0
  {
    if entries != [] {
      MentionsNext(entries, key);
      Unmentioned(entries[..|entries| - 1], key);
    }
  }

  /** What the two variables of the merge hold once `entries` have been read. */
  ghost predicate Tallies(merged: map<string, int>, order: seq<string>, entries: seq<Entry>) {
    && order == FirstNames(entries)
    && forall key :: (key in merged <==> Mentions(entries, key)) && (key in merged ==> merged[key] == TotalOf(entries, key))
  }

  /** What one more entry changes for one item. */
  lemma EntryNext(entries: seq<Entry>, e: Entry, key: string)
    ensures Mentions(entries + [e], key) <==> Mentions(entries, key) || key == KeyOf(e)
    ensures TotalOf(entries + [e], key) == TotalOf(entries, key) + if KeyOf(e) == key then e.qty else 0
    ensures FirstNames(entries + [e]) == if Mentions(entries, KeyOf(e)) then FirstNames(entries) else FirstNames(entries) + [e.name]
    ensures !Mentions(entries, key) ==> TotalOf(entries, key) == 0
  {
    var longer := entries + [e];
    assert longer[..|entries|] == entries;
    MentionsNext(longer, key);
    if !Mentions(entries, key) {
      Unmentioned(entries, key);
    }
  }

  lemma TallyItem(merged: map<string, int>, order: seq<string>, entries: seq<Entry>, e: Entry, after: map<string, int>, key: string)
    requires Tallies(merged, order, entries)
    requires after == merged[KeyOf(e) := (if KeyOf(e) in merged then merged[KeyOf(e)] else 0) + e.qty]
    ensures key in after <==> Mentions(entries + [e], key)
    ensures key in after ==> after[key] == TotalOf(entries + [e], key)
  {
    EntryNext(entries, e, key);
  }

  lemma TallyNext(merged: map<string, int>, order: seq<string>, entries: seq<Entry>, e: Entry, after: map<string, int>)
    requires Tallies(merged, order, entries)
    requires after == merged[KeyOf(e) := (if KeyOf(e) in merged then merged[KeyOf(e)] else 0) + e.qty]
    ensures Tallies(after, if KeyOf(e) in merged then order else order + [e.name], entries + [e])
  {
    EntryNext(entries, e, KeyOf(e));
    forall key
      ensures key in after <==> Mentions(entries + [e], key)
      ensures key in after ==> after[key] == TotalOf(entries + [e], key)
    {
      TallyItem(merged, order, entries, e, after, key);
    }
  }

  lemma PresentNext(parsed: seq<Option<Entry>>, e: Option<Entry>)
    ensures Present(parsed + [e]) == if e.Some? then Present(parsed) + [e.value] else Present(parsed)
  {
    assert (parsed + [e])[..|parsed|] == parsed;
  }

  method Add(merged: map<string, int>, order: seq<string>, ghost entries: seq<Entry>, e: Entry) returns (merged': map<string, int>, order': seq<string>)
    requires Tallies(merged, order, entries)
    ensures Tallies(merged', order', entries + [e])
  {
    merged', order' := merged, order;
    var key := Lower(e.name);
    if key !in merged' {
      merged' := merged'[key := 0];
      order' := order' + [e.name];
    }
    merged' := merged'[key := merged'[key] + e.qty];
    TallyNext(merged, order, entries, e, merged');
  }

  /** One turn of the loop: read the line, and merge what it says. */
  method ReadLine(line: string, merged: map<string, int>, order: seq<string>, ghost parsed: seq<Option<Entry>>)
    returns (merged': map<string, int>, order': seq<string>)
    requires Tallies(merged, order, Present(parsed))
    ensures Tallies(merged', order', Present(parsed + [ParseLine(line)]))
  {
    var e := ParseLine(line);
    PresentNext(parsed, e);
    merged', order' := merged, order;
    if e.Some? {
      merged', order' := Add(merged, order, Present(parsed), e.value);
    }
  }

  method Listed(merged: map<string, int>, order: seq<string>, ghost entries: seq<Entry>) returns (out: seq<Entry>)
    requires Tallies(merged, order, entries)
    ensures out == Merged(entries)
  {
    FirstNamesExact(entries);
    forall j | 0 <= j < |order|
      ensures Lower(order[j]) in merged
    {
      assert Mentions(entries, Lower(order[j]));
    }
    out := seq(|order|, j requires 0 <= j < |order| && Lower(order[j]) in merged => Entry(order[j], merged[Lower(order[j])]));
  }

  lemma ParsedNext(lines: seq<string>, i: nat)
    requires i < |lines|
    ensures Parsed(lines)[..i + 1] == Parsed(lines)[..i] + [ParseLine(lines[i])]
  {
    TakeNext(Parsed(lines), i);
  }

  lemma TakeNext<T>(s: seq<T>, i: nat)
    requires i < |s|
    ensures s[..i + 1] == s[..i] + [s[i]]
  {
  }

  /** The parsing loop: every line is read and its quantity added to what its item has so far. */
  method ParseLines(lines: seq<string>) returns (out: seq<Entry>)
    ensures out == Merged(ParseAll(if |lines| > 500 then lines[..500] else lines))
  {
    var capped := Capped(lines);
    var merged: map<string, int> := map[];
    var order: seq<string> := [];
    var i := 0;
    while i < |capped|
      invariant 0 <= i <= |capped|
      invariant Tallies(merged, order, Present(Parsed(capped)[..i]))
    {
      merged, order := ReadLine(capped[i], merged, order, Parsed(capped)[..i]);
      ParsedNext(capped, i);
      i := i + 1;
    }
    assert Parsed(capped)[..i] == Parsed(capped);
    out := Listed(merged, order, ParseAll(capped));
  }
}
