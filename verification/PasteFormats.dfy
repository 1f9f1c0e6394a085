/** The formats a game client copies, read back as the item and quantity they were written for. */
module PasteFormats {
  import opened Options
  import opened Text
  import opened PasteParser
  import opened PasteLaws

  /** A name as the client writes it: no blank at either end, no tab. */
  predicate IsName(name: string) {
    name != [] && !IsSpace(name[0]) && !IsSpace(name[|name| - 1]) && '\t' !in name
  }

  predicate IsGap(gap: string) {
    gap != [] && '\t' !in gap && forall i | 0 <= i < |gap| :: IsSpace(gap[i])
  }

  /** What a token says once everything but its digits is dropped. */
  function Reading(token: string): nat {
    DigitsAreDigits(token);
    Value(Digits(token))
  }

  function Limited(n: nat): int {
    if n < 1_000_000_000_000 then n else 1_000_000_000_000
  }

  // --- Numerals are read as the number they show ---------------------------------

  lemma {:induction false} AllDigits(token: string)
    requires forall i | 0 <= i < |token| :: IsDigit(token[i])
    ensures Digits(token) == token
  {
    if token != [] {
      AllDigits(token[..|token| - 1]);
      assert token == token[..|token| - 1] + [token[|token| - 1]];
    }
  }

  lemma {:induction false} NumeralValue(n: nat)
    ensures Value(Numeral(n)) == n
  {
    var s := Numeral(n);
    if n >= 10 {
      NumeralValue(n / 10);
      assert s[..|s| - 1] == Numeral(n / 10) && s[|s| - 1] == Digit(n % 10);
    } else {
      assert s[..|s| - 1] == [] && s[|s| - 1] == Digit(n);
    }
  }

  /** A printed quantity reads as itself. */
  lemma NumeralReading(n: nat)
    ensures Reading(Numeral(n)) == n && Digits(Numeral(n)) != [] && IsQuantity(Numeral(n))
  {
    AllDigits(Numeral(n));
    NumeralValue(n);
  }

  /** Separators anywhere in a token do not change its reading, so a decimal point is no point at all. */
  lemma {:induction false} SeparatorsVanish(a: string, c: char, b: string)
    requires !IsDigit(c)
    ensures Reading(a + [c] + b) == Reading(a + b)
  {
    DigitsConcat(a + [c], b);
    DigitsConcat(a, b);
    assert (a + [c])[..|a|] == a;
  }

  lemma {:induction false} DigitsConcat(a: string, b: string)
    ensures Digits(a + b) == Digits(a) + Digits(b)
  {
    if b == [] {
      assert a + b == a;
    } else {
      var n := |b| - 1;
      assert (a + b)[..|a| + n] == a + b[..n];
      DigitsConcat(a, b[..n]);
    }
  }

  // --- A name with a quantity behind it --------------------------------------------

  lemma StripFixed(s: string)
    requires s != [] && !IsSpace(s[0]) && !IsSpace(s[|s| - 1])
    ensures Strip(s) == s
  {
  }

  lemma SkipLands(line: string, i: nat, j: nat)
    requires i <= j < |line| && !IsSpace(line[j])
    requires forall k | i <= k < j :: IsSpace(line[k])
    ensures SkipSpaces(line, i) == j
  {
  }

  /** No split inside the name is a match: the gap behind it would be part of the quantity. */
  lemma NoEarlierSplit(line: string, name: string, i: nat)
    requires IsName(name) && |name| < |line| && line[..|name|] == name && IsSpace(line[|name|])
    requires i < |name|
    ensures QuantityFrom(line, i).None?
  {
    var j := SkipSpaces(line, i);
    if j > i {
      assert line[|name| - 1] == name[|name| - 1];
      assert j < |name|;
      var rest, at := line[j..], |name| - j;
      assert rest[at] == line[|name|] && rest[1..][at - 1] == line[|name|];
    }
  }

  lemma {:induction false} SplitFound(line: string, name: string, i: nat)
    requires IsName(name) && |name| < |line| && line[..|name|] == name && IsSpace(line[|name|])
    requires 1 <= i <= |name|
    requires QuantityFrom(line, |name|).Some?
    ensures QuantityTail(line, i) == Some((|name|, QuantityFrom(line, |name|).value))
    decreases |name| - i
  {
    if i < |name| {
      NoEarlierSplit(line, name, i);
      SplitFound(line, name, i + 1);
    }
  }

  lemma QuantityAtGap(name: string, gap: string, mark: string, token: string)
    requires IsGap(gap) && mark in {"", "x", "X"} && IsQuantity(token)
    ensures QuantityFrom(name + gap + mark + token, |name|) == Some(token)
  {
    var line, end := name + gap + mark + token, |name + gap|;
    assert line[end..] == mark + token;
    assert forall k | |name| <= k < end :: line[k] == gap[k - |name|];
    assert line[end] == (mark + token)[0];
    SkipLands(line, |name|, end);
    if mark != "" {
      assert (mark + token)[1..] == token;
    } else {
      assert mark + token == token;
    }
  }

  /** A line with nothing to strip is read as its first 200 characters stand. */
  lemma CleanLine(line: string)
    requires line != [] && !IsSpace(line[0]) && !IsSpace(line[|line| - 1])
    ensures var cut := if |line| > 200 then line[..200] else line;
      ParseLine(line) == Some(if '\t' in cut then ColumnsEntry(SplitTabs(cut)) else TailEntry(cut))
  {
    StripFixed(line);
  }

  /** A line says nothing exactly when it has nothing but blanks. */
  lemma BlankLineIff(line: string)
    ensures ParseLine(line) == None <==> forall i | 0 <= i < |line| :: line[i] in BLANKS
  {
    forall i | 0 <= i < |line|
      ensures IsSpace(line[i]) <==> line[i] in BLANKS
    {
      SpaceIff(line[i]);
    }
  }

  // --- What can be a quantity ---------------------------------------------------------

  /** A digit, and behind it digits, points and commas only. */
  predicate IsAmount(t: string) {
    && t != "" && '0' <= t[0] <= '9'
    && forall i | 0 <= i < |t| :: '0' <= t[i] <= '9' || t[i] in {'.', ','}
  }

  lemma AmountIff(t: string)
    ensures IsQuantity(t) <==> IsAmount(t)
  {
  }

  /** A name part, a gap, at most one x and an amount make up the line. */
  predicate IsSplit(line: string, name: string, gap: string, mark: string, token: string) {
    && line == name + gap + mark + token
    && gap != "" && (forall i | 0 <= i < |gap| :: gap[i] in BLANKS)
    && mark in {"", "x", "X"} && IsAmount(token)
  }

  lemma AllBlank(gap: string)
    requires forall i | 0 <= i < |gap| :: IsSpace(gap[i])
    ensures forall i | 0 <= i < |gap| :: gap[i] in BLANKS
  {
    forall i | 0 <= i < |gap|
      ensures gap[i] in BLANKS
    {
      SpaceIff(gap[i]);
    }
  }

  lemma MarkBefore(rest: string, token: string) returns (mark: string)
    requires rest == token || (rest != [] && (rest[0] == 'x' || rest[0] == 'X') && rest[1..] == token)
    ensures mark in {"", "x", "X"} && rest == mark + token
  {
    if rest == token {
      mark := "";
    } else {
      mark := if rest[0] == 'x' then "x" else "X";
    }
  }

  lemma JoinedParts(line: string, i: nat, j: nat, mark: string, token: string)
    requires i <= j <= |line| && line[j..] == mark + token
    ensures line == line[..i] + line[i..j] + mark + token
  {
    assert line == line[..i] + line[i..j] + line[j..];
  }

  lemma SplitAt(line: string, i: nat) returns (gap: string, mark: string)
    requires i <= |line| && QuantityFrom(line, i).Some?
    ensures IsSplit(line, line[..i], gap, mark, QuantityFrom(line, i).value)
  {
    var j, token := SkipSpaces(line, i), QuantityFrom(line, i).value;
    gap := line[i..j];
    AllBlank(gap);
    AmountIff(token);
    mark := MarkBefore(line[j..], token);
    JoinedParts(line, i, j, mark, token);
  }

  lemma {:induction false} TailSplits(line: string, i: nat) returns (gap: string, mark: string)
    requires 1 <= i && QuantityTail(line, i).Some?
    ensures var (at, token) := QuantityTail(line, i).value; IsSplit(line, line[..at], gap, mark, token)
    decreases |line| - i
  {
    if QuantityFrom(line, i).Some? {
      gap, mark := SplitAt(line, i);
    } else {
      gap, mark := TailSplits(line, i + 1);
    }
  }

  /** What the parts of the line make of it. */
  predicate ReadFrom(e: Entry, line: string, name: string, gap: string, mark: string, token: string) {
    e == Entry(line, 1) || (IsSplit(line, name, gap, mark, token) && e == Entry(Strip(name), Limited(Reading(token))))
  }

  lemma TailReads(line: string) returns (name: string, gap: string, mark: string, token: string)
    requires line != [] && !IsSpace(line[0])
    ensures ReadFrom(TailEntry(line), line, name, gap, mark, token)
  {
    name, gap, mark, token := line, "", "", "";
    if QuantityTail(line, 1).Some? {
      gap, mark := TailSplits(line, 1);
      name, token := line[..QuantityTail(line, 1).value.0], QuantityTail(line, 1).value.1;
      TokenReads(token);
    }
  }

  lemma TokenReads(token: string)
    ensures ToInt(token).Some? ==> ToInt(token) == Some(Limited(Reading(token)))
  {
  }

  /** A clean line without columns counts more than one of an item only by an amount at its end, behind a gap. */
  lemma QuantityHasAmount(line: string) returns (name: string, gap: string, mark: string, token: string)
    requires line != [] && !IsSpace(line[0]) && !IsSpace(line[|line| - 1]) && |line| <= 200 && '\t' !in line
    ensures ParseLine(line).Some? && ReadFrom(ParseLine(line).value, line, name, gap, mark, token)
  {
    CleanLine(line);
    name, gap, mark, token := TailReads(line);
  }

  lemma TailAt(line: string, name: string, token: string)
    requires line != [] && !IsSpace(line[0]) && IsName(name) && |name| < |line| && line[..|name|] == name
    requires QuantityTail(line, 1) == Some((|name|, token)) && Digits(token) != []
    ensures TailEntry(line) == if Reading(token) >= 1 then Entry(name, Limited(Reading(token))) else Entry(line, 1)
  {
    StripFixed(name);
    assert ToInt(token) == Some(Limited(Reading(token)));
  }

  lemma SpacedShape(name: string, gap: string, mark: string, token: string)
    requires IsName(name) && IsGap(gap) && mark in {"", "x", "X"} && IsQuantity(token)
    ensures var line := name + gap + mark + token;
      && |name| < |line| && line[..|name|] == name && IsSpace(line[|name|]) && '\t' !in line
      && !IsSpace(line[0]) && !IsSpace(line[|line| - 1])
  {
    var line := name + gap + mark + token;
    assert line[0] == name[0] && line[|name|] == gap[0];
    assert line[|line| - 1] == token[|token| - 1];
  }

  /** `Tritanium 100`, `Tritanium x100`, `Tritanium  X1,000`: the name whatever is in it, and the
      digits of the token as the quantity up to the cap; a token of zeros makes the line a bare name. */
  lemma SpacedLine(name: string, gap: string, mark: string, token: string)
    requires IsName(name) && IsGap(gap) && mark in {"", "x", "X"} && IsAmount(token)
    requires |name + gap + mark + token| <= 200
    ensures ParseLine(name + gap + mark + token)
         == Some(if Reading(token) >= 1 then Entry(name, Limited(Reading(token))) else Entry(name + gap + mark + token, 1))
  {
    var line := name + gap + mark + token;
    AmountIff(token);
    SpacedShape(name, gap, mark, token);
    QuantityAtGap(name, gap, mark, token);
    SplitFound(line, name, 1);
    HasDigits(token);
    TailAt(line, name, token);
    CleanLine(line);
  }

  lemma HasDigits(token: string)
    requires IsQuantity(token)
    ensures Digits(token) != []
  {
    DigitsConcat(token[..1], token[1..]);
    assert token == token[..1] + token[1..];
    assert token[..1][..0] == [];
  }

  // --- A bare name ------------------------------------------------------------------

  /** Text that ends neither in a digit nor in a separator ends in no quantity. */
  predicate EndsLikeAName(line: string) {
    line != [] && var c := line[|line| - 1]; !IsDigit(c) && c != '.' && c != ','
  }

  lemma NotAQuantity(line: string, j: nat)
    requires EndsLikeAName(line) && j <= |line|
    ensures !IsQuantity(line[j..])
  {
    if j < |line| {
      assert line[j..][|line| - 1 - j] == line[|line| - 1];
    }
  }

  lemma NoQuantityFrom(line: string, i: nat)
    requires EndsLikeAName(line) && i <= |line|
    ensures QuantityFrom(line, i).None?
  {
    var j := SkipSpaces(line, i);
    NotAQuantity(line, j);
    if j < |line| {
      NotAQuantity(line, j + 1);
      assert line[j..][1..] == line[j + 1..];
    }
  }

  lemma {:induction false} NoQuantityTail(line: string, i: nat)
    requires EndsLikeAName(line) && 1 <= i
    ensures QuantityTail(line, i).None?
    decreases |line| - i
  {
    if i < |line| {
      NoQuantityFrom(line, i);
      NoQuantityTail(line, i + 1);
    }
  }

  /** `Tritanium` alone is one Tritanium, and so is any clean name that does not end like a number. */
  lemma BareLine(name: string)
    requires IsName(name) && EndsLikeAName(name) && |name| <= 200
    ensures ParseLine(name) == Some(Entry(name, 1))
  {
    NoQuantityTail(name, 1);
    CleanLine(name);
  }

  // --- A name and a quantity in columns --------------------------------------------

  lemma {:induction false} SplitFirst(name: string, line: string, rest: string)
    requires '\t' !in name && line == name + "\t" + rest
    ensures SplitTabs(line) == [name] + SplitTabs(rest)
  {
    if name == [] {
      assert line[1..] == rest;
    } else {
      SplitFirst(name[1..], line[1..], rest);
      assert [name[0]] + name[1..] == name;
    }
  }

  lemma {:induction false} SplitOnly(token: string)
    requires '\t' !in token
    ensures SplitTabs(token) == [token]
  {
    if token != [] {
      SplitOnly(token[1..]);
      assert [token[0]] + token[1..] == token;
    }
  }

  /** The first two columns of a line, whatever follows. */
  lemma Columns(name: string, token: string, rest: string)
    requires '\t' !in name && '\t' !in token && (rest == [] || rest[0] == '\t')
    ensures |SplitTabs(name + "\t" + token + rest)| >= 2
    ensures SplitTabs(name + "\t" + token + rest)[0] == name && SplitTabs(name + "\t" + token + rest)[1] == token
  {
    var tail := token + rest;
    SplitFirst(name, name + "\t" + token + rest, tail);
    if rest == [] {
      assert tail == token;
      SplitOnly(token);
    } else {
      SplitFirst(token, tail, rest[1..]);
    }
  }

  lemma ToIntReading(token: string)
    requires Digits(token) != []
    ensures ToInt(token) == Some(Limited(Reading(token)))
  {
  }

  lemma FirstFound(pieces: seq<string>, qty: int)
    requires pieces != [] && ToInt(Strip(pieces[0])) == Some(qty) && qty >= 1
    ensures FirstQuantity(pieces) == Some(qty)
  {
  }

  lemma TabAt(pieces: seq<string>, name: string, token: string)
    requires |pieces| >= 2 && pieces[0] == name && pieces[1] == token && IsName(name)
    requires Digits(Strip(token)) != [] && Reading(Strip(token)) >= 1
    ensures ColumnsEntry(pieces) == Entry(name, Limited(Reading(Strip(token))))
  {
    assert pieces[1..][0] == token;
    StripFixed(name);
    ToIntReading(Strip(token));
    FirstFound(pieces[1..], Limited(Reading(Strip(token))));
  }

  function Shown(column: string): nat {
    Reading(Strip(column))
  }

  /** Column `j` is the first that shows a quantity. */
  predicate ShowsFirst(columns: seq<string>, j: nat) {
    j < |columns| && Shown(columns[j]) >= 1 && forall i | 0 <= i < j :: Shown(columns[i]) == 0
  }

  /** `q` is the quantity of the first column that shows one, column `j`, or none does. */
  predicate SaysFirst(columns: seq<string>, q: Option<int>, j: nat) {
    if q.Some? then ShowsFirst(columns, j) && q == Some(Limited(Shown(columns[j])))
    else forall i | 0 <= i < |columns| :: Shown(columns[i]) == 0
  }

  lemma SaysNext(columns: seq<string>, q: Option<int>, j: nat)
    requires columns != [] && Shown(columns[0]) == 0 && SaysFirst(columns[1..], q, j)
    ensures SaysFirst(columns, q, j + 1)
  {
    ShiftBack(columns, Shown, if q.Some? then j else |columns| - 1);
  }

  /** What holds of the columns behind the first, and of the first, holds of all. */
  lemma ShiftBack(columns: seq<string>, shown: string -> nat, n: nat)
    requires n < |columns| && shown(columns[0]) == 0 && forall i | 0 <= i < n :: shown(columns[1..][i]) == 0
    ensures forall i | 0 <= i < n + 1 :: shown(columns[i]) == 0
  {
    assert forall i | 0 < i < n + 1 :: columns[i] == columns[1..][i - 1];
  }

  lemma FirstQuantityNext(columns: seq<string>)
    requires columns != []
    ensures FirstQuantity(columns)
         == if Shown(columns[0]) >= 1 then Some(Limited(Shown(columns[0]))) else FirstQuantity(columns[1..])
  {
    TokenReads(Strip(columns[0]));
    ShownOrNot(columns[0]);
  }

  lemma {:induction false} FirstQuantitySays(columns: seq<string>) returns (j: nat)
    ensures SaysFirst(columns, FirstQuantity(columns), j)
  {
    j := 0;
    if columns != [] {
      FirstQuantityNext(columns);
      if Shown(columns[0]) == 0 {
        j := FirstQuantitySays(columns[1..]);
        SaysNext(columns, FirstQuantity(columns[1..]), j);
        j := j + 1;
      }
    }
  }

  lemma ShownOrNot(column: string)
    ensures Shown(column) == 0 <==> ToInt(Strip(column)).None? || ToInt(Strip(column)).value == 0
  {
  }

  /** A clean line with columns is the first column's name, with the quantity of the first later column that
      shows one, wherever that is, and one when none does. */
  lemma ColumnsLine(line: string) returns (j: nat)
    requires line != [] && !IsSpace(line[0]) && !IsSpace(line[|line| - 1]) && |line| <= 200 && '\t' in line
    ensures var columns := SplitTabs(line)[1..];
      && (ShowsFirst(columns, j) || forall i | 0 <= i < |columns| :: Shown(columns[i]) == 0)
      && ParseLine(line) == Some(Entry(Strip(SplitTabs(line)[0]), if ShowsFirst(columns, j) then Limited(Shown(columns[j])) else 1))
  {
    CleanLine(line);
    j := FirstQuantitySays(SplitTabs(line)[1..]);
  }

  /** `Tritanium<tab>100<tab>Mineral`: the name, and the second column as the quantity when it shows one. */
  lemma TabbedLine(line: string, name: string, token: string, rest: string)
    requires line == name + "\t" + token + rest && |line| <= 200 && !IsSpace(line[|line| - 1])
    requires IsName(name) && '\t' !in token && (rest == [] || rest[0] == '\t')
    requires Digits(Strip(token)) != [] && Reading(Strip(token)) >= 1
    ensures ParseLine(line) == Some(Entry(name, Limited(Reading(Strip(token)))))
  {
    assert line[0] == name[0] && '\t' in line by { assert line[|name|] == '\t'; }
    Columns(name, token, rest);
    TabAt(SplitTabs(line), name, token);
    CleanLine(line);
  }

  // --- A whole manifest ------------------------------------------------------------

  datatype Layout = Spaced(gap: string, mark: string) | Tabbed(rest: string)

  predicate IsLayout(layout: Layout) {
    match layout
    case Spaced(gap, mark) => IsGap(gap) && mark in {"", "x", "X"}
    case Tabbed(rest) => rest == [] || (rest[0] == '\t' && !IsSpace(rest[|rest| - 1]))
  }

  function Print(e: Entry, layout: Layout): string
    requires e.qty >= 0
  {
    match layout
    case Spaced(gap, mark) => e.name + gap + mark + Numeral(e.qty)
    case Tabbed(rest) => e.name + "\t" + Numeral(e.qty) + rest
  }

  /** A printed item is read back as itself in every layout. */
  lemma PrintedLine(line: string, e: Entry, layout: Layout)
    requires IsName(e.name) && 1 <= e.qty <= 1_000_000_000_000 && IsLayout(layout)
    requires line == Print(e, layout) && |line| <= 200
    ensures ParseLine(line) == Some(e)
  {
    match layout
    case Spaced(gap, mark) =>
      PrintedBehind(line, e, gap, mark);
    case Tabbed(rest) =>
      PrintedInColumns(line, e, rest);
  }

  lemma PrintedBehind(line: string, e: Entry, gap: string, mark: string)
    requires IsName(e.name) && 1 <= e.qty <= MAX_QTY && IsGap(gap) && mark in {"", "x", "X"}
    requires line == e.name + gap + mark + Numeral(e.qty) && |line| <= MAX_LINE
    ensures ParseLine(line) == Some(e)
  {
    NumeralReading(e.qty);
    SpacedLine(e.name, gap, mark, Numeral(e.qty));
  }

  lemma PrintedInColumns(line: string, e: Entry, rest: string)
    requires IsName(e.name) && 1 <= e.qty <= MAX_QTY && IsLayout(Tabbed(rest))
    requires line == e.name + "\t" + Numeral(e.qty) + rest && |line| <= MAX_LINE
    ensures ParseLine(line) == Some(e)
  {
    ColumnEnd(line, e, rest);
    ColumnReading(e.qty);
    TabbedLine(line, e.name, Numeral(e.qty), rest);
  }

  lemma ColumnEnd(line: string, e: Entry, rest: string)
    requires e.qty >= 0 && IsLayout(Tabbed(rest)) && line == e.name + "\t" + Numeral(e.qty) + rest
    ensures !IsSpace(line[|line| - 1])
  {
    ColumnsEnd(e.name + "\t", Numeral(e.qty), rest);
  }

  lemma ColumnReading(qty: nat)
    requires 1 <= qty <= MAX_QTY
    ensures var token := Numeral(qty);
      '\t' !in token && Digits(Strip(token)) != [] && Reading(Strip(token)) >= 1 && Limited(Reading(Strip(token))) == qty
  {
    NumeralColumn(qty);
  }

  lemma NumeralColumn(n: nat)
    ensures Strip(Numeral(n)) == Numeral(n) && '\t' !in Numeral(n)
    ensures Digits(Numeral(n)) != [] && Reading(Numeral(n)) == n
  {
    StripFixed(Numeral(n));
    NumeralReading(n);
  }

  lemma ColumnsEnd(front: string, token: string, rest: string)
    requires token != [] && forall i | 0 <= i < |token| :: IsDigit(token[i])
    requires rest == [] || !IsSpace(rest[|rest| - 1])
    ensures var line := front + token + rest; !IsSpace(line[|line| - 1])
  {
    var line := front + token + rest;
    assert line[|line| - 1] == if rest == [] then token[|token| - 1] else rest[|rest| - 1];
  }

  lemma {:induction false} PresentEach(parsed: seq<Option<Entry>>, entries: seq<Entry>)
    requires |parsed| == |entries|
    requires forall k | 0 <= k < |parsed| :: parsed[k] == Some(entries[k])
    ensures Present(parsed) == entries
  {
    if parsed != [] {
      var n := |parsed| - 1;
      PresentEach(parsed[..n], entries[..n]);
      assert entries == entries[..n] + [entries[n]];
    }
  }

  lemma {:induction false} MergedDistinct(entries: seq<Entry>)
    requires forall i, j | 0 <= i < j < |entries| :: KeyOf(entries[i]) != KeyOf(entries[j])
    ensures Merged(entries) == entries
  {
    if entries != [] {
      var before, e := entries[..|entries| - 1], entries[|entries| - 1];
      MergedDistinct(before);
      assert entries == before + [e];
      MergedNew(before, e);
    }
  }

  /** A manifest of distinct items pasted in any mix of layouts comes back unchanged. */
  lemma ManifestRoundTrip(entries: seq<Entry>, layouts: seq<Layout>, lines: seq<string>)
    requires |entries| == |layouts| == |lines| <= 500
    requires forall i | 0 <= i < |entries| ::
      IsName(entries[i].name) && 1 <= entries[i].qty <= 1_000_000_000_000 && IsLayout(layouts[i])
    requires forall i | 0 <= i < |entries| :: lines[i] == Print(entries[i], layouts[i]) && |lines[i]| <= 200
    requires forall i, j | 0 <= i < j < |entries| :: KeyOf(entries[i]) != KeyOf(entries[j])
    ensures Merged(ParseAll(Capped(lines))) == entries
  {
    forall i | 0 <= i < |lines|
      ensures ParseLine(lines[i]) == Some(entries[i])
    {
      PrintedLine(lines[i], entries[i], layouts[i]);
    }
    PresentEach(Parsed(lines), entries);
    MergedDistinct(entries);
  }
}
