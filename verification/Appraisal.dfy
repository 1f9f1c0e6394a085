/** Pricing a parsed paste: type resolution, Jita or refined value, haircut and rounding. */
module Appraisal {
  import opened Options
  import opened PasteParser

  /** The category of raw ore and ice, the only one reprocessed in ore mode. */
  const ASTEROID := 25

  datatype Material = Material(typeId: int, quantity: nat)

  datatype ItemType = ItemType(typeId: int, name: string, category: int, portion: nat, materials: seq<Material>)

  /** The newest recorded sell price of a type, which may be empty, and the base prices behind it. */
  datatype Market = Market(sell: map<int, Option<real>>, base: map<int, Option<real>>)

  /** Everything an appraisal depends on besides the paste; `types` are in ascending id order. */
  datatype Terms = Terms(types: seq<ItemType>, market: Market, rate: real, oreMode: bool, refineYield: real)

  datatype Basis = Jita | Reprocessed

  datatype Line = Line(name: string, typeId: int, quantity: int, unitJita: real, lineJita: real, lineOffer: real, basis: Basis)

  datatype Result = Result(lines: seq<Line>, unknown: seq<string>, jitaTotal: real, offerTotal: real)

  // --- Rounding --------------------------------------------------------------

  function RoundHalfUp(x: real): int {
    if x >= 0.0 then (x + 0.5).Floor else -((-x + 0.5).Floor)
  }

  /** Two decimals, halves away from zero. */
  function Q(value: real): real {
    RoundHalfUp(value * 100.0) as real / 100.0
  }

  // --- Name resolution -------------------------------------------------------

  predicate Ascending(types: seq<ItemType>) {
    forall i, j | 0 <= i < j < |types| :: types[i].typeId < types[j].typeId
  }

  /** The single-name lookup: among the types of that name in any case, the one with the lowest id. */
  ghost predicate IsLowest(types: seq<ItemType>, key: string, found: Option<ItemType>) {
    match found
    case None => forall t | t in types :: Lower(t.name) != key
    case Some(item) => item in types && Lower(item.name) == key
                       && forall t | t in types && Lower(t.name) == key :: item.typeId <= t.typeId
  }

  function Lookup(types: seq<ItemType>, key: string): (found: Option<ItemType>)
    ensures Ascending(types) ==> IsLowest(types, key, found)
  {
    if types == [] then None
    else if Lower(types[0].name) == key then Some(types[0])
    else Lookup(types[1..], key)
  }

  /** The lookup is fixed by what it finds, so every way of finding the lowest id agrees. */
  lemma LowestUnique(types: seq<ItemType>, key: string, a: Option<ItemType>, b: Option<ItemType>)
    requires Ascending(types) && IsLowest(types, key, a) && IsLowest(types, key, b)
    ensures a == b
  {
  }

  function Find(types: seq<ItemType>, name: string): Option<ItemType> {
    if name == "" then None else Lookup(types, Lower(name))
  }

  /** The name as pasted, and failing that the name without the blanks a cut line can end in. */
  function Resolve(types: seq<ItemType>, name: string): Option<ItemType> {
    var direct := Find(types, name);
    if direct.Some? then direct else Find(types, Strip(name))
  }

  /** All names in one query: rows in ascending id order, the first row of each name kept. */
  method ResolveTypes(types: seq<ItemType>, names: seq<string>) returns (out: map<string, ItemType>)
    requires Ascending(types)
    ensures forall name | name in names && name != "" ::
      IsLowest(types, Lower(name), if Lower(name) in out then Some(out[Lower(name)]) else None)
    ensures "" !in out
  {
    var lowered := set name | name in names && name != "" :: Lower(name);
    out := map[];
    var i := 0;
    while i < |types|
      invariant 0 <= i <= |types|
      invariant "" !in out
      invariant forall key | key in lowered :: IsLowest(types[..i], key, if key in out then Some(out[key]) else None)
    {
      var key := Lower(types[i].name);
      assert types[..i + 1] == types[..i] + [types[i]];
      if key in lowered && key !in out {
        out := out[key := types[i]];
      }
      i := i + 1;
    }
    assert types[..i] == types;
  }

  // --- Prices ----------------------------------------------------------------

  function PriceOf(market: Market, typeId: int): real {
    if typeId in market.sell && market.sell[typeId].Some? then market.sell[typeId].value
    else if typeId in market.base && market.base[typeId].Some? then market.base[typeId].value
    else 0.0
  }

  function Portion(item: ItemType): (p: nat)
    ensures p >= 1
  {
    if item.portion == 0 then 1 else item.portion
  }

  /** What one portion refines into, at the price of each material. */
  function RefinedValue(market: Market, materials: seq<Material>): real {
    if materials == [] then 0.0 else
      var n := |materials| - 1;
      RefinedValue(market, materials[..n]) + PriceOf(market, materials[n].typeId) * materials[n].quantity as real
  }

  function ClampedYield(terms: Terms): real {
    if terms.refineYield < 0.0 then 0.0 else if terms.refineYield > 1.0 then 1.0 else terms.refineYield
  }

  predicate Reprocesses(terms: Terms, item: ItemType) {
    terms.oreMode && item.category == ASTEROID && item.materials != []
  }

  function UnitPrice(terms: Terms, item: ItemType): real {
    if Reprocesses(terms, item) then
      RefinedValue(terms.market, item.materials) / Portion(item) as real * ClampedYield(terms)
    else
      PriceOf(terms.market, item.typeId)
  }

  /** A quantity at its exact unit price, before any rounding. */
  function Exact(unit: real, qty: int): real {
    unit * qty as real
  }

  function Haircut(total: real, rate: real): real {
    total * rate
  }

  /** A row at its unit price: the line total is rounded first, and the haircut applied to that. */
  function LineAt(item: ItemType, qty: int, unit: real, rate: real, basis: Basis): Line {
    var lineJita := Q(Exact(unit, qty));
    Line(item.name, item.typeId, qty, Q(unit), lineJita, Q(Haircut(lineJita, rate)), basis)
  }

  function BasisOf(terms: Terms, item: ItemType): Basis {
    if Reprocesses(terms, item) then Reprocessed else Jita
  }

  function LineFor(terms: Terms, item: ItemType, qty: int): Line {
    LineAt(item, qty, UnitPrice(terms, item), terms.rate, BasisOf(terms, item))
  }

  // --- The whole paste -------------------------------------------------------

  /** A row of the paste with the type it names, if there is one. */
  datatype Match = Match(row: Entry, item: Option<ItemType>)

  function Matched(types: seq<ItemType>, rows: seq<Entry>): seq<Match> {
    seq(|rows|, i requires 0 <= i < |rows| => Match(rows[i], Resolve(types, rows[i].name)))
  }

  function LinesFor(terms: Terms, matches: seq<Match>): seq<Line> {
    if matches == [] then [] else
      var n := |matches| - 1;
      var m := matches[n];
      LinesFor(terms, matches[..n]) + if m.item.Some? then [LineFor(terms, m.item.value, m.row.qty)] else []
  }

  function UnknownIn(matches: seq<Match>): seq<string> {
    if matches == [] then [] else
      var n := |matches| - 1;
      UnknownIn(matches[..n]) + if matches[n].item.Some? then [] else [matches[n].row.name]
  }

  function SumJita(lines: seq<Line>): real {
    if lines == [] then 0.0 else SumJita(lines[..|lines| - 1]) + lines[|lines| - 1].lineJita
  }

  function SumOffer(lines: seq<Line>): real {
    if lines == [] then 0.0 else SumOffer(lines[..|lines| - 1]) + lines[|lines| - 1].lineOffer
  }

  function AppraisedMatches(terms: Terms, matches: seq<Match>): Result {
    var lines := LinesFor(terms, matches);
    Result(lines, UnknownIn(matches), Q(SumJita(lines)), Q(SumOffer(lines)))
  }

  function Appraised(terms: Terms, rows: seq<Entry>): Result {
    AppraisedMatches(terms, Matched(terms.types, rows))
  }

  /** The memo never holds anything but the price it was asked for. */
  ghost predicate Remembers(memo: map<int, real>, market: Market) {
    forall id | id in memo :: memo[id] == PriceOf(market, id)
  }

  method Price(market: Market, memo: map<int, real>, typeId: int) returns (price: real, memo': map<int, real>)
    requires Remembers(memo, market)
    ensures price == PriceOf(market, typeId) && Remembers(memo', market)
  {
    memo' := memo;
    if typeId !in memo' {
      memo' := memo'[typeId := PriceOf(market, typeId)];
    }
    price := memo'[typeId];
  }

  method UnitValue(terms: Terms, item: ItemType, memo: map<int, real>) returns (unit: real, memo': map<int, real>)
    requires Remembers(memo, terms.market)
    ensures unit == UnitPrice(terms, item) && Remembers(memo', terms.market)
  {
    memo' := memo;
    if Reprocesses(terms, item) {
      var perPortion := 0.0;
      var i := 0;
      while i < |item.materials|
        invariant 0 <= i <= |item.materials|
        invariant Remembers(memo', terms.market)
        invariant perPortion == RefinedValue(terms.market, item.materials[..i])
      {
        assert item.materials[..i + 1][..i] == item.materials[..i];
        var price;
        price, memo' := Price(terms.market, memo', item.materials[i].typeId);
        perPortion := perPortion + price * item.materials[i].quantity as real;
        i := i + 1;
      }
      assert item.materials[..i] == item.materials;
      unit := perPortion / Portion(item) as real * ClampedYield(terms);
    } else {
      unit, memo' := Price(terms.market, memo', item.typeId);
    }
  }

  /** Both spellings of every name, as the batch query asks for them. */
  function Spellings(rows: seq<Entry>): seq<string> {
    seq(|rows|, i requires 0 <= i < |rows| => rows[i].name) + seq(|rows|, i requires 0 <= i < |rows| => Strip(rows[i].name))
  }

  lemma BothSpellings(rows: seq<Entry>, i: nat)
    requires i < |rows|
    ensures rows[i].name in Spellings(rows) && Strip(rows[i].name) in Spellings(rows)
  {
    assert Spellings(rows)[i] == rows[i].name;
    assert Spellings(rows)[|rows| + i] == Strip(rows[i].name);
  }

  function Get(resolved: map<string, ItemType>, name: string): Option<ItemType> {
    if Lower(name) in resolved then Some(resolved[Lower(name)])
    else if Lower(Strip(name)) in resolved then Some(resolved[Lower(Strip(name))])
    else None
  }

  /** The batch finds for a name what its own lookup would have found. */
  lemma BatchAgrees(types: seq<ItemType>, resolved: map<string, ItemType>, name: string)
    requires Ascending(types) && "" !in resolved
    requires name != "" ==> IsLowest(types, Lower(name), if Lower(name) in resolved then Some(resolved[Lower(name)]) else None)
    ensures Find(types, name) == if Lower(name) in resolved then Some(resolved[Lower(name)]) else None
  {
    if name != "" {
      LowestUnique(types, Lower(name), if Lower(name) in resolved then Some(resolved[Lower(name)]) else None, Lookup(types, Lower(name)));
    }
  }

  method MatchRows(types: seq<ItemType>, rows: seq<Entry>) returns (matches: seq<Match>)
    requires Ascending(types)
    ensures matches == Matched(types, rows)
  {
    var resolved := ResolveTypes(types, Spellings(rows));
    forall i | 0 <= i < |rows|
      ensures Get(resolved, rows[i].name) == Resolve(types, rows[i].name)
    {
      BothSpellings(rows, i);
      BatchAgrees(types, resolved, rows[i].name);
      BatchAgrees(types, resolved, Strip(rows[i].name));
    }
    matches := seq(|rows|, i requires 0 <= i < |rows| => Match(rows[i], Get(resolved, rows[i].name)));
  }

  /** The running result after some rows; its totals are rounded only at the end. */
  ghost predicate Accumulates(result: Result, terms: Terms, matches: seq<Match>) {
    && result.lines == LinesFor(terms, matches)
    && result.unknown == UnknownIn(matches)
    && result.jitaTotal == SumJita(result.lines)
    && result.offerTotal == SumOffer(result.lines)
  }

  lemma AccumulatesNext(result: Result, terms: Terms, matches: seq<Match>, m: Match)
    requires Accumulates(result, terms, matches)
    ensures Accumulates(if m.item.None? then result.(unknown := result.unknown + [m.row.name])
                        else WithLine(result, LineFor(terms, m.item.value, m.row.qty)), terms, matches + [m])
  {
    assert (matches + [m])[..|matches|] == matches;
    if m.item.Some? {
      var line := LineFor(terms, m.item.value, m.row.qty);
      assert (result.lines + [line])[..|result.lines|] == result.lines;
    }
  }

  function WithLine(result: Result, line: Line): Result {
    Result(result.lines + [line], result.unknown, result.jitaTotal + line.lineJita, result.offerTotal + line.lineOffer)
  }

  method PricedLine(terms: Terms, item: ItemType, qty: int, memo: map<int, real>) returns (line: Line, memo': map<int, real>)
    requires Remembers(memo, terms.market)
    ensures line == LineFor(terms, item, qty) && Remembers(memo', terms.market)
  {
    var unit;
    unit, memo' := UnitValue(terms, item, memo);
    line := LineAt(item, qty, unit, terms.rate, BasisOf(terms, item));
  }

  method AppraiseMatches(matches: seq<Match>, terms: Terms) returns (result: Result)
    ensures result == AppraisedMatches(terms, matches)
  {
    var memo: map<int, real> := map[];
    result := Result([], [], 0.0, 0.0);
    var i := 0;
    while i < |matches|
      invariant 0 <= i <= |matches|
      invariant Remembers(memo, terms.market)
      invariant Accumulates(result, terms, matches[..i])
    {
      AccumulatesNext(result, terms, matches[..i], matches[i]);
      assert matches[..i + 1] == matches[..i] + [matches[i]];
      var row, item := matches[i].row, matches[i].item;
      if item.None? {
        result := result.(unknown := result.unknown + [row.name]);
      } else {
        var line;
        line, memo := PricedLine(terms, item.value, row.qty, memo);
        result := WithLine(result, line);
      }
      i := i + 1;
    }
    assert matches[..i] == matches;
    result := result.(jitaTotal := Q(result.jitaTotal), offerTotal := Q(result.offerTotal));
  }

  /** The appraisal of pasted lines: every row priced, the unknown names listed, the totals rounded. */
  method Appraise(lines: seq<string>, terms: Terms) returns (result: Result)
    requires Ascending(terms.types)
    ensures result == Appraised(terms, Merged(ParseAll(if |lines| > 500 then lines[..500] else lines)))
  {
    var rows := ParseLines(lines);
    var matches := MatchRows(terms.types, rows);
    result := AppraiseMatches(matches, terms);
  }
}
