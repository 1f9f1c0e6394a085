/** What every appraisal promises the seller and the buyer. */
module AppraisalLaws {
  import opened Options
  import opened PasteParser
  import opened Appraisal

  // --- Rounding to two decimals ------------------------------------------------

  /** A whole number of cents. */
  predicate IsCents(x: real) {
    (x * 100.0).Floor as real == x * 100.0
  }

  lemma RoundNear(x: real)
    ensures -0.5 <= RoundHalfUp(x) as real - x <= 0.5
    ensures x >= 0.0 ==> RoundHalfUp(x) >= 0
    ensures x.Floor as real == x ==> RoundHalfUp(x) == x.Floor
  {
  }

  lemma RoundMonotone(x: real, y: real)
    requires x <= y
    ensures RoundHalfUp(x) <= RoundHalfUp(y)
  {
  }

  lemma CentsFloor(x: real, n: int)
    requires x == n as real / 100.0
    ensures x * 100.0 == n as real && IsCents(x)
  {
    assert (n as real).Floor == n;
  }

  /** Rounding moves a value by at most half a cent, to a whole number of cents; a value that is one
      already stays. */
  lemma QNear(x: real)
    ensures -0.005 <= Q(x) - x <= 0.005
    ensures IsCents(Q(x))
    ensures IsCents(x) ==> Q(x) == x
    ensures x >= 0.0 ==> Q(x) >= 0.0
  {
    RoundNear(x * 100.0);
    CentsFloor(Q(x), RoundHalfUp(x * 100.0));
  }

  lemma QMonotone(x: real, y: real)
    requires x <= y
    ensures Q(x) <= Q(y)
  {
    RoundMonotone(x * 100.0, y * 100.0);
  }

  /** Of two equally near cents the one further from zero is taken. */
  lemma HalvesGoUp(n: int)
    ensures n >= 0 ==> Q((n as real + 0.5) / 100.0) == (n as real + 1.0) / 100.0
    ensures n >= 0 ==> Q(-(n as real + 0.5) / 100.0) == -(n as real + 1.0) / 100.0
  {
    if n >= 0 {
      var x := n as real + 0.5;
      assert x / 100.0 * 100.0 == x && (x + 0.5).Floor == n + 1;
      assert -x / 100.0 * 100.0 == -x;
    }
  }

  lemma CentsAdd(x: real, y: real)
    requires IsCents(x) && IsCents(y)
    ensures IsCents(x + y)
  {
    var m, n := (x * 100.0).Floor, (y * 100.0).Floor;
    assert (x + y) * 100.0 == (m + n) as real;
  }

  // --- Prices are never negative -------------------------------------------------

  /** A rate within bounds, and no recorded price below zero. */
  predicate Priced(terms: Terms) {
    && 0.0 <= terms.rate <= 1.0
    && NonNegative(terms.market.sell) && NonNegative(terms.market.base)
  }

  predicate NonNegative(prices: map<int, Option<real>>) {
    forall id | id in prices && prices[id].Some? :: prices[id].value >= 0.0
  }

  predicate IsTraded(market: Market, id: int) {
    id in market.sell && market.sell[id].Some?
  }

  /** Every price the item's value draws on has been recorded on the market. */
  predicate AllTraded(terms: Terms, item: ItemType) {
    if Reprocesses(terms, item) then forall i | 0 <= i < |item.materials| :: IsTraded(terms.market, item.materials[i].typeId)
    else IsTraded(terms.market, item.typeId)
  }

  lemma {:induction false} RefinedIgnoresBase(market: Market, base: map<int, Option<real>>, materials: seq<Material>)
    requires forall i | 0 <= i < |materials| :: IsTraded(market, materials[i].typeId)
    ensures RefinedValue(market.(base := base), materials) == RefinedValue(market, materials)
  {
    if materials != [] {
      RefinedIgnoresBase(market, base, materials[..|materials| - 1]);
    }
  }

  lemma TradedUnitIgnoresBase(terms: Terms, base: map<int, Option<real>>, item: ItemType)
    requires AllTraded(terms, item)
    ensures UnitPrice(terms.(market := terms.market.(base := base)), item) == UnitPrice(terms, item)
  {
    if Reprocesses(terms, item) {
      RefinedIgnoresBase(terms.market, base, item.materials);
    }
  }

  /** Base prices are a fallback only: where the market has every price a line draws on, in ore mode the
      price of every mineral, no change of base prices changes the line. */
  lemma TradedLineIgnoresBase(terms: Terms, base: map<int, Option<real>>, item: ItemType, qty: int)
    requires AllTraded(terms, item)
    ensures LineFor(terms.(market := terms.market.(base := base)), item, qty) == LineFor(terms, item, qty)
  {
    var changed := terms.(market := terms.market.(base := base));
    TradedUnitIgnoresBase(terms, base, item);
    SameUnitSameLine(item, qty, UnitPrice(changed, item), UnitPrice(terms, item), terms.rate, BasisOf(terms, item));
  }

  lemma SameUnitSameLine(item: ItemType, qty: int, a: real, b: real, rate: real, basis: Basis)
    requires a == b
    ensures LineAt(item, qty, a, rate, basis) == LineAt(item, qty, b, rate, basis)
  {
  }

  lemma TimesNonNegative(x: real, y: real)
    requires x >= 0.0 && y >= 0.0
    ensures x * y >= 0.0
  {
  }

  lemma {:induction false} RefinedNonNegative(market: Market, materials: seq<Material>)
    requires NonNegative(market.sell) && NonNegative(market.base)
    ensures RefinedValue(market, materials) >= 0.0
  {
    if materials != [] {
      var n := |materials| - 1;
      RefinedNonNegative(market, materials[..n]);
      TimesNonNegative(PriceOf(market, materials[n].typeId), materials[n].quantity as real);
    }
  }

  lemma UnitNonNegative(terms: Terms, item: ItemType)
    requires Priced(terms)
    ensures UnitPrice(terms, item) >= 0.0
  {
    if Reprocesses(terms, item) {
      RefinedNonNegative(terms.market, item.materials);
      var perUnit := RefinedValue(terms.market, item.materials) / Portion(item) as real;
      assert perUnit >= 0.0;
      TimesNonNegative(perUnit, ClampedYield(terms));
    }
  }

  /** Refining never counts for more than the whole mineral content, whatever yield is configured. */
  lemma YieldIsClamped(terms: Terms, item: ItemType)
    requires Priced(terms) && Reprocesses(terms, item)
    ensures UnitPrice(terms, item) * Portion(item) as real <= RefinedValue(terms.market, item.materials)
  {
    RefinedNonNegative(terms.market, item.materials);
    var p, whole := Portion(item) as real, RefinedValue(terms.market, item.materials);
    var perUnit, share := whole / p, ClampedYield(terms);
    assert perUnit * p == whole;
    ScaleDown(perUnit, share);
    Scale(perUnit * share, perUnit, p);
  }

  lemma ScaleDown(x: real, share: real)
    requires x >= 0.0 && 0.0 <= share <= 1.0
    ensures 0.0 <= x * share <= x
  {
    TimesNonNegative(x, share);
    TimesNonNegative(x, 1.0 - share);
    assert x * (1.0 - share) == x - x * share;
  }

  lemma Scale(x: real, y: real, p: real)
    requires x <= y && p >= 0.0
    ensures x * p <= y * p
  {
    TimesNonNegative(y - x, p);
  }

  // --- One line --------------------------------------------------------------------

  /** Both amounts are whole cents, each within half a cent of what it stands for, and the offer is
      never above the total. */
  ghost predicate FairAmounts(jita: real, offer: real, exact: real, cut: real) {
    && IsCents(jita) && IsCents(offer)
    && -0.005 <= jita - exact <= 0.005
    && -0.005 <= offer - cut <= 0.005
    && 0.0 <= offer <= jita
  }

  /** The total stands for the unit price times the quantity, and the offer for the rate of that total. */
  ghost predicate FairLine(line: Line, unit: real, rate: real) {
    FairAmounts(line.lineJita, line.lineOffer, Exact(unit, line.quantity), Haircut(line.lineJita, rate))
  }

  lemma RoundedTwice(exact: real, cut: real)
    requires exact >= 0.0 && 0.0 <= cut <= Q(exact)
    ensures FairAmounts(Q(exact), Q(cut), exact, cut)
  {
    QNear(exact);
    QNear(cut);
    QNear(Q(exact));
    QMonotone(cut, Q(exact));
  }

  lemma CutBetween(exact: real, rate: real)
    requires exact >= 0.0 && 0.0 <= rate <= 1.0
    ensures 0.0 <= Haircut(Q(exact), rate) <= Q(exact)
  {
    QNear(exact);
    ScaleDown(Q(exact), rate);
  }

  lemma ExactNonNegative(unit: real, qty: int)
    requires unit >= 0.0 && qty >= 0
    ensures Exact(unit, qty) >= 0.0
  {
    TimesNonNegative(unit, qty as real);
  }

  lemma AmountsAreFair(item: ItemType, qty: int, unit: real, rate: real, basis: Basis)
    requires unit >= 0.0 && qty >= 0 && 0.0 <= rate <= 1.0
    ensures FairLine(LineAt(item, qty, unit, rate, basis), unit, rate)
  {
    ExactNonNegative(unit, qty);
    CutBetween(Exact(unit, qty), rate);
    RoundedTwice(Exact(unit, qty), Haircut(Q(Exact(unit, qty)), rate));
  }

  /** The unit price shown is the exact one to half a cent, and only ore and ice are ever refined. */
  lemma UnitShown(terms: Terms, item: ItemType, qty: int)
    ensures var line := LineFor(terms, item, qty);
      && -0.005 <= line.unitJita - UnitPrice(terms, item) <= 0.005
      && (line.basis.Reprocessed? <==> terms.oreMode && item.category == 25 && item.materials != [])
      && (line.basis.Jita? ==> IsPrice(terms.market, item.typeId, UnitPrice(terms, item)))
  {
    QNear(UnitPrice(terms, item));
  }

  lemma LineIsFair(terms: Terms, item: ItemType, qty: int)
    requires Priced(terms) && qty >= 0
    ensures FairLine(LineFor(terms, item, qty), UnitPrice(terms, item), terms.rate)
    ensures var line := LineFor(terms, item, qty); line.typeId == item.typeId && line.name == item.name && line.quantity == qty
  {
    UnitNonNegative(terms, item);
    AmountsAreFair(item, qty, UnitPrice(terms, item), terms.rate, BasisOf(terms, item));
  }

  // --- What a line is worth, in the market's own fields -------------------------------

  /** `p` is the newest sell price on record, failing that the base price, failing that nothing. */
  predicate IsPrice(market: Market, id: int, p: real) {
    if id in market.sell && market.sell[id].Some? then p == market.sell[id].value
    else if id in market.base && market.base[id].Some? then p == market.base[id].value
    else p == 0.0
  }

  function Worth(prices: seq<real>, materials: seq<Material>): real
    requires |prices| == |materials|
  {
    if prices == [] then 0.0 else
      var n := |prices| - 1;
      Worth(prices[..n], materials[..n]) + prices[n] * materials[n].quantity as real
  }

  /** The minerals of one portion, shared among its units, and of that share the part the yield lets through. */
  function Share(worth: real, portion: nat, refineYield: real): real {
    worth / (if portion == 0 then 1 else portion) as real
    * (if refineYield < 0.0 then 0.0 else if refineYield > 1.0 then 1.0 else refineYield)
  }

  /** `u` is the exact price of one unit: of ore and ice in ore mode its share of the minerals they refine
      into, each at its own price, and of everything else its own price. */
  ghost predicate IsUnit(terms: Terms, item: ItemType, u: real) {
    if terms.oreMode && item.category == 25 && item.materials != [] then
      exists prices: seq<real> | |prices| == |item.materials| ::
        && (forall i | 0 <= i < |prices| :: IsPrice(terms.market, item.materials[i].typeId, prices[i]))
        && u == Share(Worth(prices, item.materials), item.portion, terms.refineYield)
    else IsPrice(terms.market, item.typeId, u)
  }

  lemma {:induction false} MineralPrices(market: Market, materials: seq<Material>) returns (prices: seq<real>)
    ensures |prices| == |materials| && forall i | 0 <= i < |prices| :: IsPrice(market, materials[i].typeId, prices[i])
    ensures RefinedValue(market, materials) == Worth(prices, materials)
  {
    if materials == [] {
      prices := [];
    } else {
      var n := |materials| - 1;
      prices := MineralPrices(market, materials[..n]);
      WorthNext(prices, materials, PriceOf(market, materials[n].typeId));
      prices := prices + [PriceOf(market, materials[n].typeId)];
    }
  }

  lemma WorthNext(prices: seq<real>, materials: seq<Material>, p: real)
    requires |prices| == |materials| - 1
    ensures Worth(prices + [p], materials)
         == Worth(prices, materials[..|materials| - 1]) + p * materials[|materials| - 1].quantity as real
  {
    assert (prices + [p])[..|prices|] == prices;
  }

  lemma ShareIs(worth: real, refined: real, item: ItemType, terms: Terms)
    requires worth == refined
    ensures Share(worth, item.portion, terms.refineYield) == refined / Portion(item) as real * ClampedYield(terms)
  {
  }

  lemma UnitIs(terms: Terms, item: ItemType)
    ensures IsUnit(terms, item, UnitPrice(terms, item))
  {
    if Reprocesses(terms, item) {
      var prices := MineralPrices(terms.market, item.materials);
      ShareIs(Worth(prices, item.materials), RefinedValue(terms.market, item.materials), item, terms);
    }
  }

  lemma {:induction false} LineOfRow(terms: Terms, matches: seq<Match>, n: nat) returns (i: nat)
    requires n < |LinesFor(terms, matches)|
    ensures i < |matches| && matches[i].item.Some? && LinesFor(terms, matches)[n] == LineFor(terms, matches[i].item.value, matches[i].row.qty)
  {
    var before := matches[..|matches| - 1];
    if n < |LinesFor(terms, before)| {
      i := LineOfRow(terms, before, n);
    } else {
      i := |matches| - 1;
    }
  }

  lemma ExactIs(unit: real, qty: int)
    ensures Exact(unit, qty) == unit * qty as real
  {
  }

  lemma HaircutIs(total: real, rate: real)
    ensures Haircut(total, rate) == rate * total
  {
  }

  /** The amounts shown are each within half a cent of what they stand for. */
  ghost predicate ShowsWorth(line: Line, qty: int, unit: real, rate: real) {
    && -0.005 <= line.unitJita - unit <= 0.005
    && -0.005 <= line.lineJita - unit * qty as real <= 0.005
    && -0.005 <= line.lineOffer - rate * line.lineJita <= 0.005
  }

  lemma AmountsAre(item: ItemType, qty: int, unit: real, rate: real, basis: Basis)
    ensures ShowsWorth(LineAt(item, qty, unit, rate, basis), qty, unit, rate)
  {
    ExactIs(unit, qty);
    QNear(unit);
    QNear(Exact(unit, qty));
    HaircutIs(Q(Exact(unit, qty)), rate);
    QNear(Haircut(Q(Exact(unit, qty)), rate));
  }

  lemma LineFrom(terms: Terms, rows: seq<Entry>, n: nat) returns (i: nat, item: ItemType, unit: real, basis: Basis)
    requires n < |Appraised(terms, rows).lines|
    ensures i < |rows| && Resolve(terms.types, rows[i].name) == Some(item) && IsUnit(terms, item, unit)
    ensures Appraised(terms, rows).lines[n] == LineAt(item, rows[i].qty, unit, terms.rate, basis)
    ensures basis.Reprocessed? <==> terms.oreMode && item.category == 25 && item.materials != []
  {
    i := LineOfRow(terms, Matched(terms.types, rows), n);
    item := Matched(terms.types, rows)[i].item.value;
    unit, basis := UnitPrice(terms, item), BasisOf(terms, item);
    UnitIs(terms, item);
  }

  /** Every line of an appraisal prices a row of the paste that names a type: its total is within half a cent of
      the exact unit price times the row's quantity, its offer within half a cent of the rate of that total. */
  lemma LineIsWorth(terms: Terms, rows: seq<Entry>, n: nat) returns (i: nat, item: ItemType, unit: real)
    requires n < |Appraised(terms, rows).lines|
    ensures i < |rows| && Resolve(terms.types, rows[i].name) == Some(item) && IsUnit(terms, item, unit)
    ensures var line := Appraised(terms, rows).lines[n];
      && line.name == item.name && line.typeId == item.typeId && line.quantity == rows[i].qty
      && ShowsWorth(line, rows[i].qty, unit, terms.rate)
      && (line.basis.Reprocessed? <==> terms.oreMode && item.category == 25 && item.materials != [])
  {
    var basis;
    i, item, unit, basis := LineFrom(terms, rows, n);
    AmountsAre(item, rows[i].qty, unit, terms.rate, basis);
  }

  // --- The totals --------------------------------------------------------------------

  ghost predicate FairTotals(jita: real, offer: real, rate: real, n: nat) {
    && IsCents(jita) && IsCents(offer)
    && 0.0 <= offer <= jita
    && -0.005 * n as real <= offer - rate * jita <= 0.005 * n as real
  }

  lemma NothingIsFair(rate: real)
    ensures FairTotals(0.0, 0.0, rate, 0)
  {
    CentsFloor(0.0, 0);
  }

  lemma {:induction false} SumsAreFair(terms: Terms, matches: seq<Match>)
    requires Priced(terms)
    requires forall i | 0 <= i < |matches| :: matches[i].row.qty >= 0
    ensures var lines := LinesFor(terms, matches); FairTotals(SumJita(lines), SumOffer(lines), terms.rate, |lines|)
  {
    if matches == [] {
      NothingIsFair(terms.rate);
    } else {
      var front, m := matches[..|matches| - 1], matches[|matches| - 1];
      SumsAreFair(terms, front);
      if m.item.None? {
        assert LinesFor(terms, matches) == LinesFor(terms, front);
      } else {
        OneLineMore(terms, LinesFor(terms, front), m.item.value, m.row.qty);
      }
    }
  }

  lemma OneLineMore(terms: Terms, lines: seq<Line>, item: ItemType, qty: int)
    requires Priced(terms) && qty >= 0
    requires FairTotals(SumJita(lines), SumOffer(lines), terms.rate, |lines|)
    ensures var more := lines + [LineFor(terms, item, qty)]; FairTotals(SumJita(more), SumOffer(more), terms.rate, |more|)
  {
    var line := LineFor(terms, item, qty);
    assert (lines + [line])[..|lines|] == lines;
    LineIsFair(terms, item, qty);
    FairAdd(SumJita(lines), SumOffer(lines), terms.rate, |lines|, line.lineJita, line.lineOffer);
  }

  lemma FairAdd(jita: real, offer: real, rate: real, n: nat, lineJita: real, lineOffer: real)
    requires FairTotals(jita, offer, rate, n)
    requires IsCents(lineJita) && IsCents(lineOffer) && 0.0 <= lineOffer <= lineJita
    requires -0.005 <= lineOffer - Haircut(lineJita, rate) <= 0.005
    ensures FairTotals(jita + lineJita, offer + lineOffer, rate, n + 1)
  {
    CentsAdd(jita, lineJita);
    CentsAdd(offer, lineOffer);
    assert rate * (jita + lineJita) == rate * jita + lineJita * rate;
  }

  /** The final rounding of the totals changes nothing, the offer lies between nothing and the Jita
      value, and it misses the rate by at most half a cent a line, in ore mode too. */
  lemma AppraisalIsFair(terms: Terms, rows: seq<Entry>)
    requires Priced(terms)
    requires forall i | 0 <= i < |rows| :: rows[i].qty >= 0
    ensures var result := Appraised(terms, rows);
      && result.jitaTotal == SumJita(result.lines)
      && result.offerTotal == SumOffer(result.lines)
      && FairTotals(result.jitaTotal, result.offerTotal, terms.rate, |result.lines|)
  {
    var lines := LinesFor(terms, Matched(terms.types, rows));
    SumsAreFair(terms, Matched(terms.types, rows));
    QNear(SumJita(lines));
    QNear(SumOffer(lines));
  }
}
