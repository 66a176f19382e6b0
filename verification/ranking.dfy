/** The one selection scheme every choice in the adjuster uses: keep the rows a rule
    admits, rank them by a key, take the first row with the least key. The code sorts
    and takes row 0; its sort is not stable, so ties here go to the earliest row. */
module Ranking {
  import opened Chain

  /** The premium band a sold leg must sit in (both ends included). */
  const BandLow: real := 90.0
  const BandHigh: real := 110.0

  /** The call delta of an at-the-money option. */
  const AtmDelta: real := 0.5

  /** A selection step of the adjuster. */
  datatype Rule =
    | NearestDelta                                            // the ATM row
    | SoldStrike(side: Side, atm: int)                        // the sold leg of one side
    | HedgeFor(side: Side, soldStrike: real, soldPremium: real) // the hedge of a sold leg

  /** strike lies beyond ref on the given side, away from the money. */
  predicate Beyond(side: Side, strike: real, ref: real)
  {
    match side
    case Put => strike < ref
    case Call => strike > ref
  }

  /** The rows a rule admits; a missing cell fails every comparison. */
  predicate Eligible(rule: Rule, row: Row)
  {
    match rule
    case NearestDelta =>
      row.callDelta.Some?
    case SoldStrike(side, atm) =>
      && row.strike.Some? && Beyond(side, row.strike.value, atm as real)
      && Premium(row, side).Some? && BandLow <= Premium(row, side).value <= BandHigh
    case HedgeFor(side, k, p) =>
      && row.strike.Some? && Beyond(side, row.strike.value, k)
      && Premium(row, side).Some? && Premium(row, side).value < p / 2.0
  }

  /** The sort key of an admitted row: lower is better. The sold call takes the lowest
      strike (ascending sort), the sold put the highest (descending sort), the hedge the
      premium nearest a third of the sold premium. */
  function Key(rule: Rule, row: Row): real
  {
    match rule
    case NearestDelta => Abs(Val(row.callDelta) - AtmDelta)
    case SoldStrike(Call, _) => Val(row.strike)
    case SoldStrike(Put, _) => -Val(row.strike)
    case HedgeFor(side, _, p) => Abs(Val(Premium(row, side)) - p / 3.0)
  }

  /** Row i is admitted, no admitted row has a smaller key, and every earlier admitted
      row has a strictly larger one. */
  ghost predicate IsFirstBest(rule: Rule, rows: seq<Row>, i: int)
  {
    && 0 <= i < |rows| && Eligible(rule, rows[i])
    && (forall j :: 0 <= j < |rows| && Eligible(rule, rows[j]) ==> Key(rule, rows[i]) <= Key(rule, rows[j]))
    && (forall j :: 0 <= j < i && Eligible(rule, rows[j]) ==> Key(rule, rows[i]) < Key(rule, rows[j]))
  }

  ghost predicate HasCandidate(rule: Rule, rows: seq<Row>)
  {
    exists j :: 0 <= j < |rows| && Eligible(rule, rows[j])
  }

  /** The filtered, sorted table's row 0: the index of the first admitted row with the
      least key, or None when the rule admits nothing. */
  function Pick(rule: Rule, rows: seq<Row>): (r: Option<nat>)
    ensures r.None? <==> !HasCandidate(rule, rows)
    ensures r.Some? ==> IsFirstBest(rule, rows, r.value)
    decreases |rows|
  {
    if |rows| == 0 then None
    else
      var init := rows[..|rows| - 1];
      var last := rows[|rows| - 1];
      var best := Pick(rule, init);
      assert forall j :: 0 <= j < |init| ==> init[j] == rows[j];
      if !Eligible(rule, last) then best
      else if best.None? || Key(rule, last) < Key(rule, init[best.value]) then Some(|rows| - 1)
      else best
  }

  /** At most one row is the first best: the tie-break makes the choice deterministic. */
  lemma FirstBestUnique(rule: Rule, rows: seq<Row>, i: int, j: int)
    requires IsFirstBest(rule, rows, i) && IsFirstBest(rule, rows, j)
    ensures i == j
  {
  }

  /** Pick returns exactly the first-best row whenever one exists. */
  lemma PickIsFirstBest(rule: Rule, rows: seq<Row>, i: int)
    requires IsFirstBest(rule, rows, i)
    ensures Pick(rule, rows) == Some(i)
  {
    FirstBestUnique(rule, rows, i, Pick(rule, rows).value);
  }
}
