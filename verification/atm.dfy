/** The at-the-money strike: the strike of the row whose call delta is nearest 0.5,
    rounded to a multiple of 100. */
module Atm {
  import opened Chain
  import opened Ranking

  /** Rounding to the nearest multiple of 100, halves to the even hundred. */
  function RoundHundred(x: real): (r: int)
    ensures r % 100 == 0
    ensures -50.0 <= r as real - x <= 50.0
    ensures Abs(r as real - x) == 50.0 ==> (r / 100) % 2 == 0
  {
    var q := (x / 100.0).Floor;
    var rem := x - q as real * 100.0;
    if rem < 50.0 then q * 100
    else if rem > 50.0 then (q + 1) * 100
    else if q % 2 == 0 then q * 100
    else (q + 1) * 100
  }

  /** The row whose strike becomes the ATM: the first row nearest delta 0.5, or, when no
      row has a delta, the first row (missing keys sort last, in their original order). */
  ghost predicate AtmRow(rows: seq<Row>, i: int)
  {
    || IsFirstBest(NearestDelta, rows, i)
    || (i == 0 && |rows| > 0 && forall j :: 0 <= j < |rows| ==> rows[j].callDelta.None?)
  }

  /** The ATM, or None where the code fails: an empty chain (no row 0) or a chosen row
      with a missing strike (`int` of NaN). */
  function DetectAtm(rows: seq<Row>): (r: Option<int>)
    ensures r.Some? <==> exists i :: AtmRow(rows, i) && rows[i].strike.Some?
    ensures forall i :: AtmRow(rows, i) && rows[i].strike.Some? ==> r == Some(RoundHundred(rows[i].strike.value))
  {
    var best := Pick(NearestDelta, rows);
    var chosen := if best.Some? then best else if |rows| > 0 then Some(0) else None;
    assert chosen.Some? ==> AtmRow(rows, chosen.value);
    assert forall i :: AtmRow(rows, i) ==> chosen == Some(i) by {
      forall i | AtmRow(rows, i)
        ensures chosen == Some(i)
      {
        if best.Some? {
          if IsFirstBest(NearestDelta, rows, i) {
            FirstBestUnique(NearestDelta, rows, i, best.value);
          }
        }
      }
    }
    if chosen.None? || rows[chosen.value].strike.None? then None
    else Some(RoundHundred(rows[chosen.value].strike.value))
  }

  /** The ATM is a multiple of 100 within 50 of the strike of the row nearest delta 0.5. */
  lemma AtmNearChosenStrike(rows: seq<Row>)
    requires DetectAtm(rows).Some?
    ensures DetectAtm(rows).value % 100 == 0
    ensures exists i :: AtmRow(rows, i) && rows[i].strike.Some?
                        && Abs(DetectAtm(rows).value as real - rows[i].strike.value) <= 50.0
  {
    var i :| AtmRow(rows, i) && rows[i].strike.Some?;
    assert DetectAtm(rows) == Some(RoundHundred(rows[i].strike.value));
  }

  /** A row with delta exactly 0.5 (the first such row) fixes the ATM at its rounded strike. */
  lemma {:induction false} ExactDeltaFixesAtm(rows: seq<Row>, i: int)
    requires 0 <= i < |rows| && rows[i].callDelta == Some(AtmDelta) && rows[i].strike.Some?
    requires forall j :: 0 <= j < i ==> rows[j].callDelta != Some(AtmDelta)
    ensures DetectAtm(rows) == Some(RoundHundred(rows[i].strike.value))
  {
    assert Key(NearestDelta, rows[i]) == 0.0;
    forall j | 0 <= j < i && Eligible(NearestDelta, rows[j])
      ensures Key(NearestDelta, rows[i]) < Key(NearestDelta, rows[j])
    {
      assert rows[j].callDelta.value != AtmDelta;
    }
    assert IsFirstBest(NearestDelta, rows, i);
  }

  /** Concrete cases of the rounding: ties go to the even hundred. */
  lemma RoundingExamples()
    ensures RoundHundred(24_549.0) == 24_500 && RoundHundred(24_551.0) == 24_600
    ensures RoundHundred(24_550.0) == 24_600 && RoundHundred(24_650.0) == 24_600
  {
    assert (24_549.0 / 100.0).Floor == 245;
    assert (24_551.0 / 100.0).Floor == 245;
    assert (24_550.0 / 100.0).Floor == 245;
    assert (24_650.0 / 100.0).Floor == 246;
  }
}
