/** Choosing condor legs from the chain: a sold leg in the premium band on each side of
    the ATM, and for each a cheaper hedge further out of the money. */
module Selection {
  import opened Chain
  import opened LegNames
  import opened Ranking

  /** A leg priced from a row's strike and its premium on the given side. */
  function LegAt(name: string, row: Row, side: Side): Leg
  {
    Leg(name, Val(row.strike), Val(Premium(row, side)))
  }

  /** The rule choosing the hedge of the sold leg taken from row `sold`. */
  function HedgeRule(side: Side, sold: Row): Rule
  {
    HedgeFor(side, Val(sold.strike), Val(Premium(sold, side)))
  }

  /** Rows i and j are the sold leg and the hedge the code takes on one side. */
  ghost predicate ChosenPair(rows: seq<Row>, side: Side, atm: int, i: int, j: int)
  {
    IsFirstBest(SoldStrike(side, atm), rows, i) && IsFirstBest(HedgeRule(side, rows[i]), rows, j)
  }

  ghost predicate HasPair(rows: seq<Row>, side: Side, atm: int)
  {
    exists i, j :: ChosenPair(rows, side, atm, i, j)
  }

  /** The guarantees of a chosen pair: the sold leg is beyond the ATM with a premium in
      the band, the hedge is beyond the sold leg with less than half its premium. */
  predicate WellPlaced(side: Side, atm: int, sell: Leg, hedge: Leg)
  {
    && Beyond(side, sell.strike, atm as real)
    && BandLow <= sell.premium <= BandHigh
    && Beyond(side, hedge.strike, sell.strike)
    && hedge.premium < sell.premium / 2.0
  }

  /** One side of a condor: no in-band sold candidate, no hedge for the chosen one, or both legs. */
  datatype SidePick = NoSold | NoHedge | Picked(sell: Leg, hedge: Leg)

  function PickSide(rows: seq<Row>, side: Side, atm: int, sellName: string, buyName: string): (r: SidePick)
    ensures r.NoSold? <==> !HasCandidate(SoldStrike(side, atm), rows)
    ensures r.Picked? <==> HasPair(rows, side, atm)
    ensures r.Picked? ==> exists i, j :: ChosenPair(rows, side, atm, i, j)
                                        && r.sell == LegAt(sellName, rows[i], side)
                                        && r.hedge == LegAt(buyName, rows[j], side)
    ensures r.Picked? ==> WellPlaced(side, atm, r.sell, r.hedge) && r.sell.name == sellName && r.hedge.name == buyName
  {
    match Pick(SoldStrike(side, atm), rows)
    case None => NoSold
    case Some(i) =>
      match Pick(HedgeRule(side, rows[i]), rows)
      case None =>
        assert !HasPair(rows, side, atm) by {
          forall i', j' | ChosenPair(rows, side, atm, i', j')
            ensures false
          {
            FirstBestUnique(SoldStrike(side, atm), rows, i, i');
          }
        }
        NoHedge
      case Some(j) =>
        assert ChosenPair(rows, side, atm, i, j);
        Picked(LegAt(sellName, rows[i], side), LegAt(buyName, rows[j], side))
  }

  /** What suggest_initial_legs yields: no condor, the four legs, or the failure of its
      unguarded hedge lookup on the named side (the call side is looked up first). */
  datatype Suggestion = NoCondor | Condor(legs: seq<Leg>) | HedgeMissing(side: Side)

  /** The initial condor, as written: a missing sold candidate on either side gives
      NoCondor; a missing hedge is not guarded and fails. */
  function SuggestInitialLegs(rows: seq<Row>, atm: int): (r: Suggestion)
    ensures r.NoCondor? <==> !HasCandidate(SoldStrike(Call, atm), rows) || !HasCandidate(SoldStrike(Put, atm), rows)
    ensures r == HedgeMissing(Call) <==> !r.NoCondor? && !HasPair(rows, Call, atm)
    ensures r == HedgeMissing(Put) <==> !r.NoCondor? && HasPair(rows, Call, atm) && !HasPair(rows, Put, atm)
    ensures r.Condor? <==> HasPair(rows, Call, atm) && HasPair(rows, Put, atm)
    ensures r.Condor? ==> IronCondor(r.legs) && r.legs[0].strike < atm as real < r.legs[2].strike
    ensures r.Condor? ==> WellPlaced(Put, atm, r.legs[0], r.legs[1]) && WellPlaced(Call, atm, r.legs[2], r.legs[3])
  {
    var ce := PickSide(rows, Call, atm, "Sell CE", "Buy CE");
    var pe := PickSide(rows, Put, atm, "Sell PE", "Buy PE");
    if ce.NoSold? || pe.NoSold? then NoCondor
    else if ce.NoHedge? then HedgeMissing(Call)
    else if pe.NoHedge? then HedgeMissing(Put)
    else Condor([pe.sell, pe.hedge, ce.sell, ce.hedge])
  }

  /** The legs of a suggested condor are the rows the selection rules choose. */
  lemma CondorLegsAreChosen(rows: seq<Row>, atm: int)
    requires SuggestInitialLegs(rows, atm).Condor?
    ensures var legs := SuggestInitialLegs(rows, atm).legs;
            && (exists i, j :: ChosenPair(rows, Put, atm, i, j)
                               && legs[0] == LegAt("Sell PE", rows[i], Put) && legs[1] == LegAt("Buy PE", rows[j], Put))
            && (exists i, j :: ChosenPair(rows, Call, atm, i, j)
                               && legs[2] == LegAt("Sell CE", rows[i], Call) && legs[3] == LegAt("Buy CE", rows[j], Call))
  {
    var pe := PickSide(rows, Put, atm, "Sell PE", "Buy PE");
    var ce := PickSide(rows, Call, atm, "Sell CE", "Buy CE");
    assert pe.Picked? && ce.Picked?;
  }

  /** The sold call is the lowest in-band call strike above the ATM and the sold put the
      highest in-band put strike below it. */
  lemma SoldLegsNearestAtm(rows: seq<Row>, atm: int)
    requires SuggestInitialLegs(rows, atm).Condor?
    ensures var legs := SuggestInitialLegs(rows, atm).legs;
            forall n :: 0 <= n < |rows| && Eligible(SoldStrike(Call, atm), rows[n]) ==> legs[2].strike <= rows[n].strike.value
    ensures var legs := SuggestInitialLegs(rows, atm).legs;
            forall n :: 0 <= n < |rows| && Eligible(SoldStrike(Put, atm), rows[n]) ==> rows[n].strike.value <= legs[0].strike
  {
    var legs := SuggestInitialLegs(rows, atm).legs;
    var c := Pick(SoldStrike(Call, atm), rows).value;
    var p := Pick(SoldStrike(Put, atm), rows).value;
    assert legs[2].strike == Key(SoldStrike(Call, atm), rows[c]);
    assert legs[0].strike == -Key(SoldStrike(Put, atm), rows[p]);
  }

  /** Each hedge has, among the rows further out priced below half the sold premium, the
      premium nearest a third of the sold premium. */
  lemma HedgesNearestThird(rows: seq<Row>, atm: int)
    requires SuggestInitialLegs(rows, atm).Condor?
    ensures var legs := SuggestInitialLegs(rows, atm).legs;
            forall n :: 0 <= n < |rows| && Eligible(HedgeFor(Call, legs[2].strike, legs[2].premium), rows[n]) ==>
              Abs(legs[3].premium - legs[2].premium / 3.0) <= Abs(rows[n].callLtp.value - legs[2].premium / 3.0)
    ensures var legs := SuggestInitialLegs(rows, atm).legs;
            forall n :: 0 <= n < |rows| && Eligible(HedgeFor(Put, legs[0].strike, legs[0].premium), rows[n]) ==>
              Abs(legs[1].premium - legs[0].premium / 3.0) <= Abs(rows[n].putLtp.value - legs[0].premium / 3.0)
  {
    var legs := SuggestInitialLegs(rows, atm).legs;
    var c := Pick(SoldStrike(Call, atm), rows).value;
    var p := Pick(SoldStrike(Put, atm), rows).value;
    var ch := Pick(HedgeRule(Call, rows[c]), rows).value;
    var ph := Pick(HedgeRule(Put, rows[p]), rows).value;
    assert HedgeRule(Call, rows[c]) == HedgeFor(Call, legs[2].strike, legs[2].premium);
    assert HedgeRule(Put, rows[p]) == HedgeFor(Put, legs[0].strike, legs[0].premium);
    assert legs[3].premium == rows[ch].callLtp.value;
    assert legs[1].premium == rows[ph].putLtp.value;
  }

  /** The corrected initial condor: a missing hedge gives no suggestion, as it does for
      a replacement, instead of failing. */
  function SuggestCondor(rows: seq<Row>, atm: int): (r: Option<seq<Leg>>)
    ensures r.Some? <==> HasPair(rows, Call, atm) && HasPair(rows, Put, atm)
    ensures r.Some? ==> IronCondor(r.value) && r.value[0].strike < atm as real < r.value[2].strike
    ensures r.Some? ==> WellPlaced(Put, atm, r.value[0], r.value[1]) && WellPlaced(Call, atm, r.value[2], r.value[3])
  {
    match SuggestInitialLegs(rows, atm)
    case Condor(legs) => Some(legs)
    case _ => None
  }

  /** Where the code as written returns a condor the corrected version returns the same
      legs; everywhere else the corrected version returns nothing. */
  lemma SuggestCondorAgrees(rows: seq<Row>, atm: int)
    ensures SuggestInitialLegs(rows, atm).Condor? ==> SuggestCondor(rows, atm) == Some(SuggestInitialLegs(rows, atm).legs)
    ensures !SuggestInitialLegs(rows, atm).Condor? ==> SuggestCondor(rows, atm).None?
  {
  }

  /** A chain with in-band sold legs on both sides but no cheaper call beyond the sold call. */
  function NoCallHedgeChain(): seq<Row>
  {
    [ Row(Some(24_600.0), Some(100.0), None, None),
      Row(Some(24_400.0), None, Some(100.0), None),
      Row(Some(24_200.0), None, Some(30.0), None) ]
  }

  /** The unguarded hedge lookup fails on a chain the replacement path handles. */
  lemma UnguardedHedgeFails()
    ensures SuggestInitialLegs(NoCallHedgeChain(), 24_500) == HedgeMissing(Call)
    ensures SuggestCondor(NoCallHedgeChain(), 24_500) == None
  {
    var rows := NoCallHedgeChain();
    assert Eligible(SoldStrike(Call, 24_500), rows[0]);
    assert Eligible(SoldStrike(Put, 24_500), rows[1]);
    assert !HasPair(rows, Call, 24_500) by {
      forall i, j | ChosenPair(rows, Call, 24_500, i, j)
        ensures false
      {
      }
    }
  }

  /** What suggest_new_leg yields: nothing, the sold leg and its hedge, or the failure of
      `leg.split()[-1]` on a name without a word (reached only once both legs are found). */
  datatype Replacement = NoReplacement | Replace(sell: Leg, hedge: Leg) | NoLastWord

  /** A replacement for a flagged leg: the same rules as the initial condor on the side
      the leg's name gives, named after the flagged leg. */
  function SuggestNewLeg(rows: seq<Row>, leg: string, atm: int): (r: Replacement)
    ensures r.NoReplacement? <==> !HasPair(rows, SideOf(leg), atm)
    ensures r.NoLastWord? <==> HasPair(rows, SideOf(leg), atm) && !HasWord(leg)
    ensures r.Replace? ==> HasWord(leg) && r.sell.name == leg && r.hedge.name == "Buy " + LastWord(leg)
    ensures r.Replace? ==> WellPlaced(SideOf(leg), atm, r.sell, r.hedge)
    ensures r.Replace? ==> exists i, j :: ChosenPair(rows, SideOf(leg), atm, i, j)
                                         && r.sell.strike == Val(rows[i].strike)
                                         && r.sell.premium == Val(Premium(rows[i], SideOf(leg)))
                                         && r.hedge.strike == Val(rows[j].strike)
                                         && r.hedge.premium == Val(Premium(rows[j], SideOf(leg)))
  {
    var side := SideOf(leg);
    if !HasWord(leg) then
      if PickSide(rows, side, atm, leg, "").Picked? then NoLastWord else NoReplacement
    else
      match PickSide(rows, side, atm, leg, "Buy " + LastWord(leg))
      case Picked(sell, hedge) => Replace(sell, hedge)
      case _ => NoReplacement
  }

  /** For the standard sold names a replacement takes exactly the strikes and premiums of
      the corresponding pair of the initial condor. */
  lemma ReplacementMatchesInitial(rows: seq<Row>, atm: int)
    requires SuggestInitialLegs(rows, atm).Condor?
    ensures var legs := SuggestInitialLegs(rows, atm).legs;
            && SuggestNewLeg(rows, "Sell PE", atm) == Replace(legs[0], legs[1])
            && SuggestNewLeg(rows, "Sell CE", atm) == Replace(legs[2], legs[3])
  {
    PutReplacementMatchesInitial(rows, atm);
    CallReplacementMatchesInitial(rows, atm);
  }

  lemma PutReplacementMatchesInitial(rows: seq<Row>, atm: int)
    requires SuggestInitialLegs(rows, atm).Condor?
    ensures var legs := SuggestInitialLegs(rows, atm).legs;
            SuggestNewLeg(rows, "Sell PE", atm) == Replace(legs[0], legs[1])
  {
    StandardNames();
    StandardLastWords();
    assert "Buy " + "PE" == "Buy PE";
  }

  lemma CallReplacementMatchesInitial(rows: seq<Row>, atm: int)
    requires SuggestInitialLegs(rows, atm).Condor?
    ensures var legs := SuggestInitialLegs(rows, atm).legs;
            SuggestNewLeg(rows, "Sell CE", atm) == Replace(legs[2], legs[3])
  {
    StandardNames();
    StandardLastWords();
    assert "Buy " + "CE" == "Buy CE";
  }

  /** The corrected condor exists exactly when both standard replacements exist. */
  lemma CondorIffBothReplacements(rows: seq<Row>, atm: int)
    ensures SuggestCondor(rows, atm).Some?
            <==> SuggestNewLeg(rows, "Sell PE", atm).Replace? && SuggestNewLeg(rows, "Sell CE", atm).Replace?
  {
    StandardNames();
    StandardLastWords();
  }
}
