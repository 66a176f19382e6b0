/** Monitoring a locked position: live premiums for its legs, the sold legs whose premium
    collapsed, and replacement pairs for them. */
module Adjustment {
  import opened Chain
  import opened LegNames
  import opened Ranking
  import opened Selection
  import opened Filtering

  /** The fraction of the locked premium a sold leg must lose to be flagged. */
  const DropThreshold: real := 0.5

  /** A leg of the live table: its premium is missing when the chain had no price for it. */
  datatype Quote = Quote(name: string, strike: real, premium: Option<real>)

  /** A leg that needs adjusting, by name and strike. */
  datatype Flag = Flag(name: string, strike: real)

  function FlagOf(leg: Leg): Flag
  {
    Flag(leg.name, leg.strike)
  }

  function FlagsOf(legs: seq<Leg>): (fs: seq<Flag>)
    ensures |fs| == |legs|
    ensures forall k :: 0 <= k < |legs| ==> fs[k] == FlagOf(legs[k])
  {
    seq(|legs|, k requires 0 <= k < |legs| => FlagOf(legs[k]))
  }

  /** a keeps some of the elements of b, in b's order. */
  predicate IsSubsequence<T(==)>(a: seq<T>, b: seq<T>)
    decreases |b|
  {
    |a| == 0 || (|b| > 0 && ((a[0] == b[0] && IsSubsequence(a[1..], b[1..])) || IsSubsequence(a, b[1..])))
  }

  /** The index of the first live quote with the given name and strike. */
  function FirstMatch(current: seq<Quote>, name: string, strike: real): (m: Option<nat>)
    ensures m.None? <==> forall k :: 0 <= k < |current| ==> !(current[k].name == name && current[k].strike == strike)
    ensures m.Some? ==> m.value < |current| && current[m.value].name == name && current[m.value].strike == strike
    ensures m.Some? ==> forall k :: 0 <= k < m.value ==> !(current[k].name == name && current[k].strike == strike)
  {
    if |current| == 0 then None
    else if current[0].name == name && current[0].strike == strike then Some(0)
    else
      match FirstMatch(current[1..], name, strike)
      case None => None
      case Some(k) => Some(k + 1)
  }

  /** The premium collapse test on a sold leg: the premium fell, and by more than the
      threshold fraction of the locked premium. A missing live premium never passes. */
  predicate Collapsed(locked: Leg, now: Option<real>, threshold: real)
  {
    && IsSold(locked.name)
    && now.Some?
    && now.value - locked.premium < 0.0
    && Abs(now.value - locked.premium) > locked.premium * threshold
  }

  /** A locked leg is flagged when its first live match shows a collapse. */
  predicate Flagged(locked: Leg, current: seq<Quote>, threshold: real)
  {
    var m := FirstMatch(current, locked.name, locked.strike);
    m.Some? && Collapsed(locked, current[m.value].premium, threshold)
  }

  /** check_adjustments: the (leg, strike) of every locked leg that is flagged, in locked order. */
  function CheckAdjustments(locked: seq<Leg>, current: seq<Quote>, threshold: real): (flags: seq<Flag>)
    ensures IsSubsequence(flags, FlagsOf(locked))
    ensures forall f :: f in flags ==> IsSold(f.name)
    ensures forall f :: f in flags ==> exists k :: 0 <= k < |locked| && f == FlagOf(locked[k]) && Flagged(locked[k], current, threshold)
    ensures forall k :: 0 <= k < |locked| && Flagged(locked[k], current, threshold) ==> FlagOf(locked[k]) in flags
  {
    if |locked| == 0 then []
    else
      var rest := CheckAdjustments(locked[1..], current, threshold);
      assert FlagsOf(locked)[1..] == FlagsOf(locked[1..]);
      assert forall k :: 1 <= k < |locked| ==> locked[1..][k - 1] == locked[k];
      if Flagged(locked[0], current, threshold) then [FlagOf(locked[0])] + rest else rest
  }

  /** Which locked legs are flagged, position by position. */
  ghost function FlagMarks(locked: seq<Leg>, current: seq<Quote>, threshold: real): (marks: seq<bool>)
    ensures |marks| == |locked|
    ensures forall k :: 0 <= k < |locked| ==> marks[k] == Flagged(locked[k], current, threshold)
  {
    seq(|locked|, k requires 0 <= k < |locked| => Flagged(locked[k], current, threshold))
  }

  /** flags[n] is the flag of the leg at position idx[n], for every n. */
  ghost predicate FlagsAt(flags: seq<Flag>, locked: seq<Leg>, idx: seq<nat>)
  {
    && |flags| == |idx|
    && forall n :: 0 <= n < |idx| ==> idx[n] < |locked| && flags[n] == FlagOf(locked[idx[n]])
  }

  /** Prepending the head's flag (when it has one) to the flags of the tail keeps flag n
      at the leg the n-th position names. */
  lemma FlagsCons(rest: seq<Flag>, locked: seq<Leg>, head: bool, ridx: seq<nat>)
    requires |locked| > 0 && FlagsAt(rest, locked[1..], ridx)
    ensures FlagsAt((if head then [FlagOf(locked[0])] else []) + rest, locked, ConsIdx(head, ridx))
  {
    var flags := (if head then [FlagOf(locked[0])] else []) + rest;
    var idx := ConsIdx(head, ridx);
    var d := |idx| - |ridx|;
    forall n | d <= n < |idx|
      ensures idx[n] < |locked| && flags[n] == FlagOf(locked[idx[n]])
    {
      assert flags[n] == rest[n - d] && idx[n] == ridx[n - d] + 1;
    }
  }

  /** One step of check_adjustments: the head's flag, if it is flagged, then the tail's. */
  lemma CheckAdjustmentsCons(locked: seq<Leg>, current: seq<Quote>, threshold: real)
    requires |locked| > 0
    ensures CheckAdjustments(locked, current, threshold)
            == (if Flagged(locked[0], current, threshold) then [FlagOf(locked[0])] else [])
               + CheckAdjustments(locked[1..], current, threshold)
  {
    if !Flagged(locked[0], current, threshold) {
      assert [] + CheckAdjustments(locked[1..], current, threshold) == CheckAdjustments(locked[1..], current, threshold);
    }
  }

  /** check_adjustments reports one flag per flagged locked row, in locked order, even when
      locked rows repeat a (Leg, Strike): flag n is the leg at the n-th flagged position. */
  lemma {:induction false} FlagsInLockedOrder(locked: seq<Leg>, current: seq<Quote>, threshold: real)
    ensures exists idx :: Positions(FlagMarks(locked, current, threshold), idx)
                          && FlagsAt(CheckAdjustments(locked, current, threshold), locked, idx)
    decreases |locked|
  {
    var marks := FlagMarks(locked, current, threshold);
    if |locked| == 0 {
      assert Positions(marks, []) && FlagsAt([], locked, []);
    } else {
      var tail := locked[1..];
      FlagsInLockedOrder(tail, current, threshold);
      var rest := CheckAdjustments(tail, current, threshold);
      var ridx :| Positions(FlagMarks(tail, current, threshold), ridx) && FlagsAt(rest, tail, ridx);
      assert marks[1..] == FlagMarks(tail, current, threshold);
      PositionsCons(marks, ridx);
      FlagsCons(rest, locked, marks[0], ridx);
      CheckAdjustmentsCons(locked, current, threshold);
      assert Positions(marks, ConsIdx(marks[0], ridx));
    }
  }

  /** Row k is the first chain row with the given strike. */
  ghost predicate FirstWithStrike(rows: seq<Row>, strike: real, k: int)
  {
    && 0 <= k < |rows| && rows[k].strike == Some(strike)
    && forall j :: 0 <= j < k ==> rows[j].strike != Some(strike)
  }

  /** The live premium of a locked leg: the put or call price of the first chain row with
      the leg's strike, or missing when no row has that strike. */
  function LivePremium(rows: seq<Row>, leg: Leg): (p: Option<real>)
    ensures p.Some? ==> exists k :: FirstWithStrike(rows, leg.strike, k)
    ensures forall k :: FirstWithStrike(rows, leg.strike, k) ==> p == Premium(rows[k], SideOf(leg.name))
    decreases |rows|
  {
    if |rows| == 0 then None
    else if rows[0].strike == Some(leg.strike) then
      assert FirstWithStrike(rows, leg.strike, 0);
      assert forall k :: FirstWithStrike(rows, leg.strike, k) ==> k == 0;
      Premium(rows[0], SideOf(leg.name))
    else
      var p := LivePremium(rows[1..], leg);
      assert forall k :: FirstWithStrike(rows[1..], leg.strike, k) ==> FirstWithStrike(rows, leg.strike, k + 1);
      assert forall k :: FirstWithStrike(rows, leg.strike, k) ==>
               k > 0 && FirstWithStrike(rows[1..], leg.strike, k - 1) && rows[1..][k - 1] == rows[k];
      p
  }

  /** One line of the locked-versus-today table. */
  datatype LiveRow = LiveRow(name: string, strike: real, locked: real, now: Option<real>, delta: Option<real>)

  /** The locked-versus-today table: each locked leg with its live premium and the change. */
  function CompareLocked(rows: seq<Row>, locked: seq<Leg>): (table: seq<LiveRow>)
    ensures |table| == |locked|
    ensures forall k :: 0 <= k < |locked| ==>
              && table[k].name == locked[k].name && table[k].strike == locked[k].strike
              && table[k].locked == locked[k].premium
              && table[k].now == LivePremium(rows, locked[k])
              && (table[k].delta.Some? <==> table[k].now.Some?)
              && (table[k].now.Some? ==> table[k].delta.value == table[k].now.value - locked[k].premium)
    ensures forall k :: 0 <= k < |locked| ==>
              (table[k].delta == Some(0.0) <==> LivePremium(rows, locked[k]) == Some(locked[k].premium))
  {
    seq(|locked|, k requires 0 <= k < |locked| =>
      var now := LivePremium(rows, locked[k]);
      LiveRow(locked[k].name, locked[k].strike, locked[k].premium, now,
              if now.Some? then Some(now.value - locked[k].premium) else None))
  }

  /** The live legs handed to check_adjustments: leg, strike and today's premium. */
  function LiveLegs(table: seq<LiveRow>): (current: seq<Quote>)
    ensures |current| == |table|
    ensures forall k :: 0 <= k < |table| ==>
              current[k] == Quote(table[k].name, table[k].strike, table[k].now)
    ensures forall k :: 0 <= k < |table| ==> FirstMatch(current, table[k].name, table[k].strike).Some?
  {
    seq(|table|, k requires 0 <= k < |table| => Quote(table[k].name, table[k].strike, table[k].now))
  }

  /** The flags raised against today's chain with the default threshold. */
  function Monitor(rows: seq<Row>, locked: seq<Leg>): (flags: seq<Flag>)
    ensures IsSubsequence(flags, FlagsOf(locked))
    ensures forall f :: f in flags ==> IsSold(f.name)
  {
    CheckAdjustments(locked, LiveLegs(CompareLocked(rows, locked)), DropThreshold)
  }

  /** The rebuilt live table keeps every locked leg findable: the first match of each
      locked leg carries that leg's live premium. */
  lemma RebuildMatchesEveryLeg(rows: seq<Row>, locked: seq<Leg>, k: int)
    requires 0 <= k < |locked|
    ensures var current := LiveLegs(CompareLocked(rows, locked));
            var m := FirstMatch(current, locked[k].name, locked[k].strike);
            m.Some? && current[m.value].premium == LivePremium(rows, locked[k])
  {
    var current := LiveLegs(CompareLocked(rows, locked));
    assert current[k].name == locked[k].name && current[k].strike == locked[k].strike;
    var m := FirstMatch(current, locked[k].name, locked[k].strike).value;
    assert locked[m].name == locked[k].name && locked[m].strike == locked[k].strike;
    LivePremiumByNameAndStrike(rows, locked[m], locked[k]);
  }

  /** The live premium depends only on a leg's name and strike. */
  lemma LivePremiumByNameAndStrike(rows: seq<Row>, a: Leg, b: Leg)
    requires a.name == b.name && a.strike == b.strike
    ensures LivePremium(rows, a) == LivePremium(rows, b)
  {
    assert a == b.(premium := a.premium);
  }

  /** Monitoring flags a locked leg exactly when it is sold and its live premium fell by
      more than half the locked premium; a leg with no live price is never flagged. */
  lemma MonitorFlagsExactly(rows: seq<Row>, locked: seq<Leg>)
    ensures forall k :: 0 <= k < |locked| && Collapsed(locked[k], LivePremium(rows, locked[k]), DropThreshold)
                        ==> FlagOf(locked[k]) in Monitor(rows, locked)
    ensures forall f :: f in Monitor(rows, locked) ==>
              exists k :: 0 <= k < |locked| && f == FlagOf(locked[k])
                          && Collapsed(locked[k], LivePremium(rows, locked[k]), DropThreshold)
  {
    var current := LiveLegs(CompareLocked(rows, locked));
    forall k | 0 <= k < |locked|
      ensures Flagged(locked[k], current, DropThreshold) <==> Collapsed(locked[k], LivePremium(rows, locked[k]), DropThreshold)
    {
      RebuildMatchesEveryLeg(rows, locked, k);
    }
  }

  /** Re-reading a chain whose prices have not moved flags nothing and shows no change. */
  lemma UnchangedChainNoFlags(rows: seq<Row>, locked: seq<Leg>)
    requires forall k :: 0 <= k < |locked| ==> LivePremium(rows, locked[k]) == Some(locked[k].premium)
    ensures Monitor(rows, locked) == []
  {
    var current := LiveLegs(CompareLocked(rows, locked));
    forall k | 0 <= k < |locked|
      ensures !Flagged(locked[k], current, DropThreshold)
    {
      RebuildMatchesEveryLeg(rows, locked, k);
    }
    NothingFlaggedNoFlags(locked, current, DropThreshold);
  }

  /** Against a chain whose prices have not moved every leg shows a change of zero. */
  lemma UnchangedChainNoChange(rows: seq<Row>, locked: seq<Leg>)
    requires forall k :: 0 <= k < |locked| ==> LivePremium(rows, locked[k]) == Some(locked[k].premium)
    ensures forall k :: 0 <= k < |locked| ==> CompareLocked(rows, locked)[k].delta == Some(0.0)
  {
    var table := CompareLocked(rows, locked);
    forall k | 0 <= k < |locked|
      ensures table[k].delta == Some(0.0)
    {
      var now := LivePremium(rows, locked[k]);
      assert table[k].now == now == Some(locked[k].premium);
    }
  }

  /** The locked legs as live quotes carrying their own premiums. */
  function Unchanged(locked: seq<Leg>): (current: seq<Quote>)
    ensures |current| == |locked|
    ensures forall k :: 0 <= k < |locked| ==> current[k] == Quote(locked[k].name, locked[k].strike, Some(locked[k].premium))
  {
    seq(|locked|, k requires 0 <= k < |locked| => Quote(locked[k].name, locked[k].strike, Some(locked[k].premium)))
  }

  /** No two legs share a name and a strike, so each leg is its own first match. */
  predicate DistinctLegs(legs: seq<Leg>)
  {
    forall i, j :: 0 <= i < j < |legs| ==> FlagOf(legs[i]) != FlagOf(legs[j])
  }

  /** The four legs of a condor are told apart by their names. */
  lemma CondorLegsDistinct(legs: seq<Leg>)
    requires IronCondor(legs)
    ensures DistinctLegs(legs)
  {
    assert "Sell PE" != "Buy PE" && "Sell PE" != "Sell CE" && "Sell PE" != "Buy CE";
    assert "Buy PE" != "Sell CE" && "Buy PE" != "Buy CE" && "Sell CE" != "Buy CE";
  }

  /** No two rows of the chain share a strike. */
  predicate DistinctStrikes(rows: seq<Row>)
  {
    forall i, j :: 0 <= i < j < |rows| && rows[i].strike.Some? ==> rows[i].strike != rows[j].strike
  }

  /** With distinct strikes, a leg priced from a row is priced again from that same row. */
  lemma RepricedFromOwnRow(rows: seq<Row>, name: string, i: int, side: Side)
    requires DistinctStrikes(rows) && 0 <= i < |rows|
    requires rows[i].strike.Some? && Premium(rows[i], side).Some? && SideOf(name) == side
    ensures LivePremium(rows, LegAt(name, rows[i], side)) == Some(LegAt(name, rows[i], side).premium)
  {
    assert FirstWithStrike(rows, rows[i].strike.value, i);
  }

  /** Legs 0..3 are "Sell PE", "Buy PE", "Sell CE", "Buy CE" priced from rows a, b, c, d. */
  predicate PricedFrom(rows: seq<Row>, legs: seq<Leg>, a: int, b: int, c: int, d: int)
  {
    && |legs| == 4 && 0 <= a < |rows| && 0 <= b < |rows| && 0 <= c < |rows| && 0 <= d < |rows|
    && legs[0] == LegAt("Sell PE", rows[a], Put) && legs[1] == LegAt("Buy PE", rows[b], Put)
    && legs[2] == LegAt("Sell CE", rows[c], Call) && legs[3] == LegAt("Buy CE", rows[d], Call)
    && rows[a].strike.Some? && rows[b].strike.Some? && rows[c].strike.Some? && rows[d].strike.Some?
    && Premium(rows[a], Put).Some? && Premium(rows[b], Put).Some?
    && Premium(rows[c], Call).Some? && Premium(rows[d], Call).Some?
  }

  /** With distinct strikes, four standard legs priced from chain rows are priced again
      at their own premiums. */
  lemma PricedFromRepriced(rows: seq<Row>, legs: seq<Leg>, a: int, b: int, c: int, d: int)
    requires DistinctStrikes(rows) && PricedFrom(rows, legs, a, b, c, d)
    ensures forall k :: 0 <= k < |legs| ==> LivePremium(rows, legs[k]) == Some(legs[k].premium)
  {
    StandardNames();
    RepricedFromOwnRow(rows, "Sell PE", a, Put);
    RepricedFromOwnRow(rows, "Buy PE", b, Put);
    RepricedFromOwnRow(rows, "Sell CE", c, Call);
    RepricedFromOwnRow(rows, "Buy CE", d, Call);
    forall k | 0 <= k < |legs|
      ensures LivePremium(rows, legs[k]) == Some(legs[k].premium)
    {
      if k == 0 {
        assert legs[k] == LegAt("Sell PE", rows[a], Put);
      } else if k == 1 {
        assert legs[k] == LegAt("Buy PE", rows[b], Put);
      } else if k == 2 {
        assert legs[k] == LegAt("Sell CE", rows[c], Call);
      } else {
        assert legs[k] == LegAt("Buy CE", rows[d], Call);
      }
    }
  }

  /** The suggested condor's legs are priced from the rows its rules choose. */
  lemma CondorPricedFrom(rows: seq<Row>, atm: int)
    requires SuggestInitialLegs(rows, atm).Condor?
    ensures exists a, b, c, d :: PricedFrom(rows, SuggestInitialLegs(rows, atm).legs, a, b, c, d)
  {
    var legs := SuggestInitialLegs(rows, atm).legs;
    CondorLegsAreChosen(rows, atm);
    var pi, pj :| ChosenPair(rows, Put, atm, pi, pj)
                  && legs[0] == LegAt("Sell PE", rows[pi], Put) && legs[1] == LegAt("Buy PE", rows[pj], Put);
    var ci, cj :| ChosenPair(rows, Call, atm, ci, cj)
                  && legs[2] == LegAt("Sell CE", rows[ci], Call) && legs[3] == LegAt("Buy CE", rows[cj], Call);
    assert Eligible(SoldStrike(Put, atm), rows[pi]) && Eligible(HedgeRule(Put, rows[pi]), rows[pj]);
    assert Eligible(SoldStrike(Call, atm), rows[ci]) && Eligible(HedgeRule(Call, rows[ci]), rows[cj]);
    assert PricedFrom(rows, legs, pi, pj, ci, cj);
  }

  /** Locking today's suggestion and comparing it with the same chain shows no change on
      any leg and flags nothing, provided the chain lists each strike once. */
  lemma LockedSuggestionRoundTrip(rows: seq<Row>, atm: int)
    requires DistinctStrikes(rows) && SuggestInitialLegs(rows, atm).Condor?
    ensures var legs := SuggestInitialLegs(rows, atm).legs;
            && Monitor(rows, legs) == []
            && forall k :: 0 <= k < |legs| ==> CompareLocked(rows, legs)[k].delta == Some(0.0)
  {
    var legs := SuggestInitialLegs(rows, atm).legs;
    CondorPricedFrom(rows, atm);
    var a, b, c, d :| PricedFrom(rows, legs, a, b, c, d);
    PricedFromRepriced(rows, legs, a, b, c, d);
    UnchangedChainNoFlags(rows, legs);
    UnchangedChainNoChange(rows, legs);
  }

  /** A chain listing strike 24600 twice: first with a call at 40, then with the in-band
      call at 100 that the condor sells. Its last row, unpriced, carries delta 0.5 and
      puts the ATM at 24500. */
  function RepeatedStrikeChain(): seq<Row>
  {
    [ Row(Some(24_600.0), Some(40.0), None, None),
      Row(Some(24_600.0), Some(100.0), None, None),
      Row(Some(24_800.0), Some(30.0), None, None),
      Row(Some(24_400.0), None, Some(100.0), None),
      Row(Some(24_200.0), None, Some(30.0), None),
      Row(Some(24_500.0), None, None, Some(0.5)) ]
  }

  lemma RepeatedStrikeCallPair()
    ensures ChosenPair(RepeatedStrikeChain(), Call, 24_500, 1, 2)
  {
    var rows := RepeatedStrikeChain();
    assert IsFirstBest(SoldStrike(Call, 24_500), rows, 1);
    assert IsFirstBest(HedgeRule(Call, rows[1]), rows, 2);
  }

  lemma RepeatedStrikePutPair()
    ensures ChosenPair(RepeatedStrikeChain(), Put, 24_500, 3, 4)
  {
    var rows := RepeatedStrikeChain();
    assert IsFirstBest(SoldStrike(Put, 24_500), rows, 3);
    assert IsFirstBest(HedgeRule(Put, rows[3]), rows, 4);
  }

  /** Chosen pairs on both sides make a condor whose sold call is priced from the sold
      call's row. */
  lemma CondorSellsChosenCall(rows: seq<Row>, atm: int, c: int, d: int, p: int, q: int)
    requires ChosenPair(rows, Call, atm, c, d) && ChosenPair(rows, Put, atm, p, q)
    ensures SuggestInitialLegs(rows, atm).Condor?
    ensures SuggestInitialLegs(rows, atm).legs[2] == LegAt("Sell CE", rows[c], Call)
  {
    var legs := SuggestInitialLegs(rows, atm).legs;
    CondorLegsAreChosen(rows, atm);
    var ci, cj :| ChosenPair(rows, Call, atm, ci, cj)
                  && legs[2] == LegAt("Sell CE", rows[ci], Call) && legs[3] == LegAt("Buy CE", rows[cj], Call);
    FirstBestUnique(SoldStrike(Call, atm), rows, ci, c);
  }

  /** On that chain the condor sells the call at 24600 for 100, taken from the second row. */
  lemma RepeatedStrikeCondor()
    ensures SuggestInitialLegs(RepeatedStrikeChain(), 24_500).Condor?
    ensures SuggestInitialLegs(RepeatedStrikeChain(), 24_500).legs[2] == Leg("Sell CE", 24_600.0, 100.0)
  {
    var rows := RepeatedStrikeChain();
    RepeatedStrikeCallPair();
    RepeatedStrikePutPair();
    CondorSellsChosenCall(rows, 24_500, 1, 2, 3, 4);
  }

  /** Where a strike repeats, the live price comes from its first row, so the call just
      sold at 100 is priced at 40 on the very chain it came from and is flagged. */
  lemma RepeatedStrikeFlagsLockedCall()
    ensures SuggestInitialLegs(RepeatedStrikeChain(), 24_500).Condor?
    ensures var legs := SuggestInitialLegs(RepeatedStrikeChain(), 24_500).legs;
            Flag("Sell CE", 24_600.0) in Monitor(RepeatedStrikeChain(), legs)
  {
    var rows := RepeatedStrikeChain();
    RepeatedStrikeCondor();
    var legs := SuggestInitialLegs(rows, 24_500).legs;
    StandardNames();
    assert FirstWithStrike(rows, 24_600.0, 0);
    assert LivePremium(rows, legs[2]) == Some(40.0);
    assert Collapsed(legs[2], LivePremium(rows, legs[2]), DropThreshold);
    MonitorFlagsExactly(rows, legs);
  }

  /** Comparing a locked position of distinct legs with its own premiums flags nothing,
      at any threshold: a change of zero is not a fall. */
  lemma SelfComparisonNoFlags(locked: seq<Leg>, threshold: real)
    requires DistinctLegs(locked)
    ensures CheckAdjustments(locked, Unchanged(locked), threshold) == []
  {
    var current := Unchanged(locked);
    forall k | 0 <= k < |locked|
      ensures !Flagged(locked[k], current, threshold)
    {
      assert forall j :: 0 <= j < |locked| && j != k ==> FlagOf(locked[j]) != FlagOf(locked[k]);
      assert current[k].name == locked[k].name && current[k].strike == locked[k].strike;
    }
    NothingFlaggedNoFlags(locked, current, threshold);
  }

  /** Bought legs, legs with no live match and legs whose match has no premium are never
      flagged: a position made only of such legs needs no adjustment. */
  lemma UnflaggableLegs(locked: seq<Leg>, current: seq<Quote>, threshold: real)
    requires forall k :: 0 <= k < |locked| ==>
               || !IsSold(locked[k].name)
               || FirstMatch(current, locked[k].name, locked[k].strike).None?
               || current[FirstMatch(current, locked[k].name, locked[k].strike).value].premium.None?
    ensures CheckAdjustments(locked, current, threshold) == []
  {
    NothingFlaggedNoFlags(locked, current, threshold);
  }

  /** When no locked leg passes the flag test the result is empty. */
  lemma {:induction false} NothingFlaggedNoFlags(locked: seq<Leg>, current: seq<Quote>, threshold: real)
    requires forall k :: 0 <= k < |locked| ==> !Flagged(locked[k], current, threshold)
    ensures CheckAdjustments(locked, current, threshold) == []
    decreases |locked|
  {
    if |locked| > 0 {
      assert forall k :: 1 <= k < |locked| ==> locked[1..][k - 1] == locked[k];
      NothingFlaggedNoFlags(locked[1..], current, threshold);
    }
  }

  /** The drop rule on a sold put locked at 100: flagged at 40 (a 60% fall), not at 60
      (a 40% fall). */
  lemma DropExamples()
    ensures var locked := [Leg("Sell PE", 24_000.0, 100.0)];
            && CheckAdjustments(locked, [Quote("Sell PE", 24_000.0, Some(40.0))], DropThreshold) == [Flag("Sell PE", 24_000.0)]
            && CheckAdjustments(locked, [Quote("Sell PE", 24_000.0, Some(60.0))], DropThreshold) == []
  {
    StandardNames();
  }

  /** What suggest_new_leg gives a flagged leg: its sell and hedge pair, or None when the
      leg's side has no in-band sold leg with a hedge. Flags name sold legs, and a sold
      name always has a last word, so the `split()[-1]` failure cannot arise here. */
  function ReplacementOf(rows: seq<Row>, f: Flag, atm: int): (r: Option<(Leg, Leg)>)
    requires IsSold(f.name)
    ensures r.None? <==> !HasPair(rows, SideOf(f.name), atm)
    ensures r.Some? ==> SuggestNewLeg(rows, f.name, atm) == Replace(r.value.0, r.value.1)
  {
    SoldHasWord(f.name);
    match SuggestNewLeg(rows, f.name, atm)
    case Replace(sell, hedge) => Some((sell, hedge))
    case _ => None
  }

  /** A flagged sold leg never reaches the failing `split()[-1]`. */
  lemma SoldFlagHasReplacementName(rows: seq<Row>, f: Flag, atm: int)
    requires IsSold(f.name)
    ensures !SuggestNewLeg(rows, f.name, atm).NoLastWord?
  {
    SoldHasWord(f.name);
  }

  /** What suggest_new_leg gives each flag, in flag order. */
  function ReplacementOptions(rows: seq<Row>, flags: seq<Flag>, atm: int): (opts: seq<Option<(Leg, Leg)>>)
    requires forall f :: f in flags ==> IsSold(f.name)
    ensures |opts| == |flags|
    ensures forall k :: 0 <= k < |flags| ==> opts[k] == ReplacementOf(rows, flags[k], atm)
  {
    seq(|flags|, k requires 0 <= k < |flags| => ReplacementOf(rows, flags[k], atm))
  }

  /** The sell and hedge pairs found for the flagged legs, in flag order; a flag without
      a replacement contributes nothing. */
  function ReplacementPairs(rows: seq<Row>, flags: seq<Flag>, atm: int): (pairs: seq<(Leg, Leg)>)
    requires forall f :: f in flags ==> IsSold(f.name)
    ensures |pairs| <= |flags|
  {
    Somes(ReplacementOptions(rows, flags, atm))
  }

  /** The replacement loop keeps exactly the flags that get a replacement, once each and in
      flag order: pair n is the replacement of the n-th such flag. */
  lemma PairsInFlagOrder(rows: seq<Row>, flags: seq<Flag>, atm: int)
    requires forall f :: f in flags ==> IsSold(f.name)
    ensures var opts := ReplacementOptions(rows, flags, atm);
            exists idx :: Positions(PresentMarks(opts), idx) && ValuesAt(opts, ReplacementPairs(rows, flags, atm), idx)
  {
    SomesInOrder(ReplacementOptions(rows, flags, atm));
  }

  /** Every replacement pair is what suggest_new_leg returned for one of the flags. */
  lemma PairsComeFromFlags(rows: seq<Row>, flags: seq<Flag>, atm: int)
    requires forall f :: f in flags ==> IsSold(f.name)
    ensures forall p :: p in ReplacementPairs(rows, flags, atm) ==>
              exists f :: f in flags && SuggestNewLeg(rows, f.name, atm) == Replace(p.0, p.1)
  {
    var opts := ReplacementOptions(rows, flags, atm);
    var pairs := ReplacementPairs(rows, flags, atm);
    SomesInOrder(opts);
    var idx :| Positions(PresentMarks(opts), idx) && ValuesAt(opts, pairs, idx);
    forall p | p in pairs
      ensures exists f :: f in flags && SuggestNewLeg(rows, f.name, atm) == Replace(p.0, p.1)
    {
      var n :| 0 <= n < |pairs| && pairs[n] == p;
      var f := flags[idx[n]];
      assert ReplacementOf(rows, f, atm) == Some(p);
      assert f in flags;
    }
  }

  /** Pairs laid out one after another: sell, hedge, sell, hedge, ... */
  function Flatten(pairs: seq<(Leg, Leg)>): (legs: seq<Leg>)
    ensures |legs| == 2 * |pairs|
  {
    if |pairs| == 0 then [] else [pairs[0].0, pairs[0].1] + Flatten(pairs[1..])
  }

  /** Pair k of a flattened list sits at positions 2k and 2k + 1. */
  lemma {:induction false} FlattenAt(pairs: seq<(Leg, Leg)>, k: int)
    requires 0 <= k < |pairs|
    ensures Flatten(pairs)[2 * k] == pairs[k].0 && Flatten(pairs)[2 * k + 1] == pairs[k].1
    decreases k
  {
    if k > 0 {
      FlattenAt(pairs[1..], k - 1);
    }
  }

  /** The adjusted position: the replacement pairs of the flagged legs, laid out flat. */
  function ProposeReplacements(rows: seq<Row>, flags: seq<Flag>, atm: int): (legs: seq<Leg>)
    requires forall f :: f in flags ==> IsSold(f.name)
    ensures |legs| == 2 * |ReplacementPairs(rows, flags, atm)| && |legs| <= 2 * |flags|
  {
    Flatten(ReplacementPairs(rows, flags, atm))
  }

  /** The adjusted position is sell, hedge, sell, hedge, ... for exactly the flags that get
      a replacement, in flag order: legs 2n and 2n + 1 replace the n-th such flag. */
  lemma ProposalInFlagOrder(rows: seq<Row>, flags: seq<Flag>, atm: int)
    requires forall f :: f in flags ==> IsSold(f.name)
    ensures var opts := ReplacementOptions(rows, flags, atm);
            var legs := ProposeReplacements(rows, flags, atm);
            exists idx :: Positions(PresentMarks(opts), idx) && |legs| == 2 * |idx|
                          && forall n :: 0 <= n < |idx| ==> idx[n] < |opts| && opts[idx[n]] == Some((legs[2 * n], legs[2 * n + 1]))
  {
    var opts := ReplacementOptions(rows, flags, atm);
    var pairs := ReplacementPairs(rows, flags, atm);
    var legs := ProposeReplacements(rows, flags, atm);
    SomesInOrder(opts);
    var idx :| Positions(PresentMarks(opts), idx) && ValuesAt(opts, pairs, idx);
    forall n | 0 <= n < |idx|
      ensures idx[n] < |opts| && opts[idx[n]] == Some((legs[2 * n], legs[2 * n + 1]))
    {
      FlattenAt(pairs, n);
    }
  }

  /** When the chain holds a sold/hedge pair on both sides, every flagged sold leg gets its
      replacement: legs 2n and 2n + 1 of the adjusted position replace flag n. */
  lemma EveryFlagReplaced(rows: seq<Row>, flags: seq<Flag>, atm: int)
    requires forall f :: f in flags ==> IsSold(f.name)
    requires HasPair(rows, Put, atm) && HasPair(rows, Call, atm)
    ensures var legs := ProposeReplacements(rows, flags, atm);
            && |legs| == 2 * |flags|
            && forall n :: 0 <= n < |flags| ==>
                 SuggestNewLeg(rows, flags[n].name, atm) == Replace(legs[2 * n], legs[2 * n + 1])
  {
    var opts := ReplacementOptions(rows, flags, atm);
    var pairs := ReplacementPairs(rows, flags, atm);
    forall k | 0 <= k < |opts|
      ensures opts[k].Some?
    {
      assert flags[k] in flags;
      assert HasPair(rows, SideOf(flags[k].name), atm);
    }
    AllSomes(opts);
    forall n | 0 <= n < |flags|
      ensures SuggestNewLeg(rows, flags[n].name, atm)
              == Replace(ProposeReplacements(rows, flags, atm)[2 * n], ProposeReplacements(rows, flags, atm)[2 * n + 1])
    {
      FlattenAt(pairs, n);
    }
  }

  /** Positions 2k and 2k + 1 of the adjusted position are the sell and hedge legs that
      suggest_new_leg returned for one of the flagged legs. */
  lemma ReplacementLayout(rows: seq<Row>, flags: seq<Flag>, atm: int, k: int)
    requires forall f :: f in flags ==> IsSold(f.name)
    requires 0 <= k && 2 * k + 1 < |ProposeReplacements(rows, flags, atm)|
    ensures var legs := ProposeReplacements(rows, flags, atm);
            exists f :: f in flags && SuggestNewLeg(rows, f.name, atm) == Replace(legs[2 * k], legs[2 * k + 1])
  {
    var pairs := ReplacementPairs(rows, flags, atm);
    FlattenAt(pairs, k);
    PairsComeFromFlags(rows, flags, atm);
    assert pairs[k] in pairs;
  }
}
