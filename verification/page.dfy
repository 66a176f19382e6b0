/** The page around the core: which screen an uploaded chain and the lock file lead to.
    The widgets, tables and charts themselves are not modelled; the branches that decide
    what is computed and shown are. */
module Page {
  import opened Chain
  import opened Atm
  import opened Selection
  import opened Payoff
  import opened Adjustment

  /** Where one run of the page ends up. */
  datatype Screen =
      /** detect_atm raised: the chain has no usable row. */
    | NoAtm
      /** suggest_initial_legs returned None: only the ATM is shown. */
    | NoSuggestion(atm: int)
      /** suggest_initial_legs raised on the missing hedge of `side`. */
    | HedgeFails(atm: int, side: Side)
      /** No lock file: the suggestion, its payoff chart and the lock button. */
    | Suggested(atm: int, legs: seq<Leg>, curve: seq<Point>)
      /** A lock file holding no legs: the suggestion and its chart are shown, then the
          empty comparison table has no `Premium_now` column and the page raises. */
    | EmptyLockFails(atm: int, legs: seq<Leg>, curve: seq<Point>)
      /** A lock file: the suggestion and its chart, then the locked legs against today's
          chain, the flags and the adjusted position with its chart when it is non-empty. */
    | Monitored(atm: int, legs: seq<Leg>, curve: seq<Point>, table: seq<LiveRow>,
                flags: seq<Flag>, adjusted: seq<Leg>, adjustedCurve: Option<seq<Point>>)

  /** The condor suggested for the chain, if the page gets that far. */
  predicate Suggests(rows: seq<Row>)
  {
    DetectAtm(rows).Some? && SuggestInitialLegs(rows, DetectAtm(rows).value).Condor?
  }

  /** One run of the page on an uploaded chain. `lockFile` is the content of the lock file
      when it exists; whatever legs were locked earlier are compared with today's chain. */
  function Render(rows: seq<Row>, lockFile: Option<seq<Leg>>): (s: Screen)
    ensures s.NoAtm? <==> DetectAtm(rows).None?
    ensures !s.NoAtm? ==> s.atm == DetectAtm(rows).value
    ensures s.NoSuggestion? <==> DetectAtm(rows).Some? && SuggestInitialLegs(rows, DetectAtm(rows).value).NoCondor?
    ensures s.HedgeFails? <==> DetectAtm(rows).Some? && SuggestInitialLegs(rows, DetectAtm(rows).value).HedgeMissing?
    ensures s.HedgeFails? ==> SuggestInitialLegs(rows, s.atm) == HedgeMissing(s.side)
    ensures s.Suggested? <==> lockFile.None? && Suggests(rows)
    ensures s.EmptyLockFails? <==> lockFile == Some([]) && Suggests(rows)
    ensures s.Monitored? <==> lockFile.Some? && |lockFile.value| > 0 && Suggests(rows)
    ensures (s.Suggested? || s.EmptyLockFails? || s.Monitored?) ==> IronCondor(s.legs) && |s.curve| > 0
    ensures s.Monitored? ==> && |s.table| == |lockFile.value|
                             && IsSubsequence(s.flags, FlagsOf(lockFile.value))
                             && |s.adjusted| <= 2 * |s.flags|
                             && (s.adjustedCurve.Some? <==> |s.adjusted| > 0)
  {
    match DetectAtm(rows)
    case None => NoAtm
    case Some(atm) =>
      match SuggestInitialLegs(rows, atm)
      case NoCondor => NoSuggestion(atm)
      case HedgeMissing(side) => HedgeFails(atm, side)
      case Condor(legs) =>
        var curve := PayoffCurve(legs);
        match lockFile
        case None => Suggested(atm, legs, curve)
        case Some(locked) =>
          if |locked| == 0 then EmptyLockFails(atm, legs, curve)
          else
            var flags := Monitor(rows, locked);
            var adjusted := ProposeReplacements(rows, flags, atm);
            Monitored(atm, legs, curve, CompareLocked(rows, locked), flags, adjusted,
                      if |adjusted| > 0 then Some(PayoffCurve(adjusted)) else None)
  }

  /** Monitoring only runs under a suggested condor, so both sides of today's chain hold a
      sold/hedge pair and every flag gets its replacement, in flag order. */
  lemma MonitoredFlagsAllReplaced(rows: seq<Row>, lockFile: Option<seq<Leg>>)
    requires Render(rows, lockFile).Monitored?
    ensures var s := Render(rows, lockFile);
            && |s.adjusted| == 2 * |s.flags|
            && forall n :: 0 <= n < |s.flags| ==>
                 SuggestNewLeg(rows, s.flags[n].name, s.atm) == Replace(s.adjusted[2 * n], s.adjusted[2 * n + 1])
  {
    var s := Render(rows, lockFile);
    EveryFlagReplaced(rows, s.flags, s.atm);
  }

  /** Locking the suggestion and reloading the page on the same chain shows no change and
      no adjustment, provided the chain lists each strike once. */
  lemma LockThenReload(rows: seq<Row>)
    requires DistinctStrikes(rows)
    requires Render(rows, None).Suggested?
    ensures var s := Render(rows, Some(Render(rows, None).legs));
            && s.Monitored? && s.flags == [] && s.adjusted == [] && s.adjustedCurve.None?
            && forall k :: 0 <= k < |s.table| ==> s.table[k].delta == Some(0.0)
  {
    LockedSuggestionRoundTrip(rows, DetectAtm(rows).value);
  }

  /** On the repeated-strike chain the row with delta 0.5 puts the ATM at 24500. */
  lemma RepeatedStrikeAtm()
    ensures DetectAtm(RepeatedStrikeChain()) == Some(24_500)
  {
    var rows := RepeatedStrikeChain();
    ExactDeltaFixesAtm(rows, 5);
    assert RoundHundred(24_500.0) == 24_500;
  }

  /** The page itself reaches the repeated-strike flag: it suggests the condor, and after
      locking it a reload on the same chain flags the call just sold. */
  lemma RepeatedStrikePageFlags()
    ensures Render(RepeatedStrikeChain(), None).Suggested?
    ensures var s := Render(RepeatedStrikeChain(), Some(Render(RepeatedStrikeChain(), None).legs));
            s.Monitored? && Flag("Sell CE", 24_600.0) in s.flags
  {
    RepeatedStrikeAtm();
    RepeatedStrikeFlagsLockedCall();
  }
}
