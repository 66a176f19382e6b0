# Iron condor adjuster — a Dafny model of its option-leg logic

The iron condor adjuster reads an option-chain snapshot (strike, call and put last
traded price, call delta per row). From it the adjuster:

- finds the at-the-money (ATM) strike;
- proposes a four-leg iron condor: sell a put and a call whose premiums lie in [90, 110],
  and hedge each with a cheaper option further out of the money;
- draws the payoff of a leg set over a grid of spot prices;
- once a position is locked, prices its legs from today's chain and flags the sold legs
  whose premium has collapsed;
- proposes a replacement sell-and-hedge pair for each flagged leg.

This project models that logic as pure functions over immutable sequences. It proves
what the functions choose, the shape of what they return, and how the monitoring
behaves.

Modules (one file each):

- `Chain` (`chain.dfy`): rows, legs, the `IronCondor` shape. A cell that failed numeric
  coercion (NaN) is `None`.
- `LegNames` (`legnames.dfy`): the substring tests `'PE' in leg` and `'Sell' in leg`,
  and `leg.split()[-1]`.
- `Ranking` (`ranking.dfy`): the one selection scheme behind every choice. It filters
  rows, ranks them by a key and takes the first row with the least key. The pandas sort
  the code uses is not stable, so this model breaks ties by taking the earliest chain row.
- `Atm` (`atm.dfy`): `detect_atm`.
- `Selection` (`selection.dfy`): `suggest_initial_legs`, `suggest_new_leg`, and a
  corrected initial selection (see Findings).
- `Payoff` (`payoff.dfy`): `calculate_payoff`.
- `Filtering` (`filtering.dfy`): keeping the present values of a list of optional
  results, in order, and the index lists that describe such a filter.
- `Adjustment` (`adjustment.dfy`): `check_adjustments`, the live-premium table rebuilt
  from the locked legs, and the list of replacement legs.
- `Page` (`page.dfy`): the page's control flow. It decides which of these steps run for
  an uploaded chain and a lock file, and what each screen holds.

Premiums, strikes and deltas are `real`. The ATM is an `int`.

Three behaviours of the code a reader may not expect:

- With every call delta missing, `detect_atm` does not fail. The NaN sort keys go last
  in their original order, so the first row's strike is rounded. It fails only on an
  empty chain or on a missing strike in the chosen row.
- Leg names are free strings. Side and direction come from substring tests, not from a
  fixed set of four roles, so for example "Buy CE" counts as a call because it lacks "PE".
- A chain that lists a strike twice can flag a leg that was just locked. Selection ranks
  every row, but the live price comes from the first row with the leg's strike. Take the
  chain [24600 call 40; 24600 call 100; 24800 call 30; 24400 put 100; 24200 put 30;
  24500 with delta 0.5 and no prices]. The ATM is 24500. Sell CE is locked at 100 from
  the second row, is priced at 40 from the first row, and is flagged at once
  (Page.RepeatedStrikePageFlags).

## Model

| member | source | states |
|---|---|---|
| LegNames.StandardNames | iron_condor_adjuster.py:57-58 | the substring tests read "Sell PE"/"Buy PE" as put legs and "Sell CE"/"Buy CE" as call legs, and only the "Sell" names as sold |
| LegNames.LastWord | iron_condor_adjuster.py:105 | `split()[-1]`: the result is a non-empty run without whitespace, followed only by whitespace and preceded by whitespace or the start of the name |
| LegNames.StandardLastWords | iron_condor_adjuster.py:105 | the last words of "Sell PE" and "Sell CE" are "PE" and "CE" |
| LegNames.SoldHasWord | iron_condor_adjuster.py:69 | every name containing "Sell" has a last word, so a flagged leg's hedge can always be named |
| Ranking.Pick | iron_condor_adjuster.py:32-34 | sort-then-`iloc[0]`: None exactly when no row passes the filter; otherwise the index of an admitted row with the least key, before which every admitted row has a strictly larger key |
| Ranking.FirstBestUnique | iron_condor_adjuster.py:34 | the tie-break makes the choice unique: two first-best rows are the same row |
| Ranking.PickIsFirstBest | iron_condor_adjuster.py:34 | whenever a first-best row exists, Pick returns exactly it |
| Atm.RoundHundred | iron_condor_adjuster.py:19 | `round(x, -2)`: a multiple of 100 within 50 of x; at exactly 50 away, the even hundred |
| Atm.DetectAtm | iron_condor_adjuster.py:16-19 | the ATM exists exactly when the chosen row (the first whose call delta is nearest 0.5, or row 0 when no delta is present) has a strike; it is that strike rounded to a hundred |
| Atm.AtmNearChosenStrike | iron_condor_adjuster.py:16-19 | the ATM is a multiple of 100 within 50 of the chosen row's strike |
| Atm.ExactDeltaFixesAtm | iron_condor_adjuster.py:17-19 | if the first row with delta exactly 0.5 has a strike, the ATM is that strike rounded |
| Atm.RoundingExamples | iron_condor_adjuster.py:19 | 24549 → 24500, 24551 → 24600; halves go to the even hundred (24550 → 24600, 24650 → 24600) |
| Selection.PickSide | iron_condor_adjuster.py:28-42 | one side of the condor: NoSold exactly when no in-band sold candidate exists; Picked exactly when the chosen sold leg has a hedge, and then both legs are the first-best rows of their rules |
| Selection.SuggestInitialLegs | iron_condor_adjuster.py:21-49 | NoCondor iff either side lacks an in-band candidate; the failing `iloc[0]` hits the call side first; otherwise legs are [Sell PE, Buy PE, Sell CE, Buy CE] with BuyPE < SellPE < ATM < SellCE < BuyCE, sold premiums in [90, 110], hedge premiums under half the sold premium |
| Selection.CondorLegsAreChosen | iron_condor_adjuster.py:44-49 | each leg of a suggested condor takes the strike and premium of the row its selection rule chooses |
| Selection.SoldLegsNearestAtm | iron_condor_adjuster.py:22-23 | the sold call has the lowest qualifying strike above the ATM, the sold put the highest qualifying strike below it |
| Selection.HedgesNearestThird | iron_condor_adjuster.py:32-42 | each hedge's premium is, among cheaper rows further out, the nearest to a third of the sold premium |
| Selection.SuggestCondor | iron_condor_adjuster.py:32-34 | corrected selection: a condor exactly when both sides have a sold leg and a hedge, otherwise nothing, never a failure |
| Selection.SuggestCondorAgrees | iron_condor_adjuster.py:21-49 | the corrected selection returns the same legs wherever the code as written returns a condor |
| Selection.UnguardedHedgeFails | iron_condor_adjuster.py:32-34 | on a chain with no cheap call beyond the sold call, the code as written fails while the corrected selection returns nothing |
| Selection.SuggestNewLeg | iron_condor_adjuster.py:73-106 | both legs or nothing: a replacement exists exactly when the leg's side has a sold leg and a hedge; the sold leg keeps the flagged name; the hedge is named "Buy " + last word |
| Selection.ReplacementMatchesInitial | iron_condor_adjuster.py:73-106 | for "Sell PE" and "Sell CE", the replacement equals the matching pair of the initial condor on the same chain and ATM |
| Selection.PutReplacementMatchesInitial | iron_condor_adjuster.py:73-106 | the "Sell PE" replacement equals the condor's put pair |
| Selection.CallReplacementMatchesInitial | iron_condor_adjuster.py:73-106 | the "Sell CE" replacement equals the condor's call pair |
| Selection.CondorIffBothReplacements | iron_condor_adjuster.py:81-99 | the corrected condor exists exactly when both standard replacements exist |
| Payoff.Intrinsic | iron_condor_adjuster.py:57 | intrinsic value is non-negative, at least the put (or call) payoff, zero out of the money, and exactly strike − spot for a put (spot − strike for a call) in the money |
| Payoff.GridCount | iron_condor_adjuster.py:52 | the number of `arange` points: the last point lies below the stop and one more step would reach it |
| Payoff.Arange | iron_condor_adjuster.py:52 | point k of the grid is start + 10k; every point lies in [start, stop) and the grid strictly increases |
| Payoff.ArangeStepsBelowStop | iron_condor_adjuster.py:52 | step n is on the grid exactly when start + 10n lies below the stop |
| Payoff.PayoffCurve | iron_condor_adjuster.py:51-60 | the grid starts at min strike − 200 and climbs in steps of 10; every point lies below max strike + 200 and one step past the last would reach it; each payoff is 75 × the summed leg profit |
| Payoff.ProfitAppend | iron_condor_adjuster.py:56-58 | the profit of concatenated leg lists is the sum of their profits |
| Payoff.FlatBetweenStrikes | iron_condor_adjuster.py:57-58 | at a spot no lower than every put strike and no higher than every call strike, the profit is the net credit: sold premiums minus bought premiums |
| Payoff.CondorProfitBounds | iron_condor_adjuster.py:57-58 | a condor's profit lies between net credit − wider spread and the net credit |
| Payoff.CondorCurveBounds | iron_condor_adjuster.py:51-60 | every payoff point of a condor lies between 75 × (net credit − wider spread) and 75 × net credit |
| Adjustment.FirstMatch | iron_condor_adjuster.py:65-67 | the first live leg with equal Leg and Strike, or None when there is none |
| Adjustment.CheckAdjustments | iron_condor_adjuster.py:62-71 | flags are a subsequence of the locked (Leg, Strike) pairs and are all sold legs; a locked leg is flagged iff its first match's premium fell by more than threshold × locked premium |
| Adjustment.FlagsInLockedOrder | iron_condor_adjuster.py:64-70 | one message per flagged locked row, in locked order, even when rows repeat a (Leg, Strike): message n is the (Leg, Strike) of the n-th flagged row, and the flagged rows are listed exactly once each |
| Adjustment.NothingFlaggedNoFlags | iron_condor_adjuster.py:64-71 | if no locked leg passes the test, the result is empty |
| Adjustment.UnflaggableLegs | iron_condor_adjuster.py:66-69 | bought legs, unmatched legs and legs whose match has no premium never produce a flag |
| Adjustment.DropExamples | iron_condor_adjuster.py:68-70 | a sold put locked at 100 is flagged at 40 and not at 60 |
| Adjustment.CondorLegsDistinct | iron_condor_adjuster.py:44-49 | the four condor legs have pairwise distinct (Leg, Strike) |
| Adjustment.SelfComparisonNoFlags | iron_condor_adjuster.py:62-71 | comparing distinct locked legs with their own premiums flags nothing at any threshold |
| Adjustment.LivePremium | iron_condor_adjuster.py:148-149 | the put or call price of the first chain row with the leg's strike; missing when no row has that strike |
| Adjustment.CompareLocked | iron_condor_adjuster.py:144-158 | one row per locked leg, in order, with its Leg, Strike, locked premium and live premium; the change is present exactly when the live premium is, and it is zero exactly when today's price equals the locked premium |
| Adjustment.LiveLegs | iron_condor_adjuster.py:162-165 | the live legs keep each row's Leg and Strike and carry today's premium, so looking up any row's (Leg, Strike) in the rebuilt table finds a match |
| Adjustment.Monitor | iron_condor_adjuster.py:144-166 | today's flags are a subsequence of the locked (Leg, Strike) pairs and all name sold legs |
| Adjustment.LivePremiumByNameAndStrike | iron_condor_adjuster.py:148 | the live premium depends only on the leg's name and strike |
| Adjustment.RebuildMatchesEveryLeg | iron_condor_adjuster.py:145-166 | in the rebuilt live table every locked leg finds a match, and its first match carries that leg's live premium |
| Adjustment.MonitorFlagsExactly | iron_condor_adjuster.py:144-166 | monitoring flags a locked leg iff it is sold, has a live price, and that price fell by more than half its locked premium |
| Adjustment.UnchangedChainNoFlags | iron_condor_adjuster.py:145-166 | if today's prices equal the locked premiums, nothing is flagged |
| Adjustment.UnchangedChainNoChange | iron_condor_adjuster.py:158 | if today's prices equal the locked premiums, every change is zero |
| Adjustment.RepricedFromOwnRow | iron_condor_adjuster.py:148-149 | on a chain that lists each strike once, a leg priced from a row is repriced from that same row |
| Adjustment.PricedFromRepriced | iron_condor_adjuster.py:144-149 | on such a chain, four standard legs priced from chain rows are all repriced at their locked premiums |
| Adjustment.CondorPricedFrom | iron_condor_adjuster.py:44-49 | every leg of a suggested condor is priced from a chain row with a strike and a price |
| Adjustment.LockedSuggestionRoundTrip | iron_condor_adjuster.py:122-166 | on a chain that lists each strike once, locking the suggested condor and monitoring it on the same chain flags nothing and shows every change as zero |
| Adjustment.CondorSellsChosenCall | iron_condor_adjuster.py:21-49 | when both sides have a chosen sold/hedge pair, the condor exists and its Sell CE comes from the chosen call row |
| Adjustment.RepeatedStrikeCondor | iron_condor_adjuster.py:21-49 | on the repeated-strike chain with ATM 24500 the condor sells the call at 24600 for 100, from the second row |
| Adjustment.RepeatedStrikeFlagsLockedCall | iron_condor_adjuster.py:144-170 | on the same chain, monitoring the just-locked condor flags Sell CE at 24600, because the first 24600 row prices it at 40 |
| Adjustment.ReplacementOf | iron_condor_adjuster.py:176-177 | for a sold flag, `suggest_new_leg` yields nothing exactly when the leg's side has no sold leg with a hedge, and otherwise its sell and hedge pair; the `split()[-1]` failure of line 105 cannot occur |
| Adjustment.SoldFlagHasReplacementName | iron_condor_adjuster.py:105 | a flag naming a sold leg never reaches the failing `split()[-1]` |
| Filtering.SomesInOrder | iron_condor_adjuster.py:175-178 | keeping the found pairs keeps each one once, in order, and nothing else: value n is the n-th present result |
| Filtering.AllSomes | iron_condor_adjuster.py:175-178 | when every result is present, all are kept, position for position |
| Adjustment.ReplacementPairs | iron_condor_adjuster.py:174-178 | at most one replacement pair per flagged leg |
| Adjustment.PairsInFlagOrder | iron_condor_adjuster.py:174-178 | the pairs are exactly the replacements of the flags that have one, once each, in flag order |
| Adjustment.PairsComeFromFlags | iron_condor_adjuster.py:175-178 | every replacement pair is the sell and hedge that `suggest_new_leg` returns for some flagged leg |
| Adjustment.FlattenAt | iron_condor_adjuster.py:178 | after `extend([sell, buy])`, pair k sits at positions 2k and 2k + 1 |
| Adjustment.ProposeReplacements | iron_condor_adjuster.py:174-178 | the adjusted position has two legs per replacement pair, so at most two per flag |
| Adjustment.ProposalInFlagOrder | iron_condor_adjuster.py:174-178 | the adjusted position is sell, hedge, sell, hedge, ... for exactly the flags that get a replacement, in flag order: legs 2n and 2n + 1 replace the n-th such flag |
| Adjustment.ReplacementLayout | iron_condor_adjuster.py:174-178 | legs 2k and 2k + 1 of the adjusted position are a replacement pair for one of the flagged legs |
| Adjustment.EveryFlagReplaced | iron_condor_adjuster.py:174-178 | when both sides of the chain have a sold leg with a hedge, every sold flag is replaced: two legs per flag, legs 2n and 2n + 1 replacing flag n |
| Page.Render | iron_condor_adjuster.py:112-189 | NoAtm exactly when `detect_atm` fails (line 119); NoSuggestion exactly when `suggest_initial_legs` returns None, and HedgeFails exactly when it fails (lines 34/42), naming the failing side; with a condor (the gate at line 123) the suggestion is shown without a lock file, an empty lock file fails at line 158, and a non-empty one is monitored; the monitor's table has one row per locked leg, its flags come from the locked legs, there are at most two adjusted legs per flag, and the adjusted chart appears exactly when there are adjusted legs |
| Page.MonitoredFlagsAllReplaced | iron_condor_adjuster.py:122-178 | whenever the page monitors, every flag gets its replacement pair, in flag order |
| Page.RepeatedStrikeAtm | iron_condor_adjuster.py:16-19 | the repeated-strike chain's delta-0.5 row puts the ATM at 24500 |
| Page.RepeatedStrikePageFlags | iron_condor_adjuster.py:119-170 | on the repeated-strike chain the page suggests the condor, and after locking it a reload flags Sell CE at 24600 |
| Page.LockThenReload | iron_condor_adjuster.py:122-189 | on a chain that lists each strike once, locking the shown suggestion and reloading on the same chain monitors with no flag, no adjusted leg, no adjusted chart and every change zero |

## Findings

| source | as written | input that shows it | evidently intended | confidence | as-written member | corrected member |
|---|---|---|---|---|---|---|
| iron_condor_adjuster.py:32-34 | the hedge is taken with `.iloc[0]` without checking for candidates (same at lines 40-42), so an empty candidate set raises IndexError | ATM 24500 with three rows: strike 24600 with call 100; strike 24400 with put 100; strike 24200 with put 30. The sold call at 24600 has no call beyond it under 50 | no suggestion, as `suggest_new_leg` does at lines 91-92 and 98-99 | high (not executed) | Selection.UnguardedHedgeFails | Selection.SuggestCondor |

`Selection.SuggestInitialLegs` models the code as written. `HedgeMissing` stands for the
failure. `Selection.SuggestCondor` is the corrected selection. The lemmas use them as
follows:

- `Selection.CondorIffBothReplacements` relates the corrected `SuggestCondor` to the
  replacements.
- `Selection.ReplacementMatchesInitial` relates the as-written `SuggestInitialLegs` to the
  replacements, under the precondition that it returned a condor.
- `Page.Render` follows the code as written. It uses `SuggestInitialLegs` and ends in
  `HedgeFails` where the code raises.

## Left out

- The Streamlit widgets, messages, tables and Plotly figure set-up are presentation
  only. These are lines 1-9, 110, 120, 124-125, 127, 129-131, 134, 137, 142, 160, 169-171,
  173, 180-181, 183, 185-187, 189 and 191-193. The control flow around them is modelled
  by Page.Render: the ATM at line 119, the suggestion and its gate at 122-123, the
  payoffs at 128 and 184, the lock-file branch at 133-140, monitoring at 144-166, and
  the replacement loop and its gate at 174-179.
- CSV reading, whitespace stripping of column names and `pd.to_numeric` (lines 113-117).
  Rows arrive already coerced, with `None` for each unparsable cell.
- The JSON lock file (lines 133-140, 191-193): writing, reading and deleting it are file
  I/O. Page.Render takes its content as a parameter, `None` when the file does not exist.
  Its legs have numeric strikes and premiums, as the suggestion that is written to the
  file always has. A file holding an empty list ends in Page.Render's `EmptyLockFails`,
  because the empty comparison table has no columns and line 158 raises. The lock and reset buttons are user actions between page runs.
  Page.LockThenReload covers a lock followed by a reload.
- Floating point: values are exact reals. The model ignores rounding error in `sold / 3`,
  in the payoff sum and in `np.arange` steps, and the float arithmetic inside
  `round(x, -2)`. NaN is modelled only as a missing cell.
- Atm.RoundHundred: models half-to-even rounding on exact values. It does not model the
  float scaling numpy applies first.
- Ranking.Pick: ties go to the earliest chain row. pandas' default sort is not stable,
  so the code's choice among tied rows is unspecified.
- Payoff.PayoffCurve: requires a non-empty leg list. On an empty list the code's `min()`
  is NaN and `np.arange` raises. Both callers pass non-empty lists.
- Adjustment.SelfComparisonNoFlags: requires the locked legs to have distinct (Leg,
  Strike) pairs. With duplicates, a leg is compared with the first duplicate's premium
  and can be flagged. Every condor has distinct legs (Adjustment.CondorLegsDistinct).
- Re-running the whole page on the same inputs gives the same output. Here this holds
  by construction, because every member is a pure function, so there is no separate lemma.
- Adjustment.ReplacementPairs: requires every flag to name a sold leg. The flags come from
  `check_adjustments`, which reports only names containing "Sell" (Page.Render composes
  the two). A sold name always has a last word, so the `split()[-1]` failure
  cannot occur on this path.
- Adjustment.ProposeReplacements: the same sold-name requirement, for the same reason.
- Adjustment.LockedSuggestionRoundTrip: requires a chain that lists each strike once.
  With a repeated strike the round trip fails: the leg is locked at its selected row's
  price but repriced from the first row with that strike. Adjustment.RepeatedStrikeFlagsLockedCall
  proves the flag on the six-row chain above. Page.LockThenReload has the same requirement.
- `detect_atm` also adds two columns to the caller's table. That side effect is not
  modelled.
