/** The option-chain table and the leg records the adjuster works on. */
module Chain {

  /** A cell that may be missing: numeric coercion turns an unparsable cell into None. */
  datatype Option<+T> = None | Some(value: T)

  /** One option-chain row after coercion of its 'Strike', 'Call LTP', 'Put LTP'
      and 'Call Delta' columns. */
  datatype Row = Row(strike: Option<real>, callLtp: Option<real>, putLtp: Option<real>, callDelta: Option<real>)

  /** The half of the condor a leg belongs to, and so the premium column it reads. */
  datatype Side = Put | Call

  /** A priced leg: one record of the 'Leg', 'Strike', 'Premium' table. */
  datatype Leg = Leg(name: string, strike: real, premium: real)

  /** The 'Put LTP' or 'Call LTP' cell of a row. */
  function Premium(row: Row, side: Side): Option<real>
  {
    match side
    case Put => row.putLtp
    case Call => row.callLtp
  }

  /** The value of a present cell, 0 for a missing one (used only where presence is known). */
  function Val(o: Option<real>): real
  {
    match o
    case Some(v) => v
    case None => 0.0
  }

  function Abs(x: real): real
  {
    if x < 0.0 then -x else x
  }

  function Max(a: real, b: real): real
  {
    if a < b then b else a
  }

  /** The shape of a suggested position: sold put, its hedge, sold call, its hedge,
      each hedge strictly further out of the money than the leg it protects. */
  predicate IronCondor(legs: seq<Leg>)
  {
    && |legs| == 4
    && legs[0].name == "Sell PE" && legs[1].name == "Buy PE"
    && legs[2].name == "Sell CE" && legs[3].name == "Buy CE"
    && legs[1].strike < legs[0].strike < legs[2].strike < legs[3].strike
  }
}
