/** Filtering a list while keeping order: the positions a filter keeps, and the values
    present in a list of options. */
module Filtering {
  import opened Chain

  /** idx lists, in increasing order, exactly the positions k at which marks[k] holds:
      it pins which elements a filter keeps, how many, and in what order. */
  ghost predicate Positions(marks: seq<bool>, idx: seq<nat>)
  {
    && (forall n :: 0 <= n < |idx| ==> idx[n] < |marks| && marks[idx[n]])
    && (forall n, m :: 0 <= n < m < |idx| ==> idx[n] < idx[m])
    && (forall k :: 0 <= k < |marks| && marks[k] ==> k in idx)
  }

  /** The positions of a whole list built from those of its tail: 0 when the head is
      marked, then every tail position moved up by one. */
  ghost function ConsIdx(head: bool, ridx: seq<nat>): (idx: seq<nat>)
    ensures |idx| == |ridx| + (if head then 1 else 0)
    ensures head ==> idx[0] == 0
    ensures forall m :: |idx| - |ridx| <= m < |idx| ==> idx[m] == ridx[m - (|idx| - |ridx|)] + 1
  {
    (if head then [0] else []) + seq(|ridx|, n requires 0 <= n < |ridx| => ridx[n] + 1)
  }

  lemma PositionsCons(marks: seq<bool>, ridx: seq<nat>)
    requires |marks| > 0 && Positions(marks[1..], ridx)
    ensures Positions(marks, ConsIdx(marks[0], ridx))
  {
    var idx := ConsIdx(marks[0], ridx);
    var d := |idx| - |ridx|;
    forall n | 0 <= n < |idx|
      ensures idx[n] < |marks| && marks[idx[n]]
    {
      if n >= d {
        assert marks[idx[n]] == marks[1..][ridx[n - d]];
      }
    }
    forall n, m | 0 <= n < m < |idx|
      ensures idx[n] < idx[m]
    {
      if n >= d {
        assert ridx[n - d] < ridx[m - d];
      }
    }
    forall k | 0 <= k < |marks| && marks[k]
      ensures k in idx
    {
      if k == 0 {
        assert idx[0] == k;
      } else {
        assert marks[1..][k - 1];
        var n :| 0 <= n < |ridx| && ridx[n] == k - 1;
        assert idx[n + d] == k;
      }
    }
  }

  /** The values present in a list of options, in order. */
  function Somes<T>(opts: seq<Option<T>>): (vs: seq<T>)
    ensures |vs| <= |opts|
  {
    if |opts| == 0 then [] else (if opts[0].Some? then [opts[0].value] else []) + Somes(opts[1..])
  }

  /** Which options are present, position by position. */
  ghost function PresentMarks<T>(opts: seq<Option<T>>): (marks: seq<bool>)
    ensures |marks| == |opts|
    ensures forall k :: 0 <= k < |opts| ==> marks[k] == opts[k].Some?
  {
    seq(|opts|, k requires 0 <= k < |opts| => opts[k].Some?)
  }

  /** vs[n] is the value of the option at position idx[n], for every n. */
  ghost predicate ValuesAt<T>(opts: seq<Option<T>>, vs: seq<T>, idx: seq<nat>)
  {
    && |vs| == |idx|
    && forall n :: 0 <= n < |idx| ==> idx[n] < |opts| && opts[idx[n]] == Some(vs[n])
  }

  /** Prepending the head's value (when present) keeps value n at the option the n-th
      position names. */
  lemma ValuesCons<T>(opts: seq<Option<T>>, rest: seq<T>, ridx: seq<nat>)
    requires |opts| > 0 && ValuesAt(opts[1..], rest, ridx)
    ensures ValuesAt(opts, (if opts[0].Some? then [opts[0].value] else []) + rest, ConsIdx(opts[0].Some?, ridx))
  {
    var vs := (if opts[0].Some? then [opts[0].value] else []) + rest;
    var idx := ConsIdx(opts[0].Some?, ridx);
    var d := |idx| - |ridx|;
    forall n | d <= n < |idx|
      ensures idx[n] < |opts| && opts[idx[n]] == Some(vs[n])
    {
      assert vs[n] == rest[n - d] && idx[n] == ridx[n - d] + 1;
      assert opts[idx[n]] == opts[1..][ridx[n - d]];
    }
  }

  /** Somes keeps every present value once, in order, and nothing else: value n is the
      n-th present option. */
  lemma {:induction false} SomesInOrder<T>(opts: seq<Option<T>>)
    ensures exists idx :: Positions(PresentMarks(opts), idx) && ValuesAt(opts, Somes(opts), idx)
    decreases |opts|
  {
    var marks := PresentMarks(opts);
    if |opts| == 0 {
      assert Positions(marks, []) && ValuesAt(opts, [], []);
    } else {
      SomesInOrder(opts[1..]);
      var rest := Somes(opts[1..]);
      var ridx :| Positions(PresentMarks(opts[1..]), ridx) && ValuesAt(opts[1..], rest, ridx);
      assert marks[1..] == PresentMarks(opts[1..]);
      PositionsCons(marks, ridx);
      ValuesCons(opts, rest, ridx);
      assert Positions(marks, ConsIdx(marks[0], ridx));
    }
  }

  /** When every option is present, Somes keeps them all, position for position. */
  lemma {:induction false} AllSomes<T>(opts: seq<Option<T>>)
    requires forall k :: 0 <= k < |opts| ==> opts[k].Some?
    ensures |Somes(opts)| == |opts|
    ensures forall k :: 0 <= k < |opts| ==> opts[k] == Some(Somes(opts)[k])
    decreases |opts|
  {
    if |opts| > 0 {
      assert forall k :: 1 <= k < |opts| ==> opts[1..][k - 1] == opts[k];
      AllSomes(opts[1..]);
      var rest := Somes(opts[1..]);
      assert Somes(opts) == [opts[0].value] + rest;
      assert forall k :: 1 <= k < |opts| ==> Somes(opts)[k] == rest[k - 1];
    }
  }
}
