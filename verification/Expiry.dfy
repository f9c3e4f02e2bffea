/** Bounded expiry: which rows a batch clears. A row without a deadline has nothing to
    clear; ties between equal deadlines are broken by row order. */
module Expiry {
  import opened Tables

  predicate Due(deadlines: seq<Option<int>>, now: int, i: int) {
    0 <= i < |deadlines| && deadlines[i].Some? && deadlines[i].value <= now
  }

  function DueRows(deadlines: seq<Option<int>>, now: int): set<int> {
    set i | 0 <= i < |deadlines| && Due(deadlines, now, i)
  }

  /** The due row with the earliest deadline. */
  function Earliest(deadlines: seq<Option<int>>, now: int): (r: Option<nat>)
    ensures r.Some? ==>
              && Due(deadlines, now, r.value)
              && forall i | Due(deadlines, now, i) :: deadlines[r.value].value <= deadlines[i].value
    ensures r.None? ==> forall i :: !Due(deadlines, now, i)
  {
    if deadlines == [] then None
    else
      var last := |deadlines| - 1;
      var before := Earliest(deadlines[..last], now);
      assert forall i | Due(deadlines, now, i) && i < last :: Due(deadlines[..last], now, i);
      if before.None? then (if Due(deadlines, now, last) then Some(last) else None)
      else if Due(deadlines, now, last) && deadlines[last].value < deadlines[before.value].value
      then Some(last)
      else before
  }

  /** Clearing one due row removes exactly it from the due rows. */
  lemma ClearOne(deadlines: seq<Option<int>>, now: int, first: nat)
    requires Due(deadlines, now, first)
    ensures first !in DueRows(deadlines[first := None], now)
    ensures DueRows(deadlines, now) == DueRows(deadlines[first := None], now) + {first}
  {
    var rest := deadlines[first := None];
    forall i | i != first
      ensures Due(rest, now, i) == Due(deadlines, now, i)
    {
    }
  }

  /** At most `limit` due rows, earliest deadline first. */
  function Batch(deadlines: seq<Option<int>>, now: int, limit: nat): (r: set<int>)
    ensures r <= DueRows(deadlines, now)
    ensures |r| == if |DueRows(deadlines, now)| <= limit then |DueRows(deadlines, now)| else limit
    ensures forall i, j | i in r && j in DueRows(deadlines, now) - r ::
              deadlines[i].value <= deadlines[j].value
    decreases limit
  {
    var first := Earliest(deadlines, now);
    if limit == 0 then {}
    else if first.None? then
      assert DueRows(deadlines, now) == {};
      {}
    else
      ClearOne(deadlines, now, first.value);
      Batch(deadlines[first.value := None], now, limit - 1) + {first.value}
  }

  /** A positive limit makes progress whenever anything is due. */
  lemma BatchProgresses(deadlines: seq<Option<int>>, now: int, limit: nat)
    requires limit > 0
    ensures Batch(deadlines, now, limit) == {} <==> DueRows(deadlines, now) == {}
  {
    assert |DueRows(deadlines, now)| == 0 <==> DueRows(deadlines, now) == {};
  }
}
