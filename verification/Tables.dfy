/** Option, Result and the two table operations every store is built on: a lookup
    that returns the newest matching row, and a count of matching rows. */
module Tables {

  datatype Option<+T> = None | Some(value: T)

  datatype Result<+T, +E> = Ok(value: T) | Err(error: E) {
    predicate IsFailure() {
      Err?
    }

    function PropagateFailure<U>(): Result<U, E>
      requires Err?
    {
      Err(error)
    }

    function Extract(): T
      requires Ok?
    {
      value
    }
  }

  /** A check that refuses a whole transaction: `:- Need(condition, error)`. */
  datatype Check<+E> = Pass | Refuse(error: E) {
    predicate IsFailure() {
      Refuse?
    }

    function PropagateFailure<U>(): Result<U, E>
      requires Refuse?
    {
      Err(error)
    }
  }

  function Need<E>(condition: bool, error: E): Check<E> {
    if condition then Pass else Refuse(error)
  }

  /** Index of the newest row (greatest rowid) that satisfies `p`. */
  function FindLast<T>(rows: seq<T>, p: T -> bool): (r: Option<nat>)
    ensures r.Some? ==> r.value < |rows| && p(rows[r.value])
    ensures r.Some? ==> forall i | r.value < i < |rows| :: !p(rows[i])
    ensures r.None? ==> forall i | 0 <= i < |rows| :: !p(rows[i])
  {
    if rows == [] then None
    else if p(rows[|rows| - 1]) then Some(|rows| - 1)
    else FindLast(rows[..|rows| - 1], p)
  }

  /** Updating the newest matching row to another matching one keeps its place. */
  lemma FindLastUpdated<T>(rows: seq<T>, i: nat, row: T, p: T -> bool)
    requires FindLast(rows, p) == Some(i) && p(row)
    ensures i < |rows| && FindLast(rows[i := row], p) == Some(i)
  {
    assert p(rows[i := row][i]);
    assert forall j | i < j < |rows| :: rows[i := row][j] == rows[j];
  }

  /** The newest matching row itself. */
  function Newest<T>(rows: seq<T>, p: T -> bool): Option<T> {
    match FindLast(rows, p)
    case None => None
    case Some(i) => Some(rows[i])
  }

  function Count<T>(rows: seq<T>, p: T -> bool): nat {
    if rows == [] then 0
    else Count(rows[..|rows| - 1], p) + if p(rows[|rows| - 1]) then 1 else 0
  }

  lemma CountAppend<T>(rows: seq<T>, row: T, p: T -> bool)
    ensures Count(rows + [row], p) == Count(rows, p) + if p(row) then 1 else 0
  {
    assert (rows + [row])[..|rows|] == rows;
  }

  lemma {:induction false} CountUpdate<T>(rows: seq<T>, i: nat, row: T, p: T -> bool)
    requires i < |rows|
    ensures Count(rows[i := row], p)
         == Count(rows, p) - (if p(rows[i]) then 1 else 0) + (if p(row) then 1 else 0)
  {
    var last := |rows| - 1;
    if i == last {
      assert rows[i := row][..last] == rows[..last];
    } else {
      assert rows[i := row][..last] == rows[..last][i := row];
      CountUpdate(rows[..last], i, row, p);
    }
  }

  /** Rows that agree on `p` position by position have the same count. */
  lemma {:induction false} CountSame<T>(rows: seq<T>, rows': seq<T>, p: T -> bool)
    requires |rows| == |rows'|
    requires forall i | 0 <= i < |rows| :: p(rows[i]) == p(rows'[i])
    ensures Count(rows, p) == Count(rows', p)
  {
    if rows != [] {
      CountSame(rows[..|rows| - 1], rows'[..|rows| - 1], p);
    }
  }

  /** A count is zero exactly when no row matches. */
  lemma {:induction false} CountZero<T>(rows: seq<T>, p: T -> bool)
    ensures Count(rows, p) == 0 <==> forall i | 0 <= i < |rows| :: !p(rows[i])
  {
    if rows != [] {
      CountZero(rows[..|rows| - 1], p);
      forall i | 0 <= i < |rows| - 1
        ensures rows[..|rows| - 1][i] == rows[i]
      {
      }
    }
  }
}
