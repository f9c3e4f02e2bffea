/** Sweeps over saved answers: expiry in bounded batches, and a purge that names receipts by
    reference. Both come down to one filter over all receipts. */
module AnswerSweeps {
  import opened Tables
  import opened Records
  import opened LedgerInvariants
  import opened SpendLedger
  import Expiry

  // ---- Expiry in batches --------------------------------------------------------

  /** Part of the expired answers of `start` are cleared in `rows`, and nothing else. */
  ghost predicate PartlyExpired(start: seq<Receipt>, rows: seq<Receipt>, now: int) {
    && |rows| == |start|
    && forall i | 0 <= i < |rows| ::
         rows[i] == start[i]
         || (ExpiredBy(now)(start[i]) && rows[i] == start[i].(recovery := None))
  }

  ghost function DueCount(rows: seq<Receipt>, now: int): nat {
    |Expiry.DueRows(AnswerDeadlines(rows), now)|
  }

  lemma DueIsExpired(rows: seq<Receipt>, now: int, i: int)
    ensures i in Expiry.DueRows(AnswerDeadlines(rows), now)
       <==> 0 <= i < |rows| && ExpiredBy(now)(rows[i])
  {
  }

  /** A batch clears exactly its rows. */
  lemma BatchClears(start: seq<Receipt>, rows: seq<Receipt>, now: int, batch: set<int>)
    requires PartlyExpired(start, rows, now) && batch <= Expiry.DueRows(AnswerDeadlines(rows), now)
    ensures PartlyExpired(start, WithoutAnswers(rows, batch), now)
    ensures DueCount(WithoutAnswers(rows, batch), now) == DueCount(rows, now) - |batch|
  {
    var rows' := WithoutAnswers(rows, batch);
    var due := Expiry.DueRows(AnswerDeadlines(rows), now);
    var due' := Expiry.DueRows(AnswerDeadlines(rows'), now);
    forall i
      ensures i in due' <==> i in due && i !in batch
    {
      DueIsExpired(rows, now, i);
      DueIsExpired(rows', now, i);
    }
    assert due' == due - batch;
    forall i | 0 <= i < |rows|
      ensures rows'[i] == start[i]
              || (ExpiredBy(now)(start[i]) && rows'[i] == start[i].(recovery := None))
    {
      DueIsExpired(rows, now, i);
    }
  }

  /** One turn of the expiry loop: what it clears comes off the due count, and it clears nothing
      exactly when nothing is due. */
  lemma BatchTurn(start: seq<Receipt>, rows: seq<Receipt>, now: int)
    requires PartlyExpired(start, rows, now)
    ensures var batch := ExpiryBatch(rows, now);
            && PartlyExpired(start, WithoutAnswers(rows, batch), now)
            && DueCount(WithoutAnswers(rows, batch), now) == DueCount(rows, now) - |batch|
            && |batch| == (if DueCount(rows, now) <= ANSWER_BATCH_SIZE then DueCount(rows, now) else ANSWER_BATCH_SIZE)
  {
    hide Expiry.Batch;
    BatchClears(start, rows, now, ExpiryBatch(rows, now));
  }

  /** With nothing due, the batches add up to one filter over all receipts. */
  lemma BatchesAddUp(start: seq<Receipt>, rows: seq<Receipt>, now: int)
    requires PartlyExpired(start, rows, now) && DueCount(rows, now) == 0
    ensures rows == EraseAnswers(start, ExpiredBy(now))
  {
    forall i | 0 <= i < |rows|
      ensures rows[i] == EraseAnswers(start, ExpiredBy(now))[i]
    {
      DueIsExpired(rows, now, i);
    }
  }

  lemma {:induction false} DueIsCount(rows: seq<Receipt>, now: int)
    ensures DueCount(rows, now) == Count(rows, ExpiredBy(now))
  {
    if rows == [] {
      assert Expiry.DueRows(AnswerDeadlines(rows), now) == {};
    } else {
      var last := |rows| - 1;
      DueIsCount(rows[..last], now);
      var due := Expiry.DueRows(AnswerDeadlines(rows), now);
      var shorter := Expiry.DueRows(AnswerDeadlines(rows[..last]), now);
      forall i
        ensures i in due <==> i in shorter || (i == last && ExpiredBy(now)(rows[last]))
      {
        DueIsExpired(rows, now, i);
        DueIsExpired(rows[..last], now, i);
      }
      DueIsExpired(rows[..last], now, last);
      assert due == if ExpiredBy(now)(rows[last]) then shorter + {last} else shorter;
    }
  }

  // ---- Purge by reference -------------------------------------------------------

  ghost function MatchingReferences(rows: seq<Receipt>, answers: set<string>): (r: seq<string>)
    ensures |r| == Count(rows, AnswerIn(answers))
  {
    if rows == [] then []
    else
      var last := rows[|rows| - 1];
      MatchingReferences(rows[..|rows| - 1], answers)
      + if AnswerIn(answers)(last) then [last.reservation.reference] else []
  }

  ghost predicate Referenced(rows: seq<Receipt>, reference: string) {
    exists i :: 0 <= i < |rows| && rows[i].reservation.reference == reference
  }

  lemma {:induction false} Matches(rows: seq<Receipt>, answers: set<string>, reference: string)
    ensures reference in MatchingReferences(rows, answers)
       <==> exists i :: 0 <= i < |rows| && rows[i].reservation.reference == reference
                        && AnswerIn(answers)(rows[i])
    ensures reference in MatchingReferences(rows, answers) ==> Referenced(rows, reference)
  {
    if rows != [] {
      Matches(rows[..|rows| - 1], answers, reference);
    }
  }

  /** The rows named so far have lost their answer, and nothing else changed. */
  ghost predicate Purged(start: seq<Receipt>, rows: seq<Receipt>, references: seq<string>) {
    && |rows| == |start|
    && forall i | 0 <= i < |rows| ::
         rows[i] == if start[i].reservation.reference in references then start[i].(recovery := None) else start[i]
  }

  lemma NamedNext(references: seq<string>, k: nat, reference: string)
    requires k < |references|
    ensures reference in references[..k + 1] <==> reference in references[..k] || reference == references[k]
  {
    assert references[..k + 1] == references[..k] + [references[k]];
  }

  lemma PurgeAt(start: seq<Receipt>, rows: seq<Receipt>, references: seq<string>, k: nat, j: nat)
    requires k < |references| && UniqueReferences(start) && Purged(start, rows, references[..k])
    requires j < |rows| && start[j].reservation.reference == references[k]
    ensures Purged(start, rows[j := rows[j].(recovery := None)], references[..k + 1])
  {
    var rows' := rows[j := rows[j].(recovery := None)];
    forall m | 0 <= m < |rows|
      ensures rows'[m] == if start[m].reservation.reference in references[..k + 1]
                          then start[m].(recovery := None) else start[m]
    {
      NamedNext(references, k, start[m].reservation.reference);
    }
  }

  lemma PurgeOne(start: seq<Receipt>, rows: seq<Receipt>, references: seq<string>, k: nat)
    requires k < |references| && UniqueReferences(start) && Purged(start, rows, references[..k])
    requires Referenced(start, references[k])
    ensures var found := FindLast(rows, HasReference(references[k]));
            && found.Some? && found.value < |rows|
            && Purged(start, rows[found.value := rows[found.value].(recovery := None)], references[..k + 1])
  {
    hide FindLast, UniqueReferences;
    var i :| 0 <= i < |start| && start[i].reservation.reference == references[k];
    var found := FindLast(rows, HasReference(references[k]));
    assert rows[i].reservation == start[i].reservation;
    assert HasReference(references[k])(rows[i]);
    assert rows[found.value].reservation == start[found.value].reservation;
    hide Purged;
    PurgeAt(start, rows, references, k, found.value);
  }

  /** Named by reference or by answer, the same rows are erased. */
  lemma PurgeIsErase(start: seq<Receipt>, rows: seq<Receipt>, answers: set<string>)
    requires UniqueReferences(start) && Purged(start, rows, MatchingReferences(start, answers))
    ensures rows == EraseAnswers(start, AnswerIn(answers))
  {
    forall i | 0 <= i < |rows|
      ensures rows[i] == EraseAnswers(start, AnswerIn(answers))[i]
    {
      Matches(start, answers, start[i].reservation.reference);
    }
  }
}
