/** Transactions of the spend ledger as functions on its tables. An `Err` is a rolled back
    transaction: the caller keeps the old tables. */
module SpendLedger {
  import opened Tables
  import opened Records
  import Expiry

  /** Content-free completion evidence; never saved as an answer. */
  const EVIDENCE := "{\"output_received\":true}"

  // ---- Row predicates -----------------------------------------------------------

  predicate SameChain(r: Receipt, account: string, invocation: string) {
    r.reservation.account == account && r.reservation.invocation == invocation
  }

  function HasReference(reference: string): Receipt -> bool {
    (r: Receipt) => r.reservation.reference == reference
  }

  function InChain(account: string, invocation: string): Receipt -> bool {
    (r: Receipt) => SameChain(r, account, invocation)
  }

  function UnknownIn(account: string, invocation: string): Receipt -> bool {
    (r: Receipt) => SameChain(r, account, invocation) && r.state == Unknown
  }

  /** Receipts that hold one request of the account's allowance. */
  function HeldBy(account: string): Receipt -> bool {
    (r: Receipt) => r.reservation.account == account && r.state != Released
  }

  /** Explicit receipts of a chain that used a provider attempt. */
  function ChargedIn(account: string, invocation: string): Receipt -> bool {
    (r: Receipt) => SameChain(r, account, invocation) && r.attemptLimit.Some? && !r.preDispatchReleased
  }

  function Used(l: Ledger, account: string): nat {
    if account in l.used then l.used[account] else 0
  }

  function ReceiptIndex(l: Ledger, reference: string): Option<nat> {
    FindLast(l.receipts, HasReference(reference))
  }

  function StateOf(l: Ledger, reference: string): Option<SpendState> {
    match ReceiptIndex(l, reference)
    case None => None
    case Some(i) => Some(l.receipts[i].state)
  }

  /** The saved answer a reader sees at `now`: only strictly before its deadline. */
  function Readable(r: Receipt, now: int): Option<string> {
    if r.recovery.Some? && r.recovery.value.expiresAt > now then Some(r.recovery.value.answer)
    else None
  }

  // ---- Reserve ------------------------------------------------------------------

  /** The receipt of a fresh reference: fenced by its predecessor, under the frozen ceiling. */
  function NextReceipt(l: Ledger, r: Reservation, attemptLimit: Option<u32>, handoff: Option<string>)
    : Result<Receipt, LedgerError>
  {
    var previous := Newest(l.receipts, InChain(r.account, r.invocation));
    var explicit := attemptLimit.Some? || (previous.Some? && previous.value.attemptLimit.Some?);
    var fenced := (explicit || handoff.Some?) && previous.Some?;
    :- Need(!(fenced && previous.value.output), if explicit then InvocationCompleted else Conflict);
    :- Need(!(fenced && previous.value.state == Settled), Conflict);
    :- Need(FindLast(l.receipts, UnknownIn(r.account, r.invocation)).None?, Conflict);
    var frozen :=
      if previous.Some? && previous.value.attemptLimit.Some? then previous.value.attemptLimit
      else attemptLimit;
    var attempts := if previous.Some? then previous.value.attemptsUsed else 0;
    :- Need(frozen.None? || attempts < frozen.value, AttemptBudgetExhausted);
    :- Need(frozen.None? || attempts < U32_MAX, Storage);
    Ok(Receipt(r, Unknown, None, false, handoff, None, false, frozen,
               if frozen.Some? then attempts + 1 else 0, None))
  }

  /** Take one request of the account's allowance and append the receipt. */
  function Charge(l: Ledger, row: Receipt): Result<Ledger, LedgerError> {
    var limit := row.reservation.requestLimit;
    var held := Used(l, row.reservation.account);
    :- Need(limit.None? || limit.value <= I64_MAX, Storage);
    :- Need(held < I64_MAX && (limit.None? || held < limit.value), SpendBudgetExhausted);
    Ok(Ledger(l.used[row.reservation.account := held + 1], l.receipts + [row]))
  }

  /** Accept one attempt, or report reattachment to exactly the same reservation. */
  function Reserve(l: Ledger, r: Reservation, attemptLimit: Option<u32>, handoff: Option<string>)
    : Result<(bool, Ledger), LedgerError>
  {
    var previous := Newest(l.receipts, InChain(r.account, r.invocation));
    :- Need(previous.None? || previous.value.reservation.binding == r.binding, Conflict);
    var existing := Newest(l.receipts, HasReference(r.reference));
    if existing.Some? then
      if existing.value.reservation == r then Ok((false, l)) else Err(Conflict)
    else
      var row :- NextReceipt(l, r, attemptLimit, handoff);
      var charged :- Charge(l, row);
      Ok((true, charged))
  }

  /** Reserve a trusted handoff with its exact queued input. */
  function ReserveHandoff(l: Ledger, h: Handoff): Result<(bool, Ledger), LedgerError> {
    var existing := Newest(l.receipts, HasReference(h.reservation.reference));
    :- Need(h.inputIdentity != "", Conflict);
    var (accepted, l') :- Reserve(l, h.reservation, None, Some(h.inputIdentity));
    :- Need(accepted || existing.value.handoffInput == Some(h.inputIdentity), Conflict);
    Ok((accepted, l'))
  }

  /** Take dispatch ownership of an accepted handoff. */
  function AcquireHandoff(l: Ledger, h: Handoff, account: string, input: string, owner: string)
    : Result<Ledger, LedgerError>
  {
    var found := ReceiptIndex(l, h.reservation.reference);
    :- Need(found.Some?, Conflict);
    var prior := l.receipts[found.value];
    :- Need(prior.reservation == h.reservation && prior.state == Unknown
            && prior.reservation.account == account && h.inputIdentity == input && owner != "",
            Conflict);
    :- Need(prior.handoffInput == Some(input) && prior.dispatchOwner.None?, Conflict);
    Ok(l.(receipts := l.receipts[found.value := prior.(dispatchOwner := Some(owner))]))
  }

  // ---- Finish and release -------------------------------------------------------

  /** Settle or reconcile. Repeating an identical settlement changes nothing. */
  function Finish(l: Ledger, reference: string, state: SpendState, usage: Option<Usage>, output: bool)
    : Result<Ledger, LedgerError>
  {
    var found := ReceiptIndex(l, reference);
    :- Need(found.Some?, Conflict);
    var prior := l.receipts[found.value];
    :- Need(state == Settled ==> usage.Some? && Measured(usage.value), Conflict);
    :- Need(state == Released ==> !prior.output && !output, Conflict);
    var evidence := output || prior.output;
    if prior.state != Unknown then
      if prior.state == state && prior.usage == usage && prior.output == evidence then Ok(l)
      else Err(Conflict)
    else
      var account := prior.reservation.account;
      :- Need(state == Released ==> Used(l, account) > 0, Storage);
      var used := if state == Released then l.used[account := Used(l, account) - 1] else l.used;
      var row := prior.(state := state, usage := usage, output := evidence);
      Ok(Ledger(used, l.receipts[found.value := row]))
  }

  /** Record that transport never started and return the attempt to the chain. */
  function Release(l: Ledger, reference: string): Result<Ledger, LedgerError> {
    var found := ReceiptIndex(l, reference);
    :- Need(found.Some?, Conflict);
    var prior := l.receipts[found.value];
    :- Need(prior.state == Unknown || prior.preDispatchReleased, Conflict);
    var l' :- Finish(l, reference, Released, None, false);
    var row := l'.receipts[found.value];
    var returned := row.attemptLimit.Some? && !row.preDispatchReleased;
    Ok(l'.(receipts := l'.receipts[found.value :=
      row.(preDispatchReleased := true,
           attemptsUsed := if returned then row.attemptsUsed - 1 else row.attemptsUsed)]))
  }

  // ---- Saved answers ------------------------------------------------------------

  function Earlier(a: Option<int>, b: Option<int>): Option<int> {
    if a.Some? && b.Some? then Some(if a.value <= b.value then a.value else b.value)
    else if a.Some? then a else b
  }

  /** The only writer of a saved answer. The answer already saved is read at a later sample. */
  function SaveAnswer(l: Ledger, reference: string, output: Option<string>, retention: nat,
                      deadline: Option<int>, policy: JobPolicy, at: Clock): Result<Ledger, LedgerError>
  {
    if output == Some(EVIDENCE) then Ok(l)
    else
      var found := ReceiptIndex(l, reference);
      :- Need(found.Some?, Conflict);
      var prior := l.receipts[found.value];
      var until := Earlier(deadline, policy.deadline);
      :- Need(!(prior.attemptLimit.Some? && prior.output && output.Some?
                && Readable(prior, at.second) != output), Conflict);
      if prior.attemptLimit.None? || prior.output || output.None? then Ok(l)
      else if policy.erased || (until.Some? && until.value <= at.first) then Ok(l)
      else
        var expires := Earlier(until, Some(at.first + retention)).value;
        Ok(l.(receipts := l.receipts[found.value :=
          prior.(recovery := Some(SavedAnswer(output.value, expires)))]))
  }

  /** Save the answer and settle in one transaction. `evidence` is what accounting keeps;
      a job may keep evidence of an answer it does not save. */
  function FinishWithAnswer(l: Ledger, reference: string, state: SpendState, usage: Option<Usage>,
                            output: Option<string>, evidence: bool, retention: nat,
                            deadline: Option<int>, policy: JobPolicy, at: Clock)
    : Result<Ledger, LedgerError>
  {
    var l1 :- SaveAnswer(l, reference, output, retention, deadline, policy, at);
    Finish(l1, reference, state, usage, evidence || output.Some?)
  }

  /** Narrow the saved answer to the job's deadline, or erase it. */
  function ConstrainAnswer(l: Ledger, reference: string, policy: JobPolicy, now: int)
    : Result<Ledger, LedgerError>
  {
    var found := ReceiptIndex(l, reference);
    :- Need(found.Some?, Storage);
    var prior := l.receipts[found.value];
    if prior.recovery.None? then Ok(l)
    else
      var until := Earlier(Some(prior.recovery.value.expiresAt), policy.deadline).value;
      var kept :=
        if policy.erased || until <= now then None
        else Some(prior.recovery.value.(expiresAt := until));
      Ok(l.(receipts := l.receipts[found.value := prior.(recovery := kept)]))
  }

  /** Erase the saved answer of every receipt that `gone` selects. */
  function EraseAnswers(rows: seq<Receipt>, gone: Receipt -> bool): (r: seq<Receipt>)
    ensures |r| == |rows|
    ensures forall i | 0 <= i < |rows| ::
              r[i] == if gone(rows[i]) then rows[i].(recovery := None) else rows[i]
  {
    if rows == [] then []
    else
      var last := rows[|rows| - 1];
      EraseAnswers(rows[..|rows| - 1], gone) + [if gone(last) then last.(recovery := None) else last]
  }

  function ExpiredBy(now: int): Receipt -> bool {
    (r: Receipt) => r.recovery.Some? && r.recovery.value.expiresAt <= now
  }

  function AnswerIn(answers: set<string>): Receipt -> bool {
    (r: Receipt) => r.recovery.Some? && r.recovery.value.answer in answers
  }

  const ANSWER_BATCH_SIZE := 64

  function AnswerDeadlines(rows: seq<Receipt>): seq<Option<int>> {
    seq(|rows|, i requires 0 <= i < |rows| =>
      if rows[i].recovery.Some? then Some(rows[i].recovery.value.expiresAt) else None)
  }

  function WithoutAnswers(rows: seq<Receipt>, batch: set<int>): seq<Receipt> {
    seq(|rows|, i requires 0 <= i < |rows| => if i in batch then rows[i].(recovery := None) else rows[i])
  }

  /** The receipts one statement of the expiry loop clears. */
  function ExpiryBatch(rows: seq<Receipt>, cutoff: int): set<int> {
    Expiry.Batch(AnswerDeadlines(rows), cutoff, ANSWER_BATCH_SIZE)
  }

  /** One statement of the expiry loop, which commits on its own. */
  function ExpireBatch(l: Ledger, cutoff: int): Ledger {
    l.(receipts := WithoutAnswers(l.receipts, ExpiryBatch(l.receipts, cutoff)))
  }

  function Erase(l: Ledger, gone: Receipt -> bool): Ledger {
    l.(receipts := EraseAnswers(l.receipts, gone))
  }

  /** Erase the saved answer of the newest receipt of an invocation. */
  function DiscardAnswer(l: Ledger, account: string, invocation: string): Ledger {
    match FindLast(l.receipts, InChain(account, invocation))
    case None => l
    case Some(i) => l.(receipts := l.receipts[i := l.receipts[i].(recovery := None)])
  }
}
