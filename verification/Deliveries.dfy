/** Bounded delivery of final jobs: sizes are preflighted before an answer is read, each item
    is leased under a savepoint, and an error rolls the whole page back. The JSON text of a
    delivery around its one mutable flag is given; punctuation is that of sections 4 and 5 of
    RFC 8259. Which jobs are ready, oldest first, is an input. */
module Deliveries {
  import opened Tables
  import opened Records

  /** `before` and `after` are the delivery's JSON text around its result_expired flag. */
  datatype Delivery = Delivery(
    id: string, receipt: Option<string>, resultExpired: bool, purged: bool,
    paid: bool, answered: bool, diagnosed: bool, before: string, after: string)

  datatype Item = Item(delivery: Delivery, output: Option<string>)

  datatype JobError = InvalidRequest | CompletionTooLarge(job: string, bytes: nat)

  datatype PageConfig = PageConfig(maxPage: nat, maxPageBytes: nat)

  // ---- JSON text ----------------------------------------------------------------

  function DeliveryText(d: Delivery): string {
    d.before + (if d.resultExpired then "true" else "false") + d.after
  }

  function OutputText(output: Option<string>): string {
    if output.Some? then output.value else "null"
  }

  function ItemText(item: Item): string {
    "{\"delivery\":" + DeliveryText(item.delivery) + ",\"output\":" + OutputText(item.output) + "}"
  }

  function CommaSeparated(texts: seq<string>): string {
    if texts == [] then ""
    else if |texts| == 1 then texts[0]
    else CommaSeparated(texts[..|texts| - 1]) + "," + texts[|texts| - 1]
  }

  function ArrayText(texts: seq<string>): string {
    "[" + CommaSeparated(texts) + "]"
  }

  function ItemTexts(items: seq<Item>): seq<string> {
    seq(|items|, i requires 0 <= i < |items| => ItemText(items[i]))
  }

  function ItemsText(items: seq<Item>): string {
    ArrayText(ItemTexts(items))
  }

  lemma ArrayGrows(texts: seq<string>, text: string)
    ensures |ArrayText(texts + [text])| == |ArrayText(texts)| + |text| + if texts == [] then 0 else 1
  {
    assert (texts + [text])[..|texts|] == texts;
  }

  // ---- One delivery -------------------------------------------------------------

  predicate Discloses(d: Delivery) {
    d.receipt.Some? && !d.resultExpired && !d.purged
  }

  /** The saved answer of a delivery that is readable at `now`. */
  function ReadableAnswer(answers: map<string, SavedAnswer>, d: Delivery, now: int): Option<string> {
    if Discloses(d) && d.receipt.value in answers && answers[d.receipt.value].expiresAt > now
    then Some(answers[d.receipt.value].answer)
    else None
  }

  /** The size a delivery is charged before its answer is read. */
  function Preflight(answers: map<string, SavedAnswer>, d: Delivery, now: int): nat {
    var stored := ReadableAnswer(answers, d, now);
    |DeliveryText(d)| + (if stored.Some? then |stored.value| else 4) + 23
  }

  /** A paid answer that can no longer be read. */
  predicate Lost(d: Delivery, output: Option<string>) {
    output.None? && d.paid && d.answered && !d.diagnosed
  }

  /** The item returned once the answer is read at `readAt`. */
  function Deliver(answers: map<string, SavedAnswer>, d: Delivery, readAt: int): Item {
    var output := ReadableAnswer(answers, d, readAt);
    Item(if Lost(d, output) then d.(resultExpired := true) else d, output)
  }

  /** An expired result loses its saved answer. */
  function Forget(answers: map<string, SavedAnswer>, d: Delivery): map<string, SavedAnswer> {
    if d.resultExpired && d.receipt.Some? then answers - {d.receipt.value} else answers
  }

  // ---- The first `n` deliveries -------------------------------------------------

  /** Saved answers after the first `n` deliveries; `clock(k)` is when answer `k` is read. */
  function AnswersAfter(ready: seq<Delivery>, n: nat, answers: map<string, SavedAnswer>, clock: nat -> int)
    : map<string, SavedAnswer>
    requires n <= |ready|
  {
    if n == 0 then answers
    else
      var before := AnswersAfter(ready, n - 1, answers, clock);
      Forget(before, Deliver(before, ready[n - 1], clock(n - 1)).delivery)
  }

  function Delivered(ready: seq<Delivery>, n: nat, answers: map<string, SavedAnswer>, clock: nat -> int)
    : (items: seq<Item>)
    requires n <= |ready|
    ensures |items| == n
  {
    if n == 0 then []
    else
      Delivered(ready, n - 1, answers, clock)
      + [Deliver(AnswersAfter(ready, n - 1, answers, clock), ready[n - 1], clock(n - 1))]
  }

  function Charge(ready: seq<Delivery>, k: nat, answers: map<string, SavedAnswer>, clock: nat -> int, now: int): nat
    requires k < |ready|
  {
    Preflight(AnswersAfter(ready, k, answers, clock), ready[k], now)
  }

  /** The page total: brackets, charges and commas. */
  function PageTotal(ready: seq<Delivery>, n: nat, answers: map<string, SavedAnswer>, clock: nat -> int, now: int): nat
    requires n <= |ready|
  {
    if n == 0 then 2
    else PageTotal(ready, n - 1, answers, clock, now) + Charge(ready, n - 1, answers, clock, now)
         + if n > 1 then 1 else 0
  }

  lemma NoDelivery(ready: seq<Delivery>, answers: map<string, SavedAnswer>, clock: nat -> int, now: int)
    ensures AnswersAfter(ready, 0, answers, clock) == answers
    ensures Delivered(ready, 0, answers, clock) == [] && PageTotal(ready, 0, answers, clock, now) == 2
  {
  }

  /** One more delivery. */
  lemma NextDelivery(ready: seq<Delivery>, k: nat, answers: map<string, SavedAnswer>, clock: nat -> int, now: int)
    requires k < |ready|
    ensures var before := AnswersAfter(ready, k, answers, clock);
            var item := Deliver(before, ready[k], clock(k));
            && Charge(ready, k, answers, clock, now) == Preflight(before, ready[k], now)
            && PageTotal(ready, k + 1, answers, clock, now)
               == PageTotal(ready, k, answers, clock, now) + Preflight(before, ready[k], now) + (if k > 0 then 1 else 0)
            && Delivered(ready, k + 1, answers, clock) == Delivered(ready, k, answers, clock) + [item]
            && AnswersAfter(ready, k + 1, answers, clock) == Forget(before, item.delivery)
  {
    hide Preflight, Deliver, Forget;
  }

  /** `n` deliveries fit, and no further one does. */
  ghost predicate IsPage(ready: seq<Delivery>, n: nat, answers: map<string, SavedAnswer>, clock: nat -> int,
                         now: int, limit: nat, maxBytes: nat)
  {
    && n <= |ready| && n <= limit
    && PageTotal(ready, n, answers, clock, now) <= maxBytes
    && (forall k | 0 <= k < |ready| && k < limit && k <= n :: Charge(ready, k, answers, clock, now) + 2 <= maxBytes)
    && (n < |ready| && n < limit ==> PageTotal(ready, n + 1, answers, clock, now) > maxBytes)
  }

  /** Delivery `k` is reached and cannot fit any page. */
  ghost predicate IsOversize(ready: seq<Delivery>, k: nat, answers: map<string, SavedAnswer>, clock: nat -> int,
                             now: int, limit: nat, maxBytes: nat)
  {
    && k < |ready| && k < limit
    && PageTotal(ready, k, answers, clock, now) <= maxBytes
    && Charge(ready, k, answers, clock, now) + 2 > maxBytes
  }

  class DeliveryQueue {
    var ready: seq<Delivery>
    var leased: seq<Delivery>
    var answers: map<string, SavedAnswer>

    constructor (ready: seq<Delivery>, answers: map<string, SavedAnswer>)
      ensures this.ready == ready && leased == [] && this.answers == answers
    {
      this.ready, leased, this.answers := ready, [], answers;
    }

    /** A page leases exactly the returned items, oldest first, and is as long as the bounds
        allow; a refused page changes nothing. */
    method Completions(config: PageConfig, limit: nat, maxBytes: nat, now: int, clock: nat -> int)
      returns (r: Result<seq<Item>, JobError>)
      modifies this
      ensures r == Err(JobError.InvalidRequest) <==>
              limit == 0 || limit > config.maxPage || maxBytes < 2 || maxBytes > config.maxPageBytes
      ensures r.Err? ==> ready == old(ready) && leased == old(leased) && answers == old(answers)
      ensures r.Err? && r.error.CompletionTooLarge? ==>
                exists k: nat ::
                  && IsOversize(old(ready), k, old(answers), clock, now, limit, maxBytes)
                  && r.error
                     == CompletionTooLarge(old(ready)[k].id, Charge(old(ready), k, old(answers), clock, now) + 2)
      ensures r.Ok? ==>
                var n := |r.value|;
                && IsPage(old(ready), n, old(answers), clock, now, limit, maxBytes)
                && r.value == Delivered(old(ready), n, old(answers), clock)
                && ready == old(ready)[n..]
                && leased == old(leased) + old(ready)[..n]
                && answers == AnswersAfter(old(ready), n, old(answers), clock)
    {
      hide Preflight, Deliver, Forget, Charge, PageTotal, Delivered, AnswersAfter;
      if limit == 0 || limit > config.maxPage || maxBytes < 2 || maxBytes > config.maxPageBytes {
        return Err(JobError.InvalidRequest);
      }
      var start, startLeased, startAnswers := ready, leased, answers;
      var items: seq<Item> := [];
      var total: nat := 2;
      NoDelivery(start, startAnswers, clock, now);
      for k := 0 to limit
        invariant k <= |start| && |items| == k
        invariant items == Delivered(start, k, startAnswers, clock)
        invariant total == PageTotal(start, k, startAnswers, clock, now) && total <= maxBytes
        invariant ready == start[k..] && leased == startLeased + start[..k]
        invariant answers == AnswersAfter(start, k, startAnswers, clock)
        invariant forall j | 0 <= j < k :: Charge(start, j, startAnswers, clock, now) + 2 <= maxBytes
      {
        var saved, savedLeased := ready, leased;
        if ready == [] {
          break;
        }
        var delivery := ready[0];
        ready, leased := ready[1..], leased + [delivery];
        NextDelivery(start, k, startAnswers, clock, now);
        var bytes := Preflight(answers, delivery, now);
        assert delivery == start[k] && bytes == Charge(start, k, startAnswers, clock, now);
        if bytes + 2 > maxBytes {
          ready, leased, answers := start, startLeased, startAnswers;
          assert IsOversize(start, k, startAnswers, clock, now, limit, maxBytes);
          return Err(CompletionTooLarge(delivery.id, bytes + 2));
        }
        var next := total + bytes + if items != [] then 1 else 0;
        if next > maxBytes {
          ready, leased := saved, savedLeased;
          break;
        }
        var item := Deliver(answers, delivery, clock(k));
        answers := Forget(answers, item.delivery);
        total := next;
        items := items + [item];
        assert leased == startLeased + start[..k + 1];
      }
      return Ok(items);
    }
  }

  // ---- What a page discloses ----------------------------------------------------

  /** An item carries an answer only of a delivery neither purged nor expired, and then the saved one
      while it can still be read; a paid answer that is gone is flagged, and so is nothing else. */
  lemma DisclosedExactlyWhen(answers: map<string, SavedAnswer>, d: Delivery, readAt: int)
    ensures var item := Deliver(answers, d, readAt);
            && (item.output.Some? <==>
                  && !d.purged && !d.resultExpired && d.receipt.Some? && d.receipt.value in answers
                  && readAt < answers[d.receipt.value].expiresAt)
            && (item.output.Some? ==> item.output.value == answers[d.receipt.value].answer)
            && item.delivery.(resultExpired := d.resultExpired) == d
            && (item.delivery.resultExpired <==>
                  d.resultExpired || (item.output.None? && d.paid && d.answered && !d.diagnosed))
            && !(item.output.Some? && (item.delivery.purged || item.delivery.resultExpired))
  {
  }

  /** Whatever a page delivers as expired has lost its saved answer, and no other answer is lost. */
  lemma {:induction false} ExpiredIsForgotten(ready: seq<Delivery>, n: nat, answers: map<string, SavedAnswer>,
                                              clock: nat -> int, reference: string)
    requires n <= |ready|
    ensures reference in AnswersAfter(ready, n, answers, clock)
       <==> reference in answers
            && forall k | 0 <= k < n ::
                 !(ready[k].receipt == Some(reference)
                   && Delivered(ready, n, answers, clock)[k].delivery.resultExpired)
    ensures reference in AnswersAfter(ready, n, answers, clock) ==>
              AnswersAfter(ready, n, answers, clock)[reference] == answers[reference]
  {
    if n > 0 {
      ExpiredIsForgotten(ready, n - 1, answers, clock, reference);
      var before := AnswersAfter(ready, n - 1, answers, clock);
      var item := Deliver(before, ready[n - 1], clock(n - 1));
      DisclosedExactlyWhen(before, ready[n - 1], clock(n - 1));
      hide Deliver;
      assert Delivered(ready, n, answers, clock)[n - 1] == item;
      assert forall k | 0 <= k < n - 1 ::
               Delivered(ready, n, answers, clock)[k] == Delivered(ready, n - 1, answers, clock)[k];
    }
  }

  // ---- What a page really encodes to --------------------------------------------

  /** The answer is gone when read although it was charged, or back although it was not: the
      only ways an item can be larger than its charge. */
  predicate Undercharged(answers: map<string, SavedAnswer>, d: Delivery, now: int, readAt: int) {
    && Discloses(d) && d.receipt.value in answers
    && var saved := answers[d.receipt.value];
    && (|| (saved.expiresAt <= now && readAt < saved.expiresAt && |saved.answer| > 4)
        || (now < saved.expiresAt && saved.expiresAt <= readAt
            && |saved.answer| < if Lost(d, None) then 3 else 4))
  }

  /** An item is encoded in at most its charge exactly when it is not undercharged. */
  lemma ChargeCoversWhen(answers: map<string, SavedAnswer>, d: Delivery, now: int, readAt: int)
    ensures |ItemText(Deliver(answers, d, readAt))| <= Preflight(answers, d, now)
       <==> !Undercharged(answers, d, now, readAt)
  {
    ItemSize(Deliver(answers, d, readAt));
  }

  lemma ItemSize(item: Item)
    ensures |ItemText(item)| == |DeliveryText(item.delivery)| + |OutputText(item.output)| + 23
  {
  }

  /** Read at the preflight time, an item is one byte smaller than its charge when its lost
      result gets flagged, and exactly its charge otherwise. */
  lemma ChargeExact(answers: map<string, SavedAnswer>, d: Delivery, now: int)
    ensures |ItemText(Deliver(answers, d, now))|
         == Preflight(answers, d, now)
            - if !d.resultExpired && Lost(d, ReadableAnswer(answers, d, now)) then 1 else 0
  {
    ItemSize(Deliver(answers, d, now));
  }

  /** The page fits its bound when no item is undercharged. */
  lemma {:induction false} PageCovered(ready: seq<Delivery>, n: nat, answers: map<string, SavedAnswer>,
                                       clock: nat -> int, now: int)
    requires n <= |ready|
    requires forall k | 0 <= k < n ::
               !Undercharged(AnswersAfter(ready, k, answers, clock), ready[k], now, clock(k))
    ensures |ItemsText(Delivered(ready, n, answers, clock))| <= PageTotal(ready, n, answers, clock, now)
  {
    hide Preflight, Deliver, Forget, ItemsText, Undercharged, ItemText;
    EmptyPage();
    if n > 0 {
      PageCovered(ready, n - 1, answers, clock, now);
      var items := Delivered(ready, n - 1, answers, clock);
      var answersNow := AnswersAfter(ready, n - 1, answers, clock);
      var item := Deliver(answersNow, ready[n - 1], clock(n - 1));
      ChargeCoversWhen(answersNow, ready[n - 1], now, clock(n - 1));
      PageGrows(items, item);
    }
  }

  lemma EmptyPage()
    ensures ItemsText([]) == "[]"
  {
  }

  lemma PageGrows(items: seq<Item>, item: Item)
    ensures |ItemsText(items + [item])| == |ItemsText(items)| + |ItemText(item)| + if items == [] then 0 else 1
  {
    assert ItemTexts(items + [item]) == ItemTexts(items) + [ItemText(item)];
    ArrayGrows(ItemTexts(items), ItemText(item));
  }

  /** How many of the first `n` items were flagged as lost while delivering. */
  function Flagged(ready: seq<Delivery>, n: nat, answers: map<string, SavedAnswer>, clock: nat -> int): nat
    requires n <= |ready|
  {
    if n == 0 then 0
    else
      var item := Deliver(AnswersAfter(ready, n - 1, answers, clock), ready[n - 1], clock(n - 1));
      Flagged(ready, n - 1, answers, clock)
      + if item.delivery.resultExpired && !ready[n - 1].resultExpired then 1 else 0
  }

  /** With a clock that stands still the running total is the encoded size plus one byte for
      every result flagged as lost while delivering. */
  lemma {:induction false} PageExact(ready: seq<Delivery>, n: nat, answers: map<string, SavedAnswer>,
                                     clock: nat -> int, now: int)
    requires n <= |ready| && forall k | 0 <= k < n :: clock(k) == now
    ensures PageTotal(ready, n, answers, clock, now)
         == |ItemsText(Delivered(ready, n, answers, clock))| + Flagged(ready, n, answers, clock)
  {
    hide Forget, ItemsText, ItemText;
    EmptyPage();
    if n > 0 {
      PageExact(ready, n - 1, answers, clock, now);
      var items := Delivered(ready, n - 1, answers, clock);
      var answersNow := AnswersAfter(ready, n - 1, answers, clock);
      assert clock(n - 1) == now;
      ChargeExact(answersNow, ready[n - 1], now);
      PageGrows(items, Deliver(answersNow, ready[n - 1], now));
    }
  }

  /** A clock that does not go back, and answers of at least four bytes, charge enough. */
  lemma SteadyClockCovers(ready: seq<Delivery>, n: nat, answers: map<string, SavedAnswer>, clock: nat -> int, now: int)
    requires n <= |ready| && (forall k | 0 <= k < n :: clock(k) >= now)
    requires forall reference <- answers.Keys :: |answers[reference].answer| >= 4
    ensures |ItemsText(Delivered(ready, n, answers, clock))| <= PageTotal(ready, n, answers, clock, now)
  {
    forall k | 0 <= k < n
      ensures !Undercharged(AnswersAfter(ready, k, answers, clock), ready[k], now, clock(k))
    {
      AnswersShrink(ready, k, answers, clock);
    }
    PageCovered(ready, n, answers, clock, now);
  }

  lemma {:induction false} AnswersShrink(ready: seq<Delivery>, n: nat, answers: map<string, SavedAnswer>,
                                         clock: nat -> int)
    requires n <= |ready|
    ensures forall reference <- AnswersAfter(ready, n, answers, clock).Keys ::
              reference in answers && AnswersAfter(ready, n, answers, clock)[reference] == answers[reference]
  {
    if n > 0 {
      AnswersShrink(ready, n - 1, answers, clock);
    }
  }

  // ---- The bounds are exact -----------------------------------------------------

  lemma {:induction false} TotalsGrow(ready: seq<Delivery>, k: nat, n: nat, answers: map<string, SavedAnswer>,
                                      clock: nat -> int, now: int)
    requires k < n <= |ready|
    ensures PageTotal(ready, k, answers, clock, now) < PageTotal(ready, n, answers, clock, now)
    ensures Charge(ready, k, answers, clock, now) + 2 <= PageTotal(ready, n, answers, clock, now)
  {
    if k < n - 1 {
      TotalsGrow(ready, k, n - 1, answers, clock, now);
    } else if k > 0 {
      TotalsGrow(ready, 0, k, answers, clock, now);
    }
  }

  /** The outcome is determined: one page length, and no oversize delivery beside it. */
  lemma PageDecided(ready: seq<Delivery>, n: nat, m: nat, answers: map<string, SavedAnswer>, clock: nat -> int,
                    now: int, limit: nat, maxBytes: nat)
    requires IsPage(ready, n, answers, clock, now, limit, maxBytes)
    ensures IsPage(ready, m, answers, clock, now, limit, maxBytes) ==> m == n
    ensures !IsOversize(ready, m, answers, clock, now, limit, maxBytes)
  {
    hide PageTotal, Charge;
    if m < n {
      TotalsGrow(ready, m, n, answers, clock, now);
      if m + 1 < n {
        TotalsGrow(ready, m + 1, n, answers, clock, now);
      }
    } else if n < m <= |ready| {
      TotalsGrow(ready, n, m, answers, clock, now);
      if n + 1 < m {
        TotalsGrow(ready, n + 1, m, answers, clock, now);
      }
    }
  }

  /** Every undercharged delivery overflows a page whose bound is its total, whatever its text. */
  lemma UnderchargedOverflows(d: Delivery, answers: map<string, SavedAnswer>, clock: nat -> int, now: int)
    requires Undercharged(answers, d, now, clock(0))
    ensures var total := PageTotal([d], 1, answers, clock, now);
            && IsPage([d], 1, answers, clock, now, 1, total)
            && |ItemsText(Delivered([d], 1, answers, clock))| > total
  {
    hide Undercharged, Preflight, Deliver, ItemText, ItemsText, Forget;
    var item := Deliver(answers, d, clock(0));
    NoDelivery([d], answers, clock, now);
    NextDelivery([d], 0, answers, clock, now);
    TotalsGrow([d], 0, 1, answers, clock, now);
    ChargeCoversWhen(answers, d, now, clock(0));
    EmptyPage();
    PageGrows([], item);
    assert [] + [item] == [item];
  }

  /** The delivery of a succeeded, paid job, with arbitrary text around its flag. */
  function PaidDelivery(before: string, after: string): Delivery {
    Delivery("job", Some("reference"), false, false, true, true, false, before, after)
  }

  /** Two inputs that undercharge: the clock goes back before the deadline of an answer that was
      charged as absent; or it goes forward past the deadline of an answer shorter than what
      replaces it. */
  lemma UnderchargedInputs(before: string, after: string)
    ensures var d := PaidDelivery(before, after);
            && Undercharged(map["reference" := SavedAnswer("{\"text\":\"hi\"}", 10)], d, 10, 9)
            && Undercharged(map["reference" := SavedAnswer("{}", 10)], d, 9, 10)
  {
    var text := "{\"text\":\"hi\"}";
    assert |text| == 13 && |"{}"| == 2;
  }

  /** Such a page is leased although its encoding is longer than its bound. */
  method LeasesOverBound(d: Delivery, saved: SavedAnswer, clock: nat -> int, now: int)
    returns (queue: DeliveryQueue, maxBytes: nat, items: seq<Item>)
    requires d.receipt.Some? && Undercharged(map[d.receipt.value := saved], d, now, clock(0))
    ensures fresh(queue) && queue.leased == [d] && queue.ready == []
    ensures maxBytes == PageTotal([d], 1, map[d.receipt.value := saved], clock, now)
    ensures |items| == 1 && items[0].delivery.id == d.id && |ItemsText(items)| > maxBytes
  {
    var answers := map[d.receipt.value := saved];
    UnderchargedOverflows(d, answers, clock, now);
    NoDelivery([d], answers, clock, now);
    NextDelivery([d], 0, answers, clock, now);
    TotalsGrow([d], 0, 1, answers, clock, now);
    hide IsPage, PageTotal, Undercharged, AnswersAfter, Preflight, ItemsText, Charge, Delivered;
    maxBytes := PageTotal([d], 1, answers, clock, now);
    queue := new DeliveryQueue([d], answers);
    var page := queue.Completions(PageConfig(1, maxBytes), 1, maxBytes, now, clock);
    forall m: nat
      ensures IsPage([d], m, answers, clock, now, 1, maxBytes) ==> m == 1
      ensures !IsOversize([d], m, answers, clock, now, 1, maxBytes)
    {
      PageDecided([d], 1, m, answers, clock, now, 1, maxBytes);
    }
    items := page.value;
  }
}
