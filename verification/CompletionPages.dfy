/** The completions command: a page of deliveries, then admission notices with an opt-in
    cursor, counted byte by byte against the encoded page. */
module CompletionPages {
  import opened Tables
  import opened Records
  import opened Deliveries

  /** A waiting job; `text` is its JSON text and `cursor` that of its identity. */
  datatype Notice = Notice(id: string, text: string, cursor: string)

  datatype Page = Page(items: seq<Item>, notices: seq<Notice>, after: Option<string>)

  function NoticeTexts(notices: seq<Notice>): seq<string> {
    seq(|notices|, i requires 0 <= i < |notices| => notices[i].text)
  }

  /** The cursor is omitted when absent. */
  function CursorText(after: Option<string>): string {
    if after.Some? then ",\"after\":" + after.value else ""
  }

  function PageText(p: Page): string {
    "{\"items\":" + ItemsText(p.items) + ",\"notices\":" + ArrayText(NoticeTexts(p.notices)) + CursorText(p.after) + "}"
  }

  /** The page with the first `m` notices: with pagination, the cursor is the last one's. */
  function PageWith(items: seq<Item>, fetched: seq<Notice>, m: nat, after: Option<string>): Page
    requires m <= |fetched|
  {
    Page(items, fetched[..m],
         if after.Some? && m > 0 then Some(fetched[m - 1].cursor) else after)
  }

  /** Everything around the items and between the notices. */
  lemma PageSize(p: Page)
    ensures |PageText(p)| == |ItemsText(p.items)| + |ArrayText(NoticeTexts(p.notices))| + |CursorText(p.after)| + 21
  {
    var head, middle := "{\"items\":", ",\"notices\":";
    assert |head| == 9 && |middle| == 11;
  }

  lemma EmptyTexts()
    ensures |ItemsText([])| == 2 && |ArrayText(NoticeTexts([]))| == 2
  {
  }

  /** One more notice grows the page by its text, a comma and the change of cursor. */
  lemma NoticeGrows(items: seq<Item>, fetched: seq<Notice>, m: nat, after: Option<string>)
    requires m < |fetched|
    ensures var p, q := PageWith(items, fetched, m, after), PageWith(items, fetched, m + 1, after);
            && q.notices == p.notices + [fetched[m]]
            && |PageText(q)| == |PageText(p)| + |fetched[m].text| + (if m > 0 then 1 else 0)
                                + |PageText(Page([], [], q.after))| - |PageText(Page([], [], p.after))|
  {
    var p, q := PageWith(items, fetched, m, after), PageWith(items, fetched, m + 1, after);
    assert fetched[..m + 1] == fetched[..m] + [fetched[m]];
    assert NoticeTexts(q.notices) == NoticeTexts(p.notices) + [fetched[m].text];
    ArrayGrows(NoticeTexts(p.notices), fetched[m].text);
    hide ArrayText, ItemsText, NoticeTexts, CursorText, PageText;
    PageSize(p);
    PageSize(q);
    PageSize(Page([], [], p.after));
    PageSize(Page([], [], q.after));
  }

  lemma HeaderSize(items: seq<Item>, after: Option<string>)
    ensures |PageText(Page(items, [], after))| == |PageText(Page([], [], after))| - 2 + |ItemsText(items)|
    ensures |PageText(Page([], [], after))| >= 2
  {
    EmptyTexts();
    PageSize(Page(items, [], after));
    PageSize(Page([], [], after));
  }

  /** The bytes of a page that are not its items; an empty list of items takes two. */
  function Overhead(after: Option<string>): (n: nat)
    ensures |PageText(Page([], [], after))| == n + 2
  {
    HeaderSize([], after);
    |PageText(Page([], [], after))| - 2
  }

  /** The leased items alone make a page over the bound. */
  ghost predicate Overflows(ready: seq<Delivery>, n: nat, answers: map<string, SavedAnswer>, clock: nat -> int,
                            now: int, after: Option<string>, limit: nat, maxBytes: nat)
  {
    && Overhead(after) <= maxBytes
    && IsPage(ready, n, answers, clock, now, limit, maxBytes - Overhead(after))
    && |PageText(Page(Delivered(ready, n, answers, clock), [], after))| > maxBytes
  }

  function Fetched(waiting: seq<Notice>, count: nat): seq<Notice> {
    if count < |waiting| then waiting[..count] else waiting
  }

  /** `m` notices fit and one more would not. */
  ghost predicate NoticesFill(items: seq<Item>, fetched: seq<Notice>, m: nat, after: Option<string>, maxBytes: nat) {
    && m <= |fetched|
    && |PageText(PageWith(items, fetched, m, after))| <= maxBytes
    && (m < |fetched| ==> |PageText(PageWith(items, fetched, m + 1, after))| > maxBytes)
  }

  /** The notice loop: `used` is the encoded size of the page at every turn. */
  method AddNotices(items: seq<Item>, fetched: seq<Notice>, after: Option<string>, maxBytes: nat)
    returns (r: Result<Page, JobError>)
    requires |PageText(Page(items, [], after))| <= maxBytes
    ensures r.Ok? ==>
              && NoticesFill(items, fetched, |r.value.notices|, after, maxBytes)
              && r.value == PageWith(items, fetched, |r.value.notices|, after)
              && r.value.items == items && r.value.notices <= fetched
              && r.value.after == if after.Some? && r.value.notices != []
                                  then Some(r.value.notices[|r.value.notices| - 1].cursor) else after
    ensures r.Err? <==> && items == [] && fetched != []
                        && |PageText(PageWith([], fetched, 1, after))| > maxBytes
    ensures r.Err? ==> r.error == CompletionTooLarge(fetched[0].id, |PageText(PageWith([], fetched, 1, after))|)
  {
    hide PageText;
    var page := Page(items, [], after);
    var used := |PageText(page)|;
    var header := Page([], [], after);
    var headerBytes := |PageText(header)|;
    HeaderSize(items, after);
    assert fetched[..0] == [];
    for m := 0 to |fetched|
      invariant page == PageWith(items, fetched, m, after)
      invariant header == Page([], [], page.after)
      invariant used == |PageText(page)| && headerBytes == |PageText(header)| <= used <= maxBytes
      invariant m > 0 ==> |PageText(PageWith(items, fetched, 1, after))| <= maxBytes
    {
      var notice := fetched[m];
      var size := |notice.text| + if page.notices != [] then 1 else 0;
      NoticeGrows(items, fetched, m, after);
      var nextHeaderBytes := headerBytes;
      if after.Some? {
        header := header.(after := Some(notice.cursor));
        nextHeaderBytes := |PageText(header)|;
      }
      var body: nat := used - headerBytes;
      var required := body + nextHeaderBytes + size;
      assert required == |PageText(PageWith(items, fetched, m + 1, after))|;
      if required > maxBytes {
        if page.items == [] && page.notices == [] {
          return Err(CompletionTooLarge(notice.id, required));
        }
        return Ok(page);
      }
      used := required;
      headerBytes := nextHeaderBytes;
      page := page.(after := header.after, notices := page.notices + [notice]);
    }
    return Ok(page);
  }

  /** One poll of the completions command. A returned page encodes to at most `maxBytes`,
      leases exactly its items and ends with its last notice. An error leases nothing, except
      when the leased items alone overflow the page, and then it always comes too late. */
  method Poll(queue: DeliveryQueue, waiting: seq<Notice>, config: PageConfig, after: Option<string>,
              limit: nat, maxBytes: nat, now: int, clock: nat -> int) returns (r: Result<Page, JobError>)
    modifies queue
    ensures r.Ok? ==>
              var n := |r.value.items|;
              && n <= |old(queue.ready)|
              && r.value.items == Delivered(old(queue.ready), n, old(queue.answers), clock)
              && queue.leased == old(queue.leased) + old(queue.ready)[..n]
              && queue.ready == old(queue.ready)[n..]
              && |PageText(r.value)| <= maxBytes
              && n + |r.value.notices| <= limit
              && var fetched := Fetched(waiting, limit - n);
              && NoticesFill(r.value.items, fetched, |r.value.notices|, after, maxBytes)
              && r.value == PageWith(r.value.items, fetched, |r.value.notices|, after)
    ensures r.Err? ==>
              || (&& queue.ready == old(queue.ready) && queue.leased == old(queue.leased)
                  && queue.answers == old(queue.answers))
              || exists n: nat ::
                   && Overflows(old(queue.ready), n, old(queue.answers), clock, now, after, limit, maxBytes)
                   && n <= |old(queue.ready)| && queue.leased == old(queue.leased) + old(queue.ready)[..n]
                   && r == Err(JobError.InvalidRequest)
    ensures 0 < limit <= config.maxPage && maxBytes <= config.maxPageBytes + Overhead(after) ==>
              forall n: nat ::
                Overflows(old(queue.ready), n, old(queue.answers), clock, now, after, limit, maxBytes) ==>
                  && r == Err(JobError.InvalidRequest)
                  && n <= |old(queue.ready)| && queue.leased == old(queue.leased) + old(queue.ready)[..n]
  {
    HeaderSize([], after);
    EmptyTexts();
    hide PageText, ItemsText, Delivered, AnswersAfter, Undercharged, PageTotal, Charge, Overhead;
    var overhead := Overhead(after);
    ghost var ready, answers := queue.ready, queue.answers;
    if maxBytes < overhead + 2 {
      forall n: nat | Overflows(ready, n, answers, clock, now, after, limit, maxBytes)
        ensures false
      {
        TotalIsTwo(ready, n, answers, clock, now);
      }
      return Err(JobError.InvalidRequest);
    }
    var deliveryBytes: nat := maxBytes - overhead;
    var delivered := queue.Completions(config, limit, deliveryBytes, now, clock);
    forall n: nat, m: nat | Overflows(ready, n, answers, clock, now, after, limit, maxBytes)
      ensures IsPage(ready, m, answers, clock, now, limit, deliveryBytes) ==> m == n
      ensures !IsOversize(ready, m, answers, clock, now, limit, deliveryBytes)
    {
      PageDecided(ready, n, m, answers, clock, now, limit, deliveryBytes);
    }
    hide IsPage, IsOversize;
    if delivered.Err? {
      return if delivered.error.CompletionTooLarge?
             then Err(CompletionTooLarge(delivered.error.job, delivered.error.bytes + overhead))
             else delivered.PropagateFailure();
    }
    var items := delivered.value;
    ghost var n := |items|;
    PageInside(ready, n, answers, clock, now, limit, deliveryBytes);
    HeaderSize(items, after);
    var used := |PageText(Page(items, [], after))|;
    if used > maxBytes {
      assert Overflows(ready, n, answers, clock, now, after, limit, maxBytes);
      return Err(JobError.InvalidRequest);
    }
    var fetched := if |items| < limit then Fetched(waiting, limit - |items|) else [];
    r := AddNotices(items, fetched, after, maxBytes);
    if r.Err? {
      NoDelivery(ready, answers, clock, now);
      assert queue.leased == old(queue.leased) + ready[..0];
    }
  }

  lemma TotalIsTwo(ready: seq<Delivery>, n: nat, answers: map<string, SavedAnswer>, clock: nat -> int, now: int)
    requires n <= |ready|
    ensures PageTotal(ready, n, answers, clock, now) >= 2
  {
    NoDelivery(ready, answers, clock, now);
    if n > 0 {
      TotalsGrow(ready, 0, n, answers, clock, now);
    }
  }

  lemma PageInside(ready: seq<Delivery>, n: nat, answers: map<string, SavedAnswer>, clock: nat -> int, now: int,
                   limit: nat, maxBytes: nat)
    requires IsPage(ready, n, answers, clock, now, limit, maxBytes)
    ensures n <= |ready| && n <= limit
  {
  }

  /** Only an undercharged item overflows a page. */
  lemma OverflowIsUndercharged(ready: seq<Delivery>, n: nat, answers: map<string, SavedAnswer>, clock: nat -> int,
                               now: int, after: Option<string>, limit: nat, maxBytes: nat)
    requires Overflows(ready, n, answers, clock, now, after, limit, maxBytes)
    ensures n <= |ready|
    ensures exists k | 0 <= k < n ::
              Undercharged(AnswersAfter(ready, k, answers, clock), ready[k], now, clock(k))
  {
    hide PageText, ItemsText, Delivered, AnswersAfter, Undercharged, PageTotal, Charge;
    HeaderSize(Delivered(ready, n, answers, clock), after);
    UnderchargedSomewhere(ready, n, answers, clock, now, maxBytes - Overhead(after));
  }

  /** A page that exceeds its bound holds an undercharged item. */
  lemma UnderchargedSomewhere(ready: seq<Delivery>, n: nat, answers: map<string, SavedAnswer>, clock: nat -> int,
                              now: int, maxBytes: nat)
    requires n <= |ready| && PageTotal(ready, n, answers, clock, now) <= maxBytes
    requires |ItemsText(Delivered(ready, n, answers, clock))| > maxBytes
    ensures exists k | 0 <= k < n ::
              Undercharged(AnswersAfter(ready, k, answers, clock), ready[k], now, clock(k))
  {
    hide ItemsText, Delivered, AnswersAfter, Undercharged, PageTotal;
    if forall k | 0 <= k < n :: !Undercharged(AnswersAfter(ready, k, answers, clock), ready[k], now, clock(k)) {
      PageCovered(ready, n, answers, clock, now);
    }
  }

  /** With a clock that does not go back and answers of at least four bytes there is none. */
  lemma NeverUndercharged(ready: seq<Delivery>, k: nat, answers: map<string, SavedAnswer>, clock: nat -> int, now: int)
    requires k < |ready| && clock(k) >= now
    requires forall reference <- answers.Keys :: |answers[reference].answer| >= 4
    ensures !Undercharged(AnswersAfter(ready, k, answers, clock), ready[k], now, clock(k))
  {
    AnswersShrink(ready, k, answers, clock);
  }

  /** And every undercharged delivery does, alone on its page: the poll leases it and fails. */
  method PollLeasesAndFails(d: Delivery, saved: SavedAnswer, after: Option<string>, clock: nat -> int, now: int)
    returns (queue: DeliveryQueue, r: Result<Page, JobError>)
    requires d.receipt.Some? && Undercharged(map[d.receipt.value := saved], d, now, clock(0))
    ensures fresh(queue) && queue.leased == [d] && r == Err(JobError.InvalidRequest)
  {
    var answers := map[d.receipt.value := saved];
    UnderchargedOverflows(d, answers, clock, now);
    hide PageText, ItemsText, Delivered, AnswersAfter, Undercharged, PageTotal, Charge, IsPage, Overhead;
    var total := PageTotal([d], 1, answers, clock, now);
    queue := new DeliveryQueue([d], answers);
    HeaderSize(Delivered([d], 1, answers, clock), after);
    assert Overflows([d], 1, answers, clock, now, after, 1, total + Overhead(after));
    r := Poll(queue, [], PageConfig(1, total), after, 1, total + Overhead(after), now, clock);
    assert [d][..1] == [d];
  }

  // ---- The whole command --------------------------------------------------------

  /** The JSON text of a reply frame around its page. */
  datatype Envelope = Envelope(head: string, tail: string)

  function FrameText(envelope: Envelope, p: Page): string {
    envelope.head + PageText(p) + envelope.tail
  }

  /** What one turn of the waiting loop finds: jobs that became ready meanwhile, the waiting
      notices, its clock reads, and whether the caller's time is up. */
  datatype Turn = Turn(arrived: seq<Delivery>, waiting: seq<Notice>, now: int, clock: nat -> int, over: bool)

  /** An item delivers this job, possibly flagged as expired meanwhile. */
  predicate Delivers(item: Item, d: Delivery) {
    item.delivery == d || item.delivery == d.(resultExpired := true)
  }

  lemma {:induction false} DeliveredJobs(ready: seq<Delivery>, n: nat, answers: map<string, SavedAnswer>,
                                         clock: nat -> int)
    requires n <= |ready|
    ensures forall i | 0 <= i < n :: Delivers(Delivered(ready, n, answers, clock)[i], ready[i])
  {
    hide AnswersAfter;
    if n > 0 {
      DeliveredJobs(ready, n - 1, answers, clock);
    }
  }

  /** The turn leased the first `n` ready deliveries, whose page overflows. */
  ghost predicate LeasedTooMuch(turn: Turn, ready: seq<Delivery>, n: nat, answers: map<string, SavedAnswer>,
                                after: Option<string>, limit: nat, maxBytes: nat, before: seq<Delivery>,
                                leased: seq<Delivery>)
  {
    && Overflows(ready, n, answers, turn.clock, turn.now, after, limit, maxBytes)
    && n <= |ready| && leased == before + ready[..n]
  }

  /** Poll until there is something to return or time is up. The reply frame fits the frame
      limit, an empty page is returned only when time is up, and the leases are those of the
      returned page alone. An error leases nothing unless the items of its last turn overflow. */
  method Serve(queue: DeliveryQueue, envelope: Envelope, config: PageConfig, maxFrame: nat, after: Option<string>,
               limit: nat, maxBytes: nat, turns: seq<Turn>) returns (r: Result<Page, JobError>, ghost last: nat)
    requires turns != [] && turns[|turns| - 1].over
    modifies queue
    ensures r.Ok? ==>
              && |FrameText(envelope, r.value)| <= maxFrame
              && |PageText(r.value)| <= maxBytes
              && last < |turns|
              && (r.value.items == [] && r.value.notices == [] ==> turns[last].over)
              && |queue.leased| == |old(queue.leased)| + |r.value.items|
              && queue.leased[..|old(queue.leased)|] == old(queue.leased)
              && forall i | 0 <= i < |r.value.items| ::
                   Delivers(r.value.items[i], queue.leased[|old(queue.leased)| + i])
    ensures maxBytes + |envelope.head| + |envelope.tail| > maxFrame ==>
              r == Err(JobError.InvalidRequest) && queue.leased == old(queue.leased)
    ensures r.Err? && queue.leased != old(queue.leased) ==>
              && r == Err(JobError.InvalidRequest) && last < |turns|
              && exists ready, n: nat, answers ::
                   LeasedTooMuch(turns[last], ready, n, answers, after, limit, maxBytes,
                                 old(queue.leased), queue.leased)
  {
    hide PageText, Delivered, NoticesFill, PageWith, Overflows, IsPage;
    last := 0;
    var frameBytes := |FrameText(envelope, Page([], [], after))|;
    var bodyBytes := |PageText(Page([], [], after))|;
    var envelopeBytes: nat := frameBytes - bodyBytes;
    var room: nat := if envelopeBytes > maxFrame then 0 else maxFrame - envelopeBytes;
    HeaderSize([], after);
    if frameBytes > maxFrame || maxBytes > room {
      return Err(JobError.InvalidRequest), last;
    }
    for t := 0 to |turns|
      invariant queue.leased == old(queue.leased)
      invariant forall k | 0 <= k < t :: !turns[k].over
    {
      last := t;
      queue.ready := queue.ready + turns[t].arrived;
      ghost var ready, answers := queue.ready, queue.answers;
      r := Poll(queue, turns[t].waiting, config, after, limit, maxBytes, turns[t].now, turns[t].clock);
      if r.Err? {
        if queue.leased != old(queue.leased) {
          ghost var n: nat :| && Overflows(ready, n, answers, turns[t].clock, turns[t].now, after, limit, maxBytes)
                              && n <= |ready| && queue.leased == old(queue.leased) + ready[..n];
          assert LeasedTooMuch(turns[t], ready, n, answers, after, limit, maxBytes, old(queue.leased), queue.leased);
        }
        return;
      }
      DeliveredJobs(ready, |r.value.items|, answers, turns[t].clock);
      if r.value.items != [] || r.value.notices != [] || turns[t].over {
        return;
      }
      assert ready[..0] == [];
    }
    assert false;
  }
}
