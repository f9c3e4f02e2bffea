/** Pruning the response cache directory: expired entries first, then the oldest ones until
    the rest fit. */
module CachePrune {
  import opened Tables

  /** An entry file; its modification time may be unreadable. */
  datatype Entry = Entry(path: string, modified: Option<int>, size: nat)

  datatype CacheError = CacheFailure(path: string)

  /** Unreadable times sort as the present. */
  function SortKey(e: Entry, now: int): int {
    if e.modified.Some? then e.modified.value else now
  }

  /** A time that is unreadable or in the future is never older. */
  predicate IsOlder(e: Entry, maxAge: nat, now: int) {
    e.modified.Some? && e.modified.value <= now && now - e.modified.value > maxAge
  }

  predicate Expired(e: Entry, maxAge: Option<nat>, now: int) {
    maxAge.Some? && IsOlder(e, maxAge.value, now)
  }

  function TotalSize(entries: seq<Entry>): nat {
    if entries == [] then 0 else entries[0].size + TotalSize(entries[1..])
  }

  predicate Over(total: nat, maxBytes: Option<nat>) {
    maxBytes.Some? && total > maxBytes.value
  }

  function SaturatingSub(a: nat, b: nat): nat {
    if b > a then 0 else a - b
  }

  // ---- Oldest first -------------------------------------------------------------

  predicate OldestFirst(entries: seq<Entry>, now: int) {
    forall i, j | 0 <= i < j < |entries| :: SortKey(entries[i], now) <= SortKey(entries[j], now)
  }

  function Insert(entries: seq<Entry>, e: Entry, now: int): seq<Entry> {
    if entries == [] || SortKey(entries[|entries| - 1], now) <= SortKey(e, now) then entries + [e]
    else Insert(entries[..|entries| - 1], e, now) + [entries[|entries| - 1]]
  }

  /** The stable order by modification time. */
  function Sorted(entries: seq<Entry>, now: int): seq<Entry> {
    if entries == [] then []
    else Insert(Sorted(entries[..|entries| - 1], now), entries[|entries| - 1], now)
  }

  /** The entries with one sort key, in their order. */
  function WithKey(entries: seq<Entry>, key: int, now: int): seq<Entry> {
    if entries == [] then []
    else
      var last := entries[|entries| - 1];
      WithKey(entries[..|entries| - 1], key, now) + if SortKey(last, now) == key then [last] else []
  }

  lemma WithKeyAppend(entries: seq<Entry>, e: Entry, key: int, now: int)
    ensures WithKey(entries + [e], key, now)
         == WithKey(entries, key, now) + if SortKey(e, now) == key then [e] else []
  {
    assert (entries + [e])[..|entries|] == entries;
  }

  lemma {:induction false} InsertPermutes(entries: seq<Entry>, e: Entry, now: int)
    ensures multiset(Insert(entries, e, now)) == multiset(entries) + multiset{e}
  {
    if entries != [] && SortKey(entries[|entries| - 1], now) > SortKey(e, now) {
      assert entries == entries[..|entries| - 1] + [entries[|entries| - 1]];
      InsertPermutes(entries[..|entries| - 1], e, now);
    }
  }

  ghost predicate AllUpTo(entries: seq<Entry>, key: int, now: int) {
    forall i | 0 <= i < |entries| :: SortKey(entries[i], now) <= key
  }

  lemma {:induction false} InsertOrders(entries: seq<Entry>, e: Entry, now: int, bound: int)
    requires OldestFirst(entries, now)
    ensures OldestFirst(Insert(entries, e, now), now)
    ensures AllUpTo(entries, bound, now) && SortKey(e, now) <= bound ==> AllUpTo(Insert(entries, e, now), bound, now)
  {
    if entries != [] && SortKey(entries[|entries| - 1], now) > SortKey(e, now) {
      InsertOrders(entries[..|entries| - 1], e, now, SortKey(entries[|entries| - 1], now));
    }
  }

  lemma {:induction false} InsertIsStable(entries: seq<Entry>, e: Entry, key: int, now: int)
    requires OldestFirst(entries, now)
    ensures WithKey(Insert(entries, e, now), key, now) == WithKey(entries + [e], key, now)
  {
    if entries != [] && SortKey(entries[|entries| - 1], now) > SortKey(e, now) {
      var shorter := entries[..|entries| - 1];
      var last := entries[|entries| - 1];
      assert entries == shorter + [last];
      InsertIsStable(shorter, e, key, now);
      hide WithKey;
      WithKeyAppend(Insert(shorter, e, now), last, key, now);
      WithKeyAppend(shorter, e, key, now);
      WithKeyAppend(shorter, last, key, now);
      WithKeyAppend(entries, e, key, now);
    }
  }

  /** Sorting reorders by age and keeps the listing order among equals. */
  lemma {:induction false} SortedOrders(entries: seq<Entry>, now: int)
    ensures OldestFirst(Sorted(entries, now), now)
    ensures multiset(Sorted(entries, now)) == multiset(entries)
    ensures forall k :: WithKey(Sorted(entries, now), k, now) == WithKey(entries, k, now)
  {
    if entries != [] {
      var shorter := entries[..|entries| - 1];
      var last := entries[|entries| - 1];
      assert entries == shorter + [last];
      SortedOrders(shorter, now);
      InsertOrders(Sorted(shorter, now), last, now, 0);
      InsertPermutes(Sorted(shorter, now), last, now);
      forall k
        ensures WithKey(Sorted(entries, now), k, now) == WithKey(entries, k, now)
      {
        InsertIsStable(Sorted(shorter, now), last, k, now);
        WithKeyAppend(Sorted(shorter, now), last, k, now);
        WithKeyAppend(shorter, last, k, now);
      }
    }
  }

  // ---- What may be kept ---------------------------------------------------------

  /** Nothing kept is expired and the kept sizes fit. */
  ghost predicate Acceptable(kept: seq<Entry>, maxAge: Option<nat>, maxBytes: Option<nat>, now: int) {
    && (forall i | 0 <= i < |kept| :: !Expired(kept[i], maxAge, now))
    && !Over(TotalSize(kept), maxBytes)
  }

  /** `n` is the length of the shortest prefix whose removal leaves something acceptable. */
  ghost predicate IsCut(entries: seq<Entry>, n: nat, maxAge: Option<nat>, maxBytes: Option<nat>, now: int) {
    && n <= |entries|
    && Acceptable(entries[n..], maxAge, maxBytes, now)
    && forall m | 0 <= m < n :: !Acceptable(entries[m..], maxAge, maxBytes, now)
  }

  /** In age order, one entry that need not go settles the matter for all later ones. */
  lemma RestAcceptable(entries: seq<Entry>, i: nat, maxAge: Option<nat>, maxBytes: Option<nat>, now: int)
    requires OldestFirst(entries, now) && i < |entries|
    ensures Acceptable(entries[i..], maxAge, maxBytes, now)
       <==> !Expired(entries[i], maxAge, now) && !Over(TotalSize(entries[i..]), maxBytes)
  {
    assert entries[i..][0] == entries[i];
    if !Expired(entries[i], maxAge, now) {
      forall j | i <= j < |entries|
        ensures !Expired(entries[j], maxAge, now)
      {
        assert SortKey(entries[i], now) <= SortKey(entries[j], now);
      }
    }
  }

  /** After `i` entries the first `removed` are gone, `total` is the size of what is left, and
      either every entry so far had to go or the cut has been reached. */
  ghost predicate Progress(entries: seq<Entry>, i: nat, removed: nat, total: nat, maxAge: Option<nat>,
                           maxBytes: Option<nat>, now: int)
  {
    && removed <= i <= |entries|
    && OldestFirst(entries, now)
    && total == TotalSize(entries[removed..])
    && (removed < i ==> Acceptable(entries[removed..], maxAge, maxBytes, now))
    && forall m | 0 <= m < removed :: !Acceptable(entries[m..], maxAge, maxBytes, now)
  }

  lemma Begin(entries: seq<Entry>, maxAge: Option<nat>, maxBytes: Option<nat>, now: int)
    requires OldestFirst(entries, now)
    ensures Progress(entries, 0, 0, TotalSize(entries), maxAge, maxBytes, now)
  {
    assert entries[0..] == entries;
  }

  /** The two branches of the loop: an entry goes exactly while no cut has been reached. */
  lemma GoesOrStays(entries: seq<Entry>, i: nat, removed: nat, total: nat, maxAge: Option<nat>,
                    maxBytes: Option<nat>, now: int)
    requires Progress(entries, i, removed, total, maxAge, maxBytes, now) && i < |entries|
    ensures if Expired(entries[i], maxAge, now) || Over(total, maxBytes) then
              && removed == i && entries[i].size <= total
              && Progress(entries, i + 1, i + 1, total - entries[i].size, maxAge, maxBytes, now)
              && (forall m | 0 <= m <= i :: !Acceptable(entries[m..], maxAge, maxBytes, now))
            else Progress(entries, i + 1, removed, total, maxAge, maxBytes, now)
  {
    RestAcceptable(entries, i, maxAge, maxBytes, now);
    assert entries[removed..][i - removed] == entries[i];
    assert entries[i..][1..] == entries[i + 1..];
  }

  lemma Finished(entries: seq<Entry>, removed: nat, total: nat, maxAge: Option<nat>, maxBytes: Option<nat>, now: int)
    requires Progress(entries, |entries|, removed, total, maxAge, maxBytes, now)
    ensures IsCut(entries, removed, maxAge, maxBytes, now)
  {
  }

  function Paths(entries: seq<Entry>): set<string> {
    set e <- entries :: e.path
  }

  /** `k` is the first of the `n` entries to remove that cannot be removed. */
  ghost predicate FirstStuck(entries: seq<Entry>, k: nat, n: nat, stuck: set<string>) {
    k < n <= |entries| && entries[k].path in stuck && forall j | 0 <= j < k :: entries[j].path !in stuck
  }

  class ResponseCache {
    var files: set<string>

    constructor (files: set<string>)
      ensures this.files == files
    {
      this.files := files;
    }

    /** Removal of a file that is already gone succeeds. */
    method RemoveEntry(path: string, stuck: set<string>) returns (ok: bool)
      modifies this
      ensures ok <==> path !in stuck
      ensures files == if ok then old(files) - {path} else old(files)
    {
      if path in stuck {
        return false;
      }
      files := files - {path};
      return true;
    }

    /** Removes exactly the shortest oldest-first prefix that leaves an acceptable cache, or,
        when an entry cannot be removed, the entries before it. */
    method Prune(listing: seq<Entry>, maxAge: Option<nat>, maxBytes: Option<nat>, now: int, stuck: set<string>)
      returns (r: Result<nat, CacheError>)
      modifies this
      ensures r.Ok? ==>
                && IsCut(Sorted(listing, now), r.value, maxAge, maxBytes, now)
                && files == old(files) - Paths(Sorted(listing, now)[..r.value])
                && Paths(Sorted(listing, now)[..r.value]) !! stuck
      ensures r.Err? ==>
                exists k: nat, n: nat ::
                  && IsCut(Sorted(listing, now), n, maxAge, maxBytes, now)
                  && FirstStuck(Sorted(listing, now), k, n, stuck)
                  && files == old(files) - Paths(Sorted(listing, now)[..k])
                  && r.error == CacheFailure(Sorted(listing, now)[k].path)
    {
      hide Sorted, IsCut, Expired, TotalSize, Acceptable, Progress;
      var entries := Sorted(listing, now);
      SortedOrders(listing, now);
      var total: nat := TotalSize(entries);
      var removed: nat := 0;
      Begin(entries, maxAge, maxBytes, now);
      for i := 0 to |entries|
        invariant removed <= i <= |entries|
        invariant Progress(entries, i, removed, total, maxAge, maxBytes, now)
        invariant files == old(files) - Paths(entries[..removed])
        invariant forall j | 0 <= j < removed :: entries[j].path !in stuck
      {
        var expired := Expired(entries[i], maxAge, now);
        var over := Over(total, maxBytes);
        GoesOrStays(entries, i, removed, total, maxAge, maxBytes, now);
        if !expired && !over {
          continue;
        }
        var ok := RemoveEntry(entries[i].path, stuck);
        if !ok {
          CutExists(entries, i + 1, maxAge, maxBytes, now);
          ghost var n: nat :| i + 1 <= n && IsCut(entries, n, maxAge, maxBytes, now);
          CutInside(entries, n, maxAge, maxBytes, now);
          assert FirstStuck(entries, i, n, stuck);
          return Err(CacheFailure(entries[i].path));
        }
        assert entries[..i + 1] == entries[..i] + [entries[i]];
        total := SaturatingSub(total, entries[i].size);
        removed := removed + 1;
      }
      forall p | p in Paths(entries[..removed])
        ensures p !in stuck
      {
      }
      Finished(entries, removed, total, maxAge, maxBytes, now);
      return Ok(removed);
    }
  }

  lemma CutInside(entries: seq<Entry>, n: nat, maxAge: Option<nat>, maxBytes: Option<nat>, now: int)
    requires IsCut(entries, n, maxAge, maxBytes, now)
    ensures n <= |entries|
  {
  }

  /** Removing everything is acceptable, so there is always a cut. */
  lemma CutExists(entries: seq<Entry>, from: nat, maxAge: Option<nat>, maxBytes: Option<nat>, now: int)
    requires from <= |entries|
    requires forall m | 0 <= m < from :: !Acceptable(entries[m..], maxAge, maxBytes, now)
    ensures exists n: nat :: from <= n && IsCut(entries, n, maxAge, maxBytes, now)
    decreases |entries| - from
  {
    if Acceptable(entries[from..], maxAge, maxBytes, now) {
      assert IsCut(entries, from, maxAge, maxBytes, now);
    } else {
      CutExists(entries, from + 1, maxAge, maxBytes, now);
    }
  }

  /** A cut keeps as much as can be kept by removing in age order. */
  lemma CutIsUnique(entries: seq<Entry>, m: nat, n: nat, maxAge: Option<nat>, maxBytes: Option<nat>, now: int)
    requires IsCut(entries, m, maxAge, maxBytes, now) && IsCut(entries, n, maxAge, maxBytes, now)
    ensures m == n
  {
  }

  /** An entry is expired from the first moment past its age; one whose time is unreadable or in the
      future never is; and without an age nothing is. */
  lemma AgeIsInclusive(e: Entry, maxAge: nat, now: int)
    ensures !Expired(e, None, now)
    ensures e.modified.None? ==> !Expired(e, Some(maxAge), now)
    ensures e.modified.Some? ==>
              (Expired(e, Some(maxAge), now) <==> e.modified.value + maxAge < now)
  {
  }

  lemma {:induction false} SizesAdd(a: seq<Entry>, b: seq<Entry>)
    ensures TotalSize(a + b) == TotalSize(a) + TotalSize(b)
    ensures |b| == 1 ==> TotalSize(b) == b[0].size
  {
    if a == [] {
      assert a + b == b;
    } else {
      assert (a + b)[1..] == a[1..] + b;
      SizesAdd(a[1..], b);
    }
  }
}
