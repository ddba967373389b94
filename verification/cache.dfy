/**
 * The deal deduplication cache (cache.py): a deque of (ASIN, timestamp)
 * pairs in insertion order, a set of the same ASINs for lookup, and lazy
 * expiry that pops entries older than the window off the front of the deque
 * before every query.
 *
 * Time is whole seconds since the epoch, passed to every operation as `now`;
 * the caller promises the clock never runs backwards.
 */
module Cache {

  /** Amazon Standard Identification Number; opaque to the cache. */
  type Asin = string

  /** One deque element: an ASIN and the clock reading at which it was added. */
  datatype Entry = Entry(asin: Asin, stamp: int)

  /** The dictionary returned by `get_stats`. */
  datatype Stats = Stats(totalEntries: nat, durationHours: real)

  const SecondsPerHour: int := 3600

  /** The expiry test of `_clean_expired`: strictly older than the window. */
  predicate Expired(e: Entry, now: int, duration: int)
  {
    now - e.stamp > duration
  }

  /** The ASINs held by a deque. */
  function Asins(q: seq<Entry>): set<Asin>
  {
    if q == [] then {} else {q[0].asin} + Asins(q[1..])
  }

  /** No ASIN occurs twice in the deque. */
  predicate NoDuplicates(q: seq<Entry>)
  {
    q == [] || (q[0].asin !in Asins(q[1..]) && NoDuplicates(q[1..]))
  }

  /** Characterisation of `Asins` by the positions of the deque. */
  lemma {:induction false} AsinsMember(q: seq<Entry>, x: Asin)
    ensures x in Asins(q) <==> exists i :: 0 <= i < |q| && q[i].asin == x
  {
    if q != [] {
      AsinsMember(q[1..], x);
      if x in Asins(q[1..]) {
        var i :| 0 <= i < |q[1..]| && q[1..][i].asin == x;
        assert q[i + 1].asin == x;
      }
      if exists i :: 0 <= i < |q| && q[i].asin == x {
        var i :| 0 <= i < |q| && q[i].asin == x;
        if i > 0 {
          assert q[1..][i - 1].asin == x;
        }
      }
    }
  }

  /** Timestamps never decrease from front to back. */
  predicate Chronological(q: seq<Entry>)
  {
    forall i, j :: 0 <= i <= j < |q| ==> q[i].stamp <= q[j].stamp
  }

  /** No entry carries a timestamp later than `now`. */
  predicate StampedBy(q: seq<Entry>, now: int)
  {
    forall i :: 0 <= i < |q| ==> q[i].stamp <= now
  }

  /**
   * How many entries `_clean_expired` pops off the front of the deque `q` at
   * time `now`: the length of the longest expired prefix.
   */
  function ExpiredPrefix(q: seq<Entry>, now: int, duration: int): (n: nat)
    ensures n <= |q|
    ensures forall i :: 0 <= i < n ==> Expired(q[i], now, duration)
    ensures n < |q| ==> !Expired(q[n], now, duration)
  {
    if q != [] && Expired(q[0], now, duration) then 1 + ExpiredPrefix(q[1..], now, duration) else 0
  }

  /** What `_clean_expired` leaves of the deque `q` at time `now`. */
  function Clean(q: seq<Entry>, now: int, duration: int): seq<Entry>
  {
    q[ExpiredPrefix(q, now, duration)..]
  }

  /** Reference definition: the unexpired entries of `q`, in order. */
  function Live(q: seq<Entry>, now: int, duration: int): seq<Entry>
  {
    if q == [] then []
    else (if Expired(q[0], now, duration) then [] else [q[0]]) + Live(q[1..], now, duration)
  }

  /** The ASINs of entries of `log` that are still inside the window at `now`. */
  function Recent(log: seq<Entry>, now: int, duration: int): set<Asin>
  {
    set i | 0 <= i < |log| && !Expired(log[i], now, duration) :: log[i].asin
  }

  /** The answer `is_cached(x)` gives at `now` on deque `q`. */
  predicate Cached(q: seq<Entry>, x: Asin, now: int, duration: int)
  {
    x in Asins(Clean(q, now, duration))
  }

  /** The deque after `add(x)` at `now`: clean, then append unless present. */
  function AfterAdd(q: seq<Entry>, x: Asin, now: int, duration: int): seq<Entry>
  {
    var c := Clean(q, now, duration);
    if x in Asins(c) then c else c + [Entry(x, now)]
  }

  lemma {:induction false} LiveMembers(q: seq<Entry>, now: int, duration: int)
    ensures forall e :: e in Live(q, now, duration) <==> e in q && !Expired(e, now, duration)
  {
    if q != [] {
      LiveMembers(q[1..], now, duration);
      assert q == [q[0]] + q[1..];
    }
  }

  /** Cleaning keeps every entry that is still inside the window. */
  lemma CleanKeepsLive(q: seq<Entry>, e: Entry, now: int, duration: int)
    requires e in q && !Expired(e, now, duration)
    ensures e in Clean(q, now, duration)
  {
    var r := Clean(q, now, duration);
    var i :| 0 <= i < |q| && q[i] == e;
    assert q[i] == r[i - (|q| - |r|)];
  }

  lemma {:induction false} LiveConcat(a: seq<Entry>, b: seq<Entry>, now: int, duration: int)
    ensures Live(a + b, now, duration) == Live(a, now, duration) + Live(b, now, duration)
  {
    if a == [] {
      assert a + b == b;
    } else {
      assert (a + b)[1..] == a[1..] + b;
      LiveConcat(a[1..], b, now, duration);
    }
  }

  lemma {:induction false} LiveOfExpired(q: seq<Entry>, now: int, duration: int)
    requires forall i :: 0 <= i < |q| ==> Expired(q[i], now, duration)
    ensures Live(q, now, duration) == []
  {
    if q != [] {
      LiveOfExpired(q[1..], now, duration);
    }
  }

  lemma {:induction false} LiveOfFresh(q: seq<Entry>, now: int, duration: int)
    requires forall i :: 0 <= i < |q| ==> !Expired(q[i], now, duration)
    ensures Live(q, now, duration) == q
  {
    if q != [] {
      LiveOfFresh(q[1..], now, duration);
      assert q == [q[0]] + q[1..];
    }
  }

  /**
   * On a chronological deque the expired entries form a prefix, so popping
   * from the front removes exactly the expired entries and keeps the rest.
   */
  lemma {:induction false} CleanIsLive(q: seq<Entry>, now: int, duration: int)
    requires Chronological(q)
    ensures Clean(q, now, duration) == Live(q, now, duration)
    ensures forall e :: e in Clean(q, now, duration) ==> !Expired(e, now, duration)
  {
    var r := Clean(q, now, duration);
    var k := |q| - |r|;
    assert q == q[..k] + r;
    forall i | 0 <= i < |r|
      ensures !Expired(r[i], now, duration)
    {
      assert r[0].stamp <= r[i].stamp by { assert r[0] == q[k] && r[i] == q[k + i]; }
    }
    LiveConcat(q[..k], r, now, duration);
    LiveOfExpired(q[..k], now, duration);
    LiveOfFresh(r, now, duration);
  }

  /**
   * The deque seen through the insertion log `gone + queue`: if the popped
   * part `gone` is expired at `now` and the log is chronological, cleaning
   * the deque at `now` leaves exactly the log's unexpired entries, and the
   * ASINs left are exactly those inserted within the window.
   */
  lemma LogWindow(gone: seq<Entry>, queue: seq<Entry>, now: int, duration: int)
    requires Chronological(gone + queue)
    requires forall i :: 0 <= i < |gone| ==> Expired(gone[i], now, duration)
    ensures Clean(queue, now, duration) == Live(gone + queue, now, duration)
    ensures Asins(Clean(queue, now, duration)) == Recent(gone + queue, now, duration)
  {
    var log := gone + queue;
    assert Chronological(queue) by {
      forall i, j | 0 <= i <= j < |queue|
        ensures queue[i].stamp <= queue[j].stamp
      {
        assert queue[i] == log[|gone| + i] && queue[j] == log[|gone| + j];
      }
    }
    LiveConcat(gone, queue, now, duration);
    LiveOfExpired(gone, now, duration);
    CleanIsLive(queue, now, duration);
    LiveAsins(log, now, duration);
  }

  /** The ASINs of the unexpired entries are the ASINs inserted within the window. */
  lemma LiveAsins(log: seq<Entry>, now: int, duration: int)
    ensures Asins(Live(log, now, duration)) == Recent(log, now, duration)
  {
    var live := Live(log, now, duration);
    LiveMembers(log, now, duration);
    forall x | x in Asins(live)
      ensures x in Recent(log, now, duration)
    {
      AsinsMember(live, x);
      var i :| 0 <= i < |live| && live[i].asin == x;
      assert live[i] in live;
      var j :| 0 <= j < |log| && log[j] == live[i];
    }
    forall x | x in Recent(log, now, duration)
      ensures x in Asins(live)
    {
      var j :| 0 <= j < |log| && !Expired(log[j], now, duration) && log[j].asin == x;
      assert log[j] in live;
      var i :| 0 <= i < |live| && live[i] == log[j];
      AsinsMember(live, x);
    }
  }

  /** A deque without duplicate ASINs has as many entries as ASINs. */
  lemma {:induction false} DistinctCount(q: seq<Entry>)
    requires NoDuplicates(q)
    ensures |Asins(q)| == |q|
  {
    if q != [] {
      DistinctCount(q[1..]);
    }
  }

  /** Cleaning twice at the same instant is cleaning once. */
  lemma CleanIdempotent(q: seq<Entry>, now: int, duration: int)
    ensures Clean(Clean(q, now, duration), now, duration) == Clean(q, now, duration)
  {
  }

  /** With a negative window every entry stamped no later than `now` is expired, so cleaning empties the deque. */
  lemma {:induction false} CleanAllStale(q: seq<Entry>, now: int, duration: int)
    requires StampedBy(q, now) && duration < 0
    ensures Clean(q, now, duration) == []
  {
    if q != [] {
      assert Expired(q[0], now, duration);
      CleanAllStale(q[1..], now, duration);
    }
  }

  lemma {:induction false} AsinsAppend(c: seq<Entry>, e: Entry)
    ensures Asins(c + [e]) == Asins(c) + {e.asin}
  {
    if c == [] {
      assert c + [e] == [e] && [e][1..] == [];
    } else {
      assert (c + [e])[1..] == c[1..] + [e];
      AsinsAppend(c[1..], e);
    }
  }

  lemma {:induction false} NoDuplicatesAppend(q: seq<Entry>, e: Entry)
    requires NoDuplicates(q) && e.asin !in Asins(q)
    ensures NoDuplicates(q + [e])
  {
    if q == [] {
      assert q + [e] == [e] && [e][1..] == [];
    } else {
      assert (q + [e])[1..] == q[1..] + [e];
      AsinsAppend(q[1..], e);
      NoDuplicatesAppend(q[1..], e);
    }
  }

  /** Appending to a cleaned deque and cleaning again at the same instant keeps the appended entry unless it is itself expired on an empty deque. */
  lemma CleanAppend(c: seq<Entry>, e: Entry, now: int, duration: int)
    requires c == [] || !Expired(c[0], now, duration)
    ensures (!Expired(e, now, duration) || c != []) ==> Clean(c + [e], now, duration) == c + [e]
    ensures (Expired(e, now, duration) && c == []) ==> Clean(c + [e], now, duration) == []
  {
    if c == [] {
      assert c + [e] == [e];
      if Expired(e, now, duration) {
        assert [e][1..] == [];
      }
    } else {
      assert (c + [e])[0] == c[0];
    }
  }

  /** `add(x); add(x)` at the same instant leaves the same deque as one `add(x)`. */
  lemma AddIdempotent(q: seq<Entry>, x: Asin, now: int, duration: int)
    requires StampedBy(q, now)
    ensures AfterAdd(AfterAdd(q, x, now, duration), x, now, duration) == AfterAdd(q, x, now, duration)
  {
    var c := Clean(q, now, duration);
    CleanIdempotent(q, now, duration);
    if x !in Asins(c) {
      var e := Entry(x, now);
      if duration < 0 {
        CleanAllStale(q, now, duration);
      }
      CleanAppend(c, e, now, duration);
      AsinsAppend(c, e);
    }
  }

  /** With a non-negative window, `add(x)` makes `is_cached(x)` true at the same instant. */
  lemma AddMakesCached(q: seq<Entry>, x: Asin, now: int, duration: int)
    requires duration >= 0
    ensures Cached(AfterAdd(q, x, now, duration), x, now, duration)
  {
    var c := Clean(q, now, duration);
    CleanIdempotent(q, now, duration);
    if x !in Asins(c) {
      var e := Entry(x, now);
      CleanAppend(c, e, now, duration);
      AsinsAppend(c, e);
    }
  }

  lemma AddOtherWhenPresent(q: seq<Entry>, x: Asin, y: Asin, now: int, duration: int)
    requires x != y && Cached(q, y, now, duration)
    ensures Cached(AfterAdd(q, y, now, duration), x, now, duration) <==> Cached(q, x, now, duration)
  {
    CleanIdempotent(q, now, duration);
  }

  lemma AddOtherWhenAbsent(q: seq<Entry>, x: Asin, y: Asin, now: int, duration: int)
    requires x != y && !Cached(q, y, now, duration)
    ensures Cached(AfterAdd(q, y, now, duration), x, now, duration) <==> Cached(q, x, now, duration)
  {
    var c := Clean(q, now, duration);
    var e := Entry(y, now);
    var r := Clean(AfterAdd(q, y, now, duration), now, duration);
    assert Asins(r) == Asins(c) + {y} || Asins(r) == Asins(c) == {} by {
      assert AfterAdd(q, y, now, duration) == c + [e];
      CleanAppend(c, e, now, duration);
      AsinsAppend(c, e);
    }
  }

  /** Adding `y` never changes whether a different ASIN `x` is cached at the same instant. */
  lemma AddOtherKeepsVerdict(q: seq<Entry>, x: Asin, y: Asin, now: int, duration: int)
    requires x != y
    ensures Cached(AfterAdd(q, y, now, duration), x, now, duration) <==> Cached(q, x, now, duration)
  {
    if Cached(q, y, now, duration) {
      AddOtherWhenPresent(q, x, y, now, duration);
    } else {
      AddOtherWhenAbsent(q, x, y, now, duration);
    }
  }

  /**
   * The expiry test is strict: an entry exactly `duration` seconds old is
   * still cached, and one second later it is gone.
   */
  lemma ExpiryBoundary(x: Asin, stamp: int, duration: int)
    requires duration >= 0
    ensures Cached([Entry(x, stamp)], x, stamp + duration, duration)
    ensures !Cached([Entry(x, stamp)], x, stamp + duration + 1, duration)
  {
    var q := [Entry(x, stamp)];
    assert ExpiredPrefix(q, stamp + duration, duration) == 0;
    assert ExpiredPrefix(q, stamp + duration + 1, duration) == 1 by {
      assert q[1..] == [];
    }
  }

  /**
   * The representation invariant of `DealCache`, on values: the set and the
   * deque hold the same ASINs, without duplicates; `gone` is the part of the
   * insertion log popped so far, all of it expired at `clock`; the whole log
   * `gone + queue` is chronological and holds no timestamp after `clock`.
   */
  ghost predicate Consistent(queue: seq<Entry>, asinSet: set<Asin>, gone: seq<Entry>, clock: int, duration: int)
  {
    NoDuplicates(queue) && asinSet == Asins(queue) &&
    Chronological(gone + queue) && StampedBy(gone + queue, clock) &&
    forall i :: 0 <= i < |gone| ==> Expired(gone[i], clock, duration)
  }

  /** The invariant survives the clock moving forward. */
  lemma ConsistentLater(queue: seq<Entry>, asinSet: set<Asin>, gone: seq<Entry>, clock: int, now: int, duration: int)
    requires Consistent(queue, asinSet, gone, clock, duration) && clock <= now
    ensures Consistent(queue, asinSet, gone, now, duration)
  {
  }

  /** Popping an expired front entry and discarding its ASIN keeps the invariant and the log. */
  lemma ConsistentPop(queue: seq<Entry>, asinSet: set<Asin>, gone: seq<Entry>, clock: int, duration: int)
    requires Consistent(queue, asinSet, gone, clock, duration)
    requires queue != [] && Expired(queue[0], clock, duration)
    ensures (gone + [queue[0]]) + queue[1..] == gone + queue
    ensures Consistent(queue[1..], asinSet - {queue[0].asin}, gone + [queue[0]], clock, duration)
  {
    assert (gone + [queue[0]]) + queue[1..] == gone + queue by {
      assert queue == [queue[0]] + queue[1..];
    }
  }

  /** Appending an absent ASIN stamped `clock` keeps the invariant and extends the log by that entry. */
  lemma ConsistentAppend(queue: seq<Entry>, asinSet: set<Asin>, gone: seq<Entry>, clock: int, duration: int, x: Asin)
    requires Consistent(queue, asinSet, gone, clock, duration) && x !in asinSet
    ensures gone + (queue + [Entry(x, clock)]) == (gone + queue) + [Entry(x, clock)]
    ensures Consistent(queue + [Entry(x, clock)], asinSet + {x}, gone, clock, duration)
  {
    var e := Entry(x, clock);
    AsinsAppend(queue, e);
    NoDuplicatesAppend(queue, e);
    var log := gone + queue;
    assert gone + (queue + [e]) == log + [e];
    assert forall i :: 0 <= i < |log| ==> (log + [e])[i] == log[i];
  }

  /**
   * `DealCache`: the deque `queue` and the set `asinSet` of cache.py:25-26.
   * The ghost `gone` holds the entries popped as expired since the last
   * `clear`, so `Log()` is every entry appended since then; `clock` is the
   * latest time an operation was called with.
   */
  class DealCache {
    ghost const hours: int
    const durationSeconds: int
    var queue: seq<Entry>
    var asinSet: set<Asin>
    ghost var gone: seq<Entry>
    ghost var clock: int

    ghost predicate Valid()
      reads this
    {
      durationSeconds == hours * SecondsPerHour &&
      Consistent(queue, asinSet, gone, clock, durationSeconds)
    }

    /** The entries appended since the last `clear`, oldest first. */
    ghost function Log(): seq<Entry>
      reads this
    {
      gone + queue
    }

    /** `__init__`: an empty cache with a window of `cacheDurationHours` hours. */
    constructor (cacheDurationHours: int)
      ensures Valid()
      ensures hours == cacheDurationHours && durationSeconds == cacheDurationHours * SecondsPerHour
      ensures queue == [] && asinSet == {} && Log() == [] && clock == 0
    {
      hours := cacheDurationHours;
      durationSeconds := cacheDurationHours * SecondsPerHour;
      queue := [];
      asinSet := {};
      gone := [];
      clock := 0;
    }

    /** `_clean_expired`: pop expired entries off the front of the deque. */
    method CleanExpired(now: int)
      requires Valid() && clock <= now
      modifies this
      ensures Valid() && clock == now && Log() == old(Log())
      ensures queue == Clean(old(queue), now, durationSeconds)
      ensures queue == Live(Log(), now, durationSeconds)
      ensures asinSet == Recent(Log(), now, durationSeconds)
    {
      ConsistentLater(queue, asinSet, gone, clock, now, durationSeconds);
      clock := now;
      while queue != [] && now - queue[0].stamp > durationSeconds
        invariant Valid() && clock == now && Log() == old(Log())
        invariant Clean(queue, now, durationSeconds) == Clean(old(queue), now, durationSeconds)
        decreases |queue|
      {
        ConsistentPop(queue, asinSet, gone, now, durationSeconds);
        var front := queue[0];
        queue := queue[1..];
        asinSet := asinSet - {front.asin};
        gone := gone + [front];
      }
      LogWindow(gone, queue, now, durationSeconds);
    }

    /** `is_cached`: clean, then look the ASIN up in the set. */
    method IsCached(asin: Asin, now: int) returns (cached: bool)
      requires Valid() && clock <= now
      modifies this
      ensures Valid() && clock == now && Log() == old(Log())
      ensures queue == Clean(old(queue), now, durationSeconds)
      ensures cached == Cached(old(queue), asin, now, durationSeconds)
      ensures cached <==> asin in Recent(Log(), now, durationSeconds)
    {
      CleanExpired(now);
      cached := asin in asinSet;
    }

    /** `add`: clean, then append `(asin, now)` unless the ASIN is present; a present entry keeps its timestamp. */
    method Add(asin: Asin, now: int)
      requires Valid() && clock <= now
      modifies this
      ensures Valid() && clock == now
      ensures queue == AfterAdd(old(queue), asin, now, durationSeconds)
      ensures Cached(old(queue), asin, now, durationSeconds) ==>
                queue == Clean(old(queue), now, durationSeconds) && Log() == old(Log())
      ensures !Cached(old(queue), asin, now, durationSeconds) ==>
                Log() == old(Log()) + [Entry(asin, now)]
      ensures asin in asinSet
    {
      CleanExpired(now);
      assert Cached(old(queue), asin, now, durationSeconds) <==> asin in asinSet;
      if asin !in asinSet {
        ConsistentAppend(queue, asinSet, gone, now, durationSeconds, asin);
        var entry := Entry(asin, now);
        queue := queue + [entry];
        asinSet := asinSet + {asin};
      }
    }

    /** `clear`: empty both structures. */
    method Clear()
      requires Valid()
      modifies this
      ensures Valid() && clock == old(clock)
      ensures queue == [] && asinSet == {} && Log() == []
      ensures forall now :: Recent(Log(), now, durationSeconds) == {}
    {
      queue := [];
      asinSet := {};
      gone := [];
    }

    /** `get_stats`: clean, then report the number of entries and the window in hours. */
    method GetStats(now: int) returns (stats: Stats)
      requires Valid() && clock <= now
      modifies this
      ensures Valid() && clock == now && Log() == old(Log())
      ensures queue == Clean(old(queue), now, durationSeconds)
      ensures stats.totalEntries == |queue| == |Recent(Log(), now, durationSeconds)|
      ensures stats.durationHours == hours as real
    {
      CleanExpired(now);
      DistinctCount(queue);
      stats := Stats(|queue|, durationSeconds as real / SecondsPerHour as real);
    }
  }
}
