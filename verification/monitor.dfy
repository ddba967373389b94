/**
 * The per-deal deduplication gate of `PriceMonitorApp.scraper_loop`
 * (main.py): for each scraped deal, stop if the app is no longer running,
 * skip the deal if its ASIN is cached, otherwise post it and record the ASIN
 * in the cache only when the post succeeded.
 *
 * What the environment does during deal `i` of a cycle (the `running` flag,
 * the clock at `is_cached` and at `add`, the result of `bot.post_deal`) is an
 * oracle: the `Tick` at position `i`.
 */
module Monitor {
  import opened Cache
  import opened Scraper

  /** The environment around one deal of a cycle. */
  datatype Tick = Tick(running: bool, checkAt: int, postOk: bool, addAt: int)

  /** What happened to one deal that the loop reached. */
  datatype Outcome = Skipped | PostFailed | Posted

  /** The cache's deque after one deal, and what happened to the deal. */
  datatype Step = Step(queue: seq<Entry>, outcome: Outcome)

  /**
   * Clock readings never go backwards: `start` (the cache's last reading)
   * comes first, each `add` follows its `is_cached`, and every reading of a
   * deal precedes those of the later deals.
   */
  predicate OnClock(start: int, ticks: seq<Tick>)
  {
    (forall i :: 0 <= i < |ticks| ==> start <= ticks[i].checkAt <= ticks[i].addAt) &&
    (forall i, j :: 0 <= i < j < |ticks| ==> ticks[i].addAt <= ticks[j].checkAt)
  }

  /** The body of the deal loop for one deal, on the cache's deque. */
  function Gate(q: seq<Entry>, asin: Asin, t: Tick, duration: int): Step
  {
    var c := Clean(q, t.checkAt, duration);
    if asin in Asins(c) then Step(c, Skipped)
    else if !t.postOk then Step(c, PostFailed)
    else Step(AfterAdd(c, asin, t.addAt, duration), Posted)
  }

  /** The index of the first deal at which `running` is found false, or the number of deals. */
  function StopIndex(ticks: seq<Tick>): (n: nat)
    ensures n <= |ticks|
    ensures forall j :: 0 <= j < n ==> ticks[j].running
    ensures n < |ticks| ==> !ticks[n].running
  {
    if ticks == [] || !ticks[0].running then 0 else 1 + StopIndex(ticks[1..])
  }

  /** The deque before deal `n` is processed, starting from `q0`. */
  function QueueBefore(q0: seq<Entry>, deals: seq<Deal>, ticks: seq<Tick>, duration: int, n: nat): seq<Entry>
    requires n <= |deals| == |ticks|
    decreases n, 0
  {
    if n == 0 then q0 else StepAt(q0, deals, ticks, duration, n - 1).queue
  }

  /** What deal `i` does, given the deque left by the deals before it. */
  function StepAt(q0: seq<Entry>, deals: seq<Deal>, ticks: seq<Tick>, duration: int, i: nat): Step
    requires i < |deals| == |ticks|
    decreases i, 1
  {
    Gate(QueueBefore(q0, deals, ticks, duration, i), deals[i].asin, ticks[i], duration)
  }

  /** What happens to deal `i`. */
  function OutcomeOf(q0: seq<Entry>, deals: seq<Deal>, ticks: seq<Tick>, duration: int, i: nat): Outcome
    requires i < |deals| == |ticks|
  {
    StepAt(q0, deals, ticks, duration, i).outcome
  }

  /** Deal `n` takes the deque left by the deals before it through `Gate`. */
  lemma QueueStep(q0: seq<Entry>, deals: seq<Deal>, ticks: seq<Tick>, duration: int, n: nat)
    requires n < |deals| == |ticks|
    ensures QueueBefore(q0, deals, ticks, duration, n + 1) ==
              Gate(QueueBefore(q0, deals, ticks, duration, n), deals[n].asin, ticks[n], duration).queue
    ensures OutcomeOf(q0, deals, ticks, duration, n) ==
              Gate(QueueBefore(q0, deals, ticks, duration, n), deals[n].asin, ticks[n], duration).outcome
  {
  }

  /** A deal is handed to `post_deal` exactly when its ASIN is not cached at check time. */
  lemma NeverPostsCached(q0: seq<Entry>, deals: seq<Deal>, ticks: seq<Tick>, duration: int, i: nat)
    requires i < |deals| == |ticks|
    ensures OutcomeOf(q0, deals, ticks, duration, i) != Skipped <==>
              !Cached(QueueBefore(q0, deals, ticks, duration, i), deals[i].asin, ticks[i].checkAt, duration)
  {
  }

  /**
   * A failed post changes the cache only by expiry: the deque is the cleaned
   * deque, and the ASIN is still absent, so a later cycle retries it.
   */
  lemma FailedPostRetried(q0: seq<Entry>, deals: seq<Deal>, ticks: seq<Tick>, duration: int, i: nat)
    requires i < |deals| == |ticks|
    requires OutcomeOf(q0, deals, ticks, duration, i) == PostFailed
    ensures QueueBefore(q0, deals, ticks, duration, i + 1) ==
              Clean(QueueBefore(q0, deals, ticks, duration, i), ticks[i].checkAt, duration)
    ensures deals[i].asin !in Asins(QueueBefore(q0, deals, ticks, duration, i + 1))
  {
  }

  /** The only ASIN a deal can bring into the cache is its own, and only when its post succeeded. */
  lemma GainsOnlyOnPost(q0: seq<Entry>, deals: seq<Deal>, ticks: seq<Tick>, duration: int, i: nat, x: Asin)
    requires i < |deals| == |ticks|
    requires x in Asins(QueueBefore(q0, deals, ticks, duration, i + 1))
    requires x !in Asins(QueueBefore(q0, deals, ticks, duration, i))
    ensures OutcomeOf(q0, deals, ticks, duration, i) == Posted && x == deals[i].asin
  {
    var q := QueueBefore(q0, deals, ticks, duration, i);
    var t := ticks[i];
    var c := Clean(q, t.checkAt, duration);
    SuffixAsins(q, c);
    if deals[i].asin !in Asins(c) && t.postOk {
      var c' := Clean(c, t.addAt, duration);
      SuffixAsins(c, c');
      AsinsAppend(c', Entry(deals[i].asin, t.addAt));
    }
  }

  /** Every entry of the cache after `n` deals was there at the start or was added right after a successful post. */
  lemma {:induction false} EntriesFromPosts(q0: seq<Entry>, deals: seq<Deal>, ticks: seq<Tick>, duration: int, n: nat)
    requires n <= |deals| == |ticks|
    ensures forall e :: e in QueueBefore(q0, deals, ticks, duration, n) ==>
              e in q0 || exists j :: 0 <= j < n && OutcomeOf(q0, deals, ticks, duration, j) == Posted &&
                                     e == Entry(deals[j].asin, ticks[j].addAt)
  {
    if n > 0 {
      EntriesFromPosts(q0, deals, ticks, duration, n - 1);
      var q := QueueBefore(q0, deals, ticks, duration, n - 1);
      forall e | e in QueueBefore(q0, deals, ticks, duration, n)
        ensures e in q || (OutcomeOf(q0, deals, ticks, duration, n - 1) == Posted &&
                           e == Entry(deals[n - 1].asin, ticks[n - 1].addAt))
      {
        QueueStep(q0, deals, ticks, duration, n - 1);
        GateOrigin(q, deals[n - 1].asin, ticks[n - 1], duration, e);
      }
    }
  }

  /**
   * Within one cycle that fits inside the cache window, a deal whose ASIN
   * was already posted earlier in the cycle is skipped: an ASIN is posted
   * successfully at most once per cycle.
   */
  lemma PostedAtMostOnce(q0: seq<Entry>, deals: seq<Deal>, ticks: seq<Tick>, duration: int, start: int, i: nat, j: nat)
    requires i < j < |deals| == |ticks|
    requires OnClock(start, ticks)
    requires ticks[|ticks| - 1].checkAt - ticks[0].checkAt <= duration
    requires OutcomeOf(q0, deals, ticks, duration, i) == Posted
    requires deals[j].asin == deals[i].asin
    ensures OutcomeOf(q0, deals, ticks, duration, j) == Skipped
  {
    var x := deals[i].asin;
    var e := Entry(x, ticks[i].addAt);
    var last := |ticks| - 1;
    assert ticks[0].checkAt <= ticks[i].addAt;
    assert ticks[j].checkAt <= ticks[last].checkAt by {
      if j < last {
        assert ticks[j].addAt <= ticks[last].checkAt;
      }
    }
    var qi := QueueBefore(q0, deals, ticks, duration, i);
    PostAppends(qi, x, ticks[i], duration);
    assert e in QueueBefore(q0, deals, ticks, duration, i + 1);
    forall l | i + 1 <= l < j
      ensures ticks[l].checkAt <= ticks[l].addAt <= ticks[j].checkAt
    {
    }
    EntryPersists(q0, deals, ticks, duration, e, i + 1, j, ticks[j].checkAt);
    var qj := QueueBefore(q0, deals, ticks, duration, j);
    GateSkipsLive(qj, x, ticks[j], duration, e);
  }

  /** A successful post appends the deal's entry to the deque. */
  lemma PostAppends(q: seq<Entry>, x: Asin, t: Tick, duration: int)
    requires Gate(q, x, t, duration).outcome == Posted
    ensures Entry(x, t.addAt) in Gate(q, x, t, duration).queue
  {
    var c := Clean(q, t.checkAt, duration);
    var c' := Clean(c, t.addAt, duration);
    SuffixAsins(c, c');
    assert Entry(x, t.addAt) in c' + [Entry(x, t.addAt)];
  }

  /** A deal whose ASIN has a live entry at check time is skipped. */
  lemma GateSkipsLive(q: seq<Entry>, x: Asin, t: Tick, duration: int, e: Entry)
    requires e in q && e.asin == x && t.checkAt - e.stamp <= duration
    ensures Gate(q, x, t, duration).outcome == Skipped
  {
    var c := Clean(q, t.checkAt, duration);
    CleanKeepsLive(q, e, t.checkAt, duration);
    InAsins(c, e);
  }

  /** An entry still inside the window at both clock readings of a deal survives that deal. */
  lemma GateKeeps(q: seq<Entry>, x: Asin, t: Tick, duration: int, e: Entry)
    requires e in q && t.checkAt - e.stamp <= duration && t.addAt - e.stamp <= duration
    ensures e in Gate(q, x, t, duration).queue
  {
    var c := Clean(q, t.checkAt, duration);
    CleanKeepsLive(q, e, t.checkAt, duration);
    if x !in Asins(c) && t.postOk {
      CleanKeepsLive(c, e, t.addAt, duration);
      assert e in Clean(c, t.addAt, duration) + [Entry(x, t.addAt)];
    }
  }

  /** An entry after a deal was there before it, or is the deal's own entry after a successful post. */
  lemma GateOrigin(q: seq<Entry>, x: Asin, t: Tick, duration: int, e: Entry)
    requires e in Gate(q, x, t, duration).queue
    ensures e in q || (Gate(q, x, t, duration).outcome == Posted && e == Entry(x, t.addAt))
  {
    var c := Clean(q, t.checkAt, duration);
    if x !in Asins(c) && t.postOk {
      var c' := Clean(c, t.addAt, duration);
      if e in c' {
        SuffixMember(c, c', e);
        SuffixMember(q, c, e);
      }
    } else {
      SuffixMember(q, c, e);
    }
  }

  /** An entry that stays inside the window until `until` survives every deal processed before then. */
  lemma {:induction false} EntryPersists(q0: seq<Entry>, deals: seq<Deal>, ticks: seq<Tick>, duration: int,
                                         e: Entry, k: nat, m: nat, until: int)
    requires k <= m <= |deals| == |ticks|
    requires e in QueueBefore(q0, deals, ticks, duration, k)
    requires until - e.stamp <= duration
    requires forall l :: k <= l < m ==> ticks[l].checkAt <= ticks[l].addAt <= until
    ensures e in QueueBefore(q0, deals, ticks, duration, m)
  {
    if k < m {
      EntryPersists(q0, deals, ticks, duration, e, k, m - 1, until);
      GateKeeps(QueueBefore(q0, deals, ticks, duration, m - 1), deals[m - 1].asin, ticks[m - 1], duration, e);
    }
  }

  lemma SuffixMember(q: seq<Entry>, r: seq<Entry>, e: Entry)
    requires |r| <= |q| && r == q[|q| - |r|..] && e in r
    ensures e in q
  {
    var i :| 0 <= i < |r| && r[i] == e;
    assert q[|q| - |r| + i] == e;
  }

  lemma InAsins(q: seq<Entry>, e: Entry)
    requires e in q
    ensures e.asin in Asins(q)
  {
    var i :| 0 <= i < |q| && q[i] == e;
    AsinsMember(q, e.asin);
  }

  lemma SuffixAsins(q: seq<Entry>, r: seq<Entry>)
    requires |r| <= |q| && r == q[|q| - |r|..]
    ensures Asins(r) <= Asins(q)
  {
    forall x | x in Asins(r)
      ensures x in Asins(q)
    {
      AsinsMember(r, x);
      var i :| 0 <= i < |r| && r[i].asin == x;
      SuffixMember(q, r, r[i]);
      InAsins(q, r[i]);
    }
  }

  /**
   * The body of the deal loop for one deal that the loop reached: skip it if
   * its ASIN is cached, otherwise post it and add the ASIN only when the
   * post succeeded.
   */
  method HandleDeal(cache: DealCache, deal: Deal, tick: Tick) returns (outcome: Outcome)
    requires cache.Valid() && cache.clock <= tick.checkAt <= tick.addAt
    modifies cache
    ensures cache.Valid() && cache.clock <= tick.addAt
    ensures outcome == Gate(old(cache.queue), deal.asin, tick, cache.durationSeconds).outcome
    ensures cache.queue == Gate(old(cache.queue), deal.asin, tick, cache.durationSeconds).queue
  {
    var cached := cache.IsCached(deal.asin, tick.checkAt);
    if cached {
      outcome := Skipped;
    } else {
      var success := tick.postOk;
      if success {
        cache.Add(deal.asin, tick.addAt);
        outcome := Posted;
      } else {
        outcome := PostFailed;
      }
    }
  }

  /**
   * The deal loop of one scraping cycle (main.py:128-146) over the shared
   * cache. It processes the deals up to the first one at which `running` is
   * false, and each processed deal goes through `Gate`.
   */
  method ProcessDeals(cache: DealCache, deals: seq<Deal>, ticks: seq<Tick>) returns (outcomes: seq<Outcome>)
    requires cache.Valid() && |ticks| == |deals|
    requires OnClock(cache.clock, ticks)
    modifies cache
    ensures cache.Valid()
    ensures |outcomes| == StopIndex(ticks)
    ensures forall i :: 0 <= i < |outcomes| ==>
              outcomes[i] == OutcomeOf(old(cache.queue), deals, ticks, cache.durationSeconds, i)
    ensures cache.queue == QueueBefore(old(cache.queue), deals, ticks, cache.durationSeconds, |outcomes|)
  {
    ghost var q0 := cache.queue;
    outcomes := [];
    var i := 0;
    while i < |deals|
      invariant 0 <= i <= |deals| && |outcomes| == i
      invariant cache.Valid()
      invariant forall j :: i <= j < |ticks| ==> cache.clock <= ticks[j].checkAt
      invariant forall j :: 0 <= j < i ==> ticks[j].running
      invariant forall j :: 0 <= j < i ==> outcomes[j] == OutcomeOf(q0, deals, ticks, cache.durationSeconds, j)
      invariant cache.queue == QueueBefore(q0, deals, ticks, cache.durationSeconds, i)
    {
      if !ticks[i].running {
        break;
      }
      QueueStep(q0, deals, ticks, cache.durationSeconds, i);
      var outcome := HandleDeal(cache, deals[i], ticks[i]);
      outcomes := outcomes + [outcome];
      i := i + 1;
    }
  }
}
