# SpyBot deal deduplication, in Dafny

SpyBot polls the Keepa deals page, turns each scraped record into a `Deal`
and posts new deals to a Discord channel. A sliding-window cache stops a deal
from being posted twice. This project models three parts of the program and
proves their properties:

- **`Cache`** (`cache.dfy`) models `DealCache` from cache.py. It is a class
  with two fields:
  - the deque of `(asin, timestamp)` entries, kept as a `seq<Entry>`;
  - the lookup set of ASINs.
  - Its methods follow the source:
    - `_clean_expired` is a `while` loop that pops the expired front.
    - `is_cached`, `add` and `get_stats` clean first.
    - `clear` empties both fields.
  - Ghost state:
    - `gone` holds the entries popped since the last `clear`, so
      `Log() == gone + queue` is every entry appended since then.
    - `clock` holds the latest time an operation was called with.
  - The class invariant `Valid()` says:
    - the set holds exactly the deque's ASINs;
    - the deque has no duplicate ASINs;
    - the log is chronological;
    - everything popped was expired.
  - Each operation is specified by a function on the deque: `Clean`,
    `Cached` and `AfterAdd`. The lemmas about these functions state the
    cache's promises:
    - the expired entries form a prefix;
    - `add` is idempotent and does not refresh a present entry's timestamp;
    - `add(x)` makes `x` cached at the same instant;
    - adding `y` never changes whether `x` is cached;
    - the expiry test is strict;
    - `is_cached(x)` is true exactly when `x` is in the log and still
      inside the window.
- **`Scraper`** (`scraper.dfy`) models two parts of scraper.py:
  - the four link builders of `Deal`, each with its exact prefix and suffix.
    Each is proved to be invertible, and so injective in the ASIN.
  - the record-conversion loop of `extract_deals`, as a method. It is
    proved equal to a reference filter that keeps, in input order, the
    converted records whose discount reaches the minimum. The same proof
    shows that titles are cut to 200 characters.
- **`Monitor`** (`monitor.dfy`) models the deal loop of
  `PriceMonitorApp.scraper_loop` (main.py:128-146) as a method over a
  `DealCache`:
  - for each deal, stop if `running` is false;
  - skip the deal if its ASIN is cached;
  - otherwise post it, and add the ASIN only if the post succeeded.
  - An oracle `Tick` per deal supplies the environment:
    - the `running` flag;
    - the clock at `is_cached` and at `add`;
    - the result of `bot.post_deal`.
  - The method is proved equal to a step function `Gate` folded over the
    deals. Lemmas about that fold prove these properties:
    - a cached deal is never posted;
    - the cache gains an ASIN only right after a successful post of that
      ASIN;
    - a failed post leaves the ASIN uncached;
    - within a cycle that fits inside the window, an ASIN is posted
      successfully at most once.

Time is an integer number of seconds, given to every operation as `now`.
The caller promises that the clock never goes backwards (`clock <= now`).
The window is `hours * 3600` seconds (cache.py:24).

An entry is dropped when `now - stamp > duration` (cache.py:32); an entry
exactly `duration` seconds old is still cached (`Cache.ExpiryBoundary`).

## Model

| member | source | states |
|---|---|---|
| Cache.Expired | cache.py:32 | the expiry test of `_clean_expired`: an entry is expired when `now - stamp` is strictly greater than the window in seconds |
| Cache.Clean | cache.py:28-35 | the deque left by `_clean_expired` at `now`: the deque with its longest expired prefix popped |
| Cache.Cached | cache.py:47-48 | the answer of `is_cached(x)` at `now`: `x` is among the ASINs of the cleaned deque |
| Cache.AfterAdd | cache.py:57-62 | the deque left by `add(x)` at `now`: the cleaned deque, with `(x, now)` appended only when `x` is not among its ASINs |
| Cache.ExpiredPrefix | cache.py:32-34 | the number of entries `_clean_expired` pops: every one of them is expired, and the entry after them (if any) is not |
| Cache.CleanKeepsLive | cache.py:32-34 | cleaning never removes an entry that is still inside the window |
| Cache.CleanIsLive | cache.py:28-35 | on a chronological deque, popping the expired front leaves exactly the unexpired entries, in order, and every remaining entry is inside the window |
| Cache.CleanIdempotent | cache.py:28-35 | cleaning twice at the same instant is the same as cleaning once |
| Cache.CleanAllStale | cache.py:24-34 | with a negative window (negative `hours`), cleaning empties a deque whose stamps are all no later than `now` |
| Cache.LogWindow | cache.py:28-48 | the deque left by cleaning is the log's unexpired entries, and its ASINs are exactly the ASINs inserted within the window |
| Cache.LiveAsins | cache.py:47-48 | the ASINs of the unexpired log entries are exactly the ASINs of log entries with `now - stamp <= duration` |
| Cache.DistinctCount | cache.py:75 | a deque without duplicate ASINs has as many entries as distinct ASINs |
| Cache.AddIdempotent | cache.py:57-62 | `add(x); add(x)` at the same instant leaves the same deque as one `add(x)`, with `x`'s original timestamp |
| Cache.AddMakesCached | cache.py:57-62 | with a non-negative window, `is_cached(x)` holds right after `add(x)` at the same instant |
| Cache.AddOtherKeepsVerdict | cache.py:47-62 | adding `y` never changes whether a different ASIN `x` is cached at the same instant |
| Cache.ExpiryBoundary | cache.py:32 | an entry exactly `duration` seconds old is cached, and one second older it is not |
| Cache.ConsistentLater | cache.py:30-32 | the representation invariant survives the clock moving forward |
| Cache.ConsistentPop | cache.py:32-34 | popping an expired front entry and discarding its ASIN from the set keeps set and deque in agreement, keeps the log, and keeps it chronological |
| Cache.ConsistentAppend | cache.py:59-62 | appending an absent ASIN with the current time keeps the set and deque in agreement, without duplicates, chronological, and extends the log by that entry |
| Cache.DealCache.constructor | cache.py:17-26 | an empty cache whose window is `hours * 3600` seconds, with an empty log |
| Cache.DealCache.CleanExpired | cache.py:28-35 | the deque becomes the cleaned deque, which is exactly the log's unexpired entries; the set becomes the ASINs inserted within the window; the invariant and the log are kept |
| Cache.DealCache.IsCached | cache.py:37-48 | the answer is `true` exactly when the ASIN was inserted since the last `clear` and its entry is still inside the window |
| Cache.DealCache.Add | cache.py:50-63 | the deque becomes the cleaned deque plus `(asin, now)` when the ASIN is absent. When it is present, nothing is appended and no timestamp changes. Afterwards the ASIN is in the set |
| Cache.DealCache.Clear | cache.py:65-69 | deque, set and log become empty, so no ASIN is inserted within the window at any time |
| Cache.DealCache.GetStats | cache.py:71-77 | after cleaning, `total_entries` is the deque length, which equals the number of distinct ASINs inserted within the window; `cache_duration_hours` is the configured `hours` |
| Scraper.Extract | scraper.py:30-48 | a link with the given fixed prefix and suffix is read back into the ASIN it was built around |
| Scraper.EmbedExtract | scraper.py:30-48 | reading the ASIN back out of `prefix + asin + suffix` gives `asin` |
| Scraper.AmazonCartUrl | scraper.py:30-33 | the amazon.fr add-to-cart link for one unit, from which the ASIN is recovered |
| Scraper.KeepaUrl | scraper.py:35-38 | the Keepa product link for domain 4, from which the ASIN is recovered |
| Scraper.LookupUrl | scraper.py:40-43 | the Google Shopping price search link, from which the ASIN is recovered |
| Scraper.KeepaGraphUrl | scraper.py:45-48 | the Keepa price-history image link for domain 4, from which the ASIN is recovered |
| Scraper.UrlsInjective | scraper.py:30-48 | distinct ASINs give distinct links, for each of the four builders |
| Scraper.Truncate | scraper.py:260 | Python's `s[:limit]`: a prefix of `s`, of length `min(|s|, limit)` |
| Scraper.ToDeal | scraper.py:258-266 | the stored title is at most 200 characters, is a prefix of the scraped title, and equals it when it is already short enough; the ASIN and the discount are copied |
| Scraper.Kept | scraper.py:258-270 | one step of the conversion loop: the converted record as a one-element sequence when its discount reaches `min_discount`, otherwise nothing |
| Scraper.QualifyingConcat | scraper.py:255-270 | filtering distributes over concatenation, so input order is kept |
| Scraper.QualifyingMembers | scraper.py:255-270 | a deal is returned exactly when it is the conversion of a record whose discount reaches the minimum |
| Scraper.ConvertDeals | scraper.py:255-270 | the loop returns the reference filter of the records, so every returned deal reaches the minimum discount and has a title of at most 200 characters |
| Monitor.Gate | main.py:133-142 | one deal's pass through the loop body on the deque: clean at check time; skip if the ASIN is then present; otherwise a failed post leaves the cleaned deque, and a successful post leaves the deque of `add` at the `add` time |
| Monitor.StopIndex | main.py:129-130 | the loop stops at the first deal at which `running` is false: every earlier deal saw `running` true |
| Monitor.NeverPostsCached | main.py:133-135 | a deal goes on to `post_deal` exactly when its ASIN is not cached at check time |
| Monitor.FailedPostRetried | main.py:138-142 | after a failed post, the deque is only the cleaned deque and the ASIN is not in it, so a later cycle tries again |
| Monitor.GainsOnlyOnPost | main.py:138-142 | a deal can bring only its own ASIN into the cache, and only when its post succeeded |
| Monitor.EntriesFromPosts | main.py:128-146 | every entry in the cache after a run of deals was there at the start or was added by a successful post of that deal, stamped at its `add` |
| Monitor.PostedAtMostOnce | main.py:133-142 | within one cycle that fits inside the window, a later deal with the ASIN of an earlier successfully posted deal is skipped |
| Monitor.EntryPersists | main.py:128-146 | an entry that stays inside the window until a given time survives every deal processed before then |
| Monitor.GateOrigin | main.py:133-142 | an entry after one deal was there before it or is that deal's own entry after a successful post |
| Monitor.GateKeeps | main.py:133-142 | an entry inside the window at both clock readings of a deal survives that deal |
| Monitor.GateSkipsLive | main.py:133-135 | a deal whose ASIN has an entry inside the window at check time is skipped |
| Monitor.PostAppends | main.py:140-142 | a successful post puts the deal's entry, stamped at `add`, into the deque |
| Monitor.HandleDeal | main.py:133-146 | one deal's pass through the loop body leaves the deque and reports the outcome that `Gate` gives |
| Monitor.ProcessDeals | main.py:128-146 | the loop processes exactly the deals before the first `running == false`; each outcome and the final deque are those of `Gate` folded over those deals |

## Left out

- Time: `time.time()` is a float. It is modelled as whole seconds passed in as `now`, and the clock never goes backwards. On a backwards clock the source still behaves deterministically: cleaning stops at the first unexpired front entry, so an expired entry queued behind a later-stamped one stays in the deque and `is_cached` keeps reporting it. The model excludes this case by requiring `clock <= now`.
- Cache.DealCache.Add: one clock reading serves both for cleaning and for the new entry's timestamp. The source calls `time.time()` twice (cache.py:30 and cache.py:60), a moment apart.
- Cache.DealCache.constructor: the default of 24 hours is not modelled. The caller always passes the window.
- Locking: the docstring calls the cache thread-safe (cache.py:14), but the code has no lock. The model is sequential.
- Floats: prices and discounts are reals, because the code only copies and compares them. `cache_duration_seconds / 3600` is exact real division.
- Logging: every logging call is left out.
- The Playwright browser work and the JavaScript extraction in scraper.py: I/O through a foreign library. The scraped records enter the model as `DealData` values with every key present.
- The `try`/`except` around `Deal(...)` (scraper.py:257-275) is left out. It cannot trigger, because every record has every key.
- The outer `except` of `extract_deals`, which returns `[]`, is left out. It guards only the browser work.
- bot.py is not part of this model. `post_deal` is an oracle result per deal (`Tick.postOk`).
- The rest of `scraper_loop`: its `asyncio.sleep` calls, `scrape_deals`, the statistics log after the loop and the exception and restart handling are I/O and scheduling. The loop itself is modelled.
- Monitor.PostedAtMostOnce: assumes the checks of one cycle span at most the window. Without that assumption, an earlier post can expire and the same ASIN can be posted again, which is the intended behaviour of the cache.
