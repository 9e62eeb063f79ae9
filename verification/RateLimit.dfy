/**
 The fixed-window rate limiter in front of redemption (crates/nil-coordinator/src/ratelimit.rs).

 `Limiter.Check` is the code: one counter per key, a `u32` that wraps, and an opportunistic sweep of
 elapsed windows.  The reference limiter has unbounded counters and never sweeps.
 */
module RateLimit {
  import opened Text

  const SweepAbove: nat := 4096

  datatype Bucket = Bucket(start: nat, count: nat)
  type Buckets = map<string, Bucket>
  datatype Hit = Hit(key: string, now: nat)
  datatype Limit = Limit(max: nat, window: nat)

  /** `Instant::duration_since`, which saturates at zero. */
  function Since(now: nat, start: nat): nat { if now < start then 0 else now - start }

  /** The bucket a hit is counted in: the key's own while its window runs, otherwise a fresh one. */
  function Current(b: Buckets, l: Limit, h: Hit): Bucket {
    if h.key in b && Since(h.now, b[h.key].start) < l.window then b[h.key] else Bucket(h.now, 0)
  }

  // ---------------------------------------------------------------- the reference limiter

  function Count(b: Buckets, l: Limit, h: Hit): Buckets {
    var c := Current(b, l, h);
    b[h.key := Bucket(c.start, c.count + 1)]
  }

  function Allowed(b: Buckets, l: Limit, h: Hit): bool {
    Current(b, l, h).count + 1 <= l.max
  }

  function Answers(b: Buckets, l: Limit, hits: seq<Hit>): seq<bool>
    decreases |hits|
  {
    if hits == [] then [] else [Allowed(b, l, hits[0])] + Answers(Count(b, l, hits[0]), l, hits[1..])
  }

  ghost predicate Ordered(hits: seq<Hit>) {
    forall i, j :: 0 <= i < j < |hits| ==> hits[i].now <= hits[j].now
  }

  /** No window of any key ever sees 2^32 hits. */
  ghost predicate Fits(b: Buckets, l: Limit, hits: seq<Hit>)
    decreases |hits|
  {
    hits == [] || (Current(b, l, hits[0]).count + 1 < U32 && Fits(Count(b, l, hits[0]), l, hits[1..]))
  }

  // ---------------------------------------------------------------- the code

  /** The elapsed windows are dropped once the map is large. */
  function Swept(b: Buckets, l: Limit, now: nat): Buckets {
    if |b| > SweepAbove then map k | k in b && Since(now, b[k].start) < l.window :: b[k] else b
  }

  /** State after one `check`, with the sweep and the wrapping counter. */
  function CountSwept(b: Buckets, l: Limit, h: Hit): Buckets {
    var c := Current(Swept(b, l, h.now), l, h);
    Swept(b, l, h.now)[h.key := Bucket(c.start, (c.count + 1) % U32)]
  }

  function AllowedSwept(b: Buckets, l: Limit, h: Hit): bool {
    (Current(Swept(b, l, h.now), l, h).count + 1) % U32 <= l.max
  }

  function AnswersSwept(b: Buckets, l: Limit, hits: seq<Hit>): seq<bool>
    decreases |hits|
  {
    if hits == [] then []
    else [AllowedSwept(b, l, hits[0])] +
         AnswersSwept(CountSwept(b, l, hits[0]), l, hits[1..])
  }

  class Limiter {
    const limit: Limit
    var buckets: Buckets

    constructor (max: nat, window: nat)
      ensures limit == Limit(max, window) && buckets == map[]
    {
      limit := Limit(max, window);
      buckets := map[];
    }

    method Check(key: string, now: nat) returns (ok: bool)
      modifies this
      ensures ok == AllowedSwept(old(buckets), limit, Hit(key, now))
      ensures buckets == CountSwept(old(buckets), limit, Hit(key, now))
    {
      if |buckets| > SweepAbove {
        buckets := map k | k in buckets && Since(now, buckets[k].start) < limit.window :: buckets[k];
      }
      if key !in buckets {
        buckets := buckets[key := Bucket(now, 0)];
      }
      if Since(now, buckets[key].start) >= limit.window {
        buckets := buckets[key := Bucket(now, 0)];
      }
      buckets := buckets[key := Bucket(buckets[key].start, (buckets[key].count + 1) % U32)];
      ok := buckets[key].count <= limit.max;
    }
  }

  // ---------------------------------------------------------------- sweeping is invisible

  /** The code's map is the reference map less some windows that have elapsed by `now`. */
  ghost predicate Tracks(b: Buckets, r: Buckets, l: Limit, now: nat) {
    && (forall k :: k in b ==> k in r && b[k] == r[k])
    && (forall k :: k in r && k !in b ==> Since(now, r[k].start) >= l.window)
  }

  lemma TracksStep(b: Buckets, r: Buckets, l: Limit, now: nat, h: Hit)
    requires Tracks(b, r, l, now) && now <= h.now
    requires Current(r, l, h).count + 1 < U32
    ensures AllowedSwept(b, l, h) == Allowed(r, l, h)
    ensures Tracks(CountSwept(b, l, h), Count(r, l, h), l, h.now)
  {
    assert Current(Swept(b, l, h.now), l, h) == Current(r, l, h);
  }

  /** For nondecreasing times and fewer than 2^32 hits per key and window, the limiter that sweeps
      answers exactly as the one that never does. */
  lemma {:induction false} SweepInvisible(b: Buckets, r: Buckets, l: Limit, now: nat, hits: seq<Hit>)
    requires Tracks(b, r, l, now) && Ordered(hits) && (hits != [] ==> now <= hits[0].now)
    requires Fits(r, l, hits)
    ensures AnswersSwept(b, l, hits) == Answers(r, l, hits)
    decreases |hits|
  {
    if hits != [] {
      var h := hits[0];
      TracksStep(b, r, l, now, h);
      SweepInvisible(CountSwept(b, l, h), Count(r, l, h), l, h.now, hits[1..]);
    }
  }

  /** The same from an empty limiter, as the service starts. */
  lemma SweepInvisibleFromStart(l: Limit, hits: seq<Hit>)
    requires Ordered(hits) && Fits(map[], l, hits)
    ensures AnswersSwept(map[], l, hits) == Answers(map[], l, hits)
  {
    if hits != [] {
      SweepInvisible(map[], map[], l, hits[0].now, hits);
    }
  }

  // ---------------------------------------------------------------- which hits get through

  /** Which of the first `n` hits opened the window that `key` is in: its first hit, or its first one at
      least a whole window after the previous opener. */
  ghost function Opener(l: Limit, hits: seq<Hit>, key: string, n: nat): (o: Option<nat>)
    requires n <= |hits|
    ensures o.Some? ==> o.value < n && hits[o.value].key == key
  {
    if n == 0 then None else
    var before, h := Opener(l, hits, key, n - 1), hits[n - 1];
    if h.key != key then before
    else if before.Some? && (if h.now < hits[before.value].now then 0 else h.now - hits[before.value].now) < l.window then before
    else Some(n - 1)
  }

  /** The hits of `key` from the `from`th on, among the first `n`. */
  ghost function HitsOf(hits: seq<Hit>, key: string, from: nat, n: nat): set<nat>
    requires n <= |hits|
  {
    set i: nat | from <= i < n && hits[i].key == key
  }

  function After(l: Limit, hits: seq<Hit>, n: nat): Buckets
    requires n <= |hits|
  {
    if n == 0 then map[] else Count(After(l, hits, n - 1), l, hits[n - 1])
  }

  lemma {:induction false} AfterIs(l: Limit, hits: seq<Hit>, key: string, n: nat)
    requires n <= |hits|
    ensures key in After(l, hits, n) <==> Opener(l, hits, key, n).Some?
    ensures key in After(l, hits, n) ==>
      var o := Opener(l, hits, key, n).value; After(l, hits, n)[key] == Bucket(hits[o].now, |HitsOf(hits, key, o, n)|)
  {
    if n > 0 {
      AfterIs(l, hits, key, n - 1);
      var o := Opener(l, hits, key, n);
      if o.Some? { OneMoreHit(hits, key, o.value, n); }
    }
  }

  lemma OneMoreHit(hits: seq<Hit>, key: string, from: nat, n: nat)
    requires from < n <= |hits|
    ensures |HitsOf(hits, key, from, n)| == |HitsOf(hits, key, from, n - 1)| + if hits[n - 1].key == key then 1 else 0
    ensures from == n - 1 ==> |HitsOf(hits, key, from, n - 1)| == 0
  {
    var before := HitsOf(hits, key, from, n - 1);
    assert HitsOf(hits, key, from, n) == if hits[n - 1].key == key then before + {n - 1} else before;
    assert from == n - 1 ==> before == {};
  }

  lemma {:induction false} AnswersAre(b: Buckets, l: Limit, hits: seq<Hit>, n: nat)
    requires n < |hits|
    ensures |Answers(b, l, hits)| == |hits|
    ensures Answers(b, l, hits)[n] == Allowed(AfterFrom(b, l, hits[..n]), l, hits[n])
    decreases |hits|
  {
    if n > 0 {
      AnswersAre(Count(b, l, hits[0]), l, hits[1..], n - 1);
      assert hits[..n][1..] == hits[1..][..n - 1] && hits[..n][0] == hits[0];
    } else {
      AnswersLength(Count(b, l, hits[0]), l, hits[1..]);
      assert hits[..0] == [];
    }
  }

  lemma {:induction false} AnswersLength(b: Buckets, l: Limit, hits: seq<Hit>)
    ensures |Answers(b, l, hits)| == |hits|
    decreases |hits|
  {
    if hits != [] { AnswersLength(Count(b, l, hits[0]), l, hits[1..]); }
  }

  function AfterFrom(b: Buckets, l: Limit, hits: seq<Hit>): Buckets
    decreases |hits|
  {
    if hits == [] then b else AfterFrom(Count(b, l, hits[0]), l, hits[1..])
  }

  lemma {:induction false} AfterFromSnoc(b: Buckets, l: Limit, hits: seq<Hit>, h: Hit)
    ensures AfterFrom(b, l, hits + [h]) == Count(AfterFrom(b, l, hits), l, h)
    decreases |hits|
  {
    if hits == [] {
      assert ([h])[1..] == [];
    } else {
      assert (hits + [h])[1..] == hits[1..] + [h];
      AfterFromSnoc(Count(b, l, hits[0]), l, hits[1..], h);
    }
  }

  lemma {:induction false} AfterSame(l: Limit, hits: seq<Hit>, n: nat)
    requires n <= |hits|
    ensures After(l, hits, n) == AfterFrom(map[], l, hits[..n])
  {
    if n > 0 {
      AfterSame(l, hits, n - 1);
      assert hits[..n] == hits[..n - 1] + [hits[n - 1]];
      AfterFromSnoc(map[], l, hits[..n - 1], hits[n - 1]);
    }
  }

  /** The code lets a hit through if and only if it is among the first `max` of its key since the hit that
      opened its window, whatever other keys do; for nondecreasing times and fewer than 2^32 hits per key
      and window. */
  lemma AllowedIff(l: Limit, hits: seq<Hit>, n: nat)
    requires Ordered(hits) && Fits(map[], l, hits) && n < |hits|
    ensures |AnswersSwept(map[], l, hits)| == |hits| && Opener(l, hits, hits[n].key, n + 1).Some?
    ensures AnswersSwept(map[], l, hits)[n] <==>
      |HitsOf(hits, hits[n].key, Opener(l, hits, hits[n].key, n + 1).value, n + 1)| <= l.max
  {
    var key := hits[n].key;
    SweepInvisibleFromStart(l, hits);
    AnswersAre(map[], l, hits, n);
    AfterSame(l, hits, n);
    AfterIs(l, hits, key, n + 1);
    AllowedCounts(After(l, hits, n), l, hits[n]);
  }

  lemma AllowedCounts(b: Buckets, l: Limit, h: Hit)
    ensures h.key in Count(b, l, h) && (Allowed(b, l, h) <==> Count(b, l, h)[h.key].count <= l.max)
  {
  }

  // ---------------------------------------------------------------- how many get through

  /** Accepted hits of `key` at times in `[from, from + window)`. */
  ghost function Accepted(b: Buckets, l: Limit, hits: seq<Hit>, key: string, from: nat): nat
    decreases |hits|
  {
    if hits == [] then 0 else
    (if hits[0].key == key && from <= hits[0].now < from + l.window && Allowed(b, l, hits[0]) then 1 else 0)
    + Accepted(Count(b, l, hits[0]), l, hits[1..], key, from)
  }

  /** What the key's own window can still accept. */
  ghost function Room(b: Buckets, l: Limit, key: string): nat {
    if key in b && b[key].count < l.max then l.max - b[key].count else 0
  }

  lemma {:induction false} NothingAfter(b: Buckets, l: Limit, hits: seq<Hit>, key: string, from: nat)
    requires forall i :: 0 <= i < |hits| ==> hits[i].now >= from + l.window
    ensures Accepted(b, l, hits, key, from) == 0
    decreases |hits|
  {
    if hits != [] {
      NothingAfter(Count(b, l, hits[0]), l, hits[1..], key, from);
    }
  }

  /** A window that starts inside the interval outlasts it. */
  lemma {:induction false} WindowInside(b: Buckets, l: Limit, hits: seq<Hit>, key: string, from: nat)
    requires Ordered(hits) && key in b && b[key].start >= from
    requires forall i :: 0 <= i < |hits| ==> hits[i].now >= b[key].start
    ensures Accepted(b, l, hits, key, from) <= Room(b, l, key)
    decreases |hits|
  {
    if hits != [] {
      var h := hits[0];
      if h.key == key && h.now >= b[key].start + l.window {
        NothingAfter(b, l, hits, key, from);
      } else {
        WindowInside(Count(b, l, h), l, hits[1..], key, from);
      }
    }
  }

  /** From the start of the interval on: what is left of the running window, then one more. */
  lemma {:induction false} TwoWindows(b: Buckets, l: Limit, hits: seq<Hit>, key: string, from: nat)
    requires Ordered(hits) && forall i :: 0 <= i < |hits| ==> hits[i].now >= from
    requires key in b && hits != [] ==> hits[0].now >= b[key].start
    ensures Accepted(b, l, hits, key, from) <= Room(b, l, key) + l.max
    decreases |hits|
  {
    if hits != [] {
      var h := hits[0];
      var c := Count(b, l, h);
      if h.key == key && Current(b, l, h) == Bucket(h.now, 0) {
        WindowInside(c, l, hits[1..], key, from);
      } else {
        TwoWindows(c, l, hits[1..], key, from);
      }
    }
  }

  /** A bucket is created by the hit it counts. */
  ghost predicate Opened(b: Buckets) {
    forall k :: k in b ==> b[k].count >= 1
  }

  lemma {:induction false} AcceptedBound(b: Buckets, l: Limit, hits: seq<Hit>, key: string, from: nat)
    requires Ordered(hits) && Opened(b)
    requires key in b && hits != [] ==> hits[0].now >= b[key].start
    ensures Accepted(b, l, hits, key, from) <= if l.max == 0 then 0 else 2 * l.max - 1
    decreases |hits|
  {
    if hits != [] {
      if hits[0].now >= from {
        TwoWindows(b, l, hits, key, from);
      } else {
        AcceptedBound(Count(b, l, hits[0]), l, hits[1..], key, from);
      }
    }
  }

  /** The same count over the answers of the code. */
  ghost function AcceptedSwept(b: Buckets, l: Limit, hits: seq<Hit>, key: string, from: nat): nat
    decreases |hits|
  {
    if hits == [] then 0 else
    (if hits[0].key == key && from <= hits[0].now < from + l.window && AllowedSwept(b, l, hits[0]) then 1 else 0)
    + AcceptedSwept(CountSwept(b, l, hits[0]), l, hits[1..], key, from)
  }

  lemma {:induction false} SweptAccepts(b: Buckets, r: Buckets, l: Limit, now: nat, hits: seq<Hit>, key: string, from: nat)
    requires Tracks(b, r, l, now) && Ordered(hits) && (hits != [] ==> now <= hits[0].now)
    requires Fits(r, l, hits)
    ensures AcceptedSwept(b, l, hits, key, from) == Accepted(r, l, hits, key, from)
    decreases |hits|
  {
    if hits != [] {
      var h := hits[0];
      TracksStep(b, r, l, now, h);
      SweptAccepts(CountSwept(b, l, h), Count(r, l, h), l, h.now, hits[1..], key, from);
    }
  }

  lemma SweptAcceptsFromStart(l: Limit, hits: seq<Hit>, key: string, from: nat)
    requires Ordered(hits) && Fits(map[], l, hits)
    ensures AcceptedSwept(map[], l, hits, key, from) == Accepted(map[], l, hits, key, from)
  {
    if hits != [] {
      SweptAccepts(map[], map[], l, hits[0].now, hits, key, from);
    }
  }

  /** Fewer than twice the cap is accepted for a key in any half-open interval one window long: the
      hit that opened the first of the two windows lies before the interval. */
  lemma FewerThanTwiceTheCap(l: Limit, hits: seq<Hit>, key: string, from: nat)
    requires Ordered(hits) && Fits(map[], l, hits)
    ensures AcceptedSwept(map[], l, hits, key, from) <= if l.max == 0 then 0 else 2 * l.max - 1
  {
    SweptAcceptsFromStart(l, hits, key, from);
    AcceptedBound(map[], l, hits, key, from);
  }

  // ---------------------------------------------------------------- the bound is met

  function Burst(key: string, now: nat, n: nat): seq<Hit> { seq(n, _ => Hit(key, now)) }

  /** A burst within a running window that has room for it is accepted whole. */
  lemma {:induction false} BurstAccepted(b: Buckets, l: Limit, key: string, now: nat, n: nat, rest: seq<Hit>, from: nat)
    requires key in b && b[key].start <= now < b[key].start + l.window && from <= now < from + l.window
    requires b[key].count + n <= l.max < U32
    ensures var c := b[key := Bucket(b[key].start, b[key].count + n)];
      && Accepted(b, l, Burst(key, now, n) + rest, key, from) == n + Accepted(c, l, rest, key, from)
      && (Fits(c, l, rest) ==> Fits(b, l, Burst(key, now, n) + rest))
    decreases n
  {
    var hits := Burst(key, now, n) + rest;
    if n == 0 {
      assert hits == rest && b[key := Bucket(b[key].start, b[key].count)] == b;
    } else {
      var d := b[key := Bucket(b[key].start, b[key].count + 1)];
      assert hits[0] == Hit(key, now) && hits[1..] == Burst(key, now, n - 1) + rest && Count(b, l, hits[0]) == d;
      BurstAccepted(d, l, key, now, n - 1, rest, from);
      assert d[key := Bucket(b[key].start, b[key].count + n)] == b[key := Bucket(b[key].start, b[key].count + n)];
    }
  }

  /** One hit opens a window, the rest of the cap comes at its last tick and a full cap at the next. */
  function Straddle(l: Limit, key: string): seq<Hit>
    requires l.max >= 1 && l.window >= 1
  {
    [Hit(key, 0)] + (Burst(key, l.window - 1, l.max - 1) + Burst(key, l.window, l.max))
  }

  /** For every cap and every window of at least two ticks the bound is met. */
  lemma BoundMet(l: Limit, key: string)
    requires 1 <= l.max < U32 && l.window >= 2
    ensures Ordered(Straddle(l, key)) && Fits(map[], l, Straddle(l, key))
    ensures AcceptedSwept(map[], l, Straddle(l, key), key, l.window - 1) == 2 * l.max - 1
  {
    StraddleOrdered(l, key);
    var from, hits := l.window - 1, Straddle(l, key);
    var running: Buckets := map[key := Bucket(0, 1)];
    assert hits[1..] == Burst(key, from, l.max - 1) + Burst(key, l.window, l.max) && Count(map[], l, hits[0]) == running;
    NextWindow(l, key);
    assert running[key := Bucket(0, l.max)] == map[key := Bucket(0, l.max)];
    BurstAccepted(running, l, key, from, l.max - 1, Burst(key, l.window, l.max), from);
    SweptAcceptsFromStart(l, hits, key, from);
  }

  lemma StraddleOrdered(l: Limit, key: string)
    requires l.max >= 1 && l.window >= 1
    ensures Ordered(Straddle(l, key))
  {
  }

  /** The second window accepts its full cap. */
  lemma NextWindow(l: Limit, key: string)
    requires 1 <= l.max < U32 && l.window >= 2
    ensures Accepted(map[key := Bucket(0, l.max)], l, Burst(key, l.window, l.max), key, l.window - 1) == l.max
    ensures Fits(map[key := Bucket(0, l.max)], l, Burst(key, l.window, l.max))
  {
    var hits, next: Buckets := Burst(key, l.window, l.max), map[key := Bucket(l.window, 1)];
    assert hits[1..] == Burst(key, l.window, l.max - 1) + [] && Count(map[key := Bucket(0, l.max)], l, hits[0]) == next;
    BurstAccepted(next, l, key, l.window, l.max - 1, [], l.window - 1);
  }
}
