/**
 The rate limiter: one token bucket per key, and a sweep that forgets keys idle for more than ten minutes.
 Times are seconds; the buckets follow the documented rule of the Go rate package.
 */
module RateLimit {
  const IDLE := 600.0

  datatype Bucket = Bucket(tokens: real, last: real)
  datatype Entry = Entry(bucket: Bucket, seen: real)
  datatype Config = Config(rate: real, burst: int)

  type Limiters = map<string, Entry>

  /** The tokens of a bucket at time `t`: refilled at the rate, up to the burst. */
  function Level(cfg: Config, b: Bucket, t: real): real {
    var refilled := b.tokens + (if t > b.last then (t - b.last) * cfg.rate else 0.0);
    if refilled > cfg.burst as real then cfg.burst as real else refilled
  }

  function Full(cfg: Config, t: real): Bucket {
    Bucket(cfg.burst as real, t)
  }

  /** One event against a bucket; a refusal leaves it as it is. */
  function Draw(cfg: Config, b: Bucket, t: real): (bool, Bucket) {
    if Level(cfg, b, t) >= 1.0 then (true, Bucket(Level(cfg, b, t) - 1.0, t)) else (false, b)
  }

  function BucketOf(cfg: Config, l: Limiters, key: string, t: real): Bucket {
    if key in l then l[key].bucket else Full(cfg, t)
  }

  function Hit(cfg: Config, l: Limiters, key: string, t: real): (bool, Limiters) {
    var (ok, b) := Draw(cfg, BucketOf(cfg, l, key, t), t);
    (ok, l[key := Entry(b, t)])
  }

  function Sweep(l: Limiters, t: real): Limiters {
    map key | key in l && t - l[key].seen <= IDLE :: l[key]
  }

  /** The limiter as an object. */
  class Limiter {
    const cfg: Config
    var limiters: Limiters

    constructor (cfg: Config)
      ensures this.cfg == cfg && limiters == map[]
    {
      this.cfg := cfg;
      limiters := map[];
    }

    method Allow(key: string, now: real) returns (ok: bool)
      modifies this
      ensures (ok, limiters) == Hit(cfg, old(limiters), key, now)
    {
      if key !in limiters {
        limiters := limiters[key := Entry(Full(cfg, now), now)];
      }
      limiters := limiters[key := limiters[key].(seen := now)];
      var (allowed, bucket) := Draw(cfg, limiters[key].bucket, now);
      limiters := limiters[key := limiters[key].(bucket := bucket)];
      ok := allowed;
      assert limiters == Hit(cfg, old(limiters), key, now).1;
    }

    method Cleanup(now: real)
      modifies this
      ensures limiters == Sweep(old(limiters), now)
    {
      var left := limiters.Keys;
      while left != {}
        invariant left <= limiters.Keys <= old(limiters).Keys
        invariant forall key :: key in limiters ==> limiters[key] == old(limiters)[key]
        invariant forall key :: key in old(limiters) && key !in left ==>
                    (key in limiters <==> now - old(limiters)[key].seen <= IDLE)
        decreases left
      {
        var key :| key in left;
        left := left - {key};
        if now - limiters[key].seen > IDLE {
          limiters := limiters - {key};
        }
      }
    }
  }

  // ----- runs

  datatype Event = Request(key: string, at: real) | Tick(at: real)

  /** The answers of a run; without eviction the sweeps do nothing. */
  function Answers(cfg: Config, evict: bool, l: Limiters, events: seq<Event>): seq<bool>
    decreases |events|
  {
    if events == [] then []
    else
      match events[0]
      case Request(key, t) =>
        var (ok, next) := Hit(cfg, l, key, t);
        [ok] + Answers(cfg, evict, next, events[1..])
      case Tick(t) => Answers(cfg, evict, if evict then Sweep(l, t) else l, events[1..])
  }

  ghost predicate InOrder(events: seq<Event>, from: real) {
    events == [] || (events[0].at >= from && InOrder(events[1..], events[0].at))
  }

  /** A bucket as runs produce it: full from the start, or never negative; no newer than the key's last request. */
  ghost predicate Sound(cfg: Config, e: Entry, t: real) {
    && e.bucket.last <= e.seen <= t
    && e.bucket.tokens <= cfg.burst as real
    && (e.bucket.tokens >= 0.0 || e.bucket.tokens == cfg.burst as real)
  }

  ghost predicate AllSound(cfg: Config, l: Limiters, t: real) {
    forall key :: key in l ==> Sound(cfg, l[key], t)
  }

  /** From `t` on the two limiters hold the same tokens for a key. */
  ghost predicate Alike(cfg: Config, a: Limiters, b: Limiters, key: string, t: real) {
    forall later :: later >= t ==>
      Level(cfg, BucketOf(cfg, a, key, later), later) == Level(cfg, BucketOf(cfg, b, key, later), later)
  }

  ghost predicate Simulates(cfg: Config, a: Limiters, b: Limiters, t: real) {
    AllSound(cfg, a, t) && AllSound(cfg, b, t) && forall key :: Alike(cfg, a, b, key, t)
  }

  lemma FullIsFull(cfg: Config, t: real, later: real)
    requires cfg.rate >= 0.0 && later >= t
    ensures Level(cfg, Full(cfg, t), later) == cfg.burst as real
  {
    assert later > t ==> (later - t) * cfg.rate >= 0.0;
  }

  lemma LevelIsBounded(cfg: Config, e: Entry, t: real)
    requires cfg.rate >= 0.0 && Sound(cfg, e, t)
    ensures Level(cfg, e.bucket, t) <= cfg.burst as real
    ensures Level(cfg, e.bucket, t) >= 0.0 || Level(cfg, e.bucket, t) == cfg.burst as real
  {
    assert t > e.bucket.last ==> (t - e.bucket.last) * cfg.rate >= 0.0;
  }

  lemma HitKeepsSound(cfg: Config, l: Limiters, key: string, t: real, now: real)
    requires cfg.rate >= 0.0 && AllSound(cfg, l, t) && t <= now
    ensures AllSound(cfg, Hit(cfg, l, key, now).1, now)
  {
    var e := Entry(BucketOf(cfg, l, key, now), now);
    assert Sound(cfg, e, now);
    LevelIsBounded(cfg, e, now);
  }

  /** What a request leaves: one token less in the key's bucket if granted, every other level as it was. */
  lemma HitLevel(cfg: Config, l: Limiters, key: string, k: string, now: real, later: real)
    requires cfg.rate >= 0.0 && later >= now
    ensures var level := Level(cfg, BucketOf(cfg, l, key, now), now);
            Level(cfg, BucketOf(cfg, Hit(cfg, l, key, now).1, k, later), later)
            == if k == key && level >= 1.0 then Level(cfg, Bucket(level - 1.0, now), later)
               else Level(cfg, BucketOf(cfg, l, k, later), later)
  {
    FullIsFull(cfg, now, later);
    FullIsFull(cfg, later, later);
  }

  /** A request gets the same answer from both, and leaves them alike. */
  lemma HitSimulates(cfg: Config, a: Limiters, b: Limiters, key: string, t: real, now: real)
    requires cfg.rate >= 0.0 && Simulates(cfg, a, b, t) && t <= now
    ensures Hit(cfg, a, key, now).0 == Hit(cfg, b, key, now).0
    ensures Simulates(cfg, Hit(cfg, a, key, now).1, Hit(cfg, b, key, now).1, now)
  {
    HitKeepsSound(cfg, a, key, t, now);
    HitKeepsSound(cfg, b, key, t, now);
    assert Alike(cfg, a, b, key, t);
    assert Level(cfg, BucketOf(cfg, a, key, now), now) == Level(cfg, BucketOf(cfg, b, key, now), now);
    var a', b' := Hit(cfg, a, key, now).1, Hit(cfg, b, key, now).1;
    forall k ensures Alike(cfg, a', b', k, now) {
      assert Alike(cfg, a, b, k, t);
      forall later | later >= now
        ensures Level(cfg, BucketOf(cfg, a', k, later), later) == Level(cfg, BucketOf(cfg, b', k, later), later) {
        HitLevel(cfg, a, key, k, now, later);
        HitLevel(cfg, b, key, k, now, later);
        assert Level(cfg, BucketOf(cfg, a, k, later), later) == Level(cfg, BucketOf(cfg, b, k, later), later);
      }
    }
  }

  lemma ScaleUp(x: real, y: real, rate: real)
    requires x <= y && rate >= 0.0
    ensures x * rate <= y * rate
  {
    assert (y - x) * rate >= 0.0;
  }

  lemma RefillCovers(tokens: real, burst: real, gap: real, idle: real, rate: real)
    requires gap >= idle >= 0.0 && rate >= 0.0 && (burst <= idle * rate || burst <= 0.0)
    requires tokens >= 0.0 || tokens == burst
    ensures tokens + gap * rate >= burst
  {
    var extra := gap - idle;
    assert gap * rate == idle * rate + extra * rate;
    assert idle * rate >= 0.0 && extra * rate >= 0.0;
  }

  /** Ten idle minutes refill any bucket whose burst is at most ten minutes of the rate. */
  lemma IdleIsFull(cfg: Config, e: Entry, t: real, later: real)
    requires cfg.rate >= 0.0 && (cfg.burst as real <= IDLE * cfg.rate || cfg.burst <= 0)
    requires cfg.rate >= 0.0 && Sound(cfg, e, t) && t - e.seen > IDLE && later >= t
    ensures Level(cfg, e.bucket, later) == cfg.burst as real
  {
    RefillCovers(e.bucket.tokens, cfg.burst as real, later - e.bucket.last, IDLE, cfg.rate);
  }

  lemma SweepSimulates(cfg: Config, a: Limiters, b: Limiters, t: real, now: real)
    requires cfg.rate >= 0.0 && (cfg.burst as real <= IDLE * cfg.rate || cfg.burst <= 0)
    requires Simulates(cfg, a, b, t) && t <= now
    ensures Simulates(cfg, Sweep(a, now), b, now)
  {
    var a' := Sweep(a, now);
    forall key ensures Alike(cfg, a', b, key, now) {
      assert Alike(cfg, a, b, key, t);
      forall later | later >= now
        ensures Level(cfg, BucketOf(cfg, a', key, later), later) == Level(cfg, BucketOf(cfg, b, key, later), later) {
        if key in a && key !in a' {
          assert Sound(cfg, a[key], now);
          IdleIsFull(cfg, a[key], now, later);
          FullIsFull(cfg, later, later);
        }
      }
    }
  }

  lemma {:induction false} SimulatedAnswers(cfg: Config, a: Limiters, b: Limiters, events: seq<Event>, t: real)
    requires cfg.rate >= 0.0 && (cfg.burst as real <= IDLE * cfg.rate || cfg.burst <= 0)
    requires Simulates(cfg, a, b, t) && InOrder(events, t)
    ensures Answers(cfg, true, a, events) == Answers(cfg, false, b, events)
    decreases |events|
  {
    if events != [] {
      match events[0]
      case Request(key, now) =>
        HitSimulates(cfg, a, b, key, t, now);
        SimulatedAnswers(cfg, Hit(cfg, a, key, now).1, Hit(cfg, b, key, now).1, events[1..], now);
      case Tick(now) =>
        SweepSimulates(cfg, a, b, t, now);
        SimulatedAnswers(cfg, Sweep(a, now), b, events[1..], now);
    }
  }

  /** Every run of requests and sweeps is answered as if nothing were ever evicted. */
  ghost predicate Unobservable(cfg: Config) {
    forall events :: InOrder(events, 0.0) ==>
      Answers(cfg, true, map[], events) == Answers(cfg, false, map[], events)
  }

  // ----- how much is ever allowed

  /** The granted requests of one key in a run. */
  function Granted(cfg: Config, evict: bool, l: Limiters, events: seq<Event>, key: string): nat
    decreases |events|
  {
    if events == [] then 0
    else
      match events[0]
      case Request(k, t) =>
        var (ok, next) := Hit(cfg, l, k, t);
        (if ok && k == key then 1 else 0) + Granted(cfg, evict, next, events[1..], key)
      case Tick(t) => Granted(cfg, evict, if evict then Sweep(l, t) else l, events[1..], key)
  }

  function KeyLevel(cfg: Config, l: Limiters, key: string, t: real): real {
    Level(cfg, BucketOf(cfg, l, key, t), t)
  }

  /** What the rate adds in a stretch of time. */
  function Refill(cfg: Config, gap: real): real {
    gap * cfg.rate
  }

  lemma RefillAdds(cfg: Config, x: real, y: real)
    requires x >= 0.0 && y >= 0.0 && cfg.rate >= 0.0
    ensures Refill(cfg, x + y) == Refill(cfg, x) + Refill(cfg, y)
    ensures Refill(cfg, x) >= 0.0 && Refill(cfg, y) >= 0.0
  {
  }

  lemma LevelIs(cfg: Config, b: Bucket, t: real)
    requires b.last <= t
    ensures Level(cfg, b, t) ==
            var all := b.tokens + Refill(cfg, t - b.last);
            if all > cfg.burst as real then cfg.burst as real else all
  {
    assert t == b.last ==> Refill(cfg, t - b.last) == 0.0;
  }

  /** Later, a bucket that is no newer than `t` holds at most what the rate added since. */
  lemma LaterLevel(cfg: Config, b: Bucket, t: real, now: real)
    requires cfg.rate >= 0.0 && b.last <= t <= now
    ensures Level(cfg, b, now) <= Level(cfg, b, t) + Refill(cfg, now - t)
  {
    LevelIs(cfg, b, t);
    LevelIs(cfg, b, now);
    RefillAdds(cfg, t - b.last, now - t);
    assert (t - b.last) + (now - t) == now - b.last;
    hide Level;
    hide Refill;
  }

  /** A key that is not stored has the whole burst. */
  lemma NewKeyLevel(cfg: Config, l: Limiters, key: string, t: real)
    requires cfg.rate >= 0.0 && key !in l
    ensures KeyLevel(cfg, l, key, t) == cfg.burst as real
  {
    FullIsFull(cfg, t, t);
  }

  lemma LevelGrows(cfg: Config, l: Limiters, key: string, t: real, now: real)
    requires cfg.rate >= 0.0 && AllSound(cfg, l, t) && t <= now
    ensures KeyLevel(cfg, l, key, now) <= KeyLevel(cfg, l, key, t) + Refill(cfg, now - t)
  {
    hide Level;
    if key in l {
      LaterLevel(cfg, l[key].bucket, t, now);
      hide Refill;
    } else {
      NewKeyLevel(cfg, l, key, t);
      NewKeyLevel(cfg, l, key, now);
      RefillAdds(cfg, 0.0, now - t);
      hide Refill;
      hide KeyLevel;
    }
  }

  lemma HitSpends(cfg: Config, l: Limiters, k: string, key: string, now: real)
    requires cfg.rate >= 0.0
    ensures var (ok, next) := Hit(cfg, l, k, now);
            KeyLevel(cfg, next, key, now) == KeyLevel(cfg, l, key, now) - if ok && k == key then 1.0 else 0.0
  {
    HitLevel(cfg, l, k, key, now, now);
    FullIsFull(cfg, now, now);
  }

  lemma SweepKeepsLevel(cfg: Config, l: Limiters, key: string, now: real)
    requires cfg.rate >= 0.0 && cfg.burst as real <= IDLE * cfg.rate && AllSound(cfg, l, now)
    ensures AllSound(cfg, Sweep(l, now), now) && KeyLevel(cfg, Sweep(l, now), key, now) == KeyLevel(cfg, l, key, now)
  {
    if key in l && key !in Sweep(l, now) {
      IdleIsFull(cfg, l[key], now, now);
      FullIsFull(cfg, now, now);
    }
  }

  ghost predicate Before(events: seq<Event>, end: real) {
    forall i :: 0 <= i < |events| ==> events[i].at <= end
  }

  lemma NothingIsCovered(cfg: Config, l: Limiters, key: string, t: real, end: real)
    requires cfg.rate >= 0.0 && cfg.burst >= 0 && AllSound(cfg, l, t) && t <= end
    ensures 0.0 <= KeyLevel(cfg, l, key, t) + Refill(cfg, end - t)
  {
    RefillAdds(cfg, 0.0, end - t);
    hide Refill;
    hide Level;
    if key in l {
      LevelIsBounded(cfg, l[key], t);
    } else {
      NewKeyLevel(cfg, l, key, t);
    }
  }

  /** What the first event of a run grants to the key, and the limiter it leaves. */
  lemma FirstEvent(cfg: Config, evict: bool, l: Limiters, events: seq<Event>, key: string, t: real)
    returns (next: Limiters, spent: nat)
    requires events != [] && cfg.rate >= 0.0 && (evict ==> cfg.burst as real <= 600.0 * cfg.rate)
    requires AllSound(cfg, l, t) && t <= events[0].at
    ensures Granted(cfg, evict, l, events, key) == spent + Granted(cfg, evict, next, events[1..], key)
    ensures AllSound(cfg, next, events[0].at)
    ensures KeyLevel(cfg, next, key, events[0].at) == KeyLevel(cfg, l, key, events[0].at) - spent as real
  {
    var now := events[0].at;
    match events[0]
    case Request(k, _) =>
      HitSpends(cfg, l, k, key, now);
      HitKeepsSound(cfg, l, k, t, now);
      next := Hit(cfg, l, k, now).1;
      spent := if Hit(cfg, l, k, now).0 && k == key then 1 else 0;
    case Tick(_) =>
      if evict {
        SweepKeepsLevel(cfg, l, key, now);
      }
      next, spent := if evict then Sweep(l, now) else l, 0;
  }

  /** A key is granted at most the tokens it has and what the rate refills meanwhile. */
  lemma {:induction false} GrantsAreCovered(cfg: Config, evict: bool, l: Limiters, events: seq<Event>, key: string,
                                            t: real, end: real)
    requires cfg.rate >= 0.0 && cfg.burst >= 0 && (evict ==> cfg.burst as real <= 600.0 * cfg.rate)
    requires AllSound(cfg, l, t) && InOrder(events, t) && Before(events, end) && t <= end
    ensures Granted(cfg, evict, l, events, key) as real <= KeyLevel(cfg, l, key, t) + Refill(cfg, end - t)
    decreases |events|
  {
    hide KeyLevel;
    hide AllSound;
    hide Refill;
    if events == [] {
      NothingIsCovered(cfg, l, key, t, end);
    } else {
      var now := events[0].at;
      assert events[0].at <= end;
      assert forall i :: 0 <= i < |events[1..]| ==> events[1..][i] == events[i + 1];
      LevelGrows(cfg, l, key, t, now);
      var next, spent := FirstEvent(cfg, evict, l, events, key, t);
      hide Granted;
      GrantsAreCovered(cfg, evict, next, events[1..], key, now, end);
      RefillAdds(cfg, now - t, end - now);
      assert (now - t) + (end - now) == end - t;
    }
  }

  /**
   Between `t` and `end` a key is granted at most the burst and what the rate refills meanwhile; with eviction as well,
   when ten minutes refill the burst.
   */
  lemma AllowanceIsBounded(cfg: Config, evict: bool, l: Limiters, events: seq<Event>, key: string, t: real, end: real)
    requires cfg.rate >= 0.0 && cfg.burst >= 0 && (evict ==> cfg.burst as real <= 600.0 * cfg.rate)
    requires AllSound(cfg, l, t) && InOrder(events, t) && Before(events, end) && t <= end
    ensures Granted(cfg, evict, l, events, key) as real <= cfg.burst as real + Refill(cfg, end - t)
  {
    hide Refill;
    GrantsAreCovered(cfg, evict, l, events, key, t, end);
    assert KeyLevel(cfg, l, key, t) <= cfg.burst as real;
  }

  // ----- when eviction does show

  function Burst(n: nat, t: real): seq<Event> {
    if n == 0 then [] else [Request("k", t)] + Burst(n - 1, t)
  }

  lemma {:induction false} BurstInOrder(n: nat, t: real, rest: seq<Event>, from: real)
    requires from <= t && InOrder(rest, t)
    ensures InOrder(Burst(n, t) + rest, from)
    decreases n
  {
    if n == 0 {
      assert Burst(n, t) + rest == rest;
      assert rest != [] ==> rest[0].at >= from;
    } else {
      BurstInOrder(n - 1, t, rest, t);
      assert (Burst(n, t) + rest)[1..] == Burst(n - 1, t) + rest;
    }
  }

  /** The key's entry after `n` granted requests at `t`. */
  function Drained(cfg: Config, l: Limiters, n: nat, t: real): Limiters {
    l["k" := Entry(Bucket(Level(cfg, BucketOf(cfg, l, "k", t), t) - n as real, t), t)]
  }

  /** Enough tokens: the burst is granted, token by token. */
  lemma {:induction false} BurstGranted(cfg: Config, evict: bool, l: Limiters, n: nat, t: real, rest: seq<Event>)
    requires n > 0 && Level(cfg, BucketOf(cfg, l, "k", t), t) >= n as real
    ensures Answers(cfg, evict, l, Burst(n, t) + rest)
            == seq(n, i => true) + Answers(cfg, evict, Drained(cfg, l, n, t), rest)
    decreases n
  {
    var events := Burst(n, t) + rest;
    assert events[0] == Request("k", t) && events[1..] == Burst(n - 1, t) + rest;
    var next := Hit(cfg, l, "k", t).1;
    assert next == Drained(cfg, l, 1, t);
    if n == 1 {
      assert Burst(0, t) + rest == rest;
      assert seq(1, i => true) == [true];
    } else {
      assert Level(cfg, BucketOf(cfg, next, "k", t), t) == Level(cfg, BucketOf(cfg, l, "k", t), t) - 1.0;
      BurstGranted(cfg, evict, next, n - 1, t, rest);
      assert Drained(cfg, next, n - 1, t) == Drained(cfg, l, n, t);
      assert seq(n, i => true) == [true] + seq(n - 1, i => true);
    }
  }

  /** Too few tokens: somewhere in the burst a request is refused. */
  lemma {:induction false} BurstRefused(cfg: Config, evict: bool, l: Limiters, n: nat, t: real)
    requires n > 0 && Level(cfg, BucketOf(cfg, l, "k", t), t) < n as real
    ensures |Answers(cfg, evict, l, Burst(n, t))| == n && false in Answers(cfg, evict, l, Burst(n, t))
    decreases n
  {
    AnswersCount(cfg, evict, l, n, t);
    var next := Hit(cfg, l, "k", t).1;
    var level := Level(cfg, BucketOf(cfg, l, "k", t), t);
    assert Burst(n, t)[0] == Request("k", t) && Burst(n, t)[1..] == Burst(n - 1, t);
    if level >= 1.0 {
      assert Level(cfg, BucketOf(cfg, next, "k", t), t) == level - 1.0;
      BurstRefused(cfg, evict, next, n - 1, t);
    } else {
      assert !Answers(cfg, evict, l, Burst(n, t))[0];
    }
  }

  lemma {:induction false} AnswersCount(cfg: Config, evict: bool, l: Limiters, n: nat, t: real)
    ensures |Answers(cfg, evict, l, Burst(n, t))| == n
    decreases n
  {
    if n > 0 {
      assert Burst(n, t)[0] == Request("k", t) && Burst(n, t)[1..] == Burst(n - 1, t);
      AnswersCount(cfg, evict, Hit(cfg, l, "k", t).1, n - 1, t);
    }
  }

  lemma DivideBack(x: real, rate: real)
    requires rate > 0.0
    ensures x / rate * rate == x
  {
  }

  lemma ScaleUpStrictly(x: real, y: real, rate: real)
    requires x < y && rate > 0.0
    ensures x * rate < y * rate
  {
    assert (y - x) * rate > 0.0;
  }

  /** A time just past ten minutes at which an emptied bucket is not yet full again. */
  lemma TooSoon(cfg: Config) returns (t: real)
    requires cfg.rate >= 0.0 && cfg.burst > 0 && cfg.burst as real > IDLE * cfg.rate
    ensures t > IDLE && t * cfg.rate < cfg.burst as real
  {
    if cfg.rate == 0.0 {
      t := IDLE + 1.0;
    } else {
      var full := cfg.burst as real / cfg.rate;
      DivideBack(cfg.burst as real, cfg.rate);
      if full <= IDLE {
        ScaleUp(full, IDLE, cfg.rate);
      }
      t := (IDLE + full) / 2.0;
      ScaleUpStrictly(t, full, cfg.rate);
    }
  }

  /** Drain the key, let a sweep pass at `t`, drain it again. */
  function Probe(n: nat, t: real): seq<Event> {
    Burst(n, 0.0) + ([Tick(t)] + Burst(n, t))
  }

  lemma ProbeInOrder(n: nat, t: real)
    requires t >= 0.0
    ensures InOrder(Probe(n, t), 0.0)
  {
    BurstInOrder(n, t, [], t);
    assert Burst(n, t) + [] == Burst(n, t);
    assert ([Tick(t)] + Burst(n, t))[1..] == Burst(n, t);
    BurstInOrder(n, 0.0, [Tick(t)] + Burst(n, t), 0.0);
  }

  /** The first burst of the probe is granted, with or without eviction. */
  lemma ProbeStarts(cfg: Config, evict: bool, t: real)
    requires cfg.burst > 0
    ensures Answers(cfg, evict, map[], Probe(cfg.burst, t))
            == seq(cfg.burst as int, i => true)
               + Answers(cfg, evict, Drained(cfg, map[], cfg.burst, 0.0), [Tick(t)] + Burst(cfg.burst, t))
  {
    BurstGranted(cfg, evict, map[], cfg.burst, 0.0, [Tick(t)] + Burst(cfg.burst, t));
  }

  lemma AfterTick(cfg: Config, evict: bool, l: Limiters, t: real, rest: seq<Event>)
    ensures Answers(cfg, evict, l, [Tick(t)] + rest) == Answers(cfg, evict, if evict then Sweep(l, t) else l, rest)
  {
    assert ([Tick(t)] + rest)[1..] == rest;
  }

  /** Swept, the second burst is granted too; kept, it is not. */
  lemma ProbeDiffers(cfg: Config, t: real)
    requires cfg.burst > 0 && t > IDLE && t * cfg.rate < cfg.burst as real
    ensures Answers(cfg, true, map[], Burst(cfg.burst, t))
            != Answers(cfg, false, Drained(cfg, map[], cfg.burst, 0.0), Burst(cfg.burst, t))
  {
    var n := cfg.burst;
    var evicting := Answers(cfg, true, map[], Burst(n, t));
    BurstGranted(cfg, true, map[], n, t, []);
    assert Burst(n, t) + [] == Burst(n, t);
    assert evicting == seq(n, i => true);
    BurstRefused(cfg, false, Drained(cfg, map[], n, 0.0), n, t);
    assert false !in evicting;
  }

  /** Drain a key, wait just past ten minutes, drain it again: with a large burst the sweep shows. */
  lemma EvictionShows(cfg: Config)
    requires cfg.rate >= 0.0 && cfg.burst > 0 && cfg.burst as real > IDLE * cfg.rate
    ensures !Unobservable(cfg)
  {
    hide Level;
    var t := TooSoon(cfg);
    var n := cfg.burst;
    ProbeInOrder(n, t);
    var drained := Drained(cfg, map[], n, 0.0);
    assert Sweep(drained, t) == map[];
    ProbeStarts(cfg, true, t);
    ProbeStarts(cfg, false, t);
    AfterTick(cfg, true, drained, t, Burst(n, t));
    AfterTick(cfg, false, drained, t, Burst(n, t));
    ProbeDiffers(cfg, t);
    var first := seq(n, i => true);
    var evicting, keeping := Answers(cfg, true, map[], Burst(n, t)), Answers(cfg, false, drained, Burst(n, t));
    assert (first + evicting)[n..] == evicting && (first + keeping)[n..] == keeping;
  }

  /**
   Forgetting idle keys is unobservable exactly when ten minutes refill the whole burst, or when nothing is
   ever allowed.
   */
  lemma EvictionIsUnobservableIff(cfg: Config)
    requires cfg.rate >= 0.0
    ensures Unobservable(cfg) <==> cfg.burst <= 0 || cfg.burst as real <= 600.0 * cfg.rate
  {
    if cfg.burst <= 0 || cfg.burst as real <= IDLE * cfg.rate {
      forall events | InOrder(events, 0.0)
        ensures Answers(cfg, true, map[], events) == Answers(cfg, false, map[], events) {
        SimulatedAnswers(cfg, map[], map[], events, 0.0);
      }
    } else {
      EvictionShows(cfg);
    }
  }
}
