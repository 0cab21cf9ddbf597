/** The per-connection token bucket of the HTTP middleware, with its idle eviction.
    Token amounts and clock readings are reals; the clock never runs backwards. */
module Limiter {
  import opened Json

  datatype Bucket = Bucket(tokens: real, last: real)
  type Buckets = map<string, Bucket>

  /** Constructor arguments of the middleware. */
  datatype Config = Config(cap: nat, refill: real)

  datatype Request = Request(path: string, client: Option<string>, now: real)

  const EVICT_WHEN_OVER := 10_000
  const EVICT_IDLE_S := 3600.0

  predicate Exempt(r: Request) {
    r.path == "/healthz" || r.path == "/pubkey"
  }

  /** The bucket key is the connection source, never a request header. */
  function KeyOf(r: Request): string {
    match r.client
    case Some(host) => host
    case None => "anon"
  }

  function Min(x: real, y: real): real {
    if x <= y then x else y
  }

  /** Tokens gained over `dt` seconds. */
  function Gain(c: Config, dt: real): real {
    dt * c.refill
  }

  function Available(c: Config, bs: Buckets, key: string, now: real): real {
    var b := if key in bs then bs[key] else Bucket(c.cap as real, now);
    Min(c.cap as real, b.tokens + Gain(c, now - b.last))
  }

  function Evict(bs: Buckets, now: real): Buckets {
    if |bs| <= EVICT_WHEN_OVER then bs
    else map k | k in bs && !(bs[k].last < now - EVICT_IDLE_S) :: bs[k]
  }

  function Admits(c: Config, bs: Buckets, key: string, now: real): bool {
    Available(c, bs, key, now) >= 1.0
  }

  function Charge(c: Config, bs: Buckets, key: string, now: real): Buckets {
    var tokens := Available(c, bs, key, now);
    bs[key := Bucket(if tokens < 1.0 then tokens else tokens - 1.0, now)]
  }

  /** What one request does, in plain terms. Two paths are free. Any other is charged to the peer's
      host: above 10000 buckets those idle for more than an hour are forgotten first; a known bucket
      holds its tokens plus refill times the seconds since, up to the capacity, a new one the
      capacity; the request passes exactly when that is at least one, and then costs one. */
  ghost predicate Decides(c: Config, before: Buckets, r: Request, admitted: bool, after: Buckets) {
    if r.path == "/healthz" || r.path == "/pubkey" then admitted && after == before
    else
      var key := if r.client.Some? then r.client.value else "anon";
      var filled := if key in before && !Stale(before, key, r.now)
                    then Refilled(c, before[key], r.now) else c.cap as real;
      var tokens := if filled < c.cap as real then filled else c.cap as real;
      && (admitted <==> tokens >= 1.0)
      && key in after && after[key] == Bucket(if admitted then tokens - 1.0 else tokens, r.now)
      && forall k :: k != key ==>
           && (k in after <==> k in before && !Stale(before, k, r.now))
           && (k in after ==> after[k] == before[k])
  }

  /** Tokens plus refill for every second since. */
  ghost function Refilled(c: Config, b: Bucket, now: real): real {
    b.tokens + (now - b.last) * c.refill
  }

  ghost predicate Stale(bs: Buckets, k: string, now: real)
    requires k in bs
  {
    |bs| > 10_000 && bs[k].last < now - 3600.0
  }

  lemma StepDecides(c: Config, bs: Buckets, r: Request)
    ensures Decides(c, bs, r, Step(c, bs, r, true).0, Step(c, bs, r, true).1)
  {
    hide Gain, Refilled;
    if !Exempt(r) {
      var key := KeyOf(r);
      NoGain(c, r.now);
      if key in bs {
        RefilledIs(c, bs[key], r.now);
      }
    }
  }

  lemma NoGain(c: Config, now: real)
    ensures Gain(c, now - now) == 0.0
  {
  }

  lemma RefilledIs(c: Config, b: Bucket, now: real)
    ensures Refilled(c, b, now) == b.tokens + Gain(c, now - b.last)
  {
  }

  lemma GainIs(c: Config, dt: real)
    ensures Gain(c, dt) == c.refill * dt == dt * c.refill
  {
  }

  class TokenBucketLimiter {
    const config: Config
    var buckets: Buckets

    constructor (config: Config)
      ensures this.config == config && buckets == map[]
    {
      this.config := config;
      buckets := map[];
    }

    method EvictStale(now: real)
      modifies this
      ensures buckets == Evict(old(buckets), now)
      ensures forall k :: k in buckets <==> k in old(buckets) && !Stale(old(buckets), k, now)
      ensures forall k :: k in buckets ==> buckets[k] == old(buckets)[k]
    {
      if |buckets| <= EVICT_WHEN_OVER {
        return;
      }
      var cutoff := now - EVICT_IDLE_S;
      var stale := set k | k in buckets && buckets[k].last < cutoff;
      ghost var all := stale;
      while stale != {}
        invariant stale <= all
        invariant buckets == old(buckets) - (all - stale)
        decreases stale
      {
        var k :| k in stale;
        buckets := buckets - {k};
        stale := stale - {k};
      }
      assert buckets == old(buckets) - all;
    }

    /** True when the request reaches the application, false for a 429. */
    method Dispatch(r: Request) returns (admitted: bool)
      modifies this
      ensures (admitted, buckets) == Step(config, old(buckets), r, true)
      ensures Decides(config, old(buckets), r, admitted, buckets)
    {
      StepDecides(config, buckets, r);
      hide Decides;
      if Exempt(r) {
        return true;
      }
      var key := KeyOf(r);
      EvictStale(r.now);
      var b := if key in buckets then buckets[key] else Bucket(config.cap as real, r.now);
      var tokens := Min(config.cap as real, b.tokens + Gain(config, r.now - b.last));
      if tokens < 1.0 {
        buckets := buckets[key := Bucket(tokens, r.now)];
        return false;
      }
      buckets := buckets[key := Bucket(tokens - 1.0, r.now)];
      return true;
    }
  }

  // ---- runs ------------------------------------------------------------------

  /** One request, with or without the eviction pass. */
  function Step(c: Config, bs: Buckets, r: Request, evicting: bool): (bool, Buckets) {
    if Exempt(r) then (true, bs)
    else
      var kept := if evicting then Evict(bs, r.now) else bs;
      (Admits(c, kept, KeyOf(r), r.now), Charge(c, kept, KeyOf(r), r.now))
  }

  function StateAt(c: Config, reqs: seq<Request>, n: nat, evicting: bool): Buckets
    requires n <= |reqs|
  {
    if n == 0 then map[] else Step(c, StateAt(c, reqs, n - 1, evicting), reqs[n - 1], evicting).1
  }

  function Admitted(c: Config, reqs: seq<Request>, n: nat, evicting: bool): bool
    requires n < |reqs|
  {
    Step(c, StateAt(c, reqs, n, evicting), reqs[n], evicting).0
  }

  predicate Charged(r: Request, key: string) {
    !Exempt(r) && KeyOf(r) == key
  }

  /** Throttled requests of `key` among reqs[i..j] that got through. */
  function Count(c: Config, reqs: seq<Request>, key: string, i: nat, j: nat, evicting: bool): nat
    requires i <= j <= |reqs|
  {
    if i == j then 0
    else
      var hit := Charged(reqs[j - 1], key) && Admitted(c, reqs, j - 1, evicting);
      Count(c, reqs, key, i, j - 1, evicting) + (if hit then 1 else 0)
  }

  ghost predicate Monotone(reqs: seq<Request>) {
    forall i, j :: 0 <= i <= j < |reqs| ==> reqs[i].now <= reqs[j].now
  }

  ghost predicate Sound(c: Config, bs: Buckets, now: real) {
    forall k :: k in bs ==> 0.0 <= bs[k].tokens <= c.cap as real && bs[k].last <= now
  }

  lemma GainLaws(c: Config, x: real, y: real)
    requires 0.0 <= c.refill
    ensures Gain(c, 0.0) == 0.0
    ensures Gain(c, x + y) == Gain(c, x) + Gain(c, y)
    ensures x <= y ==> Gain(c, x) <= Gain(c, y)
  {
    assert (x + y) * c.refill == x * c.refill + y * c.refill;
  }

  /** Stored tokens stay within 0..capacity in every run. */
  lemma {:induction false} StoredTokensInRange(c: Config, reqs: seq<Request>, n: nat, t: real, evicting: bool)
    requires 0.0 <= c.refill && Monotone(reqs) && n <= |reqs|
    requires n > 0 ==> reqs[n - 1].now <= t
    ensures Sound(c, StateAt(c, reqs, n, evicting), t)
  {
    hide Gain;
    if n == 0 {
    } else {
      var r := reqs[n - 1];
      var bs := StateAt(c, reqs, n - 1, evicting);
      StoredTokensInRange(c, reqs, n - 1, r.now, evicting);
      if !Exempt(r) {
        var kept := if evicting then Evict(bs, r.now) else bs;
        assert Sound(c, kept, r.now);
        AvailableRange(c, kept, KeyOf(r), r.now);
      }
    }
  }

  lemma AvailableRange(c: Config, bs: Buckets, key: string, now: real)
    requires 0.0 <= c.refill && Sound(c, bs, now)
    ensures 0.0 <= Available(c, bs, key, now) <= c.cap as real
  {
    hide Gain;
    GainLaws(c, 0.0, 0.0);
    if key in bs {
      GainLaws(c, 0.0, now - bs[key].last);
    }
  }

  // ---- eviction is invisible -------------------------------------------------

  /** The evicting state agrees with the plain one except for buckets already full. */
  ghost predicate Sim(c: Config, e: Buckets, p: Buckets, now: real) {
    && (forall k :: k in e ==> k in p && e[k] == p[k])
    && (forall k :: k in p && k !in e ==> Available(c, p, k, now) == c.cap as real)
  }

  lemma SimLater(c: Config, e: Buckets, p: Buckets, now: real, t: real)
    requires 0.0 <= c.refill && Sim(c, e, p, now) && now <= t
    ensures Sim(c, e, p, t)
  {
    hide Gain;
    forall k | k in p && k !in e ensures Available(c, p, k, t) == c.cap as real {
      assert Available(c, p, k, now) == c.cap as real;
      GainLaws(c, now - p[k].last, t - p[k].last);
    }
  }

  lemma SimEvict(c: Config, e: Buckets, p: Buckets, now: real)
    requires 0.0 <= c.refill && c.cap as real <= Gain(c, EVICT_IDLE_S)
    requires Sim(c, e, p, now) && Sound(c, p, now)
    ensures Sim(c, Evict(e, now), p, now)
  {
    hide Gain;
    forall k | k in p && k !in Evict(e, now) ensures Available(c, p, k, now) == c.cap as real {
      if k in e {
        GainLaws(c, EVICT_IDLE_S, now - p[k].last);
      }
    }
  }

  lemma SimCharge(c: Config, e: Buckets, p: Buckets, key: string, now: real)
    requires 0.0 <= c.refill && Sim(c, e, p, now)
    ensures Admits(c, e, key, now) == Admits(c, p, key, now)
    ensures Sim(c, Charge(c, e, key, now), Charge(c, p, key, now), now)
  {
    hide Gain;
    GainLaws(c, 0.0, 0.0);
    assert Available(c, e, key, now) == Available(c, p, key, now);
    var p' := Charge(c, p, key, now);
    forall k | k in p' && k !in Charge(c, e, key, now) ensures Available(c, p', k, now) == c.cap as real {
      assert Available(c, p', k, now) == Available(c, p, k, now);
    }
  }

  lemma SimStep(c: Config, e: Buckets, p: Buckets, r: Request)
    requires 0.0 <= c.refill && c.cap as real <= Gain(c, EVICT_IDLE_S)
    requires Sim(c, e, p, r.now) && Sound(c, p, r.now)
    ensures Step(c, e, r, true).0 == Step(c, p, r, false).0
    ensures Sim(c, Step(c, e, r, true).1, Step(c, p, r, false).1, r.now)
  {
    hide Gain, Sim, Charge, Admits, Evict, Sound;
    if !Exempt(r) {
      SimEvict(c, e, p, r.now);
      SimCharge(c, Evict(e, r.now), p, KeyOf(r), r.now);
    }
  }

  lemma {:induction false} SimAlong(c: Config, reqs: seq<Request>, n: nat)
    requires 0.0 <= c.refill && c.cap as real <= Gain(c, EVICT_IDLE_S)
    requires Monotone(reqs) && n < |reqs|
    ensures Sim(c, StateAt(c, reqs, n, true), StateAt(c, reqs, n, false), reqs[n].now)
    ensures Admitted(c, reqs, n, true) == Admitted(c, reqs, n, false)
  {
    hide Gain;
    if n == 0 {
    } else {
      SimAlong(c, reqs, n - 1);
      StoredTokensInRange(c, reqs, n - 1, reqs[n - 1].now, false);
      var e, p := StateAt(c, reqs, n - 1, true), StateAt(c, reqs, n - 1, false);
      SimStep(c, e, p, reqs[n - 1]);
      SimLater(c, StateAt(c, reqs, n, true), StateAt(c, reqs, n, false), reqs[n - 1].now, reqs[n].now);
    }
    StoredTokensInRange(c, reqs, n, reqs[n].now, false);
    SimStep(c, StateAt(c, reqs, n, true), StateAt(c, reqs, n, false), reqs[n]);
  }

  /** One request of the run, unrolled. */
  lemma Unroll(c: Config, reqs: seq<Request>, key: string, i: nat, j: nat, evicting: bool)
    requires i < j <= |reqs|
    ensures StateAt(c, reqs, j, evicting) == Step(c, StateAt(c, reqs, j - 1, evicting), reqs[j - 1], evicting).1
    ensures Admitted(c, reqs, j - 1, evicting) == Step(c, StateAt(c, reqs, j - 1, evicting), reqs[j - 1], evicting).0
    ensures Count(c, reqs, key, i, j, evicting) == Count(c, reqs, key, i, j - 1, evicting)
      + if Charged(reqs[j - 1], key) && Admitted(c, reqs, j - 1, evicting) then 1 else 0
  {
    hide Step;
  }

  lemma CountNone(c: Config, reqs: seq<Request>, key: string, i: nat, evicting: bool)
    requires i <= |reqs|
    ensures Count(c, reqs, key, i, i, evicting) == 0
  {
    hide StateAt, Step;
  }

  // ---- rate bound ------------------------------------------------------------

  lemma Refill(c: Config, bs: Buckets, key: string, s: real, t: real)
    requires 0.0 <= c.refill && s <= t && Sound(c, bs, s)
    ensures Available(c, bs, key, t) <= Available(c, bs, key, s) + Gain(c, t - s)
  {
    hide Gain;
    if key in bs {
      GainLaws(c, s - bs[key].last, t - s);
    }
    GainLaws(c, 0.0, t - s);
  }

  /** An admitted request costs its key one token; any other request costs it nothing. */
  lemma Spend(c: Config, bs: Buckets, r: Request, key: string)
    requires 0.0 <= c.refill && Sound(c, bs, r.now)
    ensures Available(c, bs, key, r.now) == Available(c, Step(c, bs, r, false).1, key, r.now)
      + (if Charged(r, key) && Step(c, bs, r, false).0 then 1.0 else 0.0)
  {
    hide Gain;
    GainLaws(c, 0.0, 0.0);
    AvailableRange(c, bs, key, r.now);
  }

  lemma {:induction false} ConservedGain(c: Config, reqs: seq<Request>, key: string, i: nat, j: nat, t: real)
    requires 0.0 <= c.refill && Monotone(reqs) && i <= j <= |reqs| && i < |reqs|
    requires reqs[i].now <= t && (j > 0 ==> reqs[j - 1].now <= t)
    ensures Count(c, reqs, key, i, j, false) as real + Available(c, StateAt(c, reqs, j, false), key, t)
         <= Available(c, StateAt(c, reqs, i, false), key, reqs[i].now) + Gain(c, t - reqs[i].now)
    decreases j
  {
    hide Gain, Available, Step, Sound, StateAt, Count;
    if i == j {
      CountNone(c, reqs, key, i, false);
      StoredTokensInRange(c, reqs, i, reqs[i].now, false);
      Refill(c, StateAt(c, reqs, i, false), key, reqs[i].now, t);
    } else {
      var r := reqs[j - 1];
      var bs, bs' := StateAt(c, reqs, j - 1, false), StateAt(c, reqs, j, false);
      ConservedGain(c, reqs, key, i, j - 1, r.now);
      StoredTokensInRange(c, reqs, j - 1, r.now, false);
      StoredTokensInRange(c, reqs, j, r.now, false);
      Unroll(c, reqs, key, i, j, false);
      Spend(c, bs, r, key);
      Refill(c, bs', key, r.now, t);
      GainLaws(c, r.now - reqs[i].now, t - r.now);
    }
  }

  /** Admissions since request i plus the tokens left never exceed what was there plus the refill. */
  lemma Conserved(c: Config, reqs: seq<Request>, key: string, i: nat, j: nat, t: real)
    requires 0.0 <= c.refill && Monotone(reqs) && i <= j <= |reqs| && i < |reqs|
    requires reqs[i].now <= t && (j > 0 ==> reqs[j - 1].now <= t)
    ensures Count(c, reqs, key, i, j, false) as real + Available(c, StateAt(c, reqs, j, false), key, t)
         <= Available(c, StateAt(c, reqs, i, false), key, reqs[i].now) + c.refill * (t - reqs[i].now)
  {
    hide Gain, Count, Available, StateAt;
    ConservedGain(c, reqs, key, i, j, t);
    GainIs(c, t - reqs[i].now);
  }

  lemma {:induction false} SameCount(c: Config, reqs: seq<Request>, key: string, i: nat, j: nat)
    requires 0.0 <= c.refill && c.cap as real <= Gain(c, EVICT_IDLE_S)
    requires Monotone(reqs) && i <= j <= |reqs|
    ensures Count(c, reqs, key, i, j, true) == Count(c, reqs, key, i, j, false)
  {
    hide Gain, Count, Sim, StateAt, Admitted, Step;
    if i < j {
      SameCount(c, reqs, key, i, j - 1);
      SimAlong(c, reqs, j - 1);
      Unroll(c, reqs, key, i, j, true);
      Unroll(c, reqs, key, i, j, false);
    } else {
      CountNone(c, reqs, key, i, true);
      CountNone(c, reqs, key, i, false);
    }
  }

  // ---- the exact condition ---------------------------------------------------

  ghost predicate EvictionInvisible(c: Config) {
    forall reqs: seq<Request>, n :: Monotone(reqs) && 0 <= n < |reqs| ==>
      Admitted(c, reqs, n, true) == Admitted(c, reqs, n, false)
  }

  /** Every window admits at most capacity + refill * length requests of one key. */
  ghost predicate RateBounded(c: Config) {
    forall reqs: seq<Request>, key, i, j :: Monotone(reqs) && 0 <= i < j <= |reqs| ==>
      Count(c, reqs, key, i, j, true) as real <= c.cap as real + c.refill * (reqs[j - 1].now - reqs[i].now)
  }

  function Stranger(m: nat): string {
    seq(m, _ => 'x')
  }

  /** Key "" drains its bucket at time 0, 10000 strangers arrive, and "" returns at time t. */
  function Flood(c: Config, t: real): seq<Request> {
    seq(c.cap + EVICT_WHEN_OVER + c.cap, n =>
      if n < c.cap then Request("/verify", Some(""), 0.0)
      else if n < c.cap + EVICT_WHEN_OVER then Request("/verify", Some(Stranger(n - c.cap + 1)), 0.0)
      else Request("/verify", Some(""), t))
  }

  function Crowd(c: Config, m: nat): (bs: Buckets)
    ensures |bs| == m + 1 && "" in bs && bs[""] == Bucket(0.0, 0.0)
    ensures forall k :: k in bs ==> |k| <= m && bs[k].last == 0.0
  {
    if m == 0 then map["" := Bucket(0.0, 0.0)]
    else Crowd(c, m - 1)[Stranger(m) := Bucket(c.cap as real - 1.0, 0.0)]
  }

  lemma FloodAt(c: Config, t: real, n: nat)
    requires n < c.cap + EVICT_WHEN_OVER + c.cap
    ensures |Flood(c, t)| == c.cap + EVICT_WHEN_OVER + c.cap
    ensures n < c.cap ==> Flood(c, t)[n] == Request("/verify", Some(""), 0.0)
    ensures c.cap <= n < c.cap + EVICT_WHEN_OVER ==>
      Flood(c, t)[n] == Request("/verify", Some(Stranger(n - c.cap + 1)), 0.0)
    ensures c.cap + EVICT_WHEN_OVER <= n ==> Flood(c, t)[n] == Request("/verify", Some(""), t)
  {}

  lemma Empty(c: Config, reqs: seq<Request>, evicting: bool)
    ensures StateAt(c, reqs, 0, evicting) == map[]
  {
  }

  /** One more request of "" at the same moment, when only its bucket exists or none does. */
  lemma Sip(c: Config, bs: Buckets, left: nat, t: real, evicting: bool)
    requires 0.0 <= c.refill && 0 < left <= c.cap
    requires bs == map["" := Bucket(left as real, t)] || (bs == map[] && left == c.cap)
    ensures Step(c, bs, Request("/verify", Some(""), t), evicting) == (true, map["" := Bucket((left - 1) as real, t)])
  {
    hide Gain;
    GainLaws(c, 0.0, 0.0);
    assert Evict(bs, t) == bs;
    assert Available(c, bs, "", t) == left as real;
    assert bs["" := Bucket((left - 1) as real, t)] == map["" := Bucket((left - 1) as real, t)];
  }

  lemma {:induction false} Drain(c: Config, t: real, n: nat, evicting: bool)
    requires 0.0 <= c.refill && 0 < n <= c.cap
    ensures StateAt(c, Flood(c, t), n, evicting) == map["" := Bucket((c.cap - n) as real, 0.0)]
    ensures Count(c, Flood(c, t), "", 0, n, evicting) == n
  {
    hide Gain, Flood, Count, StateAt, Step;
    FloodAt(c, t, n - 1);
    Unroll(c, Flood(c, t), "", 0, n, evicting);
    if n > 1 {
      Drain(c, t, n - 1, evicting);
      Sip(c, map["" := Bucket((c.cap - n + 1) as real, 0.0)], c.cap - n + 1, 0.0, evicting);
    } else {
      CountNone(c, Flood(c, t), "", 0, evicting);
      Empty(c, Flood(c, t), evicting);
      Sip(c, map[], c.cap, 0.0, evicting);
    }
  }

  lemma {:induction false} Gather(c: Config, t: real, m: nat, evicting: bool)
    requires 0.0 <= c.refill && 0 < c.cap && m <= EVICT_WHEN_OVER
    ensures StateAt(c, Flood(c, t), c.cap + m, evicting) == Crowd(c, m)
    ensures Count(c, Flood(c, t), "", 0, c.cap + m, evicting) == c.cap
  {
    hide Gain, Flood, Stranger, Count, StateAt, Step, Crowd;
    FloodAt(c, t, c.cap + EVICT_WHEN_OVER);
    if m == 0 {
      Drain(c, t, c.cap, evicting);
      CrowdOfOne(c);
    } else {
      Gather(c, t, m - 1, evicting);
      Unroll(c, Flood(c, t), "", 0, c.cap + m, evicting);
      FloodAt(c, t, c.cap + m - 1);
      NewStranger(c, m, evicting);
    }
  }

  lemma CrowdOfOne(c: Config)
    ensures Crowd(c, 0) == map["" := Bucket(0.0, 0.0)]
  {}

  lemma CrowdGrows(c: Config, m: nat)
    requires 0 < m
    ensures Stranger(m) != "" && Stranger(m) !in Crowd(c, m - 1)
    ensures Crowd(c, m) == Crowd(c, m - 1)[Stranger(m) := Bucket(c.cap as real - 1.0, 0.0)]
  {
    assert |Stranger(m)| == m;
  }

  lemma FirstCharge(c: Config, bs: Buckets, key: string)
    requires 0.0 <= c.refill && 0 < c.cap && key !in bs
    ensures Charge(c, bs, key, 0.0) == bs[key := Bucket(c.cap as real - 1.0, 0.0)]
  {
    hide Gain;
    GainLaws(c, 0.0, 0.0);
  }

  lemma NewStranger(c: Config, m: nat, evicting: bool)
    requires 0.0 <= c.refill && 0 < c.cap && 0 < m <= EVICT_WHEN_OVER
    ensures Stranger(m) != ""
    ensures Step(c, Crowd(c, m - 1), Request("/verify", Some(Stranger(m)), 0.0), evicting).1 == Crowd(c, m)
  {
    hide Gain, Charge, Stranger, Crowd, Admits;
    CrowdGrows(c, m);
    assert Evict(Crowd(c, m - 1), 0.0) == Crowd(c, m - 1);
    FirstCharge(c, Crowd(c, m - 1), Stranger(m));
  }

  /** The crowd is over the threshold and idle for more than an hour: all of it goes. */
  lemma Evicted(c: Config, t: real)
    requires EVICT_IDLE_S < t
    ensures var r := Request("/verify", Some(""), t);
      Step(c, Crowd(c, EVICT_WHEN_OVER), r, true) == Step(c, map[], r, true)
  {
    hide Crowd, Charge, Admits;
    assert Evict(Crowd(c, EVICT_WHEN_OVER), t) == map[];
  }

  /** After the eviction the returning key finds a full bucket again. */
  lemma {:induction false} Return(c: Config, t: real, m: nat)
    requires 0.0 <= c.refill && 0 < m <= c.cap && EVICT_IDLE_S < t
    ensures StateAt(c, Flood(c, t), c.cap + EVICT_WHEN_OVER + m, true) == map["" := Bucket((c.cap - m) as real, t)]
    ensures Count(c, Flood(c, t), "", c.cap + EVICT_WHEN_OVER, c.cap + EVICT_WHEN_OVER + m, true) == m
    ensures Count(c, Flood(c, t), "", 0, c.cap + EVICT_WHEN_OVER + m, true) == c.cap + m
  {
    hide Gain, Flood, Crowd, Count, StateAt, Step;
    var n := c.cap + EVICT_WHEN_OVER;
    FloodAt(c, t, n + m - 1);
    Unroll(c, Flood(c, t), "", n, n + m, true);
    Unroll(c, Flood(c, t), "", 0, n + m, true);
    if m == 1 {
      Gather(c, t, EVICT_WHEN_OVER, true);
      CountNone(c, Flood(c, t), "", n, true);
      Evicted(c, t);
      Sip(c, map[], c.cap, t, true);
    } else {
      Return(c, t, m - 1);
      Sip(c, map["" := Bucket((c.cap - m + 1) as real, t)], c.cap - m + 1, t, true);
    }
  }

  lemma Exceeds(c: Config, reqs: seq<Request>, key: string, j: nat)
    requires Monotone(reqs) && 0 < j <= |reqs|
    requires Count(c, reqs, key, 0, j, true) as real > c.cap as real + Gain(c, reqs[j - 1].now - reqs[0].now)
    ensures !RateBounded(c)
  {
    hide Gain, Count;
    GainIs(c, reqs[j - 1].now - reqs[0].now);
  }

  lemma FloodExceeds(c: Config, t: real)
    requires 0.0 <= c.refill && EVICT_IDLE_S < t && Gain(c, t) < c.cap as real
    ensures !EvictionInvisible(c) && !RateBounded(c)
  {
    hide Gain, Flood, Crowd, StateAt, Count, RateBounded, Step;
    GainLaws(c, 0.0, t);
    var reqs, n := Flood(c, t), c.cap + EVICT_WHEN_OVER;
    var end := n + c.cap;
    FloodAt(c, t, end - 1);
    forall i | 0 <= i < end ensures reqs[i].now == if i < n then 0.0 else t {
      FloodAt(c, t, i);
    }
    Return(c, t, c.cap);
    Gather(c, t, EVICT_WHEN_OVER, false);
    ConservedGain(c, reqs, "", n, end, t);
    StoredTokensInRange(c, reqs, end, t, false);
    AvailableRange(c, StateAt(c, reqs, end, false), "", t);
    assert Count(c, reqs, "", n, end, true) > Count(c, reqs, "", n, end, false);
    if EvictionInvisible(c) {
      CountsAgree(c, reqs, "", n, end);
    }
    Exceeds(c, reqs, "", end);
  }

  lemma {:induction false} CountsAgree(c: Config, reqs: seq<Request>, key: string, i: nat, j: nat)
    requires EvictionInvisible(c) && Monotone(reqs) && i <= j <= |reqs|
    ensures Count(c, reqs, key, i, j, true) == Count(c, reqs, key, i, j, false)
  {
    hide Gain, StateAt, Step;
    if i == j {
    } else {
      CountsAgree(c, reqs, key, i, j - 1);
    }
  }

  /** The plain limiter keeps the rate bound, whatever its numbers. */
  lemma Window(c: Config, reqs: seq<Request>, key: string, i: nat, j: nat)
    requires 0.0 <= c.refill && Monotone(reqs) && i < j <= |reqs|
    ensures Count(c, reqs, key, i, j, false) as real <= c.cap as real + c.refill * (reqs[j - 1].now - reqs[i].now)
  {
    hide Gain, Count, StateAt, Available, Sound;
    var t := reqs[j - 1].now;
    ConservedGain(c, reqs, key, i, j, t);
    StoredTokensInRange(c, reqs, i, reqs[i].now, false);
    StoredTokensInRange(c, reqs, j, t, false);
    AvailableRange(c, StateAt(c, reqs, i, false), key, reqs[i].now);
    AvailableRange(c, StateAt(c, reqs, j, false), key, t);
    GainIs(c, t - reqs[i].now);
  }

  /** Eviction changes no decision, and the rate bound holds, exactly when an idle hour refills a bucket. */
  lemma InvisibleIff(c: Config)
    requires 0.0 <= c.refill
    ensures EvictionInvisible(c) <==> c.cap as real <= c.refill * 3600.0
    ensures RateBounded(c) <==> c.cap as real <= c.refill * 3600.0
  {
    hide Gain, Count, Step, StateAt;
    GainIs(c, EVICT_IDLE_S);
    if c.cap as real <= Gain(c, EVICT_IDLE_S) {
      forall reqs: seq<Request>, n | Monotone(reqs) && 0 <= n < |reqs|
        ensures Admitted(c, reqs, n, true) == Admitted(c, reqs, n, false)
      {
        SimAlong(c, reqs, n);
      }
      forall reqs: seq<Request>, key, i, j | Monotone(reqs) && 0 <= i < j <= |reqs|
        ensures Count(c, reqs, key, i, j, true) as real <= c.cap as real + c.refill * (reqs[j - 1].now - reqs[i].now)
      {
        SameCount(c, reqs, key, i, j);
        Window(c, reqs, key, i, j);
      }
    } else {
      var t := Midpoint(c);
      FloodExceeds(c, t);
    }
  }

  lemma Midpoint(c: Config) returns (t: real)
    requires 0.0 <= c.refill && Gain(c, EVICT_IDLE_S) < c.cap as real
    ensures EVICT_IDLE_S < t && Gain(c, t) < c.cap as real
  {
    if c.refill == 0.0 {
      t := EVICT_IDLE_S + 1.0;
    } else {
      var gap := c.cap as real - c.refill * EVICT_IDLE_S;
      t := EVICT_IDLE_S + gap / (2.0 * c.refill);
      assert gap / (2.0 * c.refill) * c.refill == gap / 2.0;
      assert t * c.refill == EVICT_IDLE_S * c.refill + gap / (2.0 * c.refill) * c.refill;
      assert gap / (2.0 * c.refill) > 0.0;
    }
  }

  /** The deployed limiter (120 tokens, 10 per second) meets the condition. */
  lemma DeployedLimiter()
    ensures EvictionInvisible(Config(120, 10.0)) && RateBounded(Config(120, 10.0))
  {
    InvisibleIff(Config(120, 10.0));
  }
}
