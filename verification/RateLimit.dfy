/** The token bucket that paces outbound connections, over exact real arithmetic. */
module RateLimit {

  /** One granted acquire: when, how many tokens, and how many were left in the bucket. */
  datatype Grant = Grant(time: real, tokens: real, left: real)

  function Min(a: real, b: real): (r: real)
    ensures r <= a && r <= b && (r == a || r == b)
  {
    if a <= b then a else b
  }

  /** Tokens accrued from one instant to another. */
  function Gain(rate: real, from: real, to: real): real { (to - from) * rate }

  lemma GainLaws(rate: real, a: real, b: real, c: real)
    requires rate > 0.0 && a <= b <= c
    ensures 0.0 <= Gain(rate, a, b) <= Gain(rate, a, c)
    ensures Gain(rate, a, b) + Gain(rate, b, c) == Gain(rate, a, c)
  {
    assert (b - a) * rate >= 0.0 && (c - b) * rate >= 0.0;
    assert (c - a) * rate == (b - a) * rate + (c - b) * rate;
  }

  /** The tokens in the bucket at `now`. */
  function Refill(rate: real, capacity: real, tokens: real, last: real, now: real): real {
    Min(capacity, tokens + Gain(rate, last, now))
  }

  /** `time.monotonic` and `asyncio.sleep`: sleeping may take longer than asked. */
  class Clock {
    var now: real

    constructor (now: real)
      ensures this.now == now
    {
      this.now := now;
    }

    method Sleep(duration: real, oversleep: real)
      requires duration >= 0.0 && oversleep >= 0.0
      modifies this
      ensures now == old(now) + duration + oversleep
    {
      now := now + duration + oversleep;
    }
  }

  /** Each grant is paid for out of a full bucket, and out of what the one before it left
      plus the refill since. */
  ghost predicate Legal(rate: real, capacity: real, grants: seq<Grant>) {
    && (forall k :: 0 <= k < |grants| ==>
          0.0 <= grants[k].left && grants[k].tokens + grants[k].left <= capacity)
    && (forall k :: 0 < k < |grants| ==> Follows(rate, grants[k - 1], grants[k]))
  }

  predicate Follows(rate: real, g: Grant, h: Grant) {
    g.time <= h.time && h.tokens + h.left <= g.left + Gain(rate, g.time, h.time)
  }

  /** The bucket holds no more than its last grant left plus the refill since. */
  ghost predicate Paced(rate: real, capacity: real, tokens: real, last: real, grants: seq<Grant>) {
    && Legal(rate, capacity, grants)
    && (grants != [] ==> Follows(rate, grants[|grants| - 1], Grant(last, 0.0, tokens)))
  }

  lemma PacedRefill(rate: real, capacity: real, tokens: real, last: real, grants: seq<Grant>, now: real)
    requires Paced(rate, capacity, tokens, last, grants) && now >= last && rate > 0.0
    ensures Paced(rate, capacity, Refill(rate, capacity, tokens, last, now), now, grants)
  {
    if grants != [] {
      var g := grants[|grants| - 1];
      GainLaws(rate, g.time, last, now);
    }
  }

  lemma PacedGrant(rate: real, capacity: real, tokens: real, now: real, grants: seq<Grant>, amount: real)
    requires Paced(rate, capacity, tokens, now, grants) && amount <= tokens <= capacity
    ensures Paced(rate, capacity, tokens - amount, now, grants + [Grant(now, amount, tokens - amount)])
  {
  }

  class RateLimiter {
    const rate: real
    const capacity: real
    var tokens: real
    var last: real
    ghost var grants: seq<Grant>

    ghost predicate Valid()
      reads this
    {
      Paced(rate, capacity, tokens, last, grants)
    }

    constructor (rate: real, burst: real, clock: Clock)
      ensures this.rate == rate && capacity == burst && tokens == burst && last == clock.now
      ensures Valid() && grants == []
    {
      this.rate, capacity := rate, burst;
      tokens, last, grants := burst, clock.now, [];
    }

    /** Watched through at most `|oversleeps|` sleeps, each longer than asked by the given time; the
        loop itself has no end but a grant. A request the bucket can hold is granted at once or after
        one sleep, of exactly the deficit; a larger one is not, however long it is watched. */
    method Acquire(amount: real, clock: Clock, oversleeps: seq<real>) returns (granted: bool, sleeps: nat)
      requires Valid() && clock.now >= last && forall i :: 0 <= i < |oversleeps| ==> oversleeps[i] >= 0.0
      modifies this, clock
      ensures Valid()
      ensures rate <= 0.0 ==> granted && sleeps == 0 && grants == old(grants) && tokens == old(tokens)
                              && last == old(last) && clock.now == old(clock.now)
      ensures rate > 0.0 ==>
                var ready := Min(capacity, old(tokens) + (old(clock.now) - old(last)) * rate);
                && (granted <==> amount <= capacity && (amount <= ready || oversleeps != []))
                && (!granted ==> sleeps == |oversleeps| && grants == old(grants))
                && (granted ==> grants == old(grants) + [Grant(clock.now, amount, tokens)] && last == clock.now)
                && (granted && amount <= ready ==>
                      sleeps == 0 && clock.now == old(clock.now) && tokens == ready - amount)
                && (granted && amount > ready ==>
                      && sleeps == 1 && clock.now == old(clock.now) + (amount - ready) / rate + oversleeps[0]
                      && tokens == Min(capacity, amount + oversleeps[0] * rate) - amount)
    {
      if rate <= 0.0 { return true, 0; }
      Amounts(rate, last, clock.now, if oversleeps == [] then 0.0 else oversleeps[0]);
      granted, sleeps := AcquireLocked(amount, clock, oversleeps);
    }

    /** The loop, under the limiter's lock. */
    method AcquireLocked(amount: real, clock: Clock, oversleeps: seq<real>) returns (granted: bool, sleeps: nat)
      requires Valid() && rate > 0.0
      requires clock.now >= last && forall i :: 0 <= i < |oversleeps| ==> oversleeps[i] >= 0.0
      modifies this, clock
      ensures Valid()
      ensures var ready := Refill(rate, capacity, old(tokens), old(last), old(clock.now));
              && (granted <==> amount <= capacity && (amount <= ready || oversleeps != []))
              && (!granted ==> sleeps == |oversleeps| && grants == old(grants))
              && (granted ==> grants == old(grants) + [Grant(clock.now, amount, tokens)] && last == clock.now)
              && (granted && amount <= ready ==>
                    sleeps == 0 && clock.now == old(clock.now) && tokens == ready - amount)
              && (granted && amount > ready ==>
                    && sleeps == 1 && clock.now == old(clock.now) + Wait(rate, amount - ready) + oversleeps[0]
                    && tokens == Min(capacity, amount + Gain(rate, 0.0, oversleeps[0])) - amount)
    {
      sleeps := 0;
      ghost var start, ready := clock.now, Refill(rate, capacity, tokens, last, clock.now);
      while true
        invariant Valid() && grants == old(grants) && clock.now >= last && sleeps <= |oversleeps|
        invariant sleeps == 0 ==> clock.now == start && tokens == old(tokens) && last == old(last)
        invariant sleeps > 0 ==> ready < amount
        invariant sleeps == 1 ==> tokens == ready && last == start
                                  && clock.now == start + Wait(rate, amount - ready) + oversleeps[0]
        invariant sleeps > 1 ==> amount > capacity
        decreases |oversleeps| - sleeps
      {
        if sleeps == 1 && amount <= capacity { SleptEnough(rate, capacity, tokens, last, amount, oversleeps[0]); }
        granted := TryTake(amount, clock.now);
        if granted || sleeps == |oversleeps| { return; }
        var deficit := amount - tokens;
        WaitPositive(rate, deficit);
        clock.Sleep(Wait(rate, deficit), oversleeps[sleeps]);
        sleeps := sleeps + 1;
      }
    }

    /** One turn of the loop: a reading refills the bucket, and the tokens are taken if there. */
    method TryTake(amount: real, now: real) returns (granted: bool)
      requires Valid() && now >= last && rate > 0.0
      modifies this
      ensures Valid() && last == now
      ensures var ready := Refill(rate, capacity, old(tokens), old(last), now);
              && (granted <==> ready >= amount)
              && tokens == (if granted then ready - amount else ready)
      ensures grants == if granted then old(grants) + [Grant(now, amount, tokens)] else old(grants)
    {
      Read(now);
      granted := tokens >= amount;
      if granted { Take(amount); }
    }

    method Read(now: real)
      requires Valid() && now >= last && rate > 0.0
      modifies this`tokens, this`last
      ensures Valid() && last == now && tokens == Refill(rate, capacity, old(tokens), old(last), now)
    {
      PacedRefill(rate, capacity, tokens, last, grants, now);
      var elapsed := now - last;
      assert elapsed * rate == Gain(rate, last, now);
      last := now;
      tokens := Min(capacity, tokens + elapsed * rate);
    }

    method Take(amount: real)
      requires Valid() && amount <= tokens <= capacity
      modifies this`tokens, this`grants
      ensures Valid() && tokens == old(tokens) - amount && grants == old(grants) + [Grant(last, amount, tokens)]
    {
      PacedGrant(rate, capacity, tokens, last, grants, amount);
      tokens := tokens - amount;
      grants := grants + [Grant(last, amount, tokens)];
    }
  }

  /** How long to sleep for a deficit to accrue. */
  function Wait(rate: real, deficit: real): real
    requires rate > 0.0
  {
    deficit / rate
  }

  /** What accrues, written out. */
  lemma Amounts(rate: real, last: real, now: real, oversleep: real)
    ensures Gain(rate, 0.0, oversleep) == oversleep * rate
    ensures Gain(rate, last, now) == (now - last) * rate
  {
  }

  lemma WaitPositive(rate: real, deficit: real)
    requires rate > 0.0 && deficit > 0.0
    ensures Wait(rate, deficit) >= 0.0
  {
  }

  lemma SleptEnough(rate: real, capacity: real, tokens: real, last: real, amount: real, oversleep: real)
    requires rate > 0.0 && tokens < amount <= capacity && oversleep >= 0.0
    ensures var now := last + Wait(rate, amount - tokens) + oversleep;
            && now >= last
            && Refill(rate, capacity, tokens, last, now) == Min(capacity, amount + Gain(rate, 0.0, oversleep)) >= amount
  {
    var w := Wait(rate, amount - tokens);
    WaitPositive(rate, amount - tokens);
    GainLaws(rate, 0.0, oversleep, oversleep);
    GainLaws(rate, last, last + w, last + w + oversleep);
    assert w * rate == amount - tokens;
    assert Gain(rate, last, last + w) == w * rate;
    assert Gain(rate, last + w, last + w + oversleep) == oversleep * rate == Gain(rate, 0.0, oversleep);
  }

  // ---- the pacing law -------------------------------------------------------------------

  /** Tokens granted at times in `[s, t]`. */
  function InWindow(grants: seq<Grant>, s: real, t: real): real {
    if grants == [] then 0.0
    else
      var g := grants[|grants| - 1];
      InWindow(grants[..|grants| - 1], s, t) + if s <= g.time <= t then g.tokens else 0.0
  }

  /** A window's tokens are summed grant by grant. */
  lemma {:induction false} WindowSums(a: seq<Grant>, b: seq<Grant>, s: real, t: real)
    ensures InWindow(a + b, s, t) == InWindow(a, s, t) + InWindow(b, s, t)
    ensures forall g: Grant :: InWindow([g], s, t) == if s <= g.time && g.time <= t then g.tokens else 0.0
  {
    forall g: Grant ensures InWindow([g], s, t) == if s <= g.time && g.time <= t then g.tokens else 0.0 {
      assert [g][..0] == [];
    }
    if b == [] {
      assert a + b == a;
    } else {
      assert (a + b)[..|a + b| - 1] == a + b[..|b| - 1];
      WindowSums(a, b[..|b| - 1], s, t);
    }
  }

  /** The window's grants plus what the last of them left fit in a bucket refilled since `s`. */
  lemma {:induction false} WindowFits(rate: real, capacity: real, grants: seq<Grant>, s: real, t: real)
    requires Legal(rate, capacity, grants) && rate > 0.0 && s <= t && grants != [] && capacity >= 0.0
    ensures var g := grants[|grants| - 1];
            && (g.time < s ==> InWindow(grants, s, t) == 0.0)
            && (s <= g.time <= t ==> InWindow(grants, s, t) + g.left <= capacity + Gain(rate, s, g.time))
            && (g.time > t ==> InWindow(grants, s, t) <= capacity + Gain(rate, s, t))
  {
    var last := |grants| - 1;
    var g := grants[last];
    GainLaws(rate, s, t, t);
    if s <= g.time { GainLaws(rate, s, g.time, g.time); }
    if last > 0 {
      var f := grants[last - 1];
      assert grants[..last][last - 1] == f;
      WindowFits(rate, capacity, grants[..last], s, t);
      assert Follows(rate, f, g);
      if s <= f.time <= t {
        GainLaws(rate, s, f.time, g.time);
        GainLaws(rate, s, f.time, t);
      }
    }
  }

  /** Pacing: in every window `[s, t]`, at most a full bucket plus the refill is granted. */
  lemma WindowBound(rate: real, capacity: real, grants: seq<Grant>, s: real, t: real)
    requires Legal(rate, capacity, grants) && rate > 0.0 && s <= t && capacity >= 0.0
    ensures InWindow(grants, s, t) <= capacity + (t - s) * rate
  {
    GainLaws(rate, s, t, t);
    if grants != [] {
      WindowFits(rate, capacity, grants, s, t);
      var g := grants[|grants| - 1];
      if s <= g.time <= t { GainLaws(rate, s, g.time, t); }
    }
  }

  /** Unit acquires `i..j`, one after another: their number is paid for by the time between
      the first and the last. */
  lemma {:induction false} UnitRun(rate: real, capacity: real, grants: seq<Grant>, i: nat, j: nat)
    requires Legal(rate, capacity, grants) && rate > 0.0 && i <= j < |grants|
    requires forall m :: i <= m <= j ==> grants[m].tokens == 1.0
    ensures grants[i].time <= grants[j].time
    ensures (j - i + 1) as real + grants[j].left <= capacity + Gain(rate, grants[i].time, grants[j].time)
  {
    if i < j {
      UnitRun(rate, capacity, grants, i, j - 1);
      assert Follows(rate, grants[j - 1], grants[j]);
      GainLaws(rate, grants[i].time, grants[j - 1].time, grants[j].time);
    }
  }

  /** `k` consecutive unit acquires take at least `(k - capacity) / rate` seconds. */
  lemma UnitAcquiresTakeTime(rate: real, capacity: real, grants: seq<Grant>, i: nat, k: nat)
    requires Legal(rate, capacity, grants) && rate > 0.0 && k > 0 && i + k <= |grants|
    requires forall m :: i <= m < i + k ==> grants[m].tokens == 1.0
    ensures grants[i + k - 1].time - grants[i].time >= (k as real - capacity) / rate
  {
    UnitRun(rate, capacity, grants, i, i + k - 1);
    var d := grants[i + k - 1].time - grants[i].time;
    assert Gain(rate, grants[i].time, grants[i + k - 1].time) == d * rate;
    DivideBound(k as real - capacity, d, rate);
  }

  lemma DivideBound(x: real, d: real, rate: real)
    requires x <= d * rate && rate > 0.0
    ensures x / rate <= d
  {
    var q := x / rate;
    assert q * rate == x;
    assert (q - d) * rate <= 0.0;
  }

  // ---- exactness of the termination condition ------------------------------------------------

  /** The bucket after a sequence of clock readings none of which granted anything. */
  function Readings(rate: real, capacity: real, tokens: real, last: real, times: seq<real>): real {
    if times == [] then tokens
    else
      var front := times[..|times| - 1];
      Refill(rate, capacity, Readings(rate, capacity, tokens, last, front),
             if front == [] then last else front[|front| - 1], times[|times| - 1])
  }

  /** Some clock lets the loop return if and only if the bucket can hold the request. */
  lemma GrantedIffCapacity(rate: real, capacity: real, tokens: real, last: real, amount: real)
    requires rate > 0.0 && tokens <= capacity
    ensures (exists times :: times != [] && Readings(rate, capacity, tokens, last, times) >= amount) <==> amount <= capacity
  {
    if amount <= capacity {
      var times := [last + if amount <= tokens then 0.0 else Wait(rate, amount - tokens)];
      assert times[..0] == [];
      if amount > tokens { SleptEnough(rate, capacity, tokens, last, amount, 0.0); }
      assert Readings(rate, capacity, tokens, last, times) >= amount;
    }
    forall times: seq<real> | times != [] ensures Readings(rate, capacity, tokens, last, times) <= capacity {
    }
  }
}
