/** The token-bucket limiter of the share endpoints. Times are seconds and units are reals. */
module RateLimit {
  type Key = string

  datatype Bucket = Bucket(tokens: real, last: real)

  datatype Request = Request(key: Key, n: real, at: real)

  const SWEEP_EVERY: real := 60.0
  const MANY_KEYS := 50_000

  function Least(a: real, b: real): real { if a <= b then a else b }

  // ---- a limiter that never drops a key -------------------------------------------------------

  /** Rate and burst of a limiter. */
  datatype Limits = Limits(rate: real, burst: real)

  predicate Sensible(l: Limits) { l.rate >= 0.0 && l.burst >= 0.0 }

  function Refilled(l: Limits, b: Bucket, t: real): real { Least(l.burst, b.tokens + (t - b.last) * l.rate) }

  /** What a key has at time t; a key that was never seen has the whole burst. */
  function Level(l: Limits, buckets: map<Key, Bucket>, key: Key, t: real): real {
    if key in buckets then Refilled(l, buckets[key], t) else l.burst
  }

  function Take(l: Limits, buckets: map<Key, Bucket>, r: Request): map<Key, Bucket> {
    var have := Level(l, buckets, r.key, r.at);
    buckets[r.key := Bucket(if r.n > have then have else have - r.n, r.at)]
  }

  /** The buckets of a limiter that keeps every key, after some requests. */
  function Kept(l: Limits, requests: seq<Request>): map<Key, Bucket>
    decreases |requests|
  {
    if requests == [] then map[] else Take(l, Kept(l, requests[..|requests| - 1]), requests[|requests| - 1])
  }

  /** Its answer to the i-th request. */
  predicate Granted(l: Limits, requests: seq<Request>, i: nat)
    requires i < |requests|
  {
    requests[i].n <= Level(l, Kept(l, requests[..i]), requests[i].key, requests[i].at)
  }

  predicate InOrder(requests: seq<Request>) {
    forall i, j :: 0 <= i < j < |requests| ==> requests[i].at <= requests[j].at
  }

  // ---- what refilling means -------------------------------------------------------------------

  /** What time adds, in one piece or in two. */
  lemma Gains(rate: real, t0: real, t1: real, t2: real)
    requires rate >= 0.0 && t1 <= t2
    ensures (t2 - t1) * rate >= 0.0
    ensures (t2 - t0) * rate == (t1 - t0) * rate + (t2 - t1) * rate
  {
  }

  lemma RefilledFrom(l: Limits, tokens: real, last: real, t: real, gain: real)
    requires gain == (t - last) * l.rate
    ensures Refilled(l, Bucket(tokens, last), t) == Least(l.burst, tokens + gain)
  {
  }

  /** Refilling once is refilling twice. */
  lemma Later(l: Limits, b: Bucket, t: real, later: real, gain: real)
    requires Sensible(l) && t <= later && gain == (later - t) * l.rate
    ensures gain >= 0.0
    ensures Refilled(l, b, later) == Least(l.burst, Refilled(l, b, t) + gain)
    ensures Refilled(l, b, t) <= Refilled(l, b, later) <= Refilled(l, b, t) + gain
  {
    Gains(l.rate, b.last, t, later);
    RefilledFrom(l, b.tokens, b.last, t, (t - b.last) * l.rate);
    RefilledFrom(l, b.tokens, b.last, later, (t - b.last) * l.rate + gain);
  }

  /** Full again: it carries no information. */
  predicate Full(l: Limits, b: Bucket, now: real) { b.tokens + (now - b.last) * l.rate >= l.burst }

  lemma FullStaysFull(l: Limits, b: Bucket, now: real)
    requires Sensible(l)
    ensures Full(l, b, now) <==> Refilled(l, b, now) >= l.burst
    ensures Full(l, b, now) ==> forall t: real :: t >= now ==> Refilled(l, b, t) == l.burst
  {
    if Full(l, b, now) {
      forall t: real | t >= now ensures Refilled(l, b, t) == l.burst { Later(l, b, now, t, (t - now) * l.rate); }
    }
  }

  // ---- the limiter ----------------------------------------------------------------------------

  /** From now on both maps say the same of every key. */
  ghost predicate Alike(l: Limits, xs: map<Key, Bucket>, ys: map<Key, Bucket>, now: real) {
    forall key: Key, t: real :: t >= now ==> Level(l, xs, key, t) == Level(l, ys, key, t)
  }

  class Limiter {
    const limits: Limits
    var buckets: map<Key, Bucket>
    var lastSweep: real

    constructor (perMinute: real, burst: real, never: real)
      requires perMinute >= 0.0 && burst >= 0.0
      ensures limits == Limits(perMinute / 60.0, burst) && buckets == map[] && lastSweep == never
    {
      limits := Limits(perMinute / 60.0, burst);
      buckets, lastSweep := map[], never;
    }

    /** Drops keys that are full again; nothing that can be asked from now on changes by it. */
    method Sweep(now: real)
      requires Sensible(limits)
      modifies this
      ensures Alike(limits, buckets, old(buckets), now)
      ensures buckets.Keys <= old(buckets.Keys)
      ensures now - old(lastSweep) >= SWEEP_EVERY || |old(buckets)| >= MANY_KEYS ==>
        lastSweep == now && forall key :: key in buckets ==> Level(limits, buckets, key, now) < limits.burst
    {
      if now - lastSweep < SWEEP_EVERY && |buckets| < MANY_KEYS { return; }
      lastSweep := now;
      var keys := buckets.Keys;
      while keys != {}
        invariant lastSweep == now && keys <= old(buckets.Keys) && buckets.Keys <= old(buckets.Keys)
        invariant forall key :: key in buckets ==> buckets[key] == old(buckets)[key]
        invariant forall key :: key in keys ==> key in buckets
        invariant forall key :: key in old(buckets) && key !in keys ==>
            (key in buckets <==> !Full(limits, old(buckets)[key], now))
        decreases |keys|
      {
        var key :| key in keys;
        if Full(limits, buckets[key], now) { buckets := buckets - {key}; }
        keys := keys - {key};
      }
      forall key: Key, t: real | t >= now
        ensures Level(limits, buckets, key, t) == Level(limits, old(buckets), key, t)
      {
        if key in old(buckets) { FullStaysFull(limits, old(buckets)[key], now); }
      }
      forall key | key in buckets ensures Level(limits, buckets, key, now) < limits.burst {
        FullStaysFull(limits, old(buckets)[key], now);
      }
    }

    /** Takes n units if the key has them: the answer, and all later answers, are those of the limiter
        that keeps every key. */
    method AllowN(key: Key, n: real, now: real) returns (ok: bool)
      requires Sensible(limits)
      modifies this
      ensures ok <==> n <= Level(limits, old(buckets), key, now)
      ensures Alike(limits, buckets, Take(limits, old(buckets), Request(key, n, now)), now)
    {
      ghost var before := buckets;
      Sweep(now);
      ghost var swept := buckets;
      assert Level(limits, swept, key, now) == Level(limits, before, key, now);
      var b := if key in buckets then buckets[key] else Bucket(limits.burst, now);
      var have := Least(limits.burst, b.tokens + (now - b.last) * limits.rate);
      ok := n <= have;
      buckets := buckets[key := Bucket(if ok then have - n else have, now)];
      ghost var taken := Take(limits, before, Request(key, n, now));
      assert buckets[key] == taken[key];
      forall k: Key, t: real | t >= now ensures Level(limits, buckets, k, t) == Level(limits, taken, k, t) {
        assert k != key ==> Level(limits, swept, k, t) == Level(limits, before, k, t);
      }
    }

    /** How long until n units are there, at least a second. */
    method RetryAfter(key: Key, n: real) returns (wait: real)
      ensures wait >= 1.0
      ensures key !in buckets || limits.rate == 0.0 || n <= buckets[key].tokens ==> wait == 1.0
      ensures key in buckets && limits.rate > 0.0 && n - buckets[key].tokens > 0.0 ==>
        var missing := n - buckets[key].tokens;
        wait * limits.rate >= missing && (wait > 1.0 ==> wait * limits.rate == missing)
    {
      if key !in buckets || limits.rate == 0.0 { return 1.0; }
      var missing := n - buckets[key].tokens;
      if missing <= 0.0 { return 1.0; }
      wait := missing / limits.rate;
      assert wait * limits.rate == missing;
      if wait < 1.0 {
        assert limits.rate > 0.0 ==> 1.0 * limits.rate >= wait * limits.rate;
        wait := 1.0;
      }
    }
  }

  lemma AlikeTaken(l: Limits, xs: map<Key, Bucket>, ys: map<Key, Bucket>, before: real, r: Request)
    requires Alike(l, xs, ys, before) && before <= r.at
    ensures Alike(l, Take(l, xs, r), Take(l, ys, r), r.at)
  {
    assert Level(l, xs, r.key, r.at) == Level(l, ys, r.key, r.at);
    assert Take(l, xs, r)[r.key] == Take(l, ys, r)[r.key];
    forall key: Key, t: real | t >= r.at ensures Level(l, Take(l, xs, r), key, t) == Level(l, Take(l, ys, r), key, t) {
      assert key != r.key ==> Level(l, xs, key, t) == Level(l, ys, key, t);
    }
  }

  /** Any requests on a clock that does not run back: dropping full keys changes no answer. */
  method Serve(limiter: Limiter, requests: seq<Request>) returns (answers: seq<bool>)
    requires Sensible(limiter.limits) && InOrder(requests) && limiter.buckets == map[]
    modifies limiter
    ensures |answers| == |requests|
    ensures forall i :: 0 <= i < |requests| ==> (answers[i] <==> Granted(limiter.limits, requests, i))
  {
    answers := [];
    ghost var l := limiter.limits;
    ghost var clock := if requests == [] then 0.0 else requests[0].at;
    for i := 0 to |requests|
      invariant |answers| == i && forall k :: 0 <= k < i ==> (answers[k] <==> Granted(l, requests, k))
      invariant Alike(l, limiter.buckets, Kept(l, requests[..i]), clock)
      invariant i < |requests| ==> clock <= requests[i].at
    {
      var r := requests[i];
      ghost var kept, held := Kept(l, requests[..i]), limiter.buckets;
      assert Level(l, held, r.key, r.at) == Level(l, kept, r.key, r.at);
      var ok := limiter.AllowN(r.key, r.n, r.at);
      answers := answers + [ok];
      AlikeTaken(l, held, kept, clock, r);
      assert requests[..i + 1][..i] == requests[..i];
      assert r == Request(r.key, r.n, r.at);
      AlikeTwice(l, limiter.buckets, Take(l, held, r), Take(l, kept, r), r.at);
      clock := r.at;
    }
  }

  lemma AlikeTwice(l: Limits, xs: map<Key, Bucket>, ys: map<Key, Bucket>, zs: map<Key, Bucket>, now: real)
    requires Alike(l, xs, ys, now) && Alike(l, ys, zs, now)
    ensures Alike(l, xs, zs, now)
  {
    forall key: Key, t: real | t >= now ensures Level(l, xs, key, t) == Level(l, zs, key, t) {
      assert Level(l, xs, key, t) == Level(l, ys, key, t);
    }
  }

  // ---- how much a key can get -----------------------------------------------------------------

  /** Units granted to a key by the k-th request. */
  function Spent(l: Limits, requests: seq<Request>, key: Key): nat -> real {
    (k: nat) => if k < |requests| && requests[k].key == key && Granted(l, requests, k) then requests[k].n else 0.0
  }

  /** What the key has when the k-th request arrives. */
  function Has(l: Limits, requests: seq<Request>, key: Key): nat -> real {
    (k: nat) => if k < |requests| then Level(l, Kept(l, requests[..k]), key, requests[k].at) else 0.0
  }

  function Credit(l: Limits, requests: seq<Request>): nat -> real {
    (k: nat) => if k < |requests| then requests[k].at * l.rate else 0.0
  }

  function Sum(f: nat -> real, i: nat, j: nat): real
    requires i <= j
    decreases j
  {
    if i == j then 0.0 else Sum(f, i, j - 1) + f(j - 1)
  }

  predicate NoRefunds(requests: seq<Request>) { forall k :: 0 <= k < |requests| ==> requests[k].n >= 0.0 }

  lemma {:induction false} LevelsAreKept(l: Limits, requests: seq<Request>, i: nat, key: Key, t: real)
    requires Sensible(l) && i <= |requests| && InOrder(requests) && NoRefunds(requests)
    requires i == 0 || requests[i - 1].at <= t
    ensures 0.0 <= Level(l, Kept(l, requests[..i]), key, t) <= l.burst
    decreases i
  {
    if i > 0 {
      var r := requests[i - 1];
      assert requests[..i][..i - 1] == requests[..i - 1];
      var before := Kept(l, requests[..i - 1]);
      LevelsAreKept(l, requests, i - 1, key, if key == r.key then r.at else t);
      if key == r.key { OneRequest(l, before, r, key, t, (t - r.at) * l.rate); }
    }
  }

  /** What a request leaves a key with, and what time adds until t. */
  lemma OneRequest(l: Limits, before: map<Key, Bucket>, r: Request, key: Key, t: real, gain: real)
    requires Sensible(l) && r.at <= t && r.n >= 0.0 && gain == (t - r.at) * l.rate
    ensures var spent := if r.key == key && r.n <= Level(l, before, key, r.at) then r.n else 0.0;
      spent + Level(l, Take(l, before, r), key, t) <= Level(l, before, key, r.at) + gain
    ensures key == r.key && 0.0 <= Level(l, before, key, r.at) <= l.burst ==>
      0.0 <= Level(l, Take(l, before, r), key, t) <= l.burst
  {
    Gains(l.rate, r.at, r.at, t);
    var have := Level(l, before, key, r.at);
    if key == r.key {
      RefilledFrom(l, if r.n <= have then have - r.n else have, r.at, t, gain);
    } else if key in before {
      Later(l, before[key], r.at, t, gain);
    }
  }

  /** From one request to the next: what was granted is missing, and time adds its share. */
  ghost predicate Accounts(spent: nat -> real, has: nat -> real, credit: nat -> real, k: nat) {
    spent(k) + has(k + 1) <= has(k) + credit(k + 1) - credit(k)
  }

  lemma {:induction false} Telescoped(spent: nat -> real, has: nat -> real, credit: nat -> real, i: nat, j: nat)
    requires i <= j && forall k :: i <= k < j ==> Accounts(spent, has, credit, k)
    ensures Sum(spent, i, j) + has(j) <= has(i) + credit(j) - credit(i)
    decreases j
  {
    if i < j {
      Telescoped(spent, has, credit, i, j - 1);
      assert Accounts(spent, has, credit, j - 1);
    }
  }

  lemma CreditIs(l: Limits, requests: seq<Request>, i: nat, j: nat)
    requires i < |requests| && j < |requests|
    ensures Credit(l, requests)(j) - Credit(l, requests)(i) == (requests[j].at - requests[i].at) * l.rate
  {
  }

  lemma SpendsWhatItHas(l: Limits, requests: seq<Request>, key: Key, k: nat)
    requires Sensible(l) && InOrder(requests) && NoRefunds(requests) && k < |requests|
    ensures Spent(l, requests, key)(k) <= Has(l, requests, key)(k) <= l.burst
  {
    LevelsAreKept(l, requests, k, key, requests[k].at);
  }

  lemma HasNext(l: Limits, requests: seq<Request>, key: Key, k: nat, gain: real)
    requires Sensible(l) && InOrder(requests) && NoRefunds(requests) && k + 1 < |requests|
    requires gain == (requests[k + 1].at - requests[k].at) * l.rate
    ensures Spent(l, requests, key)(k) + Has(l, requests, key)(k + 1) <= Has(l, requests, key)(k) + gain
  {
    assert requests[..k + 1][..k] == requests[..k];
    OneRequest(l, Kept(l, requests[..k]), requests[k], key, requests[k + 1].at, gain);
  }

  lemma RequestAccounts(l: Limits, requests: seq<Request>, key: Key, k: nat)
    returns (spent: nat -> real, has: nat -> real, credit: nat -> real)
    requires Sensible(l) && InOrder(requests) && NoRefunds(requests) && k + 1 < |requests|
    ensures spent == Spent(l, requests, key) && has == Has(l, requests, key) && credit == Credit(l, requests)
    ensures Accounts(spent, has, credit, k)
  {
    spent, has, credit := Spent(l, requests, key), Has(l, requests, key), Credit(l, requests);
    CreditIs(l, requests, k, k + 1);
    HasNext(l, requests, key, k, credit(k + 1) - credit(k));
  }

  /** In any window a key gets at most the burst and what the rate gives over the window. */
  lemma WindowBound(l: Limits, requests: seq<Request>, key: Key, i: nat, j: nat)
    requires Sensible(l) && InOrder(requests) && NoRefunds(requests) && i <= j < |requests|
    ensures Sum(Spent(l, requests, key), i, j + 1) <= l.burst + (requests[j].at - requests[i].at) * l.rate
  {
    var spent, has, credit := Spent(l, requests, key), Has(l, requests, key), Credit(l, requests);
    forall k | i <= k < j ensures Accounts(spent, has, credit, k) {
      var s, h, c := RequestAccounts(l, requests, key, k);
    }
    Telescoped(spent, has, credit, i, j);
    SpendsWhatItHas(l, requests, key, i);
    SpendsWhatItHas(l, requests, key, j);
    CreditIs(l, requests, i, j);
  }

  // ---- exactly when a request is granted ------------------------------------------------------

  lemma AfterRequest(l: Limits, before: map<Key, Bucket>, r: Request, key: Key, t: real, gain: real)
    requires Sensible(l) && r.at <= t && gain == (t - r.at) * l.rate
    ensures var spent := if r.key == key && r.n <= Level(l, before, key, r.at) then r.n else 0.0;
      Level(l, Take(l, before, r), key, t) == Least(l.burst, Level(l, before, key, r.at) - spent + gain)
  {
    Gains(l.rate, r.at, r.at, t);
    var have := Level(l, before, key, r.at);
    if key == r.key {
      RefilledFrom(l, if r.n <= have then have - r.n else have, r.at, t, gain);
    } else if key in before {
      Later(l, before[key], r.at, t, gain);
    }
  }

  /** From one request to the next: what was granted is gone, and time refills up to the burst. */
  ghost predicate Refills(burst: real, spent: nat -> real, has: nat -> real, credit: nat -> real, k: nat) {
    has(k + 1) == Least(burst, has(k) - spent(k) + credit(k + 1) - credit(k))
  }

  lemma RequestRefills(l: Limits, requests: seq<Request>, key: Key, k: nat, spent: nat -> real, has: nat -> real,
      credit: nat -> real)
    requires Sensible(l) && InOrder(requests) && k + 1 < |requests|
    requires spent == Spent(l, requests, key) && has == Has(l, requests, key) && credit == Credit(l, requests)
    ensures Refills(l.burst, spent, has, credit, k)
  {
    CreditIs(l, requests, k, k + 1);
    assert requests[..k + 1][..k] == requests[..k];
    AfterRequest(l, Kept(l, requests[..k]), requests[k], key, requests[k + 1].at, credit(k + 1) - credit(k));
  }

  /** With x more at j, the window from i on takes no more than the burst and what time gives. */
  ghost predicate Fits(burst: real, spent: nat -> real, credit: nat -> real, i: nat, j: nat, x: real) {
    i <= j && Sum(spent, i, j) + x <= burst + credit(j) - credit(i)
  }

  lemma FitsBefore(burst: real, spent: nat -> real, credit: nat -> real, i: nat, j: nat, x: real)
    requires i < j
    ensures Fits(burst, spent, credit, i, j, x) <==>
        Fits(burst, spent, credit, i, j - 1, x + spent(j - 1) - (credit(j) - credit(j - 1)))
  {
  }

  ghost predicate AllFit(burst: real, spent: nat -> real, credit: nat -> real, n: int, j: nat, x: real) {
    forall i: nat :: i <= n ==> Fits(burst, spent, credit, i, j, x)
  }

  lemma AllFitBefore(burst: real, spent: nat -> real, credit: nat -> real, j: nat, x: real, y: real)
    requires j > 0 && y == x + spent(j - 1) - (credit(j) - credit(j - 1))
    ensures AllFit(burst, spent, credit, j, j, x) <==> x <= burst && AllFit(burst, spent, credit, j - 1, j - 1, y)
  {
    assert Fits(burst, spent, credit, j, j, x) <==> x <= burst;
    if AllFit(burst, spent, credit, j, j, x) {
      var before := j - 1;
      forall i: nat | i <= before ensures Fits(burst, spent, credit, i, before, y) {
        assert Fits(burst, spent, credit, i, j, x);
        FitsBefore(burst, spent, credit, i, j, x);
      }
    } else {
      var i: nat :| i <= j && !Fits(burst, spent, credit, i, j, x);
      if i < j { FitsBefore(burst, spent, credit, i, j, x); }
    }
  }

  lemma {:induction false} HasExactly(burst: real, spent: nat -> real, has: nat -> real, credit: nat -> real,
      j: nat, x: real)
    requires has(0) == burst && forall k :: 0 <= k < j ==> Refills(burst, spent, has, credit, k)
    ensures x <= has(j) <==> AllFit(burst, spent, credit, j, j, x)
    decreases j
  {
    if j > 0 {
      var y := x + spent(j - 1) - (credit(j) - credit(j - 1));
      HasExactly(burst, spent, has, credit, j - 1, y);
      assert Refills(burst, spent, has, credit, j - 1);
      AllFitBefore(burst, spent, credit, j, x, y);
    } else {
      assert Fits(burst, spent, credit, 0, 0, x) <==> x <= burst;
    }
  }

  /** With the j-th request granted, what its key got since the i-th stays within the burst and the rate. */
  ghost predicate WindowFits(l: Limits, requests: seq<Request>, i: nat, j: nat) {
    && i <= j < |requests|
    && Sum(Spent(l, requests, requests[j].key), i, j) + requests[j].n
         <= l.burst + (requests[j].at - requests[i].at) * l.rate
  }

  lemma WindowIs(l: Limits, requests: seq<Request>, i: nat, j: nat, spent: nat -> real, credit: nat -> real)
    requires i <= j < |requests| && spent == Spent(l, requests, requests[j].key) && credit == Credit(l, requests)
    ensures WindowFits(l, requests, i, j) <==> Fits(l.burst, spent, credit, i, j, requests[j].n)
  {
    CreditIs(l, requests, i, j);
  }

  lemma GrantedIfHas(l: Limits, requests: seq<Request>, j: nat, has: nat -> real)
    requires j < |requests| && has == Has(l, requests, requests[j].key)
    ensures Granted(l, requests, j) <==> requests[j].n <= has(j)
    ensures has(0) == l.burst
  {
    assert requests[..0] == [];
  }

  /** A request is granted exactly if every window that ends with it stays within the burst and the rate;
      what was refused does not count. */
  lemma GrantedExactly(l: Limits, requests: seq<Request>, j: nat)
    requires Sensible(l) && InOrder(requests) && j < |requests|
    ensures Granted(l, requests, j) <==> forall i: nat :: i <= j ==> WindowFits(l, requests, i, j)
  {
    var key := requests[j].key;
    var spent, has, credit := Spent(l, requests, key), Has(l, requests, key), Credit(l, requests);
    GrantedIfHas(l, requests, j, has);
    forall k | 0 <= k < j ensures Refills(l.burst, spent, has, credit, k) {
      RequestRefills(l, requests, key, k, spent, has, credit);
    }
    HasExactly(l.burst, spent, has, credit, j, requests[j].n);
    forall i: nat | i <= j
      ensures WindowFits(l, requests, i, j) <==> Fits(l.burst, spent, credit, i, j, requests[j].n)
    {
      WindowIs(l, requests, i, j, spent, credit);
    }
  }

  /** After a refusal the advertised wait is enough, as long as n fits the burst. */
  lemma RetryIsEnough(l: Limits, b: Bucket, n: real, wait: real)
    requires n <= l.burst && wait * l.rate >= n - b.tokens
    ensures n <= Refilled(l, b, b.last + wait)
  {
    RefilledFrom(l, b.tokens, b.last, b.last + wait, wait * l.rate);
  }

  /** When it is over a second, nothing less is. */
  lemma RetryIsNeeded(l: Limits, b: Bucket, n: real, wait: real, sooner: real)
    requires l.rate > 0.0 && wait * l.rate == n - b.tokens && sooner < wait
    ensures n > Refilled(l, b, b.last + sooner)
  {
    var short := wait - sooner;
    assert short * l.rate > 0.0;
    assert sooner * l.rate == wait * l.rate - short * l.rate;
    RefilledFrom(l, b.tokens, b.last, b.last + sooner, sooner * l.rate);
  }
}
