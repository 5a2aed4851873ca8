/** Slowing down repeated failures: one row per key, charged under its lock before a secret is checked. */
module Throttle {
  import opened Common

  type Key = string

  /** Failures that are free, and the longest delay. */
  datatype Policy = Policy(free: int, max: Instant)

  datatype Row = Row(failures: nat, blockedUntil: Option<Instant>, updatedAt: Instant)

  datatype Charge = Charge(key: Key, policy: Policy)

  const DECAY_AFTER: Instant := 900
  const NANOS: int := 1_000_000_000

  // ---- the delay ------------------------------------------------------------------------------

  function Pow2(k: nat): (p: nat)
    ensures p > 0
  {
    if k == 0 then 1 else 2 * Pow2(k - 1)
  }

  /** Seconds to wait after n failures in a row. */
  function Delay(p: Policy, n: int): Instant {
    var over := n - p.free;
    if over <= 0 then 0 else if over > 20 then p.max else if Pow2(over) > p.max then p.max else Pow2(over)
  }

  lemma {:induction false} Pow2Grows(j: nat, k: nat)
    requires j <= k
    ensures Pow2(j) <= Pow2(k)
    decreases k
  {
    if j < k { Pow2Grows(j, k - 1); }
  }

  /** The delay never falls, never passes the cap, and its nanoseconds fit 64 bits when those of the cap do. */
  lemma DelayIsMonotone(p: Policy, m: int, n: int)
    requires p.max >= 0 && m <= n
    ensures 0 <= Delay(p, m) <= Delay(p, n) <= p.max
    ensures p.max * NANOS <= INT64_MAX ==> Delay(p, n) * NANOS <= INT64_MAX
  {
    if 0 < m - p.free && n - p.free <= 20 { Pow2Grows(m - p.free, n - p.free); }
  }

  /** No delay within the free failures; then two seconds, twice as long with each failure, up to the cap. */
  lemma DelayDoubles(p: Policy, n: int)
    requires p.max > 0
    ensures Delay(p, n) == 0 <==> n <= p.free
    ensures n == p.free + 1 ==> Delay(p, n) == Min(2, p.max)
    ensures p.free < n < p.free + 20 ==> Delay(p, n + 1) == Min(2 * Delay(p, n), p.max)
    ensures n > p.free + 20 ==> Delay(p, n) == p.max
  {
    assert Pow2(1) == 2;
  }

  /** The power is taken before the cap applies: it fits 64 bits whatever the cap. */
  lemma ShiftFits(over: nat)
    requires over <= 20
    ensures Pow2(over) * NANOS <= INT64_MAX
  {
    Pow2Grows(over, 20);
    assert Pow2(20) == 1_048_576 by { Pow2Of20(); }
  }

  lemma Pow2Of20()
    ensures Pow2(9) == 512 && Pow2(10) == 1024 && Pow2(20) == 1_048_576
  {
    assert Pow2(5) == 32;
    assert Pow2(9) == 16 * Pow2(5) && Pow2(10) == 2 * Pow2(9);
    assert Pow2(15) == 32 * Pow2(10);
    assert Pow2(20) == 32 * Pow2(15);
  }

  // ---- one charge -----------------------------------------------------------------------------

  predicate BlockedAt(row: Option<Row>, now: Instant) {
    row.Some? && row.value.blockedUntil.Some? && row.value.blockedUntil.value > now
  }

  /** The count a charge at now makes: one more, or the first after a quiet time. */
  function CountAfter(row: Option<Row>, now: Instant): nat {
    if row.None? || row.value.updatedAt < now - DECAY_AFTER then 1 else row.value.failures + 1
  }

  function Charged(row: Option<Row>, p: Policy, now: Instant): Row {
    if BlockedAt(row, now) then row.value
    else
      var n := CountAfter(row, now);
      Row(n, if Delay(p, n) > 0 then Some(now + Delay(p, n)) else None, now)
  }

  function Look(rows: map<Key, Row>, key: Key): Option<Row> { if key in rows then Some(rows[key]) else None }

  /** A refund of one failure; a block stays unless the failures left are free again. */
  function Refunded(row: Option<Row>, p: Policy): Option<Row> {
    if row.None? || row.value.failures <= 1 then None
    else
      var n := row.value.failures - 1;
      Some(Row(n, if n <= p.free then None else row.value.blockedUntil, row.value.updatedAt))
  }

  /** A charge that was taken back leaves the count as it was, and no block that was not there, unless
      failures that are not free remain. */
  lemma RefundUndoesCharge(row: Option<Row>, p: Policy, now: Instant)
    requires !BlockedAt(row, now) && CountAfter(row, now) > 1
    ensures var back := Refunded(Some(Charged(row, p, now)), p);
      && back.Some? && back.value.failures == row.value.failures
      && (row.value.failures <= p.free ==> !BlockedAt(back, now))
  {
  }

  /** A refund takes one failure back; the key is then blocked exactly while it was before, and only if the
      failures left are not all free. */
  lemma RefundTakesOne(row: Row, p: Policy, t: Instant)
    ensures var back := Refunded(Some(row), p);
      && (back.None? <==> row.failures <= 1)
      && (back.Some? ==> back.value.failures == row.failures - 1 && back.value.updatedAt == row.updatedAt)
      && (BlockedAt(back, t) <==> row.failures > 1 && row.failures - 1 > p.free && BlockedAt(Some(row), t))
  {
  }

  // ---- the table ------------------------------------------------------------------------------

  /** A charge, and what the clock shows when its turn comes. */
  datatype Turn = Turn(charge: Charge, at: Instant)

  predicate Refuses(rows: map<Key, Row>, t: Turn) { BlockedAt(Look(rows, t.charge.key), t.at) }

  function Take(rows: map<Key, Row>, t: Turn): map<Key, Row> {
    rows[t.charge.key := Charged(Look(rows, t.charge.key), t.charge.policy, t.at)]
  }

  /** The charges in turn, up to the first key that is blocked. */
  function ChargeAll(rows: map<Key, Row>, turns: seq<Turn>): map<Key, Row>
    decreases |turns|
  {
    if turns == [] || Refuses(rows, turns[0]) then rows else ChargeAll(Take(rows, turns[0]), turns[1..])
  }

  /** What the charges answer: the wait of the first key that is blocked when its turn comes. */
  function ChargeWait(rows: map<Key, Row>, turns: seq<Turn>): Instant
    decreases |turns|
  {
    if turns == [] then 0
    else if Refuses(rows, turns[0]) then rows[turns[0].charge.key].blockedUntil.value - turns[0].at
    else ChargeWait(Take(rows, turns[0]), turns[1..])
  }

  function Turns(charges: seq<Charge>, clock: seq<Instant>): seq<Turn>
    requires |clock| == |charges|
  {
    seq(|charges|, i requires 0 <= i < |charges| => Turn(charges[i], clock[i]))
  }

  predicate DistinctKeys(turns: seq<Turn>) { DistinctUpTo(turns, |turns|) }

  predicate DistinctUpTo(turns: seq<Turn>, n: nat)
    requires n <= |turns|
  {
    forall j, k :: 0 <= j < k < n ==> turns[j].charge.key != turns[k].charge.key
  }

  predicate AnyBlocked(rows: map<Key, Row>, keys: seq<Key>, now: Instant) {
    exists i :: 0 <= i < |keys| && BlockedAt(Look(rows, keys[i]), now)
  }

  class Table {
    var rows: map<Key, Row>

    /** How long until no key is blocked any more. */
    method Blocked(keys: seq<Key>, now: Instant) returns (wait: Instant)
      ensures wait >= 0 && (wait > 0 <==> AnyBlocked(rows, keys, now))
      ensures forall i :: 0 <= i < |keys| ==> !BlockedAt(Look(rows, keys[i]), now + wait)
      ensures wait > 0 ==> AnyBlocked(rows, keys, now + wait - 1)
    {
      wait := 0;
      for i := 0 to |keys|
        invariant wait >= 0 && (wait > 0 <==> AnyBlocked(rows, keys[..i], now))
        invariant forall k :: 0 <= k < i ==> !BlockedAt(Look(rows, keys[k]), now + wait)
        invariant wait > 0 ==> exists k :: 0 <= k < i && BlockedAt(Look(rows, keys[k]), now + wait - 1)
      {
        ghost var before := AnyBlocked(rows, keys[..i], now);
        assert keys[..i + 1] == keys[..i] + [keys[i]];
        assert before ==> AnyBlocked(rows, keys[..i + 1], now) by {
          if before {
            var k :| 0 <= k < i && BlockedAt(Look(rows, keys[..i][k]), now);
            assert BlockedAt(Look(rows, keys[..i + 1][k]), now);
          }
        }
        if BlockedAt(Look(rows, keys[i]), now) {
          assert BlockedAt(Look(rows, keys[..i + 1][i]), now);
          var left := rows[keys[i]].blockedUntil.value - now;
          wait := if wait < left then left else wait;
        }
      }
      assert keys[..|keys|] == keys;
    }

    /** Checks and counts in one locked step. */
    method ChargeKey(c: Charge, now: Instant) returns (wait: Instant)
      modifies this
      ensures wait >= 0 && (wait > 0 <==> BlockedAt(Look(old(rows), c.key), now))
      ensures wait > 0 ==> wait == old(rows)[c.key].blockedUntil.value - now
      ensures c.key in rows && rows == old(rows)[c.key := Charged(Look(old(rows), c.key), c.policy, now)]
    {
      if c.key !in rows { rows := rows[c.key := Row(0, None, now)]; }
      var row := rows[c.key];
      if row.blockedUntil.Some? && row.blockedUntil.value > now { return row.blockedUntil.value - now; }
      var n := row.failures + 1;
      if row.updatedAt < now - DECAY_AFTER { n := 1; }
      var until := None;
      if Delay(c.policy, n) > 0 { until := Some(now + Delay(c.policy, n)); }
      rows := rows[c.key := Row(n, until, now)];
      return 0;
    }

    /** Forgets the keys to reset, and takes one failure back from each of the others. */
    method Success(reset: seq<Key>, refund: seq<Charge>)
      modifies this
      ensures rows == RefundAll(old(rows) - (set k | k in reset), refund)
    {
      for i := 0 to |reset|
        invariant rows == old(rows) - (set k | k in reset[..i])
      {
        assert reset[..i + 1] == reset[..i] + [reset[i]];
        rows := rows - {reset[i]};
      }
      assert reset[..|reset|] == reset;
      ghost var left := rows;
      for i := 0 to |refund|
        invariant rows == RefundAll(left, refund[..i])
      {
        assert refund[..i + 1][..i] == refund[..i];
        var c := refund[i];
        if c.key in rows {
          var n := if rows[c.key].failures == 0 then 0 else rows[c.key].failures - 1;
          if n == 0 {
            rows := rows - {c.key};
          } else {
            var until := rows[c.key].blockedUntil;
            if n <= c.policy.free { until := None; }
            rows := rows[c.key := Row(n, until, rows[c.key].updatedAt)];
          }
        }
      }
      assert refund[..|refund|] == refund;
    }

    /** Counts an attempt against every key, or none if a key is blocked already. The check reads the clock,
        and so does each charge. */
    method Attempt(charges: seq<Charge>, now: Instant, clock: seq<Instant>) returns (wait: Instant)
      requires |clock| == |charges| && forall i :: 0 <= i < |clock| ==> now <= clock[i]
      modifies this
      ensures AnyBlocked(old(rows), Keys(charges), now) ==> wait > 0 && rows == old(rows)
      ensures !AnyBlocked(old(rows), Keys(charges), now) ==>
        rows == ChargeAll(old(rows), Turns(charges, clock)) && wait == ChargeWait(old(rows), Turns(charges, clock))
      ensures !AnyBlocked(old(rows), Keys(charges), now) && DistinctKeys(Turns(charges, clock)) ==> wait == 0
    {
      wait := Blocked(Keys(charges), now);
      if wait > 0 { return; }
      ghost var turns := Turns(charges, clock);
      if DistinctKeys(turns) { DistinctKeysPass(rows, turns) by { NotBlocked(rows, charges, now, clock); } }
      for i := 0 to |charges|
        invariant wait == 0 && ChargeAll(rows, turns[i..]) == ChargeAll(old(rows), turns)
        invariant ChargeWait(rows, turns[i..]) == ChargeWait(old(rows), turns)
      {
        ghost var before := rows;
        wait := ChargeKey(charges[i], clock[i]);
        assert turns[i..][1..] == turns[i + 1..] && turns[i] == Turn(charges[i], clock[i]);
        if wait > 0 {
          assert rows == before;
          return;
        }
      }
    }
  }

  /** The table after a charge is taken back. */
  function RefundKey(rows: map<Key, Row>, c: Charge): map<Key, Row> {
    var back := Refunded(Look(rows, c.key), c.policy);
    if back.Some? then rows[c.key := back.value] else rows - {c.key}
  }

  function RefundAll(rows: map<Key, Row>, refund: seq<Charge>): map<Key, Row>
    decreases |refund|
  {
    if refund == [] then rows else RefundKey(RefundAll(rows, refund[..|refund| - 1]), refund[|refund| - 1])
  }

  /** A right secret gives back exactly its own charges: keys that are neither reset nor refunded stay. */
  lemma {:induction false} RefundTouchesItsKeys(rows: map<Key, Row>, refund: seq<Charge>, key: Key)
    requires forall k :: 0 <= k < |refund| ==> refund[k].key != key
    ensures Look(RefundAll(rows, refund), key) == Look(rows, key)
    decreases |refund|
  {
    if refund != [] { RefundTouchesItsKeys(rows, refund[..|refund| - 1], key); }
  }

  /** With distinct keys each refund takes one failure back from its key. */
  lemma {:induction false} EachRefundTakesOne(rows: map<Key, Row>, refund: seq<Charge>, i: nat)
    requires i < |refund| && forall j, k :: 0 <= j < k < |refund| ==> refund[j].key != refund[k].key
    ensures var was, left := Look(rows, refund[i].key), Look(RefundAll(rows, refund), refund[i].key);
      && (left.None? <==> was.None? || was.value.failures <= 1)
      && (left.Some? ==> left.value.failures == was.value.failures - 1 && left.value.updatedAt == was.value.updatedAt)
      && forall t :: BlockedAt(left, t) <==>
           left.Some? && left.value.failures > refund[i].policy.free && BlockedAt(was, t)
    decreases |refund|
  {
    var n := |refund| - 1;
    if i < n { EachRefundTakesOne(rows, refund[..n], i); }
        else { RefundTouchesItsKeys(rows, refund[..n], refund[n].key); }
  }

  function Keys(charges: seq<Charge>): seq<Key> { seq(|charges|, i requires 0 <= i < |charges| => charges[i].key) }

  /** No turn comes while its key is blocked by what was there before the attempt. */
  predicate AllFree(rows: map<Key, Row>, turns: seq<Turn>, n: nat)
    requires n <= |turns|
  {
    forall k :: 0 <= k < n ==> !Refuses(rows, turns[k])
  }

  /** With distinct keys, an attempt that is let through has been counted on every one of them. */
  lemma {:induction false} EveryKeyIsCharged(rows: map<Key, Row>, turns: seq<Turn>, i: nat)
    requires i < |turns| && DistinctKeys(turns) && AllFree(rows, turns, |turns|)
    ensures Look(ChargeAll(rows, turns), turns[i].charge.key) == Some(Take(rows, turns[i])[turns[i].charge.key])
    decreases |turns|
  {
    if i == 0 {
      OthersStay(Take(rows, turns[0]), turns[1..], turns[0].charge.key);
    } else {
      EveryKeyIsCharged(Take(rows, turns[0]), turns[1..], i - 1);
    }
  }

  lemma {:induction false} OthersStay(rows: map<Key, Row>, turns: seq<Turn>, key: Key)
    requires forall k :: 0 <= k < |turns| ==> turns[k].charge.key != key
    ensures Look(ChargeAll(rows, turns), key) == Look(rows, key)
    decreases |turns|
  {
    if turns != [] && !Refuses(rows, turns[0]) { OthersStay(Take(rows, turns[0]), turns[1..], key); }
  }

  lemma NotBlocked(rows: map<Key, Row>, charges: seq<Charge>, now: Instant, clock: seq<Instant>)
    requires |clock| == |charges| && forall i :: 0 <= i < |clock| ==> now <= clock[i]
    requires !AnyBlocked(rows, Keys(charges), now)
    ensures AllFree(rows, Turns(charges, clock), |charges|)
  {
    forall k | 0 <= k < |charges| ensures !Refuses(rows, Turns(charges, clock)[k]) {
      assert Keys(charges)[k] == charges[k].key;
    }
  }

  /** An attempt on distinct keys of which none is blocked is let through. */
  lemma {:induction false} DistinctKeysPass(rows: map<Key, Row>, turns: seq<Turn>)
    requires DistinctKeys(turns) && AllFree(rows, turns, |turns|)
    ensures ChargeWait(rows, turns) == 0
    decreases |turns|
  {
    if turns != [] { DistinctKeysPass(Take(rows, turns[0]), turns[1..]); }
  }

  /** An attempt that names a key twice is refused for what is left of the delay that its first charge of the
      key asked for, if anything is. */
  lemma {:induction false} RepeatedKeyWaits(rows: map<Key, Row>, turns: seq<Turn>, i: nat, j: nat)
    requires i < j < |turns| && turns[i].charge.key == turns[j].charge.key && DistinctUpTo(turns, j)
    requires AllFree(rows, turns, j) && Refuses(Take(rows, turns[i]), turns[j])
    ensures ChargeWait(rows, turns) ==
      turns[i].at + Delay(turns[i].charge.policy,
          CountAfter(Look(rows, turns[i].charge.key), turns[i].at)) - turns[j].at
    decreases |turns|
  {
    if i > 0 {
      RepeatedKeyWaits(Take(rows, turns[0]), turns[1..], i - 1, j - 1);
    } else {
      BlockedKeyWaits(Take(rows, turns[0]), turns[1..], j - 1);
    }
  }

  /** The first key of the charges that is blocked answers with its wait. */
  lemma {:induction false} BlockedKeyWaits(rows: map<Key, Row>, turns: seq<Turn>, j: nat)
    requires j < |turns| && Refuses(rows, turns[j]) && AllFree(rows, turns, j) && DistinctUpTo(turns, j)
    requires forall k :: 0 <= k < j ==> turns[k].charge.key != turns[j].charge.key
    ensures ChargeWait(rows, turns) == rows[turns[j].charge.key].blockedUntil.value - turns[j].at
    decreases |turns|
  {
    if j > 0 { BlockedKeyWaits(Take(rows, turns[0]), turns[1..], j - 1); }
  }

  // ---- pacing ---------------------------------------------------------------------------------

  /** An admitted charge: when, and the count it made. */
  datatype Admission = Admission(at: Instant, count: nat)

  /** One key's row after attempts that read the clock at the given times, in the order in which they took
      the lock: a request reads the clock first, so the times need not be in order. */
  function RowAfter(p: Policy, times: seq<Instant>): Option<Row>
    decreases |times|
  {
    if times == [] then None
    else Some(Charged(RowAfter(p, times[..|times| - 1]), p, times[|times| - 1]))
  }

  /** The attempts that were let through. */
  function Admitted(p: Policy, times: seq<Instant>): seq<Admission>
    decreases |times|
  {
    if times == [] then []
    else
      var before, now := times[..|times| - 1], times[|times| - 1];
      if BlockedAt(RowAfter(p, before), now) then Admitted(p, before)
      else Admitted(p, before) + [Admission(now, CountAfter(RowAfter(p, before), now))]
  }

  /** The gap the policy asks for, and the count going up unless the key was quiet. */
  predicate Paced(p: Policy, a: Admission, b: Admission) {
    && (Delay(p, a.count) > 0 ==> b.at - a.at >= Delay(p, a.count))
    && b.count == if b.at - a.at > DECAY_AFTER then 1 else a.count + 1
  }

  predicate AllPaced(p: Policy, list: seq<Admission>) {
    forall i :: 0 <= i < |list| - 1 ==> Paced(p, list[i], list[i + 1])
  }

  function RowOf(p: Policy, a: Admission): Row {
    Row(a.count, if Delay(p, a.count) > 0 then Some(a.at + Delay(p, a.count)) else None, a.at)
  }

  /** Whatever the order of the clock readings, the row remembers the last admission, and each admission is
      paced by the one before it. */
  lemma {:induction false} RowIsLastAdmission(p: Policy, times: seq<Instant>)
    ensures AllPaced(p, Admitted(p, times))
    ensures times == [] <==> Admitted(p, times) == []
    ensures times != [] ==> RowAfter(p, times) == Some(RowOf(p, Admitted(p, times)[|Admitted(p, times)| - 1]))
    decreases |times|
  {
    if times != [] { RowIsLastAdmission(p, times[..|times| - 1]); }
  }

  /** An attempt is let through exactly if the delay that the last admission asked for is over, and makes the
      count one more, or one again after a quiet time. The first is always let through, with count one. */
  lemma AdmittedExactly(p: Policy, times: seq<Instant>, now: Instant)
    ensures var list, more := Admitted(p, times), Admitted(p, times + [now]);
      if list == [] then more == [Admission(now, 1)]
      else
        var last := list[|list| - 1];
        if Delay(p, last.count) > 0 && now - last.at < Delay(p, last.count) then more == list
        else more == list + [Admission(now, if now - last.at > DECAY_AFTER then 1 else last.count + 1)]
  {
    RowIsLastAdmission(p, times);
    assert (times + [now])[..|times|] == times;
  }

  predicate InOrder(times: seq<Instant>) { forall i, j :: 0 <= i < j < |times| ==> times[i] <= times[j] }

  /** When the lock is taken in the order of the clock, admissions are in order too. */
  lemma {:induction false} AdmissionsInOrder(p: Policy, times: seq<Instant>)
    requires InOrder(times)
    ensures forall i :: 0 <= i < |Admitted(p, times)| - 1 ==> Admitted(p, times)[i].at <= Admitted(p, times)[i + 1].at
    ensures Admitted(p, times) != [] ==>
      times != [] && Admitted(p, times)[|Admitted(p, times)| - 1].at <= times[|times| - 1]
    decreases |times|
  {
    if times != [] {
      var n := |times| - 1;
      AdmissionsInOrder(p, times[..n]);
      assert n > 0 ==> times[..n][n - 1] == times[n - 1];
    }
  }

  /** The seconds that m admissions from a count on ask for. */
  function Waits(p: Policy, count: nat, m: nat): Instant
    decreases m
  {
    if m == 0 then 0 else Waits(p, count, m - 1) + Delay(p, count + m - 1)
  }

  /** No quiet time between two admissions, and where no delay is asked for, a clock that did not go back. */
  predicate Successive(p: Policy, a: Admission, b: Admission) {
    b.at - a.at <= DECAY_AFTER && (Delay(p, a.count) > 0 || (Delay(p, a.count) == 0 && a.at <= b.at))
  }

  /** However attempts interleave, admissions without a quiet time between them take at least the sum of
      the delays their counts ask for. */
  lemma {:induction false} PacingAddsUp(p: Policy, list: seq<Admission>, i: nat, m: nat)
    requires AllPaced(p, list) && i + m < |list|
    requires forall k :: i <= k < i + m ==> Successive(p, list[k], list[k + 1])
    ensures list[i + m].count == list[i].count + m
    ensures list[i + m].at - list[i].at >= Waits(p, list[i].count, m)
    decreases m
  {
    if m > 0 {
      PacingAddsUp(p, list, i, m - 1);
      assert Paced(p, list[i + m - 1], list[i + m - 1 + 1]) && Successive(p, list[i + m - 1], list[i + m - 1 + 1]);
    }
  }

  /** On a clock that is read in lock order this is so for every run of admissions. */
  lemma PacingAddsUpInOrder(p: Policy, times: seq<Instant>, i: nat, m: nat)
    requires p.max >= 0 && InOrder(times) && i + m < |Admitted(p, times)|
    requires forall k :: i <= k < i + m ==> Admitted(p, times)[k + 1].at - Admitted(p, times)[k].at <= DECAY_AFTER
    ensures var list := Admitted(p, times); list[i + m].at - list[i].at >= Waits(p, list[i].count, m)
  {
    var list := Admitted(p, times);
    RowIsLastAdmission(p, times);
    AdmissionsInOrder(p, times);
    forall k | i <= k < i + m ensures Successive(p, list[k], list[k + 1]) {
      DelayIsMonotone(p, list[k].count, list[k].count);
    }
    PacingAddsUp(p, list, i, m);
  }

  /** A delay as long as the quiet time ends the count: an admission after it starts again from one, unless
      it comes at the very instant the block ends. */
  lemma FullDelayStartsAgain(p: Policy, a: Admission, b: Admission)
    requires Paced(p, a, b) && Delay(p, a.count) == DECAY_AFTER && a.count > 0
    ensures b.count == 1 <==> b.at != a.at + DECAY_AFTER
  {
  }

  // ---- the policies of the login throttle -----------------------------------------------------

  const PAIR := Policy(0, 900)
  const ACCOUNT := Policy(50, 30)
  const IP := Policy(20, 900)
  const ACTIVATION := Policy(10, 900)
  const SECRET := Policy(0, 900)

  /** Which counts ask for a delay as long as the quiet time: those ten or more past the free ones, for the
      four policies that are capped there, and none for an account. */
  lemma FullDelays(p: Policy, n: nat)
    requires p in {PAIR, ACCOUNT, IP, ACTIVATION, SECRET}
    ensures Delay(p, n) == DECAY_AFTER <==> p != ACCOUNT && n >= p.free + 10
  {
    var over := n - p.free;
    Pow2Of20();
    if 0 < over <= 20 {
      if over >= 10 { Pow2Grows(10, over); } else { Pow2Grows(over, 9); }
    }
  }
}
