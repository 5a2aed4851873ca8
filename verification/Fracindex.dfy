/** The keys that order a list: strings over 62 digits, compared byte by byte. Between any two of them there
    is room for another. */
module Fracindex {

  const DIGITS: string := "0123456789" + "ABCDEFGHIJKLM" + "NOPQRSTUVWXYZ" + "abcdefghijklm" + "nopqrstuvwxyz"
  const BASE: int := 62
  /** The key length above which a list is rebalanced. */
  const MAX_LENGTH: nat := 48

  datatype KeyError = ErrInvalid | ErrOrder
  datatype KeyResult = Ok(key: string) | Err(error: KeyError)

  // ---- the alphabet ---------------------------------------------------------------------------

  /** The place of a byte in DIGITS, or -1 when it is not there. */
  function IndexByte(c: char): (i: int)
    ensures -1 <= i < BASE
  {
    if '0' <= c <= '9' then c as int - '0' as int
    else if 'A' <= c <= 'Z' then c as int - 'A' as int + 10
    else if 'a' <= c <= 'z' then c as int - 'a' as int + 36
    else -1
  }

  function DigitChar(i: int): (c: char)
    requires 0 <= i < BASE
    ensures IndexByte(c) == i
  {
    if i < 10 then ('0' as int + i) as char
    else if i < 36 then ('A' as int + i - 10) as char
    else ('a' as int + i - 36) as char
  }

  /** DIGITS really is the table that IndexByte and DigitChar compute. */
  lemma DigitsTable(i: int)
    requires 0 <= i < BASE
    ensures |DIGITS| == BASE && DIGITS[i] == DigitChar(i)
  {
  }

  /** The value of the i-th digit of k; past its end a key is padded with the smallest digit. */
  function Digit(k: string, i: nat): int {
    if i >= |k| then 0 else IndexByte(k[i])
  }

  // ---- keys and their order -------------------------------------------------------------------

  predicate Valid(k: string) {
    && k != ""
    && k[|k| - 1] != '0'
    && forall i :: 0 <= i < |k| ==> IndexByte(k[i]) >= 0
  }

  predicate ValidOrEmpty(k: string) { k == "" || Valid(k) }

  /** Strict byte order, as Go's < on strings and PostgreSQL's collation "C". */
  predicate Less(a: string, b: string) {
    && b != ""
    && (a == "" || a[0] < b[0] || (a[0] == b[0] && Less(a[1..], b[1..])))
  }

  lemma {:induction false} LessTrans(a: string, b: string, c: string)
    requires Less(a, b) && Less(b, c)
    ensures Less(a, c)
  {
    if a != "" && a[0] == b[0] == c[0] {
      LessTrans(a[1..], b[1..], c[1..]);
    }
  }

  lemma {:induction false} LessTotal(a: string, b: string)
    ensures Less(a, b) || a == b || Less(b, a)
    ensures !(Less(a, b) && Less(b, a)) && !Less(a, a)
  {
    if a != "" && b != "" && a[0] == b[0] {
      LessTotal(a[1..], b[1..]);
      assert a == [a[0]] + a[1..] && b == [b[0]] + b[1..];
    }
    if a != "" { LessIrreflexive(a); }
  }

  lemma {:induction false} LessIrreflexive(a: string)
    ensures !Less(a, a)
  {
    if a != "" { LessIrreflexive(a[1..]); }
  }

  lemma {:induction false} LessPrefix(p: string, a: string, b: string)
    ensures Less(p + a, p + b) <==> Less(a, b)
  {
    if p == "" {
      assert p + a == a && p + b == b;
    } else {
      assert (p + a)[1..] == p[1..] + a && (p + b)[1..] == p[1..] + b;
      LessPrefix(p[1..], a, b);
    }
  }

  function SliceFrom(s: string, n: nat): string {
    if n >= |s| then "" else s[n..]
  }

  lemma ValidSlice(k: string, n: nat)
    requires ValidOrEmpty(k)
    ensures ValidOrEmpty(SliceFrom(k, n))
    ensures n < |k| ==> Valid(k[n..])
  {
    if n < |k| {
      assert k[n..][|k[n..]| - 1] == k[|k| - 1];
    }
  }

  lemma ValidConcat(p: string, k: string)
    requires forall i :: 0 <= i < |p| ==> IndexByte(p[i]) >= 0
    requires Valid(k)
    ensures Valid(p + k)
  {
    assert (p + k)[|p + k| - 1] == k[|k| - 1];
  }

  // ---- the key between two bounds -------------------------------------------------------------

  /** How many leading digits of b the padded a repeats. */
  function CommonPrefix(a: string, b: string): (n: nat)
    ensures n <= |b|
    decreases b
  {
    if b != "" && Digit(a, 0) == IndexByte(b[0]) then 1 + CommonPrefix(SliceFrom(a, 1), b[1..]) else 0
  }

  /** The bounds midpoint is called with: well formed, and in order (an empty b is infinity). */
  predicate Gap(a: string, b: string) {
    ValidOrEmpty(a) && ValidOrEmpty(b) && (b == "" || Less(a, b))
  }

  /** Dropping one common (padded) digit of a gap leaves a gap. */
  lemma GapStep(a: string, b: string)
    requires Gap(a, b) && b != "" && Digit(a, 0) == IndexByte(b[0])
    ensures |b| > 1 && SliceFrom(b, 1) == b[1..] && Gap(SliceFrom(a, 1), b[1..])
    ensures a != "" ==> a == [b[0]] + SliceFrom(a, 1)
  {
    ValidSlice(a, 1);
    ValidSlice(b, 1);
    if a != "" {
      assert a[0] == b[0];
      assert Less(a[1..], b[1..]);
      assert SliceFrom(a, 1) == a[1..];
    }
  }

  lemma SliceTwice(s: string, n: nat)
    ensures SliceFrom(SliceFrom(s, 1), n) == SliceFrom(s, n + 1)
  {
  }

  /** What is left of the bounds once a common prefix is dropped is a gap again. */
  lemma {:induction false} GapAfterPrefix(a: string, b: string, n: nat)
    requires Gap(a, b) && b != "" && n <= CommonPrefix(a, b)
    ensures n < |b| && Gap(SliceFrom(a, n), SliceFrom(b, n))
    decreases n
  {
    if n > 0 {
      GapStep(a, b);
      GapAfterPrefix(SliceFrom(a, 1), SliceFrom(b, 1), n - 1);
      SliceTwice(a, n - 1);
      SliceTwice(b, n - 1);
    }
  }

  lemma {:induction false} PrefixDigit(a: string, b: string, t: nat)
    requires t < CommonPrefix(a, b)
    ensures Digit(a, t) == Digit(b, t)
    decreases t
  {
    if t > 0 {
      PrefixDigit(SliceFrom(a, 1), b[1..], t - 1);
      assert Digit(SliceFrom(a, 1), t - 1) == Digit(a, t) && Digit(b[1..], t - 1) == Digit(b, t);
    }
  }

  /** A bound that is as long as the common prefix carries it. */
  lemma SplitAtPrefix(a: string, b: string, n: nat)
    requires forall i :: 0 <= i < |b| ==> IndexByte(b[i]) >= 0
    requires n <= CommonPrefix(a, b) && n <= |a|
    ensures a == b[..n] + SliceFrom(a, n)
  {
    var r := b[..n] + SliceFrom(a, n);
    forall t | 0 <= t < |a| ensures r[t] == a[t] {
      if t < n { SameInPrefix(a, b, t); }
    }
  }

  lemma SameInPrefix(a: string, b: string, t: nat)
    requires forall i :: 0 <= i < |b| ==> IndexByte(b[i]) >= 0
    requires t < CommonPrefix(a, b) && t < |a|
    ensures t < |b| && a[t] == b[t]
  {
    PrefixDigit(a, b, t);
  }

  /** The key between a and b: a neighbouring digit at an open end, else the first digit (or common
      prefix and digit) that separates the bounds. */
  function Midpoint(a: string, b: string): string
    requires Gap(a, b)
    decreases |a| + |b|
  {
    if b == "" && a != "" then
      if Digit(a, 0) < BASE - 1 then [DigitChar(Digit(a, 0) + 1)]
      else ValidSlice(a, 1); a[..1] + Midpoint(SliceFrom(a, 1), "")
    else if a == "" && b != "" then
      if Digit(b, 0) >= 2 then [DigitChar(Digit(b, 0) - 1)]
      else if |b| > 1 && Digit(b, 0) == 0 then ValidSlice(b, 1); "0" + Midpoint("", b[1..])
      else "0V"
    else
      var n := if b != "" then CommonPrefix(a, b) else 0;
      if n > 0 then
        GapAfterPrefix(a, b, n);
        b[..n] + Midpoint(SliceFrom(a, n), SliceFrom(b, n))
      else
        var da := Digit(a, 0);
        var db := if b != "" then IndexByte(b[0]) else BASE;
        DigitsApart(a, b);
        if db - da > 1 then [DigitChar((da + db + 1) / 2)]
        else if |b| > 1 then b[..1]
        else ValidSlice(a, 1); [DigitChar(da)] + Midpoint(SliceFrom(a, 1), "")
  }

  /** Without a common digit the first digits of a gap are in order. */
  lemma DigitsApart(a: string, b: string)
    requires Gap(a, b)
    requires b != "" ==> Digit(a, 0) != IndexByte(b[0])
    ensures 0 <= Digit(a, 0) < (if b != "" then IndexByte(b[0]) else BASE)
  {
  }

  /** A valid key strictly between two optional bounds, neither much longer than the longer one. */
  predicate Inside(a: string, k: string, b: string) {
    && Valid(k)
    && Less(a, k)
    && (b != "" ==> Less(k, b))
  }

  function Max(x: int, y: int): int { if x > y then x else y }

  /** Putting the same digits in front of a key and its bounds keeps the key between them. */
  lemma Prepend(p: string, a: string, k: string, b: string)
    requires forall i :: 0 <= i < |p| ==> IndexByte(p[i]) >= 0
    requires Inside(a, k, b)
    ensures Valid(p + k) && Less(p + a, p + k) && (b != "" ==> Less(p + k, p + b))
  {
    ValidConcat(p, k);
    LessPrefix(p, a, k);
    LessPrefix(p, k, b);
  }

  lemma {:induction false} MidpointIsInside(a: string, b: string)
    requires Gap(a, b)
    ensures Inside(a, Midpoint(a, b), b)
    ensures |Midpoint(a, b)| <= Max(|a|, |b|) + 1
    decreases |a| + |b|, 2
  {
    if b == "" && a != "" {
      InsideAboveLast(a);
    } else if a == "" && b != "" {
      InsideBelowFirst(b);
    } else if b != "" && CommonPrefix(a, b) > 0 {
      InsideAfterPrefix(a, b, CommonPrefix(a, b));
    } else {
      InsideApart(a, b);
    }
  }

  lemma {:induction false} InsideAboveLast(a: string)
    requires Valid(a)
    ensures Inside(a, Midpoint(a, ""), "") && |Midpoint(a, "")| <= |a| + 1
    decreases |a|, 0
  {
    if Digit(a, 0) == BASE - 1 {
      ValidSlice(a, 1);
      MidpointIsInside(SliceFrom(a, 1), "");
      Prepend(a[..1], SliceFrom(a, 1), Midpoint(SliceFrom(a, 1), ""), "");
      assert a == a[..1] + SliceFrom(a, 1);
    }
  }

  lemma {:induction false} InsideBelowFirst(b: string)
    requires Valid(b)
    ensures Inside("", Midpoint("", b), b) && |Midpoint("", b)| <= |b| + 1
    decreases |b|, 0
  {
    if |b| > 1 && Digit(b, 0) == 0 {
      ValidSlice(b, 1);
      MidpointIsInside("", b[1..]);
      Prepend("0", "", Midpoint("", b[1..]), b[1..]);
      assert b == "0" + b[1..];
    }
  }

  lemma {:induction false} InsideApart(a: string, b: string)
    requires Gap(a, b) && (a == "" <==> b == "")
    requires b != "" ==> CommonPrefix(a, b) == 0
    ensures Inside(a, Midpoint(a, b), b) && |Midpoint(a, b)| <= Max(|a|, |b|) + 1
    decreases |a| + |b|, 1
  {
    DigitsApart(a, b);
    if a != "" && IndexByte(b[0]) - Digit(a, 0) <= 1 && |b| <= 1 {
      InsideNextDigit(a, b);
    }
  }

  /** The first digits are consecutive and b has no other: the key extends a. */
  lemma {:induction false} InsideNextDigit(a: string, b: string)
    requires Valid(a) && Valid(b) && |b| == 1 && Digit(a, 0) + 1 == IndexByte(b[0])
    ensures Gap(a, b) && Inside(a, Midpoint(a, b), b) && |Midpoint(a, b)| <= Max(|a|, |b|) + 1
    decreases |a| + |b|, 0
  {
    var rest := SliceFrom(a, 1);
    ValidSlice(a, 1);
    MidpointIsInside(rest, "");
    var m := Midpoint(rest, "");
    Prepend(a[..1], rest, m, "");
    assert a == a[..1] + rest;
    NextDigitMidpoint(a, b);
  }

  lemma NextDigitMidpoint(a: string, b: string)
    requires Valid(a) && Valid(b) && |b| == 1 && Digit(a, 0) + 1 == IndexByte(b[0]) && ValidOrEmpty(SliceFrom(a, 1))
    ensures Gap(a, b) && Midpoint(a, b) == a[..1] + Midpoint(SliceFrom(a, 1), "")
  {
    assert CommonPrefix(a, b) == 0;
    assert DigitChar(Digit(a, 0)) == a[0];
  }

  lemma {:induction false} InsideAfterPrefix(a: string, b: string, n: nat)
    requires Gap(a, b) && a != "" && b != "" && n == CommonPrefix(a, b) > 0
    ensures Inside(a, Midpoint(a, b), b)
    ensures |Midpoint(a, b)| <= Max(|a|, |b|) + 1
    decreases |a| + |b|, 0
  {
    GapAfterPrefix(a, b, n);
    var m := Midpoint(SliceFrom(a, n), SliceFrom(b, n));
    MidpointIsInside(SliceFrom(a, n), SliceFrom(b, n));
    Prepend(b[..n], SliceFrom(a, n), m, SliceFrom(b, n));
    assert b == b[..n] + SliceFrom(b, n);
    assert Midpoint(a, b) == b[..n] + m;
    if |a| < n { PaddedLess(a, b, n, m); } else { SplitAtPrefix(a, b, n); }
  }

  /** A key that ends inside the common prefix sorts before anything that carries the whole prefix. */
  lemma {:induction false} PaddedLess(a: string, b: string, n: nat, m: string)
    requires Gap(a, b) && b != "" && |a| < n <= CommonPrefix(a, b) && m != ""
    ensures Less(a, b[..n] + m)
    decreases n
  {
    if a != "" {
      GapStep(a, b);
      PaddedLess(SliceFrom(a, 1), b[1..], n - 1, m);
      assert (b[..n] + m)[1..] == b[1..][..n - 1] + m;
    }
  }

  function Between(a: string, b: string): KeyResult {
    if !ValidOrEmpty(a) || !ValidOrEmpty(b) then Err(ErrInvalid)
    else if b != "" && !Less(a, b) then Err(ErrOrder)
    else Ok(Midpoint(a, b))
  }

  /** The contract of Between: it fails exactly on malformed or misordered bounds, and otherwise
      gives a valid key strictly inside the gap, at most one digit longer than the longer bound. */
  lemma BetweenCorrect(a: string, b: string)
    ensures Between(a, b) == Err(ErrInvalid) <==> !(ValidOrEmpty(a) && ValidOrEmpty(b))
    ensures Between(a, b) == Err(ErrOrder) <==> ValidOrEmpty(a) && ValidOrEmpty(b) && b != "" && (a == b || Less(b, a))
    ensures Between(a, b).Ok? ==>
              && Valid(Between(a, b).key)
              && Less(a, Between(a, b).key)
              && (b != "" ==> Less(Between(a, b).key, b))
              && |Between(a, b).key| <= Max(|a|, |b|) + 1
  {
    LessTotal(a, b);
    if Gap(a, b) { MidpointIsInside(a, b); }
  }

  /** The loop of midpoint: counts the common prefix. */
  method CountPrefix(a: string, b: string) returns (n: nat)
    ensures n == CommonPrefix(a, b)
  {
    n := 0;
    assert SliceFrom(a, 0) == a && SliceFrom(b, 0) == b;
    while n < |b| && Digit(a, n) == IndexByte(b[n])
      invariant n <= |b|
      invariant CommonPrefix(a, b) == n + CommonPrefix(SliceFrom(a, n), SliceFrom(b, n))
    {
      SliceStep(a, n);
      SliceStep(b, n);
      n := n + 1;
    }
    SliceStep(a, n);
    SliceStep(b, n);
  }

  /** Midpoint with digits read from the table, as the source does. */
  method GenerateMidpoint(a: string, b: string) returns (key: string)
    requires Gap(a, b)
    ensures key == Midpoint(a, b)
    decreases |a| + |b|, 1
  {
    if b == "" && a != "" {
      key := GenerateAbove(a);
    } else if a == "" && b != "" {
      key := GenerateBelow(b);
    } else {
      var n := 0;
      if b != "" { n := CountPrefix(a, b); }
      if n > 0 {
        GapAfterPrefix(a, b, n);
        var rest := GenerateMidpoint(SliceFrom(a, n), SliceFrom(b, n));
        return b[..n] + rest;
      }
      DigitsApart(a, b);
      var da := Digit(a, 0);
      var db := |DIGITS|;
      if b != "" { db := IndexByte(b[0]); }
      if db - da > 1 {
        DigitsTable((da + db + 1) / 2);
        return [DIGITS[(da + db + 1) / 2]];
      }
      if |b| > 1 {
        return b[..1];
      }
      ValidSlice(a, 1);
      var rest := GenerateMidpoint(SliceFrom(a, 1), "");
      DigitsTable(da);
      return [DIGITS[da]] + rest;
    }
  }

  method GenerateAbove(a: string) returns (key: string)
    requires Valid(a)
    ensures key == Midpoint(a, "")
    decreases |a|, 0
  {
    var i := Digit(a, 0);
    if i < |DIGITS| - 1 {
      DigitsTable(i + 1);
      return [DIGITS[i + 1]];
    }
    ValidSlice(a, 1);
    var rest := GenerateMidpoint(SliceFrom(a, 1), "");
    return a[..1] + rest;
  }

  method GenerateBelow(b: string) returns (key: string)
    requires Valid(b)
    ensures key == Midpoint("", b)
    decreases |b|, 0
  {
    var i := Digit(b, 0);
    if i >= 2 {
      DigitsTable(i - 1);
      return [DIGITS[i - 1]];
    }
    if |b| > 1 && i == 0 {
      ValidSlice(b, 1);
      var rest := GenerateMidpoint("", b[1..]);
      return "0" + rest;
    }
    return "0V";
  }

  lemma SliceStep(s: string, n: nat)
    ensures SliceFrom(SliceFrom(s, n), 1) == SliceFrom(s, n + 1)
    ensures Digit(SliceFrom(s, n), 0) == Digit(s, n)
  {
  }

  // ---- growth at the ends ---------------------------------------------------------------------

  function Repeat(c: char, n: nat): (s: string)
    ensures |s| == n
  {
    if n == 0 then "" else [c] + Repeat(c, n - 1)
  }

  function AppendOnce(r: KeyResult): KeyResult { if r.Ok? then Between(r.key, "") else r }

  function PrependOnce(r: KeyResult): KeyResult { if r.Ok? then Between("", r.key) else r }

  /** The key of the first item of a list followed by m items that were each put last. */
  function Appended(m: nat): KeyResult {
    if m == 0 then Between("", "") else AppendOnce(Appended(m - 1))
  }

  /** The key of the first item of a list preceded by m items that were each put first. */
  function Prepended(m: nat): KeyResult {
    if m == 0 then Between("", "") else PrependOnce(Prepended(m - 1))
  }

  lemma AboveZ(k: string)
    requires Valid(k)
    ensures Valid("z" + k) && Midpoint("z" + k, "") == "z" + Midpoint(k, "")
  {
    ValidConcat("z", k);
    assert SliceFrom("z" + k, 1) == k;
  }

  lemma BelowZero(k: string)
    requires Valid(k)
    ensures Valid("0" + k) && Midpoint("", "0" + k) == "0" + Midpoint("", k)
  {
    ValidConcat("0", k);
    assert ("0" + k)[1..] == k;
  }

  lemma RepeatFront(c: char, q: nat, k: string)
    requires q > 0
    ensures Repeat(c, q) + k == [c] + (Repeat(c, q - 1) + k)
  {
  }

  lemma {:induction false} MidpointAboveZs(q: nat, k: string, m: string)
    requires Valid(k) && m == Midpoint(k, "")
    ensures Valid(Repeat('z', q) + k)
    ensures Midpoint(Repeat('z', q) + k, "") == Repeat('z', q) + m
  {
    if q == 0 {
      assert Repeat('z', q) + k == k && Repeat('z', q) + m == m;
    } else {
      MidpointAboveZs(q - 1, k, m);
      AboveZ(Repeat('z', q - 1) + k);
      RepeatFront('z', q, k);
      RepeatFront('z', q, m);
    }
  }

  lemma {:induction false} MidpointBelowZeros(q: nat, k: string, m: string)
    requires Valid(k) && m == Midpoint("", k)
    ensures Valid(Repeat('0', q) + k)
    ensures Midpoint("", Repeat('0', q) + k) == Repeat('0', q) + m
  {
    if q == 0 {
      assert Repeat('0', q) + k == k && Repeat('0', q) + m == m;
    } else {
      MidpointBelowZeros(q - 1, k, m);
      BelowZero(Repeat('0', q - 1) + k);
      RepeatFront('0', q, k);
      RepeatFront('0', q, m);
    }
  }

  lemma {:induction false} RepeatSnoc(c: char, n: nat)
    ensures Repeat(c, n + 1) == Repeat(c, n) + [c]
  {
    if n > 0 { RepeatSnoc(c, n - 1); }
  }

  function AppendKey(m: nat): string { Repeat('z', m / 31) + [DigitChar(31 + m % 31)] }

  function PrependKey(m: nat): string { Repeat('0', m / 31) + [DigitChar(31 - m % 31)] }

  lemma AppendStep(m: nat, r: KeyResult)
    requires r == Ok(AppendKey(m))
    ensures AppendOnce(r) == Ok(AppendKey(m + 1))
  {
    var q, d := m / 31, m % 31;
    var last := [DigitChar(31 + d)];
    var next := Midpoint(last, "");
    MidpointAboveZs(q, last, next);
    if d == 30 {
      assert (m + 1) / 31 == q + 1 && (m + 1) % 31 == 0;
      RepeatSnoc('z', q);
      assert next == "zV";
      assert Repeat('z', q) + "zV" == Repeat('z', q + 1) + "V";
    } else {
      assert (m + 1) / 31 == q && (m + 1) % 31 == d + 1;
    }
  }

  lemma PrependStep(m: nat, r: KeyResult)
    requires r == Ok(PrependKey(m))
    ensures PrependOnce(r) == Ok(PrependKey(m + 1))
  {
    var q, d := m / 31, m % 31;
    var last := [DigitChar(31 - d)];
    var next := Midpoint("", last);
    MidpointBelowZeros(q, last, next);
    if d == 30 {
      assert (m + 1) / 31 == q + 1 && (m + 1) % 31 == 0;
      RepeatSnoc('0', q);
      assert next == "0V";
      assert Repeat('0', q) + "0V" == Repeat('0', q + 1) + "V";
    } else {
      assert (m + 1) / 31 == q && (m + 1) % 31 == d + 1;
    }
  }

  lemma FirstKey()
    ensures Between("", "") == Ok(AppendKey(0)) == Ok(PrependKey(0))
  {
    assert Midpoint("", "") == "V";
    assert AppendKey(0) == "V" && PrependKey(0) == "V";
  }

  /** m appends make a run of 'z' one longer every 31 operations. */
  lemma {:induction false} AppendGrowth(m: nat)
    ensures Appended(m) == Ok(AppendKey(m))
  {
    if m == 0 {
      FirstKey();
    } else {
      AppendGrowth(m - 1);
      AppendStep(m - 1, Appended(m - 1));
    }
  }

  lemma {:induction false} PrependGrowth(m: nat)
    ensures Prepended(m) == Ok(PrependKey(m))
  {
    if m == 0 {
      FirstKey();
    } else {
      PrependGrowth(m - 1);
      PrependStep(m - 1, Prepended(m - 1));
    }
  }

  /** At either end only the 48*31st operation makes a key too long. */
  lemma GrowthThreshold(m: nat)
    ensures Appended(m).Ok? && (|Appended(m).key| > MAX_LENGTH <==> m >= MAX_LENGTH * 31)
    ensures Prepended(m).Ok? && (|Prepended(m).key| > MAX_LENGTH <==> m >= MAX_LENGTH * 31)
  {
    AppendGrowth(m);
    PrependGrowth(m);
  }
}
