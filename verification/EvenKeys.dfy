/** The evenly spaced keys a list is rebalanced with, and the room they leave. */
module EvenKeys {
  import opened Common
  import opened Fracindex

  newtype int64 = x: int | -0x8000_0000_0000_0000 <= x <= 0x7FFF_FFFF_FFFF_FFFF

  // ---- powers of the base ---------------------------------------------------------------------

  function Power(k: nat): (r: nat)
    ensures r >= 1
  {
    if k == 0 then 1 else BASE * Power(k - 1)
  }

  lemma {:induction false} PowerMonotone(j: nat, k: nat)
    requires j <= k
    ensures Power(j) <= Power(k)
  {
    if j < k { PowerMonotone(j, k - 1); }
  }

  lemma PowersToTen()
    ensures Power(9) == 13537086546263552 && Power(10) == 839299365868340224 && Power(11) > INT64_MAX
  {
    assert Power(2) == 3844 && Power(4) == 14776336;
    assert Power(6) == 56800235584;
    assert Power(8) == 218340105584896;
    assert Power(9) == 13537086546263552;
  }

  /** The least exponent, from w on, whose power leaves room for n keys. */
  function WidthFrom(n: nat, w: nat): (r: nat)
    ensures r >= w && Power(r) >= n + 1
    ensures r > w ==> Power(r - 1) < n + 1
    decreases n + 1 - Power(w)
  {
    if Power(w) < n + 1 then WidthFrom(n, w + 1) else w
  }

  /** The width of the keys: the least that would do, and one digit of headroom. */
  function Width(n: nat): (w: nat)
    ensures w >= 2 && Power(w - 1) >= n + 1
  {
    WidthFrom(n, 1) + 1
  }

  /** Everything Even computes stays within int64 exactly when n + 1 is at most 62^9. */
  lemma FitsInt64(n: nat)
    ensures Power(Width(n)) <= INT64_MAX <==> n + 1 <= Power(9)
    ensures n + 1 <= Power(9) ==> Width(n) <= 10 && n + 1 <= INT64_MAX
  {
    PowersToTen();
    var w := WidthFrom(n, 1);
    if n + 1 <= Power(9) {
      if w > 9 { PowerMonotone(9, w - 1); }
      PowerMonotone(w + 1, 10);
    } else {
      if w <= 9 { PowerMonotone(w, 9); }
      PowerMonotone(11, w + 1);
    }
  }

  lemma WidthAtMost(n: nat, k: nat)
    requires k > 0 && n + 1 <= Power(k)
    ensures Width(n) <= k + 1
  {
    var w := WidthFrom(n, 1);
    if w > k { PowerMonotone(k, w - 1); }
  }

  // ---- fixed-width numbers --------------------------------------------------------------------

  function Encode(v: nat, width: nat): (s: string)
    ensures |s| == width
    ensures forall i :: 0 <= i < |s| ==> IndexByte(s[i]) >= 0
  {
    if width == 0 then "" else Encode(v / BASE, width - 1) + [DigitChar(v % BASE)]
  }

  lemma {:induction false} SameLengthLess(p: string, x: string, q: string, y: string)
    requires |p| == |q| && Less(p, q)
    ensures Less(p + x, q + y)
  {
    if p[0] == q[0] {
      SameLengthLess(p[1..], x, q[1..], y);
      assert (p + x)[1..] == p[1..] + x && (q + y)[1..] == q[1..] + y;
    }
  }

  lemma {:induction false} EncodeLess(v: nat, u: nat, width: nat)
    requires v < u < Power(width)
    ensures Less(Encode(v, width), Encode(u, width))
  {
    var p, q := Encode(v / BASE, width - 1), Encode(u / BASE, width - 1);
    if v / BASE < u / BASE {
      EncodeLess(v / BASE, u / BASE, width - 1);
      SameLengthLess(p, [DigitChar(v % BASE)], q, [DigitChar(u % BASE)]);
    } else {
      LessPrefix(p, [DigitChar(v % BASE)], [DigitChar(u % BASE)]);
    }
  }

  /** A number that is not the greatest of its width has a digit other than 'z'. */
  lemma {:induction false} SomeDigitBelowZ(v: nat, width: nat) returns (i: nat)
    requires v + 1 < Power(width)
    ensures i < width && IndexByte(Encode(v, width)[i]) < BASE - 1
  {
    if v % BASE < BASE - 1 {
      i := width - 1;
    } else {
      i := SomeDigitBelowZ(v / BASE, width - 1);
    }
  }

  lemma {:induction false} SomeDigitAboveZero(v: nat, width: nat) returns (i: nat)
    requires 0 < v < Power(width)
    ensures i < width && IndexByte(Encode(v, width)[i]) > 0
  {
    if v % BASE > 0 {
      i := width - 1;
    } else {
      i := SomeDigitAboveZero(v / BASE, width - 1);
    }
  }

  // ---- the keys -------------------------------------------------------------------------------

  function Step(n: nat): nat { Power(Width(n)) / (n + 1) }

  lemma StepBounds(n: nat)
    ensures Step(n) >= BASE && (n + 1) * Step(n) <= Power(Width(n))
  {
    DivAtLeast(Power(Width(n)), n + 1, BASE);
  }

  lemma DivAtLeast(x: nat, y: nat, z: nat)
    requires y > 0 && x >= z * y
    ensures x / y >= z && y * (x / y) <= x
  {
    assert x == (x / y) * y + x % y;
    assert (x / y + 1) * y > z * y;
  }

  lemma MultiplesApart(x: nat, y: nat, s: nat)
    requires x < y
    ensures x * s + s <= y * s
  {
    assert y * s - x * s == (y - x) * s;
    assert (y - x - 1) * s >= 0;
  }

  function KeyValue(i: nat, n: nat): nat
    requires i < n
  {
    (i + 1) * Step(n)
  }

  lemma KeyValueBounds(i: nat, n: nat)
    requires i < n
    ensures BASE <= KeyValue(i, n) && KeyValue(i, n) + BASE <= Power(Width(n))
  {
    var s := Step(n);
    StepBounds(n);
    MultiplesApart(0, i + 1, s);
    MultiplesApart(i + 1, n + 1, s);
  }

  /** The i-th of n even keys; it is lengthened rather than left ending in '0'. */
  function Key(i: nat, n: nat): string
    requires i < n
  {
    var k := Encode(KeyValue(i, n), Width(n));
    if k[|k| - 1] == '0' then k + "V" else k
  }

  function Even(n: int): (keys: seq<string>)
    ensures |keys| == if n <= 0 then 0 else n
  {
    if n <= 0 then [] else seq(n, i requires 0 <= i < n => Key(i, n))
  }

  /** All but the last digit of a key: the part in which two even keys already differ. */
  function Head(i: nat, n: nat): (h: string)
    requires i < n
    ensures |h| == Width(n) - 1
  {
    Encode(KeyValue(i, n) / BASE, Width(n) - 1)
  }

  lemma KeyShape(i: nat, n: nat) returns (tail: string)
    requires i < n
    ensures Key(i, n) == Head(i, n) + tail && 1 <= |tail| <= 2
    ensures Valid(Key(i, n))
  {
    var v := KeyValue(i, n);
    tail := [DigitChar(v % BASE)] + (if v % BASE == 0 then "V" else "");
    assert Encode(v, Width(n)) == Head(i, n) + [DigitChar(v % BASE)];
    assert Key(i, n) == Head(i, n) + tail;
  }

  lemma HeadsIncrease(i: nat, j: nat, n: nat)
    requires i < j < n
    ensures Less(Head(i, n), Head(j, n))
  {
    ValuesApart(i, j, n);
    HeadOrder(KeyValue(i, n), KeyValue(j, n), Width(n));
  }

  lemma ValuesApart(i: nat, j: nat, n: nat)
    requires i < j < n
    ensures KeyValue(i, n) + BASE <= KeyValue(j, n) < Power(Width(n))
  {
    StepBounds(n);
    KeyValueBounds(j, n);
    MultiplesApart(i + 1, j + 1, Step(n));
  }

  lemma HeadOrder(v: nat, u: nat, width: nat)
    requires width > 0 && v + BASE <= u < Power(width)
    ensures Less(Encode(v / BASE, width - 1), Encode(u / BASE, width - 1))
  {
    EncodeLess(v / BASE, u / BASE, width - 1);
  }

  /** n keys, all valid, strictly increasing, and at most one digit over the width. */
  lemma EvenIsOrdered(n: nat)
    ensures |Even(n)| == n
    ensures forall i :: 0 <= i < n ==> Valid(Even(n)[i]) && |Even(n)[i]| <= Width(n) + 1
    ensures forall i, j :: 0 <= i < j < n ==> Less(Even(n)[i], Even(n)[j])
  {
    forall i | 0 <= i < n ensures Valid(Even(n)[i]) && |Even(n)[i]| <= Width(n) + 1 {
      var _ := KeyShape(i, n);
    }
    forall i, j | 0 <= i < j < n ensures Less(Even(n)[i], Even(n)[j]) {
      var x := KeyShape(i, n);
      var y := KeyShape(j, n);
      HeadsIncrease(i, j, n);
      SameLengthLess(Head(i, n), x, Head(j, n), y);
    }
  }

  // ---- the room they leave --------------------------------------------------------------------

  lemma {:induction false} ShortBetweenHeads(p: string, x: string, q: string, y: string)
    requires |p| == |q| && Less(p, q) && y != ""
    requires Gap(p + x, q + y)
    ensures |Midpoint(p + x, q + y)| <= |p|
    decreases |p|
  {
    var a, b := p + x, q + y;
    if p[0] == q[0] {
      assert a[1..] == p[1..] + x && b[1..] == q[1..] + y;
      GapStep(a, b);
      ShortBetweenHeads(p[1..], x, q[1..], y);
      MidpointStep(a, b);
    } else {
      DigitsApart(a, b);
    }
  }

  /** A common first digit just moves to the front. */
  lemma MidpointStep(a: string, b: string)
    requires Gap(a, b) && |a| > 1 && b != "" && a[0] == b[0]
    ensures Gap(SliceFrom(a, 1), SliceFrom(b, 1))
    ensures |Midpoint(a, b)| == 1 + |Midpoint(SliceFrom(a, 1), SliceFrom(b, 1))|
  {
    GapStep(a, b);
    var a', b' := SliceFrom(a, 1), SliceFrom(b, 1);
    var n := CommonPrefix(a', b');
    assert CommonPrefix(a, b) == n + 1;
    GapAfterPrefix(a, b, n + 1);
    SliceTwice(a, n);
    SliceTwice(b, n);
    LengthAfterPrefix(a, b);
    if n > 0 {
      GapAfterPrefix(a', b', n);
      LengthAfterPrefix(a', b');
    } else {
      assert SliceFrom(a', 0) == a' && SliceFrom(b', 0) == b';
    }
  }

  lemma LengthAfterPrefix(a: string, b: string)
    requires Gap(a, b) && a != "" && b != "" && CommonPrefix(a, b) > 0
    requires Gap(SliceFrom(a, CommonPrefix(a, b)), SliceFrom(b, CommonPrefix(a, b)))
    ensures |Midpoint(a, b)| ==
            CommonPrefix(a, b) + |Midpoint(SliceFrom(a, CommonPrefix(a, b)), SliceFrom(b, CommonPrefix(a, b)))|
  {
  }

  lemma {:induction false} ShortAbove(a: string, i: nat)
    requires Valid(a) && i < |a| && IndexByte(a[i]) < BASE - 1
    ensures |Midpoint(a, "")| <= i + 1
  {
    if Digit(a, 0) == BASE - 1 {
      ValidSlice(a, 1);
      ShortAbove(a[1..], i - 1);
    }
  }

  lemma {:induction false} ShortBelow(b: string, i: nat)
    requires Valid(b) && i < |b| - 1 && IndexByte(b[i]) > 0
    ensures |Midpoint("", b)| <= i + 2
  {
    if Digit(b, 0) == 0 {
      ValidSlice(b, 1);
      ShortBelow(b[1..], i - 1);
    }
  }

  /** Between any two even keys there is a key shorter than the width. */
  lemma EvenLeavesRoomBetween(n: nat, i: nat, j: nat)
    requires i < j < n
    ensures Between(Even(n)[i], Even(n)[j]).Ok?
    ensures |Between(Even(n)[i], Even(n)[j]).key| <= Width(n) - 1
  {
    EvenIsOrdered(n);
    var x := KeyShape(i, n);
    var y := KeyShape(j, n);
    HeadsIncrease(i, j, n);
    RoomBetween(Even(n)[i], Even(n)[j], Head(i, n), x, Head(j, n), y);
  }

  lemma RoomBetween(a: string, b: string, p: string, x: string, q: string, y: string)
    requires Valid(a) && Valid(b) && Less(a, b)
    requires a == p + x && b == q + y && |p| == |q| && Less(p, q) && y != ""
    ensures Between(a, b).Ok? && |Between(a, b).key| <= |p|
  {
    ShortBetweenHeads(p, x, q, y);
  }

  /** Before the first of the even keys there is a key of at most the width. */
  lemma EvenLeavesRoomBelow(n: nat)
    requires n > 0
    ensures Between("", Even(n)[0]).Ok? && |Between("", Even(n)[0]).key| <= Width(n)
  {
    var tail := KeyShape(0, n);
    KeyValueBounds(0, n);
    var d := SomeDigitAboveZero(KeyValue(0, n) / BASE, Width(n) - 1);
    RoomBelow(Even(n)[0], Head(0, n), tail, d);
  }

  lemma RoomBelow(k: string, p: string, tail: string, d: nat)
    requires Valid(k) && k == p + tail && tail != "" && d < |p| && IndexByte(p[d]) > 0
    ensures Between("", k).Ok? && |Between("", k).key| <= |p| + 1
  {
    assert k[d] == p[d];
    ShortBelow(k, d);
  }

  /** After the last of the even keys there is a key of at most the width. */
  lemma EvenLeavesRoomAbove(n: nat)
    requires n > 0
    ensures Between(Even(n)[n - 1], "").Ok? && |Between(Even(n)[n - 1], "").key| <= Width(n)
  {
    var _ := KeyShape(n - 1, n);
    KeyValueBounds(n - 1, n);
    var d := SomeDigitBelowZ(KeyValue(n - 1, n), Width(n));
    RoomAbove(Even(n)[n - 1], Encode(KeyValue(n - 1, n), Width(n)), d);
  }

  lemma RoomAbove(k: string, p: string, d: nat)
    requires Valid(k) && p <= k && d < |p| && IndexByte(p[d]) < BASE - 1
    ensures Between(k, "").Ok? && |Between(k, "").key| <= |p|
  {
    assert k[d] == p[d];
    ShortAbove(k, d);
  }

  // ---- the loops ------------------------------------------------------------------------------

  method Pow(base: int64, exp: int64) returns (r: int64)
    requires base == 62 && 0 <= exp <= 10
    ensures r as int == Power(exp as int)
  {
    r := 1;
    var e: int64 := 0;
    while e < exp
      invariant 0 <= e <= exp
      invariant r as int == Power(e as int)
    {
      PowersToTen();
      PowerMonotone(e as int + 1, 10);
      r := r * base;
      e := e + 1;
    }
  }

  method EncodeKey(v0: int64, width: int64) returns (s: string)
    requires 0 <= v0 && 0 <= width
    ensures s == Encode(v0 as int, width as int)
  {
    var buf := new char[width as int];
    var v, i := v0, width - 1;
    ghost var written := "";
    while i >= 0
      invariant -1 <= i < width && 0 <= v
      invariant buf[i as int + 1..] == written
      invariant Encode(v as int, i as int + 1) + written == Encode(v0 as int, width as int)
    {
      var d := (v % 62) as int;
      DigitsTable(d);
      EncodeSplit(v as int, i as int, written);
      buf[i as int] := DIGITS[d];
      assert buf[i as int..] == [buf[i as int]] + buf[i as int + 1..];
      written := [DigitChar(d)] + written;
      v := v / 62;
      i := i - 1;
    }
    assert buf[0..] == buf[..];
    return buf[..];
  }

  lemma EncodeSplit(v: nat, i: nat, rest: string)
    ensures Encode(v, i + 1) + rest == Encode(v / BASE, i) + ([DigitChar(v % BASE)] + rest)
  {
  }

  /** The first loop of Even: the least width that leaves room for n keys. */
  method FindWidth(n: int64) returns (width: int64)
    requires 0 < n as int && n as int + 1 <= Power(9)
    ensures width as int == Width(n as int)
    ensures 2 <= width <= 10
  {
    PowersToTen();
    FitsInt64(n as int);
    width := 1;
    var p := Pow(62, width);
    while p < n + 1
      invariant 1 <= width < 10
      invariant p as int == Power(width as int)
      invariant WidthFrom(n as int, width as int) == WidthFrom(n as int, 1)
      decreases 10 - width
    {
      width := width + 1;
      p := Pow(62, width);
    }
    width := width + 1;
  }

  /** The second loop of Even: the multiples of step, written out. */
  method FillKeys(n: int64, step: int64, width: int64) returns (keys: seq<string>)
    requires 0 < n as int && step as int == Step(n as int) && width as int == Width(n as int)
    requires Power(width as int) <= INT64_MAX
    ensures keys == Even(n as int)
  {
    var out := new string[n as int];
    var i: int64 := 0;
    while i < n
      invariant 0 <= i <= n
      invariant forall j :: 0 <= j < i as int ==> out[j] == Key(j, n as int)
    {
      ghost var v := KeyValue(i as int, n as int);
      KeyValueBounds(i as int, n as int);
      var k := EncodeKey((i + 1) * step, width);
      assert k == Encode(v, Width(n as int));
      if k[|k| - 1] == '0' {
        k := k + "V";
      }
      out[i as int] := k;
      i := i + 1;
    }
    return out[..];
  }

  /** Even in the source's form, in 64-bit arithmetic: nothing overflows up to 62^9 - 1 keys. */
  method GenerateEven(n: int64) returns (keys: seq<string>)
    requires n as int + 1 <= Power(9)
    ensures keys == Even(n as int)
  {
    if n <= 0 {
      return [];
    }
    var width := FindWidth(n);
    var step := EvenStep(n, width);
    keys := FillKeys(n, step, width);
  }

  method EvenStep(n: int64, width: int64) returns (step: int64)
    requires 0 < n && n as int + 1 <= Power(9) && 2 <= width <= 10 && width as int == Width(n as int)
    ensures step as int == Step(n as int) && Power(width as int) <= INT64_MAX
  {
    FitsInt64(n as int);
    var total := Pow(62, width);
    var parts := n + 1;
    step := total / parts;
  }
}
