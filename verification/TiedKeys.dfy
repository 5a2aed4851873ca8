/** Lists in which several members have one key: two items placed between the same neighbours make one.
    Such a list is read in order of key and id, and placing into it works as in any other. */
module TiedKeys {
  import opened Common
  import opened Fracindex
  import opened EvenKeys
  import opened Position
  import opened Board

  ghost predicate ValidKeys(rest: seq<Item>) { forall i :: 0 <= i < |rest| ==> Valid(rest[i].key) }

  /** In order of key and id, with valid keys and no id twice. */
  ghost predicate Sorted(rest: seq<Item>) {
    ValidKeys(rest) && DistinctIds(rest) && forall i, j :: 0 <= i < j < |rest| ==> RowBefore(rest[i], rest[j])
  }

  lemma OrderedIsSorted(rest: seq<Item>)
    requires Ordered(rest)
    ensures Sorted(rest)
  {
  }

  predicate AtMost(a: string, b: string) { a == b || Less(a, b) }

  // ---- the questions of a group ---------------------------------------------------------------

  lemma {:induction false} AfterIsAbove(rest: seq<Item>, k: string)
    requires ValidKeys(rest)
    ensures After(rest, k) == "" || (Valid(After(rest, k)) && Less(k, After(rest, k)))
  {
    if rest != [] { AfterIsAbove(rest[1..], k); }
  }

  lemma {:induction false} BeforeIsBelow(rest: seq<Item>, k: string)
    requires ValidKeys(rest)
    ensures Before(rest, k) == "" || (Valid(Before(rest, k)) && Less(Before(rest, k), k))
  {
    if rest != [] { BeforeIsBelow(rest[..|rest| - 1], k); }
  }

  /** What is above k starts with the key After gives. */
  lemma {:induction false} AfterIsNext(rest: seq<Item>, k: string, t: nat)
    requires Sorted(rest) && t < |rest| && Less(k, rest[t].key)
    ensures After(rest, k) != "" && AtMost(After(rest, k), rest[t].key)
  {
    if !Less(k, rest[0].key) {
      AfterIsNext(rest[1..], k, t - 1);
    } else {
      assert Valid(rest[0].key);
    }
  }

  lemma {:induction false} BeforeIsPrevious(rest: seq<Item>, k: string, t: nat)
    requires Sorted(rest) && t < |rest| && Less(rest[t].key, k)
    ensures Before(rest, k) != "" && AtMost(rest[t].key, Before(rest, k))
  {
    var n := |rest| - 1;
    if !Less(rest[n].key, k) {
      BeforeIsPrevious(rest[..n], k, t);
    } else {
      assert Valid(rest[n].key);
    }
  }

  // ---- placing into any list of valid keys ----------------------------------------------------

  /** The bounds of a gap are valid and in order, whatever the order of the list. */
  lemma GapIsProper(rest: seq<Item>, h: Hints)
    requires ValidKeys(rest)
    ensures GapOf(rest, h).None? <==> SlotOf(rest, h).None?
    ensures GapOf(rest, h).Some? ==>
      var b := GapOf(rest, h).value;
      ValidOrEmpty(b.lo) && ValidOrEmpty(b.hi) && (b.hi == "" || b.lo == "" || Less(b.lo, b.hi))
  {
    if h.after.Some? && KeyOf(rest, h.after.value).Some? { AfterIsAbove(rest, KeyOf(rest, h.after.value).value); }
    if h.before.Some? && KeyOf(rest, h.before.value).Some? { BeforeIsBelow(rest, KeyOf(rest, h.before.value).value); }
  }

  /** A placement never fails but for an unknown neighbour. */
  lemma PlaceOnceSucceeds(rest: seq<Item>, h: Hints)
    requires ValidKeys(rest)
    ensures PlaceOnce(rest, h).Placed? <==> SlotOf(rest, h).Some?
    ensures PlaceOnce(rest, h).NoNeighbour? <==> SlotOf(rest, h).None?
    ensures PlaceOnce(rest, h).Placed? ==> Valid(PlaceOnce(rest, h).key)
  {
    GapIsProper(rest, h);
    if GapOf(rest, h).Some? { BetweenCorrect(GapOf(rest, h).value.lo, GapOf(rest, h).value.hi); }
  }

  // ---- where the item lands -------------------------------------------------------------------

  /** Above every member with key low or less, below every member with a greater one. */
  ghost predicate RightAbove(rest: seq<Item>, low: string, k: string) {
    forall t :: 0 <= t < |rest| ==> if AtMost(rest[t].key, low) then Less(rest[t].key, k) else Less(k, rest[t].key)
  }

  ghost predicate RightBelow(rest: seq<Item>, high: string, k: string) {
    forall t :: 0 <= t < |rest| ==> if Less(rest[t].key, high) then Less(rest[t].key, k) else Less(k, rest[t].key)
  }

  /** What the hints ask for, in keys: between two that are in order, right above the first alone or of two
      that are not, right below the second alone, or at an end. */
  ghost predicate Lands(rest: seq<Item>, h: Hints, k: string)
    requires SlotOf(rest, h).Some?
  {
    if h.after.Some? then
      var low := KeyOf(rest, h.after.value).value;
      if h.before.Some? && Less(low, KeyOf(rest, h.before.value).value)
      then Less(low, k) && Less(k, KeyOf(rest, h.before.value).value)
      else RightAbove(rest, low, k)
    else if h.before.Some? then RightBelow(rest, KeyOf(rest, h.before.value).value, k)
    else forall t :: 0 <= t < |rest| ==> if h.defaultTop then Less(k, rest[t].key) else Less(rest[t].key, k)
  }

  ghost predicate InGap(b: Bounds, k: string) { (b.lo != "" ==> Less(b.lo, k)) && (b.hi != "" ==> Less(k, b.hi)) }

  lemma LandsRightAbove(rest: seq<Item>, low: string, k: string)
    requires Sorted(rest) && Less(low, k) && (After(rest, low) != "" ==> Less(k, After(rest, low)))
    ensures RightAbove(rest, low, k)
  {
    forall t | 0 <= t < |rest| ensures if AtMost(rest[t].key, low) then Less(rest[t].key, k) else Less(k, rest[t].key) {
      LessTotal(rest[t].key, low);
      if Less(rest[t].key, low) {
        LessTrans(rest[t].key, low, k);
      } else if Less(low, rest[t].key) {
        AfterIsNext(rest, low, t);
        if After(rest, low) != rest[t].key { LessTrans(k, After(rest, low), rest[t].key); }
      }
    }
  }

  lemma LandsRightBelow(rest: seq<Item>, high: string, k: string)
    requires Sorted(rest) && Less(k, high) && (Before(rest, high) != "" ==> Less(Before(rest, high), k))
    ensures RightBelow(rest, high, k)
  {
    forall t | 0 <= t < |rest| ensures if Less(rest[t].key, high) then Less(rest[t].key, k) else Less(k, rest[t].key) {
      LessTotal(rest[t].key, high);
      if Less(rest[t].key, high) {
        BeforeIsPrevious(rest, high, t);
        if Before(rest, high) != rest[t].key { LessTrans(rest[t].key, Before(rest, high), k); }
      } else if Less(high, rest[t].key) {
        LessTrans(k, high, rest[t].key);
      }
    }
  }

  lemma LandsAtEnd(rest: seq<Item>, top: bool, k: string)
    requires Sorted(rest) && rest != []
    requires if top then Less(k, rest[0].key) else Less(rest[|rest| - 1].key, k)
    ensures forall t :: 0 <= t < |rest| ==> if top then Less(k, rest[t].key) else Less(rest[t].key, k)
  {
    var n := |rest| - 1;
    forall t | 0 <= t < |rest| ensures if top then Less(k, rest[t].key) else Less(rest[t].key, k) {
      if top && t > 0 {
        assert RowBefore(rest[0], rest[t]);
        if rest[0].key != rest[t].key { LessTrans(k, rest[0].key, rest[t].key); }
      }
      if !top && t < n {
        assert RowBefore(rest[t], rest[n]);
        if rest[n].key != rest[t].key { LessTrans(rest[t].key, rest[n].key, k); }
      }
    }
  }

  lemma GapLands(rest: seq<Item>, h: Hints, k: string)
    requires Sorted(rest) && GapOf(rest, h).Some? && SlotOf(rest, h).Some? && InGap(GapOf(rest, h).value, k)
    ensures Lands(rest, h, k)
  {
    if h.after.Some? {
      var i := IndexOf(rest, h.after.value);
      assert Valid(rest[i].key);
      if h.before.Some? {
        var j := IndexOf(rest, h.before.value);
        assert Valid(rest[j].key);
        if !Less(rest[i].key, rest[j].key) { LandsRightAbove(rest, rest[i].key, k); }
      } else {
        LandsRightAbove(rest, rest[i].key, k);
      }
    } else if h.before.Some? {
      var j := IndexOf(rest, h.before.value);
      assert Valid(rest[j].key);
      LandsRightBelow(rest, rest[j].key, k);
    } else if rest != [] {
      assert Valid(rest[0].key) && Valid(rest[|rest| - 1].key);
      LandsAtEnd(rest, h.defaultTop, k);
    }
  }

  lemma PlaceOnceLands(rest: seq<Item>, h: Hints)
    requires Sorted(rest) && SlotOf(rest, h).Some?
    ensures PlaceOnce(rest, h).Placed? && Valid(PlaceOnce(rest, h).key) && Lands(rest, h, PlaceOnce(rest, h).key)
  {
    PlaceOnceSucceeds(rest, h);
    GapIsProper(rest, h);
    var b := GapOf(rest, h).value;
    BetweenCorrect(b.lo, b.hi);
    GapLands(rest, h, PlaceOnce(rest, h).key);
  }

  /** The contract of Place for every list the service can have, members with equal keys included: it fails
      exactly on an unknown neighbour; otherwise the key is valid, at most 48 long and where the hints ask
      for, and the others keep their ids and order. */
  lemma PlaceLands(rest: seq<Item>, h: Hints)
    requires Sorted(rest) && |rest| + 1 <= Power(9)
    ensures Sorted(RestAfter(rest, h)) && Ids(RestAfter(rest, h)) == Ids(rest)
    ensures SlotOf(RestAfter(rest, h), h) == SlotOf(rest, h)
    ensures Place(rest, h).NoNeighbour? <==> SlotOf(rest, h).None?
    ensures SlotOf(rest, h).Some? ==>
      && Place(rest, h).Placed?
      && Valid(Place(rest, h).key) && |Place(rest, h).key| <= MAX_LENGTH
      && Lands(RestAfter(rest, h), h, Place(rest, h).key)
      && (NarrowHints(rest, h) ==> Fresh(RestAfter(rest, h), Place(rest, h).key))
  {
    PlaceOnceSucceeds(rest, h);
    if NeedsRebalance(rest, h) {
      RebalancedLands(rest, h);
    } else if SlotOf(rest, h).Some? {
      PlaceOnceLands(rest, h);
    }
    if SlotOf(rest, h).Some? && NarrowHints(rest, h) {
      RekeyedLength(rest, RestAfter(rest, h));
      LandsOnFree(RestAfter(rest, h), h, Place(rest, h).key);
    }
  }

  /** For hints that ask for one place no member has the key. */
  lemma LandsOnFree(rest: seq<Item>, h: Hints, k: string)
    requires Sorted(rest) && NarrowHints(rest, h) && Lands(rest, h, k)
    ensures Fresh(rest, k)
  {
    LessIrreflexive(k);
    if h.after.Some? && h.before.Some? {
      var i, j := IndexOf(rest, h.after.value), IndexOf(rest, h.before.value);
      if Less(rest[i].key, rest[j].key) {
        if j <= i { KeysInOrder(rest, j, i); }
        BetweenIsFree(rest, i, k);
      }
    }
  }

  lemma BetweenIsFree(rest: seq<Item>, lo: nat, k: string)
    requires Sorted(rest) && lo + 1 < |rest| && Less(rest[lo].key, k) && Less(k, rest[lo + 1].key)
    ensures Fresh(rest, k)
  {
    forall t | 0 <= t < |rest| ensures rest[t].key != k {
      LessTotal(rest[lo].key, k);
      LessTotal(rest[lo + 1].key, k);
      if t <= lo { KeysInOrder(rest, t, lo); } else { KeysInOrder(rest, lo + 1, t); }
    }
  }

  lemma RebalancedLands(rest: seq<Item>, h: Hints)
    requires Sorted(rest) && |rest| + 1 <= Power(9) && SlotOf(rest, h).Some?
    ensures var r := Rekeyed(rest);
      && Ordered(r) && Sorted(r) && Ids(r) == Ids(rest) && SlotOf(r, h) == SlotOf(rest, h)
      && PlaceOnce(r, h).Placed? && Valid(PlaceOnce(r, h).key) && |PlaceOnce(r, h).key| <= MAX_LENGTH
      && Lands(r, h, PlaceOnce(r, h).key)
  {
    var r := Rekeyed(rest);
    RekeyedIsOrdered(rest);
    OrderedIsSorted(r);
    SameSlot(rest, r, h);
    PlaceOnceLands(r, h);
    GapIsSlot(r, h);
    ShortAfterRebalance(rest, SlotOf(rest, h).value);
  }

  // ---- the list afterwards --------------------------------------------------------------------

  /** Reading the list back, the new row is in one place and the others are in their order. */
  lemma {:induction false} InsertSorted(rest: seq<Item>, x: Item) returns (at: nat)
    requires Sorted(rest) && forall t :: 0 <= t < |rest| ==> rest[t].id != x.id
    ensures at <= |rest| && InsertRow(rest, x) == WithItem(rest, x, at)
    ensures forall t :: 0 <= t < |rest| ==> if t < at then RowBefore(rest[t], x) else RowBefore(x, rest[t])
  {
    if rest == [] {
      at := 0;
    } else if RowBefore(x, rest[0]) {
      at := 0;
      forall t | 0 <= t < |rest| ensures RowBefore(x, rest[t]) {
        if t > 0 { RowBeforeTrans(x, rest[0], rest[t]); }
      }
    } else {
      var tail := rest[1..];
      TailSorted(rest);
      at := InsertSorted(tail, x);
      NotBefore(rest[0], x);
      InsertBehind(rest, x, at);
      at := at + 1;
    }
  }

  lemma NotBefore(y: Item, x: Item)
    requires !RowBefore(x, y) && y.id != x.id
    ensures RowBefore(y, x)
  {
    LessTotal(x.key, y.key);
  }

  lemma InsertBehind(rest: seq<Item>, x: Item, at: nat)
    requires rest != [] && at < |rest| && !RowBefore(x, rest[0]) &&
        InsertRow(rest[1..], x) == WithItem(rest[1..], x, at)
    ensures InsertRow(rest, x) == WithItem(rest, x, at + 1)
  {
    assert WithItem(rest, x, at + 1) == [rest[0]] + WithItem(rest[1..], x, at);
  }

  lemma RowBeforeTrans(x: Item, y: Item, z: Item)
    requires RowBefore(x, y) && RowBefore(y, z)
    ensures RowBefore(x, z)
  {
    if Less(x.key, y.key) && Less(y.key, z.key) { LessTrans(x.key, y.key, z.key); }
  }

  lemma InsertedSorted(rest: seq<Item>, x: Item)
    requires Sorted(rest) && Valid(x.key) && forall t :: 0 <= t < |rest| ==> rest[t].id != x.id
    ensures Sorted(InsertRow(rest, x))
  {
    var at := InsertSorted(rest, x);
    WithItemSorted(rest, x, at);
  }

  lemma WithItemSorted(rest: seq<Item>, x: Item, at: nat)
    requires Sorted(rest) && Valid(x.key) && at <= |rest| && forall t :: 0 <= t < |rest| ==> rest[t].id != x.id
    requires forall t :: 0 <= t < |rest| ==> if t < at then RowBefore(rest[t], x) else RowBefore(x, rest[t])
    ensures Sorted(WithItem(rest, x, at))
  {
  }

  lemma {:induction false} WithoutMembers(rows: seq<Item>, id: Id)
    ensures forall t :: 0 <= t < |Without(rows, id)| ==> Without(rows, id)[t] in rows && Without(rows, id)[t].id != id
  {
    if rows != [] { WithoutMembers(rows[1..], id); }
  }

  lemma {:induction false} WithoutIsSorted(rows: seq<Item>, id: Id)
    requires Sorted(rows)
    ensures Sorted(Without(rows, id))
  {
    if rows != [] {
      var tail := Without(rows[1..], id);
      TailSorted(rows);
      WithoutIsSorted(rows[1..], id);
      if rows[0].id != id {
        WithoutMembers(rows[1..], id);
        FirstBefore(rows, tail);
        ConsSorted(rows[0], tail);
      } else {
        assert [] + tail == tail;
      }
    }
  }

  lemma TailSorted(rows: seq<Item>)
    requires Sorted(rows) && rows != []
    ensures Sorted(rows[1..])
  {
  }

  lemma FirstBefore(rows: seq<Item>, tail: seq<Item>)
    requires Sorted(rows) && rows != [] && forall t :: 0 <= t < |tail| ==> tail[t] in rows[1..]
    ensures forall t :: 0 <= t < |tail| ==> RowBefore(rows[0], tail[t]) && rows[0].id != tail[t].id
  {
    forall t | 0 <= t < |tail| ensures RowBefore(rows[0], tail[t]) && rows[0].id != tail[t].id {
      var j :| 0 <= j < |rows[1..]| && rows[1..][j] == tail[t];
      assert rows[j + 1] == tail[t];
    }
  }

  lemma ConsSorted(x: Item, tail: seq<Item>)
    requires Sorted(tail) && Valid(x.key)
    requires forall t :: 0 <= t < |tail| ==> RowBefore(x, tail[t]) && x.id != tail[t].id
    ensures Sorted([x] + tail)
  {
  }

  /** Any sequence of moves leaves a list in order of key and id. */
  lemma MoveKeepsSorted(rows: seq<Item>, id: Id, h: Hints)
    requires Sorted(rows) && |rows| + 1 <= Power(9)
    ensures Sorted(Moved(rows, id, h))
  {
    var rest := Without(rows, id);
    WithoutIsSorted(rows, id);
    WithoutMembers(rows, id);
    PlaceLands(rest, h);
    if Place(rest, h).Placed? {
      var rekeyed := RestAfter(rest, h);
      forall t | 0 <= t < |rekeyed| ensures rekeyed[t].id != id {
        assert |rekeyed| == |Ids(rekeyed)| == |Ids(rest)| && rekeyed[t].id == Ids(rest)[t] == rest[t].id;
      }
      InsertedSorted(rekeyed, Item(id, Place(rest, h).key));
    }
  }

  // ---- the client's order ---------------------------------------------------------------------

  /** The two members around the place the hints ask for have one key. */
  predicate TiedSlot(rest: seq<Item>, h: Hints)
    requires SlotOf(rest, h).Some?
  {
    var s := SlotOf(rest, h).value;
    0 <= s.lo && s.hi < |rest| && rest[s.lo].key == rest[s.hi].key
  }

  lemma KeysInOrder(rest: seq<Item>, t: nat, u: nat)
    requires Sorted(rest) && t <= u < |rest|
    ensures AtMost(rest[t].key, rest[u].key) && !Less(rest[u].key, rest[t].key)
  {
    LessTotal(rest[t].key, rest[u].key);
    if t < u { assert RowBefore(rest[t], rest[u]); }
  }

  /** Below the key of the next member, if the two differ, is everything up to this one. */
  lemma Apart(rest: seq<Item>, t: nat, lo: nat)
    requires Sorted(rest) && t <= lo && lo + 1 < |rest| && rest[lo].key != rest[lo + 1].key
    ensures Less(rest[t].key, rest[lo + 1].key) && !AtMost(rest[lo + 1].key, rest[t].key)
  {
    assert RowBefore(rest[lo], rest[lo + 1]);
    KeysInOrder(rest, t, lo);
    if rest[t].key != rest[lo].key { LessTrans(rest[t].key, rest[lo].key, rest[lo + 1].key); }
    LessTotal(rest[t].key, rest[lo + 1].key);
  }

  ghost predicate Splits(rest: seq<Item>, k: string, at: nat) {
    && (forall t :: 0 <= t < |rest| && t < at ==> Less(rest[t].key, k))
    && (at < |rest| ==> Less(k, rest[at].key))
  }

  lemma AboveSplits(rest: seq<Item>, lo: nat, k: string)
    requires Sorted(rest) && lo < |rest| && RightAbove(rest, rest[lo].key, k)
    requires lo + 1 < |rest| ==> rest[lo].key != rest[lo + 1].key
    ensures Splits(rest, k, lo + 1)
  {
    forall t | 0 <= t <= lo ensures Less(rest[t].key, k) { KeysInOrder(rest, t, lo); }
    if lo + 1 < |rest| { Apart(rest, lo, lo); }
  }

  lemma BelowSplits(rest: seq<Item>, hi: nat, k: string)
    requires Sorted(rest) && hi < |rest| && RightBelow(rest, rest[hi].key, k)
    requires hi > 0 ==> rest[hi - 1].key != rest[hi].key
    ensures Splits(rest, k, hi)
  {
    forall t | 0 <= t < hi ensures Less(rest[t].key, k) { Apart(rest, t, hi - 1); }
    LessTotal(rest[hi].key, rest[hi].key);
  }

  lemma BetweenSplits(rest: seq<Item>, lo: nat, k: string)
    requires Sorted(rest) && lo + 1 < |rest| && Less(rest[lo].key, k) && Less(k, rest[lo + 1].key)
    ensures Splits(rest, k, lo + 1)
  {
    forall t | 0 <= t <= lo ensures Less(rest[t].key, k) {
      KeysInOrder(rest, t, lo);
      if rest[t].key != rest[lo].key { LessTrans(rest[t].key, rest[lo].key, k); }
    }
  }

  /** Where hints ask for one place and the members around it differ, the key lands in that place. */
  lemma LandsInPlace(rest: seq<Item>, h: Hints, k: string)
    requires Sorted(rest) && NarrowHints(rest, h) && Lands(rest, h, k) && (h.after.Some? || h.before.Some?)
    requires !TiedSlot(rest, h)
    ensures Splits(rest, k, SlotOf(rest, h).value.hi)
  {
    if h.after.Some? {
      var i := IndexOf(rest, h.after.value);
      if h.before.Some? && Less(rest[i].key, rest[IndexOf(rest, h.before.value)].key) {
        var j := IndexOf(rest, h.before.value);
        if j <= i { KeysInOrder(rest, j, i); }
        BetweenSplits(rest, i, k);
      } else {
        NotBetween(rest, h, i);
        AboveSplits(rest, i, k);
      }
    } else {
      BelowSplits(rest, IndexOf(rest, h.before.value), k);
    }
  }

  /** Hints that are not in key order ask for the place right after the first. */
  lemma NotBetween(rest: seq<Item>, h: Hints, i: nat)
    requires Sorted(rest) && NarrowHints(rest, h) && h.after.Some? && i == IndexOf(rest, h.after.value)
    ensures SlotOf(rest, h) == Some(Slot(i, i + 1))
  {
  }

  /** Where they have one key, it lands on one side of all members with that key. */
  lemma LandsBeyond(rest: seq<Item>, h: Hints, k: string)
    requires Sorted(rest) && NarrowHints(rest, h) && Lands(rest, h, k) && (h.after.Some? || h.before.Some?)
    requires TiedSlot(rest, h)
    ensures var s := SlotOf(rest, h).value; Less(rest[s.hi].key, k) || Less(k, rest[s.lo].key)
  {
    var s := SlotOf(rest, h).value;
    LessTotal(rest[s.lo].key, rest[s.hi].key);
    if h.after.Some? {
      NotBetween(rest, h, s.lo);
      if h.before.Some? {
        var j := IndexOf(rest, h.before.value);
        if j <= s.lo { KeysInOrder(rest, j, s.lo); }
      }
    }
  }

  lemma InsertedAt(rest: seq<Item>, x: Item, at: nat)
    requires Splits(rest, x.key, at) && at <= |rest|
    ensures InsertRow(rest, x) == WithItem(rest, x, at)
  {
    InsertRowAt(rest, x, at);
  }

  /** A row that sorts beyond a place is not read back there. */
  lemma InsertedElsewhere(rest: seq<Item>, x: Item, lo: nat)
    requires Sorted(rest) && lo + 1 < |rest| && forall t :: 0 <= t < |rest| ==> rest[t].id != x.id
    requires Less(rest[lo + 1].key, x.key) || Less(x.key, rest[lo].key)
    ensures |InsertRow(rest, x)| > lo + 1 && InsertRow(rest, x)[lo + 1].id != x.id
  {
    var at := InsertSorted(rest, x);
    LessTotal(rest[lo + 1].key, x.key);
    LessTotal(rest[lo].key, x.key);
    assert at != lo + 1;
  }

  lemma ClientPoint(rest: seq<Item>, after: Option<Id>, before: Option<Id>)
    requires DistinctIds(rest) && (after.Some? || before.Some?) && NarrowHints(rest, MoveHints(after, before))
    ensures InsertionPoint(Ids(rest), after, before) == SlotOf(rest, MoveHints(after, before)).value.hi
  {
    ClientPointIsSlot(rest, after, before);
  }

  lemma ShownAt(ids: seq<Id>, id: Id, rest: seq<Id>, after: Option<Id>, before: Option<Id>)
    requires id in ids && WithoutId(ids, id) == rest
    ensures var at := InsertionPoint(rest, after, before);
      |PlaceAfter(ids, id, after, before)| > at && PlaceAfter(ids, id, after, before)[at] == id
  {
  }

  lemma OneLess(rows: seq<Item>, id: Id)
    requires DistinctIds(rows) && IndexOf(rows, id) >= 0
    ensures |Without(rows, id)| + 1 == |rows|
  {
    WithoutAt(rows, IndexOf(rows, id));
  }

  lemma AgreesInPlace(rows: seq<Item>, id: Id, after: Option<Id>, before: Option<Id>, rekeyed: seq<Item>, key: string)
    requires IndexOf(rows, id) >= 0 && (after.Some? || before.Some?) && DistinctIds(Without(rows, id))
    requires Sorted(rekeyed) && Ids(rekeyed) == Ids(Without(rows, id)) && NarrowHints(rekeyed, MoveHints(after, before))
    requires SlotOf(rekeyed, MoveHints(after, before)) == SlotOf(Without(rows, id), MoveHints(after, before))
    requires Lands(rekeyed, MoveHints(after, before), key) && !TiedSlot(rekeyed, MoveHints(after, before))
    ensures Ids(InsertRow(rekeyed, Item(id, key))) == PlaceAfter(Ids(rows), id, after, before)
  {
    var hi := SlotOf(rekeyed, MoveHints(after, before)).value.hi;
    ClientPoint(Without(rows, id), after, before);
    LandsInPlace(rekeyed, MoveHints(after, before), key);
    InsertedAt(rekeyed, Item(id, key), hi);
    SameOrder(rows, id, after, before, rekeyed, key, hi);
  }

  lemma DisagreesWhenTied(rows: seq<Item>, id: Id, after: Option<Id>, before: Option<Id>, rest: seq<Item>, key: string)
    requires IndexOf(rows, id) >= 0 && (after.Some? || before.Some?) && rest == Without(rows, id)
    requires Sorted(rest) && NarrowHints(rest, MoveHints(after, before)) && forall t :: 0 <= t < |rest| ==>
        rest[t].id != id
    requires Lands(rest, MoveHints(after, before), key) && TiedSlot(rest, MoveHints(after, before))
    ensures Ids(InsertRow(rest, Item(id, key))) != PlaceAfter(Ids(rows), id, after, before)
  {
    var s := SlotOf(rest, MoveHints(after, before)).value;
    ClientPoint(rest, after, before);
    IdsWithout(rows, id);
    assert Ids(rows)[IndexOf(rows, id)] == id;
    ShownAt(Ids(rows), id, Ids(rest), after, before);
    LandsBeyond(rest, MoveHints(after, before), key);
    InsertedElsewhere(rest, Item(id, key), s.lo);
  }

  /** Client and server agree on a list with equal keys, for one hint or hints that ask for one place, exactly
      if the members around that place differ in key, or the move rebalances the list. */
  lemma AgreesUnlessTied(rows: seq<Item>, id: Id, after: Option<Id>, before: Option<Id>)
    requires Sorted(rows) && IndexOf(rows, id) >= 0 && |rows| <= Power(9) && (after.Some? || before.Some?)
    requires NarrowHints(Without(rows, id), MoveHints(after, before))
    ensures Ids(Moved(rows, id, MoveHints(after, before))) == PlaceAfter(Ids(rows), id, after, before) <==>
      (NeedsRebalance(Without(rows, id), MoveHints(after, before)) ||
       !TiedSlot(Without(rows, id), MoveHints(after, before)))
  {
    var rest, h := Without(rows, id), MoveHints(after, before);
    WithoutIsSorted(rows, id);
    WithoutMembers(rows, id);
    OneLess(rows, id);
    PlaceLands(rest, h);
    MovedIs(rows, id, h);
    RekeyedLength(rest, RestAfter(rest, h));
    if NeedsRebalance(rest, h) {
      RekeyedIsOrdered(rest);
      OrderedIsUntied(RestAfter(rest, h), h);
    }
    if NeedsRebalance(rest, h) || !TiedSlot(rest, h) {
      AgreesInPlace(rows, id, after, before, RestAfter(rest, h), Place(rest, h).key);
    } else {
      DisagreesWhenTied(rows, id, after, before, rest, Place(rest, h).key);
    }
  }

  lemma MovedIs(rows: seq<Item>, id: Id, h: Hints)
    requires Place(Without(rows, id), h).Placed?
    ensures Moved(rows, id, h) ==
      InsertRow(RestAfter(Without(rows, id), h), Item(id, Place(Without(rows, id), h).key))
  {
  }

  lemma RekeyedLength(rest: seq<Item>, rekeyed: seq<Item>)
    requires Ids(rekeyed) == Ids(rest)
    ensures |rekeyed| == |rest|
  {
    assert |rekeyed| == |Ids(rekeyed)|;
  }

  lemma OrderedIsUntied(rest: seq<Item>, h: Hints)
    requires Ordered(rest) && SlotOf(rest, h).Some?
    ensures !TiedSlot(rest, h)
  {
    var s := SlotOf(rest, h).value;
    if 0 <= s.lo && s.hi < |rest| { LessTotal(rest[s.lo].key, rest[s.hi].key); }
  }
}
