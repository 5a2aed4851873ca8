/** Turning "put this between those two" into a key, and the list it leaves. */
module Position {
  import opened Common
  import opened Fracindex
  import opened EvenKeys

  type Id = nat

  /** A member of an ordered list: a page, a category of a page, a note of a column. */
  datatype Item = Item(id: Id, key: string)

  datatype Hints = Hints(after: Option<Id>, before: Option<Id>, defaultTop: bool)

  datatype Placement = Placed(key: string) | NoNeighbour | BadKeys(error: KeyError)

  // ---- lists ----------------------------------------------------------------------------------

  function Ids(items: seq<Item>): (ids: seq<Id>)
    ensures |ids| == |items| && forall i :: 0 <= i < |items| ==> ids[i] == items[i].id
  {
    seq(|items|, i requires 0 <= i < |items| => items[i].id)
  }

  ghost predicate DistinctIds(items: seq<Item>) {
    forall i, j :: 0 <= i < j < |items| ==> items[i].id != items[j].id
  }

  /** A list in order: valid keys, strictly increasing, no id twice. */
  ghost predicate Ordered(items: seq<Item>) {
    && (forall i :: 0 <= i < |items| ==> Valid(items[i].key))
    && (forall i, j :: 0 <= i < j < |items| ==> Less(items[i].key, items[j].key))
    && DistinctIds(items)
  }

  /** The index of a member, or -1. */
  function IndexOf(items: seq<Item>, id: Id): (i: int)
    ensures -1 <= i < |items|
    ensures i >= 0 ==> items[i].id == id
    ensures i < 0 <==> forall j :: 0 <= j < |items| ==> items[j].id != id
  {
    if items == [] then -1
    else if items[|items| - 1].id == id then |items| - 1
    else IndexOf(items[..|items| - 1], id)
  }

  // ---- the questions a group answers ----------------------------------------------------------

  function KeyOf(items: seq<Item>, id: Id): Option<string> {
    var i := IndexOf(items, id);
    if i >= 0 then Some(items[i].key) else None
  }

  /** The smallest key above k, or "" when there is none. */
  function After(items: seq<Item>, k: string): string {
    if items == [] then "" else if Less(k, items[0].key) then items[0].key else After(items[1..], k)
  }

  /** The greatest key below k, or "" when there is none. */
  function Before(items: seq<Item>, k: string): string {
    if items == [] then ""
    else if Less(items[|items| - 1].key, k) then items[|items| - 1].key
    else Before(items[..|items| - 1], k)
  }

  function First(items: seq<Item>): string { if items == [] then "" else items[0].key }

  function Last(items: seq<Item>): string { if items == [] then "" else items[|items| - 1].key }

  lemma {:induction false} AfterMember(items: seq<Item>, i: nat)
    requires Ordered(items) && i < |items|
    ensures After(items, items[i].key) == if i + 1 < |items| then items[i + 1].key else ""
  {
    LessTotal(items[i].key, items[i].key);
    AfterFrom(items, i, 0);
  }

  lemma {:induction false} AfterFrom(items: seq<Item>, i: nat, from: nat)
    requires Ordered(items) && i < |items| && from <= i + 1
    ensures After(items[from..], items[i].key) == if i + 1 < |items| then items[i + 1].key else ""
    ensures from == 0 ==> items[from..] == items
    decreases i + 1 - from
  {
    if from <= i {
      LessTotal(items[from].key, items[i].key);
      assert items[from..][1..] == items[from + 1..];
      AfterFrom(items, i, from + 1);
    }
  }

  lemma {:induction false} BeforeMember(items: seq<Item>, i: nat, end: nat)
    requires Ordered(items) && i < |items| && i <= end <= |items|
    ensures Before(items[..end], items[i].key) == if i > 0 then items[i - 1].key else ""
    ensures end == |items| ==> items[..end] == items
    decreases end
  {
    if end > i {
      LessTotal(items[end - 1].key, items[i].key);
      assert items[..end][..end - 1] == items[..end - 1];
      BeforeMember(items, i, end - 1);
    } else if i > 0 {
      assert items[..end][end - 1] == items[i - 1];
    }
  }

  // ---- placing --------------------------------------------------------------------------------

  datatype Bounds = Bounds(lo: string, hi: string)

  /** The gap the hints ask for, in keys; None when a hint names no member. */
  function GapOf(rest: seq<Item>, h: Hints): Option<Bounds> {
    match (h.after, h.before)
    case (Some(a), Some(b)) =>
      if KeyOf(rest, a) == None || KeyOf(rest, b) == None then None
      else
        var ka, kb := KeyOf(rest, a).value, KeyOf(rest, b).value;
        if Less(ka, kb) then Some(Bounds(ka, kb)) else Some(Bounds(ka, After(rest, ka)))
    case (Some(a), None) =>
      if KeyOf(rest, a) == None then None
      else Some(Bounds(KeyOf(rest, a).value, After(rest, KeyOf(rest, a).value)))
    case (None, Some(b)) =>
      if KeyOf(rest, b) == None then None
      else Some(Bounds(Before(rest, KeyOf(rest, b).value), KeyOf(rest, b).value))
    case (None, None) =>
      if h.defaultTop then Some(Bounds("", First(rest))) else Some(Bounds(Last(rest), ""))
  }

  function PlaceOnce(rest: seq<Item>, h: Hints): Placement {
    match GapOf(rest, h)
    case None => NoNeighbour
    case Some(Bounds(lo, hi)) =>
      match Between(lo, hi)
      case Ok(key) => Placed(key)
      case Err(e) => BadKeys(e)
  }

  /** Every member gets the even key of its place. */
  function Rekeyed(rest: seq<Item>): (r: seq<Item>)
    ensures |r| == |rest|
  {
    seq(|rest|, i requires 0 <= i < |rest| => rest[i].(key := Even(|rest|)[i]))
  }

  predicate NeedsRebalance(rest: seq<Item>, h: Hints) {
    PlaceOnce(rest, h).Placed? && |PlaceOnce(rest, h).key| > MAX_LENGTH
  }

  /** The list after Place: rebalanced when the new key would be too long, else untouched. */
  function RestAfter(rest: seq<Item>, h: Hints): seq<Item> {
    if NeedsRebalance(rest, h) then Rekeyed(rest) else rest
  }

  function Place(rest: seq<Item>, h: Hints): Placement {
    PlaceOnce(RestAfter(rest, h), h)
  }

  /** A place in a list: above the member at lo and below the one at hi (-1 and the length are open). */
  datatype Slot = Slot(lo: int, hi: int)

  /** Open only at an end of the list. */
  predicate ProperSlot(s: Slot, n: nat) {
    -1 <= s.lo < s.hi <= n && (s.lo == -1 ==> s.hi == 0) && (s.hi == n ==> s.lo == n - 1)
  }

  /** Where the hints ask for, in places: independent of the keys. */
  function SlotOf(rest: seq<Item>, h: Hints): (s: Option<Slot>)
    ensures s.Some? ==> ProperSlot(s.value, |rest|)
  {
    match (h.after, h.before)
    case (Some(a), Some(b)) =>
      var i, j := IndexOf(rest, a), IndexOf(rest, b);
      if i < 0 || j < 0 then None else if i < j then Some(Slot(i, j)) else Some(Slot(i, i + 1))
    case (Some(a), None) =>
      var i := IndexOf(rest, a);
      if i < 0 then None else Some(Slot(i, i + 1))
    case (None, Some(b)) =>
      var j := IndexOf(rest, b);
      if j < 0 then None else Some(Slot(j - 1, j))
    case (None, None) =>
      if h.defaultTop then Some(Slot(-1, 0)) else Some(Slot(|rest| - 1, |rest|))
  }

  function LowKey(rest: seq<Item>, lo: int): string
    requires lo < |rest|
  {
    if lo < 0 then "" else rest[lo].key
  }

  function HighKey(rest: seq<Item>, hi: int): string
    requires 0 <= hi
  {
    if hi >= |rest| then "" else rest[hi].key
  }

  function SlotBounds(rest: seq<Item>, s: Slot): Bounds
    requires ProperSlot(s, |rest|)
  {
    Bounds(LowKey(rest, s.lo), HighKey(rest, s.hi))
  }

  /** The key gap is the gap between the two members of the slot. */
  lemma GapIsSlot(rest: seq<Item>, h: Hints)
    requires Ordered(rest)
    ensures GapOf(rest, h).None? <==> SlotOf(rest, h).None?
    ensures SlotOf(rest, h).Some? ==> GapOf(rest, h) == Some(SlotBounds(rest, SlotOf(rest, h).value))
  {
    if h.after.Some? {
      GapIsSlotAfter(rest, h);
    } else if h.before.Some? {
      GapIsSlotBefore(rest, h);
    }
  }

  lemma GapIsSlotAfter(rest: seq<Item>, h: Hints)
    requires Ordered(rest) && h.after.Some?
    ensures GapOf(rest, h).None? <==> SlotOf(rest, h).None?
    ensures SlotOf(rest, h).Some? ==> GapOf(rest, h) == Some(SlotBounds(rest, SlotOf(rest, h).value))
  {
    var i := IndexOf(rest, h.after.value);
    if i >= 0 {
      AfterMember(rest, i);
      if h.before.Some? {
        var j := IndexOf(rest, h.before.value);
        if j >= 0 { OrderIsKeyOrder(rest, i, j); }
      }
    }
  }

  lemma OrderIsKeyOrder(rest: seq<Item>, i: nat, j: nat)
    requires Ordered(rest) && i < |rest| && j < |rest|
    ensures i < j <==> Less(rest[i].key, rest[j].key)
  {
    LessTotal(rest[i].key, rest[j].key);
  }

  lemma GapIsSlotBefore(rest: seq<Item>, h: Hints)
    requires Ordered(rest) && h.after.None? && h.before.Some?
    ensures GapOf(rest, h).None? <==> SlotOf(rest, h).None?
    ensures SlotOf(rest, h).Some? ==> GapOf(rest, h) == Some(SlotBounds(rest, SlotOf(rest, h).value))
  {
    var j := IndexOf(rest, h.before.value);
    if j >= 0 { BeforeMember(rest, j, |rest|); }
  }

  /** k is strictly above everything up to lo and strictly below everything from hi on. */
  ghost predicate InSlot(rest: seq<Item>, k: string, s: Slot) {
    && (forall t :: 0 <= t < |rest| && t <= s.lo ==> Less(rest[t].key, k))
    && (forall t :: 0 <= t < |rest| && t >= s.hi ==> Less(k, rest[t].key))
  }

  ghost predicate Fresh(rest: seq<Item>, k: string) {
    forall t :: 0 <= t < |rest| ==> rest[t].key != k
  }

  lemma InGapIsInSlot(rest: seq<Item>, k: string, s: Slot)
    requires Ordered(rest) && -1 <= s.lo < s.hi <= |rest|
    requires s.lo >= 0 ==> Less(rest[s.lo].key, k)
    requires s.hi < |rest| ==> Less(k, rest[s.hi].key)
    ensures InSlot(rest, k, s)
    ensures s.hi == s.lo + 1 ==> Fresh(rest, k)
  {
    forall t | 0 <= t < s.lo ensures Less(rest[t].key, k) {
      LessTrans(rest[t].key, rest[s.lo].key, k);
    }
    forall t | s.hi < t < |rest| ensures Less(k, rest[t].key) {
      LessTrans(k, rest[s.hi].key, rest[t].key);
    }
    LessIrreflexive(k);
  }

  /** One placement fails exactly on an unknown neighbour, and otherwise lands in the slot. */
  lemma PlaceOnceCorrect(rest: seq<Item>, h: Hints)
    requires Ordered(rest)
    ensures PlaceOnce(rest, h).NoNeighbour? <==> SlotOf(rest, h).None?
    ensures SlotOf(rest, h).Some? ==>
              && PlaceOnce(rest, h).Placed?
              && Valid(PlaceOnce(rest, h).key)
              && InSlot(rest, PlaceOnce(rest, h).key, SlotOf(rest, h).value)
              && (SlotOf(rest, h).value.hi == SlotOf(rest, h).value.lo + 1 ==> Fresh(rest, PlaceOnce(rest, h).key))
  {
    GapIsSlot(rest, h);
    if SlotOf(rest, h).Some? {
      var s := SlotOf(rest, h).value;
      BetweenCorrect(LowKey(rest, s.lo), HighKey(rest, s.hi));
      if s.lo >= 0 && s.hi < |rest| { LessTotal(rest[s.lo].key, rest[s.hi].key); }
      InGapIsInSlot(rest, PlaceOnce(rest, h).key, s);
    }
  }

  lemma {:induction false} SameIdsSameIndex(a: seq<Item>, b: seq<Item>, id: Id)
    requires Ids(a) == Ids(b)
    ensures IndexOf(a, id) == IndexOf(b, id)
  {
    assert |a| == |Ids(a)| == |b|;
    if a != [] {
      assert Ids(a)[|a| - 1] == Ids(b)[|b| - 1];
      var a', b' := a[..|a| - 1], b[..|b| - 1];
      assert Ids(a') == Ids(a)[..|a| - 1] && Ids(b') == Ids(b)[..|b| - 1];
      SameIdsSameIndex(a', b', id);
    }
  }

  lemma RekeyedIsOrdered(rest: seq<Item>)
    requires DistinctIds(rest)
    ensures Ordered(Rekeyed(rest)) && Ids(Rekeyed(rest)) == Ids(rest)
  {
    EvenIsOrdered(|rest|);
  }

  /** After a rebalance every slot has a short key. */
  lemma ShortAfterRebalance(rest: seq<Item>, s: Slot)
    requires |rest| + 1 <= Power(9) && ProperSlot(s, |rest|)
    ensures var b := SlotBounds(Rekeyed(rest), s);
            Between(b.lo, b.hi).Ok? && |Between(b.lo, b.hi).key| <= 10
  {
    var n := |rest|;
    var b := SlotBounds(Rekeyed(rest), s);
    FitsInt64(n);
    if n == 0 {
      assert b == Bounds("", "");
    } else if s.lo == -1 {
      EvenLeavesRoomBelow(n);
      assert b == Bounds("", Even(n)[0]);
    } else if s.hi == n {
      EvenLeavesRoomAbove(n);
      assert b == Bounds(Even(n)[n - 1], "");
    } else {
      EvenLeavesRoomBetween(n, s.lo, s.hi);
      assert b == Bounds(Even(n)[s.lo], Even(n)[s.hi]);
    }
  }

  /** The contract of Place: it fails exactly on an unknown neighbour; otherwise the key is valid, at
      most 48 long and in the slot the hints ask for, and the others keep their ids and order. */
  lemma PlaceCorrect(rest: seq<Item>, h: Hints)
    requires Ordered(rest) && |rest| + 1 <= Power(9)
    ensures Ordered(RestAfter(rest, h)) && Ids(RestAfter(rest, h)) == Ids(rest)
    ensures Place(rest, h).NoNeighbour? <==> SlotOf(rest, h).None?
    ensures SlotOf(rest, h).Some? ==>
              && Place(rest, h).Placed?
              && Valid(Place(rest, h).key) && |Place(rest, h).key| <= MAX_LENGTH
              && InSlot(RestAfter(rest, h), Place(rest, h).key, SlotOf(rest, h).value)
              && (SlotOf(rest, h).value.hi == SlotOf(rest, h).value.lo + 1 ==>
                    Fresh(RestAfter(rest, h), Place(rest, h).key))
  {
    PlaceOnceCorrect(rest, h);
    if NeedsRebalance(rest, h) {
      var r := Rekeyed(rest);
      RekeyedIsOrdered(rest);
      SameSlot(rest, r, h);
      PlaceOnceCorrect(r, h);
      GapIsSlot(r, h);
      ShortAfterRebalance(rest, SlotOf(rest, h).value);
    }
  }

  /** One placement takes the key between the two neighbours of the slot. */
  lemma PlainKey(rest: seq<Item>, h: Hints) returns (plain: KeyResult)
    requires Ordered(rest) && SlotOf(rest, h).Some?
    ensures plain == Between(LowKey(rest, SlotOf(rest, h).value.lo), HighKey(rest, SlotOf(rest, h).value.hi))
    ensures plain.Ok? && PlaceOnce(rest, h) == Placed(plain.key)
  {
    PlaceOnceCorrect(rest, h);
    GapIsSlot(rest, h);
    plain := Between(LowKey(rest, SlotOf(rest, h).value.lo), HighKey(rest, SlotOf(rest, h).value.hi));
  }

  /** The members keep their keys exactly while the key between the slot's two neighbours is short enough, and
      it is then the key of the item; else all get the keys of their places in an even list. */
  lemma RebalancesExactly(rest: seq<Item>, h: Hints) returns (plain: KeyResult)
    requires Ordered(rest) && |rest| + 1 <= Power(9) && SlotOf(rest, h).Some?
    ensures plain == Between(LowKey(rest, SlotOf(rest, h).value.lo), HighKey(rest, SlotOf(rest, h).value.hi))
    ensures plain.Ok?
    ensures |plain.key| <= MAX_LENGTH ==> RestAfter(rest, h) == rest && Place(rest, h) == Placed(plain.key)
    ensures |plain.key| > MAX_LENGTH ==>
      && |RestAfter(rest, h)| == |rest| == |Even(|rest|)| && Ids(RestAfter(rest, h)) == Ids(rest)
      && forall t :: 0 <= t < |rest| ==> RestAfter(rest, h)[t].key == Even(|rest|)[t]
  {
    plain := PlainKey(rest, h);
    RekeyedIsOrdered(rest);
  }

  lemma SameSlot(a: seq<Item>, b: seq<Item>, h: Hints)
    requires Ids(a) == Ids(b)
    ensures SlotOf(a, h) == SlotOf(b, h)
  {
    assert |a| == |Ids(a)| == |b|;
    if h.after.Some? { SameIdsSameIndex(a, b, h.after.value); }
    if h.before.Some? { SameIdsSameIndex(a, b, h.before.value); }
  }

  // ---- the group as the source keeps it -------------------------------------------------------

  method EvenFor(rest: seq<Item>) returns (keys: seq<string>)
    requires |rest| + 1 <= Power(9)
    ensures keys == Even(|rest|)
  {
    FitsInt64(|rest|);
    keys := GenerateEven(|rest| as int64);
  }

  /** One ordered list inside a user transaction: the rows other than the item being placed, in list
      order, and the change-feed entries the transaction has recorded. */
  class Group {
    var rest: seq<Item>
    var feed: seq<Id>

    constructor (rest: seq<Item>)
      ensures this.rest == rest && feed == []
    {
      this.rest := rest;
      feed := [];
    }

    /** Rewrites every member's key, in list order, and records each as a change. */
    method Rebalance()
      requires |rest| + 1 <= Power(9)
      modifies this
      ensures rest == Rekeyed(old(rest))
      ensures feed == old(feed) + Ids(old(rest))
    {
      ghost var before := rest;
      var ids := Ids(rest);
      var keys := EvenFor(rest);
      var i := 0;
      while i < |keys|
        invariant 0 <= i <= |keys| == |before| == |rest|
        invariant forall t :: 0 <= t < |rest| ==> rest[t] == if t < i then before[t].(key := keys[t]) else before[t]
        invariant feed == old(feed) + ids[..i]
      {
        assert ids[..i + 1] == ids[..i] + [ids[i]];
        rest := rest[i := rest[i].(key := keys[i])];
        feed := feed + [ids[i]];
        i := i + 1;
      }
      assert ids[..|ids|] == ids;
    }

    /** One placement against the keys as they are. */
    method TryPlace(h: Hints) returns (r: Placement)
      ensures r == PlaceOnce(rest, h)
    {
      var lo, hi := "", "";
      if h.after.Some? && h.before.Some? {
        var a := KeyOf(rest, h.after.value);
        if a.None? { return NoNeighbour; }
        var b := KeyOf(rest, h.before.value);
        if b.None? { return NoNeighbour; }
        lo := a.value;
        if Less(a.value, b.value) {
          hi := b.value;
        } else {
          hi := After(rest, a.value);
        }
      } else if h.after.Some? {
        var a := KeyOf(rest, h.after.value);
        if a.None? { return NoNeighbour; }
        lo := a.value;
        hi := After(rest, a.value);
      } else if h.before.Some? {
        var b := KeyOf(rest, h.before.value);
        if b.None? { return NoNeighbour; }
        hi := b.value;
        lo := Before(rest, b.value);
      } else if h.defaultTop {
        hi := First(rest);
      } else {
        lo := Last(rest);
      }
      match Between(lo, hi)
      case Ok(key) => r := Placed(key);
      case Err(e) => r := BadKeys(e);
    }

    /** Places the item, rebalancing first when its key would come out too long. */
    method PlaceItem(h: Hints) returns (r: Placement)
      requires |rest| + 1 <= Power(9)
      modifies this
      ensures r == Place(old(rest), h)
      ensures rest == RestAfter(old(rest), h)
      ensures feed == old(feed) + (if NeedsRebalance(old(rest), h) then Ids(old(rest)) else [])
    {
      r := TryPlace(h);
      if !r.Placed? || |r.key| <= MAX_LENGTH {
        return;
      }
      Rebalance();
      r := TryPlace(h);
    }
  }

  // ---- when the key is fresh ------------------------------------------------------------------

  function BothHints(rest: seq<Item>, i: nat, j: nat): Hints
    requires i < |rest| && j < |rest|
  {
    Hints(Some(rest[i].id), Some(rest[j].id), false)
  }

  lemma BothHintsSlot(rest: seq<Item>, i: nat, j: nat)
    requires DistinctIds(rest) && i < j < |rest|
    ensures SlotOf(rest, BothHints(rest, i, j)) == Some(Slot(i, j))
  {
    assert IndexOf(rest, rest[i].id) == i;
    assert IndexOf(rest, rest[j].id) == j;
  }

  /** No key is longer than the service stores. */
  ghost predicate Storable(rest: seq<Item>) { forall t :: 0 <= t < |rest| ==> |rest[t].key| <= MAX_LENGTH }

  /** However a list of n members is keyed, an item put between its i-th and j-th gets a new key. */
  ghost predicate AlwaysFresh(n: nat, i: nat, j: nat)
    requires i < j < n
  {
    forall rest: seq<Item> | Ordered(rest) && Storable(rest) && |rest| == n ::
      Place(rest, BothHints(rest, i, j)).Placed? &&
      Fresh(RestAfter(rest, BothHints(rest, i, j)), Place(rest, BothHints(rest, i, j)).key)
  }

  /** The digit in front of the t-th key of the list in which hints i and j > i + 1 fail. */
  function Lead(t: nat, i: nat, j: nat): (c: char)
    ensures IndexByte(c) >= 0
  {
    if t < i then '0' else if t == i then '1' else if t == i + 1 then 'V' else if t < j then 'W' else 'z'
  }

  /** The even keys of n members are the rest of the keys. */
  function CrowdedKey(t: nat, i: nat, j: nat, n: nat): string
    requires i + 1 < j && t < n
  {
    if t == i || t == i + 1 || t == j then [Lead(t, i, j)] else [Lead(t, i, j)] + Key(t, n)
  }

  function CrowdedPart(l: nat, i: nat, j: nat, n: nat): (rest: seq<Item>)
    requires i + 1 < j && l <= n
    ensures |rest| == l
  {
    seq(l, t requires 0 <= t < l => Item(t, CrowdedKey(t, i, j, n)))
  }

  lemma CrowdedPartOrdered(l: nat, i: nat, j: nat, n: nat)
    requires i + 1 < j && l <= n
    ensures Ordered(CrowdedPart(l, i, j, n))
  {
    var rest := CrowdedPart(l, i, j, n);
    forall t, u | 0 <= t < u < l ensures Less(rest[t].key, rest[u].key) {
      CrowdedPair(t, u, i, j, n);
    }
    forall t | 0 <= t < l ensures Valid(rest[t].key) {
      CrowdedValid(t, i, j, n);
    }
  }

  lemma CrowdedPartStorable(l: nat, i: nat, j: nat, n: nat)
    requires i + 1 < j && l <= n && n <= Power(9)
    ensures Storable(CrowdedPart(l, i, j, n))
  {
    EvenIsOrdered(n);
    PowersToTen();
    WidthAtMost(n, 10);
    forall t | 0 <= t < l ensures |CrowdedKey(t, i, j, n)| <= MAX_LENGTH {
      assert Key(t, n) == Even(n)[t];
    }
  }

  /** A list, as the service may store it, in which the key between members i and j is already that of member
      i + 1. */
  ghost predicate IsCrowded(rest: seq<Item>, i: nat, j: nat) {
    && i + 1 < j < |rest| && Ordered(rest) && Storable(rest)
    && (forall t :: 0 <= t < |rest| ==> rest[t].id == t)
    && rest[i].key == "1" && rest[i + 1].key == "V" && rest[j].key == "z"
  }

  lemma CrowdedExists(n: nat, i: nat, j: nat) returns (rest: seq<Item>)
    requires i + 1 < j < n <= Power(9)
    ensures |rest| == n && IsCrowded(rest, i, j)
  {
    rest := CrowdedPart(n, i, j, n);
    CrowdedPartOrdered(n, i, j, n);
    CrowdedPartStorable(n, i, j, n);
    CrowdedKeys(n, i, j);
  }

  lemma CrowdedKeys(n: nat, i: nat, j: nat)
    requires i + 1 < j < n
    ensures CrowdedKey(i, i, j, n) == "1" && CrowdedKey(i + 1, i, j, n) == "V" && CrowdedKey(j, i, j, n) == "z"
  {
  }

  lemma CrowdedCollides(rest: seq<Item>, i: nat, j: nat)
    requires IsCrowded(rest, i, j)
    ensures PlaceOnce(rest, BothHints(rest, i, j)) == Placed("V")
  {
    BetweenMembers(rest, i, j);
    assert Midpoint("1", "z") == "V";
  }

  /** With hints in order the key depends on nothing but the two neighbours' keys. */
  lemma BetweenMembers(rest: seq<Item>, i: nat, j: nat)
    requires Ordered(rest) && i < j < |rest|
    ensures Gap(rest[i].key, rest[j].key)
    ensures PlaceOnce(rest, BothHints(rest, i, j)) == Placed(Midpoint(rest[i].key, rest[j].key))
  {
    BothHintsSlot(rest, i, j);
    GapIsSlot(rest, BothHints(rest, i, j));
  }

  lemma CrowdedValid(t: nat, i: nat, j: nat, n: nat)
    requires i + 1 < j && t < n
    ensures Valid(CrowdedKey(t, i, j, n))
  {
    var tail := KeyShape(t, n);
    ValidConcat([Lead(t, i, j)], Key(t, n));
  }

  lemma CrowdedPair(t: nat, u: nat, i: nat, j: nat, n: nat)
    requires i + 1 < j && t < u < n
    ensures Less(CrowdedKey(t, i, j, n), CrowdedKey(u, i, j, n))
  {
    EvenIsOrdered(n);
    assert Less(Even(n)[t], Even(n)[u]) && Even(n)[t] == Key(t, n) && Even(n)[u] == Key(u, n);
    if Lead(t, i, j) == Lead(u, i, j) {
      LessPrefix([Lead(t, i, j)], Key(t, n), Key(u, n));
      if t == j { assert Less("z", "z" + Key(u, n)); }
    }
  }

  /** Two hints give a fresh key, whatever the list, exactly when they are adjacent. */
  lemma FreshIffAdjacent(n: nat, i: nat, j: nat)
    requires i < j < n && n + 1 <= Power(9)
    ensures AlwaysFresh(n, i, j) <==> j == i + 1
  {
    if j == i + 1 {
      forall rest: seq<Item> | Ordered(rest) && Storable(rest) && |rest| == n
        ensures Place(rest, BothHints(rest, i, j)).Placed? &&
                Fresh(RestAfter(rest, BothHints(rest, i, j)), Place(rest, BothHints(rest, i, j)).key)
      {
        BothHintsSlot(rest, i, j);
        PlaceCorrect(rest, BothHints(rest, i, j));
      }
    } else {
      CrowdedIsNotFresh(n, i, j);
    }
  }

  lemma CrowdedIsNotFresh(n: nat, i: nat, j: nat)
    requires i + 1 < j < n && n + 1 <= Power(9)
    ensures !AlwaysFresh(n, i, j)
  {
    var rest := CrowdedExists(n, i, j);
    CrowdedCollides(rest, i, j);
    TakenIsNotFresh(rest, i, j, i + 1);
  }

  /** A list in which the key for the hints is taken. */
  lemma TakenIsNotFresh(rest: seq<Item>, i: nat, j: nat, t: nat)
    requires Ordered(rest) && Storable(rest) && i < j < |rest| && t < |rest|
    requires PlaceOnce(rest, BothHints(rest, i, j)) == Placed(rest[t].key)
    ensures !AlwaysFresh(|rest|, i, j)
  {
    assert Place(rest, BothHints(rest, i, j)) == Placed(rest[t].key) && RestAfter(rest, BothHints(rest, i, j)) == rest;
    assert !Fresh(rest, rest[t].key);
  }

  function WithItem(rest: seq<Item>, x: Item, at: nat): (l: seq<Item>)
    requires at <= |rest|
    ensures |l| == |rest| + 1
    ensures forall t :: 0 <= t < |l| ==> l[t] == if t < at then rest[t] else if t == at then x else rest[t - 1]
  {
    rest[..at] + [x] + rest[at..]
  }

  /** Hints that are still in order give every item the same key, so two items moved between the same
      two neighbours one after the other end up with equal keys. */
  lemma SameHintsSameKey(rest: seq<Item>, i: nat, id: Id)
    requires Ordered(rest) && i + 1 < |rest|
    requires forall t :: 0 <= t < |rest| ==> rest[t].id != id
    requires !NeedsRebalance(rest, BothHints(rest, i, i + 1))
    ensures var h := BothHints(rest, i, i + 1);
            var k := Place(rest, h).key;
            var both := WithItem(rest, Item(id, k), i + 1);
            Ordered(both) && Place(both, h) == Placed(k) && both[i + 1].key == k
  {
    var h := BothHints(rest, i, i + 1);
    PlaceOnceCorrect(rest, h);
    BothHintsSlot(rest, i, i + 1);
    BetweenMembers(rest, i, i + 1);
    var x := Item(id, Place(rest, h).key);
    InsertedOrdered(rest, x, i + 1);
    SameNeighboursSameKey(rest, WithItem(rest, x, i + 1), i);
    SamePlace(rest, WithItem(rest, x, i + 1), h);
  }

  lemma SamePlace(rest: seq<Item>, both: seq<Item>, h: Hints)
    requires !NeedsRebalance(rest, h) && PlaceOnce(both, h) == PlaceOnce(rest, h)
    ensures Place(both, h) == Place(rest, h)
  {
  }

  lemma SameNeighboursSameKey(rest: seq<Item>, both: seq<Item>, i: nat)
    requires Ordered(rest) && i + 1 < |rest|
    requires Ordered(both) && i + 2 < |both| && both[i] == rest[i] && both[i + 2] == rest[i + 1]
    ensures PlaceOnce(both, BothHints(rest, i, i + 1)) == PlaceOnce(rest, BothHints(rest, i, i + 1))
  {
    BetweenMembers(rest, i, i + 1);
    BetweenMembers(both, i, i + 2);
  }

  lemma InsertedOrdered(rest: seq<Item>, x: Item, at: nat)
    requires Ordered(rest) && at <= |rest| && Valid(x.key) && InSlot(rest, x.key, Slot(at - 1, at))
    requires forall t :: 0 <= t < |rest| ==> rest[t].id != x.id
    ensures Ordered(WithItem(rest, x, at))
  {
  }

  // ---- growth at the ends ---------------------------------------------------------------------

  function AtEnd(top: bool): Hints { Hints(None, None, top) }

  /** The list after one more item was placed first, or last. */
  function Put(rest: seq<Item>, id: Id, top: bool): seq<Item> {
    var p := Place(rest, AtEnd(top));
    if !p.Placed? then rest
    else if top then [Item(id, p.key)] + RestAfter(rest, AtEnd(top))
    else RestAfter(rest, AtEnd(top)) + [Item(id, p.key)]
  }

  /** A list that only grows at one end: its first item, and each time one more. */
  ghost predicate GrowsAt(lists: nat -> seq<Item>, top: bool) {
    lists(0) == Put([], 0, top) && forall m: nat :: Puts(lists(m), lists(m + 1), m, top)
  }

  function EndKey(m: nat, top: bool): string { if top then PrependKey(m) else AppendKey(m) }

  /** The key after this one at the same end, and when it is too long. */
  lemma EndKeyNext(m: nat, top: bool)
    ensures (if top then Between("", EndKey(m, top)) else Between(EndKey(m, top), "")) == Ok(EndKey(m + 1, top))
    ensures |EndKey(m, top)| > MAX_LENGTH <==> m >= MAX_LENGTH * 31
  {
    if top { PrependStep(m, Ok(PrependKey(m))); } else { AppendStep(m, Ok(AppendKey(m))); }
    EndKeyLength(m);
  }

  lemma EndKeyLength(m: nat)
    ensures |AppendKey(m)| == |PrependKey(m)| == m / 31 + 1
  {
  }

  function KeyAtEnd(rest: seq<Item>, top: bool): string { if top then First(rest) else Last(rest) }

  lemma EndGap(rest: seq<Item>, top: bool)
    ensures PlaceOnce(rest, AtEnd(top)) ==
      match if top then Between("", KeyAtEnd(rest, top)) else Between(KeyAtEnd(rest, top), "")
      case Ok(key) => Placed(key)
      case Err(e) => BadKeys(e)
  {
  }

  /** The next placement at the end. */
  lemma EndPlacement(rest: seq<Item>, m: nat, top: bool)
    requires KeyAtEnd(rest, top) == EndKey(m, top)
    ensures PlaceOnce(rest, AtEnd(top)) == Placed(EndKey(m + 1, top))
    ensures NeedsRebalance(rest, AtEnd(top)) <==> m + 1 >= MAX_LENGTH * 31
  {
    EndGap(rest, top);
    EndKeyNext(m, top);
    EndKeyNext(m + 1, top);
  }

  lemma EndStep(rest: seq<Item>, m: nat, top: bool) returns (key: string)
    requires KeyAtEnd(rest, top) == EndKey(m, top) && m + 1 < MAX_LENGTH * 31
    ensures key == EndKey(m + 1, top) && |key| <= MAX_LENGTH && PlaceOnce(rest, AtEnd(top)) == Placed(key)
  {
    key := EndKey(m + 1, top);
    EndPlacement(rest, m, top);
    EndKeyNext(m + 1, top);
  }

  lemma PutKey(rest: seq<Item>, id: Id, top: bool, key: string)
    requires PlaceOnce(rest, AtEnd(top)) == Placed(key) && |key| <= MAX_LENGTH
    ensures |Put(rest, id, top)| == |rest| + 1 && KeyAtEnd(Put(rest, id, top), top) == key
  {
  }

  lemma PutNext(rest: seq<Item>, m: nat, top: bool, list: seq<Item>)
    requires KeyAtEnd(rest, top) == EndKey(m, top) && m + 1 < MAX_LENGTH * 31 && list == Put(rest, m + 1, top)
    ensures |list| == |rest| + 1 && KeyAtEnd(list, top) == EndKey(m + 1, top)
  {
    var key := EndStep(rest, m, top);
    PutKey(rest, m + 1, top, key);
  }

  lemma PutFirst(top: bool)
    ensures |Put([], 0, top)| == 1 && KeyAtEnd(Put([], 0, top), top) == EndKey(0, top)
  {
    FirstKey();
    EndGap([], top);
    PutKey([], 0, top, EndKey(0, top));
  }

  /** The list holds m + 1 items, and the one placed last has the key of that many operations. */
  predicate EndsIn(list: seq<Item>, m: nat, top: bool) {
    |list| == m + 1 && KeyAtEnd(list, top) == EndKey(m, top)
  }

  predicate Puts(before: seq<Item>, list: seq<Item>, m: nat, top: bool) { list == Put(before, m + 1, top) }

  lemma GrownNext(m: nat, top: bool, before: seq<Item>, list: seq<Item>)
    requires m + 1 < MAX_LENGTH * 31 && EndsIn(before, m, top) && Puts(before, list, m, top)
    ensures EndsIn(list, m + 1, top)
  {
    PutNext(before, m, top, list);
  }

  /** While nothing is rebalanced, the key at the end is the one of that many operations. */
  lemma {:induction false} GrownEnd(lists: nat -> seq<Item>, m: nat, top: bool)
    requires GrowsAt(lists, top) && m < MAX_LENGTH * 31
    ensures EndsIn(lists(m), m, top)
    decreases m
  {
    if m == 0 {
      PutFirst(top);
    } else {
      GrownEnd(lists, m - 1, top);
      assert Puts(lists(m - 1), lists(m - 1 + 1), m - 1, top);
      GrownNext(m - 1, top, lists(m - 1), lists(m));
    }
  }

  /** A list that only grows at one end is first rebalanced by the 48 * 31st placement after its first. */
  lemma FirstRebalance(lists: nat -> seq<Item>, m: nat, top: bool)
    requires GrowsAt(lists, top) && m < MAX_LENGTH * 31
    ensures |lists(m)| == m + 1 && KeyAtEnd(lists(m), top) == EndKey(m, top)
    ensures NeedsRebalance(lists(m), AtEnd(top)) <==> m + 1 >= MAX_LENGTH * 31
  {
    GrownEnd(lists, m, top);
    EndPlacement(lists(m), m, top);
  }
}
