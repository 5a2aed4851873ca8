/** Moving a page on the server, and the optimistic mirror of the move in the web client. */
module Board {
  import opened Common
  import opened Fracindex
  import opened EvenKeys
  import opened Position

  // ---- the server: one transaction ------------------------------------------------------------

  /** The rows a group sees: all but the excluded one. */
  function Without(rows: seq<Item>, id: Id): (rest: seq<Item>)
    ensures |rest| <= |rows|
  {
    if rows == [] then [] else (if rows[0].id == id then [] else [rows[0]]) + Without(rows[1..], id)
  }

  /** The list order of rows: by position, then by id. */
  predicate RowBefore(x: Item, y: Item) {
    Less(x.key, y.key) || (x.key == y.key && x.id < y.id)
  }

  /** Where a row with a new position turns up when the list is read back in order. */
  function InsertRow(rest: seq<Item>, x: Item): (rows: seq<Item>)
    ensures |rows| == |rest| + 1
  {
    if rest == [] || RowBefore(x, rest[0]) then [x] + rest else [rest[0]] + InsertRow(rest[1..], x)
  }

  function MoveHints(after: Option<Id>, before: Option<Id>): Hints { Hints(after, before, false) }

  /** The list after a page was moved: unchanged when the placement was refused. */
  function Moved(rows: seq<Item>, id: Id, h: Hints): seq<Item> {
    var rest := Without(rows, id);
    if Place(rest, h).Placed? then InsertRow(RestAfter(rest, h), Item(id, Place(rest, h).key)) else rows
  }

  /** The changes a placement records: every other member when it had to rebalance, else none. */
  function Rekeys(rest: seq<Item>, h: Hints): seq<Id> {
    if NeedsRebalance(rest, h) then Ids(rest) else []
  }

  /** Every row that is new or has another key is among the changes. */
  ghost predicate AllAnnounced(was: seq<Item>, rows: seq<Item>, changes: seq<Id>) {
    forall t :: 0 <= t < |rows| && rows[t] !in was ==> rows[t].id in changes
  }

  lemma {:induction false} InsertedRows(rest: seq<Item>, x: Item)
    ensures forall t :: 0 <= t < |InsertRow(rest, x)| ==> InsertRow(rest, x)[t] == x || InsertRow(rest, x)[t] in rest
  {
    if rest != [] && !RowBefore(x, rest[0]) {
      InsertedRows(rest[1..], x);
      forall t | 0 <= t < |InsertRow(rest, x)|
        ensures InsertRow(rest, x)[t] == x || InsertRow(rest, x)[t] in rest
      {
        assert InsertRow(rest, x)[t] == if t == 0 then rest[0] else InsertRow(rest[1..], x)[t - 1];
      }
    }
  }

  lemma {:induction false} WithoutRows(rows: seq<Item>, id: Id)
    ensures forall t :: 0 <= t < |Without(rows, id)| ==> Without(rows, id)[t] in rows
  {
    if rows != [] { WithoutRows(rows[1..], id); }
  }

  /** A move announces the moved page and every page whose key it rewrote. */
  lemma EveryChangeIsAnnounced(rows: seq<Item>, id: Id, h: Hints)
    ensures AllAnnounced(rows, Moved(rows, id, h), Rekeys(Without(rows, id), h) + [id])
  {
    var rest, moved := Without(rows, id), Moved(rows, id, h);
    var after, changes := RestAfter(rest, h), Rekeys(rest, h) + [id];
    if Place(rest, h).Placed? {
      InsertedRows(after, Item(id, Place(rest, h).key));
      WithoutRows(rows, id);
      forall x | x in after && x !in rows ensures x.id in changes {
        var i :| 0 <= i < |after| && after[i] == x;
        assert NeedsRebalance(rest, h) && Rekeys(rest, h)[i] == rest[i].id == x.id;
        assert changes[i] == x.id;
      }
      assert id in changes by { assert changes[|changes| - 1] == id; }
    }
  }

  datatype UpdateResult = Updated | PageNotFound | Refused(why: Placement)

  class Pages {
    var rows: seq<Item>  // the user's pages, in list order
    var feed: seq<Id>    // the change feed, as page ids

    constructor (rows: seq<Item>)
      ensures this.rows == rows && feed == []
    {
      this.rows := rows;
      feed := [];
    }

    /** Reorders a page. The transaction commits the new list, or leaves everything as it was. */
    method UpdatePage(id: Id, after: Option<Id>, before: Option<Id>) returns (r: UpdateResult)
      requires |rows| + 1 <= Power(9)
      modifies this
      ensures r.PageNotFound? <==> IndexOf(old(rows), id) < 0
      ensures !r.Updated? ==> rows == old(rows) && feed == old(feed)
      ensures r.Updated? && after.None? && before.None? ==> rows == old(rows) && feed == old(feed) + [id]
      ensures !r.PageNotFound? && (after.Some? || before.Some?) ==>
                && (r.Updated? <==> Place(Without(old(rows), id), MoveHints(after, before)).Placed?)
                && rows == Moved(old(rows), id, MoveHints(after, before))
                && (r.Updated? ==> feed == old(feed) + Rekeys(Without(old(rows), id), MoveHints(after, before)) + [id])
    {
      if IndexOf(rows, id) < 0 {
        return PageNotFound;
      }
      if after.Some? || before.Some? {
        var placed := MoveRow(id, MoveHints(after, before));
        if !placed.Placed? {
          return Refused(placed);
        }
      }
      feed := feed + [id];
      return Updated;
    }

    method MoveRow(id: Id, h: Hints) returns (p: Placement)
      requires |rows| + 1 <= Power(9)
      modifies this
      ensures p == Place(Without(old(rows), id), h)
      ensures rows == Moved(old(rows), id, h)
      ensures feed == old(feed) + (if p.Placed? then Rekeys(Without(old(rows), id), h) else [])
    {
      var rest := Without(rows, id);
      var rekeyed, rekeys;
      p, rekeyed, rekeys := PlaceAmong(rest, h);
      if p.Placed? {
        rows := InsertRow(rekeyed, Item(id, p.key));
        feed := feed + rekeys;
      }
    }
  }

  method PlaceAmong(rest: seq<Item>, h: Hints) returns (p: Placement, rekeyed: seq<Item>, rekeys: seq<Id>)
    requires |rest| + 1 <= Power(9)
    ensures p == Place(rest, h) && rekeyed == RestAfter(rest, h) && rekeys == Rekeys(rest, h)
  {
    var group := new Group(rest);
    p := group.PlaceItem(h);
    rekeyed, rekeys := group.rest, group.feed;
  }

  // ---- the client -----------------------------------------------------------------------------

  function WithoutId(ids: seq<Id>, id: Id): seq<Id> {
    if ids == [] then [] else (if ids[0] == id then [] else [ids[0]]) + WithoutId(ids[1..], id)
  }

  function FindIndex(ids: seq<Id>, id: Id): (i: int)
    ensures -1 <= i < |ids|
    ensures i >= 0 ==> ids[i] == id
    ensures i < 0 <==> id !in ids
  {
    if ids == [] then -1
    else if ids[0] == id then 0
    else
      var i := FindIndex(ids[1..], id);
      if i < 0 then -1 else i + 1
  }

  /** The client's insertion point among the other ids. */
  function InsertionPoint(rest: seq<Id>, after: Option<Id>, before: Option<Id>): (at: int)
    ensures 0 <= at <= |rest|
  {
    var a := if after.Some? then FindIndex(rest, after.value) else -1;
    var b := if before.Some? then FindIndex(rest, before.value) else -1;
    if a >= 0 then a + 1 else if b >= 0 then b else |rest|
  }

  /** Where the client shows id: behind the first hint if that is known, else in front of the second,
      else at the end. */
  function PlaceAfter(ids: seq<Id>, id: Id, after: Option<Id>, before: Option<Id>): seq<Id> {
    if id !in ids then ids
    else
      var rest := WithoutId(ids, id);
      var at := InsertionPoint(rest, after, before);
      rest[..at] + [id] + rest[at..]
  }

  /** The moved id is shown once, right behind the first hint if that is known, else right in front of the
      second, else last; the others keep their order. */
  lemma ShownWhere(ids: seq<Id>, id: Id, after: Option<Id>, before: Option<Id>) returns (at: nat)
    requires id in ids
    ensures var rest, shown := WithoutId(ids, id), PlaceAfter(ids, id, after, before);
      && at <= |rest| && |shown| == |rest| + 1 && shown[at] == id
      && shown[..at] == rest[..at] && shown[at + 1..] == rest[at..]
      && (if after.Some? && after.value in rest then at > 0 && rest[at - 1] == after.value
          else if before.Some? && before.value in rest then at < |rest| && rest[at] == before.value
          else at == |rest|)
  {
    at := InsertionPoint(WithoutId(ids, id), after, before);
  }

  /** The ids on either side of an index. */
  function Neighbours(ids: seq<Id>, index: nat): (Option<Id>, Option<Id>)
    requires index < |ids|
  {
    (if index > 0 then Some(ids[index - 1]) else None,
     if index + 1 < |ids| then Some(ids[index + 1]) else None)
  }

  // ---- both put the item in the same place ----------------------------------------------------

  lemma {:induction false} IdsWithout(rows: seq<Item>, id: Id)
    ensures Ids(Without(rows, id)) == WithoutId(Ids(rows), id)
  {
    if rows != [] {
      IdsWithout(rows[1..], id);
      assert Ids(rows[1..]) == Ids(rows)[1..];
      assert Ids(rows)[0] == rows[0].id;
      var tail := Without(rows[1..], id);
      assert Ids([rows[0]] + tail) == [rows[0].id] + Ids(tail);
      assert [] + tail == tail && [] + Ids(tail) == Ids(tail);
    }
  }

  lemma {:induction false} WithoutMissing(rows: seq<Item>, id: Id)
    requires forall t :: 0 <= t < |rows| ==> rows[t].id != id
    ensures Without(rows, id) == rows
  {
    if rows != [] { WithoutMissing(rows[1..], id); }
  }

  /** Taking a member out closes the gap and leaves everything else in order. */
  lemma {:induction false} WithoutAt(rows: seq<Item>, i: nat)
    requires DistinctIds(rows) && i < |rows|
    ensures Without(rows, rows[i].id) == rows[..i] + rows[i + 1..]
  {
    if i == 0 {
      WithoutMissing(rows[1..], rows[0].id);
    } else {
      assert rows[1..][i - 1] == rows[i];
      WithoutAt(rows[1..], i - 1);
      DropFromTail(rows, i);
    }
  }

  lemma DropFromTail(rows: seq<Item>, i: nat)
    requires 0 < i < |rows|
    ensures [rows[0]] + (rows[1..][..i - 1] + rows[1..][i..]) == rows[..i] + rows[i + 1..]
  {
    assert [rows[0]] + rows[1..][..i - 1] == rows[..i];
  }

  lemma WithoutOrdered(rows: seq<Item>, i: nat)
    requires Ordered(rows) && i < |rows|
    ensures Ordered(Without(rows, rows[i].id)) && |Without(rows, rows[i].id)| == |rows| - 1
    ensures forall t :: 0 <= t < |rows| - 1 ==> Without(rows, rows[i].id)[t].id != rows[i].id
  {
    WithoutAt(rows, i);
    RemovedOrdered(rows, i, rows[..i] + rows[i + 1..]);
  }

  /** Where the t-th of the others was before the i-th was taken out. */
  function Skip(t: nat, i: nat): nat { if t < i then t else t + 1 }

  lemma RemovedOrdered(rows: seq<Item>, i: nat, rest: seq<Item>)
    requires Ordered(rows) && i < |rows| && |rest| == |rows| - 1
    requires forall t :: 0 <= t < |rest| ==> rest[t] == rows[Skip(t, i)]
    ensures Ordered(rest) && forall t :: 0 <= t < |rest| ==> rest[t].id != rows[i].id
  {
  }

  lemma {:induction false} InsertRowAt(rest: seq<Item>, x: Item, at: nat)
    requires at <= |rest|
    requires forall t :: 0 <= t < at ==> Less(rest[t].key, x.key)
    requires at < |rest| ==> Less(x.key, rest[at].key)
    ensures InsertRow(rest, x) == WithItem(rest, x, at)
  {
    if at > 0 {
      assert Less(rest[0].key, x.key);
      LessTotal(rest[0].key, x.key);
      var tail := rest[1..];
      assert forall t :: 0 <= t < at - 1 ==> tail[t] == rest[t + 1];
      InsertRowAt(tail, x, at - 1);
      assert WithItem(rest, x, at) == [rest[0]] + WithItem(tail, x, at - 1);
    }
  }

  lemma {:induction false} FindIndexIsIndexOf(items: seq<Item>, id: Id)
    requires DistinctIds(items)
    ensures FindIndex(Ids(items), id) == IndexOf(items, id)
  {
    var i := FindIndex(Ids(items), id);
    if i >= 0 { assert items[i].id == id; }
  }

  /** One hint, or two that are next to each other or no longer in order. */
  predicate NarrowHints(rest: seq<Item>, h: Hints) {
    SlotOf(rest, h).Some? && SlotOf(rest, h).value.hi == SlotOf(rest, h).value.lo + 1
  }

  /** Placing an item puts it right above the slot's lower member, and leaves an ordered list. */
  lemma PlacedInList(rest: seq<Item>, id: Id, h: Hints)
    requires Ordered(rest) && |rest| + 1 <= Power(9) && NarrowHints(rest, h)
    requires forall t :: 0 <= t < |rest| ==> rest[t].id != id
    ensures Place(rest, h).Placed? && |RestAfter(rest, h)| == |rest|
    ensures Ids(RestAfter(rest, h)) == Ids(rest)
    ensures var x, at := Item(id, Place(rest, h).key), SlotOf(rest, h).value.hi;
            && InsertRow(RestAfter(rest, h), x) == WithItem(RestAfter(rest, h), x, at)
            && Ordered(WithItem(RestAfter(rest, h), x, at))
  {
    PlaceCorrect(rest, h);
    InsertedBetween(rest, RestAfter(rest, h), Item(id, Place(rest, h).key), SlotOf(rest, h).value.hi);
  }

  lemma InsertedBetween(rest: seq<Item>, rekeyed: seq<Item>, x: Item, at: nat)
    requires Ordered(rekeyed) && Ids(rekeyed) == Ids(rest) && at <= |rest|
    requires Valid(x.key) && |rekeyed| == |rest| && InSlot(rekeyed, x.key, Slot(at - 1, at))
    requires forall t :: 0 <= t < |rest| ==> rest[t].id != x.id
    ensures InsertRow(rekeyed, x) == WithItem(rekeyed, x, at) && Ordered(WithItem(rekeyed, x, at))
  {
    InsertRowAt(rekeyed, x, at);
    assert forall t :: 0 <= t < |rekeyed| ==> rekeyed[t].id == Ids(rest)[t];
    InsertedOrdered(rekeyed, x, at);
  }

  lemma ClientPointIsSlot(rest: seq<Item>, after: Option<Id>, before: Option<Id>)
    requires DistinctIds(rest) && (after.Some? || before.Some?)
    requires SlotOf(rest, MoveHints(after, before)).Some?
    ensures InsertionPoint(Ids(rest), after, before) ==
            if after.Some? then SlotOf(rest, MoveHints(after, before)).value.lo + 1
            else SlotOf(rest, MoveHints(after, before)).value.hi
  {
    if after.Some? { FindIndexIsIndexOf(rest, after.value); }
    if before.Some? { FindIndexIsIndexOf(rest, before.value); }
  }

  /** The order the server ends up with is the order the client already showed. */
  lemma OptimisticOrderIsServerOrder(rows: seq<Item>, id: Id, after: Option<Id>, before: Option<Id>)
    requires Ordered(rows) && IndexOf(rows, id) >= 0 && |rows| <= Power(9)
    requires after.Some? || before.Some?
    requires NarrowHints(Without(rows, id), MoveHints(after, before))
    ensures Ids(Moved(rows, id, MoveHints(after, before))) == PlaceAfter(Ids(rows), id, after, before)
    ensures Ordered(Moved(rows, id, MoveHints(after, before)))
  {
    var h, rest := MoveHints(after, before), Without(rows, id);
    WithoutOrdered(rows, IndexOf(rows, id));
    PlacedInList(rest, id, h);
    ClientPointIsSlot(rest, after, before);
    SameOrder(rows, id, after, before, RestAfter(rest, h), Place(rest, h).key, SlotOf(rest, h).value.hi);
  }

  lemma SameOrder(rows: seq<Item>, id: Id, after: Option<Id>, before: Option<Id>, rekeyed: seq<Item>, key: string,
      at: nat)
    requires IndexOf(rows, id) >= 0 && Ids(rekeyed) == Ids(Without(rows, id)) && at <= |rekeyed|
    requires InsertionPoint(Ids(Without(rows, id)), after, before) == at
    ensures Ids(WithItem(rekeyed, Item(id, key), at)) == PlaceAfter(Ids(rows), id, after, before)
  {
    IdsWithout(rows, id);
    assert Ids(rows)[IndexOf(rows, id)] == id;
    IdsWithItem(rekeyed, Item(id, key), at);
  }

  lemma IdsWithItem(rest: seq<Item>, x: Item, at: nat)
    requires at <= |rest|
    ensures Ids(WithItem(rest, x, at)) == Ids(rest)[..at] + [x.id] + Ids(rest)[at..]
  {
  }

  // ---- which hints the two agree on -----------------------------------------------------------

  /** Whatever the keys, moving a page between the i-th and j-th others shows the same order on both sides. */
  ghost predicate AlwaysAgrees(n: nat, i: nat, j: nat)
    requires i < j < n
  {
    forall rows: seq<Item>, m: nat | Ordered(rows) && Storable(rows) && m < |rows| == n + 1 ::
      var id, rest := rows[m].id, Without(rows, rows[m].id);
      |rest| == n ==>
        Ids(Moved(rows, id, BothHints(rest, i, j))) == PlaceAfter(Ids(rows), id, Some(rest[i].id), Some(rest[j].id))
  }

  lemma WithoutLast(rows: seq<Item>, n: nat)
    requires DistinctIds(rows) && |rows| == n + 1
    ensures Without(rows, rows[n].id) == rows[..n]
  {
    WithoutAt(rows, n);
    assert rows[n + 1..] == [] && rows[..n] + [] == rows[..n];
  }

  lemma CrowdedMoved(rest: seq<Item>, rows: seq<Item>, i: nat, j: nat, id: Id)
    requires IsCrowded(rest, i, j) && Without(rows, id) == rest
    ensures Moved(rows, id, BothHints(rest, i, j)) == InsertRow(rest, Item(id, "V"))
  {
    CrowdedCollides(rest, i, j);
  }

  lemma ShownAfter(ids: seq<Id>, id: Id, rest: seq<Id>, i: nat, before: Option<Id>)
    requires id in ids && WithoutId(ids, id) == rest && i < |rest|
    requires forall t :: 0 <= t < |rest| && t != i ==> rest[t] != rest[i]
    ensures PlaceAfter(ids, id, Some(rest[i]), before) == rest[..i + 1] + [id] + rest[i + 1..]
  {
    OnlyIndex(rest, i);
  }

  lemma CrowdedShown(rest: seq<Item>, rows: seq<Item>, n: nat, i: nat, j: nat)
    requires IsCrowded(rest, i, j) && |rest| == n && |rows| == n + 1 && rows[n].id == n && Without(rows, n) == rest
    ensures |PlaceAfter(Ids(rows), n, Some(i), Some(j))| > i + 1
    ensures PlaceAfter(Ids(rows), n, Some(i), Some(j))[i + 1] == n
  {
    IdsWithout(rows, n);
    assert Ids(rows)[n] == n;
    ShownAfter(Ids(rows), n, Ids(rest), i, Some(j));
  }

  /** In a crowded list the server puts the last page one place below where the client does. */
  lemma CrowdedDisagrees(rest: seq<Item>, rows: seq<Item>, n: nat, i: nat, j: nat)
    requires IsCrowded(rest, i, j) && |rest| == n && |rows| == n + 1 && rows[n].id == n && Without(rows, n) == rest
    ensures Ids(Moved(rows, n, BothHints(rest, i, j))) != PlaceAfter(Ids(rows), n, Some(i), Some(j))
  {
    CrowdedMoved(rest, rows, i, j, n);
    InsertBehindTie(rest, Item(n, "V"), i + 1);
    CrowdedShown(rest, rows, n, i, j);
    var moved := InsertRow(rest, Item(n, "V"));
    assert Ids(moved)[i + 1] == moved[i + 1].id == i + 1;
  }

  /** An equal key sorts by id: a greater id comes out behind the member it ties with. */
  lemma {:induction false} InsertBehindTie(rest: seq<Item>, x: Item, tie: nat)
    requires tie < |rest| && rest[tie].key == x.key && rest[tie].id < x.id
    requires forall t :: 0 <= t < tie ==> Less(rest[t].key, x.key)
    ensures InsertRow(rest, x)[tie] == rest[tie]
  {
    LessTotal(rest[0].key, x.key);
    if tie > 0 {
      var tail := rest[1..];
      assert forall t :: 0 <= t < tie - 1 ==> tail[t] == rest[t + 1];
      InsertBehindTie(tail, x, tie - 1);
    }
  }

  /** Client and server agree on two hints in order, whatever the keys, exactly when they are adjacent. */
  lemma AgreesIffAdjacent(n: nat, i: nat, j: nat)
    requires i < j < n && n + 1 <= Power(9)
    ensures AlwaysAgrees(n, i, j) <==> j == i + 1
  {
    if j == i + 1 {
      forall rows: seq<Item>, m: nat |
        Ordered(rows) && Storable(rows) && m < |rows| == n + 1 && |Without(rows, rows[m].id)| == n
        ensures var id, rest := rows[m].id, Without(rows, rows[m].id);
                Ids(Moved(rows, id, BothHints(rest, i, j))) ==
                    PlaceAfter(Ids(rows), id, Some(rest[i].id), Some(rest[j].id))
      {
        var rest := Without(rows, rows[m].id);
        WithoutOrdered(rows, m);
        BothHintsSlot(rest, i, j);
        OptimisticOrderIsServerOrder(rows, rows[m].id, Some(rest[i].id), Some(rest[j].id));
      }
    } else {
      CrowdedNeverAgrees(n, i, j);
    }
  }

  lemma CrowdedNeverAgrees(n: nat, i: nat, j: nat)
    requires i + 1 < j < n && n + 1 <= Power(9)
    ensures !AlwaysAgrees(n, i, j)
  {
    var rows := CrowdedExists(n + 1, i, j);
    WithoutLast(rows, n);
    CrowdedDisagrees(rows[..n], rows, n, i, j);
    DisagreesOnce(rows, rows[..n], n, i, j);
  }

  lemma DisagreesOnce(rows: seq<Item>, rest: seq<Item>, n: nat, i: nat, j: nat)
    requires Ordered(rows) && Storable(rows) && |rows| == n + 1 && |rest| == n && i < j < n
    requires rest == Without(rows, rows[n].id) && rest[i].id == i && rest[j].id == j
    requires Ids(Moved(rows, rows[n].id, BothHints(rest, i, j))) != PlaceAfter(Ids(rows), rows[n].id, Some(i), Some(j))
    ensures !AlwaysAgrees(n, i, j)
  {
  }

  // ---- dropping an item -----------------------------------------------------------------------

  /** Sending the neighbours of the dropped item gives back the list it was dropped into. */
  lemma NeighboursRoundTrip(ids: seq<Id>, target: seq<Id>, index: nat)
    requires index < |target| && target[index] in ids
    requires forall s, t :: 0 <= s < t < |target| ==> target[s] != target[t]
    requires WithoutId(ids, target[index]) == target[..index] + target[index + 1..]
    ensures PlaceAfter(ids, target[index], Neighbours(target, index).0, Neighbours(target, index).1) == target
  {
    DropPoint(WithoutId(ids, target[index]), target, index);
    assert target == target[..index] + [target[index]] + target[index + 1..];
  }

  lemma DropPoint(rest: seq<Id>, target: seq<Id>, index: nat)
    requires index < |target| && rest == target[..index] + target[index + 1..]
    requires forall s, t :: 0 <= s < t < |target| ==> target[s] != target[t]
    ensures InsertionPoint(rest, Neighbours(target, index).0, Neighbours(target, index).1) == index
  {
    var (after, before) := Neighbours(target, index);
    if after.Some? {
      assert rest[index - 1] == after.value;
      OnlyIndex(rest, index - 1);
    } else if before.Some? {
      assert rest[0] == before.value;
      OnlyIndex(rest, 0);
    }
  }

  lemma OnlyIndex(ids: seq<Id>, i: nat)
    requires i < |ids| && forall t :: 0 <= t < |ids| && t != i ==> ids[t] != ids[i]
    ensures FindIndex(ids, ids[i]) == i
  {
  }
}
