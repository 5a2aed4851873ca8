/** What the history of a chat message says after any deliveries: late, early, repeated, from the future or
    from before linking. */
module ChatHistory {
  import opened Common
  import opened ChatEdits

  // ---- one delivery ---------------------------------------------------------------------------

  lemma {:induction false} PartsStay(m: Message, ds: seq<Delivery>, linkedAt: Instant)
    ensures |Received(m, ds, linkedAt).parts| == |m.parts|
    decreases |ds|
  {
    if ds != [] { PartsStay(m, ds[..|ds| - 1], linkedAt); }
  }

  /** The delivery is the first of its event and brings a text for the part from after linking. */
  predicate Counts(m: Message, d: Delivery, linkedAt: Instant, part: nat) {
    d.edit.id !in m.answers && d.edit.at >= linkedAt && part < |d.edit.texts|
  }

  /** The time an edit is given: when it was made, or now if that is too far in the future. */
  function Dated(d: Delivery): Instant {
    if d.edit.at <= d.now + MAX_FUTURE_SKEW then d.edit.at else d.now
  }

  /** The part after one delivery: one entry more in its history, saying what was sent and when it was made,
      or nothing. */
  lemma DeliveryWrites(m: Message, d: Delivery, linkedAt: Instant, part: nat)
    requires part < |m.parts|
    ensures var m1 := Handled(m, d.edit, d.now, linkedAt);
      && |m1.parts| == |m.parts|
      && (!Counts(m, d, linkedAt, part) ==> m1.parts[part] == m.parts[part])
      && (Counts(m, d, linkedAt, part) ==> Records(m.parts[part], d, part, m1.parts[part]))
  {
  }

  predicate Records(p: Part, d: Delivery, part: nat, p1: Part)
    requires part < |d.edit.texts|
  {
    var text, n := d.edit.texts[part], |p.history|;
    && |p1.history| == n + 1 && p.history <= p1.history
    && p1.history[n].text == text && p1.history[n].at == Dated(d) && p1.history[n].event == d.edit.id
    && (p1.history[n].applied <==> p.editedAt.None? || p.editedAt.value < Dated(d))
    && p1.text == (if p1.history[n].applied then text else p.text)
    && p1.editedAt == if p1.history[n].applied && text != p.text then Some(Dated(d)) else p.editedAt
  }

  lemma {:induction false} LastDelivery(m: Message, ds: seq<Delivery>, linkedAt: Instant, part: nat)
    requires ds != [] && part < |m.parts|
    ensures var before, last := Received(m, ds[..|ds| - 1], linkedAt), ds[|ds| - 1];
      var after := Received(m, ds, linkedAt);
      && |before.parts| == |after.parts| == |m.parts|
      && (!Counts(before, last, linkedAt, part) ==> after.parts[part] == before.parts[part])
      && (Counts(before, last, linkedAt, part) ==> Records(before.parts[part], last, part, after.parts[part]))
  {
    PartsStay(m, ds[..|ds| - 1], linkedAt);
    DeliveryWrites(Received(m, ds[..|ds| - 1], linkedAt), ds[|ds| - 1], linkedAt, part);
  }

  /** Entries once written never change. */
  lemma {:induction false} HistoryOnlyGrows(m: Message, ds: seq<Delivery>, linkedAt: Instant, part: nat, n: nat)
    requires part < |m.parts| && n <= |ds|
    ensures |Received(m, ds[..n], linkedAt).parts| == |Received(m, ds, linkedAt).parts| == |m.parts|
    ensures Received(m, ds[..n], linkedAt).parts[part].history <= Received(m, ds, linkedAt).parts[part].history
    decreases |ds|
  {
    PartsStay(m, ds[..n], linkedAt);
    PartsStay(m, ds, linkedAt);
    if n == |ds| {
      assert ds[..n] == ds;
    } else {
      LastDelivery(m, ds, linkedAt, part);
      assert ds[..|ds| - 1][..n] == ds[..n];
      HistoryOnlyGrows(m, ds[..|ds| - 1], linkedAt, part, n);
    }
  }

  // ---- what is recorded of an event -----------------------------------------------------------

  /** The first delivery of the event. */
  predicate First(ds: seq<Delivery>, i: nat, id: EventId) {
    i < |ds| && ds[i].edit.id == id && forall j :: 0 <= j < i ==> ds[j].edit.id != id
  }

  /** Nothing of the event is known. */
  predicate Unknown(m: Message, part: nat, id: EventId) {
    part < |m.parts| && id !in m.answers && Entries(m.parts[part].history, id) == 0
  }

  /** The part's entries of the event: none, or one with this text and time. */
  predicate OneEntry(history: seq<Version>, id: EventId, text: string, at: Instant) {
    && Entries(history, id) == 1
    && forall k :: 0 <= k < |history| && history[k].event == id ==> history[k].text == text && history[k].at == at
  }

  /** What the first delivery d of an event leaves of it, whatever else is delivered. */
  predicate Settled(m: Message, d: Delivery, linkedAt: Instant, part: nat) {
    && part < |m.parts| && d.edit.id in m.answers
    && (m.answers[d.edit.id] == BeforeLink <==> d.edit.at < linkedAt)
    && (m.answers[d.edit.id] == Updated <==> d.edit.at >= linkedAt && d.edit.texts != [])
    && if d.edit.at >= linkedAt && part < |d.edit.texts|
       then OneEntry(m.parts[part].history, d.edit.id, d.edit.texts[part], Dated(d))
       else Entries(m.parts[part].history, d.edit.id) == 0
  }

  lemma {:induction false} NoEntry(history: seq<Version>, id: EventId, k: nat)
    requires Entries(history, id) == 0 && k < |history|
    ensures history[k].event != id
    decreases |history|
  {
    if k < |history| - 1 { NoEntry(history[..|history| - 1], id, k); }
  }

  lemma EntriesSnoc(history: seq<Version>, v: Version, id: EventId)
    ensures Entries(history + [v], id) == Entries(history, id) + if v.event == id then 1 else 0
  {
    assert (history + [v])[..|history|] == history;
  }

  lemma RecordsEntries(p: Part, d: Delivery, part: nat, p1: Part, id: EventId)
    requires part < |d.edit.texts| && Records(p, d, part, p1)
    ensures Entries(p1.history, id) == Entries(p.history, id) + if d.edit.id == id then 1 else 0
  {
    EntriesSnoc(p.history, p1.history[|p.history|], id);
    assert p1.history == p.history + [p1.history[|p.history|]];
  }

  /** An event that is not delivered stays unknown. */
  lemma {:induction false} StaysUnknown(m: Message, ds: seq<Delivery>, linkedAt: Instant, part: nat, id: EventId)
    requires Unknown(m, part, id) && forall j :: 0 <= j < |ds| ==> ds[j].edit.id != id
    ensures Unknown(Received(m, ds, linkedAt), part, id)
    decreases |ds|
  {
    if ds != [] {
      var before := Received(m, ds[..|ds| - 1], linkedAt);
      StaysUnknown(m, ds[..|ds| - 1], linkedAt, part, id);
      LastDelivery(m, ds, linkedAt, part);
      if Counts(before, ds[|ds| - 1], linkedAt, part) {
        RecordsEntries(before.parts[part], ds[|ds| - 1], part, Received(m, ds, linkedAt).parts[part], id);
      }
    }
  }

  lemma FirstSettles(m: Message, d: Delivery, linkedAt: Instant, part: nat)
    requires Unknown(m, part, d.edit.id)
    ensures Settled(Handled(m, d.edit, d.now, linkedAt), d, linkedAt, part)
  {
    var id, m1 := d.edit.id, Handled(m, d.edit, d.now, linkedAt);
    DeliveryWrites(m, d, linkedAt, part);
    if Counts(m, d, linkedAt, part) {
      RecordsEntries(m.parts[part], d, part, m1.parts[part], id);
      forall k | 0 <= k < |m1.parts[part].history| && m1.parts[part].history[k].event == id
        ensures k == |m.parts[part].history|
      {
        if k < |m.parts[part].history| { NoEntry(m.parts[part].history, id, k); }
      }
    }
  }

  lemma StaysSettled(m: Message, d: Delivery, other: Delivery, linkedAt: Instant, part: nat)
    requires Settled(m, d, linkedAt, part)
    ensures Settled(Handled(m, other.edit, other.now, linkedAt), d, linkedAt, part)
  {
    var m1 := Handled(m, other.edit, other.now, linkedAt);
    DeliveryWrites(m, other, linkedAt, part);
    if Counts(m, other, linkedAt, part) { RecordsEntries(m.parts[part], other, part, m1.parts[part], d.edit.id); }
  }

  /** Whatever is delivered, however often and in whatever order: the first delivery of an event decides. Made
      before linking it leaves nothing but that answer; otherwise each part it has a text for has exactly one
      entry of it, with that text and the time it was made, or the time it came if that is in the future. */
  lemma {:induction false} FirstDecides(m: Message, ds: seq<Delivery>, linkedAt: Instant, part: nat, i: nat)
    requires i < |ds| && First(ds, i, ds[i].edit.id) && Unknown(m, part, ds[i].edit.id)
    ensures Settled(Received(m, ds, linkedAt), ds[i], linkedAt, part)
    decreases |ds|
  {
    var n := |ds| - 1;
    if i == n {
      StaysUnknown(m, ds[..n], linkedAt, part, ds[n].edit.id);
      FirstSettles(Received(m, ds[..n], linkedAt), ds[n], linkedAt, part);
    } else {
      FirstDecides(m, ds[..n], linkedAt, part, i);
      StaysSettled(Received(m, ds[..n], linkedAt), ds[i], ds[n], linkedAt, part);
    }
  }

  // ---- which entries were applied, and the text -----------------------------------------------

  /** The text as the history tells it: that of the last applied one of its first n entries, or the original;
      the first `base` entries are from before. */
  function TextAt(original: string, history: seq<Version>, base: nat, n: nat): string
    requires n <= |history|
    decreases n
  {
    if n <= base then original
    else if history[n - 1].applied then history[n - 1].text
    else TextAt(original, history, base, n - 1)
  }

  /** The entry set the text: it was applied and its text was another than the one there was. */
  predicate Set(original: string, history: seq<Version>, base: nat, i: nat)
    requires i < |history|
  {
    base <= i && history[i].applied && history[i].text != TextAt(original, history, base, i)
  }

  /** All of the first n entries that set the text were made before this time. */
  predicate AllBefore(original: string, history: seq<Version>, base: nat, n: nat, at: Instant)
    requires n <= |history|
  {
    forall i :: base <= i < n && Set(original, history, base, i) ==> history[i].at < at
  }

  /** The part is what its history says: an entry is applied exactly if all that had set the text by then were
      made before it, the text is that of the last applied one, and what is later than its time is later
      than all that set it. */
  ghost predicate Consistent(p: Part, original: string, base: nat) {
    && base <= |p.history|
    && p.text == TextAt(original, p.history, base, |p.history|)
    && AppliedIfNewest(original, p.history, base)
    && Dates(original, p.history, base, p.editedAt)
  }

  predicate AppliedIfNewest(original: string, history: seq<Version>, base: nat) {
    forall k :: base <= k < |history| ==>
      (history[k].applied <==> AllBefore(original, history, base, k, history[k].at))
  }

  ghost predicate Dates(original: string, history: seq<Version>, base: nat, editedAt: Option<Instant>) {
    forall at :: AllBefore(original, history, base, |history|, at) <==> editedAt.None? || editedAt.value < at
  }

  lemma {:induction false} TextAtPrefix(original: string, history: seq<Version>, longer: seq<Version>, base: nat,
      n: nat)
    requires history <= longer && n <= |history|
    ensures TextAt(original, history, base, n) == TextAt(original, longer, base, n)
    decreases n
  {
    if n > base { TextAtPrefix(original, history, longer, base, n - 1); }
  }

  lemma SetPrefix(original: string, history: seq<Version>, longer: seq<Version>, base: nat, n: nat, at: Instant)
    requires history <= longer && n <= |history|
    ensures AllBefore(original, history, base, n, at) == AllBefore(original, longer, base, n, at)
  {
    forall i | 0 <= i < n ensures Set(original, history, base, i) == Set(original, longer, base, i) {
      TextAtPrefix(original, history, longer, base, i);
    }
  }

  lemma NextBefore(original: string, history: seq<Version>, base: nat, n: nat, at: Instant)
    requires base <= n < |history|
    ensures AllBefore(original, history, base, n + 1, at) <==>
        AllBefore(original, history, base, n, at) && (Set(original, history, base, n) ==> history[n].at < at)
  {
  }

  lemma AppliedFollows(h: seq<Version>, h1: seq<Version>, original: string, base: nat)
    requires AppliedIfNewest(original, h, base) && |h1| == |h| + 1 && h <= h1
    requires base <= |h| ==> (h1[|h|].applied <==> AllBefore(original, h, base, |h|, h1[|h|].at))
    ensures AppliedIfNewest(original, h1, base)
  {
    forall k | base <= k < |h1| ensures h1[k].applied <==> AllBefore(original, h1, base, k, h1[k].at) {
      SetPrefix(original, h, h1, base, k, h1[k].at);
    }
  }

  lemma DatesFollow(h: seq<Version>, h1: seq<Version>, original: string, base: nat, t: Option<Instant>,
      t1: Option<Instant>)
    requires Dates(original, h, base, t) && base <= |h| && |h1| == |h| + 1 && h <= h1
    requires h1[|h|].applied ==> t.None? || t.value < h1[|h|].at
    requires t1 == if Set(original, h1, base, |h|) then Some(h1[|h|].at) else t
    ensures Dates(original, h1, base, t1)
  {
    var all := |h1|;
    forall at ensures AllBefore(original, h1, base, all, at) <==> t1.None? || t1.value < at {
      SetPrefix(original, h, h1, base, |h|, at);
      NextBefore(original, h1, base, |h|, at);
    }
  }

  lemma TextFollows(h: seq<Version>, h1: seq<Version>, original: string, base: nat, text: string)
    requires base <= |h| && |h1| == |h| + 1 && h <= h1 && text == TextAt(original, h, base, |h|)
    ensures TextAt(original, h1, base, |h1|) == if h1[|h|].applied then h1[|h|].text else text
    ensures Set(original, h1, base, |h|) <==> h1[|h|].applied && h1[|h|].text != text
  {
    TextAtPrefix(original, h, h1, base, |h|);
  }

  lemma NewestIfLater(h: seq<Version>, original: string, base: nat, t: Option<Instant>, at: Instant)
    requires Dates(original, h, base, t)
    ensures AllBefore(original, h, base, |h|, at) <==> t.None? || t.value < at
  {
  }

  lemma RecordsConsistent(p: Part, d: Delivery, part: nat, p1: Part, original: string, base: nat)
    requires part < |d.edit.texts| && Records(p, d, part, p1) && Consistent(p, original, base)
    ensures Consistent(p1, original, base)
  {
    var h, h1 := p.history, p1.history;
    TextFollows(h, h1, original, base, p.text);
    NewestIfLater(h, original, base, p.editedAt, h1[|h|].at);
    AppliedFollows(h, h1, original, base);
    DatesFollow(h, h1, original, base, p.editedAt, p1.editedAt);
  }

  /** After any deliveries, from a part that has not been edited: an edit was applied exactly if no edit that
      had set the text by then was made at that time or later, and the text is that of the last applied one,
      or the original. */
  lemma {:induction false} TextFollowsHistory(m: Message, ds: seq<Delivery>, linkedAt: Instant, part: nat)
    requires part < |m.parts| && m.parts[part].editedAt.None?
    ensures |Received(m, ds, linkedAt).parts| == |m.parts|
    ensures Consistent(Received(m, ds, linkedAt).parts[part], m.parts[part].text, |m.parts[part].history|)
    decreases |ds|
  {
    if ds != [] {
      var before, last, after := Received(m, ds[..|ds| - 1], linkedAt), ds[|ds| - 1], Received(m, ds, linkedAt);
      TextFollowsHistory(m, ds[..|ds| - 1], linkedAt, part);
      LastDelivery(m, ds, linkedAt, part);
      if Counts(before, last, linkedAt, part) {
        RecordsConsistent(before.parts[part], last, part, after.parts[part], m.parts[part].text,
            |m.parts[part].history|);
      }
    }
  }

  // ---- clocks in the future -------------------------------------------------------------------

  /** An edit with a time in the future does not keep later ones out: once the clock has passed the skew
      after all deliveries so far, whatever times they claimed, the next edit is applied. */
  lemma {:induction false} FutureDoesNotPin(m: Message, ds: seq<Delivery>, linkedAt: Instant, part: nat, now: Instant)
    requires part < |m.parts| && m.parts[part].editedAt.None?
    requires forall i :: 0 <= i < |ds| ==> ds[i].now <= now
    ensures |Received(m, ds, linkedAt).parts| == |m.parts|
    ensures var at := Received(m, ds, linkedAt).parts[part].editedAt;
      at.Some? ==> at.value <= now + MAX_FUTURE_SKEW
    decreases |ds|
  {
    if ds != [] {
      FutureDoesNotPin(m, ds[..|ds| - 1], linkedAt, part, now);
      LastDelivery(m, ds, linkedAt, part);
    }
  }

  lemma NextIsApplied(m: Message, ds: seq<Delivery>, linkedAt: Instant, part: nat, d: Delivery, now: Instant)
    requires part < |m.parts| && m.parts[part].editedAt.None?
    requires forall i :: 0 <= i < |ds| ==> ds[i].now <= now
    requires d.edit.at > now + MAX_FUTURE_SKEW && d.edit.at <= d.now + MAX_FUTURE_SKEW
    requires part < |d.edit.texts| && d.edit.at >= linkedAt && d.edit.id !in Received(m, ds, linkedAt).answers
    ensures |Received(m, ds + [d], linkedAt).parts| == |m.parts|
    ensures Received(m, ds + [d], linkedAt).parts[part].text == d.edit.texts[part]
  {
    FutureDoesNotPin(m, ds, linkedAt, part, now);
    assert (ds + [d])[..|ds|] == ds;
    LastDelivery(m, ds + [d], linkedAt, part);
  }
}
