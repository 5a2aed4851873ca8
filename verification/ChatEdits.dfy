/** Edits of a chat message: they arrive in any order and more than once, and the latest made wins. */
module ChatEdits {
  import opened Common

  type EventId = nat

  /** An edit event with the new texts of the message, in message order. */
  datatype Edit = Edit(id: EventId, at: Instant, texts: seq<string>)

  /** An entry of a text part's history. */
  datatype Version = Version(text: string, at: Instant, applied: bool, event: EventId)

  /** A text part that came from the message. */
  datatype Part = Part(text: string, editedAt: Option<Instant>, history: seq<Version>)

  datatype Outcome = Updated | Ignored | BeforeLink

  /** What Core holds of one message: its text parts in message order, and the events it has answered. */
  datatype Message = Message(parts: seq<Part>, answers: map<EventId, Outcome>)

  const MAX_FUTURE_SKEW: Instant := 300

  // ---- one event ------------------------------------------------------------------------------

  predicate Applies(p: Part, at: Instant) { p.editedAt.None? || at > p.editedAt.value }

  function EditPart(p: Part, text: string, at: Instant, event: EventId): Part {
    var applied := Applies(p, at);
    var p1 := p.(history := p.history + [Version(text, at, applied, event)]);
    if applied && text != p.text then p1.(text := text, editedAt := Some(at)) else p1
  }

  /** Texts and parts are paired by their place; parts without a text stay. */
  function EditParts(parts: seq<Part>, e: Edit, at: Instant): seq<Part> {
    seq(|parts|, i requires 0 <= i < |parts| =>
      if i < |e.texts| then EditPart(parts[i], e.texts[i], at, e.id) else parts[i])
  }

  /** A timestamp too far in the future counts as now. */
  function Clamped(at: Instant, now: Instant): Instant { if at > now + MAX_FUTURE_SKEW then now else at }

  function Answer(m: Message, e: Edit, linkedAt: Instant): Outcome {
    if e.id in m.answers then m.answers[e.id]
    else if e.at < linkedAt then BeforeLink
    else if m.parts == [] || e.texts == [] then Ignored
    else Updated
  }

  function Handled(m: Message, e: Edit, now: Instant, linkedAt: Instant): Message {
    if e.id in m.answers then m
    else
      Message(if e.at < linkedAt then m.parts else EditParts(m.parts, e, Clamped(e.at, now)),
              m.answers[e.id := Answer(m, e, linkedAt)])
  }

  /** The message's text parts and event answers, as the transactions change them. */
  class Store {
    var parts: seq<Part>
    var answers: map<EventId, Outcome>

    ghost function Contents(): Message
      reads this
    {
      Message(parts, answers)
    }

    /** The new texts of the message, in order, onto its old ones. */
    method Edited(e: Edit, at: Instant) returns (seen: bool)
      modifies this`parts
      ensures parts == EditParts(old(parts), e, at)
      ensures seen <==> old(parts) != [] && e.texts != []
    {
      seen := false;
      var k := 0;
      while k < |e.texts| && k < |parts|
        invariant 0 <= k <= |e.texts| && k <= |parts| == |old(parts)| && (seen <==> k > 0)
        invariant forall i :: 0 <= i < k ==> parts[i] == EditPart(old(parts)[i], e.texts[i], at, e.id)
        invariant forall i :: k <= i < |parts| ==> parts[i] == old(parts)[i]
      {
        var p, text := parts[k], e.texts[k];
        seen := true;
        var applied := p.editedAt.None? || at > p.editedAt.value;
        var p1 := p.(history := p.history + [Version(text, at, applied, e.id)]);
        if applied && p.text != text { p1 := p1.(text := text, editedAt := Some(at)); }
        parts := parts[k := p1];
        k := k + 1;
      }
    }

    /** A delivery that repeats an event changes nothing and is answered as before. */
    method Handle(e: Edit, now: Instant, linkedAt: Instant) returns (out: Outcome)
      modifies this
      ensures Contents() == Handled(old(Contents()), e, now, linkedAt)
      ensures out == Answer(old(Contents()), e, linkedAt)
      ensures e.id in answers && answers[e.id] == out
    {
      if e.id in answers { return answers[e.id]; }
      if e.at < linkedAt {
        out := BeforeLink;
      } else {
        var at := e.at;
        if at > now + MAX_FUTURE_SKEW { at := now; }
        var seen := Edited(e, at);
        out := if seen then Updated else Ignored;
      }
      answers := answers[e.id := out];
    }
  }

  // ---- any order of deliveries ----------------------------------------------------------------

  datatype Delivery = Delivery(edit: Edit, now: Instant)

  function Received(m: Message, ds: seq<Delivery>, linkedAt: Instant): Message
    decreases |ds|
  {
    if ds == [] then m
    else
      var last := ds[|ds| - 1];
      Handled(Received(m, ds[..|ds| - 1], linkedAt), last.edit, last.now, linkedAt)
  }

  /** Edits made after linking and, at each delivery, not in the future; the clock does not run back. */
  predicate Timely(ds: seq<Delivery>, linkedAt: Instant) {
    && (forall i :: 0 <= i < |ds| ==> linkedAt <= ds[i].edit.at <= ds[i].now + MAX_FUTURE_SKEW)
    && (forall i, j :: 0 <= i < j < |ds| ==> ds[i].now <= ds[j].now)
  }

  /** The edits delivered so far. */
  ghost function Sofar(ds: seq<Delivery>): set<Edit> { set i | 0 <= i < |ds| :: ds[i].edit }

  /** Each edit is delivered at least once, and nothing else is. */
  ghost predicate Delivers(ds: seq<Delivery>, edits: set<Edit>) { Sofar(ds) == edits }

  /** Different edits have different events and times, and each has a text for the part. */
  ghost predicate Distinct(edits: set<Edit>, part: nat) {
    && (forall a, b :: a in edits && b in edits && a != b ==> a.id != b.id && a.at != b.at)
    && (forall e :: e in edits ==> part < |e.texts|)
  }

  /** A message as created: none of its events are edits, no part has been edited. */
  ghost predicate Untouched(m: Message, part: nat, edits: set<Edit>) {
    && part < |m.parts| && m.parts[part].editedAt.None?
    && (forall e :: e in edits ==> e.id !in m.answers)
    && (forall e, i :: e in edits && 0 <= i < |m.parts[part].history| ==> m.parts[part].history[i].event != e.id)
  }

  lemma SofarSnoc(ds: seq<Delivery>)
    requires ds != []
    ensures Sofar(ds) == Sofar(ds[..|ds| - 1]) + {ds[|ds| - 1].edit}
  {
    var before := ds[..|ds| - 1];
    forall e | e in Sofar(ds) ensures e in Sofar(before) + {ds[|ds| - 1].edit} {
      var i :| 0 <= i < |ds| && ds[i].edit == e;
      if i < |ds| - 1 { assert before[i].edit == e; }
    }
    forall e | e in Sofar(before) ensures e in Sofar(ds) {
      var i :| 0 <= i < |before| && before[i].edit == e;
      assert ds[i].edit == e;
    }
  }

  /** A text part as a created event makes it: its text is the first entry of its history, and the time of
      the text is left open. */
  function CreatedPart(text: string, at: Instant, event: EventId): Part {
    Part(text, None, [Version(text, at, true, event)])
  }

  lemma CreatedIsUntouched(texts: seq<string>, at: Instant, event: EventId, part: nat, edits: set<Edit>)
    requires part < |texts| && forall e :: e in edits ==> e.id != event
    ensures
      var parts := seq(|texts|, i requires 0 <= i < |texts| => CreatedPart(texts[i], at, event));
      Untouched(Message(parts, map[event := Updated]), part, edits)
  {
  }

  // ---- nothing is lost ------------------------------------------------------------------------

  /** How often an event is in a history. */
  function Entries(history: seq<Version>, id: EventId): nat
    decreases |history|
  {
    if history == [] then 0
    else Entries(history[..|history| - 1], id) + if history[|history| - 1].event == id then 1 else 0
  }

  lemma {:induction false} NoEntries(history: seq<Version>, id: EventId)
    requires forall i :: 0 <= i < |history| ==> history[i].event != id
    ensures Entries(history, id) == 0
    decreases |history|
  {
    if history != [] { NoEntries(history[..|history| - 1], id); }
  }

  /** What has been answered is what has been delivered, and each edit has one entry in the history,
      whether it was applied or not. */
  lemma {:induction false} EachEditOnce(m: Message, ds: seq<Delivery>, linkedAt: Instant, edits: set<Edit>, part: nat,
      e: Edit)
    requires Distinct(edits, part) && Untouched(m, part, edits) && Timely(ds, linkedAt)
    requires Sofar(ds) <= edits && e in edits
    ensures var r := Received(m, ds, linkedAt);
      && |r.parts| == |m.parts|
      && (e.id in r.answers <==> e in Sofar(ds))
      && Entries(r.parts[part].history, e.id) == if e in Sofar(ds) then 1 else 0
    decreases |ds|
  {
    if ds == [] {
      NoEntries(m.parts[part].history, e.id);
    } else {
      SofarSnoc(ds);
      var last := ds[|ds| - 1].edit;
      EachEditOnce(m, ds[..|ds| - 1], linkedAt, edits, part, e);
      EachEditOnce(m, ds[..|ds| - 1], linkedAt, edits, part, last);
      var r0 := Received(m, ds[..|ds| - 1], linkedAt);
      if last.id !in r0.answers {
        var h, v := r0.parts[part].history,
            Version(last.texts[part], last.at, Applies(r0.parts[part], last.at), last.id);
        assert (h + [v])[..|h|] == h;
      }
    }
  }

  /** A delivery either repeats an edit, or edits the part by it. */
  lemma DeliveryStep(m: Message, ds: seq<Delivery>, linkedAt: Instant, edits: set<Edit>, part: nat)
    requires Distinct(edits, part) && Untouched(m, part, edits) && Timely(ds, linkedAt)
    requires Sofar(ds) <= edits && ds != []
    ensures var before, last := ds[..|ds| - 1], ds[|ds| - 1].edit;
      var r0, r := Received(m, before, linkedAt), Received(m, ds, linkedAt);
      && Sofar(before) <= edits && Timely(before, linkedAt) && last in edits && |r0.parts| == |r.parts| == |m.parts|
      && Sofar(ds) == Sofar(before) + {last}
      && r.parts[part] ==
           if last in Sofar(before) then r0.parts[part]
           else EditPart(r0.parts[part], last.texts[part], last.at, last.id)
  {
    SofarSnoc(ds);
    var before, last := ds[..|ds| - 1], ds[|ds| - 1].edit;
    EachEditOnce(m, before, linkedAt, edits, part, last);
  }

  // ---- convergence ----------------------------------------------------------------------------

  ghost predicate IsLatest(edits: set<Edit>, latest: Edit) {
    latest in edits && forall e :: e in edits ==> e.at <= latest.at
  }

  /** The latest text was not made before by an edit that a different text came after, and it is not the
      original text unless it is the only one. */
  ghost predicate TextsAllow(original: string, edits: set<Edit>, latest: Edit, part: nat)
    requires forall e :: e in edits ==> part < |e.texts|
    requires latest in edits
  {
    && (forall e, f :: e in edits && f in edits && e != latest ==>
          e.texts[part] == latest.texts[part] != f.texts[part] ==> f.at < e.at)
    && (original == latest.texts[part] ==> forall e :: e in edits ==> e.texts[part] == original)
  }

  /** The part holds an edit's text, with that edit's time. */
  ghost predicate HoldsEdit(p: Part, edits: set<Edit>, part: nat)
    requires forall e :: e in edits ==> part < |e.texts|
  {
    p.editedAt.Some? && exists e :: e in edits && e.at == p.editedAt.value && e.texts[part] == p.text
  }

  /** Before the latest edit arrives the part holds the original or an edit's text, with that edit's time;
      from then on it holds the latest text, and nothing that is still to come can replace it. */
  ghost predicate PartOk(p: Part, original: string, edits: set<Edit>, latest: Edit, part: nat, arrived: bool)
    requires Distinct(edits, part) && latest in edits
  {
    && (p.editedAt.None? ==> p.text == original)
    && (p.editedAt.Some? ==> HoldsEdit(p, edits, part))
    && (arrived ==> p.text == latest.texts[part])
    && (!arrived ==> p.editedAt.None? || p.editedAt.value < latest.at)
  }

  lemma EditKeepsPart(p: Part, e: Edit, original: string, edits: set<Edit>, latest: Edit, part: nat, arrived: bool)
    requires Distinct(edits, part) && IsLatest(edits, latest) && TextsAllow(original, edits, latest, part)
    requires e in edits && PartOk(p, original, edits, latest, part, arrived)
    ensures PartOk(EditPart(p, e.texts[part], e.at, e.id), original, edits, latest, part, arrived || e == latest)
  {
    var p1 := EditPart(p, e.texts[part], e.at, e.id);
    if p1.text == p.text && p1.editedAt == p.editedAt {
      if p.editedAt.Some? {
        var g :| g in edits && g.at == p.editedAt.value && g.texts[part] == p.text;
        assert HoldsEdit(p1, edits, part);
      }
    } else {
      assert e in edits && e.at == p1.editedAt.value && e.texts[part] == p1.text;
      assert HoldsEdit(p1, edits, part);
    }
  }

  lemma {:induction false} PartStaysOk(m: Message, ds: seq<Delivery>, linkedAt: Instant, edits: set<Edit>,
      latest: Edit, part: nat)
    requires Distinct(edits, part) && Untouched(m, part, edits) && IsLatest(edits, latest)
    requires TextsAllow(m.parts[part].text, edits, latest, part) && Timely(ds, linkedAt) && Sofar(ds) <= edits
    ensures |Received(m, ds, linkedAt).parts| == |m.parts|
    ensures PartOk(Received(m, ds, linkedAt).parts[part], m.parts[part].text, edits, latest, part, latest in Sofar(ds))
    decreases |ds|
  {
    if ds != [] {
      var before, last := ds[..|ds| - 1], ds[|ds| - 1].edit;
      DeliveryStep(m, ds, linkedAt, edits, part);
      PartStaysOk(m, before, linkedAt, edits, latest, part);
      EditKeepsPart(Received(m, before, linkedAt).parts[part], last, m.parts[part].text, edits, latest, part,
          latest in Sofar(before));
    }
  }

  // ---- when it does not converge --------------------------------------------------------------

  /** Distinct edits, all delivered at one instant. */
  ghost predicate Once(ds: seq<Delivery>, now: Instant) {
    && (forall i :: 0 <= i < |ds| ==> ds[i].now == now)
    && (forall i, j :: 0 <= i < j < |ds| ==> ds[i].edit != ds[j].edit)
  }

  /** The edits of a set, each delivered once. */
  lemma {:induction false} InSomeOrder(edits: set<Edit>, now: Instant) returns (ds: seq<Delivery>)
    ensures Sofar(ds) == edits && Once(ds, now)
    decreases |edits|
  {
    ds := [];
    if edits != {} {
      var e :| e in edits;
      var rest := InSomeOrder(edits - {e}, now);
      InSofar(rest);
      ds := rest + [Delivery(e, now)];
      assert ds[..|rest|] == rest;
      SofarSnoc(ds);
    }
  }

  /** The part after the edits that make the latest text: it holds that text, since the first of them. */
  lemma {:induction false} SameTextFirst(m: Message, ds: seq<Delivery>, linkedAt: Instant, edits: set<Edit>,
      part: nat, text: string)
    requires Distinct(edits, part) && Untouched(m, part, edits) && Timely(ds, linkedAt) && Sofar(ds) <= edits &&
        ds != []
    requires forall i :: 0 <= i < |ds| ==> ds[i].edit.texts[part] == text
    ensures |Received(m, ds, linkedAt).parts| == |m.parts|
    ensures var p := Received(m, ds, linkedAt).parts[part];
      p.text == text && p.editedAt == if m.parts[part].text == text then None else Some(ds[0].edit.at)
    decreases |ds|
  {
    DeliveryStep(m, ds, linkedAt, edits, part);
    var before := ds[..|ds| - 1];
    if before != [] {
      forall i | 0 <= i < |before| ensures before[i].edit.texts[part] == text { assert before[i] == ds[i]; }
      SameTextFirst(m, before, linkedAt, edits, part, text);
      assert before[0] == ds[0];
    } else {
      assert Sofar(before) == {} && Received(m, before, linkedAt) == m;
    }
  }

  /** Once only other texts are to come, one of them that is late enough replaces the text. */
  lemma {:induction false} OtherTextsLast(m: Message, first: seq<Delivery>, ds: seq<Delivery>, linkedAt: Instant,
                                          edits: set<Edit>, part: nat, text: string, now: Instant)
    requires Distinct(edits, part) && Untouched(m, part, edits) && Timely(first + ds, linkedAt) &&
        Sofar(first + ds) <= edits
    requires Once(ds, now) && Sofar(ds) !! Sofar(first)
    requires forall e :: e in Sofar(ds) ==> e in edits && e.texts[part] != text
    requires |Received(m, first, linkedAt).parts| == |m.parts|
    ensures |Received(m, first + ds, linkedAt).parts| == |m.parts|
    ensures var p0, p := Received(m, first, linkedAt).parts[part], Received(m, first + ds, linkedAt).parts[part];
      p.text == text ==> p.editedAt == p0.editedAt && forall e :: e in Sofar(ds) ==> !Applies(p0, e.at)
    decreases |ds|
  {
    if ds == [] {
      assert first + ds == first;
    } else {
      var n := |ds| - 1;
      var all, before := first + ds, first + ds[..n];
      assert all[..|all| - 1] == before && all[|all| - 1] == ds[n];
      DeliveryStep(m, all, linkedAt, edits, part);
      SofarSnoc(ds);
      JoinedSofar(first, ds[..n]);
      OtherTextsLast(m, first, ds[..n], linkedAt, edits, part, text, now);
      NotBefore(ds, n, now);
    }
  }

  lemma NotBefore(ds: seq<Delivery>, n: nat, now: Instant)
    requires Once(ds, now) && n < |ds|
    ensures ds[n].edit !in Sofar(ds[..n])
  {
  }

  /** The edits of one text, the chosen one first. */
  lemma ChosenFirst(same: set<Edit>, first: Edit, now: Instant) returns (head: seq<Delivery>)
    requires first in same
    ensures head != [] && head[0].edit == first && Sofar(head) == same
    ensures forall i :: 0 <= i < |head| ==> head[i].now == now
  {
    var one := [Delivery(first, now)];
    assert one[0].edit == first && Sofar(one) == {first};
    var tail := InSomeOrder(same - {first}, now);
    head := one + tail;
    JoinedSofar(one, tail);
  }

  /** Long after they were made, deliver the edits with the latest text first, starting with the chosen one,
      then all others. */
  lemma Unlucky(m: Message, linkedAt: Instant, edits: set<Edit>, part: nat, first: Edit, text: string, late: Edit,
      now: Instant)
    returns (ds: seq<Delivery>)
    requires Distinct(edits, part) && Untouched(m, part, edits)
    requires forall e :: e in edits ==> linkedAt <= e.at <= now
    requires first in edits && late in edits && first.texts[part] == text != late.texts[part]
    requires m.parts[part].text == text || late.at > first.at
    ensures Timely(ds, linkedAt) && Delivers(ds, edits) && !EndsWith(m, ds, linkedAt, part, text)
  {
    var same, other := set e | e in edits && e.texts[part] == text, set e | e in edits && e.texts[part] != text;
    var head := ChosenFirst(same, first, now);
    var rest := InSomeOrder(other, now);
    ds := head + rest;
    JoinedSofar(head, rest);
    AllTimely(head, linkedAt, edits, now);
    AllTimely(ds, linkedAt, edits, now);
    InSofar(head);
    SameTextFirst(m, head, linkedAt, edits, part, text);
    OtherTextsLast(m, head, rest, linkedAt, edits, part, text, now);
    assert late in Sofar(rest) && Applies(Received(m, head, linkedAt).parts[part], late.at);
  }

  lemma AllTimely(ds: seq<Delivery>, linkedAt: Instant, edits: set<Edit>, now: Instant)
    requires Sofar(ds) <= edits && forall e :: e in edits ==> linkedAt <= e.at <= now
    requires forall i :: 0 <= i < |ds| ==> ds[i].now == now
    ensures Timely(ds, linkedAt)
  {
    InSofar(ds);
  }

  lemma JoinedSofar(a: seq<Delivery>, b: seq<Delivery>)
    ensures Sofar(a + b) == Sofar(a) + Sofar(b)
  {
    forall e | e in Sofar(a) ensures e in Sofar(a + b) {
      var i :| 0 <= i < |a| && a[i].edit == e;
      assert (a + b)[i].edit == e;
    }
    forall e | e in Sofar(b) ensures e in Sofar(a + b) {
      var i :| 0 <= i < |b| && b[i].edit == e;
      assert (a + b)[|a| + i].edit == e;
    }
  }

  lemma InSofar(ds: seq<Delivery>)
    ensures forall i :: 0 <= i < |ds| ==> ds[i].edit in Sofar(ds)
  {
  }

  // ---- the theorem ----------------------------------------------------------------------------

  /** Every order of deliveries, with any repetitions, ends with the latest edit's text. */
  ghost predicate Converges(m: Message, linkedAt: Instant, edits: set<Edit>, latest: Edit, part: nat)
    requires part < |m.parts| && latest in edits && part < |latest.texts|
  {
    forall ds :: Timely(ds, linkedAt) && Delivers(ds, edits) ==> EndsWith(m, ds, linkedAt, part, latest.texts[part])
  }

  ghost predicate EndsWith(m: Message, ds: seq<Delivery>, linkedAt: Instant, part: nat, text: string) {
    part < |Received(m, ds, linkedAt).parts| && Received(m, ds, linkedAt).parts[part].text == text
  }

  lemma ConvergesExactly(m: Message, linkedAt: Instant, edits: set<Edit>, latest: Edit, part: nat)
    requires Distinct(edits, part) && Untouched(m, part, edits) && IsLatest(edits, latest)
    requires forall e :: e in edits ==> linkedAt <= e.at
    ensures Converges(m, linkedAt, edits, latest, part) <==> TextsAllow(m.parts[part].text, edits, latest, part)
  {
    var original, text := m.parts[part].text, latest.texts[part];
    if TextsAllow(original, edits, latest, part) {
      forall ds | Timely(ds, linkedAt) && Delivers(ds, edits) ensures EndsWith(m, ds, linkedAt, part, text) {
        assert Sofar(ds) == edits;
        PartStaysOk(m, ds, linkedAt, edits, latest, part);
      }
    } else if original == text {
      var late :| late in edits && (late.texts[part] != original ||
        (exists e :: e in edits && e != latest && e.texts[part] == text != late.texts[part] && late.at >= e.at));
      var ds := Unlucky(m, linkedAt, edits, part, latest, text, late, latest.at);
    } else {
      var e, f :| e in edits && f in edits && e != latest && e.texts[part] == text != f.texts[part] && f.at >= e.at;
      assert e != f;
      var ds := Unlucky(m, linkedAt, edits, part, e, text, f, latest.at);
    }
  }

  /** Pairwise different texts, also different from the original, always converge. */
  lemma DifferentTextsConverge(m: Message, linkedAt: Instant, edits: set<Edit>, latest: Edit, part: nat)
    requires Distinct(edits, part) && Untouched(m, part, edits) && IsLatest(edits, latest)
    requires forall e :: e in edits ==> linkedAt <= e.at && e.texts[part] != m.parts[part].text
    requires forall e, f :: e in edits && f in edits && e != f ==> e.texts[part] != f.texts[part]
    ensures Converges(m, linkedAt, edits, latest, part)
  {
    ConvergesExactly(m, linkedAt, edits, latest, part);
  }

  // ---- an example that does not converge ------------------------------------------------------

  const EARLY := Edit(1, 10, ["milk"])
  const BETWEEN := Edit(2, 20, ["eggs"])
  const LATEST := Edit(3, 30, ["milk"])

  /** A note that says bread. */
  const BREAD := Message([CreatedPart("bread", 0, 0)], map[0 := Updated])

  function BackToMilkLate(): seq<Delivery> { [Delivery(EARLY, 30), Delivery(LATEST, 30), Delivery(BETWEEN, 30)] }

  lemma BackToMilkEdits()
    ensures Untouched(BREAD, 0, {EARLY, BETWEEN, LATEST}) && Distinct({EARLY, BETWEEN, LATEST}, 0)
    ensures IsLatest({EARLY, BETWEEN, LATEST}, LATEST)
    ensures Timely(BackToMilkLate(), 0) && Delivers(BackToMilkLate(), {EARLY, BETWEEN, LATEST})
  {
    var ds := BackToMilkLate();
    assert ds[0].edit == EARLY && ds[1].edit == LATEST && ds[2].edit == BETWEEN;
  }

  lemma BackToMilkEnds()
    ensures EndsWith(BREAD, BackToMilkLate(), 0, 0, "eggs")
  {
    var ds := BackToMilkLate();
    assert "milk"[0] != "eggs"[0] && "milk"[0] != "bread"[0];
    ReceivedNext(BREAD, ds, 0, 0);
    ReceivedNext(BREAD, ds, 1, 0);
    ReceivedNext(BREAD, ds, 2, 0);
    var p1, p2 := Received(BREAD, ds[..1], 0).parts[0], Received(BREAD, ds[..2], 0).parts[0];
    assert p1.text == "milk" && p1.editedAt == Some(10);
    assert p2.text == "milk" && p2.editedAt == Some(10);
  }

  /** It is edited to milk, to eggs and back to milk, and the second edit arrives last: the note says eggs. */
  lemma BackToMilk()
    ensures Timely(BackToMilkLate(), 0) && Delivers(BackToMilkLate(), {EARLY, BETWEEN, LATEST})
    ensures EndsWith(BREAD, BackToMilkLate(), 0, 0, "eggs")
    ensures !Converges(BREAD, 0, {EARLY, BETWEEN, LATEST}, LATEST, 0)
  {
    BackToMilkEdits();
    BackToMilkEnds();
    assert "eggs"[0] != "milk"[0];
    assert !EndsWith(BREAD, BackToMilkLate(), 0, 0, LATEST.texts[0]);
  }

  lemma ReceivedNext(m: Message, ds: seq<Delivery>, n: nat, linkedAt: Instant)
    requires n < |ds|
    ensures Received(m, ds[..n + 1], linkedAt) ==
        Handled(Received(m, ds[..n], linkedAt), ds[n].edit, ds[n].now, linkedAt)
    ensures n == 0 ==> Received(m, ds[..n], linkedAt) == m
    ensures n + 1 == |ds| ==> Received(m, ds, linkedAt) == Received(m, ds[..n + 1], linkedAt)
  {
    assert ds[..n + 1][..n] == ds[..n];
    if n + 1 == |ds| { assert ds[..n + 1] == ds; }
  }
}
