/** What single transactions on reminders mean for the rows, and trips of a note through the Trash. */
module ReminderEffects {
  import opened Common
  import opened Calendar
  import opened Recurrence
  import opened Reminders
  import opened ReminderRuns

  // ---- the next occurrence --------------------------------------------------------------------

  /** The recurrence has an instant after now among its first CAP ones. */
  predicate HasLeft(r: Reminder, now: Instant) {
    && r.rule.Some? && WellFormed(r.rule.value)
    && At(r.due, Occurrence(r.rule.value, DayOf(r.due), CAP)) > now
  }

  /** The first instant of the recurrence, counted from the due time, that is after now. */
  ghost predicate IsNext(r: Reminder, now: Instant, due: Instant) {
    && r.rule.Some? && WellFormed(r.rule.value)
    && due > now && due == At(r.due, DayOf(due)) && InSet(r.rule.value, DayOf(r.due), DayOf(due))
    && forall day :: InSet(r.rule.value, DayOf(r.due), day) && At(r.due, day) > now ==> DayOf(due) <= day
  }

  lemma UpcomingIsNext(r: Reminder, now: Instant)
    ensures Upcoming(r, now).Some? <==> HasLeft(r, now)
    ensures Upcoming(r, now).Some? ==> IsNext(r, now, Upcoming(r, now).value)
  {
    if r.rule.Some? && WellFormed(r.rule.value) {
      NextGivesUp(r.rule.value, r.due, now);
      if Upcoming(r, now).Some? { NextIsLeast(r.rule.value, r.due, now); }
    }
  }

  /** The reminder goes on to its next occurrence and is otherwise as it was. */
  ghost predicate GoesOn(r: Reminder, now: Instant, r1: Reminder) {
    r1.status == Pending && IsNext(r, now, r1.due) && r1.user == r.user && r1.note == r.note && r1.rule == r.rule
  }

  // ---- the Trash ------------------------------------------------------------------------------

  /** The reminder as it was, its lease aside. */
  predicate SameButLease(r: Reminder, r1: Reminder) { r1 == r.(claimedUntil := r1.claimedUntil) }

  /** In the Trash: suspended if it was pending, and otherwise as it was. */
  predicate Frozen(st: State, id: Id, r: Reminder) {
    && id in st.reminders && r.status != Suspended
    && SameButLease(if r.status == Pending then r.(status := Suspended) else r, st.reminders[id])
    && NoteOf(st, r.note, r.user) && !st.notes[r.note].active
  }

  lemma StepKeepsFrozen(st: State, a: Action, id: Id, r: Reminder)
    requires Enabled(st, a) && Frozen(st, id, r) && !Edits(st, a, id)
    ensures Frozen(Apply(st, a), id, r)
  {
  }

  lemma DismissFreezes(st: State, user: User, note: NoteId, id: Id)
    requires Dismiss(st, user, note).Committed? && id in OnNote(st, user, note) && st.reminders[id].status != Suspended
    ensures Frozen(Apply(st, DoDismiss(user, note)), id, st.reminders[id])
  {
  }

  lemma RestoreThaws(st: State, id: Id, r: Reminder)
    requires Frozen(st, id, r) && (r.status == Pending ==> st.now < r.due)
    ensures var back := Apply(st, DoRestore(r.user, r.note));
      Active(back, r.note) && NoteOf(back, r.note, r.user) && id in back.reminders &&
          SameButLease(r, back.reminders[id])
  {
  }

  lemma RunKeepsFrozen(st: State, run: seq<Action>, id: Id, r: Reminder)
    requires Frozen(st, id, r) && Legal(st, run) && Unedited(st, run, id)
    ensures Frozen(Run(st, run), id, r)
  {
    var kept := (s: State) => Frozen(s, id, r);
    var allowed := (s: State, a: Action) => Enabled(s, a) && !Edits(s, a, id);
    forall s: State, a: Action | kept(s) && allowed(s, a) ensures kept(Apply(s, a)) { StepKeepsFrozen(s, a, id, r); }
    RunInduction(st, run, kept, allowed);
  }

  /** A trip to the Trash: the note is dismissed, other things happen, and it is brought back. */
  ghost predicate Trip(st: State, user: User, note: NoteId, id: Id, away: State, meanwhile: seq<Action>, back: State) {
    && NoteOf(st, note, user) && st.notes[note].active && away == Apply(st, DoDismiss(user, note))
    && Legal(away, meanwhile) && Unedited(away, meanwhile, id)
    && back == Apply(Run(away, meanwhile), DoRestore(user, note))
  }

  /** Whatever happens meanwhile to other notes and reminders: when a note comes back from the Trash, each of
      its reminders that is still ahead, or was not armed, is what it was, its lease aside; and for one that is
      still ahead some run sends. */
  lemma BackInTime(st: State, user: User, note: NoteId, id: Id, away: State, meanwhile: seq<Action>, back: State)
    requires Trip(st, user, note, id, away, meanwhile, back)
    requires id in OnNote(st, user, note) && st.reminders[id].status != Suspended
    requires st.reminders[id].status == Pending ==> back.now < st.reminders[id].due
    ensures Active(back, note) && id in back.reminders && SameButLease(st.reminders[id], back.reminders[id])
    ensures st.reminders[id].status == Pending ==> exists run :: SendsFor(back, run, id, st.reminders[id].due)
  {
    var r, there := st.reminders[id], Run(away, meanwhile);
    DismissFreezes(st, user, note, id);
    RunKeepsFrozen(away, meanwhile, id, r);
    ClockStands(there, user, note);
    RestoreThaws(there, id, r);
    if r.status == Pending { ArmedCanBeSent(back, id); }
  }

  lemma ClockStands(st: State, user: User, note: NoteId)
    ensures Apply(st, DoRestore(user, note)).now == st.now
  {
  }

  /** Or after it was due: then the reminder goes on to its next occurrence, and is cancelled exactly if it
      has none left. */
  lemma BackTooLate(st: State, user: User, note: NoteId, id: Id, away: State, meanwhile: seq<Action>, back: State)
    requires Trip(st, user, note, id, away, meanwhile, back)
    requires id in OnNote(st, user, note) && st.reminders[id].status == Pending && st.reminders[id].due <= back.now
    ensures var r := st.reminders[id];
      && id in back.reminders
      && (if HasLeft(r, back.now) then GoesOn(r, back.now, back.reminders[id])
          else SameButLease(r.(status := Cancelled), back.reminders[id]))
  {
    var r, there := st.reminders[id], Run(away, meanwhile);
    DismissFreezes(st, user, note, id);
    RunKeepsFrozen(away, meanwhile, id, r);
    ClockStands(there, user, note);
    RestoreRow(there, user, note, id);
    LateRow(r, there.reminders[id], there.now);
  }

  /** Bringing a note back visits its suspended reminders, each on its own. */
  lemma RestoreRow(st: State, user: User, note: NoteId, id: Id)
    requires Restore(st, user, note).Committed? && id in OnNote(st, user, note)
    ensures var back := Apply(st, DoRestore(user, note));
      id in back.reminders && back.reminders[id] == Restored(st.reminders[id], st.now)
  {
  }

  lemma LateRow(r: Reminder, r1: Reminder, now: Instant)
    requires SameButLease(r.(status := Suspended), r1) && r.due <= now
    ensures if HasLeft(r, now) then GoesOn(r, now, Restored(r1, now))
            else SameButLease(r.(status := Cancelled), Restored(r1, now))
  {
    UpcomingIsNext(r1, now);
    assert HasLeft(r1, now) == HasLeft(r, now);
    assert Upcoming(r1, now).Some? ==> IsNext(r, now, Upcoming(r1, now).value);
  }

  /** A pending reminder on an active note is sent for its due time by some run: the owner is active, the time
      comes, and the reminder fires. */
  lemma ArmedCanBeSent(st: State, id: Id)
    requires id in st.reminders && st.reminders[id].status == Pending
    requires var r := st.reminders[id]; NoteOf(st, r.note, r.user) && st.notes[r.note].active
    ensures exists run :: SendsFor(st, run, id, st.reminders[id].due)
  {
    var r := st.reminders[id];
    var at := if r.due > st.now then r.due else st.now;
    var run := [SetUser(r.user, true), Tick(at), DoFire(r.user, id, [])];
    var awake := st.(users := st.users[r.user := true]);
    var ready := awake.(now := at);
    ThreeSteps(st, run[0], run[1], run[2], awake, ready);
    FiresNow(ready, id, r);
    assert Run(st, run).notifications[|st.notifications|] == Notice(id, r, at);
    assert SendsFor(st, run, id, r.due);
  }

  lemma FiresNow(st: State, id: Id, r: Reminder)
    requires r.user in st.users && st.users[r.user] && id in st.reminders && st.reminders[id] == r
    requires r.status == Pending && r.due <= st.now && NoteOf(st, r.note, r.user) && st.notes[r.note].active
    ensures Apply(st, DoFire(r.user, id, [])).notifications == st.notifications + [Notice(id, r, st.now)]
  {
  }

  // ---- user edits -----------------------------------------------------------------------------

  /** The due time is ahead, at most so many years. */
  predicate Ahead(due: Instant, now: Instant, years: nat) { now < due <= AddYears(now, years) }

  predicate RuleOk(rule: Option<Rule>) { rule.Some? ==> WellFormed(rule.value) }

  lemma SplitInstant(day: int, t: Instant)
    ensures DayOf(day * DAY + t % DAY) == day && TimeOfDay(day * DAY + t % DAY) == TimeOfDay(t)
  {
  }

  /** The same day of a month of the same name, or the first of the next month where there is no such day. */
  lemma SameDate(day: int, month: int, later: int)
    requires month % 12 == MonthOf(day) % 12 && later == MonthStart(month) + DayOfMonth(day) - 1
    ensures if DayOfMonth(day) <= Length(month) then MonthOf(later) == month && DayOfMonth(later) == DayOfMonth(day)
            else DayOfMonth(day) == 29 && MonthOf(later) == month + 1 && DayOfMonth(later) == 1
  {
    if DayOfMonth(day) <= Length(month) {
      DateRoundTrip(month, DayOfMonth(day));
    } else {
      MonthStartStep(month);
      DateRoundTrip(month + 1, 1);
    }
  }

  lemma SameName(month: int, n: nat)
    ensures (month + 12 * n) % 12 == month % 12
  {
  }

  lemma YearsOn(t: Instant, n: nat, month: int, later: int)
    requires month == MonthOf(DayOf(t)) + 12 * n && later == MonthStart(month) + DayOfMonth(DayOf(t)) - 1
    ensures DayOf(AddYears(t, n)) == later && TimeOfDay(AddYears(t, n)) == TimeOfDay(t)
  {
    SplitInstant(later, t);
  }

  /** Years on means the same day of the same month at the same time; from 29 February it is 1 March where
      the year has no such day. */
  lemma SameDateYearsOn(t: Instant, n: nat)
    ensures var day, later := DayOf(t), DayOf(AddYears(t, n));
      var month := MonthOf(day) + 12 * n;
      && TimeOfDay(AddYears(t, n)) == TimeOfDay(t)
      && (if DayOfMonth(day) <= Length(month) then MonthOf(later) == month && DayOfMonth(later) == DayOfMonth(day)
          else DayOfMonth(day) == 29 && MonthOf(later) == month + 1 && DayOfMonth(later) == 1)
  {
    var day := DayOf(t);
    var month := MonthOf(day) + 12 * n;
    var later := MonthStart(month) + DayOfMonth(day) - 1;
    YearsOn(t, n, month, later);
    SameName(MonthOf(day), n);
    SameDate(day, month, later);
  }

  /** A new reminder is pending at the time and with the rule that were asked for; it is refused exactly if
      the time is not ahead, the rule is no rule, the note is not an active one of the user, or a limit is
      reached. */
  lemma CreateTakes(st: State, user: User, id: Id, note: NoteId, due: Instant, rule: Option<Rule>)
    requires id !in st.reminders
    ensures var st1 := Apply(st, DoCreate(user, id, note, due, rule));
      && (id in st1.reminders <==>
            Ahead(due, st.now, 10) && RuleOk(rule) && NoteOf(st, note, user) && st.notes[note].active &&
            |OnNote(st, user, note)| < MAX_PER_NOTE && |Armed(st, user)| < MAX_PER_USER)
      && (id in st1.reminders ==> st1.reminders[id] == Reminder(user, note, due, rule, Pending, None, None))
      && (id !in st1.reminders ==> st1 == st)
  {
  }

  /** Each refusal has its reason. */
  lemma RefusalsHaveReasons(st: State, user: User, id: Id, note: NoteId, due: Instant, rule: Option<Rule>)
    ensures var o := Create(st, user, id, note, due, rule);
      o.Failure? ==>
        match o.error
        case Past => due <= st.now
        case Invalid => due > AddYears(st.now, 10) || !RuleOk(rule)
        case NotFound => !NoteOf(st, note, user)
        case NotActive => NoteOf(st, note, user) && !st.notes[note].active
        case Limit => |OnNote(st, user, note)| >= MAX_PER_NOTE || |Armed(st, user)| >= MAX_PER_USER
        case Conflict => false
    ensures Dismiss(st, user, note).Failure? <==> !NoteOf(st, note, user) || !st.notes[note].active
    ensures Restore(st, user, note).Failure? <==> !NoteOf(st, note, user) || st.notes[note].active
    ensures NoteOf(st, note, user) && !st.notes[note].active ==> Dismiss(st, user, note) == Failure(Conflict)
    ensures NoteOf(st, note, user) && st.notes[note].active ==> Restore(st, user, note) == Failure(Conflict)
  {
  }

  /** What an update asks for. */
  function Asked<T>(wanted: Option<T>, had: T): T { if wanted.Some? then wanted.value else had }

  /** An update arms the reminder, whatever its state, for the time and rule that were asked for, or that it
      had; it is refused exactly if they are not acceptable or the note is not active. */
  lemma UpdateTakes(st: State, user: User, id: Id, due: Option<Instant>, rule: Option<Option<Rule>>)
    requires Owned(st, id, user)
    ensures var r := st.reminders[id];
      var o := Update(st, user, id, due, rule);
      && (o.Committed? <==>
            Ahead(Asked(due, r.due), st.now, 10) && RuleOk(Asked(rule, r.rule)) &&
            NoteOf(st, r.note, user) && st.notes[r.note].active)
      && (o.Committed? ==>
            && id in o.st.reminders && o.st.reminders[id].status == Pending
            && o.st.reminders[id].due == Asked(due, r.due) && o.st.reminders[id].rule == Asked(rule, r.rule)
            && o.st.reminders[id].note == r.note && o.st.reminders[id].lastFired == r.lastFired
            && exists run :: SendsFor(o.st, run, id, Asked(due, r.due)))
  {
    var o := Update(st, user, id, due, rule);
    if o.Committed? { ArmedCanBeSent(o.st, id); }
  }

  /** A snooze moves the due time and arms the reminder again; only a reminder that is pending, has fired or
      is done can be snoozed, to a time at most a year ahead. */
  lemma SnoozeTakes(st: State, user: User, id: Id, until: Instant)
    requires Owned(st, id, user)
    ensures var r, o := st.reminders[id], Snooze(st, user, id, until);
      && (o.Committed? <==> Ahead(until, st.now, 1) && r.status in {Pending, Fired, Done})
      && (o.Committed? ==>
            id in o.st.reminders && o.st.reminders[id].due == until && o.st.reminders[id].status == Pending &&
            SameButLease(r.(due := until, status := Pending), o.st.reminders[id]))
  {
  }

  /** Finishing a pending or fired reminder skips to its next occurrence, and ends it exactly if it has none
      left; a reminder in another state is not found and nothing changes. */
  lemma FinishSkips(st: State, user: User, id: Id)
    requires Owned(st, id, user)
    ensures var r, st1 := st.reminders[id], Apply(st, DoFinish(user, id));
      && id in st1.reminders
      && (r.status !in {Pending, Fired} ==> st1 == st)
      && (r.status in {Pending, Fired} ==>
            if HasLeft(r, st.now) then GoesOn(r, st.now, st1.reminders[id])
            else SameButLease(r.(status := Done), st1.reminders[id]))
  {
    UpcomingIsNext(st.reminders[id], st.now);
  }

  /** Deleting a reminder or its note removes the row; the reminders of other notes stay. */
  lemma DeleteRemoves(st: State, user: User, id: Id, note: NoteId)
    ensures Owned(st, id, user) ==> Apply(st, DoDelete(user, id)).reminders.Keys == st.reminders.Keys - {id}
    ensures DeleteNote(st, user, note).Committed? ==>
      forall k :: k in Apply(st, DoDeleteNote(user, note)).reminders <==>
        k in st.reminders && !(st.reminders[k].user == user && st.reminders[k].note == note)
  {
  }

  /** A merge moves exactly the source note's reminders, and changes nothing else in them. */
  lemma MergeMoves(st: State, user: User, target: NoteId, source: NoteId, id: Id)
    requires Merge(st, user, target, source).Committed? && id in st.reminders
    ensures var r, st1 := st.reminders[id], Apply(st, DoMerge(user, target, source));
      && id in st1.reminders
      && st1.reminders[id] == if r.user == user && r.note == source then r.(note := target) else r
  {
  }

  /** The action names the reminder or its note. */
  predicate Concerns(st: State, a: Action, id: Id)
    requires id in st.reminders
  {
    match a
    case DoCreate(_, k, _, _, _) => k == id
    case DoUpdate(_, k, _, _) => k == id
    case DoSnooze(_, k, _) => k == id
    case DoFinish(_, k) => k == id
    case DoDelete(_, k) => k == id
    case DoDismiss(user, note) => note == st.reminders[id].note && user == st.reminders[id].user
    case DoRestore(user, note) => note == st.reminders[id].note && user == st.reminders[id].user
    case DoDeleteNote(user, note) => note == st.reminders[id].note && user == st.reminders[id].user
    case DoMerge(user, _, source) => source == st.reminders[id].note && user == st.reminders[id].user
    case DoClaim(ids) => id in ids
    case DoFire(_, k, _) => k == id
    case DoDefer(k, _) => k == id
    case _ => false
  }

  /** No action touches a reminder that it does not concern, and only finishing, deleting and the bot touch
      messages already in the outbox: the first two just those of their own reminders. */
  lemma OthersUntouched(st: State, a: Action, id: Id)
    requires id in st.reminders && !Concerns(st, a, id)
    ensures id in Apply(st, a).reminders && Apply(st, a).reminders[id] == st.reminders[id]
  {
  }

  lemma OtherMessagesStay(st: State, a: Action, i: nat)
    requires i < |st.outbox| && !a.Bot?
    requires match a
             case DoFinish(_, id) => id != st.outbox[i].id || !Waiting(st.outbox[i])
             case DoDelete(_, id) => id != st.outbox[i].id || !Waiting(st.outbox[i])
             case DoDeleteNote(user, note) =>
                 st.outbox[i].id !in OnNote(st, user, note) || !Waiting(st.outbox[i])
             case _ => true
    ensures i < |Apply(st, a).outbox| && Apply(st, a).outbox[i] == st.outbox[i]
  {
  }

  // ---- claiming and firing --------------------------------------------------------------------

  /** A claimed reminder that nobody touches cannot be claimed again until the lease is over, and then it
      can. */
  lemma LeaseHolds(st: State, ids: set<Id>, id: Id, later: Instant)
    requires Enabled(st, DoClaim(ids)) && id in ids && later >= st.now
    ensures Claimable(Apply(Apply(st, DoClaim(ids)), Tick(later)), id) <==> later > st.now + LEASE
  {
    assert Claimable(st, id);
  }

  /** After a failed firing it cannot be claimed until the backoff is over, and then it can. */
  lemma DeferHolds(st: State, id: Id, until: Instant, later: Instant)
    requires Claimable(st, id) && later >= st.now
    ensures Claimable(Apply(Apply(st, DoDefer(id, until)), Tick(later)), id) <==> later > until
  {
  }

  /** A firing sends one notification for the due time, late if that was more than LATE_AFTER ago, and queues
      one message for each target. */
  lemma FireSends(st: State, user: User, id: Id, targets: seq<Target>)
    requires Fires(st, user, id)
    ensures var r, st1 := st.reminders[id], Apply(st, DoFire(user, id, targets));
      && st1.notifications ==
           st.notifications + [Notification(id, user, r.note, r.due, st.now, r.due + LATE_AFTER < st.now)]
      && |st1.outbox| == |st.outbox| + |targets| && st.outbox <= st1.outbox
      && (forall i :: 0 <= i < |targets| ==> st1.outbox[|st.outbox| + i] == Item(id, targets[i], r.due, Queued))
  {
  }

  /** The reminder goes on to its next occurrence, and has fired for good exactly if it has none left. */
  lemma FireGoesOn(st: State, user: User, id: Id, targets: seq<Target>)
    requires Fires(st, user, id)
    ensures var r, st1 := st.reminders[id], Apply(st, DoFire(user, id, targets));
      && id in st1.reminders && st1.reminders[id].lastFired == Some(st.now) && st1.reminders[id].claimedUntil.None?
      && (if HasLeft(r, st.now) then GoesOn(r, st.now, st1.reminders[id])
          else st1.reminders[id].status == Fired && st1.reminders[id].due == r.due)
  {
    FiredRow(st.reminders[id], st.now, AfterFiring(st.reminders[id], st.now));
  }

  lemma FiredRow(r: Reminder, now: Instant, r1: Reminder)
    requires r.status == Pending && r1 == AfterFiring(r, now)
    ensures r1.lastFired == Some(now) && r1.claimedUntil.None?
    ensures if HasLeft(r, now) then GoesOn(r, now, r1) else r1.status == Fired && r1.due == r.due
  {
    UpcomingIsNext(r, now);
  }

  /** A firing that does not send changes nothing. */
  lemma RefusedFiring(st: State, user: User, id: Id, targets: seq<Target>)
    ensures var st1 := Apply(st, DoFire(user, id, targets));
      |st1.notifications| == |st.notifications| ==> st1 == st
  {
  }
}
