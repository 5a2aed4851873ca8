/** What holds of reminders over whole runs, however edits and replicas interleave. */
module ReminderRuns {
  import opened Common
  import opened Calendar
  import opened Recurrence
  import opened Reminders

  /** What every allowed step keeps, a run of allowed steps keeps. */
  lemma {:induction false} RunInduction(st: State, run: seq<Action>, kept: State -> bool,
      allowed: (State, Action) -> bool)
    requires kept(st) && forall s, a :: kept(s) && allowed(s, a) ==> kept(Apply(s, a))
    requires forall i :: 0 <= i < |run| ==> allowed(Run(st, run[..i]), run[i])
    ensures kept(Run(st, run))
    decreases |run|
  {
    if run != [] {
      var before := run[..|run| - 1];
      forall i | 0 <= i < |before| ensures allowed(Run(st, before[..i]), before[i]) { assert before[..i] == run[..i]; }
      RunInduction(st, before, kept, allowed);
    }
  }

  lemma RunKeepsInv(st: State, run: seq<Action>)
    requires Inv(st) && Legal(st, run)
    ensures Inv(Run(st, run))
  {
    var kept := (s: State) => Inv(s);
    var allowed := (s: State, a: Action) => Enabled(s, a);
    forall s: State, a: Action | kept(s) && allowed(s, a) ensures kept(Apply(s, a)) { StepKeepsInv(s, a); }
    RunInduction(st, run, kept, allowed);
  }

  lemma LegalPrefix(st: State, run: seq<Action>, n: nat)
    requires Legal(st, run) && n <= |run|
    ensures Legal(st, run[..n])
  {
    forall i | 0 <= i < n ensures Enabled(Run(st, run[..n][..i]), run[..n][i]) {
      assert run[..n][..i] == run[..i];
    }
  }

  lemma RunAppend(st: State, run: seq<Action>, a: Action)
    ensures Run(st, run + [a]) == Apply(Run(st, run), a)
    ensures Legal(st, run) && Enabled(Run(st, run), a) ==> Legal(st, run + [a])
  {
    var all := run + [a];
    assert all[..|run|] == run;
    if Legal(st, run) && Enabled(Run(st, run), a) {
      forall i | 0 <= i < |all| ensures Enabled(Run(st, all[..i]), all[i]) {
        assert all[..i] == if i < |run| then run[..i] else run;
      }
    }
  }

  lemma ThreeSteps(st: State, a1: Action, a2: Action, a3: Action, s1: State, s2: State)
    requires Enabled(st, a1) && s1 == Apply(st, a1) && Enabled(s1, a2) && s2 == Apply(s1, a2) && Enabled(s2, a3)
    ensures Legal(st, [a1, a2, a3]) && Run(st, [a1, a2, a3]) == Apply(s2, a3)
  {
    RunAppend(st, [], a1);
    RunAppend(st, [a1], a2);
    RunAppend(st, [a1, a2], a3);
    assert [] + [a1] == [a1] && [a1] + [a2] == [a1, a2] && [a1, a2] + [a3] == [a1, a2, a3];
  }

  // ---- what is sent ---------------------------------------------------------------------------

  /** The step that a notification comes from: a pending reminder that is due, on an active note of an
      active user. */
  ghost predicate SentBy(st: State, a: Action, n: Notification) {
    && a.DoFire? && Owned(st, a.id, a.user) && n == Notice(a.id, st.reminders[a.id], st.now)
    && st.reminders[a.id].status == Pending && n.due <= st.now
    && n.user == a.user && n.user in st.users && st.users[n.user]
    && NoteOf(st, n.note, n.user) && Active(st, n.note)
  }

  /** Only a firing sends, and it sends one notification. */
  lemma StepSends(st: State, a: Action)
    ensures var sent := Apply(st, a).notifications;
      sent == st.notifications ||
      (|sent| == |st.notifications| + 1 && sent[..|st.notifications|] == st.notifications &&
          SentBy(st, a, sent[|st.notifications|]))
  {
  }

  /** The step of a run that sent its k-th notification. */
  ghost predicate Sender(st: State, run: seq<Action>, k: nat, i: nat)
    requires k < |Run(st, run).notifications|
  {
    && i < |run|
    && |Run(st, run[..i]).notifications| == k
    && SentBy(Run(st, run[..i]), run[i], Run(st, run).notifications[k])
  }

  lemma {:induction false} EverySendHasASender(st: State, run: seq<Action>, k: nat) returns (i: nat)
    requires |st.notifications| <= k < |Run(st, run).notifications|
    ensures Sender(st, run, k, i)
    decreases |run|
  {
    var n := |run| - 1;
    var before := run[..n];
    StepSends(Run(st, before), run[n]);
    if k < |Run(st, before).notifications| {
      i := EverySendHasASender(st, before, k);
      assert before[..i] == run[..i];
    } else {
      i := n;
    }
  }

  ghost predicate HasSender(st: State, run: seq<Action>, k: nat)
    requires k < |Run(st, run).notifications|
  {
    exists i :: Sender(st, run, k, i)
  }

  /** In every run each due time of a reminder is sent for at most once, in increasing order and never
      early, and nothing is sent for a note in the Trash or an inactive user. */
  lemma FiredDuesIncrease(st: State, run: seq<Action>)
    requires Inv(st) && Legal(st, run)
    ensures SentInOrder(Run(st, run).notifications)
    ensures forall k :: |st.notifications| <= k < |Run(st, run).notifications| ==> HasSender(st, run, k)
  {
    RunKeepsInv(st, run);
    forall k | |st.notifications| <= k < |Run(st, run).notifications| ensures HasSender(st, run, k) {
      var i := EverySendHasASender(st, run, k);
    }
  }

  lemma StartIsValid(now: Instant)
    ensures Inv(Start(now))
  {
  }

  // ---- a due time that is over never fires ----------------------------------------------------

  /** The reminder is not armed for d or anything before it, though it may be suspended with it. */
  predicate Over(st: State, id: Id, d: Instant) {
    && d <= st.now
    && (id in st.reminders && st.reminders[id].status == Pending ==> st.reminders[id].due > d)
  }

  lemma StepKeepsOver(st: State, a: Action, id: Id, d: Instant)
    requires Enabled(st, a) && Over(st, id, d)
    ensures Over(Apply(st, a), id, d)
  {
    if id in st.reminders { UpcomingIsAhead(st.reminders[id], st.now); }
  }

  lemma RunKeepsOver(st: State, run: seq<Action>, id: Id, d: Instant)
    requires Legal(st, run) && Over(st, id, d)
    ensures Over(Run(st, run), id, d)
  {
    var kept := (s: State) => Over(s, id, d);
    var allowed := (s: State, a: Action) => Enabled(s, a);
    forall s: State, a: Action | kept(s) && allowed(s, a) ensures kept(Apply(s, a)) { StepKeepsOver(s, a, id, d); }
    RunInduction(st, run, kept, allowed);
  }

  /** Once a reminder was snoozed, done, deleted, moved, or restored from the Trash past a due time,
      nothing is ever sent for that due time, whatever replica claimed it before. */
  lemma OldDueNeverFires(st: State, run: seq<Action>, id: Id, d: Instant, k: nat)
    requires Legal(st, run) && Over(st, id, d)
    requires |st.notifications| <= k < |Run(st, run).notifications| && Run(st, run).notifications[k].id == id
    ensures Run(st, run).notifications[k].due > d
  {
    var i := EverySendHasASender(st, run, k);
    LegalPrefix(st, run, i);
    RunKeepsOver(st, run[..i], id, d);
  }

  /** Each action that deals with a due time which has come makes it one that is over, but for bringing a
      note back whose reminder was armed in the Trash: that one stays armed for it. */
  lemma EditsEndOldDues(st: State, a: Action, id: Id)
    requires Inv(st) && Enabled(st, a) && id in st.reminders && st.reminders[id].due <= st.now
    requires Apply(st, a) != st
    requires match a
             case DoUpdate(_, k, _, _) => k == id
             case DoSnooze(_, k, _) => k == id
             case DoFinish(_, k) => k == id
             case DoDelete(_, k) => k == id
             case DoFire(_, k, _) => k == id
             case DoRestore(user, note) => st.reminders[id].note == note
             case DoDeleteNote(user, note) => st.reminders[id].note == note
             case _ => false
    ensures Over(Apply(st, a), id, st.reminders[id].due) <==> !(a.DoRestore? && st.reminders[id].status == Pending)
  {
    assert RowValid(st, st.reminders[id]);
    UpcomingIsAhead(st.reminders[id], st.now);
  }

  /** A chat message still waiting does not outlive its reminder: none is left once the reminder was
      finished or deleted. */
  lemma NoMessageAfterEnd(st: State, a: Action, o: Item)
    requires (a.DoFinish? && Finish(st, a.user, a.id).Committed?) ||
        (a.DoDelete? && Delete(st, a.user, a.id).Committed?)
    requires o in Apply(st, a).outbox && o.id == a.id
    ensures !Waiting(o)
  {
  }

  lemma WaitingMessagesAreWanted(st: State, run: seq<Action>, o: Item)
    requires Inv(st) && Legal(st, run) && o in Run(st, run).outbox && Waiting(o)
    ensures o.id in Run(st, run).reminders && Run(st, run).reminders[o.id].status != Done
  {
    RunKeepsInv(st, run);
    var i :| 0 <= i < |Run(st, run).outbox| && Run(st, run).outbox[i] == o;
    assert ItemValid(Run(st, run), o);
  }

  // ---- the Trash ------------------------------------------------------------------------------

  /** No reminder is armed on a note in the Trash. */
  predicate TrashIsSilent(st: State) {
    forall id :: id in st.reminders && st.reminders[id].status == Pending ==> Active(st, st.reminders[id].note)
  }

  /** Arms a fired or done reminder whose note is in the Trash: a snooze does not look at the note. */
  predicate ArmsInTrash(st: State, a: Action) {
    && a.DoSnooze? && st.now < a.until <= AddYears(st.now, 1)
    && Owned(st, a.id, a.user) && !Active(st, st.reminders[a.id].note) && st.reminders[a.id].status in {Fired, Done}
  }

  /** One row set, pending only if its note is active or it was pending on it before. */
  lemma SilentRow(st: State, st1: State, id: Id, r: Reminder)
    requires TrashIsSilent(st) && st1.notes == st.notes && st1.reminders == st.reminders[id := r]
    requires r.status == Pending ==>
      Active(st, r.note) || (id in st.reminders && st.reminders[id].status == Pending &&
          st.reminders[id].note == r.note)
    ensures TrashIsSilent(st1)
  {
  }

  lemma SilentEdit(st: State, a: Action)
    requires TrashIsSilent(st) && (a.DoCreate? || a.DoUpdate?)
    ensures TrashIsSilent(Apply(st, a))
  {
    var st1 := Apply(st, a);
    if st1 != st { SilentRow(st, st1, a.id, st1.reminders[a.id]); }
  }

  lemma SilentRearm(st: State, a: Action)
    requires Inv(st) && TrashIsSilent(st) && !ArmsInTrash(st, a)
    requires a.DoSnooze? || a.DoFinish?
    ensures TrashIsSilent(Apply(st, a))
  {
    var st1 := Apply(st, a);
    if st1 != st {
      assert RowValid(st, st.reminders[a.id]);
      if a.DoFinish? && st.reminders[a.id].status == Fired && Active(st, st.reminders[a.id].note) {
        assert Active(st, st1.reminders[a.id].note);
      }
      SilentRow(st, st1, a.id, st1.reminders[a.id]);
    }
  }

  lemma SilentSchedule(st: State, a: Action)
    requires TrashIsSilent(st) && (a.DoDelete? || a.DoFire? || a.DoDefer? || a.DoClaim?)
    ensures TrashIsSilent(Apply(st, a))
  {
  }

  lemma SilentTransition(st: State, a: Action)
    requires Inv(st) && Enabled(st, a) && TrashIsSilent(st)
    requires a.DoDismiss? || a.DoRestore? || a.DoDeleteNote? || a.DoMerge?
    ensures TrashIsSilent(Apply(st, a))
  {
    var st1 := Apply(st, a);
    forall id | id in st1.reminders && st1.reminders[id].status == Pending
      ensures Active(st1, st1.reminders[id].note)
    {
      assert RowValid(st, st.reminders[id]);
    }
  }

  /** Exactly those steps arm a reminder in the Trash. */
  lemma SilentUnlessArmedInTrash(st: State, a: Action)
    requires Inv(st) && Enabled(st, a) && TrashIsSilent(st)
    ensures TrashIsSilent(Apply(st, a)) <==> !ArmsInTrash(st, a)
  {
    if ArmsInTrash(st, a) {
      ArmedInTrash(st, a);
    } else {
      match a
      case DoDismiss(_, _) => SilentTransition(st, a);
      case DoRestore(_, _) => SilentTransition(st, a);
      case DoDeleteNote(_, _) => SilentTransition(st, a);
      case DoMerge(_, _, _) => SilentTransition(st, a);
      case Tick(_) => assert Apply(st, a).reminders == st.reminders;
      case SetUser(_, _) => assert Apply(st, a).reminders == st.reminders;
      case AddNote(_, _) => assert Apply(st, a).reminders == st.reminders;
      case Bot(_, _) => assert Apply(st, a).reminders == st.reminders;
      case DoClaim(_) => SilentSchedule(st, a);
      case DoFire(_, _, _) => SilentSchedule(st, a);
      case DoDefer(_, _) => SilentSchedule(st, a);
      case DoDelete(_, _) => SilentSchedule(st, a);
      case DoSnooze(_, _, _) => SilentRearm(st, a);
      case DoFinish(_, _) => SilentRearm(st, a);
      case _ => SilentEdit(st, a);
    }
  }

  lemma ArmedInTrash(st: State, a: Action)
    requires ArmsInTrash(st, a)
    ensures !TrashIsSilent(Apply(st, a))
  {
    var st1 := Apply(st, a);
    assert st1.reminders[a.id].status == Pending && !Active(st1, st1.reminders[a.id].note);
  }

  /** A fired reminder has no occurrence left: finishing it never arms it again. */
  lemma FiredIsLast(st: State, run: seq<Action>, id: Id)
    requires Inv(st) && Legal(st, run) && id in Run(st, run).reminders && Run(st, run).reminders[id].status == Fired
    ensures Upcoming(Run(st, run).reminders[id], Run(st, run).now).None?
  {
    RunKeepsInv(st, run);
    assert RowValid(Run(st, run), Run(st, run).reminders[id]);
  }

  /** The run is legal and in it something is sent for that due time of the reminder. */
  predicate SendsFor(st: State, run: seq<Action>, id: Id, d: Instant) {
    && Legal(st, run)
    && exists k :: |st.notifications| <= k < |Run(st, run).notifications| &&
         Run(st, run).notifications[k].id == id && Run(st, run).notifications[k].due == d
  }

  lemma OverIsNeverSent(st: State, run: seq<Action>, id: Id, d: Instant)
    requires Over(st, id, d)
    ensures !SendsFor(st, run, id, d)
  {
    if SendsFor(st, run, id, d) {
      var k :| |st.notifications| <= k < |Run(st, run).notifications| &&
        Run(st, run).notifications[k].id == id && Run(st, run).notifications[k].due == d;
      OldDueNeverFires(st, run, id, d, k);
    }
  }

  /** The owner is active, the note comes back, and the reminder fires. */
  function BackAndFire(user: User, note: NoteId, id: Id): seq<Action> {
    [SetUser(user, true), DoRestore(user, note), DoFire(user, id, [])]
  }

  lemma BackAndFireRuns(st: State, user: User, note: NoteId, id: Id)
    ensures Legal(st, BackAndFire(user, note, id))
    ensures Run(st, BackAndFire(user, note, id)) ==
      Fire(Apply(Apply(st, SetUser(user, true)), DoRestore(user, note)), user, id, [])
  {
    var awake := Apply(st, SetUser(user, true));
    ThreeSteps(st, SetUser(user, true), DoRestore(user, note), DoFire(user, id, []), awake,
        Apply(awake, DoRestore(user, note)));
  }

  lemma ArmedIsSent(st: State, user: User, note: NoteId, id: Id)
    requires Restore(st, user, note).Committed? && id in OnNote(st, user, note)
    requires st.reminders[id].status == Pending && st.reminders[id].due <= st.now
    ensures SendsFor(st, BackAndFire(user, note, id), id, st.reminders[id].due)
  {
    BackAndFireRuns(st, user, note, id);
    var back := Apply(Apply(st, SetUser(user, true)), DoRestore(user, note));
    assert back.reminders[id] == st.reminders[id] && Fires(back, user, id);
    assert Run(st, BackAndFire(user, note, id)).notifications[|st.notifications|] ==
        Notice(id, st.reminders[id], st.now);
  }

  /** Whether a due time that came while the note was in the Trash is ever sent for: some run does so exactly
      if the reminder was armed there. Such a reminder is not suspended, and bringing the note back visits
      suspended ones only. */
  lemma MissedInTrashIsSentExactly(st: State, user: User, note: NoteId, id: Id)
    requires Inv(st) && NoteOf(st, note, user) && !st.notes[note].active
    requires id in OnNote(st, user, note) && st.reminders[id].due <= st.now
    ensures (exists run :: SendsFor(st, run, id, st.reminders[id].due)) <==> st.reminders[id].status == Pending
  {
    if st.reminders[id].status == Pending {
      ArmedIsSent(st, user, note, id);
    } else {
      forall run ensures !SendsFor(st, run, id, st.reminders[id].due) {
        OverIsNeverSent(st, run, id, st.reminders[id].due);
      }
    }
  }

  lemma AddYearsIsLater(t: Instant, n: nat)
    requires n > 0
    ensures AddYears(t, n) >= t + 28 * DAY
  {
    var month := MonthOf(DayOf(t));
    MonthStartMonotone(month, month + 12 * n);
    DayInItsMonth(DayOf(t));
  }

  lemma DayInItsMonth(day: int)
    ensures MonthStart(MonthOf(day)) + DayOfMonth(day) - 1 == day
  {
  }

  /** A reminder for 100 fires, its note goes to the Trash, it is snoozed to 200, that time passes in the
      Trash, and the note comes back at 300. */
  function SnoozedInTrash(): seq<Action> {
    [SetUser(0, true), AddNote(0, 0), DoCreate(0, 0, 0, 100, None), Tick(100), DoFire(0, 0, []),
     DoDismiss(0, 0), DoSnooze(0, 0, 200), Tick(300), DoRestore(0, 0), DoFire(0, 0, [])]
  }

  function TrashedState(now: Instant, active: bool, r: Reminder, sent: seq<Notification>): State {
    State(now, map[0 := true], map[0 := Note(0, active)], map[0 := r], sent, [])
  }

  const FirstArmed := Reminder(0, 0, 100, None, Pending, None, None)
  const FirstFired := FirstArmed.(status := Fired, lastFired := Some(100))
  const Rearmed := FirstFired.(due := 200, status := Pending)
  const FirstSent := Notification(0, 0, 0, 100, 100, false)
  const SecondSent := Notification(0, 0, 0, 200, 300, false)

  lemma CreatedInTrashRun()
    ensures Legal(Start(0), SnoozedInTrash()[..3])
    ensures Run(Start(0), SnoozedInTrash()[..3]) == TrashedState(0, true, FirstArmed, [])
  {
    var run, users, notes := SnoozedInTrash(), map[0 := true], map[0 := Note(0, true)];
    assert run[..0] == [];
    Then(run, 0, Start(0), State(0, users, map[], map[], [], []));
    Then(run, 1, State(0, users, map[], map[], [], []), State(0, users, notes, map[], [], []));
    CreateStep(run, State(0, users, notes, map[], [], []));
  }

  lemma CreateStep(run: seq<Action>, st: State)
    requires |run| > 2 && run[2] == DoCreate(0, 0, 0, 100, None)
    requires st == State(0, map[0 := true], map[0 := Note(0, true)], map[], [], [])
    requires Run(Start(0), run[..2]) == st && Legal(Start(0), run[..2])
    ensures Run(Start(0), run[..3]) == TrashedState(0, true, FirstArmed, []) && Legal(Start(0), run[..3])
  {
    CreatesFirst(st);
    Then(run, 2, st, TrashedState(0, true, FirstArmed, []));
  }

  lemma DueInRun()
    ensures Legal(Start(0), SnoozedInTrash()[..4])
    ensures Run(Start(0), SnoozedInTrash()[..4]) == TrashedState(100, true, FirstArmed, [])
  {
    CreatedInTrashRun();
    Then(SnoozedInTrash(), 3, TrashedState(0, true, FirstArmed, []), TrashedState(100, true, FirstArmed, []));
  }

  lemma FiredInTrashRun()
    ensures Legal(Start(0), SnoozedInTrash()[..5])
    ensures Run(Start(0), SnoozedInTrash()[..5]) == TrashedState(100, true, FirstFired, [FirstSent])
  {
    DueInRun();
    FireStep(TrashedState(100, true, FirstArmed, []));
    Then(SnoozedInTrash(), 4, TrashedState(100, true, FirstArmed, []),
        TrashedState(100, true, FirstFired, [FirstSent]));
  }

  lemma FireStep(st: State)
    requires st.users == map[0 := true] && st.notes == map[0 := Note(0, true)] && st.outbox == []
    requires 0 in st.reminders && st.reminders == map[0 := st.reminders[0]]
    requires var r := st.reminders[0];
      r.user == r.note == 0 && r.rule == None && r.status == Pending && r.due <= st.now
    ensures Fire(st, 0, 0, []) == st.(
      reminders := map[0 := st.reminders[0].(status := Fired, lastFired := Some(st.now), claimedUntil := None)],
      notifications := st.notifications + [Notice(0, st.reminders[0], st.now)])
  {
  }

  lemma DismissedInTrashRun()
    ensures Legal(Start(0), SnoozedInTrash()[..6])
    ensures Run(Start(0), SnoozedInTrash()[..6]) == TrashedState(100, false, FirstFired, [FirstSent])
  {
    FiredInTrashRun();
    TrashStep(100, true, FirstFired, [FirstSent]);
    Then(SnoozedInTrash(), 5, TrashedState(100, true, FirstFired, [FirstSent]),
        TrashedState(100, false, FirstFired, [FirstSent]));
  }

  /** A reminder that is neither pending nor suspended stays as it is while its note comes and goes. */
  lemma TrashStep(now: Instant, active: bool, r: Reminder, sent: seq<Notification>)
    requires r.user == r.note == 0 && r.status != Suspended && (active ==> r.status != Pending)
    ensures active ==> Dismiss(TrashedState(now, active, r, sent), 0, 0) == Committed(TrashedState(now, false, r, sent))
    ensures !active ==> Restore(TrashedState(now, active, r, sent), 0, 0) == Committed(TrashedState(now, true, r, sent))
  {
  }

  lemma SnoozedInTrashRun()
    ensures Legal(Start(0), SnoozedInTrash()[..7])
    ensures Run(Start(0), SnoozedInTrash()[..7]) == TrashedState(100, false, Rearmed, [FirstSent])
  {
    DismissedInTrashRun();
    SnoozeStep(TrashedState(100, false, FirstFired, [FirstSent]), 0, 0, 200);
    Then(SnoozedInTrash(), 6, TrashedState(100, false, FirstFired, [FirstSent]),
        TrashedState(100, false, Rearmed, [FirstSent]));
  }

  lemma SnoozeStep(st: State, user: User, id: Id, until: Instant)
    requires st.now < until <= st.now + DAY
    ensures Snooze(st, user, id, until) == Rearm(st, user, id, until)
  {
    AddYearsIsLater(st.now, 1);
  }

  lemma DueInTrashRun()
    ensures Legal(Start(0), SnoozedInTrash()[..8])
    ensures Run(Start(0), SnoozedInTrash()[..8]) == TrashedState(300, false, Rearmed, [FirstSent])
  {
    SnoozedInTrashRun();
    Then(SnoozedInTrash(), 7, TrashedState(100, false, Rearmed, [FirstSent]),
        TrashedState(300, false, Rearmed, [FirstSent]));
  }

  lemma RestoredRun()
    ensures Legal(Start(0), SnoozedInTrash()[..9])
    ensures Run(Start(0), SnoozedInTrash()[..9]) == TrashedState(300, true, Rearmed, [FirstSent])
  {
    DueInTrashRun();
    TrashStep(300, false, Rearmed, [FirstSent]);
    Then(SnoozedInTrash(), 8, TrashedState(300, false, Rearmed, [FirstSent]),
        TrashedState(300, true, Rearmed, [FirstSent]));
  }

  /** It is sent although it came due while the note was in the Trash. */
  lemma SentForTheTrash()
    ensures Legal(Start(0), SnoozedInTrash())
    ensures Run(Start(0), SnoozedInTrash()).notifications == [FirstSent, SecondSent]
    ensures var missed := Run(Start(0), SnoozedInTrash()[..8]);
        SecondSent.due < missed.now && !Active(missed, SecondSent.note)
  {
    var run := SnoozedInTrash();
    DueInTrashRun();
    RestoredRun();
    FireStep(TrashedState(300, true, Rearmed, [FirstSent]));
    Then(run, 9, TrashedState(300, true, Rearmed, [FirstSent]),
         TrashedState(300, true, Rearmed.(status := Fired, lastFired := Some(300)), [FirstSent, SecondSent]));
    assert run[..10] == run;
  }

  lemma CreatesFirst(st: State)
    requires st.reminders == map[] && st.now == 0 && NoteOf(st, 0, 0) && st.notes[0].active
    ensures Create(st, 0, 0, 0, 100, None) == Committed(SetRow(st, 0, Reminder(0, 0, 100, None, Pending, None, None)))
  {
    AddYearsIsLater(st.now, 10);
    assert OnNote(st, 0, 0) == {} && Armed(st, 0) == {};
  }

  /** One more step of a run that starts empty. */
  lemma Then(run: seq<Action>, n: nat, st: State, st1: State)
    requires n < |run| && Run(Start(0), run[..n]) == st && Legal(Start(0), run[..n])
    requires Enabled(st, run[n]) && Apply(st, run[n]) == st1
    ensures Run(Start(0), run[..n + 1]) == st1 && Legal(Start(0), run[..n + 1])
  {
    assert run[..n + 1] == run[..n] + [run[n]];
    RunAppend(Start(0), run[..n], run[n]);
  }

  // ---- the limits -----------------------------------------------------------------------------

  ghost predicate WithinNoteLimit(st: State) {
    forall user, note :: |OnNote(st, user, note)| <= MAX_PER_NOTE
  }

  ghost predicate WithinUserLimit(st: State) {
    forall user :: |Armed(st, user)| <= MAX_PER_USER
  }

  lemma Smaller(a: set<Id>, b: set<Id>)
    requires a <= b
    ensures |a| <= |b|
  {
    assert b == a + (b - a);
  }

  lemma OneMore(a: set<Id>, b: set<Id>, id: Id)
    requires a <= b + {id}
    ensures |a| <= |b| + if id in b then 0 else 1
    ensures a == b + {id} ==> |a| == |b| + if id in b then 0 else 1
  {
    Smaller(a, b + {id});
    if id in b { assert b + {id} == b; }
  }

  /** Merges two notes that together have too many reminders. */
  predicate MergesTooMany(st: State, a: Action) {
    a.DoMerge? && Merge(st, a.user, a.note, a.source).Committed? &&
    |OnNote(st, a.user, a.note)| + |OnNote(st, a.user, a.source)| > MAX_PER_NOTE
  }

  lemma MergedOnNote(st: State, user: User, target: NoteId, source: NoteId, u: User, n: NoteId)
    requires Merge(st, user, target, source).Committed?
    ensures var st1 := Merge(st, user, target, source).st;
      if u == user && n == target then |OnNote(st1, u, n)| == |OnNote(st, u, target)| + |OnNote(st, u, source)|
      else |OnNote(st1, u, n)| <= |OnNote(st, u, n)|
  {
    var st1 := Merge(st, user, target, source).st;
    if u == user && n == target {
      assert OnNote(st1, u, n) == OnNote(st, u, target) + OnNote(st, u, source);
    } else {
      Smaller(OnNote(st1, u, n), OnNote(st, u, n));
    }
  }

  lemma CreateOnNote(st: State, a: Action, user: User, note: NoteId)
    requires a.DoCreate?
    ensures |OnNote(Apply(st, a), user, note)| <= |OnNote(st, user, note)| ||
        |OnNote(Apply(st, a), user, note)| <= MAX_PER_NOTE
  {
    var st1 := Apply(st, a);
    if st1 != st && user == a.user && note == a.note {
      OneMore(OnNote(st1, user, note), OnNote(st, user, note), a.id);
    } else {
      Smaller(OnNote(st1, user, note), OnNote(st, user, note));
    }
  }

  /** Every step but a creation and a merge leaves a note with no more reminders. */
  lemma OthersOnNote(st: State, a: Action, user: User, note: NoteId)
    requires !a.DoCreate? && !a.DoMerge?
    ensures OnNote(Apply(st, a), user, note) <= OnNote(st, user, note)
  {
  }

  lemma OnNoteGrows(st: State, a: Action, user: User, note: NoteId)
    requires !a.DoMerge?
    ensures |OnNote(Apply(st, a), user, note)| <= |OnNote(st, user, note)| ||
        |OnNote(Apply(st, a), user, note)| <= MAX_PER_NOTE
  {
    if a.DoCreate? {
      CreateOnNote(st, a, user, note);
    } else {
      OthersOnNote(st, a, user, note);
      Smaller(OnNote(Apply(st, a), user, note), OnNote(st, user, note));
    }
  }

  /** The limit per note holds after a step exactly if the step does not merge past it. */
  lemma NoteLimitExactly(st: State, a: Action)
    requires Enabled(st, a) && WithinNoteLimit(st)
    ensures WithinNoteLimit(Apply(st, a)) <==> !MergesTooMany(st, a)
  {
    var st1 := Apply(st, a);
    if MergesTooMany(st, a) {
      MergedOnNote(st, a.user, a.note, a.source, a.user, a.note);
      assert |OnNote(st1, a.user, a.note)| > MAX_PER_NOTE;
    } else {
      forall user, note ensures |OnNote(st1, user, note)| <= MAX_PER_NOTE {
        if !a.DoMerge? {
          OnNoteGrows(st, a, user, note);
        } else if Merge(st, a.user, a.note, a.source).Committed? {
          MergedOnNote(st, a.user, a.note, a.source, user, note);
        }
      }
    }
  }

  /** Arms a reminder that was not, of a user who has as many as may be. */
  predicate ArmsTooMany(st: State, a: Action) {
    && (match a
        case DoUpdate(user, id, due, rule) => Update(st, user, id, due, rule).Committed?
        case DoSnooze(user, id, until) => Snooze(st, user, id, until).Committed?
        case _ => false)
    && st.reminders[a.id].status !in {Pending, Suspended} && |Armed(st, a.user)| >= MAX_PER_USER
  }

  predicate EditsRow(a: Action) { a.DoCreate? || a.DoUpdate? || a.DoSnooze? || a.DoFinish? }

  /** An edit changes one row of its user. */
  lemma EditArmsOne(st: State, a: Action, user: User)
    requires EditsRow(a)
    ensures Armed(Apply(st, a), user) <= Armed(st, user) + if user == a.user then {a.id} else {}
  {
  }

  /** The other steps arm nothing that was not armed or suspended. */
  lemma OthersArmNone(st: State, a: Action, user: User)
    requires !EditsRow(a)
    ensures Armed(Apply(st, a), user) <= Armed(st, user)
  {
  }

  lemma ArmedGrows(st: State, a: Action, user: User)
    requires Inv(st) && !ArmsTooMany(st, a) && |Armed(st, user)| <= MAX_PER_USER
    ensures |Armed(Apply(st, a), user)| <= MAX_PER_USER
  {
    var armed, armed1 := Armed(st, user), Armed(Apply(st, a), user);
    if !EditsRow(a) {
      OthersArmNone(st, a, user);
      Smaller(armed1, armed);
    } else {
      EditArmsOne(st, a, user);
      if armed1 <= armed {
        Smaller(armed1, armed);
      } else {
        EditArmsAllowed(st, a, user);
        OneMore(armed1, armed, a.id);
      }
    }
  }

  lemma EditArmsAllowed(st: State, a: Action, user: User)
    requires Inv(st) && EditsRow(a) && !ArmsTooMany(st, a) && !(Armed(Apply(st, a), user) <= Armed(st, user))
    ensures user == a.user && |Armed(st, user)| < MAX_PER_USER
  {
    EditArmsOne(st, a, user);
    assert a.id in st.reminders ==> RowValid(st, st.reminders[a.id]);
    assert a.id in Armed(Apply(st, a), user) && a.id !in Armed(st, user);
  }

  /** The limit per user holds after a step exactly if the step does not re-arm past it. */
  lemma UserLimitExactly(st: State, a: Action)
    requires Inv(st) && Enabled(st, a) && WithinUserLimit(st)
    ensures WithinUserLimit(Apply(st, a)) <==> !ArmsTooMany(st, a)
  {
    var st1 := Apply(st, a);
    if ArmsTooMany(st, a) {
      assert Armed(st1, a.user) == Armed(st, a.user) + {a.id};
      OneMore(Armed(st1, a.user), Armed(st, a.user), a.id);
      assert |Armed(st1, a.user)| > MAX_PER_USER;
    } else {
      forall user ensures |Armed(st1, user)| <= MAX_PER_USER { ArmedGrows(st, a, user); }
    }
  }

  // ---- claims ---------------------------------------------------------------------------------

  /** A lease never blocks a reminder for longer than the failure backoff. */
  lemma DueBecomesClaimable(st: State, id: Id, later: Instant)
    requires Inv(st) && id in st.reminders && st.reminders[id].status == Pending && st.reminders[id].due <= st.now
    requires st.reminders[id].user in st.users && st.users[st.reminders[id].user]
    requires later > st.now + FAILURE_BACKOFF
    ensures Claimable(Apply(st, Tick(later)), id)
  {
    assert RowValid(st, st.reminders[id]);
  }

  // ---- recurring reminders stay on schedule ---------------------------------------------------

  /** The due time is the one the first due time gives for the last firing. */
  predicate OnSchedule(st: State, id: Id, rule: Rule, first: Instant)
    requires WellFormed(rule)
  {
    && id in st.reminders && st.reminders[id].rule == Some(rule)
    && match st.reminders[id].lastFired
       case None => st.reminders[id].due == first
       case Some(at) => at <= st.now && at >= first && Next(rule, first, at) == Some(st.reminders[id].due)
  }

  /** Changes the due time or the rule of a reminder, or removes it. */
  predicate Edits(st: State, a: Action, id: Id) {
    match a
    case DoUpdate(user, k, _, _) => k == id && Owned(st, id, user)
    case DoSnooze(user, k, _) => k == id && Owned(st, id, user)
    case DoFinish(user, k) => k == id && Owned(st, id, user)
    case DoDelete(user, k) => k == id && Owned(st, id, user)
    case DoRestore(user, note) => id in OnNote(st, user, note)
    case DoDeleteNote(user, note) => id in OnNote(st, user, note)
    case _ => false
  }

  /** The due time that a firing leads to is the one the first due time gives. */
  lemma FiringKeepsSchedule(r: Reminder, now: Instant, rule: Rule, first: Instant)
    requires WellFormed(rule) && NeverClamped(rule, DayOf(first)) && r.rule == Some(rule)
    requires match r.lastFired
             case None => r.due == first
             case Some(at) => at >= first && Next(rule, first, at) == Some(r.due)
    requires r.due <= now && Next(rule, first, now).Some?
    ensures Next(rule, first, now) == Some(AfterFiring(r, now).due) && now >= first
  {
    if r.lastFired.Some? {
      UnclampedDay(rule, first, r.lastFired.value);
      ReanchoringKeepsSchedule(rule, first, r.lastFired.value, now);
      NextIsLeast(rule, first, r.lastFired.value);
    }
  }

  /** Other steps leave the due time, the rule and the last firing alone. */
  lemma UneditedRow(st: State, a: Action, id: Id)
    requires Enabled(st, a) && !Edits(st, a, id) && id in st.reminders
    requires !(a.DoFire? && a.id == id && Fires(st, a.user, id))
    ensures id in Apply(st, a).reminders && SameSchedule(st.reminders[id], Apply(st, a).reminders[id])
  {
  }

  predicate SameSchedule(r: Reminder, r1: Reminder) {
    r1.due == r.due && r1.rule == r.rule && r1.lastFired == r.lastFired
  }

  /** Firing late, by whichever replica, does not shift a recurring reminder. */
  lemma StepKeepsSchedule(st: State, a: Action, id: Id, rule: Rule, first: Instant)
    requires WellFormed(rule) && NeverClamped(rule, DayOf(first)) && OnSchedule(st, id, rule, first)
    requires Enabled(st, a) && !Edits(st, a, id) && Next(rule, first, st.now).Some?
    ensures OnSchedule(Apply(st, a), id, rule, first)
  {
    if a.DoFire? && a.id == id && Fires(st, a.user, id) {
      FiringKeepsSchedule(st.reminders[id], st.now, rule, first);
    } else {
      UneditedRow(st, a, id);
      ClockNeverFalls(st, a);
    }
  }

  /** No step of the run edits the reminder. */
  predicate Unedited(st: State, run: seq<Action>, id: Id) {
    forall i :: 0 <= i < |run| ==> !Edits(Run(st, run[..i]), run[i], id)
  }

  lemma ClockNeverFalls(st: State, a: Action)
    requires Enabled(st, a)
    ensures st.now <= Apply(st, a).now
  {
  }

  lemma RunKeepsSchedule(st: State, run: seq<Action>, id: Id, rule: Rule, first: Instant)
    requires WellFormed(rule) && NeverClamped(rule, DayOf(first)) && OnSchedule(st, id, rule, first)
    requires Legal(st, run) && Unedited(st, run, id) && Next(rule, first, Run(st, run).now).Some?
    ensures OnSchedule(Run(st, run), id, rule, first)
  {
    var end := Run(st, run).now;
    var kept := (s: State) => s.now <= end ==> OnSchedule(s, id, rule, first);
    var allowed := (s: State, a: Action) => Enabled(s, a) && !Edits(s, a, id);
    forall s: State, a: Action | kept(s) && allowed(s, a) ensures kept(Apply(s, a)) {
      ClockNeverFalls(s, a);
      if Apply(s, a).now <= end {
        EarlierHasNext(rule, first, s.now, end);
        StepKeepsSchedule(s, a, id, rule, first);
      }
    }
    RunInduction(st, run, kept, allowed);
  }

  /** Takes the reminder off its recurrence: a new time, a snooze, or its end. */
  predicate Departs(st: State, a: Action, id: Id) { Edits(st, a, id) && !a.DoFinish? && !a.DoRestore? }

  ghost predicate Recurs(st: State, id: Id, rule: Rule, first: Instant)
    requires WellFormed(rule)
  {
    id in st.reminders && st.reminders[id].rule == Some(rule) && OnSet(rule, first, st.reminders[id].due)
  }

  /** A step that changes the due time of a recurring reminder moves it to the first instant of its own
      recurrence set after that day and now. */
  ghost predicate MovesOn(st: State, st1: State, id: Id, rule: Rule, first: Instant)
    requires WellFormed(rule) && id in st.reminders && id in st1.reminders
  {
    var due, due1 := st.reminders[id].due, st1.reminders[id].due;
    due1 == due ||
    (due1 > st.now && DayOf(due1) > DayOf(due) &&
     forall day :: InSet(rule, DayOf(first), day) && day > DayOf(due) && At(first, day) > st.now ==> DayOf(due1) <= day)
  }

  /** What a step that does not take a reminder off its recurrence does to its row. */
  lemma StayingRow(st: State, a: Action, id: Id)
    requires Enabled(st, a) && !Departs(st, a, id) && id in st.reminders
    ensures id in Apply(st, a).reminders && Apply(st, a).reminders[id].rule == st.reminders[id].rule
    ensures var r, r1 := st.reminders[id], Apply(st, a).reminders[id];
      r1.due == r.due || Upcoming(r, st.now) == Some(r1.due)
  {
  }

  /** Firing, skipping an occurrence and coming back from the Trash all keep to the recurrence set that the
      first due time gives, and skip nothing of it. */
  lemma StepKeepsRecurring(st: State, a: Action, id: Id, rule: Rule, first: Instant)
    requires WellFormed(rule) && NeverClamped(rule, DayOf(first)) && Recurs(st, id, rule, first)
    requires Enabled(st, a) && !Departs(st, a, id)
    ensures Recurs(Apply(st, a), id, rule, first) && MovesOn(st, Apply(st, a), id, rule, first)
  {
    StayingRow(st, a, id);
    var due := st.reminders[id].due;
    if Next(rule, due, st.now).Some? { NextStaysOnSet(rule, first, due, st.now); }
  }

  /** No step of the run takes the reminder off its recurrence. */
  predicate Stays(st: State, run: seq<Action>, id: Id) {
    forall i :: 0 <= i < |run| ==> !Departs(Run(st, run[..i]), run[i], id)
  }

  lemma StaysPrefix(st: State, run: seq<Action>, id: Id, n: nat)
    requires n <= |run| && Stays(st, run, id)
    ensures Stays(st, run[..n], id)
  {
    forall i | 0 <= i < n ensures !Departs(Run(st, run[..n][..i]), run[..n][i], id) {
      assert run[..n][..i] == run[..i];
    }
  }

  /** In every run that does not take it off, however late it fires, is skipped or spends time in the Trash,
      a recurring reminder is due at an instant of its own recurrence set. */
  lemma RunKeepsRecurring(st: State, run: seq<Action>, id: Id, rule: Rule, first: Instant)
    requires WellFormed(rule) && NeverClamped(rule, DayOf(first)) && Recurs(st, id, rule, first)
    requires Legal(st, run) && Stays(st, run, id)
    ensures Recurs(Run(st, run), id, rule, first)
  {
    var kept := (s: State) => Recurs(s, id, rule, first);
    var allowed := (s: State, a: Action) => Enabled(s, a) && !Departs(s, a, id);
    forall s: State, a: Action | kept(s) && allowed(s, a) ensures kept(Apply(s, a)) {
      StepKeepsRecurring(s, a, id, rule, first);
    }
    RunInduction(st, run, kept, allowed);
  }

  /** And everything sent for it in such a run is for an instant of that set. */
  lemma SendsAreOccurrences(st: State, run: seq<Action>, id: Id, rule: Rule, first: Instant, k: nat)
    requires WellFormed(rule) && NeverClamped(rule, DayOf(first)) && Recurs(st, id, rule, first)
    requires Legal(st, run) && Stays(st, run, id)
    requires |st.notifications| <= k < |Run(st, run).notifications| && Run(st, run).notifications[k].id == id
    ensures OnSet(rule, first, Run(st, run).notifications[k].due)
  {
    var i := EverySendHasASender(st, run, k);
    LegalPrefix(st, run, i);
    StaysPrefix(st, run, id, i);
    RunKeepsRecurring(st, run[..i], id, rule, first);
  }
}
