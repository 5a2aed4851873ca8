/** Reminders on notes: user edits, the Trash, and firing on any number of replicas. Each action is one
    transaction under the owner's lock, so a run is an arbitrary sequence of actions. */
module Reminders {
  import opened Common
  import opened Calendar
  import opened Recurrence

  type User = nat
  type NoteId = nat
  type Id = nat
  type Target = nat

  datatype Status = Pending | Fired | Suspended | Done | Cancelled

  datatype Reminder = Reminder(
    user: User, note: NoteId, due: Instant, rule: Option<Rule>, status: Status,
    lastFired: Option<Instant>, claimedUntil: Option<Instant>)

  datatype Note = Note(user: User, active: bool)

  /** A row of notifications: what was sent, for which due time, and when. */
  datatype Notification = Notification(id: Id, user: User, note: NoteId, due: Instant, at: Instant, late: bool)

  datatype ItemState = Queued | Claimed | Delivered | Failed | Expired

  /** A chat message in the bot's outbox. */
  datatype Item = Item(id: Id, target: Target, due: Instant, state: ItemState)

  datatype State = State(
    now: Instant, users: map<User, bool>, notes: map<NoteId, Note>, reminders: map<Id, Reminder>,
    notifications: seq<Notification>, outbox: seq<Item>)

  datatype Error = NotFound | Invalid | Past | NotActive | Limit | Conflict

  /** A transaction that commits a new state, or rolls back with an error. */
  datatype Outcome = Committed(st: State) | Failure(error: Error)

  const MAX_PER_NOTE := 20
  const MAX_PER_USER := 500
  const LATE_AFTER: Instant := 300
  const LEASE: Instant := 60
  const FAILURE_BACKOFF: Instant := 600
  const CLAIM_LIMIT := 100

  // ---- rows -----------------------------------------------------------------------------------

  predicate Owned(st: State, id: Id, user: User) { id in st.reminders && st.reminders[id].user == user }

  predicate NoteOf(st: State, note: NoteId, user: User) { note in st.notes && st.notes[note].user == user }

  predicate Active(st: State, note: NoteId) { note in st.notes && st.notes[note].active }

  predicate Waiting(item: Item) { item.state == Queued || item.state == Claimed }

  function SetRow(st: State, id: Id, r: Reminder): State { st.(reminders := st.reminders[id := r]) }

  /** The instant n years on, where a day the month lacks runs over into the next month. */
  function AddYears(t: Instant, n: nat): Instant {
    (MonthStart(MonthOf(DayOf(t)) + 12 * n) + DayOfMonth(DayOf(t)) - 1) * DAY + t % DAY
  }

  function Validate(due: Instant, rule: Option<Rule>, now: Instant): Option<Error> {
    if due <= now then Some(Past)
    else if due > AddYears(now, 10) then Some(Invalid)
    else if rule.Some? && !WellFormed(rule.value) then Some(Invalid)
    else None
  }

  /** The next occurrence of a recurring reminder; none for the others. */
  function Upcoming(r: Reminder, now: Instant): Option<Instant> {
    if r.rule.Some? && WellFormed(r.rule.value) then Next(r.rule.value, r.due, now) else None
  }

  function CancelQueued(items: seq<Item>, ids: set<Id>): seq<Item> {
    seq(|items|, i requires 0 <= i < |items| =>
      if items[i].id in ids && Waiting(items[i]) then items[i].(state := Expired) else items[i])
  }

  function OnNote(st: State, user: User, note: NoteId): set<Id> {
    set id | id in st.reminders && st.reminders[id].user == user && st.reminders[id].note == note
  }

  function Armed(st: State, user: User): set<Id> {
    set id | id in st.reminders && st.reminders[id].user == user && st.reminders[id].status in {Pending, Suspended}
  }

  // ---- what each transaction does -------------------------------------------------------------

  function Create(st: State, user: User, id: Id, note: NoteId, due: Instant, rule: Option<Rule>): Outcome {
    var e := Validate(due, rule, st.now);
    if e.Some? then Failure(e.value)
    else if !NoteOf(st, note, user) then Failure(NotFound)
    else if !st.notes[note].active then Failure(NotActive)
    else if |OnNote(st, user, note)| >= MAX_PER_NOTE || |Armed(st, user)| >= MAX_PER_USER then Failure(Limit)
    else Committed(SetRow(st, id, Reminder(user, note, due, rule, Pending, None, None)))
  }

  /** A new due time, or none for the old one; a new rule, or none for the old one. */
  function Update(st: State, user: User, id: Id, due: Option<Instant>, rule: Option<Option<Rule>>): Outcome {
    if !Owned(st, id, user) then Failure(NotFound)
    else
      var cur := st.reminders[id];
      var newDue := if due.Some? then due.value else cur.due;
      var newRule := if rule.Some? then rule.value else cur.rule;
      var e := Validate(newDue, newRule, st.now);
      if e.Some? then Failure(e.value)
      else if !NoteOf(st, cur.note, user) then Failure(NotFound)
      else if !st.notes[cur.note].active then Failure(NotActive)
      else Committed(SetRow(st, id, cur.(due := newDue, rule := newRule, status := Pending, claimedUntil := None)))
  }

  function Rearm(st: State, user: User, id: Id, due: Instant): Outcome {
    if Owned(st, id, user) && st.reminders[id].status in {Pending, Fired, Done}
    then Committed(SetRow(st, id, st.reminders[id].(due := due, status := Pending, claimedUntil := None)))
    else Failure(NotFound)
  }

  function Snooze(st: State, user: User, id: Id, until: Instant): Outcome {
    if until <= st.now || until > AddYears(st.now, 1) then Failure(Past) else Rearm(st, user, id, until)
  }

  function Finish(st: State, user: User, id: Id): Outcome {
    if !Owned(st, id, user) then Failure(NotFound)
    else
      var cur := st.reminders[id];
      var st1 := st.(outbox := CancelQueued(st.outbox, {id}));
      var open := cur.status in {Pending, Fired};
      if open && Upcoming(cur, st.now).Some? then Rearm(st1, user, id, Upcoming(cur, st.now).value)
      else if open then Committed(SetRow(st1, id, cur.(status := Done, claimedUntil := None)))
      else Failure(NotFound)
  }

  function Delete(st: State, user: User, id: Id): Outcome {
    if !Owned(st, id, user) then Failure(NotFound)
    else Committed(st.(reminders := st.reminders - {id}, outbox := CancelQueued(st.outbox, {id})))
  }

  function Suspended1(r: Reminder): Reminder {
    if r.status == Pending then r.(status := Suspended, claimedUntil := None) else r
  }

  function Restored(r: Reminder, now: Instant): Reminder {
    if r.status != Suspended then r
    else if r.due > now then r.(status := Pending)
    else if Upcoming(r, now).Some? then r.(status := Pending, due := Upcoming(r, now).value)
    else r.(status := Cancelled)
  }

  function Restoring(now: Instant): Reminder -> Reminder { r => Restored(r, now) }

  /** The rows with f applied to those among ids. */
  function MapRows(rows: map<Id, Reminder>, ids: set<Id>, f: Reminder -> Reminder): map<Id, Reminder> {
    map id | id in rows :: if id in ids then f(rows[id]) else rows[id]
  }

  function Dismiss(st: State, user: User, note: NoteId): Outcome {
    if !NoteOf(st, note, user) then Failure(NotFound)
    else if !st.notes[note].active then Failure(Conflict)
    else Committed(st.(notes := st.notes[note := Note(user, false)],
                       reminders := MapRows(st.reminders, OnNote(st, user, note), Suspended1)))
  }

  function Restore(st: State, user: User, note: NoteId): Outcome {
    if !NoteOf(st, note, user) then Failure(NotFound)
    else if st.notes[note].active then Failure(Conflict)
    else Committed(st.(notes := st.notes[note := Note(user, true)],
                       reminders := MapRows(st.reminders, OnNote(st, user, note), Restoring(st.now))))
  }

  function DeleteNote(st: State, user: User, note: NoteId): Outcome {
    if !NoteOf(st, note, user) then Failure(NotFound)
    else if st.notes[note].active then Failure(Conflict)
    else Committed(st.(notes := st.notes - {note}, reminders := st.reminders - OnNote(st, user, note),
                       outbox := CancelQueued(st.outbox, OnNote(st, user, note))))
  }

  /** The source note's reminders move to the target, and the source is gone. */
  function Merge(st: State, user: User, target: NoteId, source: NoteId): Outcome {
    if target == source then Failure(Invalid)
    else if !NoteOf(st, target, user) || !NoteOf(st, source, user) then Failure(NotFound)
    else if !st.notes[target].active || !st.notes[source].active then Failure(Conflict)
    else Committed(st.(notes := st.notes - {source},
                       reminders :=
                           MapRows(st.reminders, OnNote(st, user, source), (r: Reminder) => r.(note := target))))
  }

  predicate Claimable(st: State, id: Id) {
    && id in st.reminders
    && var r := st.reminders[id];
       && r.status == Pending && r.due <= st.now
       && (r.claimedUntil.None? || r.claimedUntil.value < st.now)
       && r.user in st.users && st.users[r.user]
  }

  function Claim(st: State, ids: set<Id>): State {
    st.(reminders := MapRows(st.reminders, ids, (r: Reminder) => r.(claimedUntil := Some(st.now + LEASE))))
  }

  /** What the firing transaction finds once it holds the owner's lock. */
  predicate Fires(st: State, user: User, id: Id) {
    && user in st.users && st.users[user]
    && Owned(st, id, user)
    && var r := st.reminders[id];
       r.status == Pending && r.due <= st.now && NoteOf(st, r.note, user) && st.notes[r.note].active
  }

  function Messages(id: Id, due: Instant, targets: seq<Target>): seq<Item> {
    seq(|targets|, i requires 0 <= i < |targets| => Item(id, targets[i], due, Queued))
  }

  /** A reminder after it fired: at its next occurrence, or fired for good. */
  function AfterFiring(r: Reminder, now: Instant): Reminder {
    var next := Upcoming(r, now);
    var r1 := r.(lastFired := Some(now), claimedUntil := None);
    if next.Some? then r1.(due := next.value) else r1.(status := Fired)
  }

  function Notice(id: Id, r: Reminder, now: Instant): Notification {
    Notification(id, r.user, r.note, r.due, now, now - r.due > LATE_AFTER)
  }

  function Fire(st: State, user: User, id: Id, targets: seq<Target>): State {
    if !Fires(st, user, id) then st
    else
      var r := st.reminders[id];
      SetRow(st, id, AfterFiring(r, st.now)).(
        notifications := st.notifications + [Notice(id, r, st.now)],
        outbox := st.outbox + Messages(id, r.due, targets))
  }

  function Defer(st: State, id: Id, until: Instant): State {
    if id in st.reminders then SetRow(st, id, st.reminders[id].(claimedUntil := Some(until))) else st
  }

  // ---- runs -----------------------------------------------------------------------------------

  datatype Action =
    | Tick(now: Instant)
    | SetUser(user: User, active: bool)
    | AddNote(user: User, note: NoteId)
    | DoCreate(user: User, id: Id, note: NoteId, due: Instant, rule: Option<Rule>)
    | DoUpdate(user: User, id: Id, newDue: Option<Instant>, newRule: Option<Option<Rule>>)
    | DoSnooze(user: User, id: Id, until: Instant)
    | DoFinish(user: User, id: Id)
    | DoDelete(user: User, id: Id)
    | DoDismiss(user: User, note: NoteId)
    | DoRestore(user: User, note: NoteId)
    | DoDeleteNote(user: User, note: NoteId)
    | DoMerge(user: User, note: NoteId, source: NoteId)
    | DoClaim(ids: set<Id>)
    | DoFire(user: User, id: Id, targets: seq<Target>)
    | DoDefer(id: Id, until: Instant)
    | Bot(item: nat, to: ItemState)

  /** What the rest of the system guarantees of an action: the clock does not run back, ids are new, a
      claim takes claimable rows only, and a deferral counts from a time that has been. */
  predicate Enabled(st: State, a: Action) {
    match a
    case Tick(now) => now >= st.now
    case AddNote(user, note) => note !in st.notes
    case DoCreate(_, id, _, _, _) =>
      id !in st.reminders && (forall n :: n in st.notifications ==> n.id != id) &&
          (forall o :: o in st.outbox ==> o.id != id)
    case DoClaim(ids) => |ids| <= CLAIM_LIMIT && forall id :: id in ids ==> Claimable(st, id)
    case DoDefer(_, until) => until <= st.now + FAILURE_BACKOFF
    case Bot(i, _) => i < |st.outbox| && Waiting(st.outbox[i])
    case _ => true
  }

  function Commit(st: State, o: Outcome): State { match o case Committed(st1) => st1 case Failure(_) => st }

  function Apply(st: State, a: Action): State {
    match a
    case Tick(now) => st.(now := now)
    case SetUser(user, active) => st.(users := st.users[user := active])
    case AddNote(user, note) => st.(notes := st.notes[note := Note(user, true)])
    case DoCreate(user, id, note, due, rule) => Commit(st, Create(st, user, id, note, due, rule))
    case DoUpdate(user, id, due, rule) => Commit(st, Update(st, user, id, due, rule))
    case DoSnooze(user, id, until) => Commit(st, Snooze(st, user, id, until))
    case DoFinish(user, id) => Commit(st, Finish(st, user, id))
    case DoDelete(user, id) => Commit(st, Delete(st, user, id))
    case DoDismiss(user, note) => Commit(st, Dismiss(st, user, note))
    case DoRestore(user, note) => Commit(st, Restore(st, user, note))
    case DoDeleteNote(user, note) => Commit(st, DeleteNote(st, user, note))
    case DoMerge(user, note, source) => Commit(st, Merge(st, user, note, source))
    case DoClaim(ids) => Claim(st, ids)
    case DoFire(user, id, targets) => Fire(st, user, id, targets)
    case DoDefer(id, until) => Defer(st, id, until)
    case Bot(i, to) => if i < |st.outbox| then st.(outbox := st.outbox[i := st.outbox[i].(state := to)]) else st
  }

  function Run(st: State, run: seq<Action>): State
    decreases |run|
  {
    if run == [] then st else Apply(Run(st, run[..|run| - 1]), run[|run| - 1])
  }

  predicate Legal(st: State, run: seq<Action>) {
    forall i :: 0 <= i < |run| ==> Enabled(Run(st, run[..i]), run[i])
  }

  function Start(now: Instant): State { State(now, map[], map[], map[], [], []) }

  // ---- the invariant --------------------------------------------------------------------------

  /** An armed reminder is due later than everything that was sent for it. */
  predicate AheadOf(r: Reminder, id: Id, n: Notification) {
    n.id == id && r.status in {Pending, Suspended} ==> n.due < r.due
  }

  predicate RowValid(st: State, r: Reminder) {
    && (r.rule.Some? ==> WellFormed(r.rule.value))
    && (r.claimedUntil.Some? ==> r.claimedUntil.value <= st.now + FAILURE_BACKOFF)
    && NoteOf(st, r.note, r.user)
    && (r.status == Suspended ==> !st.notes[r.note].active)
    && (r.status == Fired ==> Upcoming(r, st.now).None?)
  }

  predicate SentInOrder(sent: seq<Notification>) {
    forall i, j :: 0 <= i < j < |sent| && sent[i].id == sent[j].id ==> sent[i].due < sent[j].due
  }

  /** A message that can still go out is for a reminder that is neither deleted nor done. */
  predicate ItemValid(st: State, o: Item) {
    Waiting(o) ==> o.id in st.reminders && st.reminders[o.id].status != Done
  }

  predicate Inv(st: State) {
    && (forall id :: id in st.reminders ==> RowValid(st, st.reminders[id]))
    && (forall id, i :: id in st.reminders && 0 <= i < |st.notifications| ==>
        AheadOf(st.reminders[id], id, st.notifications[i]))
    && (forall i :: 0 <= i < |st.notifications| ==> st.notifications[i].due <= st.notifications[i].at <= st.now)
    && SentInOrder(st.notifications)
    && (forall i :: 0 <= i < |st.outbox| ==> ItemValid(st, st.outbox[i]))
  }

  lemma UpcomingIsAhead(r: Reminder, now: Instant)
    ensures Upcoming(r, now).Some? ==> Upcoming(r, now).value > now
  {
    if Upcoming(r, now).Some? { NextIsLeast(r.rule.value, r.due, now); }
  }

  /** A recurrence that has come to its end stays there. */
  lemma UpcomingStaysNone(r: Reminder, now: Instant, later: Instant)
    requires now <= later && Upcoming(r, now).None?
    ensures Upcoming(r, later).None?
  {
    if Upcoming(r, later).Some? { EarlierHasNext(r.rule.value, r.due, now, later); }
  }

  /** A row replaced by one that is due after now keeps the invariant. */
  lemma RearmedKeepsInv(st: State, id: Id, r: Reminder)
    requires Inv(st) && RowValid(st, r)
    requires forall i :: 0 <= i < |st.outbox| && st.outbox[i].id == id && Waiting(st.outbox[i]) ==> r.status != Done
    requires r.status in {Pending, Suspended} ==>
      r.due > st.now || (id in st.reminders && st.reminders[id].status in {Pending, Suspended} &&
          r.due == st.reminders[id].due)
    ensures Inv(SetRow(st, id, r))
  {
  }

  lemma CancelKeepsInv(st: State, ids: set<Id>)
    requires Inv(st)
    ensures Inv(st.(outbox := CancelQueued(st.outbox, ids)))
    ensures forall o :: o in CancelQueued(st.outbox, ids) && Waiting(o) ==> o.id !in ids
  {
  }

  /** Rows changed one by one, each as RearmedKeepsInv asks. */
  predicate RowsKept(st: State, st1: State) {
    && st1.reminders.Keys == st.reminders.Keys
    && forall id :: id in st.reminders ==>
         var r, r1 := st.reminders[id], st1.reminders[id];
         && RowValid(st1, r1)
         && (r1.status == Done ==> r.status == Done)
         && (r1.status in {Pending, Suspended} ==>
               r1.due > st.now || (r.status in {Pending, Suspended} && r1.due == r.due))
  }

  lemma ChangedRowsKeepInv(st: State, st1: State)
    requires Inv(st) && RowsKept(st, st1)
    requires st1.now == st.now && st1.notifications == st.notifications && st1.outbox == st.outbox
    ensures Inv(st1)
  {
    forall id, i | id in st1.reminders && 0 <= i < |st1.notifications|
      ensures AheadOf(st1.reminders[id], id, st1.notifications[i])
    {
      assert AheadOf(st.reminders[id], id, st.notifications[i]);
    }
  }

  lemma RestoreKeepsInv(st: State, user: User, note: NoteId)
    requires Inv(st) && Restore(st, user, note).Committed?
    ensures Inv(Restore(st, user, note).st)
  {
    var st1 := Restore(st, user, note).st;
    forall id | id in st.reminders ensures RowValid(st1, st1.reminders[id]) {
      assert RowValid(st, st.reminders[id]);
    }
    forall id | id in st.reminders
      ensures var r, r1 := st.reminders[id], st1.reminders[id];
        r1.status in {Pending, Suspended} ==> r1.due > st.now || (r.status in {Pending, Suspended} && r1.due == r.due)
    {
      UpcomingIsAhead(st.reminders[id], st.now);
    }
    ChangedRowsKeepInv(st, st1);
  }

  lemma FireKeepsInv(st: State, user: User, id: Id, targets: seq<Target>)
    requires Inv(st)
    ensures Inv(Fire(st, user, id, targets))
  {
    if Fires(st, user, id) {
      var r := st.reminders[id];
      var st1 := Fire(st, user, id, targets);
      UpcomingIsAhead(r, st.now);
      assert RowValid(st, r);
      var n := |st.notifications|;
      forall i | 0 <= i < n ensures AheadOf(r, id, st.notifications[i]) {}
      assert SentInOrder(st1.notifications);
      forall k, i | k in st1.reminders && 0 <= i <= n ensures AheadOf(st1.reminders[k], k, st1.notifications[i]) {
        if i < n { assert AheadOf(st.reminders[k], k, st.notifications[i]); }
      }
      forall k | k in st1.reminders ensures RowValid(st1, st1.reminders[k]) {
        assert RowValid(st, st.reminders[k]);
      }
      forall i | 0 <= i < |st1.outbox| ensures ItemValid(st1, st1.outbox[i]) {
        if i < |st.outbox| { assert ItemValid(st, st.outbox[i]); }
      }
    }
  }

  lemma FinishKeepsInv(st: State, user: User, id: Id)
    requires Inv(st) && Owned(st, id, user)
    ensures Inv(Commit(st, Finish(st, user, id)))
  {
    var st1 := st.(outbox := CancelQueued(st.outbox, {id}));
    CancelKeepsInv(st, {id});
    var cur := st.reminders[id];
    UpcomingIsAhead(cur, st.now);
    assert RowValid(st, cur);
    assert RowValid(st1, cur.(status := Done, claimedUntil := None));
    if Finish(st, user, id).Committed? { RearmedKeepsInv(st1, id, Finish(st, user, id).st.reminders[id]); }
  }

  lemma EditKeepsInv(st: State, a: Action)
    requires Inv(st) && Enabled(st, a) && (a.DoCreate? || a.DoUpdate? || a.DoSnooze?)
    ensures Inv(Apply(st, a))
  {
    var st1 := Apply(st, a);
    if st1 != st {
      assert a.id in st.reminders ==> RowValid(st, st.reminders[a.id]);
      RearmedKeepsInv(st, a.id, st1.reminders[a.id]);
    }
  }

  predicate SameNote(st: State, st1: State, note: NoteId) {
    note in st.notes && note in st1.notes && st1.notes[note] == st.notes[note]
  }

  lemma RemovalKeepsInv(st: State, st1: State, ids: set<Id>)
    requires Inv(st) && st1.reminders == st.reminders - ids && st1.outbox == CancelQueued(st.outbox, ids)
    requires st1.now == st.now && st1.notifications == st.notifications
    requires forall id :: id in st1.reminders ==>
      NoteOf(st1, st1.reminders[id].note, st1.reminders[id].user) && SameNote(st, st1, st1.reminders[id].note)
    ensures Inv(st1)
  {
    forall id | id in st1.reminders ensures RowValid(st1, st1.reminders[id]) {
      assert RowValid(st, st.reminders[id]);
    }
    forall i | 0 <= i < |st1.outbox| ensures ItemValid(st1, st1.outbox[i]) {
      assert ItemValid(st, st.outbox[i]);
    }
  }

  lemma DismissKeepsInv(st: State, user: User, note: NoteId)
    requires Inv(st) && Dismiss(st, user, note).Committed?
    ensures Inv(Dismiss(st, user, note).st)
  {
    var st1 := Dismiss(st, user, note).st;
    forall id | id in st.reminders ensures RowValid(st1, st1.reminders[id]) {
      assert RowValid(st, st.reminders[id]);
    }
    ChangedRowsKeepInv(st, st1);
  }

  lemma MergeKeepsInv(st: State, user: User, note: NoteId, source: NoteId)
    requires Inv(st) && Merge(st, user, note, source).Committed?
    ensures Inv(Merge(st, user, note, source).st)
  {
    var st1 := Merge(st, user, note, source).st;
    forall id | id in st.reminders ensures RowValid(st1, st1.reminders[id]) {
      assert RowValid(st, st.reminders[id]);
    }
    ChangedRowsKeepInv(st, st1);
  }

  lemma DeleteNoteKeepsInv(st: State, user: User, note: NoteId)
    requires Inv(st) && DeleteNote(st, user, note).Committed?
    ensures Inv(DeleteNote(st, user, note).st)
  {
    var st1 := DeleteNote(st, user, note).st;
    forall id | id in st1.reminders ensures RowValid(st, st1.reminders[id]) && st1.reminders[id].note != note {
      assert RowValid(st, st.reminders[id]);
    }
    RemovalKeepsInv(st, st1, OnNote(st, user, note));
  }

  lemma TickKeepsInv(st: State, now: Instant)
    requires Inv(st) && st.now <= now
    ensures Inv(st.(now := now))
  {
    var st1 := st.(now := now);
    forall id | id in st1.reminders ensures RowValid(st1, st1.reminders[id]) {
      assert RowValid(st, st.reminders[id]);
      if st.reminders[id].status == Fired { UpcomingStaysNone(st.reminders[id], st.now, now); }
    }
  }

  lemma ScheduleKeepsInv(st: State, a: Action)
    requires Inv(st) && Enabled(st, a) && (a.SetUser? || a.AddNote? || a.DoClaim? || a.DoDefer? || a.Bot?)
    ensures Inv(Apply(st, a))
  {
    var st1 := Apply(st, a);
    forall id | id in st1.reminders ensures RowValid(st1, st1.reminders[id]) {
      assert RowValid(st, st.reminders[id]);
    }
    forall id, i | id in st1.reminders && 0 <= i < |st1.notifications|
      ensures AheadOf(st1.reminders[id], id, st1.notifications[i])
    {
      assert AheadOf(st.reminders[id], id, st.notifications[i]);
    }
    forall i | 0 <= i < |st1.outbox| ensures ItemValid(st1, st1.outbox[i]) {
      assert ItemValid(st, st.outbox[i]);
    }
  }

  lemma StepKeepsInv(st: State, a: Action)
    requires Inv(st) && Enabled(st, a)
    ensures Inv(Apply(st, a))
  {
    match a
    case DoCreate(_, _, _, _, _) => EditKeepsInv(st, a);
    case DoUpdate(_, _, _, _) => EditKeepsInv(st, a);
    case DoSnooze(_, _, _) => EditKeepsInv(st, a);
    case DoFinish(user, id) => if Owned(st, id, user) { FinishKeepsInv(st, user, id); }
    case DoDelete(user, id) => if Owned(st, id, user) { RemovalKeepsInv(st, Apply(st, a), {id}); }
    case DoRestore(user, note) => if Restore(st, user, note).Committed? { RestoreKeepsInv(st, user, note); }
    case DoDeleteNote(user, note) => if DeleteNote(st, user, note).Committed? { DeleteNoteKeepsInv(st, user, note); }
    case DoFire(user, id, targets) => FireKeepsInv(st, user, id, targets);
    case Tick(now) => TickKeepsInv(st, now);
    case SetUser(_, _) => ScheduleKeepsInv(st, a);
    case DoClaim(_) => ScheduleKeepsInv(st, a);
    case DoDefer(_, _) => ScheduleKeepsInv(st, a);
    case Bot(_, _) => ScheduleKeepsInv(st, a);
    case AddNote(user, note) => ScheduleKeepsInv(st, a);
    case DoDismiss(user, note) => if Dismiss(st, user, note).Committed? { DismissKeepsInv(st, user, note); }
    case DoMerge(user, note, source) =>
        if Merge(st, user, note, source).Committed? { MergeKeepsInv(st, user, note, source); }
  }
}
