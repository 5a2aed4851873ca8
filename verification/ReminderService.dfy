/** The reminder service: transactions that read and rewrite rows step by step, and the firing job. */
module ReminderService {
  import opened Common
  import opened Recurrence
  import opened Reminders
  import opened ReminderRuns

  class Service {
    var now: Instant
    var users: map<User, bool>
    var notes: map<NoteId, Note>
    var reminders: map<Id, Reminder>
    var notifications: seq<Notification>
    var outbox: seq<Item>

    ghost function Tables(): State
      reads this
    {
      State(now, users, notes, reminders, notifications, outbox)
    }

    /** A new reminder on one of the user's notes. */
    method CreateIn(user: User, id: Id, note: NoteId, due: Instant, rule: Option<Rule>) returns (e: Option<Error>)
      modifies this`reminders
      ensures e == ErrorOf(Create(old(Tables()), user, id, note, due, rule))
      ensures Tables() == Commit(old(Tables()), Create(old(Tables()), user, id, note, due, rule))
    {
      e := Validate(due, rule, now);
      if e.Some? { return; }
      if note !in notes || notes[note].user != user { return Some(NotFound); }
      if !notes[note].active { return Some(NotActive); }
      var perNote := set id | id in reminders && reminders[id].user == user && reminders[id].note == note;
      var perUser := set id | id in reminders && reminders[id].user == user &&
          reminders[id].status in {Pending, Suspended};
      assert perNote == OnNote(Tables(), user, note) && perUser == Armed(Tables(), user);
      if |perNote| >= MAX_PER_NOTE || |perUser| >= MAX_PER_USER { return Some(Limit); }
      reminders := reminders[id := Reminder(user, note, due, rule, Pending, None, None)];
    }

    /** A new due time or rule, or both; whatever the reminder's state was, it is pending afterwards. */
    method Change(user: User, id: Id, due: Option<Instant>, rule: Option<Option<Rule>>) returns (e: Option<Error>)
      modifies this`reminders
      ensures e == ErrorOf(Update(old(Tables()), user, id, due, rule))
      ensures Tables() == Commit(old(Tables()), Update(old(Tables()), user, id, due, rule))
    {
      if id !in reminders || reminders[id].user != user { return Some(NotFound); }
      var cur := reminders[id];
      var newDue, newRule := cur.due, cur.rule;
      if due.Some? { newDue := due.value; }
      if rule.Some? { newRule := rule.value; }
      e := Validate(newDue, newRule, now);
      if e.Some? { return; }
      if cur.note !in notes || notes[cur.note].user != user { return Some(NotFound); }
      if !notes[cur.note].active { return Some(NotActive); }
      reminders := reminders[id := cur.(due := newDue, rule := newRule, status := Pending, claimedUntil := None)];
    }

    method DeleteReminder(user: User, id: Id) returns (e: Option<Error>)
      modifies this`reminders, this`outbox
      ensures e == ErrorOf(Delete(old(Tables()), user, id))
      ensures Tables() == Commit(old(Tables()), Delete(old(Tables()), user, id))
    {
      if id !in reminders || reminders[id].user != user { return Some(NotFound); }
      reminders := reminders - {id};
      CancelQueuedFor(id);
      e := None;
    }

    method CancelQueuedFor(id: Id)
      modifies this`outbox
      ensures outbox == CancelQueued(old(outbox), {id})
    {
      outbox := seq(|outbox|, i requires 0 <= i < |outbox| reads this =>
        if outbox[i].id == id && Waiting(outbox[i]) then outbox[i].(state := Expired) else outbox[i]);
    }

    method SnoozeReminder(user: User, id: Id, due: Instant) returns (ok: bool)
      modifies this`reminders
      ensures ok == Rearm(old(Tables()), user, id, due).Committed?
      ensures Tables() == Commit(old(Tables()), Rearm(old(Tables()), user, id, due))
    {
      ok := id in reminders && reminders[id].user == user && reminders[id].status in {Pending, Fired, Done};
      if ok { reminders := reminders[id := reminders[id].(due := due, status := Pending, claimedUntil := None)]; }
    }

    method SnoozeIn(user: User, id: Id, until: Instant) returns (e: Option<Error>)
      modifies this`reminders
      ensures e == ErrorOf(Snooze(old(Tables()), user, id, until))
      ensures Tables() == Commit(old(Tables()), Snooze(old(Tables()), user, id, until))
    {
      if until <= now || until > AddYears(now, 1) { return Some(Past); }
      var ok := SnoozeReminder(user, id, until);
      e := if ok then None else Some(NotFound);
    }

    /** Marks a reminder done; a recurring one skips to its next occurrence. An error rolls back the
        messages that were cancelled before it. */
    method DoneIn(user: User, id: Id) returns (e: Option<Error>)
      modifies this`reminders, this`outbox
      ensures e == ErrorOf(Finish(old(Tables()), user, id))
      ensures Tables() == Commit(old(Tables()), Finish(old(Tables()), user, id))
    {
      if id !in reminders || reminders[id].user != user { return Some(NotFound); }
      var cur, saved := reminders[id], outbox;
      CancelQueuedFor(id);
      if cur.rule.Some? && cur.status in {Pending, Fired} && WellFormed(cur.rule.value) {
        var next := FindNext(cur.rule.value, cur.due, now);
        if next.Some? {
          var ok := SnoozeReminder(user, id, next.value);
          return None;
        }
      }
      if cur.status in {Pending, Fired} {
        reminders := reminders[id := cur.(status := Done, claimedUntil := None)];
        e := None;
      } else {
        outbox := saved;
        e := Some(NotFound);
      }
    }

    /** Puts a note in the Trash; one statement suspends its pending reminders. */
    method DismissNote(user: User, note: NoteId) returns (e: Option<Error>)
      modifies this`notes, this`reminders
      ensures e == ErrorOf(Dismiss(old(Tables()), user, note))
      ensures Tables() == Commit(old(Tables()), Dismiss(old(Tables()), user, note))
    {
      if note !in notes || notes[note].user != user { return Some(NotFound); }
      if !notes[note].active { return Some(Conflict); }
      notes := notes[note := Note(user, false)];
      reminders := map id | id in reminders ::
        var r := reminders[id];
        if r.user == user && r.note == note && r.status == Pending
        then r.(status := Suspended, claimedUntil := None)
        else r;
      assert reminders == Dismiss(old(Tables()), user, note).st.reminders;
      e := None;
    }

    method RestoreReminder(id: Id)
      requires id in reminders && reminders[id].status == Suspended
      modifies this`reminders
      ensures reminders == old(reminders)[id := Restored(old(reminders[id]), now)]
    {
      var r := reminders[id];
      var state, due := Pending, r.due;
      if r.due <= now {
        state := Cancelled;
        if r.rule.Some? && WellFormed(r.rule.value) {
          var next := FindNext(r.rule.value, r.due, now);
          if next.Some? { state, due := Pending, next.value; }
        }
      }
      reminders := reminders[id := r.(status := state, due := due)];
    }

    /** Visits the suspended reminders of a note one by one. */
    method OnRestore(user: User, note: NoteId)
      modifies this`reminders
      ensures reminders == MapRows(old(reminders), OnNote(old(Tables()), user, note), Restoring(now))
    {
      var list := set id | id in reminders && reminders[id].user == user && reminders[id].note == note &&
          reminders[id].status == Suspended;
      ghost var all, rows := list, reminders;
      while list != {}
        invariant list <= all <= rows.Keys && reminders.Keys == rows.Keys
        invariant forall id :: id in rows ==>
            reminders[id] == if id in all - list then Restored(rows[id], now) else rows[id]
        decreases |list|
      {
        var id :| id in list;
        RestoreReminder(id);
        list := list - {id};
      }
      AllVisited(rows, reminders, OnNote(old(Tables()), user, note), all, now);
    }

    /** Brings a note back from the Trash, with its reminders. */
    method RestoreNote(user: User, note: NoteId) returns (e: Option<Error>)
      modifies this`notes, this`reminders
      ensures e == ErrorOf(Restore(old(Tables()), user, note))
      ensures Tables() == Commit(old(Tables()), Restore(old(Tables()), user, note))
    {
      if note !in notes || notes[note].user != user { return Some(NotFound); }
      if notes[note].active { return Some(Conflict); }
      notes := notes[note := Note(user, true)];
      assert OnNote(Tables(), user, note) == OnNote(old(Tables()), user, note);
      OnRestore(user, note);
      e := None;
    }

    // ---- firing -------------------------------------------------------------------------------

    /** Fires one reminder, under the owner's lock, if it still qualifies. */
    method FireOne(user: User, id: Id, targets: seq<Target>) returns (fired: bool)
      modifies this`reminders, this`notifications, this`outbox
      ensures fired == Fires(old(Tables()), user, id)
      ensures Tables() == Fire(old(Tables()), user, id, targets)
    {
      if user !in users || !users[user] { return false; }
      if id !in reminders || reminders[id].user != user { return false; }
      var r := reminders[id];
      if r.status != Pending || r.due > now { return false; }
      if r.note !in notes || notes[r.note].user != user || !notes[r.note].active { return false; }
      var i := 0;
      while i < |targets|
        invariant 0 <= i <= |targets|
        invariant outbox == old(outbox) + Messages(id, r.due, targets[..i])
        modifies this`outbox
      {
        outbox := outbox + [Item(id, targets[i], r.due, Queued)];
        i := i + 1;
      }
      assert targets[..i] == targets;
      notifications := notifications + [Notification(id, user, r.note, r.due, now, now - r.due > LATE_AFTER)];
      var next: Option<Instant> := None;
      if r.rule.Some? && WellFormed(r.rule.value) { next := FindNext(r.rule.value, r.due, now); }
      var after := r.(lastFired := Some(now), claimedUntil := None);
      reminders := reminders[id := if next.Some? then after.(due := next.value) else after.(status := Fired)];
      return true;
    }

    /** Any transaction of anyone else. */
    method Perform(a: Action)
      requires Enabled(Tables(), a)
      modifies this
      ensures Tables() == Apply(old(Tables()), a)
    {
      var st := Apply(State(now, users, notes, reminders, notifications, outbox), a);
      now, users, notes := st.now, st.users, st.notes;
      reminders, notifications, outbox := st.reminders, st.notifications, st.outbox;
    }

    /** What others do between two transactions of the job. */
    method Others(acts: seq<Action>, ghost start: State, ghost run: seq<Action>) returns (ghost longer: seq<Action>)
      requires Legal(start, run) && Tables() == Run(start, run)
      modifies this
      ensures Legal(start, longer) && Tables() == Run(start, longer)
      ensures old(now) <= now && (acts == [] ==> longer == run)
    {
      longer := run;
      for i := 0 to |acts|
        invariant Legal(start, longer) && Tables() == Run(start, longer) && old(now) <= now
        invariant i == 0 ==> longer == run
      {
        if Enabled(State(now, users, notes, reminders, notifications, outbox), acts[i]) {
          ClockNeverFalls(Tables(), acts[i]);
          longer := Extended(start, longer, Tables(), acts[i]);
          Perform(acts[i]);
        }
      }
    }

    method ClaimDue(claimed: seq<Id>)
      modifies this`reminders
      ensures Tables() == Claim(old(Tables()), Ids(claimed))
    {
      reminders := map id | id in reminders ::
        if id in claimed then reminders[id].(claimedUntil := Some(now + LEASE)) else reminders[id];
    }

    /** One turn of the job: a firing, or what follows one that failed. */
    method FireOrDefer(user: User, id: Id, targets: seq<Target>, fails: bool, until: Instant) returns (ok: bool)
      modifies this`reminders, this`notifications, this`outbox
      ensures Tables() == Apply(old(Tables()), Turn(user, id, targets, fails, until))
      ensures |notifications| == |old(notifications)| + if ok then 1 else 0
    {
      ok := false;
      if fails {
        if id in reminders { reminders := reminders[id := reminders[id].(claimedUntil := Some(until))]; }
      } else {
        ok := FireOne(user, id, targets);
      }
    }

    /** A turn of the job after whatever others did meanwhile. */
    method TakeTurn(user: User, id: Id, targets: seq<Target>, fails: bool, until: Instant, acts: seq<Action>,
                    ghost start: State, ghost run: seq<Action>) returns (ok: bool, ghost longer: seq<Action>)
      requires Legal(start, run) && Tables() == Run(start, run) && until <= now + FAILURE_BACKOFF
      modifies this
      ensures Legal(start, longer) && Tables() == Run(start, longer) && old(now) <= now
      ensures acts == [] ==> Tables() == Apply(old(Tables()), Turn(user, id, targets, fails, until))
      ensures acts == [] ==> |notifications| == |old(notifications)| + if ok then 1 else 0
    {
      longer := Others(acts, start, run);
      TurnEnabled(Tables(), user, id, targets, fails, until);
      longer := Extended(start, longer, Tables(), Turn(user, id, targets, fails, until));
      ok := FireOrDefer(user, id, targets, fails, until);
    }

    /** The firing job: claims rows, then fires each in a transaction of its own; a firing that fails is
        set aside. In between, anyone may do anything. What happens is a run of the model, and when the
        others are quiet the job counts what was sent and leaves nothing it claimed unsent. */
    method FireDue(claimed: seq<Id>, others: seq<seq<Action>>, targets: seq<seq<Target>>, fails: seq<bool>)
      returns (fired: nat, ghost run: seq<Action>)
      requires |others| == |targets| == |fails| == |claimed| <= CLAIM_LIMIT && Distinct(claimed)
      requires forall i :: 0 <= i < |claimed| ==> Claimable(Tables(), claimed[i])
      modifies this
      ensures Legal(old(Tables()), run) && Tables() == Run(old(Tables()), run)
      ensures Quiet(others) ==> fired == |notifications| - |old(notifications)|
      ensures Quiet(others) ==> Sent(Tables(), claimed, fails, |claimed|)
    {
      ghost var start := Tables();
      var at := now;
      var owners := seq(|claimed|, i requires 0 <= i < |claimed| &&
          claimed[i] in reminders reads this => reminders[claimed[i]].user);
      ClaimIsLegal(start, claimed);
      ClaimDue(claimed);
      run := [DoClaim(Ids(claimed))];
      fired := 0;
      for i := 0 to |claimed|
        invariant Legal(start, run) && Tables() == Run(start, run) && at <= now
        invariant Quiet(others) ==> fired == |notifications| - |start.notifications|
        invariant Quiet(others) ==> AllOwned(Tables(), claimed, owners) && Sent(Tables(), claimed, fails, i)
      {
        ghost var found := Tables();
        var ok;
        ok, run := TakeTurn(owners[i], claimed[i], targets[i], fails[i], at + FAILURE_BACKOFF, others[i], start, run);
        if ok { fired := fired + 1; }
        if Quiet(others) {
          TurnKeepsOthers(found, owners[i], claimed[i], targets[i], at + FAILURE_BACKOFF, claimed, owners, fails, i);
        }
      }
    }
  }

  lemma AllVisited(rows: map<Id, Reminder>, done: map<Id, Reminder>, ids: set<Id>, visited: set<Id>, now: Instant)
    requires done.Keys == rows.Keys && visited <= ids
    requires forall id :: id in rows ==> done[id] == if id in visited then Restored(rows[id], now) else rows[id]
    requires forall id :: id in ids && id in rows && id !in visited ==> rows[id].status != Suspended
    ensures done == MapRows(rows, ids, Restoring(now))
  {
  }

  function Ids(claimed: seq<Id>): set<Id> { set id | id in claimed }

  function Turn(user: User, id: Id, targets: seq<Target>, fails: bool, until: Instant): Action {
    if fails then DoDefer(id, until) else DoFire(user, id, targets)
  }

  predicate Distinct(ids: seq<Id>) { forall i, j :: 0 <= i < j < |ids| ==> ids[i] != ids[j] }

  function ErrorOf(o: Outcome): Option<Error> { match o case Committed(_) => None case Failure(e) => Some(e) }

  predicate Quiet(others: seq<seq<Action>>) { forall i :: 0 <= i < |others| ==> others[i] == [] }

  predicate AllOwned(st: State, claimed: seq<Id>, owners: seq<User>) {
    |owners| == |claimed| && forall k :: 0 <= k < |claimed| ==> Owned(st, claimed[k], owners[k])
  }

  /** None of the first n still waits to be fired, unless its firing failed. */
  predicate Sent(st: State, claimed: seq<Id>, fails: seq<bool>, n: nat)
    requires n <= |claimed| == |fails|
  {
    forall k :: 0 <= k < n && !fails[k] && claimed[k] in st.reminders ==>
      !Fires(st, st.reminders[claimed[k]].user, claimed[k])
  }

  lemma {:induction false} ClaimSize(claimed: seq<Id>)
    ensures |Ids(claimed)| <= |claimed|
  {
    if claimed != [] {
      var n := |claimed| - 1;
      ClaimSize(claimed[..n]);
      assert Ids(claimed) == Ids(claimed[..n]) + {claimed[n]};
    }
  }

  lemma ClaimIsLegal(st: State, claimed: seq<Id>)
    requires |claimed| <= CLAIM_LIMIT && forall i :: 0 <= i < |claimed| ==> Claimable(st, claimed[i])
    ensures Legal(st, [DoClaim(Ids(claimed))]) && Run(st, [DoClaim(Ids(claimed))]) == Claim(st, Ids(claimed))
  {
    ClaimSize(claimed);
    RunAppend(st, [], DoClaim(Ids(claimed)));
    assert [] + [DoClaim(Ids(claimed))] == [DoClaim(Ids(claimed))];
  }

  lemma TurnEnabled(st: State, user: User, id: Id, targets: seq<Target>, fails: bool, until: Instant)
    requires until <= st.now + FAILURE_BACKOFF
    ensures Enabled(st, Turn(user, id, targets, fails, until))
  {
  }

  lemma Extended(start: State, run: seq<Action>, st: State, a: Action) returns (longer: seq<Action>)
    requires Legal(start, run) && st == Run(start, run) && Enabled(st, a)
    ensures Legal(start, longer) && Run(start, longer) == Apply(st, a)
  {
    longer := run + [a];
    RunAppend(start, run, a);
  }

  /** The job's own step leaves the other claimed reminders as they were, and its own sent or set aside. */
  lemma TurnKeepsOthers(st: State, user: User, id: Id, targets: seq<Target>, until: Instant,
                        claimed: seq<Id>, owners: seq<User>, fails: seq<bool>, i: nat)
    requires i < |claimed| == |fails| && Distinct(claimed) && AllOwned(st, claimed, owners) &&
        Sent(st, claimed, fails, i)
    requires id == claimed[i] && user == owners[i]
    ensures var st1 := Apply(st, Turn(user, id, targets, fails[i], until));
      AllOwned(st1, claimed, owners) && Sent(st1, claimed, fails, i + 1)
  {
    var st1 := Apply(st, Turn(user, id, targets, fails[i], until));
    UpcomingIsAhead(st.reminders[id], st.now);
    forall k | 0 <= k < |claimed| && k != i ensures st1.reminders[claimed[k]] == st.reminders[claimed[k]] {
      assert claimed[k] != claimed[i];
    }
  }
}
