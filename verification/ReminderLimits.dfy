/** States within reach in which an account has more reminders than its limits. */
module ReminderLimits {
  import opened Common
  import opened Calendar
  import opened Recurrence
  import opened Reminders
  import opened ReminderRuns

  /** The reminder for 1 has fired; those after it are armed for 100. Twenty are on each note. */
  function Row(id: Id): Reminder {
    if id == 0 then Reminder(0, 0, 1, None, Fired, Some(1), None)
    else Reminder(0, id / MAX_PER_NOTE, 100, None, Pending, None, None)
  }

  function NoteRow(n: NoteId): Note { Note(0, true) }

  function Notes(k: nat): map<NoteId, Note> { map n: nat | 0 <= n <= k :: NoteRow(n) }

  function Rows(k: nat): map<Id, Reminder> { map id: nat | 0 <= id < k :: Row(id) }

  /** An account with k reminders. */
  function Filled(k: nat): State
    requires k > 0
  {
    State(1, map[0 := true], Notes((k - 1) / MAX_PER_NOTE), Rows(k), [Notification(0, 0, 0, 1, 1, false)], [])
  }

  lemma {:induction false} RangeSize(ids: set<nat>, a: nat, b: nat)
    requires a <= b && forall id: nat :: id in ids <==> a <= id < b
    ensures |ids| == b - a
    decreases b - a
  {
    if a < b { RangeSize(ids - {b - 1}, a, b - 1); } else { assert ids == {}; }
  }

  /** How many reminders a note of the account has. */
  lemma FilledNote(k: nat, n: NoteId)
    requires k > 0
    ensures n * MAX_PER_NOTE <= k <= (n + 1) * MAX_PER_NOTE ==> |OnNote(Filled(k), 0, n)| == k - n * MAX_PER_NOTE
    ensures (n + 1) * MAX_PER_NOTE <= k ==> |OnNote(Filled(k), 0, n)| == MAX_PER_NOTE
  {
    var low, high := n * MAX_PER_NOTE, (n + 1) * MAX_PER_NOTE;
    if low <= k { RangeSize(OnNote(Filled(k), 0, n), low, Min(k, high)); }
  }

  lemma FilledArmed(k: nat)
    requires k > 0
    ensures |Armed(Filled(k), 0)| == k - 1
  {
    RangeSize(Armed(Filled(k), 0), 1, k);
  }

  // ---- a run that gets there ------------------------------------------------------------------

  predicate Reaches(run: seq<Action>, st: State) { Legal(Start(0), run) && Run(Start(0), run) == st }

  lemma OneStep(run: seq<Action>, st: State, a: Action, st1: State) returns (more: seq<Action>)
    requires Reaches(run, st) && Enabled(st, a) && Apply(st, a) == st1
    ensures Reaches(more, st1)
  {
    RunAppend(Start(0), run, a);
    more := run + [a];
  }

  lemma FirstCreated() returns (run: seq<Action>)
    ensures Reaches(run, State(0, map[0 := true], map[0 := Note(0, true)], map[0 := FirstRow], [], []))
  {
    var users, notes := map[0 := true], map[0 := Note(0, true)];
    assert Legal(Start(0), []);
    run := OneStep([], Start(0), SetUser(0, true), State(0, users, map[], map[], [], []));
    run := OneStep(run, State(0, users, map[], map[], [], []), AddNote(0, 0), State(0, users, notes, map[], [], []));
    var st := State(0, users, notes, map[], [], []);
    CreatesAt(st, 0, 0, 1);
    run := OneStep(run, st, DoCreate(0, 0, 0, 1, None), State(0, users, notes, map[0 := FirstRow], [], []));
  }

  const FirstRow := Reminder(0, 0, 1, None, Pending, None, None)

  lemma FirstFires() returns (run: seq<Action>)
    ensures Reaches(run, Filled(1))
  {
    run := FirstCreated();
    var st := State(0, map[0 := true], map[0 := Note(0, true)], map[0 := FirstRow], [], []);
    run := OneStep(run, st, Tick(1), st.(now := 1));
    FireStep(st.(now := 1));
    assert Notes(0) == map[0 := Note(0, true)] && Rows(1) == map[0 := Row(0)];
    run := OneStep(run, st.(now := 1), DoFire(0, 0, []), Filled(1));
  }

  lemma CreatesAt(st: State, id: Id, note: NoteId, due: Instant)
    requires st.now < due <= st.now + DAY && NoteOf(st, note, 0) && st.notes[note].active
    requires |OnNote(st, 0, note)| < MAX_PER_NOTE && |Armed(st, 0)| < MAX_PER_USER
    ensures Create(st, 0, id, note, due, None) ==
        Committed(SetRow(st, id, Reminder(0, note, due, None, Pending, None, None)))
  {
    AddYearsIsLater(st.now, 10);
  }

  /** One more reminder, on a new note when the last one has twenty. */
  lemma FillNext(run: seq<Action>, k: nat) returns (more: seq<Action>)
    requires 0 < k <= MAX_PER_USER && Reaches(run, Filled(k))
    ensures Reaches(more, Filled(k + 1))
  {
    var note := k / MAX_PER_NOTE;
    var st := Filled(k).(notes := Notes(note));
    more := run;
    if k % MAX_PER_NOTE == 0 {
      assert Notes(note) == Notes(note - 1)[note := Note(0, true)];
      more := OneStep(run, Filled(k), AddNote(0, note), st);
    }
    FillRow(k, st);
    more := OneStep(more, st, DoCreate(0, k, note, 100, None), Filled(k + 1));
  }

  lemma FillRow(k: nat, st: State)
    requires 0 < k <= MAX_PER_USER && st == Filled(k).(notes := Notes(k / MAX_PER_NOTE))
    ensures Enabled(st, DoCreate(0, k, k / MAX_PER_NOTE, 100, None))
    ensures Apply(st, DoCreate(0, k, k / MAX_PER_NOTE, 100, None)) == Filled(k + 1)
  {
    var note := k / MAX_PER_NOTE;
    FilledNote(k, note);
    FilledArmed(k);
    assert OnNote(st, 0, note) == OnNote(Filled(k), 0, note) && Armed(st, 0) == Armed(Filled(k), 0);
    CreatesAt(st, k, note, 100);
    assert Rows(k + 1) == Rows(k)[k := Row(k)];
  }

  /** Accounts with up to 501 reminders are within reach. */
  lemma {:induction false} Fills(k: nat) returns (run: seq<Action>)
    requires 0 < k <= MAX_PER_USER + 1
    ensures Reaches(run, Filled(k))
    decreases k
  {
    if k == 1 {
      run := FirstFires();
    } else {
      run := Fills(k - 1);
      run := FillNext(run, k - 1);
    }
  }

  // ---- past the limits ------------------------------------------------------------------------

  /** Twenty reminders on one note and one on another, and the two are merged. */
  lemma NoteLimitIsPassed() returns (run: seq<Action>)
    ensures Legal(Start(0), run) && |OnNote(Run(Start(0), run), 0, 0)| == MAX_PER_NOTE + 1
  {
    var before := Fills(MAX_PER_NOTE + 1);
    var st, a := Filled(MAX_PER_NOTE + 1), DoMerge(0, 0, 1);
    FilledNote(MAX_PER_NOTE + 1, 0);
    FilledNote(MAX_PER_NOTE + 1, 1);
    run := OneStep(before, st, a, Apply(st, a));
    MergedOnNote(st, 0, 0, 1, 0, 0);
  }

  /** Five hundred reminders are armed, and the one that has fired is snoozed. */
  lemma UserLimitIsPassed() returns (run: seq<Action>)
    ensures Legal(Start(0), run) && |Armed(Run(Start(0), run), 0)| == MAX_PER_USER + 1
  {
    var before := Fills(MAX_PER_USER + 1);
    var st, a := Filled(MAX_PER_USER + 1), DoSnooze(0, 0, 100);
    FilledArmed(MAX_PER_USER + 1);
    SnoozeStep(st, 0, 0, 100);
    run := OneStep(before, st, a, Apply(st, a));
    assert Armed(Apply(st, a), 0) == Armed(st, 0) + {0};
    OneMore(Armed(Apply(st, a), 0), Armed(st, 0), 0);
  }
}
