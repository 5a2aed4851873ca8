/** One user's change feed: numbered in commit order under the user lock, purged from the front, and
    drained in batches by the event streams. */
module ChangeFeed {
  import opened Common

  datatype Change = Change(entity: nat, delete: bool)

  /** A row of the changes table. */
  datatype Entry = Entry(seqNo: nat, change: Change)

  /** What a snapshot of the database shows: the rows that are kept, by number, and the counter. */
  datatype Feed = Feed(kept: seq<Entry>, cur: nat)

  /** The rows are the newest part of the history, numbered by their place in it. */
  ghost predicate Represents(feed: Feed, log: seq<Change>) {
    && feed.cur == |log|
    && |feed.kept| <= |log|
    && forall i :: 0 <= i < |feed.kept| ==> feed.kept[i] == EntryAt(log, |log| - |feed.kept| + i)
  }

  function EntryAt(log: seq<Change>, i: nat): Entry
    requires i < |log|
  {
    Entry(i + 1, log[i])
  }

  function Purged(feed: Feed, log: seq<Change>): int { |log| - |feed.kept| }

  // ---- writing --------------------------------------------------------------------------------

  function Numbered(changes: seq<Change>, first: nat): (rows: seq<Entry>)
    ensures |rows| == |changes|
  {
    seq(|changes|, i requires 0 <= i < |changes| => Entry(first + i + 1, changes[i]))
  }

  function Committed(feed: Feed, changes: seq<Change>): Feed {
    Feed(feed.kept + Numbered(changes, feed.cur), feed.cur + |changes|)
  }

  /** Committing appends to the history without a gap. */
  lemma CommitExtendsHistory(feed: Feed, log: seq<Change>, changes: seq<Change>)
    requires Represents(feed, log)
    ensures Represents(Committed(feed, changes), log + changes)
  {
    var log', feed' := log + changes, Committed(feed, changes);
    forall i | 0 <= i < |feed'.kept| ensures feed'.kept[i] == EntryAt(log', |log'| - |feed'.kept| + i) {
      if i < |feed.kept| { assert feed'.kept[i] == feed.kept[i]; }
    }
  }

  function PurgeOldest(feed: Feed, n: nat): Feed
    requires n <= |feed.kept|
  {
    feed.(kept := feed.kept[n..])
  }

  /** The usage limits of the store; 0 means no limit. */
  datatype Limits = Limits(maxNotes: nat, maxText: nat)

  datatype Usage = Usage(notes: nat, text: nat)

  datatype TxResult = Done | Failed | LimitNotes | LimitText

  /** Limits are enforced against growth only. */
  function LimitCheck(l: Limits, before: Usage, after: Usage): TxResult {
    if l.maxNotes > 0 && after.notes > l.maxNotes && after.notes > before.notes then LimitNotes
    else if l.maxText > 0 && after.text > l.maxText && after.text > before.text then LimitText
    else Done
  }

  /** A limited quantity may stay over its limit, but not grow there. */
  predicate Allowed(max: nat, before: nat, after: nat) { max == 0 || after <= max || after <= before }

  /** The usage after a run of transactions that would leave these usages. */
  function UsageAfter(l: Limits, start: Usage, wanted: seq<Usage>): Usage
    decreases |wanted|
  {
    if wanted == [] then start
    else
      var before, after := UsageAfter(l, start, wanted[..|wanted| - 1]), wanted[|wanted| - 1];
      if LimitCheck(l, before, after) == Done then after else before
  }

  /** Over every run the usage stays within the limits, or below what it was when they were lowered. */
  lemma {:induction false} UsageStaysWithin(l: Limits, start: Usage, wanted: seq<Usage>)
    ensures var used := UsageAfter(l, start, wanted);
      && (l.maxNotes > 0 ==> used.notes <= l.maxNotes || used.notes <= start.notes)
      && (l.maxText > 0 ==> used.text <= l.maxText || used.text <= start.text)
    decreases |wanted|
  {
    if wanted != [] { UsageStaysWithin(l, start, wanted[..|wanted| - 1]); }
  }

  /** A transaction acting for one user; it holds the lock on the user's row until it ends. */
  class UserTx {
    var counter: nat         // users.change_seq as this transaction sees it
    var rows: seq<Entry>     // the rows it has inserted
    var lastSeq: nat

    constructor (counter: nat)
      ensures this.counter == counter && rows == [] && lastSeq == 0
    {
      this.counter := counter;
      rows := [];
      lastSeq := 0;
    }

    method RecordChange(c: Change)
      modifies this
      ensures counter == old(counter) + 1 && lastSeq == counter
      ensures rows == old(rows) + [Entry(counter, c)]
    {
      counter := counter + 1;
      lastSeq := counter;
      rows := rows + [Entry(counter, c)];
    }
  }

  class Store {
    var feed: Feed
    var usage: Usage
    const limits: Limits
    var notified: seq<nat>    // the payloads announced on commit
    ghost var log: seq<Change>

    ghost predicate Valid() reads this { Represents(feed, log) }

    constructor (limits: Limits)
      ensures Valid() && feed == Feed([], 0) && log == [] && notified == []
    {
      this.limits := limits;
      feed := Feed([], 0);
      usage := Usage(0, 0);
      notified := [];
      log := [];
    }

    /** Runs the work of one transaction: the changes it records, whether it fails, and the usage it
        leaves. Everything commits together, with one announcement, or nothing does. */
    method InUserTx(work: seq<Change>, fails: bool, after: Usage) returns (r: TxResult)
      requires Valid()
      modifies this
      ensures Valid()
      ensures r == Failed <==> fails
      ensures !fails ==>
                && (r == LimitNotes <==> !Allowed(limits.maxNotes, old(usage).notes, after.notes))
                && (r == LimitText <==>
                      Allowed(limits.maxNotes, old(usage).notes, after.notes) &&
                      !Allowed(limits.maxText, old(usage).text, after.text))
      ensures r == Done ==>
                && feed == Committed(old(feed), work) && log == old(log) + work && usage == after
                && notified == old(notified) + (if work != [] then [feed.cur] else [])
      ensures r != Done ==>
                feed == old(feed) && log == old(log) && usage == old(usage) && notified == old(notified)
    {
      var tx := new UserTx(feed.cur);
      var i := 0;
      while i < |work|
        modifies tx
        invariant 0 <= i <= |work|
        invariant tx.counter == feed.cur + i
        invariant tx.rows == Numbered(work[..i], feed.cur)
        invariant tx.lastSeq == if i == 0 then 0 else tx.counter
      {
        assert work[..i + 1] == work[..i] + [work[i]];
        tx.RecordChange(work[i]);
        i := i + 1;
      }
      assert work[..|work|] == work;
      if fails {
        return Failed;
      }
      r := LimitCheck(limits, usage, after);
      if r != Done {
        return;
      }
      if tx.lastSeq > 0 {
        notified := notified + [tx.lastSeq];
      }
      CommitExtendsHistory(feed, log, work);
      feed := Feed(feed.kept + tx.rows, tx.counter);
      usage := after;
      log := log + work;
    }
  }

  // ---- reading --------------------------------------------------------------------------------

  const BATCH: nat := 200

  function Oldest(feed: Feed): nat { if feed.kept == [] then 0 else feed.kept[0].seqNo }

  function RowsAfter(kept: seq<Entry>, last: nat): seq<Entry> {
    if kept == [] then []
    else (if kept[0].seqNo > last then [kept[0]] else []) + RowsAfter(kept[1..], last)
  }

  function Take(rows: seq<Entry>, n: nat): seq<Entry> { if |rows| <= n then rows else rows[..n] }

  function ListChanges(feed: Feed, last: nat): seq<Entry> { Take(RowsAfter(feed.kept, last), BATCH) }

  predicate ChangesLost(last: nat, oldest: nat, cur: nat) {
    last > cur || (last < cur && (oldest == 0 || oldest > last + 1))
  }

  /** Something the client has not seen is no longer kept, or it has seen more than there is. */
  ghost predicate Missed(kept: set<nat>, last: nat, cur: nat) {
    last > cur || exists n :: last < n <= cur && n !in kept
  }

  /** A set of kept numbers from which nothing was removed behind its oldest. */
  ghost predicate SuffixKept(kept: set<nat>, cur: nat) {
    forall m, n :: m in kept && m < n <= cur ==> n in kept
  }

  ghost predicate IsOldest(kept: set<nat>, oldest: nat) {
    if kept == {} then oldest == 0 else oldest in kept && forall n :: n in kept ==> oldest <= n
  }

  /** The test is exact for every client exactly when purging has only ever removed the oldest rows. */
  lemma ChangesLostExact(kept: set<nat>, oldest: nat, cur: nat)
    requires forall n :: n in kept ==> 1 <= n <= cur
    requires IsOldest(kept, oldest)
    ensures (forall last: nat :: ChangesLost(last, oldest, cur) <==> Missed(kept, last, cur)) <==> SuffixKept(kept, cur)
  {
    if SuffixKept(kept, cur) {
      forall last: nat ensures ChangesLost(last, oldest, cur) <==> Missed(kept, last, cur) {
        if last < cur {
          if oldest == 0 || oldest > last + 1 { assert last + 1 !in kept; }
        }
      }
    } else {
      var m, n :| m in kept && m < n <= cur && n !in kept;
      assert !ChangesLost(oldest - 1, oldest, cur);
      assert Missed(kept, oldest - 1, cur);
    }
  }

  function KeptNumbers(feed: Feed): set<nat> { set i | 0 <= i < |feed.kept| :: feed.kept[i].seqNo }

  /** For a feed from which only the oldest rows were purged the test is exact. */
  lemma FeedIsExact(feed: Feed, log: seq<Change>, last: nat)
    requires Represents(feed, log)
    ensures ChangesLost(last, Oldest(feed), feed.cur) <==> Missed(KeptNumbers(feed), last, feed.cur)
  {
    var kept, purged := KeptNumbers(feed), |log| - |feed.kept|;
    forall n: nat ensures n in kept <==> purged < n <= feed.cur {
      if purged < n <= feed.cur { assert feed.kept[n - 1 - purged].seqNo == n; }
    }
    if feed.kept == [] { assert kept == {}; } else { assert feed.kept[0].seqNo == purged + 1 && purged + 1 in kept; }
    ChangesLostExact(kept, Oldest(feed), feed.cur);
  }

  // ---- purging by stamp -----------------------------------------------------------------------

  /** The numbers left after purging by stamp; a row is stamped with the start of its transaction, which
      is before the user lock that gives it its number. */
  function KeptAt(stamps: seq<Instant>, cutoff: Instant): set<nat> {
    set n: nat | n <= |stamps| && IsLeft(stamps, cutoff, n)
  }

  predicate IsLeft(stamps: seq<Instant>, cutoff: Instant, n: nat) { 1 <= n <= |stamps| && stamps[n - 1] >= cutoff }

  ghost predicate NeverFall(stamps: seq<Instant>) {
    forall m, n :: 0 <= m < n < |stamps| ==> stamps[m] <= stamps[n]
  }

  /** The test is exact for every client after purging at the cutoff. */
  ghost predicate ExactAt(stamps: seq<Instant>, cutoff: Instant) {
    forall oldest, last: nat :: IsOldest(KeptAt(stamps, cutoff), oldest) ==>
      (ChangesLost(last, oldest, |stamps|) <==> Missed(KeptAt(stamps, cutoff), last, |stamps|))
  }

  lemma {:induction false} OldestExists(kept: set<nat>) returns (oldest: nat)
    requires 0 !in kept
    ensures IsOldest(kept, oldest)
  {
    oldest := 0;
    if kept != {} {
      var n :| n in kept;
      var rest := OldestExists(kept - {n});
      oldest := if rest == 0 || n < rest then n else rest;
      forall m | m in kept ensures oldest <= m { assert m == n || m in kept - {n}; }
    }
  }

  lemma ExactIfSuffix(stamps: seq<Instant>, cutoff: Instant)
    ensures ExactAt(stamps, cutoff) <==> SuffixKept(KeptAt(stamps, cutoff), |stamps|)
  {
    var kept := KeptAt(stamps, cutoff);
    var oldest := OldestExists(kept);
    ChangesLostExact(kept, oldest, |stamps|);
    if SuffixKept(kept, |stamps|) {
      forall o, last: nat | IsOldest(kept, o)
        ensures ChangesLost(last, o, |stamps|) <==> Missed(kept, last, |stamps|)
      {
        ChangesLostExact(kept, o, |stamps|);
      }
    }
  }

  /** At every cutoff purging leaves the test exact, exactly if the stamps do not fall with the numbers: no
      transaction began before one that took the lock ahead of it. */
  lemma PurgingIsSafeExactly(stamps: seq<Instant>)
    ensures (forall cutoff :: ExactAt(stamps, cutoff)) <==> NeverFall(stamps)
  {
    if NeverFall(stamps) {
      forall cutoff ensures ExactAt(stamps, cutoff) { ExactIfSuffix(stamps, cutoff); }
    } else {
      var m, n :| 0 <= m < n < |stamps| && stamps[m] > stamps[n];
      ExactIfSuffix(stamps, stamps[m]);
      assert m + 1 in KeptAt(stamps, stamps[m]) && n + 1 !in KeptAt(stamps, stamps[m]);
      assert !ExactAt(stamps, stamps[m]);
    }
  }

  /** Of two transactions the one that began later took the lock first: after a purge between their stamps a
      client that has seen the first change is not told that it missed the second. */
  lemma OverlapIsMissed()
    ensures KeptAt([20, 10], 15) == {1} && IsOldest({1}, 1)
    ensures Missed({1}, 1, 2) && !ChangesLost(1, 1, 2)
  {
    assert 2 !in KeptAt([20, 10], 15);
  }

  /** The rows after last are the next ones of the history, when nothing after last was purged. */
  lemma {:induction false} RowsAreNext(kept: seq<Entry>, log: seq<Change>, last: nat)
    requires |kept| <= |log| && forall i :: 0 <= i < |kept| ==> kept[i] == EntryAt(log, |log| - |kept| + i)
    requires last <= |log|
    ensures RowsAfter(kept, last) == if last <= |log| - |kept| then kept else kept[last - (|log| - |kept|)..]
  {
    if kept != [] {
      assert kept[0] == EntryAt(log, |log| - |kept|);
      var tail := kept[1..];
      forall i | 0 <= i < |tail| ensures tail[i] == EntryAt(log, |log| - |tail| + i) {
        assert tail[i] == kept[i + 1];
      }
      RowsAreNext(tail, log, last);
    }
  }

  // ---- what a stream has told its client ------------------------------------------------------

  datatype Event = Hello(at: nat) | Resync(at: nat) | Told(entry: Entry)

  /** The place in the history a client is at after one more event; None when it cannot follow. */
  function Follow(log: seq<Change>, at: Option<nat>, e: Event): Option<nat> {
    match e
    case Hello(n) => Some(n)
    case Resync(n) => Some(n)
    case Told(entry) =>
      if at.Some? && at.value < |log| && entry == EntryAt(log, at.value) then Some(at.value + 1) else None
  }

  /** Starting after `start`, every event of the list tells the client the very next change (or says
      hello or resync), and it ends after `last`. */
  ghost predicate Faithful(log: seq<Change>, start: Option<nat>, events: seq<Event>, last: nat) {
    Replay(log, start, events) == Some(last)
  }

  function Replay(log: seq<Change>, start: Option<nat>, events: seq<Event>): Option<nat> {
    if events == [] then start
    else Follow(log, Replay(log, start, events[..|events| - 1]), events[|events| - 1])
  }

  lemma ReplaySnoc(log: seq<Change>, start: Option<nat>, events: seq<Event>, e: Event)
    ensures Replay(log, start, events + [e]) == Follow(log, Replay(log, start, events), e)
  {
    assert (events + [e])[..|events|] == events;
  }

  /** What was faithful stays so while the history grows. */
  lemma {:induction false} FaithfulGrows(log: seq<Change>, more: seq<Change>, start: Option<nat>, events: seq<Event>,
      last: nat)
    requires Faithful(log, start, events, last)
    ensures Faithful(log + more, start, events, last)
  {
    if events != [] {
      var before := events[..|events| - 1];
      match events[|events| - 1]
      case Hello(n) =>
      case Resync(n) =>
      case Told(entry) =>
        var at := Replay(log, start, before).value;
        FaithfulGrows(log, more, start, before, at);
        assert EntryAt(log + more, at) == EntryAt(log, at);
    }
  }

  /** Without a resync a faithful stream has told exactly the changes after its start, each once and in order. */
  lemma {:induction false} ToldExactlyOnce(log: seq<Change>, start: nat, events: seq<Event>, last: nat)
    requires Faithful(log, Some(start), events, last)
    requires forall i :: 0 <= i < |events| ==> events[i].Told?
    ensures start <= last && |events| == last - start && (events != [] ==> last <= |log|)
    ensures forall i :: 0 <= i < |events| ==> start + i < |log| && events[i] == Told(EntryAt(log, start + i))
  {
    if events != [] {
      var before := events[..|events| - 1];
      assert events[|events| - 1].Told?;
      var at := Replay(log, Some(start), before).value;
      ToldExactlyOnce(log, start, before, at);
      forall i | 0 <= i < |events| - 1 ensures events[i] == Told(EntryAt(log, start + i)) {
        assert before[i] == events[i];
      }
    }
  }

  // ---- the drain loop -------------------------------------------------------------------------

  /** The snapshots a drain can see: of one history that only grows. */
  ghost predicate Growing(feeds: seq<Feed>, logs: seq<seq<Change>>) {
    && |feeds| == |logs|
    && (forall i :: 0 <= i < |feeds| ==> Represents(feeds[i], logs[i]))
    && (forall i, j :: 0 <= i <= j < |logs| ==> logs[i] <= logs[j])
  }

  /** One live stream: the number of the last change it wrote, and everything it wrote. */
  class EventStream {
    var last: nat
    var out: seq<Event>

    constructor (last: nat)
      ensures this.last == last && out == []
    {
      this.last := last;
      out := [];
    }

    method Write(e: Event, at: nat)
      modifies this
      ensures out == old(out) + [e] && last == at
    {
      out := out + [e];
      last := at;
    }

    /** Writes the rows of one snapshot. */
    method WriteRows(rows: seq<Entry>, ghost log: seq<Change>, ghost start: Option<nat>)
      requires Faithful(log, start, out, last) && last + |rows| <= |log|
      requires forall i :: 0 <= i < |rows| ==> rows[i] == EntryAt(log, last + i)
      modifies this
      ensures Faithful(log, start, out, last) && last == old(last) + |rows|
      ensures Wrote(old(out), out, log, old(last), |rows|)
    {
      var i := 0;
      while i < |rows|
        invariant 0 <= i <= |rows| && last == old(last) + i
        invariant Faithful(log, start, out, last)
        invariant Wrote(old(out), out, log, old(last), i)
      {
        ReplaySnoc(log, start, out, Told(rows[i]));
        Write(Told(rows[i]), rows[i].seqNo);
        i := i + 1;
      }
    }

    /** Writes what one read of the database shows: a resync exactly if something after the last change was
        lost, else the next changes, a batch at most. It is the last read if that is everything. */
    method WriteBatch(feed: Feed, ghost shown: seq<Change>, ghost log: seq<Change>, ghost start: Option<nat>)
      returns (done: bool)
      requires Represents(feed, shown) && shown <= log && Faithful(log, start, out, last)
      modifies this
      ensures Faithful(log, start, out, last)
      ensures Missed(KeptNumbers(feed), old(last), feed.cur) ==>
                done && out == old(out) + [Resync(feed.cur)] && last == feed.cur
      ensures !Missed(KeptNumbers(feed), old(last), feed.cur) ==>
                && (done <==> feed.cur < old(last) + BATCH) && last == (if done then feed.cur else old(last) + BATCH)
                && old(last) <= last && Wrote(old(out), out, log, old(last), last - old(last))
    {
      FeedIsExact(feed, shown, last);
      if ChangesLost(last, Oldest(feed), feed.cur) {
        ReplaySnoc(log, start, out, Resync(feed.cur));
        Write(Resync(feed.cur), feed.cur);
        return true;
      }
      var rows := ListChanges(feed, last);
      RowsOfSnapshot(feed, shown, last);
      forall i | 0 <= i < |rows| ensures rows[i] == EntryAt(log, last + i) {
        assert rows[i] == EntryAt(shown, last + i);
      }
      WriteRows(rows, log, start);
      return |rows| < BATCH;
    }

    /** Catches up from the feed. The i-th read of the database shows feeds[i]; running out of them
        stands for a failed read. When it succeeds the client is where the last snapshot was. Each read but
        the last shows a full batch, and the client is told exactly the changes from where it was; a resync
        is written exactly if the last read shows that something after them was lost. */
    method Drain(feeds: seq<Feed>, ghost logs: seq<seq<Change>>, ghost start: Option<nat>) returns (ok: bool, used: nat)
      requires Growing(feeds, logs) && feeds != []
      requires Faithful(logs[0], start, out, last)
      modifies this
      ensures used <= |feeds| && (ok ==> used > 0) && (!ok ==> used == |feeds|)
      ensures Faithful(logs[|logs| - 1], start, out, last)
      ensures last == if ok then feeds[used - 1].cur else old(last) + used * BATCH
      ensures if ok then FullBatches(feeds, used - 1, old(last)) else FullBatches(feeds, used, old(last))
      ensures !ok ==> Wrote(old(out), out, logs[|logs| - 1], old(last), used * BATCH)
      ensures ok ==> Ends(feeds[used - 1], logs[|logs| - 1], old(last), (used - 1) * BATCH, old(out), out)
    {
      ghost var log := logs[|logs| - 1];
      PrefixGrows(logs[0], log, start, out, last);
      used := 0;
      while used < |feeds|
        invariant used <= |feeds| && last == old(last) + used * BATCH
        invariant Faithful(log, start, out, last) && Wrote(old(out), out, log, old(last), used * BATCH)
        invariant FullBatches(feeds, used, old(last))
      {
        ghost var was, told := out, used * BATCH;
        var done := WriteBatch(feeds[used], logs[used], log, start);
        used := used + 1;
        if done {
          EndsSoon(feeds[used - 1], log, old(last), told, old(out), was, out);
          return true, used;
        }
        WroteMore(old(out), was, out, log, old(last), told, BATCH);
        FullBatchesNext(feeds, used - 1, old(last));
      }
      return false, used;
    }
  }

  lemma PrefixGrows(log: seq<Change>, longer: seq<Change>, start: Option<nat>, events: seq<Event>, last: nat)
    requires log <= longer && Faithful(log, start, events, last)
    ensures Faithful(longer, start, events, last)
  {
    FaithfulGrows(log, longer[|log|..], start, events, last);
    assert log + longer[|log|..] == longer;
  }

  /** The output went on by exactly the n changes of the history after `last`. */
  ghost predicate Wrote(was: seq<Event>, out: seq<Event>, log: seq<Change>, last: nat, n: nat) {
    && |out| == |was| + n && was <= out
    && (n > 0 ==> last + n <= |log|)
    && forall i :: |was| <= i < |out| ==> out[i] == Told(EntryAt(log, last + i - |was|))
  }

  /** The snapshot shows at least a batch of changes after `last`, and all of them are kept. */
  ghost predicate FullBatch(feed: Feed, last: nat) {
    feed.cur >= last + BATCH && !Missed(KeptNumbers(feed), last, feed.cur)
  }

  ghost predicate FullBatches(feeds: seq<Feed>, n: int, last: nat)
    requires n <= |feeds|
  {
    forall i :: 0 <= i < n ==> FullBatch(feeds[i], last + i * BATCH)
  }

  /** How a drain ends that has told `told` changes before its last read: with a resync exactly if something
      after them was lost, else with the remaining changes, fewer than a batch. */
  ghost predicate Ends(feed: Feed, log: seq<Change>, last: nat, told: nat, was: seq<Event>, out: seq<Event>) {
    if Missed(KeptNumbers(feed), last + told, feed.cur)
    then out != [] && out[|out| - 1] == Resync(feed.cur) && Wrote(was, out[..|out| - 1], log, last, told)
    else 0 <= feed.cur - (last + told) < BATCH && Wrote(was, out, log, last, feed.cur - last)
  }

  lemma EndsSoon(feed: Feed, log: seq<Change>, last: nat, told: nat, was: seq<Event>, before: seq<Event>,
      out: seq<Event>)
    requires Wrote(was, before, log, last, told)
    requires Missed(KeptNumbers(feed), last + told, feed.cur) ==> out == before + [Resync(feed.cur)]
    requires !Missed(KeptNumbers(feed), last + told, feed.cur) ==>
      0 <= feed.cur - (last + told) < BATCH && Wrote(before, out, log, last + told, feed.cur - (last + told))
    ensures Ends(feed, log, last, told, was, out)
  {
    if Missed(KeptNumbers(feed), last + told, feed.cur) {
      assert out[..|out| - 1] == before;
    } else {
      WroteMore(was, before, out, log, last, told, feed.cur - (last + told));
    }
  }

  lemma FullBatchesNext(feeds: seq<Feed>, n: nat, last: nat)
    requires n < |feeds| && FullBatches(feeds, n, last) && FullBatch(feeds[n], last + n * BATCH)
    ensures FullBatches(feeds, n + 1, last)
  {
  }

  lemma WroteMore(was: seq<Event>, mid: seq<Event>, out: seq<Event>, log: seq<Change>, last: nat, m: nat, n: nat)
    requires Wrote(was, mid, log, last, m) && Wrote(mid, out, log, last + m, n)
    ensures Wrote(was, out, log, last, m + n)
  {
    forall i | |was| <= i < |out| ensures out[i] == Told(EntryAt(log, last + i - |was|)) {
      if i < |mid| { assert out[i] == mid[i]; }
    }
  }

  /** A drain that at none of its reads finds a loss after the place it started from, tells exactly the
      changes from there to the last snapshot, and no resync. */
  lemma DrainTells(feeds: seq<Feed>, logs: seq<seq<Change>>, used: nat, last: nat, was: seq<Event>, out: seq<Event>)
    requires Growing(feeds, logs) && 0 < used <= |feeds| && FullBatches(feeds, used - 1, last)
    requires Ends(feeds[used - 1], logs[|logs| - 1], last, (used - 1) * BATCH, was, out)
    requires !Missed(KeptNumbers(feeds[used - 1]), last, feeds[used - 1].cur)
    ensures last <= feeds[used - 1].cur
    ensures Wrote(was, out, logs[|logs| - 1], last, feeds[used - 1].cur - last)
  {
    var at, feed := last + (used - 1) * BATCH, feeds[used - 1];
    if used > 1 { assert FullBatch(feeds[used - 2], last + (used - 2) * BATCH) && logs[used - 2] <= logs[used - 1]; }
    assert at <= feed.cur;
    forall n | at < n <= feed.cur ensures n in KeptNumbers(feed) { assert last < n; }
  }

  /** When nothing was lost, a batch is the next piece of the history; a short batch reaches its end. */
  lemma RowsOfSnapshot(feed: Feed, log: seq<Change>, last: nat)
    requires Represents(feed, log) && !ChangesLost(last, Oldest(feed), feed.cur)
    ensures var rows := ListChanges(feed, last);
            && last + |rows| <= |log| && |rows| <= BATCH
            && (forall i :: 0 <= i < |rows| ==> rows[i] == EntryAt(log, last + i))
            && (|rows| < BATCH ==> last + |rows| == feed.cur)
  {
    var p := Purged(feed, log);
    RowsAreNext(feed.kept, log, last);
    if last < |log| { assert feed.kept[0] == EntryAt(log, p); }
    var all := RowsAfter(feed.kept, last);
    forall i | 0 <= i < |all| ensures all[i] == EntryAt(log, last + i) {
      assert all[i] == feed.kept[last - p + i];
    }
  }
}
