/** Streams, listeners and writers running together: every interleaving of locked user transactions,
    purges, lost connections, wake-ups and draining handlers, on any number of replicas. */
module Wakeups {
  import opened Common
  import opened ChangeFeed

  type User = nat
  type Replica = nat
  type StreamId = nat

  /** One user's rows. The history is never read by the system; it is what the feed is about. */
  datatype Account = Account(feed: Feed, log: seq<Change>, tx: Option<seq<Change>>)

  /** A replica's LISTEN connection. Notifications queue up from the moment it listens; it has caught
      up once it has woken every stream after connecting. */
  datatype Listener = Down | Up(caughtUp: bool, queue: seq<User>)

  /** What a handler does next. */
  datatype Phase =
    | Greeting                               // will read the counter and say hello
    | Reading                                // will take a snapshot
    | Writing(rows: seq<Entry>, full: bool)  // has rows of a snapshot to write
    | Giving(cur: nat)                       // has a resync to write
    | Waiting                                // is blocked in select
    | Ended

  datatype Stream = Stream(user: User, home: Replica, start: Option<nat>, last: nat, wake: bool, phase: Phase,
      events: seq<Event>)

  datatype State = State(users: map<User, Account>, hubs: map<Replica, Listener>, streams: map<StreamId, Stream>)

  datatype Action =
    | Lock(u: User)
    | Stage(u: User, c: Change)
    | Commit(u: User)
    | Rollback(u: User)
    | Purge(u: User, n: nat)
    | Connect(r: Replica)
    | WakeAll(r: Replica)
    | Receive(r: Replica)
    | Drop(r: Replica)
    | Subscribe(s: StreamId, u: User, r: Replica, lastEventId: Option<nat>)
    | Greet(s: StreamId)
    | Read(s: StreamId)
    | Write(s: StreamId)
    | TakeWake(s: StreamId)
    | SafetyTick(s: StreamId)
    | End(s: StreamId)

  // ---- steps ----------------------------------------------------------------------------------

  predicate Enabled(st: State, a: Action) {
    match a
    case Lock(u) => u in st.users && st.users[u].tx.None?
    case Stage(u, _) => u in st.users && st.users[u].tx.Some?
    case Commit(u) => u in st.users && st.users[u].tx.Some?
    case Rollback(u) => u in st.users && st.users[u].tx.Some?
    case Purge(u, n) => u in st.users && st.users[u].tx.None? && n <= |st.users[u].feed.kept|
    case Connect(r) => r in st.hubs && st.hubs[r].Down?
    case WakeAll(r) => r in st.hubs && st.hubs[r].Up? && !st.hubs[r].caughtUp
    case Receive(r) => r in st.hubs && st.hubs[r].Up? && st.hubs[r].caughtUp && st.hubs[r].queue != []
    case Drop(r) => r in st.hubs
    case Subscribe(s, u, r, _) => s !in st.streams && u in st.users && r in st.hubs
    case Greet(s) => s in st.streams && st.streams[s].user in st.users && st.streams[s].phase.Greeting?
    case Read(s) => s in st.streams && st.streams[s].user in st.users && st.streams[s].phase.Reading?
    case Write(s) => s in st.streams && (st.streams[s].phase.Writing? || st.streams[s].phase.Giving?)
    case TakeWake(s) => s in st.streams && st.streams[s].phase.Waiting? && st.streams[s].wake
    case SafetyTick(s) => s in st.streams && st.streams[s].phase.Waiting?
    case End(s) => s in st.streams
  }

  function Announced(l: Listener, u: User): Listener {
    if l.Up? then l.(queue := l.queue + [u]) else l
  }

  function Woken(streams: map<StreamId, Stream>, r: Replica, all: bool, u: User): map<StreamId, Stream> {
    map s | s in streams ::
      if streams[s].home == r && (all || streams[s].user == u) then streams[s].(wake := true) else streams[s]
  }

  /** The first thing a handler does with a snapshot. */
  function AfterRead(s: Stream, feed: Feed): Phase {
    if ChangesLost(s.last, Oldest(feed), feed.cur) then Giving(feed.cur)
    else var rows := ListChanges(feed, s.last); Writing(rows, |rows| >= BATCH)
  }

  function AfterWrite(s: Stream): Stream
    requires s.phase.Writing? || s.phase.Giving?
  {
    match s.phase
    case Giving(cur) => s.(events := s.events + [Resync(cur)], last := cur, phase := Waiting)
    case Writing(rows, full) =>
      if rows == [] then s.(phase := if full then Reading else Waiting)
      else s.(events := s.events + [Told(rows[0])], last := rows[0].seqNo, phase := Writing(rows[1..], full))
  }

  function Apply(st: State, a: Action): State
    requires Enabled(st, a)
  {
    match a
    case Lock(u) => st.(users := st.users[u := st.users[u].(tx := Some([]))])
    case Stage(u, c) => st.(users := st.users[u := st.users[u].(tx := Some(st.users[u].tx.value + [c]))])
    case Commit(u) =>
      var acc, work := st.users[u], st.users[u].tx.value;
      State(st.users[u := Account(Committed(acc.feed, work), acc.log + work, None)],
            if work == [] then st.hubs else map r | r in st.hubs :: Announced(st.hubs[r], u),
            st.streams)
    case Rollback(u) => st.(users := st.users[u := st.users[u].(tx := None)])
    case Purge(u, n) => st.(users := st.users[u := st.users[u].(feed := PurgeOldest(st.users[u].feed, n))])
    case Connect(r) => st.(hubs := st.hubs[r := Up(false, [])])
    case WakeAll(r) =>
      st.(hubs := st.hubs[r := st.hubs[r].(caughtUp := true)], streams := Woken(st.streams, r, true, 0))
    case Receive(r) =>
      st.(hubs := st.hubs[r := st.hubs[r].(queue := st.hubs[r].queue[1..])],
          streams := Woken(st.streams, r, false, st.hubs[r].queue[0]))
    case Drop(r) => st.(hubs := st.hubs[r := Down])
    case Subscribe(s, u, r, from) =>
      st.(streams := st.streams[s := Stream(u, r, from, if from.Some? then from.value else 0, false,
                                            if from.Some? then Reading else Greeting, [])])
    case Greet(s) =>
      var cur := st.users[st.streams[s].user].feed.cur;
      st.(streams := st.streams[s :=
          st.streams[s].(events := st.streams[s].events + [Hello(cur)], last := cur, phase := Reading)])
    case Read(s) =>
      st.(streams := st.streams[s :=
          st.streams[s].(phase := AfterRead(st.streams[s], st.users[st.streams[s].user].feed))])
    case Write(s) => st.(streams := st.streams[s := AfterWrite(st.streams[s])])
    case TakeWake(s) => st.(streams := st.streams[s := st.streams[s].(wake := false, phase := Reading)])
    case SafetyTick(s) => st.(streams := st.streams[s := st.streams[s].(phase := Reading)])
    case End(s) => st.(streams := st.streams[s := st.streams[s].(phase := Ended)])
  }

  // ---- what every step keeps ------------------------------------------------------------------

  /** A wake-up is on its way: a token, a queued notification, or a listener that will wake everybody
      once it is connected. */
  predicate Signalled(l: Listener, s: Stream) {
    s.wake || l.Down? || !l.caughtUp || s.user in l.queue
  }

  /** How far the client will have been told once the handler has written what it has in hand. */
  function Reach(s: Stream): nat {
    match s.phase
    case Writing(rows, _) => s.last + |rows|
    case Giving(cur) => cur
    case _ => s.last
  }

  /** The handler will block before it takes another snapshot. */
  predicate WillBlock(s: Stream) {
    s.phase.Waiting? || s.phase.Giving? || (s.phase.Writing? && !s.phase.full)
  }

  /** A fresh connection that has not been told anything. */
  predicate Unstarted(s: Stream) { s.start.None? && s.events == [] }

  ghost predicate StreamOk(log: seq<Change>, l: Listener, s: Stream) {
    && (!s.phase.Greeting? && !s.phase.Ended? ==> Faithful(log, s.start, s.events, s.last))
    && (s.phase.Greeting? ==> Unstarted(s))
    && (s.phase.Ended? ==> Unstarted(s) || Faithful(log, s.start, s.events, s.last))
    && (s.phase.Writing? ==>
          && s.last + |s.phase.rows| <= |log|
          && forall i :: 0 <= i < |s.phase.rows| ==> s.phase.rows[i] == EntryAt(log, s.last + i))
    && (WillBlock(s) ==> Reach(s) <= |log| && (Reach(s) < |log| ==> Signalled(l, s)))
  }

  ghost predicate Inv(st: State) {
    && (forall u :: u in st.users ==> Represents(st.users[u].feed, st.users[u].log))
    && (forall s :: s in st.streams ==>
          && st.streams[s].user in st.users
          && st.streams[s].home in st.hubs
          && StreamOk(st.users[st.streams[s].user].log, st.hubs[st.streams[s].home], st.streams[s]))
  }

  /** A longer history is fine for a stream as long as the news of it is on its way. */
  lemma StreamOkGrows(log: seq<Change>, more: seq<Change>, l: Listener, s: Stream)
    requires StreamOk(log, l, s)
    ensures more == [] ==> StreamOk(log + more, l, s)
    ensures StreamOk(log + more, Announced(l, s.user), s)
  {
    if Faithful(log, s.start, s.events, s.last) { FaithfulGrows(log, more, s.start, s.events, s.last); }
    if s.phase.Writing? {
      forall i | 0 <= i < |s.phase.rows| ensures s.phase.rows[i] == EntryAt(log + more, s.last + i) {
        assert s.phase.rows[i] == EntryAt(log, s.last + i);
      }
    }
    if l.Up? { assert s.user in Announced(l, s.user).queue; }
  }

  lemma CommitKeepsInv(st: State, u: User)
    requires Inv(st) && Enabled(st, Commit(u))
    ensures Inv(Apply(st, Commit(u)))
  {
    var acc, work, st' := st.users[u], st.users[u].tx.value, Apply(st, Commit(u));
    CommitExtendsHistory(acc.feed, acc.log, work);
    forall s | s in st.streams
      ensures StreamOk(st'.users[st.streams[s].user].log, st'.hubs[st.streams[s].home], st.streams[s])
    {
      var str, l := st.streams[s], st.hubs[st.streams[s].home];
      if str.user == u {
        StreamOkGrows(acc.log, work, l, str);
      } else {
        assert l.Up? && str.user in l.queue ==> str.user in Announced(l, u).queue;
      }
    }
  }

  lemma ReceiveKeepsInv(st: State, r: Replica)
    requires Inv(st) && Enabled(st, Receive(r))
    ensures Inv(Apply(st, Receive(r)))
  {
    var st', queue := Apply(st, Receive(r)), st.hubs[r].queue;
    forall s | s in st.streams
      ensures s in st'.streams &&
          StreamOk(st.users[st.streams[s].user].log, st'.hubs[st.streams[s].home], st'.streams[s])
    {
      var str := st.streams[s];
      assert queue == [queue[0]] + queue[1..];
      assert str.user == queue[0] || (str.user in queue ==> str.user in queue[1..]);
    }
  }

  lemma ListenerKeepsInv(st: State, a: Action)
    requires Inv(st) && Enabled(st, a) && (a.Connect? || a.WakeAll? || a.Drop?)
    ensures Inv(Apply(st, a))
  {
    var st' := Apply(st, a);
    forall s | s in st.streams
      ensures s in st'.streams &&
          StreamOk(st.users[st.streams[s].user].log, st'.hubs[st.streams[s].home], st'.streams[s])
    {
    }
  }

  /** A snapshot taken now holds everything the stream lacks, or says that rows are lost. */
  lemma ReadKeepsOk(log: seq<Change>, feed: Feed, l: Listener, s: Stream)
    requires Represents(feed, log) && StreamOk(log, l, s) && s.phase.Reading?
    ensures StreamOk(log, l, s.(phase := AfterRead(s, feed)))
  {
    if !ChangesLost(s.last, Oldest(feed), feed.cur) { RowsOfSnapshot(feed, log, s.last); }
  }

  lemma WriteKeepsOk(log: seq<Change>, l: Listener, s: Stream)
    requires StreamOk(log, l, s) && (s.phase.Writing? || s.phase.Giving?)
    ensures StreamOk(log, l, AfterWrite(s))
  {
    match s.phase
    case Writing(rows, full) =>
      if rows != [] {
        ReplaySnoc(log, s.start, s.events, Told(rows[0]));
        assert forall i :: 0 <= i < |rows| - 1 ==> rows[1..][i] == rows[i + 1];
      }
    case Giving(cur) => ReplaySnoc(log, s.start, s.events, Resync(cur));
  }

  lemma GreetKeepsOk(log: seq<Change>, feed: Feed, l: Listener, s: Stream)
    requires Represents(feed, log) && StreamOk(log, l, s) && s.phase.Greeting?
    ensures StreamOk(log, l, s.(events := s.events + [Hello(feed.cur)], last := feed.cur, phase := Reading))
  {
    ReplaySnoc(log, s.start, s.events, Hello(feed.cur));
  }

  lemma StepKeepsInv(st: State, a: Action)
    requires Inv(st) && Enabled(st, a)
    ensures Inv(Apply(st, a))
  {
    match a
    case Commit(u) => CommitKeepsInv(st, u);
    case Connect(r) => ListenerKeepsInv(st, a);
    case WakeAll(r) => ListenerKeepsInv(st, a);
    case Receive(r) => ReceiveKeepsInv(st, r);
    case Drop(r) => ListenerKeepsInv(st, a);
    case Greet(_) => HandlerStep(st, a);
    case Read(_) => HandlerStep(st, a);
    case Write(_) => HandlerStep(st, a);
    case Subscribe(_, _, _, _) => WakingStep(st, a);
    case TakeWake(_) => WakingStep(st, a);
    case SafetyTick(_) => WakingStep(st, a);
    case End(_) => WakingStep(st, a);
    case _ => WriterStep(st, a);
  }

  lemma WriterStep(st: State, a: Action)
    requires Inv(st) && Enabled(st, a) && (a.Lock? || a.Stage? || a.Rollback? || a.Purge?)
    ensures Inv(Apply(st, a))
  {
  }

  /** A step of one stream concerns that stream alone. */
  lemma OneStream(st: State, s: StreamId, str: Stream)
    requires Inv(st) && str.user in st.users && str.home in st.hubs
    requires StreamOk(st.users[str.user].log, st.hubs[str.home], str)
    ensures Inv(st.(streams := st.streams[s := str]))
  {
  }

  lemma WakingStep(st: State, a: Action)
    requires Inv(st) && Enabled(st, a) && (a.Subscribe? || a.TakeWake? || a.SafetyTick? || a.End?)
    ensures Inv(Apply(st, a))
  {
    OneStream(st, a.s, Apply(st, a).streams[a.s]);
  }

  lemma HandlerStep(st: State, a: Action)
    requires Inv(st) && Enabled(st, a) && (a.Greet? || a.Read? || a.Write?)
    ensures Inv(Apply(st, a))
  {
    var str := st.streams[a.s];
    var acc, l := st.users[str.user], st.hubs[str.home];
    match a
    case Greet(s) =>
      GreetKeepsOk(acc.log, acc.feed, l, str);
      OneStream(st, s, str.(events := str.events + [Hello(acc.feed.cur)], last := acc.feed.cur, phase := Reading));
    case Read(s) =>
      ReadKeepsOk(acc.log, acc.feed, l, str);
      OneStream(st, s, str.(phase := AfterRead(str, acc.feed)));
    case Write(s) =>
      WriteKeepsOk(acc.log, l, str);
      OneStream(st, s, AfterWrite(str));
  }

  // ---- runs -----------------------------------------------------------------------------------

  ghost predicate Initial(st: State) {
    && st.streams == map[]
    && (forall u :: u in st.users ==> st.users[u] == Account(Feed([], 0), [], None))
    && (forall r :: r in st.hubs ==> st.hubs[r].Down?)
  }

  ghost predicate Runs(st: State, actions: seq<Action>, end: State)
    decreases actions
  {
    if actions == [] then st == end
    else Enabled(st, actions[0]) && Runs(Apply(st, actions[0]), actions[1..], end)
  }

  lemma {:induction false} RunKeepsInv(st: State, actions: seq<Action>, end: State)
    requires Inv(st) && Runs(st, actions, end)
    ensures Inv(end)
    decreases actions
  {
    if actions != [] {
      StepKeepsInv(st, actions[0]);
      RunKeepsInv(Apply(st, actions[0]), actions[1..], end);
    }
  }

  /** No lost wake-up: in every reachable state a stream that is behind its user's history has a wake
      token, or a notification queued for it, or a listener that has yet to wake everybody, or will
      still be brought up to date before it blocks. */
  lemma NoLostWakeup(st: State, actions: seq<Action>, end: State, s: StreamId)
    requires Initial(st) && Runs(st, actions, end) && s in end.streams
    ensures var str := end.streams[s];
            str.user in end.users && str.home in end.hubs &&
            (str.last < end.users[str.user].feed.cur ==>
               || str.phase.Ended?
               || Signalled(end.hubs[str.home], str)
               || (!str.phase.Waiting? && (WillBlock(str) ==> Reach(str) == end.users[str.user].feed.cur)))
  {
    RunKeepsInv(st, actions, end);
  }

  /** Nothing is on its way and every handler is blocked. */
  predicate Quiet(st: State) {
    && (forall r :: r in st.hubs ==> st.hubs[r].Up? && st.hubs[r].caughtUp && st.hubs[r].queue == [])
    && (forall s :: s in st.streams ==>
        st.streams[s].phase.Ended? || (st.streams[s].phase.Waiting? && !st.streams[s].wake))
  }

  /** Once a run has gone quiet every live stream has told its client everything. */
  lemma QuietMeansUpToDate(st: State, actions: seq<Action>, end: State, s: StreamId)
    requires Initial(st) && Runs(st, actions, end) && Quiet(end)
    requires s in end.streams && !end.streams[s].phase.Ended?
    ensures end.streams[s].user in end.users && end.streams[s].last == end.users[end.streams[s].user].feed.cur
  {
    RunKeepsInv(st, actions, end);
  }

  /** In every run each committed history is numbered without gaps, and what a stream has written is
      the very next change each time, unless it told the client to start over. */
  lemma StreamsAreFaithful(st: State, actions: seq<Action>, end: State, s: StreamId)
    requires Initial(st) && Runs(st, actions, end) && s in end.streams
    ensures forall u :: u in end.users ==> Represents(end.users[u].feed, end.users[u].log)
    ensures var str := end.streams[s];
            str.user in end.users &&
            (Unstarted(str) || Faithful(end.users[str.user].log, str.start, str.events, str.last))
  {
    RunKeepsInv(st, actions, end);
  }

  // ---- a resync is given only for a loss ------------------------------------------------------

  /** The k-th step of the run is the read of stream s that shows a loss: something after the client's last
      change is no longer kept, or the client is ahead. The stream had written n events by then. */
  ghost predicate ReadShowsLoss(st: State, actions: seq<Action>, k: nat, s: StreamId, n: nat, cur: nat) {
    && k < |actions| && actions[k] == Read(s)
    && exists mid :: Runs(st, actions[..k], mid) && LossAt(mid, s, n, cur)
  }

  ghost predicate LossAt(st: State, s: StreamId, n: nat, cur: nat) {
    && s in st.streams && |st.streams[s].events| == n && st.streams[s].user in st.users
    && var feed := st.users[st.streams[s].user].feed;
       feed.cur == cur && Missed(KeptNumbers(feed), st.streams[s].last, cur)
  }

  /** The stream has a resync to write, as its n-th event. */
  predicate HasInHand(st: State, s: StreamId, n: nat, cur: nat) {
    s in st.streams && st.streams[s].phase == Giving(cur) && |st.streams[s].events| == n
  }

  predicate HasWritten(st: State, s: StreamId, n: nat, cur: nat) {
    s in st.streams && n < |st.streams[s].events| && st.streams[s].events[n] == Resync(cur)
  }

  lemma ResyncRead(st: State, a: Action, s: StreamId, n: nat, cur: nat)
    requires Inv(st) && Enabled(st, a) && a.Read?
    requires HasWritten(Apply(st, a), s, n, cur) || HasInHand(Apply(st, a), s, n, cur)
    ensures HasWritten(st, s, n, cur) || HasInHand(st, s, n, cur) || (a == Read(s) && LossAt(st, s, n, cur))
  {
    if a == Read(s) {
      var acc := st.users[st.streams[s].user];
      FeedIsExact(acc.feed, acc.log, st.streams[s].last);
    }
  }

  lemma ResyncWrite(st: State, a: Action, s: StreamId, n: nat, cur: nat)
    requires Enabled(st, a) && a.Write?
    requires HasWritten(Apply(st, a), s, n, cur) || HasInHand(Apply(st, a), s, n, cur)
    ensures HasWritten(st, s, n, cur) || HasInHand(st, s, n, cur)
  {
  }

  /** A step that leaves a resync written or in hand found it there, or is a read that shows a loss. */
  lemma ResyncStep(st: State, a: Action, s: StreamId, n: nat, cur: nat)
    requires Inv(st) && Enabled(st, a)
    requires HasWritten(Apply(st, a), s, n, cur) || HasInHand(Apply(st, a), s, n, cur)
    ensures HasWritten(st, s, n, cur) || HasInHand(st, s, n, cur) || (a == Read(s) && LossAt(st, s, n, cur))
  {
    if a.Read? { ResyncRead(st, a, s, n, cur); }
    else if a.Write? { ResyncWrite(st, a, s, n, cur); }
  }

  /** In every run each resync that a stream has written, or has in hand, comes from a read of its own that
      showed a loss. */
  lemma {:induction false} ResyncOnlyForLoss(st: State, actions: seq<Action>, end: State, s: StreamId, n: nat, cur: nat)
    requires Inv(st) && Runs(st, actions, end)
    requires HasWritten(end, s, n, cur) || HasInHand(end, s, n, cur)
    ensures
      || HasWritten(st, s, n, cur) || HasInHand(st, s, n, cur)
      || exists k: nat :: ReadShowsLoss(st, actions, k, s, n, cur)
    decreases actions
  {
    if actions != [] {
      var st1, rest := Apply(st, actions[0]), actions[1..];
      StepKeepsInv(st, actions[0]);
      ResyncOnlyForLoss(st1, rest, end, s, n, cur);
      if HasWritten(st1, s, n, cur) || HasInHand(st1, s, n, cur) {
        ResyncStep(st, actions[0], s, n, cur);
        if actions[0] == Read(s) && LossAt(st, s, n, cur) {
          assert Runs(st, actions[..0], st);
          assert ReadShowsLoss(st, actions, 0, s, n, cur);
        }
      } else {
        var k: nat :| ReadShowsLoss(st1, rest, k, s, n, cur);
        var mid :| Runs(st1, rest[..k], mid) && LossAt(mid, s, n, cur);
        assert actions[..k + 1][1..] == rest[..k];
        assert Runs(st, actions[..k + 1], mid);
        assert ReadShowsLoss(st, actions, k + 1, s, n, cur);
      }
    }
  }

  /** From the start: a resync among the events of a stream comes from a read of that stream, when it had
      written just the events before it, that showed a loss. */
  lemma EveryResyncIsForLoss(st: State, actions: seq<Action>, end: State, s: StreamId, n: nat)
    requires Initial(st) && Runs(st, actions, end)
    requires s in end.streams && n < |end.streams[s].events| && end.streams[s].events[n].Resync?
    ensures exists k: nat :: ReadShowsLoss(st, actions, k, s, n, end.streams[s].events[n].at)
  {
    ResyncOnlyForLoss(st, actions, end, s, n, end.streams[s].events[n].at);
  }

  /** No row is purged, and no client claims to have seen more than there is when it connects. */
  ghost predicate NothingLost(st: State, actions: seq<Action>, end: State)
    decreases actions
  {
    if actions == [] then st == end
    else
      && Enabled(st, actions[0]) && !actions[0].Purge?
      && (actions[0].Subscribe? && actions[0].lastEventId.Some? ==>
            actions[0].lastEventId.value <= st.users[actions[0].u].feed.cur)
      && NothingLost(Apply(st, actions[0]), actions[1..], end)
  }

  ghost predicate NoResync(events: seq<Event>) { forall i :: 0 <= i < |events| ==> !events[i].Resync? }

  /** Everything is kept and nobody is ahead. */
  ghost predicate Complete(st: State) {
    && (forall u :: u in st.users ==> |st.users[u].feed.kept| == |st.users[u].log|)
    && (forall s :: s in st.streams ==>
          st.streams[s].user in st.users && NotAhead(st.streams[s], st.users[st.streams[s].user].log))
  }

  ghost predicate NotAhead(s: Stream, log: seq<Change>) {
    && s.last <= |log| && !s.phase.Giving? && NoResync(s.events)
    && (s.phase.Writing? ==> s.last + |s.phase.rows| <= |log|)
  }

  lemma CompleteReads(feed: Feed, log: seq<Change>, last: nat)
    requires Represents(feed, log) && |feed.kept| == |log| && last <= |log|
    ensures !ChangesLost(last, Oldest(feed), feed.cur)
  {
    if last < |log| { assert feed.kept[0] == EntryAt(log, 0); }
  }

  lemma WriterKeepsComplete(st: State, a: Action)
    requires Enabled(st, a) && Inv(st) && Complete(st) && (a.Lock? || a.Stage? || a.Rollback? || a.Commit?)
    ensures Complete(Apply(st, a))
  {
  }

  lemma ListenerKeepsComplete(st: State, a: Action)
    requires Enabled(st, a) && Complete(st) && (a.Connect? || a.WakeAll? || a.Receive? || a.Drop?)
    ensures Complete(Apply(st, a))
  {
  }

  lemma StreamKeepsComplete(st: State, a: Action)
    requires Enabled(st, a) && Inv(st) && Complete(st)
    requires a.Greet? || a.Read? || a.Write? || a.TakeWake? || a.SafetyTick? || a.End?
    ensures NotAhead(Apply(st, a).streams[a.s], st.users[st.streams[a.s].user].log)
  {
    if a.Read? {
      var acc := st.users[st.streams[a.s].user];
      CompleteReads(acc.feed, acc.log, st.streams[a.s].last);
      RowsOfSnapshot(acc.feed, acc.log, st.streams[a.s].last);
    }
  }

  lemma StepKeepsComplete(st: State, a: Action)
    requires Enabled(st, a) && Inv(st) && Complete(st) && !a.Purge?
    requires a.Subscribe? && a.lastEventId.Some? ==> a.lastEventId.value <= st.users[a.u].feed.cur
    ensures Complete(Apply(st, a))
  {
    if a.Lock? || a.Stage? || a.Rollback? || a.Commit? {
      WriterKeepsComplete(st, a);
    } else if a.Connect? || a.WakeAll? || a.Receive? || a.Drop? {
      ListenerKeepsComplete(st, a);
    } else if !a.Subscribe? {
      StreamKeepsComplete(st, a);
    }
  }

  /** In a run that loses nothing no client is ever told to start over. */
  lemma {:induction false} NoLossNoResync(st: State, actions: seq<Action>, end: State)
    requires Inv(st) && Complete(st) && NothingLost(st, actions, end)
    ensures Runs(st, actions, end) && Inv(end) && Complete(end)
    ensures forall s :: s in end.streams ==> NoResync(end.streams[s].events)
    decreases actions
  {
    if actions != [] {
      StepKeepsInv(st, actions[0]);
      StepKeepsComplete(st, actions[0]);
      NoLossNoResync(Apply(st, actions[0]), actions[1..], end);
    }
  }
}
