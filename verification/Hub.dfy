/** The in-process registry of open event streams: it wakes and ends them. It mirrors its replica's part of
    the system of module Wakeups, step by step. */
module Hub {
  import opened Common
  import Wakeups

  const MAX_STREAMS_PER_USER: nat := 10

  type Id = nat
  type Model = map<Wakeups.StreamId, Wakeups.Stream>

  /** One open stream: a one-slot wake channel, and a done signal that is given at most once. */
  class Subscriber {
    const id: Wakeups.StreamId
    const user: Id
    const session: Id
    var woken: bool
    var done: bool
    var reconnect: bool

    constructor (id: Wakeups.StreamId, user: Id, session: Id)
      ensures this.id == id && this.user == user && this.session == session && !woken && !done && !reconnect
    {
      this.id, this.user, this.session := id, user, session;
      woken, done, reconnect := false, false, false;
    }

    /** Puts a token in the wake channel unless one is waiting there. */
    method Wake()
      modifies this`woken
      ensures woken
    {
      if !woken { woken := true; }
    }

    /** The handler takes the token, if there is one. */
    method Take() returns (took: bool)
      modifies this`woken
      ensures took == old(woken) && !woken
    {
      took := woken;
      woken := false;
    }

    method Close(reconnect: bool)
      modifies this`done, this`reconnect
      ensures done
      ensures this.reconnect == if old(done) then old(this.reconnect) else reconnect
    {
      if !done {
        this.reconnect := reconnect;
        done := true;
      }
    }
  }

  datatype Notification = Changes(user: Id) | SessionRevoked(session: Id) | UserRevoked(user: Id)

  /** What a notification does to the replica's state: the listener receives it, or it is of another kind. */
  function Heard(st: Wakeups.State, r: Wakeups.Replica, n: Notification): Wakeups.State
    requires n.Changes? ==> Wakeups.Enabled(st, Wakeups.Receive(r))
  {
    if n.Changes? then Wakeups.Apply(st, Wakeups.Receive(r)) else st
  }

  predicate Ends(n: Notification, user: Id, session: Id) { n == UserRevoked(user) || n == SessionRevoked(session) }

  ghost function Union(streams: map<Id, set<Subscriber>>): set<Subscriber> {
    set u, s | u in streams && s in streams[u] :: s
  }

  /** Every subscriber is filed under its own user, no user is kept without subscribers, and no two
      subscribers are one stream. */
  ghost predicate WellFiled(streams: map<Id, set<Subscriber>>) {
    && (forall u :: u in streams ==> streams[u] != {} && forall s :: s in streams[u] ==> s.user == u)
    && (forall s, t :: s in Union(streams) && t in Union(streams) && s.id == t.id ==> s == t)
  }

  function With(streams: map<Id, set<Subscriber>>, s: Subscriber): map<Id, set<Subscriber>> {
    streams[s.user := (if s.user in streams then streams[s.user] else {}) + {s}]
  }

  function Without(streams: map<Id, set<Subscriber>>, s: Subscriber): map<Id, set<Subscriber>> {
    var left := (if s.user in streams then streams[s.user] else {}) - {s};
    if left == {} then streams - {s.user} else streams[s.user := left]
  }

  lemma UnionWith(streams: map<Id, set<Subscriber>>, s: Subscriber)
    ensures Union(With(streams, s)) == Union(streams) + {s}
  {
    var more := With(streams, s);
    assert s in more[s.user];
    forall t | t in Union(streams) ensures t in Union(more) {
      var u :| u in streams && t in streams[u];
      assert u in more && t in more[u];
    }
  }

  lemma WithWellFiled(streams: map<Id, set<Subscriber>>, s: Subscriber)
    requires WellFiled(streams) && forall t :: t in Union(streams) ==> t.id != s.id
    ensures WellFiled(With(streams, s))
  {
    UnionWith(streams, s);
  }

  lemma UnionWithout(streams: map<Id, set<Subscriber>>, s: Subscriber)
    requires WellFiled(streams)
    ensures Union(Without(streams, s)) == Union(streams) - {s} && WellFiled(Without(streams, s))
  {
    var fewer := Without(streams, s);
    forall t | t in Union(streams) && t != s ensures t in Union(fewer) {
      var u :| u in streams && t in streams[u];
      if u == s.user { assert t in streams[u] - {s}; }
      assert u in fewer && t in fewer[u];
    }
    forall t | t in Union(fewer) ensures t in Union(streams) - {s} {
      var u :| u in fewer && t in fewer[u];
      assert u in streams && t in streams[u];
    }
  }

  /** The subscribers are the replica's live streams, and hold the tokens that those have. */
  ghost predicate Mirrored(all: set<Subscriber>, model: Model, r: Wakeups.Replica)
    reads all
  {
    && (forall s :: s in all ==>
          && s.id in model && !model[s.id].phase.Ended?
          && model[s.id].home == r && model[s.id].user == s.user && model[s.id].wake == s.woken)
    && (forall k :: k in model && model[k].home == r && !model[k].phase.Ended? ==> exists s :: s in all && s.id == k)
  }

  lemma OneMoreMirrored(all: set<Subscriber>, s: Subscriber, model: Model, stream: Wakeups.Stream, r: Wakeups.Replica)
    requires Mirrored(all, model, r) && s.id !in model
    requires stream.home == r && stream.user == s.user && stream.wake == s.woken && !stream.phase.Ended?
    ensures Mirrored(all + {s}, model[s.id := stream], r)
  {
    var more := model[s.id := stream];
    forall k | k in more && more[k].home == r && !more[k].phase.Ended? ensures exists t :: t in all + {s} && t.id == k {
      if k == s.id {
        assert s in all + {s};
      } else {
        var t :| t in all && t.id == k;
        assert t in all + {s};
      }
    }
  }

  predicate AnyEnds(ns: seq<Notification>, user: Id, session: Id) {
    exists i :: 0 <= i < |ns| && Ends(ns[i], user, session)
  }

  lemma AnyEndsNext(ns: seq<Notification>, n: nat)
    requires n < |ns|
    ensures forall user, session ::
      AnyEnds(ns[..n + 1], user, session) <==> AnyEnds(ns[..n], user, session) || Ends(ns[n], user, session)
  {
    forall user, session
      ensures AnyEnds(ns[..n + 1], user, session) <==> AnyEnds(ns[..n], user, session) || Ends(ns[n], user, session)
    {
      if AnyEnds(ns[..n], user, session) {
        var i :| 0 <= i < n && Ends(ns[..n][i], user, session);
        assert Ends(ns[..n + 1][i], user, session);
      }
      if Ends(ns[n], user, session) { assert Ends(ns[..n + 1][n], user, session); }
      if AnyEnds(ns[..n + 1], user, session) {
        var i :| 0 <= i < n + 1 && Ends(ns[..n + 1][i], user, session);
        if i < n { assert Ends(ns[..n][i], user, session); }
      }
    }
  }

  class Hub {
    var streams: map<Id, set<Subscriber>>
    var closing: bool

    /** The subscribers registered for a user. */
    function Of(user: Id): set<Subscriber>
      reads this
    {
      if user in streams then streams[user] else {}
    }

    ghost function All(): set<Subscriber>
      reads this
    {
      Union(streams)
    }

    ghost predicate Valid()
      reads this
    {
      WellFiled(streams)
    }

    ghost predicate Mirrors(model: Model, r: Wakeups.Replica)
      reads this, All()
    {
      Mirrored(All(), model, r)
    }

    constructor ()
      ensures Valid() && !closing && streams == map[]
    {
      streams := map[];
      closing := false;
    }

    method Register(s: Subscriber)
      requires Valid() && forall t :: t in All() ==> t.id != s.id
      modifies this`streams
      ensures Valid() && streams == With(old(streams), s) && All() == old(All()) + {s}
    {
      UnionWith(streams, s);
      WithWellFiled(streams, s);
      streams := streams[s.user := Of(s.user) + {s}];
    }

    /** Registers a stream. It is refused exactly when the user already has the maximum, and ended at
        once, with the advice to reconnect, when the hub is shutting down. */
    method Subscribe(id: Wakeups.StreamId, user: Id, session: Id) returns (ok: bool, s: Subscriber)
      requires Valid() && forall t :: t in All() ==> t.id != id
      modifies this`streams
      ensures Valid()
      ensures ok <==> |old(Of(user))| < MAX_STREAMS_PER_USER
      ensures fresh(s) && s.id == id && s.user == user && s.session == session && !s.woken
      ensures ok ==> s.done == s.reconnect == closing
      ensures streams == if ok then With(old(streams), s) else old(streams)
      ensures All() == if ok then old(All()) + {s} else old(All())
    {
      s := new Subscriber(id, user, session);
      if |Of(user)| >= MAX_STREAMS_PER_USER {
        return false, s;
      }
      if closing {
        s.Close(true);
      }
      Register(s);
      ok := true;
    }

    /** Removes a stream, and the user's entry with the last of them. */
    method Unsubscribe(s: Subscriber)
      requires Valid()
      modifies this`streams
      ensures Valid() && streams == Without(old(streams), s) && All() == old(All()) - {s}
    {
      var left := Of(s.user) - {s};
      if left == {} {
        streams := streams - {s.user};
      } else {
        streams := streams[s.user := left];
      }
      UnionWithout(old(streams), s);
    }

    // ---- waking -------------------------------------------------------------------------------

    lemma Filed(s: Subscriber)
      requires Valid()
      ensures s in All() <==> s in Of(s.user)
    {
    }

    /** Wakes exactly the streams of one user. */
    method WakeUser(user: Id)
      requires Valid()
      modifies Of(user)`woken
      ensures forall s :: s in All() ==> s.woken == (old(s.woken) || s.user == user)
    {
      var todo := Of(user);
      while todo != {}
        invariant todo <= Of(user)
        invariant forall s :: s in Of(user) - todo ==> s.woken
        invariant forall s :: s in All() && s !in Of(user) ==> s.woken == old(s.woken)
        decreases todo
      {
        var s :| s in todo;
        s.Wake();
        todo := todo - {s};
      }
      forall s | s in All() ensures s.woken == (old(s.woken) || s.user == user) { Filed(s); }
    }

    /** Wakes every stream. */
    method WakeAll()
      requires Valid()
      modifies All()`woken
      ensures forall s :: s in All() ==> s.woken
    {
      var users := streams.Keys;
      while users != {}
        invariant users <= streams.Keys
        invariant forall u, s :: u in streams.Keys - users && s in streams[u] ==> s.woken
        decreases users
      {
        var u :| u in users;
        WakeUser(u);
        forall v, s | v in streams.Keys - users + {u} && s in streams[v] ensures s.woken { assert s in All(); }
        users := users - {u};
      }
    }

    // ---- ending -------------------------------------------------------------------------------

    /** Ends one user's streams; those that had ended before keep the reason they ended for. */
    method CloseUser(user: Id, reconnect: bool)
      requires Valid()
      modifies Of(user)`done, Of(user)`reconnect
      ensures forall s :: s in Of(user) ==> s.done && s.reconnect == if old(s.done) then old(s.reconnect) else reconnect
    {
      var todo := Of(user);
      while todo != {}
        invariant todo <= Of(user)
        invariant forall s :: s in Of(user) - todo ==>
                    s.done && s.reconnect == if old(s.done) then old(s.reconnect) else reconnect
        invariant forall s :: s in todo ==> s.done == old(s.done) && s.reconnect == old(s.reconnect)
        decreases todo
      {
        var s :| s in todo;
        s.Close(reconnect);
        todo := todo - {s};
      }
    }

    /** Ends every stream with the advice to reconnect; later ones are ended as they subscribe. */
    method Shutdown()
      requires Valid()
      modifies this`closing, All()`done, All()`reconnect
      ensures Valid() && closing && streams == old(streams)
      ensures forall s :: s in All() ==> s.done && s.reconnect == if old(s.done) then old(s.reconnect) else true
    {
      closing := true;
      var users := streams.Keys;
      while users != {}
        invariant streams == old(streams) && closing && users <= streams.Keys
        invariant forall u, s :: u in streams.Keys - users && s in streams[u] ==>
                    s.done && s.reconnect == if old(s.done) then old(s.reconnect) else true
        invariant forall u, s :: u in users && s in streams[u] ==>
            s.done == old(s.done) && s.reconnect == old(s.reconnect)
        decreases users
      {
        var u :| u in users;
        CloseUser(u, true);
        users := users - {u};
      }
    }

    /** Ends exactly the streams of one session, for good. */
    method RevokeSession(session: Id)
      requires Valid()
      modifies All()`done, All()`reconnect
      ensures forall s :: s in All() && s.session == session ==>
                s.done && s.reconnect == if old(s.done) then old(s.reconnect) else false
      ensures forall s :: s in All() && s.session != session ==>
          s.done == old(s.done) && s.reconnect == old(s.reconnect)
    {
      var todo := AllStreams();
      while todo != {}
        invariant todo <= All()
        invariant forall s :: s in All() - todo && s.session == session ==>
                    s.done && s.reconnect == if old(s.done) then old(s.reconnect) else false
        invariant forall s :: s in All() && (s in todo || s.session != session) ==>
                    s.done == old(s.done) && s.reconnect == old(s.reconnect)
        decreases todo
      {
        var s :| s in todo;
        if s.session == session {
          s.Close(false);
        }
        todo := todo - {s};
      }
    }

    method AllStreams() returns (all: set<Subscriber>)
      ensures all == All()
    {
      all := {};
      var users := streams.Keys;
      while users != {}
        invariant users <= streams.Keys
        invariant all == set u, s | u in streams.Keys - users && s in streams[u] :: s
        decreases users
      {
        var u :| u in users;
        all := all + streams[u];
        users := users - {u};
      }
    }

    // ---- each operation is a step of the system -------------------------------------------------

    /** A stream opens. */
    method Open(id: Wakeups.StreamId, user: Id, session: Id, ghost st: Wakeups.State, ghost r: Wakeups.Replica,
        ghost last: Option<nat>)
      returns (ok: bool, s: Subscriber)
      requires Valid() && Mirrors(st.streams, r) && Wakeups.Enabled(st, Wakeups.Subscribe(id, user, r, last))
      modifies this`streams
      ensures Valid() && (ok <==> |old(Of(user))| < MAX_STREAMS_PER_USER)
      ensures Mirrors(if ok then Wakeups.Apply(st, Wakeups.Subscribe(id, user, r, last)).streams else st.streams, r)
    {
      ghost var before := All();
      ok, s := Subscribe(id, user, session);
      ghost var after := Wakeups.Apply(st, Wakeups.Subscribe(id, user, r, last));
      if ok { OneMoreMirrored(before, s, st.streams, after.streams[id], r); }
    }

    /** A handler returns. */
    method Leave(s: Subscriber, ghost st: Wakeups.State, ghost r: Wakeups.Replica)
      requires Valid() && s in All() && Mirrors(st.streams, r)
      modifies this`streams
      ensures Valid() && Wakeups.Enabled(st, Wakeups.End(s.id)) &&
          Mirrors(Wakeups.Apply(st, Wakeups.End(s.id)).streams, r)
    {
      Unsubscribe(s);
    }

    /** A blocked handler takes its token. */
    method TakeToken(s: Subscriber, ghost st: Wakeups.State, ghost r: Wakeups.Replica)
      requires Valid() && s in All() && Mirrors(st.streams, r) && Wakeups.Enabled(st, Wakeups.TakeWake(s.id))
      modifies s`woken
      ensures Valid() && Mirrors(Wakeups.Apply(st, Wakeups.TakeWake(s.id)).streams, r)
    {
      var took := s.Take();
    }

    /** What the listener does first: it wakes everybody to catch up on what was missed. */
    method CatchUp(ghost st: Wakeups.State, ghost r: Wakeups.Replica)
      requires Valid() && Mirrors(st.streams, r) && Wakeups.Enabled(st, Wakeups.WakeAll(r))
      modifies All()`woken
      ensures Valid() && Mirrors(Wakeups.Apply(st, Wakeups.WakeAll(r)).streams, r)
    {
      WakeAll();
    }

    /** What it does with one notification: it wakes the user's streams, or ends those of a revocation. */
    method Handle(n: Notification, ghost st: Wakeups.State, ghost r: Wakeups.Replica)
      requires Valid() && Mirrors(st.streams, r)
      requires n.Changes? ==> Wakeups.Enabled(st, Wakeups.Receive(r)) && st.hubs[r].queue[0] == n.user
      modifies All()
      ensures Valid() && streams == old(streams) && closing == old(closing)
      ensures Mirrors(Heard(st, r, n).streams, r)
      ensures forall s :: s in All() ==> s.woken == (old(s.woken) || n == Changes(s.user))
      ensures forall s :: s in All() ==> s.done == (old(s.done) || Ends(n, s.user, s.session))
      ensures forall s :: s in All() ==>
                s.reconnect == if !old(s.done) && Ends(n, s.user, s.session) then false else old(s.reconnect)
    {
      HandleOne(n);
    }

    /** The other steps of the system, and those of other replicas, leave what is mirrored alone. */
    lemma Elsewhere(st: Wakeups.State, a: Wakeups.Action, r: Wakeups.Replica)
      requires Mirrors(st.streams, r) && Wakeups.Enabled(st, a)
      requires match a
               case WakeAll(x) => x != r
               case Receive(x) => x != r
               case Subscribe(_, _, x, _) => x != r
               case TakeWake(k) => st.streams[k].home != r
               case End(k) => st.streams[k].home != r
               case _ => true
      ensures Mirrors(Wakeups.Apply(st, a).streams, r)
    {
    }

    /** The listen loop, until the connection is lost; before each notification some handlers take their
        tokens. A stream holds a token unless its handler took it after the last change notification for its
        user, and it is ended exactly for a revocation of its own. */
    method Listen(notifications: seq<Notification>, takes: seq<set<Subscriber>>)
      requires Valid() && |takes| == |notifications| && forall i :: 0 <= i < |takes| ==> takes[i] <= All()
      modifies All()
      ensures Valid() && streams == old(streams) && closing == old(closing)
      ensures forall s :: s in All() ==> s.woken == HoldsToken(notifications, takes, s, |notifications|)
      ensures forall s :: s in All() ==>
                (s.done <==> old(s.done) || AnyEnds(notifications, s.user, s.session))
      ensures forall s :: s in All() ==>
                s.reconnect == if !old(s.done) &&
                    AnyEnds(notifications, s.user, s.session) then false else old(s.reconnect)
    {
      WakeAll();
      for i := 0 to |notifications|
        invariant Valid() && streams == old(streams) && closing == old(closing)
        invariant forall s :: s in All() ==> s.woken == HoldsToken(notifications, takes, s, i)
        invariant forall s :: s in All() ==>
                    (s.done <==> old(s.done) || AnyEnds(notifications[..i], s.user, s.session))
        invariant forall s :: s in All() ==>
                    s.reconnect ==
                      if !old(s.done) && AnyEnds(notifications[..i], s.user, s.session) then false else old(s.reconnect)
      {
        assert notifications[..i + 1] == notifications[..i] + [notifications[i]];
        TakeAll(takes[i]);
        HandleOne(notifications[i]);
        AnyEndsNext(notifications, i);
      }
      assert notifications[..|notifications|] == notifications;
    }

    method TakeAll(takers: set<Subscriber>)
      requires takers <= All()
      modifies takers`woken
      ensures forall s :: s in All() ==> s.woken == (old(s.woken) && s !in takers)
    {
      var todo := takers;
      while todo != {}
        invariant todo <= takers
        invariant forall s :: s in All() ==> s.woken == (old(s.woken) && s !in takers - todo)
        decreases todo
      {
        var s :| s in todo;
        var took := s.Take();
        todo := todo - {s};
      }
    }

    method HandleOne(n: Notification)
      requires Valid()
      modifies All()
      ensures Valid() && streams == old(streams) && closing == old(closing)
      ensures forall s :: s in All() ==> s.woken == (old(s.woken) || n == Changes(s.user))
      ensures forall s :: s in All() ==> s.done == (old(s.done) || Ends(n, s.user, s.session))
      ensures forall s :: s in All() ==>
                s.reconnect == if !old(s.done) && Ends(n, s.user, s.session) then false else old(s.reconnect)
    {
      match n {
        case Changes(u) => WakeUser(u);
        case UserRevoked(u) =>
          CloseUser(u, false);
          forall s | s in All() ensures s in Of(u) <==> s.user == u { Filed(s); }
        case SessionRevoked(id) => RevokeSession(id);
      }
    }
  }

  /** After n notifications: woken by the catching up or a change, and not taken since. */
  ghost predicate HoldsToken(notifications: seq<Notification>, takes: seq<set<Subscriber>>, s: Subscriber, n: nat)
    requires n <= |notifications| == |takes|
  {
    n == 0 ||
    notifications[n - 1] == Changes(s.user) ||
    (s !in takes[n - 1] && HoldsToken(notifications, takes, s, n - 1))
  }

  /** A change for a stream's user leaves it with a token for as long as its handler does not take it. */
  lemma {:induction false} NotifiedHoldsToken(notifications: seq<Notification>, takes: seq<set<Subscriber>>,
      s: Subscriber, i: nat, n: nat)
    requires i < n <= |notifications| == |takes| && notifications[i] == Changes(s.user)
    requires forall j :: i < j < n ==> s !in takes[j]
    ensures HoldsToken(notifications, takes, s, n)
    decreases n
  {
    if i < n - 1 { NotifiedHoldsToken(notifications, takes, s, i, n - 1); }
  }

  /** A token that was taken is gone until the next change for the stream's user. */
  lemma {:induction false} TakenHoldsNone(notifications: seq<Notification>, takes: seq<set<Subscriber>>,
      s: Subscriber, i: nat, n: nat)
    requires i < n <= |notifications| == |takes| && s in takes[i]
    requires forall j :: i <= j < n ==> notifications[j] != Changes(s.user)
    ensures !HoldsToken(notifications, takes, s, n)
    decreases n
  {
    if i < n - 1 { TakenHoldsNone(notifications, takes, s, i, n - 1); }
  }
}
