/** Sign-in sessions and their refresh tokens. A token is represented by its generation. */
module Sessions {
  import opened Common

  datatype Config = Config(idle: Instant, absolute: Instant, sessionOnly: Instant, accessTtl: Instant, grace: Instant)

  datatype Session = Session(
    created: Instant, lastRefreshed: Instant, expires: Instant, absoluteExpires: Instant, generation: nat,
    previousValidUntil: Option<Instant>, revoked: Option<Instant>)

  datatype Answer = Tokens(generation: nat, accessExpiry: Instant, sessionExpiry: Instant, persistent: bool)
      | Unauthenticated

  const CENTURY: Instant := 100 * 365 * 86400

  function Absolute(cfg: Config): Instant { if cfg.absolute == 0 then CENTURY else cfg.absolute }

  function NewSession(cfg: Config, remember: bool, now: Instant): Session {
    var idle := if remember then cfg.idle else cfg.sessionOnly;
    var absolute := now + if remember then Absolute(cfg) else cfg.sessionOnly;
    Session(now, now, Min(now + idle, absolute), absolute, 0, None, None)
  }

  predicate Alive(s: Session, now: Instant) { s.revoked.None? && s.expires > now && s.absoluteExpires > now }

  function Persistent(cfg: Config, s: Session): bool { s.absoluteExpires - s.created > cfg.sessionOnly }

  /** The token before the current one, presented in time. */
  predicate InGrace(s: Session, gen: int, now: Instant) {
    gen == s.generation - 1 && s.previousValidUntil.Some? && now <= s.previousValidUntil.value
  }

  function Rotated(cfg: Config, s: Session, now: Instant): Session {
    var idle := if Persistent(cfg, s) then cfg.idle else cfg.sessionOnly;
    s.(generation := s.generation + 1, previousValidUntil := Some(now + cfg.grace), lastRefreshed := now,
       expires := Min(now + idle, s.absoluteExpires))
  }

  /** The session after a token was presented. */
  function Presented(cfg: Config, s: Session, gen: nat, now: Instant, active: bool): Session {
    if !Alive(s, now) || !active then s
    else if gen == s.generation then Rotated(cfg, s, now)
    else if !InGrace(s, gen, now) && gen < s.generation then s.(revoked := Some(now))
    else s
  }

  function Reply(cfg: Config, s: Session, gen: nat, now: Instant, active: bool): Answer {
    var s1 := Presented(cfg, s, gen, now, active);
    if Alive(s, now) && active && (gen == s.generation || InGrace(s, gen, now))
    then Tokens(s1.generation, now + cfg.accessTtl, s1.expires, Persistent(cfg, s))
    else Unauthenticated
  }

  // ---- the service ----------------------------------------------------------------------------

  class SessionRow {
    var row: Session

    constructor (cfg: Config, remember: bool, now: Instant)
      ensures row == NewSession(cfg, remember, now)
    {
      var idle, absolute := cfg.idle, cfg.absolute;
      if absolute == 0 { absolute := CENTURY; }
      if !remember { idle, absolute := cfg.sessionOnly, cfg.sessionOnly; }
      row := Session(now, now, Min(now + idle, now + absolute), now + absolute, 0, None, None);
    }

    /** Renews the tokens, or finds that a rotated token is used again and ends the session. */
    method Refresh(cfg: Config, gen: nat, now: Instant, active: bool) returns (out: Answer)
      modifies this
      ensures row == Presented(cfg, old(row), gen, now, active)
      ensures out == Reply(cfg, old(row), gen, now, active)
    {
      if row.revoked.Some? || row.expires <= now || row.absoluteExpires <= now || !active { return Unauthenticated; }
      var persistent := row.absoluteExpires - row.created > cfg.sessionOnly;
      var idle := cfg.idle;
      if !persistent { idle := cfg.sessionOnly; }
      if gen == row.generation {
        var exp := Min(now + idle, row.absoluteExpires);
        row := row.(generation := row.generation + 1, previousValidUntil := Some(now + cfg.grace),
            lastRefreshed := now, expires := exp);
        return Tokens(gen + 1, now + cfg.accessTtl, exp, persistent);
      }
      if gen == row.generation - 1 && row.previousValidUntil.Some? && now <= row.previousValidUntil.value {
        return Tokens(row.generation, now + cfg.accessTtl, row.expires, persistent);
      }
      if gen < row.generation { row := row.(revoked := Some(now)); }
      return Unauthenticated;
    }

    method Revoke(now: Instant) returns (n: nat)
      modifies this
      ensures row == if old(row).revoked.None? then old(row).(revoked := Some(now)) else old(row)
      ensures n == if old(row).revoked.None? then 1 else 0
    {
      if row.revoked.Some? { return 0; }
      row := row.(revoked := Some(now));
      n := 1;
    }
  }

  // ---- runs -----------------------------------------------------------------------------------

  datatype Event = Refresh(gen: nat, at: Instant, active: bool) | Revoke(at: Instant)

  function After(cfg: Config, s: Session, e: Event): Session {
    match e
    case Refresh(gen, at, active) => Presented(cfg, s, gen, at, active)
    case Revoke(at) => if s.revoked.None? then s.(revoked := Some(at)) else s
  }

  function Run(cfg: Config, s: Session, events: seq<Event>): Session
    decreases |events|
  {
    if events == [] then s else After(cfg, Run(cfg, s, events[..|events| - 1]), events[|events| - 1])
  }

  /** Renewals read the clock once they hold the session's row, so in order; a revocation reads it before. */
  predicate OnTime(s: Session, events: seq<Event>) {
    && (forall i, j :: 0 <= i < j < |events| && events[i].Refresh? && events[j].Refresh? ==>
        events[i].at <= events[j].at)
    && (forall i :: 0 <= i < |events| && events[i].Refresh? ==> s.lastRefreshed <= events[i].at)
  }

  /** What the i-th event of a run was answered. */
  function AnswerTo(cfg: Config, s: Session, events: seq<Event>, i: nat): Answer
    requires i < |events|
  {
    match events[i]
    case Refresh(gen, at, active) => Reply(cfg, Run(cfg, s, events[..i]), gen, at, active)
    case Revoke(_) => Unauthenticated
  }

  predicate Inv(cfg: Config, s: Session) {
    && s.expires <= s.absoluteExpires
    && (s.generation == 0 <==> s.previousValidUntil.None?)
    && (s.generation > 0 ==> s.previousValidUntil == Some(s.lastRefreshed + cfg.grace))
    && s.created <= s.lastRefreshed
  }

  lemma NewSessionIsValid(cfg: Config, remember: bool, now: Instant)
    ensures Inv(cfg, NewSession(cfg, remember, now))
  {
  }

  /** What may become of a session: its absolute end stays, its generation never falls, it is renewed only
      with a new generation, and once it is revoked it stays as it is. */
  predicate Follows(a: Session, z: Session) {
    && z.absoluteExpires == a.absoluteExpires
    && a.generation <= z.generation
    && (a.generation == z.generation ==> a.lastRefreshed == z.lastRefreshed)
    && (a.revoked.Some? ==> z == a)
  }

  lemma EventKeeps(cfg: Config, s: Session, e: Event)
    requires Inv(cfg, s) && (e.Refresh? ==> s.lastRefreshed <= e.at)
    ensures Inv(cfg, After(cfg, s, e)) && Follows(s, After(cfg, s, e))
  {
  }

  /** The last renewal is not later than the renewals of the run. */
  lemma {:induction false} LastRenewal(cfg: Config, s: Session, events: seq<Event>, t: Instant)
    requires s.lastRefreshed <= t && forall k :: 0 <= k < |events| && events[k].Refresh? ==> events[k].at <= t
    ensures Run(cfg, s, events).lastRefreshed <= t
    decreases |events|
  {
    if events != [] { LastRenewal(cfg, s, events[..|events| - 1], t); }
  }

  lemma {:induction false} RunKeeps(cfg: Config, s: Session, events: seq<Event>, i: nat)
    requires Inv(cfg, s) && OnTime(s, events) && i <= |events|
    ensures Inv(cfg, Run(cfg, s, events)) && Follows(Run(cfg, s, events[..i]), Run(cfg, s, events))
    ensures Follows(s, Run(cfg, s, events))
    decreases |events|
  {
    if events == [] {
      assert events[..i] == events;
    } else {
      var n := |events| - 1;
      var before, e := events[..n], events[n];
      RunKeeps(cfg, s, before, if i <= n then i else n);
      if e.Refresh? { LastRenewal(cfg, s, before, e.at); }
      EventKeeps(cfg, Run(cfg, s, before), e);
      assert if i <= n then before[..i] == events[..i] else events[..i] == events;
    }
  }

  /** A success for generation g gives generation g + 1, which is then the stored one, and a session end
      that is not past the absolute one. */
  lemma SuccessGivesSuccessor(cfg: Config, s: Session, events: seq<Event>, i: nat)
    requires Inv(cfg, s) && OnTime(s, events) && i < |events| && AnswerTo(cfg, s, events, i).Tokens?
    ensures var out := AnswerTo(cfg, s, events, i);
      && out.generation == events[i].gen + 1 == Run(cfg, s, events[..i + 1]).generation
      && out.sessionExpiry <= s.absoluteExpires
      && events[i].at < s.absoluteExpires
  {
    assert events[..i + 1][..i] == events[..i] && OnTime(s, events[..i + 1]);
    RunKeeps(cfg, s, events[..i + 1], i);
  }

  /** The prefix of a run that ends after its i-th event. */
  lemma Upto(cfg: Config, s: Session, events: seq<Event>, i: nat)
    requires Inv(cfg, s) && OnTime(s, events) && i < |events|
    ensures OnTime(s, events[..i]) && OnTime(s, events[..i + 1])
    ensures Run(cfg, s, events[..i + 1]) == After(cfg, Run(cfg, s, events[..i]), events[i])
    ensures Inv(cfg, Run(cfg, s, events[..i])) && Inv(cfg, Run(cfg, s, events[..i + 1]))
  {
    assert events[..i + 1][..i] == events[..i];
    RunKeeps(cfg, s, events[..i], 0);
    RunKeeps(cfg, s, events[..i + 1], 0);
  }

  lemma Since(cfg: Config, s: Session, events: seq<Event>, i: nat, j: nat)
    requires Inv(cfg, s) && OnTime(s, events) && i <= j <= |events|
    ensures Inv(cfg, Run(cfg, s, events[..j])) && Follows(Run(cfg, s, events[..i]), Run(cfg, s, events[..j]))
  {
    assert events[..j][..i] == events[..i] && OnTime(s, events[..j]);
    RunKeeps(cfg, s, events[..j], i);
  }

  /** The i-th event of a run rotated the session away from generation g. */
  predicate Rotates(cfg: Config, s: Session, events: seq<Event>, i: nat, g: nat)
    requires i < |events|
  {
    && events[i].Refresh? && events[i].gen == g && AnswerTo(cfg, s, events, i).Tokens?
    && Run(cfg, s, events[..i]).generation == g
  }

  /** What a rotation leaves: the next generation, with a grace that starts now. */
  lemma Rotation(cfg: Config, s: Session, events: seq<Event>, i: nat, g: nat)
    requires Inv(cfg, s) && OnTime(s, events) && i < |events| && Rotates(cfg, s, events, i, g)
    ensures var after := Run(cfg, s, events[..i + 1]);
      after.generation == g + 1 && after.lastRefreshed == events[i].at
  {
    Upto(cfg, s, events, i);
  }

  /** A token that was rotated away is presented again, whatever happened in between: it is served exactly if
      the session is live, its successor was not used yet and the grace is not over. A live session that
      refuses it is ended. */
  lemma SecondTab(cfg: Config, s: Session, events: seq<Event>, i: nat, j: nat, g: nat)
    requires Inv(cfg, s) && OnTime(s, events) && i < j < |events| && Rotates(cfg, s, events, i, g)
    requires events[j].Refresh? && events[j].gen == g && events[j].active
    ensures var sj := Run(cfg, s, events[..j]);
      && (AnswerTo(cfg, s, events, j).Tokens? <==>
            Alive(sj, events[j].at) && sj.generation == g + 1 && events[j].at <= events[i].at + cfg.grace)
      && (AnswerTo(cfg, s, events, j).Tokens? ==> AnswerTo(cfg, s, events, j).generation == g + 1)
      && (Alive(sj, events[j].at) && !AnswerTo(cfg, s, events, j).Tokens? ==>
            Run(cfg, s, events[..j + 1]).revoked == Some(events[j].at))
  {
    Rotation(cfg, s, events, i, g);
    Since(cfg, s, events, i + 1, j);
    Upto(cfg, s, events, j);
  }

  /** The k-th event was answered for generation n. */
  predicate Serves(cfg: Config, s: Session, events: seq<Event>, k: nat, n: nat) {
    k < |events| && events[k].Refresh? && events[k].gen == n && AnswerTo(cfg, s, events, k).Tokens?
  }

  /** No event from i on, up to j, was answered for generation n. */
  predicate Unused(cfg: Config, s: Session, events: seq<Event>, i: nat, j: nat, n: nat) {
    forall k :: i <= k < j ==> !Serves(cfg, s, events, k, n)
  }

  lemma UnusedNext(cfg: Config, s: Session, events: seq<Event>, i: nat, j: nat, n: nat)
    requires i < j
    ensures Unused(cfg, s, events, i, j, n) <==>
        Unused(cfg, s, events, i, j - 1, n) && !Serves(cfg, s, events, j - 1, n)
  {
  }

  lemma StaysUnlessServed(cfg: Config, s: Session, events: seq<Event>, k: nat, n: nat)
    requires Inv(cfg, s) && OnTime(s, events) && k < |events| && n <= Run(cfg, s, events[..k]).generation
    ensures Run(cfg, s, events[..k + 1]).generation == n <==>
      Run(cfg, s, events[..k]).generation == n && !Serves(cfg, s, events, k, n)
  {
    Upto(cfg, s, events, k);
  }

  /** The generation is still n exactly if no event since was answered for it. */
  lemma {:induction false} UnusedIffStored(cfg: Config, s: Session, events: seq<Event>, i: nat, j: nat, n: nat)
    requires Inv(cfg, s) && OnTime(s, events) && i <= j <= |events| && Run(cfg, s, events[..i]).generation == n
    ensures Run(cfg, s, events[..j]).generation == n <==> Unused(cfg, s, events, i, j, n)
    decreases j
  {
    if i < j {
      UnusedIffStored(cfg, s, events, i, j - 1, n);
      UnusedNext(cfg, s, events, i, j, n);
      Since(cfg, s, events, i, j - 1);
      StaysUnlessServed(cfg, s, events, j - 1, n);
    }
  }

  /** In every run: of two calls with one token the second succeeds exactly if nobody has used the successor
      in between, within the grace and before the session ends; both then have the same successor. */
  lemma RaceOfTwoTabs(cfg: Config, s: Session, events: seq<Event>, i: nat, j: nat, g: nat)
    requires Inv(cfg, s) && OnTime(s, events) && i < j < |events| && Rotates(cfg, s, events, i, g)
    requires events[j].Refresh? && events[j].gen == g && events[j].active
    ensures AnswerTo(cfg, s, events, i).generation == g + 1
    ensures AnswerTo(cfg, s, events, j).Tokens? <==>
      && Alive(Run(cfg, s, events[..j]), events[j].at) && events[j].at <= events[i].at + cfg.grace
      && Unused(cfg, s, events, i + 1, j, g + 1)
    ensures AnswerTo(cfg, s, events, j).Tokens? ==> AnswerTo(cfg, s, events, j).generation == g + 1
  {
    SuccessGivesSuccessor(cfg, s, events, i);
    Rotation(cfg, s, events, i, g);
    SecondTab(cfg, s, events, i, j, g);
    UnusedIffStored(cfg, s, events, i + 1, j, g + 1);
  }

  /** Two tabs with one token, and the first renews once more: the second, within the grace, signs both out. */
  const TABS := [Refresh(0, 10, true), Refresh(1, 20, true), Refresh(0, 30, true)]

  lemma SlowTabEndsSession(cfg: Config)
    requires cfg.grace == 60 && cfg.idle > 60 && Absolute(cfg) > 60
    ensures var s := NewSession(cfg, true, 0);
      && OnTime(s, TABS) && Rotates(cfg, s, TABS, 0, 0) && TABS[2].at <= TABS[0].at + cfg.grace
      && AnswerTo(cfg, s, TABS, 1).Tokens? && AnswerTo(cfg, s, TABS, 2) == Unauthenticated
      && Run(cfg, s, TABS).revoked == Some(30)
  {
    var s := NewSession(cfg, true, 0);
    NewSessionIsValid(cfg, true, 0);
    assert TABS[..0] == [] && TABS[..3] == TABS;
    Upto(cfg, s, TABS, 0);
    Upto(cfg, s, TABS, 1);
    Upto(cfg, s, TABS, 2);
  }

  /** A token two or more rotations old ends a live session for good: from then on every token of it,
      the current one included, is refused. */
  lemma ReuseEndsSession(cfg: Config, s: Session, gen: nat, now: Instant, events: seq<Event>, i: nat)
    requires Inv(cfg, s) && Alive(s, now) && gen + 1 < s.generation && i < |events|
    requires OnTime(Presented(cfg, s, gen, now, true), events)
    ensures AnswerTo(cfg, Presented(cfg, s, gen, now, true), events, i) == Unauthenticated
  {
    var s1 := Presented(cfg, s, gen, now, true);
    assert OnTime(s1, events[..i]);
    RunKeeps(cfg, s1, events[..i], 0);
    assert events[..i][..0] == [];
  }

  /** A token that has served once and is presented again after the grace finds the session ended, or
      ends it, whatever happened in between. */
  lemma StolenTokenIsFound(cfg: Config, s: Session, events: seq<Event>, i: nat, j: nat)
    requires Inv(cfg, s) && OnTime(s, events) && i < j < |events|
    requires AnswerTo(cfg, s, events, i).Tokens?
    requires events[j].Refresh? && events[j].active && events[j].gen == events[i].gen &&
        events[j].at > events[i].at + cfg.grace
    ensures AnswerTo(cfg, s, events, j) == Unauthenticated
    ensures !Alive(Run(cfg, s, events[..j + 1]), events[j].at)
  {
    SuccessGivesSuccessor(cfg, s, events, i);
    Upto(cfg, s, events, i);
    LastRenewal(cfg, s, events[..i + 1], events[i].at);
    Since(cfg, s, events, i + 1, j);
    Upto(cfg, s, events, j);
  }

  // ---- how long a session lasts ---------------------------------------------------------------

  /** How long a login lasts without a renewal, and at most. */
  function Lifetime(cfg: Config, remember: bool): Instant { if remember then cfg.idle else cfg.sessionOnly }

  function LongestLifetime(cfg: Config, remember: bool): Instant {
    if remember then Absolute(cfg) else cfg.sessionOnly
  }

  /** How long a renewal lasts: as long as the login, unless the limits make a remembered session look
      like one that is not. */
  function RenewedLifetime(cfg: Config, remember: bool): Instant {
    if remember && Absolute(cfg) > cfg.sessionOnly then cfg.idle else cfg.sessionOnly
  }

  /** The i-th event presented the current token and was answered. */
  predicate Renews(cfg: Config, s: Session, events: seq<Event>, i: nat) {
    i < |events| && events[i].Refresh? && Rotates(cfg, s, events, i, events[i].gen)
  }

  /** No event from i on, up to j, renewed the session. */
  predicate NotRenewed(cfg: Config, s: Session, events: seq<Event>, i: nat, j: nat) {
    forall k: nat :: i <= k < j ==> !Renews(cfg, s, events, k)
  }

  lemma {:induction false} CreatedStays(cfg: Config, s: Session, events: seq<Event>)
    ensures Run(cfg, s, events).created == s.created && Run(cfg, s, events).absoluteExpires == s.absoluteExpires
    decreases |events|
  {
    if events != [] { CreatedStays(cfg, s, events[..|events| - 1]); }
  }

  /** The end of a session stays where it is until the next renewal. */
  lemma {:induction false} EndStays(cfg: Config, s: Session, events: seq<Event>, i: nat, j: nat)
    requires i <= j <= |events| && NotRenewed(cfg, s, events, i, j)
    ensures Run(cfg, s, events[..j]).expires == Run(cfg, s, events[..i]).expires
    decreases j
  {
    if i < j {
      EndStays(cfg, s, events, i, j - 1);
      assert events[..j][..j - 1] == events[..j - 1] && !Renews(cfg, s, events, j - 1);
    }
  }

  /** Over every run from a login: a renewal at t sets the end to t and the lifetime of the login, or to the
      absolute end if that is earlier, and answers with it; it stays so until the next renewal, also when the
      previous token is answered. */
  lemma EndIsSet(cfg: Config, remember: bool, login: Instant, events: seq<Event>, i: nat, j: nat)
    requires var s := NewSession(cfg, remember, login);
      OnTime(s, events) && i < j <= |events| && Renews(cfg, s, events, i) && NotRenewed(cfg, s, events, i + 1, j)
    ensures var s := NewSession(cfg, remember, login);
      var end := Min(events[i].at + RenewedLifetime(cfg, remember), login + LongestLifetime(cfg, remember));
      && AnswerTo(cfg, s, events, i).sessionExpiry == end == Run(cfg, s, events[..j]).expires
      && (j < |events| && AnswerTo(cfg, s, events, j).Tokens? && !Renews(cfg, s, events, j) ==>
            AnswerTo(cfg, s, events, j).sessionExpiry == end == Run(cfg, s, events[..j + 1]).expires)
  {
    var s := NewSession(cfg, remember, login);
    NewSessionIsValid(cfg, remember, login);
    Upto(cfg, s, events, i);
    CreatedStays(cfg, s, events[..i]);
    EndStays(cfg, s, events, i + 1, j);
    if j < |events| {
      Upto(cfg, s, events, j);
      if !Renews(cfg, s, events, j) { EndStays(cfg, s, events, j, j + 1); }
    }
  }

  /** Until the first renewal the end is that of the login. */
  lemma EndOfLogin(cfg: Config, remember: bool, login: Instant, events: seq<Event>, j: nat)
    requires j <= |events| && NotRenewed(cfg, NewSession(cfg, remember, login), events, 0, j)
    ensures Run(cfg, NewSession(cfg, remember, login), events[..j]).expires ==
        Min(login + Lifetime(cfg, remember), login + LongestLifetime(cfg, remember))
  {
    EndStays(cfg, NewSession(cfg, remember, login), events, 0, j);
  }

  /** What every answer carries besides: an access token that lasts from now, and whether the cookie
      outlives the browser. */
  lemma AnswerLasts(cfg: Config, remember: bool, login: Instant, events: seq<Event>, i: nat)
    requires var s := NewSession(cfg, remember, login);
      OnTime(s, events) && i < |events| && AnswerTo(cfg, s, events, i).Tokens?
    ensures var out := AnswerTo(cfg, NewSession(cfg, remember, login), events, i);
      && out.accessExpiry == events[i].at + cfg.accessTtl
      && out.persistent == (remember && Absolute(cfg) > cfg.sessionOnly)
  {
    CreatedStays(cfg, NewSession(cfg, remember, login), events[..i]);
  }

  /** Each event presents the token the one before it was answered with. */
  predicate Steady(login: Instant, events: seq<Event>) {
    && (forall k :: 0 <= k < |events| ==>
          events[k].Refresh? && events[k].active && events[k].gen == k && login <= events[k].at)
    && (forall i, j :: 0 <= i < j < |events| ==> events[i].at <= events[j].at)
  }

  /** The k-th event comes within the lifetime since the one before it, and before the absolute end. */
  predicate InTime(cfg: Config, remember: bool, login: Instant, events: seq<Event>, k: nat)
    requires k < |events|
  {
    && events[k].at < login + LongestLifetime(cfg, remember)
    && events[k].at < if k == 0 then login + Lifetime(cfg, remember)
                      else events[k - 1].at + RenewedLifetime(cfg, remember)
  }

  predicate AllAnswered(cfg: Config, s: Session, events: seq<Event>, n: nat)
    requires n <= |events|
  {
    forall k :: 0 <= k < n ==> AnswerTo(cfg, s, events, k).Tokens?
  }

  /** While all were answered the n-th generation is stored, with the end of the last renewal. */
  lemma {:induction false} SteadyState(cfg: Config, remember: bool, login: Instant, events: seq<Event>, n: nat)
    requires Steady(login, events) && n <= |events|
    requires AllAnswered(cfg, NewSession(cfg, remember, login), events, n)
    ensures var s := NewSession(cfg, remember, login); var sn := Run(cfg, s, events[..n]);
      && sn.generation == n && sn.revoked.None? && sn.created == login
      && sn.absoluteExpires == login + LongestLifetime(cfg, remember)
      && sn.expires == Min(if n == 0 then login + Lifetime(cfg, remember)
                           else events[n - 1].at + RenewedLifetime(cfg, remember), sn.absoluteExpires)
    decreases n
  {
    if n > 0 {
      SteadyState(cfg, remember, login, events, n - 1);
      assert events[..n][..n - 1] == events[..n - 1];
      assert AnswerTo(cfg, NewSession(cfg, remember, login), events, n - 1).Tokens?;
    }
  }

  /** A session that is always renewed with its current token is answered every time, exactly if each renewal
      comes within the lifetime since the last one and before the absolute end. */
  lemma {:induction false} AnsweredWhileUsed(cfg: Config, remember: bool, login: Instant, events: seq<Event>, n: nat)
    requires Steady(login, events) && n <= |events|
    ensures AllAnswered(cfg, NewSession(cfg, remember, login), events, n) <==>
        forall k :: 0 <= k < n ==> InTime(cfg, remember, login, events, k)
    decreases n
  {
    if n > 0 {
      var s := NewSession(cfg, remember, login);
      AnsweredWhileUsed(cfg, remember, login, events, n - 1);
      if AllAnswered(cfg, s, events, n - 1) {
        SteadyState(cfg, remember, login, events, n - 1);
        assert AnswerTo(cfg, s, events, n - 1).Tokens? <==> InTime(cfg, remember, login, events, n - 1);
      }
    }
  }

  /** A session that was signed out is refused for good. */
  lemma SignedOutStaysOut(cfg: Config, s: Session, events: seq<Event>, i: nat, j: nat)
    requires Inv(cfg, s) && OnTime(s, events) && i < j < |events| && events[i].Revoke?
    ensures AnswerTo(cfg, s, events, j) == Unauthenticated
  {
    Upto(cfg, s, events, i);
    Since(cfg, s, events, i + 1, j);
  }

  /** A refused renewal changes nothing, unless it presents an old token of a live session. */
  lemma RefusalChangesNothing(cfg: Config, s: Session, events: seq<Event>, i: nat)
    requires Inv(cfg, s) && OnTime(s, events) && i < |events| && events[i].Refresh?
    requires AnswerTo(cfg, s, events, i) == Unauthenticated
    ensures var before, after := Run(cfg, s, events[..i]), Run(cfg, s, events[..i + 1]);
      if Alive(before, events[i].at) && events[i].active && events[i].gen < before.generation
      then after == before.(revoked := Some(events[i].at)) else after == before
  {
    Upto(cfg, s, events, i);
  }

  /** What the renewal takes for "remember me" is what the login meant, exactly when remembered sessions
      are configured to last longer than the others. */
  lemma RememberedIffLonger(cfg: Config, now: Instant)
    ensures (forall remember: bool :: Persistent(cfg, NewSession(cfg, remember, now)) == remember) <==>
        Absolute(cfg) > cfg.sessionOnly
  {
    assert !Persistent(cfg, NewSession(cfg, false, now));
    assert Persistent(cfg, NewSession(cfg, true, now)) <==> Absolute(cfg) > cfg.sessionOnly;
  }
}
