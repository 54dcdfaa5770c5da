/**
 Sessions of one user: a throttled cache of "last seen" over a more heavily throttled
 database column, idle and absolute timeouts, token refresh, and the session cap.
 Times are in microseconds; tokens stand for the hashes of access tokens.
 */
module SessionModel {
  import opened Options

  const MINUTE: int := 60_000_000
  const CACHE_THROTTLE: int := MINUTE
  const DB_THROTTLE: int := 5 * MINUTE

  datatype Config = Config(idle: int, absolute: int, maxSessions: int)

  datatype Session = Session(createdAt: int, lastSeen: int)

  /**
   `sessions` is the table, `cache` and `dbUpdates` the two kinds of Redis entries and
   `issued` every token ever handed out. `activity` and `origin` only record: the last
   login, refresh or accepted request of a token, and the login its session goes back to.
   */
  datatype State = State(
    sessions: map<nat, Session>, cache: map<nat, Session>, dbUpdates: map<nat, int>,
    issued: set<nat>, now: int, activity: map<nat, int>, origin: map<nat, int>)

  datatype Outcome = Accepted | TimedOut | NoSession

  // ---------------------------------------------------------------- a request

  /** The data a request is judged by: the cached entry, or else the row. */
  function SessionData(s: State, tok: nat): Option<Session> {
    if tok in s.cache then Some(s.cache[tok])
    else if tok in s.sessions then Some(s.sessions[tok])
    else None
  }

  predicate OutOfTime(c: Config, data: Session, at: int) {
    data.lastSeen < at - c.idle || data.createdAt < at - c.absolute
  }

  function Judge(c: Config, s: State, tok: nat, at: int): Outcome {
    match SessionData(s, tok)
    case None => NoSession
    case Some(data) => if OutOfTime(c, data, at) then TimedOut else Accepted
  }

  predicate WritesBack(s: State, tok: nat, at: int) {
    !(tok in s.dbUpdates && at - s.dbUpdates[tok] < DB_THROTTLE)
  }

  /** `update_last_seen`, after the entry has been loaded into the cache. */
  function Touch(s: State, tok: nat, data: Session, at: int): State {
    if at - data.lastSeen <= CACHE_THROTTLE then s
    else
      var s1 := s.(cache := s.cache[tok := data.(lastSeen := at)]);
      if WritesBack(s, tok, at) then
        s1.(sessions := if tok in s.sessions then s.sessions[tok := s.sessions[tok].(lastSeen := at)] else s.sessions,
            dbUpdates := s.dbUpdates[tok := at])
      else s1
  }

  function Load(s: State, tok: nat, data: Session): State {
    if tok in s.cache then s else s.(cache := s.cache[tok := data])
  }

  function Drop(s: State, toks: set<nat>): State {
    s.(sessions := s.sessions - toks, cache := s.cache - toks)
  }

  function Request(c: Config, s: State, tok: nat, at: int): (r: State)
    ensures r.origin == s.origin && r.issued == s.issued && r.now == s.now
  {
    match Judge(c, s, tok, at)
    case NoSession => s
    case TimedOut => Drop(s, {tok})
    case Accepted =>
      var data := SessionData(s, tok).value;
      Touch(Load(s, tok, data), tok, data, at).(activity := s.activity[tok := at])
  }

  // ---------------------------------------------------------------- opening and renaming

  /** A new row for a token just issued. */
  function OpenSession(s: State, tok: nat, at: int): State {
    s.(sessions := s.sessions[tok := Session(at, at)], issued := s.issued + {tok},
       activity := s.activity[tok := at], origin := s.origin[tok := at])
  }

  /** How many sessions a login deletes first. */
  function EvictionCount(c: Config, open: nat): nat {
    if open < c.maxSessions then 0
    else if c.maxSessions <= 0 then open
    else open - c.maxSessions + 1
  }

  /** The least recently seen rows, as the table has it; ties may fall either way. */
  predicate AreOldest(s: State, evicted: set<nat>) {
    && evicted <= s.sessions.Keys
    && forall e, v :: e in evicted && v in s.sessions && v !in evicted ==>
        s.sessions[e].lastSeen <= s.sessions[v].lastSeen
  }

  /** The session a refresh renames: that of the old token, or else a most recently seen one. */
  predicate Refreshes(s: State, prior: Option<nat>, tok: nat) {
    tok in s.sessions &&
    if prior.Some? && prior.value in s.sessions then tok == prior.value
    else forall v :: v in s.sessions ==> s.sessions[v].lastSeen <= s.sessions[tok].lastSeen
  }

  /** Saving the row stamps it, and the fresh value is what gets cached. */
  function Rename(s: State, tok: nat, renewed: nat, at: int): State
    requires tok in s.sessions && tok in s.origin
  {
    var row := s.sessions[tok].(lastSeen := at);
    s.(sessions := (s.sessions - {tok})[renewed := row], cache := (s.cache - {tok})[renewed := row],
       issued := s.issued + {renewed},
       activity := s.activity[renewed := at], origin := s.origin[renewed := s.origin[tok]])
  }

  // ---------------------------------------------------------------- transitions

  datatype Step =
    | Login(tok: nat, evicted: set<nat>)
    | ChangePassword(renewed: nat)
    | Access(tok: nat)
    | Refresh(prior: Option<nat>, chosen: Option<nat>, renewed: nat)
    | Logout(tok: nat)
    | SecurityChange
    | Sweep
    | LoseCache(entries: set<nat>, updates: set<nat>)

  /** What the sweep of timed-out rows deletes, going by the table alone. */
  function Overdue(c: Config, s: State, at: int): set<nat> {
    set tok | tok in s.sessions && OutOfTime(c, s.sessions[tok], at)
  }

  predicate Enabled(c: Config, s: State, at: int, step: Step) {
    s.now <= at &&
    match step
    case Login(tok, evicted) =>
      tok !in s.issued && AreOldest(s, evicted) && |evicted| == EvictionCount(c, |s.sessions|)
    case ChangePassword(renewed) => renewed !in s.issued
    case Access(_) => true
    case Refresh(prior, chosen, renewed) =>
      renewed !in s.issued && s.sessions.Keys <= s.origin.Keys &&
      (if chosen.Some? then Refreshes(s, prior, chosen.value) else s.sessions == map[])
    case Logout(_) => true
    case SecurityChange => true
    case Sweep => true
    case LoseCache(_, _) => true
  }

  function Apply(c: Config, s: State, at: int, step: Step): State
    requires Enabled(c, s, at, step)
  {
    var s0 := s.(now := at);
    match step
    case Login(tok, evicted) => OpenSession(Drop(s0, evicted), tok, at)
    case ChangePassword(renewed) => OpenSession(Drop(s0, s.sessions.Keys), renewed, at)
    case Access(tok) => Request(c, s0, tok, at)
    case Refresh(_, chosen, renewed) =>
      if chosen.Some? then Rename(s0, chosen.value, renewed, at) else s0.(issued := s.issued + {renewed})
    case Logout(tok) => Drop(s0, {tok})
    case SecurityChange => Drop(s0, s.sessions.Keys)
    case Sweep => Drop(s0, Overdue(c, s, at))
    case LoseCache(entries, updates) => s0.(cache := s.cache - entries, dbUpdates := s.dbUpdates - updates)
  }

  datatype Timed = Timed(at: int, step: Step)

  predicate RunEnabled(c: Config, s: State, steps: seq<Timed>)
    decreases |steps|
  {
    steps == [] ||
    (Enabled(c, s, steps[0].at, steps[0].step) && RunEnabled(c, Apply(c, s, steps[0].at, steps[0].step), steps[1..]))
  }

  function Run(c: Config, s: State, steps: seq<Timed>): State
    requires RunEnabled(c, s, steps)
    decreases |steps|
  {
    if steps == [] then s else Run(c, Apply(c, s, steps[0].at, steps[0].step), steps[1..])
  }

  function Empty(start: int): State {
    State(map[], map[], map[], {}, start, map[], map[])
  }

  ghost predicate Reachable(c: Config, s: State) {
    exists start, steps :: RunEnabled(c, Empty(start), steps) && Run(c, Empty(start), steps) == s
  }

  // ---------------------------------------------------------------- the invariant

  /** Row and record of one token. */
  predicate RowOk(row: Session, now: int, activity: int, origin: int) {
    && row.createdAt == origin
    && row.createdAt <= row.lastSeen <= activity <= now
    && activity - row.lastSeen < CACHE_THROTTLE + DB_THROTTLE
  }

  predicate EntryOk(entry: Session, row: Session, activity: int) {
    && entry.createdAt == row.createdAt
    && row.lastSeen <= entry.lastSeen <= activity
    && activity - entry.lastSeen <= CACHE_THROTTLE
    && entry.lastSeen - row.lastSeen < DB_THROTTLE
  }

  ghost predicate TokenOk(s: State, tok: nat)
    requires tok in s.sessions
  {
    && tok in s.issued && tok in s.activity && tok in s.origin
    && RowOk(s.sessions[tok], s.now, s.activity[tok], s.origin[tok])
    && (tok in s.cache ==> EntryOk(s.cache[tok], s.sessions[tok], s.activity[tok]))
    && (tok in s.dbUpdates ==> s.dbUpdates[tok] <= s.sessions[tok].lastSeen)
  }

  function Cap(c: Config): nat {
    if c.maxSessions < 1 then 1 else c.maxSessions
  }

  ghost predicate Inv(c: Config, s: State) {
    && s.cache.Keys <= s.sessions.Keys
    && s.dbUpdates.Keys <= s.issued
    && (forall tok :: tok in s.sessions ==> TokenOk(s, tok))
    && |s.sessions| <= Cap(c)
  }

  // ---------------------------------------------------------------- every step keeps it

  lemma FewerRows(a: map<nat, Session>, toks: set<nat>)
    ensures |a - toks| <= |a|
    ensures toks <= a.Keys ==> |a - toks| == |a| - |toks|
  {
    assert (a - toks).Keys == a.Keys - toks;
    assert a.Keys == (a.Keys - toks) + (a.Keys * toks);
    assert toks <= a.Keys ==> a.Keys * toks == toks;
  }

  lemma TickKeepsInv(c: Config, s: State, at: int)
    requires Inv(c, s) && s.now <= at
    ensures Inv(c, s.(now := at))
  {
    forall tok | tok in s.sessions ensures TokenOk(s.(now := at), tok) {
      assert TokenOk(s, tok);
    }
  }

  lemma DropKeepsInv(c: Config, s: State, at: int, toks: set<nat>)
    requires Inv(c, s) && s.now <= at
    ensures Inv(c, Drop(s.(now := at), toks))
  {
    var s' := Drop(s.(now := at), toks);
    FewerRows(s.sessions, toks);
    forall tok | tok in s'.sessions ensures TokenOk(s', tok) {
      assert TokenOk(s, tok);
    }
  }

  lemma OpenKeepsInv(c: Config, s: State, tok: nat, at: int)
    requires Inv(c, s) && s.now == at && tok !in s.issued && |s.sessions| < Cap(c)
    ensures Inv(c, OpenSession(s, tok, at))
  {
    var s' := OpenSession(s, tok, at);
    forall t | t in s'.sessions ensures TokenOk(s', t) {
      assert t != tok ==> TokenOk(s, t);
      assert tok in s.sessions ==> TokenOk(s, tok);
    }
  }

  lemma LoginKeepsInv(c: Config, s: State, at: int, step: Step)
    requires Inv(c, s) && Enabled(c, s, at, step) && (step.Login? || step.ChangePassword?)
    ensures Inv(c, Apply(c, s, at, step))
  {
    var gone := if step.Login? then step.evicted else s.sessions.Keys;
    var renewed := if step.Login? then step.tok else step.renewed;
    DropKeepsInv(c, s, at, gone);
    FewerRows(s.sessions, gone);
    assert |s.sessions.Keys| == |s.sessions|;
    OpenKeepsInv(c, Drop(s.(now := at), gone), renewed, at);
  }

  lemma RefreshKeepsInv(c: Config, s: State, tok: nat, renewed: nat, at: int)
    requires Inv(c, s) && s.now <= at && tok in s.sessions && tok in s.origin && renewed !in s.issued
    ensures Inv(c, Rename(s.(now := at), tok, renewed, at))
  {
    var s' := Rename(s.(now := at), tok, renewed, at);
    FewerRows(s.sessions, {tok});
    forall t | t in s'.sessions ensures TokenOk(s', t) {
      assert TokenOk(s, tok);
      assert t != renewed ==> TokenOk(s, t);
    }
  }

  /** An accepted request leaves the token's entries as close to it as the throttles promise. */
  lemma AcceptKeepsToken(c: Config, s: State, tok: nat, at: int)
    requires Inv(c, s) && s.now <= at && Judge(c, s.(now := at), tok, at) == Accepted
    ensures var s' := Request(c, s.(now := at), tok, at); tok in s'.sessions && tok in s'.cache && TokenOk(s', tok)
  {
    assert tok in s.sessions && TokenOk(s, tok);
  }

  /** A request touches no token but its own. */
  lemma AcceptKeepsOthers(c: Config, s: State, tok: nat, at: int, t: nat)
    requires Inv(c, s) && s.now <= at && Judge(c, s.(now := at), tok, at) == Accepted && t != tok
    ensures var s' := Request(c, s.(now := at), tok, at);
            && (t in s'.sessions <==> t in s.sessions) && (t in s'.cache <==> t in s.cache)
            && (t in s'.sessions ==> TokenOk(s', t))
  {
    assert t in s.sessions ==> TokenOk(s, t);
  }

  lemma AcceptKeepsInv(c: Config, s: State, tok: nat, at: int)
    requires Inv(c, s) && s.now <= at && Judge(c, s.(now := at), tok, at) == Accepted
    ensures Inv(c, Request(c, s.(now := at), tok, at))
  {
    var s' := Request(c, s.(now := at), tok, at);
    AcceptKeepsToken(c, s, tok, at);
    assert tok in s.sessions && TokenOk(s, tok);
    forall t ensures t in s'.sessions <==> t in s.sessions
             ensures t in s'.cache ==> t in s'.sessions
             ensures t in s'.sessions ==> TokenOk(s', t)
    {
      if t != tok {
        AcceptKeepsOthers(c, s, tok, at, t);
      }
    }
    assert s'.sessions.Keys == s.sessions.Keys;
    assert |s'.sessions| == |s'.sessions.Keys|;
  }

  lemma AccessKeepsInv(c: Config, s: State, tok: nat, at: int)
    requires Inv(c, s) && s.now <= at
    ensures Inv(c, Request(c, s.(now := at), tok, at))
  {
    var s0 := s.(now := at);
    match Judge(c, s0, tok, at)
    case NoSession => TickKeepsInv(c, s, at);
    case TimedOut => DropKeepsInv(c, s, at, {tok});
    case Accepted => AcceptKeepsInv(c, s, tok, at);
  }

  lemma LoseCacheKeepsInv(c: Config, s: State, at: int, entries: set<nat>, updates: set<nat>)
    requires Inv(c, s) && s.now <= at
    ensures Inv(c, s.(now := at, cache := s.cache - entries, dbUpdates := s.dbUpdates - updates))
  {
    var s' := s.(now := at, cache := s.cache - entries, dbUpdates := s.dbUpdates - updates);
    forall t | t in s'.sessions ensures TokenOk(s', t) {
      assert TokenOk(s, t);
    }
  }

  lemma StepKeepsInv(c: Config, s: State, at: int, step: Step)
    requires Inv(c, s) && Enabled(c, s, at, step)
    ensures Inv(c, Apply(c, s, at, step))
  {
    match step
    case Login(_, _) => LoginKeepsInv(c, s, at, step);
    case ChangePassword(_) => LoginKeepsInv(c, s, at, step);
    case Access(tok) => AccessKeepsInv(c, s, tok, at);
    case Refresh(_, chosen, renewed) =>
      if chosen.Some? {
        RefreshKeepsInv(c, s, chosen.value, renewed, at);
      } else {
        LoseCacheKeepsInv(c, s, at, {}, {});
        assert s.cache - {} == s.cache && s.dbUpdates - {} == s.dbUpdates;
      }
    case Logout(tok) => DropKeepsInv(c, s, at, {tok});
    case SecurityChange => DropKeepsInv(c, s, at, s.sessions.Keys);
    case Sweep => DropKeepsInv(c, s, at, Overdue(c, s, at));
    case LoseCache(entries, updates) => LoseCacheKeepsInv(c, s, at, entries, updates);
  }

  lemma {:induction false} RunKeepsInv(c: Config, s: State, steps: seq<Timed>)
    requires Inv(c, s) && RunEnabled(c, s, steps)
    ensures Inv(c, Run(c, s, steps))
    decreases |steps|
  {
    if steps != [] {
      StepKeepsInv(c, s, steps[0].at, steps[0].step);
      RunKeepsInv(c, Apply(c, s, steps[0].at, steps[0].step), steps[1..]);
    }
  }

  lemma ReachableKeepsInv(c: Config, s: State)
    requires Reachable(c, s)
    ensures Inv(c, s)
  {
    var start, steps :| RunEnabled(c, Empty(start), steps) && Run(c, Empty(start), steps) == s;
    RunKeepsInv(c, Empty(start), steps);
  }

  // ---------------------------------------------------------------- real time bounds

  /** In every reachable state: cached within a minute, stored within six, of the last activity. */
  lemma LastSeenIsNearActivity(c: Config, s: State, tok: nat)
    requires Reachable(c, s) && tok in s.sessions
    ensures tok in s.activity && tok in s.origin && s.sessions[tok].createdAt == s.origin[tok]
    ensures 0 <= s.activity[tok] - s.sessions[tok].lastSeen < 6 * MINUTE
    ensures tok in s.cache ==> 0 <= s.activity[tok] - s.cache[tok].lastSeen <= MINUTE
  {
    ReachableKeepsInv(c, s);
    assert TokenOk(s, tok);
  }

  /**
   No request is accepted more than the idle limit after the last activity, nor more than
   the absolute limit after the login its session goes back to through any refreshes.
   */
  lemma AcceptedOnlyInTime(c: Config, s: State, tok: nat, at: int)
    requires Reachable(c, s) && s.now <= at && Judge(c, s, tok, at) == Accepted
    ensures tok in s.sessions && tok in s.activity && tok in s.origin
    ensures at - s.activity[tok] <= c.idle && at - s.origin[tok] <= c.absolute
  {
    ReachableKeepsInv(c, s);
    assert tok in s.sessions && TokenOk(s, tok);
  }

  /**
   Within the absolute limit, no open session is refused for idleness up to a minute short
   of the idle limit after its last activity - six minutes when its cache entry was lost.
   */
  lemma NotRefusedEarly(c: Config, s: State, tok: nat, at: int)
    requires Reachable(c, s) && s.now <= at && tok in s.sessions && tok in s.activity && tok in s.origin
    requires at - s.origin[tok] <= c.absolute
    requires at - s.activity[tok] <= c.idle - (if tok in s.cache then MINUTE else 6 * MINUTE)
    ensures Judge(c, s, tok, at) == Accepted
  {
    ReachableKeepsInv(c, s);
    assert TokenOk(s, tok);
  }

  /** The login a session goes back to never moves: refreshing passes it on. */
  lemma RefreshKeepsOrigin(c: Config, s: State, at: int, prior: Option<nat>, tok: nat, renewed: nat)
    requires Reachable(c, s) && Enabled(c, s, at, Refresh(prior, Some(tok), renewed))
    ensures var s' := Apply(c, s, at, Refresh(prior, Some(tok), renewed));
            && tok !in s'.sessions && renewed in s'.sessions && renewed in s'.origin
            && s'.origin[renewed] == s.origin[tok] && s'.sessions[renewed].createdAt == s.sessions[tok].createdAt
            && Judge(c, s', tok, at) == NoSession
  {
    ReachableKeepsInv(c, s);
    assert TokenOk(s, tok);
  }

  /** Run-level: the absolute limit counts from a login (or password change) of the run itself. */
  ghost predicate OpensAt(steps: seq<Timed>, at: int) {
    exists n :: 0 <= n < |steps| && steps[n].at == at && (steps[n].step.Login? || steps[n].step.ChangePassword?)
  }

  lemma OriginStep(c: Config, s: State, at: int, step: Step, t: nat)
    requires Enabled(c, s, at, step) && t in Apply(c, s, at, step).origin
    ensures var origin := Apply(c, s, at, step).origin[t];
            ((step.Login? || step.ChangePassword?) && origin == at) || HasOrigin(s, origin)
  {
    match step
    case Refresh(_, chosen, renewed) =>
      if chosen.Some? && t == renewed {
        assert chosen.value in s.origin;
      } else {
        assert t in s.origin;
      }
    case Login(tok, _) => assert t == tok || t in s.origin;
    case ChangePassword(tok) => assert t == tok || t in s.origin;
    case Access(_) => assert t in s.origin;
    case Logout(_) => assert t in s.origin;
    case SecurityChange => assert t in s.origin;
    case Sweep => assert t in s.origin;
    case LoseCache(_, _) => assert t in s.origin;
  }

  ghost predicate HasOrigin(s: State, at: int) {
    exists t :: t in s.origin && s.origin[t] == at
  }

  lemma {:induction false} OriginIsALogin(c: Config, s: State, steps: seq<Timed>, tok: nat)
    requires RunEnabled(c, s, steps) && tok in Run(c, s, steps).origin
    ensures var origin := Run(c, s, steps).origin[tok];
            OpensAt(steps, origin) || HasOrigin(s, origin)
    decreases |steps|
  {
    if steps != [] {
      var s1 := Apply(c, s, steps[0].at, steps[0].step);
      OriginIsALogin(c, s1, steps[1..], tok);
      var origin := Run(c, s1, steps[1..]).origin[tok];
      if OpensAt(steps[1..], origin) {
        var n :| 0 <= n < |steps[1..]| && steps[1..][n].at == origin
            && (steps[1..][n].step.Login? || steps[1..][n].step.ChangePassword?);
        assert steps[n + 1] == steps[1..][n];
      } else {
        var t :| t in s1.origin && s1.origin[t] == origin;
        OriginStep(c, s, steps[0].at, steps[0].step, t);
      }
    }
  }

  /** No sequence of refreshes carries a session past a login plus the absolute limit. */
  lemma AbsoluteLimitCountsFromLogin(c: Config, start: int, steps: seq<Timed>, tok: nat, at: int)
    requires RunEnabled(c, Empty(start), steps) && Run(c, Empty(start), steps).now <= at
    requires Judge(c, Run(c, Empty(start), steps), tok, at) == Accepted
    ensures exists n :: 0 <= n < |steps| && (steps[n].step.Login? || steps[n].step.ChangePassword?)
                        && at - steps[n].at <= c.absolute
  {
    var s := Run(c, Empty(start), steps);
    assert Reachable(c, s);
    AcceptedOnlyInTime(c, s, tok, at);
    OriginIsALogin(c, Empty(start), steps, tok);
  }

  // ---------------------------------------------------------------- the cap and who goes

  /** No user ever holds more than max(1, limit) sessions. */
  lemma SessionsAreCapped(c: Config, s: State)
    requires Reachable(c, s)
    ensures |s.sessions| <= if c.maxSessions < 1 then 1 else c.maxSessions
  {
    ReachableKeepsInv(c, s);
  }

  /**
   Near-LRU: a session evicted at login was last seen, by the table, no later than any
   that stays, so it was really active less than six minutes after any of those.
   */
  lemma EvictionIsNearLru(c: Config, s: State, at: int, tok: nat, evicted: set<nat>, e: nat, v: nat)
    requires Reachable(c, s) && Enabled(c, s, at, Login(tok, evicted))
    requires e in evicted && v in s.sessions && v !in evicted
    ensures s.sessions[e].lastSeen <= s.sessions[v].lastSeen
    ensures e in s.activity && v in s.activity && s.activity[e] < s.activity[v] + 6 * MINUTE
    ensures var s' := Apply(c, s, at, Login(tok, evicted)); e !in s'.sessions && v in s'.sessions && tok in s'.sessions
  {
    ReachableKeepsInv(c, s);
    assert TokenOk(s, e) && TokenOk(s, v);
  }

  lemma OneMoreRow(rows: map<nat, Session>, tok: nat, row: Session)
    requires tok !in rows
    ensures |rows[tok := row]| == |rows| + 1
  {
    assert rows[tok := row].Keys == rows.Keys + {tok};
  }

  lemma FullEvictionEmpties(rows: map<nat, Session>, evicted: set<nat>)
    requires evicted <= rows.Keys
    ensures |evicted| <= |rows| && (|evicted| == 0 ==> evicted == {})
  {
    assert rows.Keys == evicted + (rows.Keys - evicted);
  }

  lemma OpenTokensWereIssued(c: Config, s: State)
    requires Inv(c, s)
    ensures s.sessions.Keys <= s.issued
  {
    forall t | t in s.sessions ensures t in s.issued {
      assert TokenOk(s, t);
    }
  }

  /** Nobody is evicted below the cap, and a login at the cap leaves exactly the cap. */
  lemma LoginFillsUpToCap(c: Config, s: State, at: int, tok: nat, evicted: set<nat>)
    requires Reachable(c, s) && Enabled(c, s, at, Login(tok, evicted))
    ensures var s' := Apply(c, s, at, Login(tok, evicted));
            |s'.sessions| == if |s.sessions| < c.maxSessions then |s.sessions| + 1 else Cap(c)
    ensures |s.sessions| < c.maxSessions ==> evicted == {}
  {
    ReachableKeepsInv(c, s);
    FewerRows(s.sessions, evicted);
    OpenTokensWereIssued(c, s);
    OneMoreRow(s.sessions - evicted, tok, Session(at, at));
    FullEvictionEmpties(s.sessions, evicted);
  }
}
