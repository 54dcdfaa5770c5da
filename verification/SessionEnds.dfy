/**
 How sessions end: which step ends which token's session, that an ended one never comes
 back, and that nothing else moves it. Also what the times in the records really are.
 */
module SessionEnds {
  import opened Options
  import opened SessionModel

  /** Handed out, and with neither row nor cache entry. */
  predicate Dead(s: State, tok: nat) {
    tok in s.issued && tok !in s.sessions && tok !in s.cache
  }

  /** The sessions a step ends, of the tokens there are. */
  predicate Ends(c: Config, s: State, at: int, step: Step, tok: nat) {
    match step
    case Login(_, evicted) => tok in evicted
    case ChangePassword(_) => true
    case Access(t) => t == tok && Judge(c, s, tok, at) == TimedOut
    case Refresh(_, chosen, _) => chosen == Some(tok)
    case Logout(t) => t == tok
    case SecurityChange => true
    case Sweep =>
      tok in s.sessions && (at - s.sessions[tok].lastSeen > c.idle || at - s.sessions[tok].createdAt > c.absolute)
    case LoseCache(_, _) => false
  }

  /** The token a step opens a session for. */
  function Opened(step: Step): Option<nat> {
    match step
    case Login(tok, _) => Some(tok)
    case ChangePassword(renewed) => Some(renewed)
    case Refresh(_, chosen, renewed) => if chosen.Some? then Some(renewed) else None
    case _ => None
  }

  // ---------------------------------------------------------------- one step

  lemma OpenTokenIsIssued(c: Config, s: State, tok: nat)
    requires Inv(c, s) && tok in s.sessions
    ensures tok in s.issued && tok in s.origin
  {
    assert TokenOk(s, tok);
  }

  /** After a request the same tokens have sessions, but for one refused as timed out. */
  lemma RequestKeepsRows(c: Config, s: State, tok: nat, at: int, t: nat)
    requires s.cache.Keys <= s.sessions.Keys
    ensures t in Request(c, s, tok, at).sessions
       <==> t in s.sessions && !(t == tok && Judge(c, s, tok, at) == TimedOut)
    ensures Request(c, s, tok, at).issued == s.issued
  {
  }

  /** A session is there after a step exactly when the step opened it, or it was there and the step did not end it. */
  lemma StepEndsExactly(c: Config, s: State, at: int, step: Step, t: nat)
    requires Inv(c, s) && Enabled(c, s, at, step)
    ensures t in Apply(c, s, at, step).sessions
       <==> Opened(step) == Some(t) || (t in s.sessions && !Ends(c, s, at, step, t))
  {
    if t in s.sessions {
      OpenTokenIsIssued(c, s, t);
    }
    if step.Access? {
      RequestKeepsRows(c, s.(now := at), step.tok, at, t);
    }
  }

  /** The tokens a step hands out. */
  function HandsOut(step: Step): set<nat> {
    match step
    case Login(tok, _) => {tok}
    case ChangePassword(tok) => {tok}
    case Refresh(_, _, tok) => {tok}
    case _ => {}
  }

  lemma IssuedTokensStay(c: Config, s: State, at: int, step: Step)
    requires Enabled(c, s, at, step)
    ensures Apply(c, s, at, step).issued == s.issued + HandsOut(step) && s.issued !! HandsOut(step)
  {
    match step
    case Access(tok) => assert Request(c, s.(now := at), tok, at).issued == s.issued;
    case _ =>
  }

  lemma ReopenedIsNew(c: Config, s: State, at: int, step: Step, t: nat)
    requires Enabled(c, s, at, step) && t in s.issued
    ensures Opened(step) != Some(t)
  {
  }

  /** A session that a step ends is dead: neither row nor cache entry is left. */
  lemma EndedIsDead(c: Config, s: State, at: int, step: Step, tok: nat)
    requires Inv(c, s) && Enabled(c, s, at, step) && tok in s.issued && Ends(c, s, at, step, tok)
    ensures Dead(Apply(c, s, at, step), tok)
  {
    StepEndsExactly(c, s, at, step, tok);
    ReopenedIsNew(c, s, at, step, tok);
    StepKeepsInv(c, s, at, step);
  }

  lemma TouchKeepsOthers(s: State, tok: nat, data: Session, at: int, t: nat)
    requires t != tok
    ensures SessionData(Touch(Load(s, tok, data), tok, data, at), t) == SessionData(s, t)
  {
  }

  lemma RequestKeepsOthers(c: Config, s: State, tok: nat, at: int, t: nat)
    requires t != tok
    ensures SessionData(Request(c, s, tok, at), t) == SessionData(s, t)
  {
    if Judge(c, s, tok, at) == Accepted {
      TouchKeepsOthers(s, tok, SessionData(s, tok).value, at, t);
    }
  }

  /** What a token is judged by stays the same under every other step. */
  lemma OthersAreJudgedAsBefore(c: Config, s: State, at: int, step: Step, t: nat, later: int)
    requires Inv(c, s) && Enabled(c, s, at, step) && t in s.issued
    requires !Ends(c, s, at, step, t) && step != Access(t) && !step.LoseCache?
    ensures var s' := Apply(c, s, at, step);
            SessionData(s', t) == SessionData(s, t) && Judge(c, s', t, later) == Judge(c, s, t, later)
  {
    ReopenedIsNew(c, s, at, step, t);
    if step.Access? {
      RequestKeepsOthers(c, s.(now := at), step.tok, at, t);
    } else if t in s.cache {
      assert t in s.sessions;
    }
  }

  // ---------------------------------------------------------------- over runs

  lemma RequestsKeepDead(c: Config, s: State, t: nat, at: int, tok: nat)
    requires Dead(s, tok)
    ensures Dead(Request(c, s, t, at), tok)
  {
    if t == tok {
      assert SessionData(s, tok) == None;
    } else {
      RequestKeepsOthers(c, s, t, at, tok);
      assert SessionData(Request(c, s, t, at), tok) == None;
    }
  }

  lemma DeadStaysDead(c: Config, s: State, at: int, step: Step, tok: nat)
    requires Enabled(c, s, at, step) && Dead(s, tok)
    ensures Dead(Apply(c, s, at, step), tok)
  {
    if step.Access? {
      RequestsKeepDead(c, s.(now := at), step.tok, at, tok);
    }
  }

  /** A dead token is refused ever after: tokens are not handed out twice. */
  lemma {:induction false} NeverAcceptedAgain(c: Config, s: State, steps: seq<Timed>, tok: nat, at: int)
    requires RunEnabled(c, s, steps) && Dead(s, tok)
    ensures Dead(Run(c, s, steps), tok) && Judge(c, Run(c, s, steps), tok, at) == NoSession
    decreases |steps|
  {
    if steps != [] {
      DeadStaysDead(c, s, steps[0].at, steps[0].step, tok);
      NeverAcceptedAgain(c, Apply(c, s, steps[0].at, steps[0].step), steps[1..], tok, at);
    }
  }

  /** Some step of the run ends the token's session. */
  predicate EndedIn(c: Config, s: State, steps: seq<Timed>, tok: nat)
    requires RunEnabled(c, s, steps)
    decreases |steps|
  {
    steps != [] &&
    (Ends(c, s, steps[0].at, steps[0].step, tok)
     || EndedIn(c, Apply(c, s, steps[0].at, steps[0].step), steps[1..], tok))
  }

  /**
   Over every run an open session lives until the first logout of its token, eviction,
   password or security change, refresh, sweep or timeout that ends it, and no longer: with
   one of those in the run the token is never accepted again, without any its row is there.
   */
  lemma {:induction false} OpenUntilEnded(c: Config, s: State, steps: seq<Timed>, tok: nat, at: int)
    requires Inv(c, s) && RunEnabled(c, s, steps) && tok in s.sessions
    ensures tok in Run(c, s, steps).sessions <==> !EndedIn(c, s, steps, tok)
    ensures EndedIn(c, s, steps, tok) ==> Judge(c, Run(c, s, steps), tok, at) == NoSession
    decreases |steps|
  {
    if steps != [] {
      var t, step := steps[0].at, steps[0].step;
      var s1 := Apply(c, s, t, step);
      OpenTokenIsIssued(c, s, tok);
      StepKeepsInv(c, s, t, step);
      if Ends(c, s, t, step, tok) {
        EndedIsDead(c, s, t, step, tok);
        NeverAcceptedAgain(c, s1, steps[1..], tok, at);
      } else {
        StepEndsExactly(c, s, t, step, tok);
        OpenUntilEnded(c, s1, steps[1..], tok, at);
      }
    }
  }

  /** A new session is stored and stamped with the moment; a refreshed one keeps its login time. */
  lemma OpenedIsStored(c: Config, s: State, at: int, step: Step)
    requires Inv(c, s) && Enabled(c, s, at, step) && Opened(step).Some?
    ensures var s', tok := Apply(c, s, at, step), Opened(step).value;
            && tok in s'.sessions && tok in s'.origin && s'.sessions[tok].lastSeen == at
            && (step.Refresh? ==>
                  && step.chosen.value in s.sessions
                  && s'.sessions[tok].createdAt == s.sessions[step.chosen.value].createdAt)
            && (!step.Refresh? ==> s'.sessions[tok].createdAt == at && s'.origin[tok] == at)
  {
  }

  // ---------------------------------------------------------------- the recorded times are the real ones

  /** A login, refresh or accepted request of the token. */
  predicate Uses(c: Config, s: State, at: int, step: Step, tok: nat) {
    match step
    case Access(t) => t == tok && Judge(c, s, tok, at) == Accepted
    case _ => Opened(step) == Some(tok)
  }

  lemma ActivityStep(c: Config, s: State, at: int, step: Step, t: nat)
    requires Enabled(c, s, at, step)
    ensures var s' := Apply(c, s, at, step);
            if Uses(c, s, at, step, t) then t in s'.activity && s'.activity[t] == at
            else (t in s'.activity <==> t in s.activity) && (t in s.activity ==> s'.activity[t] == s.activity[t])
  {
  }

  /** When a token was last used in a run. */
  function LastUse(c: Config, s: State, steps: seq<Timed>, tok: nat): Option<int>
    requires RunEnabled(c, s, steps)
    decreases |steps|
  {
    if steps == [] then None
    else
      var later := LastUse(c, Apply(c, s, steps[0].at, steps[0].step), steps[1..], tok);
      if later.Some? then later
      else if Uses(c, s, steps[0].at, steps[0].step, tok) then Some(steps[0].at)
      else None
  }

  lemma {:induction false} ActivityIsLastUse(c: Config, s: State, steps: seq<Timed>, tok: nat)
    requires RunEnabled(c, s, steps)
    ensures var s', last := Run(c, s, steps), LastUse(c, s, steps, tok);
            if last.Some? then tok in s'.activity && s'.activity[tok] == last.value
            else (tok in s'.activity <==> tok in s.activity) && (tok in s.activity ==>
                s'.activity[tok] == s.activity[tok])
    decreases |steps|
  {
    if steps != [] {
      ActivityStep(c, s, steps[0].at, steps[0].step, tok);
      ActivityIsLastUse(c, Apply(c, s, steps[0].at, steps[0].step), steps[1..], tok);
    }
  }

  /**
   In every run: a request that is accepted comes within the idle limit of the last use of
   its token; one that comes within it, less a minute (six without its cache entry), and
   within the absolute limit, is accepted as long as the session was not ended.
   */
  lemma IdleLimitCountsFromLastUse(c: Config, start: int, steps: seq<Timed>, tok: nat, at: int)
    requires RunEnabled(c, Empty(start), steps) && Run(c, Empty(start), steps).now <= at
    ensures var s, last := Run(c, Empty(start), steps), LastUse(c, Empty(start), steps, tok);
            && (Judge(c, s, tok, at) == Accepted ==> last.Some? && at - last.value <= c.idle)
            && (tok in s.sessions ==>
                  && last.Some? && tok in s.origin
                  && (at - last.value <= c.idle - (if tok in s.cache then MINUTE else 6 * MINUTE)
                      && at - s.origin[tok] <= c.absolute ==>
                        Judge(c, s, tok, at) == Accepted))
  {
    var s := Run(c, Empty(start), steps);
    assert Reachable(c, s);
    ActivityIsLastUse(c, Empty(start), steps, tok);
    if Judge(c, s, tok, at) == Accepted {
      AcceptedOnlyInTime(c, s, tok, at);
    }
    if tok in s.sessions {
      LastSeenIsNearActivity(c, s, tok);
      if at - s.activity[tok] <= c.idle - (if tok in s.cache then MINUTE else 6 * MINUTE)
         && at - s.origin[tok] <= c.absolute
      {
        NotRefusedEarly(c, s, tok, at);
      }
    }
  }

  // ---------------------------------------------------------------- the database is spared

  /** A request that writes its token's row. */
  predicate WritesRow(c: Config, s: State, at: int, tok: nat) {
    tok in s.sessions && s.now <= at &&
    var s' := Apply(c, s, at, Access(tok));
    tok in s'.sessions && s'.sessions[tok] != s.sessions[tok]
  }

  lemma RowWriteIsMarked(c: Config, s: State, at: int, tok: nat)
    requires Inv(c, s) && WritesRow(c, s, at, tok)
    ensures tok in s.dbUpdates ==> at - s.dbUpdates[tok] >= 5 * MINUTE
    ensures var s' := Apply(c, s, at, Access(tok)); tok in s'.dbUpdates && s'.dbUpdates[tok] == at
  {
  }

  /** A request that writes an existing cache entry finds it more than a minute old. */
  lemma EntryWritesAreApart(c: Config, s: State, at: int, tok: nat)
    requires s.now <= at && tok in s.cache && Judge(c, s, tok, at) == Accepted
    ensures var s' := Apply(c, s, at, Access(tok));
            tok in s'.cache && s'.cache[tok] ==
              if at - s.cache[tok].lastSeen > MINUTE then s.cache[tok].(lastSeen := at) else s.cache[tok]
  {
  }

  /** The step drops the mark that the token's row was written. */
  predicate LosesMark(step: Step, tok: nat) {
    step.LoseCache? && tok in step.updates
  }

  lemma MarkStep(c: Config, s: State, at: int, step: Step, tok: nat)
    requires Enabled(c, s, at, step) && tok in s.dbUpdates && s.dbUpdates[tok] <= s.now && !LosesMark(step, tok)
    ensures var s' := Apply(c, s, at, step);
            tok in s'.dbUpdates && s.dbUpdates[tok] <= s'.dbUpdates[tok] <= s'.now
  {
  }

  lemma {:induction false} MarkStays(c: Config, s: State, steps: seq<Timed>, tok: nat)
    requires RunEnabled(c, s, steps) && tok in s.dbUpdates && s.dbUpdates[tok] <= s.now
    requires forall n :: 0 <= n < |steps| ==> !LosesMark(steps[n].step, tok)
    ensures var s' := Run(c, s, steps); tok in s'.dbUpdates && s.dbUpdates[tok] <= s'.dbUpdates[tok] <= s'.now
    decreases |steps|
  {
    if steps != [] {
      MarkStep(c, s, steps[0].at, steps[0].step, tok);
      MarkStays(c, Apply(c, s, steps[0].at, steps[0].step), steps[1..], tok);
    }
  }

  /** As long as the mark is not lost, requests write a token's row at least five minutes apart. */
  lemma RowWritesAreApart(c: Config, s: State, first: int, between: seq<Timed>, second: int, tok: nat)
    requires Inv(c, s) && WritesRow(c, s, first, tok)
    requires var s1 := Apply(c, s, first, Access(tok));
             && RunEnabled(c, s1, between) && WritesRow(c, Run(c, s1, between), second, tok)
    requires forall n :: 0 <= n < |between| ==> !LosesMark(between[n].step, tok)
    ensures second - first >= 5 * MINUTE
  {
    var s1 := Apply(c, s, first, Access(tok));
    RowWriteIsMarked(c, s, first, tok);
    StepKeepsInv(c, s, first, Access(tok));
    MarkStays(c, s1, between, tok);
    RunKeepsInv(c, s1, between);
    RowWriteIsMarked(c, Run(c, s1, between), second, tok);
  }
}
