/** The session code in its own form, over the table and the Redis entries it rewrites. */
module SessionStore {
  import opened Options
  import opened SessionModel

  datatype Account = Account(
    isActive: bool, password: string, role: string, isAuthorizedForTools: bool, authorizedTools: seq<string>,
    profile: string)

  /** The changes of an account that leave its sessions alone: activating it, and what is not about access. */
  ghost predicate KeepsAccess(was: Account, account: Account) {
    exists profile :: account == was.(isActive := account.isActive, profile := profile)
                      && (was.isActive ==> account.isActive)
  }

  class Sessions {
    const config: Config
    var sessions: map<nat, Session>
    var cache: map<nat, Session>
    var dbUpdates: map<nat, int>
    ghost var issued: set<nat>
    ghost var now: int
    ghost var activity: map<nat, int>
    ghost var origin: map<nat, int>

    ghost function Model(): State
      reads this
    {
      State(sessions, cache, dbUpdates, issued, now, activity, origin)
    }

    constructor (config: Config, start: int)
      ensures this.config == config && Model() == Empty(start)
    {
      this.config := config;
      sessions, cache, dbUpdates := map[], map[], map[];
      issued, now, activity, origin := {}, start, map[], map[];
    }

    // -------------------------------------------------------------- requests

    method GetSessionData(tok: nat) returns (data: Option<Session>)
      modifies this`cache
      ensures data == old(SessionData(Model(), tok))
      ensures cache == if data.Some? then old(Load(Model(), tok, data.value)).cache else old(cache)
    {
      if tok in cache {
        return Some(cache[tok]);
      }
      if tok !in sessions {
        return None;
      }
      cache := cache[tok := sessions[tok]];
      data := Some(sessions[tok]);
    }

    method CheckTimeouts(tok: nat, data: Session, at: int) returns (ok: bool)
      modifies this`sessions, this`cache
      ensures ok == !OutOfTime(config, data, at)
      ensures sessions == (if ok then old(sessions) else old(sessions) - {tok})
      ensures cache == (if ok then old(cache) else old(cache) - {tok})
    {
      var idleLimit := at - config.idle;
      var absoluteLimit := at - config.absolute;
      if data.lastSeen < idleLimit || data.createdAt < absoluteLimit {
        sessions := sessions - {tok};
        cache := cache - {tok};
        return false;
      }
      ok := true;
    }

    method UpdateLastSeen(tok: nat, data: Session, at: int)
      modifies this`sessions, this`cache, this`dbUpdates
      ensures Model() == Touch(old(Model()), tok, data, at)
    {
      if at - data.lastSeen > CACHE_THROTTLE {
        cache := cache[tok := Session(data.createdAt, at)];
        var shouldUpdateDb := true;
        if tok in dbUpdates {
          if at - dbUpdates[tok] < DB_THROTTLE {
            shouldUpdateDb := false;
          }
        }
        if shouldUpdateDb {
          if tok in sessions {
            sessions := sessions[tok := sessions[tok].(lastSeen := at)];
          }
          dbUpdates := dbUpdates[tok := at];
        }
      }
    }

    method Authenticate(tok: nat, at: int) returns (outcome: Outcome)
      requires now <= at
      modifies this`sessions, this`cache, this`dbUpdates, this`now, this`activity
      ensures outcome == old(Judge(config, Model(), tok, at))
      ensures Model() == Apply(config, old(Model()), at, Access(tok))
    {
      ghost var before := Model();
      now := at;
      var data := GetSessionData(tok);
      if data.None? {
        return NoSession;
      }
      var ok := CheckTimeouts(tok, data.value, at);
      if !ok {
        assert Load(before, tok, data.value).cache - {tok} == before.cache - {tok};
        return TimedOut;
      }
      UpdateLastSeen(tok, data.value, at);
      activity := activity[tok := at];
      outcome := Accepted;
    }

    // -------------------------------------------------------------- login

    method OldestOf(candidates: set<nat>) returns (oldest: nat)
      requires candidates != {} && candidates <= sessions.Keys
      ensures oldest in candidates
      ensures forall v :: v in candidates ==> sessions[oldest].lastSeen <= sessions[v].lastSeen
    {
      oldest :| oldest in candidates;
      var todo := candidates;
      while todo != {}
        invariant todo <= candidates && oldest in candidates
        invariant forall v :: v in candidates && v !in todo ==> sessions[oldest].lastSeen <= sessions[v].lastSeen
        decreases |todo|
      {
        var v :| v in todo;
        if sessions[v].lastSeen < sessions[oldest].lastSeen {
          oldest := v;
        }
        todo := todo - {v};
      }
    }

    /** The first `n` rows in the order of last seen. */
    method OldestSessions(n: nat) returns (oldest: set<nat>)
      requires n <= |sessions|
      ensures AreOldest(Model(), oldest) && |oldest| == n
    {
      oldest := {};
      assert |sessions.Keys| == |sessions|;
      for i := 0 to n
        invariant AreOldest(Model(), oldest) && |oldest| == i
      {
        var rest := sessions.Keys - oldest;
        assert |sessions.Keys - oldest| == |sessions.Keys| - |oldest| by {
          assert sessions.Keys == oldest + (sessions.Keys - oldest);
        }
        var tok := OldestOf(rest);
        oldest := oldest + {tok};
      }
    }

    /** Deleting a row also deletes its cache entry. */
    method DeleteRows(toks: set<nat>)
      modifies this`sessions, this`cache
      ensures Model() == Drop(old(Model()), toks)
    {
      var todo := toks;
      while todo != {}
        invariant todo <= toks
        invariant sessions == old(sessions) - (toks - todo)
        invariant cache == old(cache) - (toks - todo)
        decreases |todo|
      {
        var tok :| tok in todo;
        cache := cache - {tok};
        sessions := sessions - {tok};
        todo := todo - {tok};
      }
    }

    method CreateRow(tok: nat, at: int)
      requires now == at
      modifies this`sessions, this`issued, this`activity, this`origin
      ensures Model() == OpenSession(old(Model()), tok, at)
    {
      sessions := sessions[tok := Session(at, at)];
      issued := issued + {tok};
      activity, origin := activity[tok := at], origin[tok := at];
    }

    method IssueLogin(tok: nat, at: int) returns (evicted: set<nat>)
      requires now <= at && tok !in issued
      modifies this
      ensures old(Enabled(config, Model(), at, Login(tok, evicted)))
      ensures Model() == Apply(config, old(Model()), at, Login(tok, evicted))
    {
      evicted := {};
      var count := |sessions|;
      if count >= config.maxSessions {
        var toDelete := count - config.maxSessions + 1;
        evicted := OldestSessions(if toDelete > count then count else toDelete);
      }
      now := at;
      DeleteRows(evicted);
      CreateRow(tok, at);
    }

    // -------------------------------------------------------------- other session changes

    /** The new password deletes every row; the token issued with it opens the only one. */
    method ChangeOwnPassword(renewed: nat, at: int)
      requires now <= at && renewed !in issued
      modifies this
      ensures Model() == Apply(config, old(Model()), at, ChangePassword(renewed))
    {
      now := at;
      DeleteRows(sessions.Keys);
      CreateRow(renewed, at);
    }

    method EvictOnSecurityChange(at: int)
      requires now <= at
      modifies this`sessions, this`cache, this`now
      ensures Model() == Apply(config, old(Model()), at, SecurityChange)
    {
      now := at;
      DeleteRows(sessions.Keys);
    }

    /** A save of the account; `was` is its row before, missing for a new one. */
    method SaveAccount(was: Option<Account>, account: Account, at: int)
      requires now <= at
      modifies this`sessions, this`cache, this`now
      ensures if was.None? || KeepsAccess(was.value, account)
              then Model() == old(Model()).(now := at)
              else Model() == Apply(config, old(Model()), at, SecurityChange)
    {
      now := at;
      if was.None? {
        return;
      }
      var deactivated := was.value.isActive && !account.isActive;
      var passwordChanged := was.value.password != account.password;
      var roleChanged := was.value.role != account.role;
      var toolsChanged := was.value.isAuthorizedForTools != account.isAuthorizedForTools
        || was.value.authorizedTools != account.authorizedTools;
      if deactivated || passwordChanged || roleChanged || toolsChanged {
        EvictOnSecurityChange(at);
      } else {
        assert account == was.value.(isActive := account.isActive, profile := account.profile);
      }
    }

    method LogOut(tok: nat, at: int)
      requires now <= at
      modifies this`sessions, this`cache, this`now
      ensures Model() == Apply(config, old(Model()), at, Logout(tok))
    {
      now := at;
      sessions := sessions - {tok};
      cache := cache - {tok};
    }

    method NewestOf(candidates: set<nat>) returns (newest: nat)
      requires candidates != {} && candidates <= sessions.Keys
      ensures newest in candidates
      ensures forall v :: v in candidates ==> sessions[v].lastSeen <= sessions[newest].lastSeen
    {
      newest :| newest in candidates;
      var todo := candidates;
      while todo != {}
        invariant todo <= candidates && newest in candidates
        invariant forall v :: v in candidates && v !in todo ==> sessions[v].lastSeen <= sessions[newest].lastSeen
        decreases |todo|
      {
        var v :| v in todo;
        if sessions[v].lastSeen > sessions[newest].lastSeen {
          newest := v;
        }
        todo := todo - {v};
      }
    }

    method RefreshToken(prior: Option<nat>, renewed: nat, at: int) returns (chosen: Option<nat>)
      requires now <= at && renewed !in issued && sessions.Keys <= origin.Keys
      modifies this
      ensures old(Enabled(config, Model(), at, Refresh(prior, chosen, renewed)))
      ensures prior.Some? && prior.value in old(sessions) ==> chosen == prior
      ensures chosen.None? <==> old(sessions) == map[]
      ensures chosen.Some? && chosen != prior ==>
        chosen.value in old(sessions)
        && forall v :: v in old(sessions) ==> old(sessions)[v].lastSeen <= old(sessions)[chosen.value].lastSeen
      ensures Model() == Apply(config, old(Model()), at, Refresh(prior, chosen, renewed))
    {
      now := at;
      issued := issued + {renewed};
      if prior.Some? && prior.value in sessions {
        chosen := prior;
      } else if sessions != map[] {
        assert sessions.Keys != {};
        var newest := NewestOf(sessions.Keys);
        chosen := Some(newest);
      } else {
        return None;
      }
      var tok: nat := chosen.value;
      var row := sessions[tok].(lastSeen := at);
      cache := cache - {tok};
      sessions := (sessions - {tok})[renewed := row];
      cache := cache[renewed := row];
      activity, origin := activity[renewed := at], origin[renewed := origin[tok]];
    }
  }
}
