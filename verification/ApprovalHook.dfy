// The two ends of _handle_require_approval (agent/src/hooks.py) on the engine's own state: opening
// a gate, up to the counter bump, and settling one, after its resume. What lies between them is
// GateProtocol. Reasons shown to the agent and progress events are not modelled.
module ApprovalHook {
  import opened Wrappers
  import opened PolicyEngine
  import Cache = DecisionCache
  import Cadence = GateCadence
  import Scopes
  import Tiers = PolicyTiers
  import Timing = ApprovalTimeout

  datatype Opening =
    | NoTask | CapExceeded | RateLimited | NoLifetime
    | Opened(timeout: int, clip: Timing.Clip)

  // Gates will have small windows from here on.
  predicate Shrinking(remaining: Option<int>, taskDefault: int) {
    remaining.Some? && remaining.value - Timing.CLEANUP_MARGIN_120S < 2 * taskDefault
  }

  // What the state calls for, and what it becomes.
  function AfterOpen(cfg: Config, s: Session, hasTask: bool, decision: Option<int>, remaining: Option<int>,
                     checkedAt: real, stampedAt: real): (Opening, Session)
  {
    var window := Cadence.Prune(s.window, checkedAt);
    if !hasTask then (NoTask, s)
    else if s.count >= cfg.cap then (CapExceeded, s)
    else if |window| >= Cadence.APPROVAL_RATE_LIMIT then (RateLimited, s.(window := window))
    else
      var warned := s.(window := window, shrinking := s.shrinking || Shrinking(remaining, cfg.taskDefault));
      if !Timing.Fits(remaining) then (NoLifetime, warned)
      else
        var (timeout, clip, _) := Timing.EffectiveTimeout(decision, cfg.taskDefault, remaining);
        (Opened(timeout, clip),
         warned.(count := s.count + 1, window := Cadence.Prune(window + [stampedAt], stampedAt)))
  }

  // No step of this segment can be interleaved with another gate of the same container: there is
  // no await in it.
  method OpenGate(engine: PolicyEngine, hasTask: bool, decision: Option<int>, remaining: Option<int>,
                  checkedAt: real, stampedAt: real)
    returns (r: Opening, shrinking: bool)
    requires engine.Valid()
    modifies engine`gateCount, engine`window, engine`emittedCeilingShrinking
    ensures engine.Valid()
    ensures (r, engine.Snapshot())
         == AfterOpen(engine.Settings(), old(engine.Snapshot()), hasTask, decision, remaining, checkedAt, stampedAt)
    ensures var rate := |Cadence.Prune(old(engine.window), checkedAt)|;
            var underCap := hasTask && old(engine.gateCount) < engine.cap;
            && (r.NoTask? <==> !hasTask)
            && (r.CapExceeded? <==> hasTask && !underCap)
            && (r.RateLimited? <==> underCap && rate >= Cadence.APPROVAL_RATE_LIMIT)
            && (r.NoLifetime? <==> underCap && rate < Cadence.APPROVAL_RATE_LIMIT && !Timing.Fits(remaining))
    ensures engine.gateCount == old(engine.gateCount) + if r.Opened? then 1 else 0
    // The warning about shrinking windows is raised once per engine.
    ensures shrinking <==> !old(engine.emittedCeilingShrinking) && engine.emittedCeilingShrinking
    ensures r.Opened? || r.NoLifetime? ==>
              (engine.emittedCeilingShrinking <==>
               || old(engine.emittedCeilingShrinking)
               || (remaining.Some? && remaining.value - 120 < 2 * engine.taskDefault))
  {
    shrinking := false;
    if !hasTask { return NoTask, shrinking; }
    if engine.gateCount >= engine.cap { return CapExceeded, shrinking; }
    var rate := engine.ApprovalsInLastMinute(checkedAt);
    if rate >= Cadence.APPROVAL_RATE_LIMIT { return RateLimited, shrinking; }
    var effective, clip, _ := Timing.ComputeEffectiveTimeout(decision, engine.taskDefault, remaining);
    if Shrinking(remaining, engine.taskDefault) {
      shrinking := engine.MarkCeilingShrinkingEmitted();
    }
    if remaining.Some? && remaining.value - Timing.CLEANUP_MARGIN_120S < Timing.FLOOR_30S {
      return NoLifetime, shrinking;
    }
    engine.IncrementGateCount();
    engine.RecordGateTimestamp(stampedAt);
    r := Opened(effective, clip);
  }

  datatype Verdict =
    | Granted(scope: Option<string>)
    | Refused(reason: string, decidedAt: Option<string>)
    | Expired(cause: Option<string>)

  function EntryOf(v: Verdict, at: real, wall: string): Cache.Entry
    requires !v.Granted?
  {
    match v
    case Refused(reason, decidedAt) =>
      Cache.RecentDecisionCache.Stamped(Cache.DENIED, Some(reason), at, decidedAt, wall)
    case Expired(reason) =>
      Cache.RecentDecisionCache.Stamped(Cache.TIMED_OUT, reason, at, None, wall)
  }

  // One rule entry after the other.
  function PutAll(c: Cache.Lru, tool: string, rules: seq<string>, entry: Cache.Entry, max: nat): Cache.Lru {
    if rules == [] then c
    else Cache.Put(PutAll(c, tool, rules[..|rules| - 1], entry, max), (tool, rules[|rules| - 1]), entry, max)
  }

  // As many rules as the table holds are all marked, each with this entry.
  lemma {:induction false} PutAllMarks(c: Cache.Lru, tool: string, rules: seq<string>, entry: Cache.Entry, max: nat)
    requires Cache.WellFormed(c) && |c.order| <= max
    ensures Cache.WellFormed(PutAll(c, tool, rules, entry, max)) && |PutAll(c, tool, rules, entry, max).order| <= max
    ensures |rules| <= max ==> forall r :: r in rules ==>
              && (tool, r) in PutAll(c, tool, rules, entry, max).entries
              && PutAll(c, tool, rules, entry, max).entries[(tool, r)] == entry
  {
    PutAllWellFormed(c, tool, rules, entry, max);
    if |rules| <= max {
      PutAllNewest(c, tool, rules, entry, max);
      PutAllEntries(c, tool, rules, entry, max);
      forall r | r in rules ensures (tool, r) in PutAll(c, tool, rules, entry, max).entries {
        assert (tool, r) in RuleKeys(tool, rules);
      }
    }
  }

  lemma {:induction false} PutAllWellFormed(c: Cache.Lru, tool: string, rules: seq<string>, entry: Cache.Entry,
                                            max: nat)
    requires Cache.WellFormed(c) && |c.order| <= max
    ensures Cache.WellFormed(PutAll(c, tool, rules, entry, max)) && |PutAll(c, tool, rules, entry, max).order| <= max
  {
    hide Cache.Put;
    if rules != [] {
      var front := rules[..|rules| - 1];
      PutAllWellFormed(c, tool, front, entry, max);
      Cache.PutKeeps(PutAll(c, tool, front, entry, max), (tool, rules[|rules| - 1]), entry, max);
    }
  }

  ghost function RuleKeys(tool: string, rules: seq<string>): set<Cache.Key> {
    set r | r in rules :: (tool, r)
  }

  lemma {:induction false} RuleKeysStep(tool: string, rules: seq<string>)
    requires rules != []
    ensures RuleKeys(tool, rules) == RuleKeys(tool, rules[..|rules| - 1]) + {(tool, rules[|rules| - 1])}
    ensures |RuleKeys(tool, rules[..|rules| - 1])| + 1 >= |RuleKeys(tool, rules)|
  {
    var front := rules[..|rules| - 1];
    assert rules == front + [rules[|rules| - 1]];
  }

  lemma {:induction false} PutAllNewest(c: Cache.Lru, tool: string, rules: seq<string>, entry: Cache.Entry, max: nat)
    requires Cache.WellFormed(c) && |c.order| <= max && |rules| <= max
    ensures Cache.Newest(PutAll(c, tool, rules, entry, max).order, RuleKeys(tool, rules))
    ensures |RuleKeys(tool, rules)| <= |rules|
  {
    hide Cache.Put, RuleKeys;
    if rules == [] {
      NoRuleKeys(tool);
    } else {
      var front := rules[..|rules| - 1];
      PutAllNewest(c, tool, front, entry, max);
      PutAllWellFormed(c, tool, front, entry, max);
      RuleKeysStep(tool, rules);
      Cache.PutNewest(PutAll(c, tool, front, entry, max), (tool, rules[|rules| - 1]), entry, max,
                      RuleKeys(tool, front));
    }
  }

  lemma {:induction false} NoRuleKeys(tool: string)
    ensures RuleKeys(tool, []) == {}
  {
  }

  // What the table holds for these rules is this entry.
  lemma {:induction false} PutAllEntries(c: Cache.Lru, tool: string, rules: seq<string>, entry: Cache.Entry, max: nat)
    requires Cache.WellFormed(c) && |c.order| <= max
    ensures forall r :: r in rules && (tool, r) in PutAll(c, tool, rules, entry, max).entries ==>
              PutAll(c, tool, rules, entry, max).entries[(tool, r)] == entry
  {
    hide Cache.Put;
    if rules != [] && max > 0 {
      var front, last := rules[..|rules| - 1], rules[|rules| - 1];
      PutAllEntries(c, tool, front, entry, max);
      PutAllWellFormed(c, tool, front, entry, max);
      Cache.PutStores(PutAll(c, tool, front, entry, max), (tool, last), entry, max);
      assert rules == front + [last];
    } else {
      PutAllWellFormed(c, tool, rules, entry, max);
    }
  }

  // And what it holds for any other key it held before.
  lemma {:induction false} PutAllKeepsOthers(c: Cache.Lru, tool: string, rules: seq<string>, entry: Cache.Entry,
                                             max: nat)
    requires Cache.WellFormed(c) && |c.order| <= max
    ensures forall k :: k in PutAll(c, tool, rules, entry, max).entries && !(k.0 == tool && k.1 in rules) ==>
              k in c.entries && PutAll(c, tool, rules, entry, max).entries[k] == c.entries[k]
  {
    hide Cache.Put;
    if rules != [] {
      var front, last := rules[..|rules| - 1], rules[|rules| - 1];
      PutAllKeepsOthers(c, tool, front, entry, max);
      PutAllWellFormed(c, tool, front, entry, max);
      if max > 0 {
        Cache.PutStores(PutAll(c, tool, front, entry, max), (tool, last), entry, max);
      } else {
        PutAllWellFormed(c, tool, rules, entry, max);
      }
      assert rules == front + [last];
    }
  }

  // From the matching rules to the open gate: it waits at least 30 s, at most the task default and
  // every matching rule's own timeout, and ends two minutes before the container does; and it waits
  // as long as one of these bounds allows.
  lemma {:induction false} OpenedGateWaits(cfg: Config, s: Session, q: Query, d: Decision, later: Session,
                                           remaining: Option<int>, checkedAt: real, stampedAt: real)
    requires CallsFor(cfg, s, q, d) && d.NeedsApproval? && cfg.taskDefault >= 30
    requires Tiers.ValidTier(cfg.softRules, "soft") && Tiers.DistinctIds(cfg.softRules)
    requires Tiers.NoPermits(cfg.softRules, q.soft.pids)
    requires AfterOpen(cfg, later, true, Some(d.timeout), remaining, checkedAt, stampedAt).0.Opened?
    ensures var timeout := AfterOpen(cfg, later, true, Some(d.timeout), remaining, checkedAt, stampedAt).0.timeout;
            && 30 <= timeout <= cfg.taskDefault
            && (forall r :: Asks(cfg, q, r) ==> timeout <= r.timeoutS.value)
            && (remaining.Some? ==> timeout + 120 <= remaining.value)
            && (|| timeout == cfg.taskDefault || remaining == Some(timeout + 120)
                || exists r :: Asks(cfg, q, r) && r.timeoutS == Some(timeout))
  {
    hide Tiers.ById, Tiers.Timeouts, Tiers.EnabledPolicies, Cadence.Prune, Timing.EffectiveTimeout;
    var matched := Tiers.EnabledPolicies(cfg.softRules, q.soft.pids, cfg.disabledRules);
    var asked := Tiers.Timeouts(Tiers.ById(cfg.softRules), matched);
    AskedTimeouts(cfg, q);
    forall t | t in asked ensures t >= 30 {
      var r :| Asks(cfg, q, r) && r.timeoutS == Some(t);
    }
    Timing.WrittenGateBounds(asked, cfg.taskDefault, d.timeout, remaining);
  }

  // This soft rule matched and is not disabled.
  ghost predicate Matched(cfg: Config, q: Query, r: Tiers.Rule) {
    && q.soft.Deny? && r in cfg.softRules && r.policyId in q.soft.pids
    && !(r.ruleId.Some? && r.ruleId.value in cfg.disabledRules)
  }

  // And it has a timeout of its own.
  ghost predicate Asks(cfg: Config, q: Query, r: Tiers.Rule) {
    Matched(cfg, q, r) && r.timeoutS.Some?
  }

  ghost predicate HasSeverity(r: Tiers.Rule, severity: string) {
    severity == if r.severity.Some? && r.severity.value != "" then r.severity.value else "medium"
  }

  ghost predicate SomeMatchHas(cfg: Config, q: Query, severity: string) {
    exists r :: Matched(cfg, q, r) && HasSeverity(r, severity)
  }

  // The rules behind the merged annotations are the ones that matched and are not disabled.
  lemma {:induction false} MatchedAreMerged(cfg: Config, q: Query, pid: string)
    requires q.soft.Deny? && Tiers.DistinctIds(cfg.softRules)
    ensures var known := Tiers.ById(cfg.softRules);
            && (pid in known && pid in Tiers.EnabledPolicies(cfg.softRules, q.soft.pids, cfg.disabledRules) ==>
                  Matched(cfg, q, known[pid]))
            && (forall r :: Matched(cfg, q, r) && r.policyId == pid ==>
                  pid in known && known[pid] == r
                  && pid in Tiers.EnabledPolicies(cfg.softRules, q.soft.pids, cfg.disabledRules))
  {
    hide Tiers.ById, Tiers.EnabledPolicies, Tiers.RuleIdForPolicy;
    Tiers.EnabledPoliciesAre(cfg.softRules, q.soft.pids, cfg.disabledRules);
    Tiers.ByIdFinds(cfg.softRules, pid);
    Tiers.LookupsAgree(cfg.softRules, pid);
  }

  lemma {:induction false} AskedTimeouts(cfg: Config, q: Query)
    requires q.soft.Deny? && Tiers.DistinctIds(cfg.softRules)
    ensures var asked := Tiers.Timeouts(Tiers.ById(cfg.softRules),
                                        Tiers.EnabledPolicies(cfg.softRules, q.soft.pids, cfg.disabledRules));
            forall t :: t in asked <==> exists r :: Asks(cfg, q, r) && r.timeoutS == Some(t)
  {
    hide Tiers.ById, Tiers.Timeouts, Tiers.EnabledPolicies, Matched;
    var known := Tiers.ById(cfg.softRules);
    var matched := Tiers.EnabledPolicies(cfg.softRules, q.soft.pids, cfg.disabledRules);
    Tiers.AsksComeFromMatches(known, matched);
    forall t ensures t in Tiers.Timeouts(known, matched) <==> exists r :: Asks(cfg, q, r) && r.timeoutS == Some(t) {
      if t in Tiers.Timeouts(known, matched) {
        var pid :| pid in matched && pid in known && known[pid].timeoutS == Some(t);
        MatchedAreMerged(cfg, q, pid);
        assert Asks(cfg, q, known[pid]);
      }
      if r :| Asks(cfg, q, r) && r.timeoutS == Some(t) {
        MatchedAreMerged(cfg, q, r.policyId);
      }
    }
  }

  lemma {:induction false} AskedSeverities(cfg: Config, q: Query)
    requires q.soft.Deny? && Tiers.DistinctIds(cfg.softRules)
    ensures var asked := Tiers.Severities(Tiers.ById(cfg.softRules),
                                          Tiers.EnabledPolicies(cfg.softRules, q.soft.pids, cfg.disabledRules));
            forall severity :: severity in asked <==> SomeMatchHas(cfg, q, severity)
  {
    hide Tiers.ById, Tiers.Severities, Tiers.EnabledPolicies, Matched;
    var known := Tiers.ById(cfg.softRules);
    var matched := Tiers.EnabledPolicies(cfg.softRules, q.soft.pids, cfg.disabledRules);
    Tiers.AsksComeFromMatches(known, matched);
    forall severity
      ensures severity in Tiers.Severities(known, matched) <==> SomeMatchHas(cfg, q, severity)
    {
      if severity in Tiers.Severities(known, matched) {
        var pid :| pid in matched && pid in known && Tiers.Or(known[pid].severity, Tiers.DEFAULT_SEVERITY) == severity;
        MatchedAreMerged(cfg, q, pid);
        assert Matched(cfg, q, known[pid]) && HasSeverity(known[pid], severity);
      }
      if r :| Matched(cfg, q, r) && HasSeverity(r, severity) {
        MatchedAreMerged(cfg, q, r.policyId);
      }
    }
  }

  lemma {:induction false} SomeRuleMatched(cfg: Config, s: Session, q: Query, d: Decision)
    requires CallsFor(cfg, s, q, d) && d.NeedsApproval?
    requires Tiers.ValidTier(cfg.softRules, "soft") && Tiers.DistinctIds(cfg.softRules)
    ensures Tiers.Severities(Tiers.ById(cfg.softRules),
                             Tiers.EnabledPolicies(cfg.softRules, q.soft.pids, cfg.disabledRules)) != []
  {
    hide Tiers.IsGravest, Tiers.IsTightest;
    Tiers.ValidTierNamesRules(cfg.softRules, "soft");
    Tiers.FiltersAgree(cfg.softRules, q.soft.pids, cfg.disabledRules);
    SameLength(Tiers.ById(cfg.softRules), Tiers.EnabledPolicies(cfg.softRules, q.soft.pids, cfg.disabledRules));
  }

  lemma {:induction false} SameLength(known: map<string, Tiers.Rule>, pids: seq<string>)
    ensures |Tiers.Severities(known, pids)| == |Tiers.Resolve(known, pids)|
  {
    if pids != [] {
      SameLength(known, pids[..|pids| - 1]);
    }
  }

  // A request is as severe as the gravest of its rules; a rule without a severity is "medium".
  lemma {:induction false} RequestIsAsGraveAsItsRules(cfg: Config, s: Session, q: Query, d: Decision)
    requires CallsFor(cfg, s, q, d) && d.NeedsApproval?
    requires Tiers.ValidTier(cfg.softRules, "soft") && Tiers.DistinctIds(cfg.softRules)
    requires Tiers.NoPermits(cfg.softRules, q.soft.pids)
    ensures d.severity == if SomeMatchHas(cfg, q, "high") then "high"
                          else if SomeMatchHas(cfg, q, "medium") then "medium"
                          else "low"
  {
    hide Tiers.ById, Tiers.Severities, Tiers.EnabledPolicies, Tiers.Timeouts, Tiers.IsGravest, Tiers.IsTightest;
    var asked := Tiers.Severities(Tiers.ById(cfg.softRules),
                                  Tiers.EnabledPolicies(cfg.softRules, q.soft.pids, cfg.disabledRules));
    AskedSeverities(cfg, q);
    forall severity | severity in asked ensures severity in {"low", "medium", "high"} {
      assert SomeMatchHas(cfg, q, severity);
      var r :| Matched(cfg, q, r) && HasSeverity(r, severity);
      Tiers.ValidTierKnowsSeverities(cfg.softRules);
    }
    Tiers.GravestWins(asked, d.severity);
    SomeRuleMatched(cfg, s, q, d);
  }

  // The scope an approval adds: none for this one call, and none if it cannot be read.
  function AddedScope(scope: Option<string>): Option<Scopes.Scope> {
    if scope.None? || scope.value == "" || scope.value == "this_call" then None else Scopes.Parse(scope.value)
  }

  // An approval never enters the caches; a refusal and an expiry do, under the hash of the input,
  // and only a refusal marks its rules and is queued for the agent to hear about.
  ghost function AfterSettle(s: Session, requestId: string, tool: string, sha: string, ruleIds: seq<string>,
                             v: Verdict, at: real, wall: string): Session
  {
    match v
    case Granted(scope) => s.(granted := iset g | g in s.granted || Some(g) == AddedScope(scope))
    case Refused(reason, decidedAt) =>
      s.(inputs := Cache.Put(s.inputs, (tool, sha), EntryOf(v, at, wall), Cache.CACHE_MAX_ENTRIES),
         rules := PutAll(s.rules, tool, ruleIds, EntryOf(v, at, wall), Cache.CACHE_MAX_ENTRIES),
         denials := s.denials + [Denial(requestId, reason, decidedAt)])
    case Expired(_) =>
      s.(inputs := Cache.Put(s.inputs, (tool, sha), EntryOf(v, at, wall), Cache.CACHE_MAX_ENTRIES))
  }

  method SettleGate(engine: PolicyEngine, requestId: string, tool: string, sha: string, ruleIds: seq<string>,
                    v: Verdict, at: real, wall: string)
    returns (allow: bool)
    requires engine.Valid()
    modifies engine`denials, engine.cache, engine.allowlist
    ensures engine.Valid() && (allow <==> v.Granted?)
    ensures engine.Snapshot() == AfterSettle(old(engine.Snapshot()), requestId, tool, sha, ruleIds, v, at, wall)
  {
    ghost var before := engine.Snapshot();
    match v {
      case Granted(scope) =>
        if scope.Some? && scope.value != "" && scope.value != "this_call" {
          var _ := engine.allowlist.Add(scope.value);
        }
        assert engine.Snapshot().granted == iset g | g in before.granted || Some(g) == AddedScope(scope);
        return true;
      case Refused(reason, decidedAt) =>
        CacheRefusal(engine.cache, tool, sha, ruleIds, v, at, wall);
        engine.QueueDenial(Denial(requestId, reason, decidedAt));
      case Expired(reason) =>
        var _ := engine.cache.Record(tool, sha, Cache.TIMED_OUT, reason, None, at, wall);
    }
    assert engine.Snapshot().granted == before.granted;
    allow := false;
  }

  // Under the input first, then under every rule that asked for the approval.
  method CacheRefusal(cache: Cache.RecentDecisionCache, tool: string, sha: string, ruleIds: seq<string>, v: Verdict,
                      at: real, wall: string)
    requires cache.Valid() && v.Refused?
    modifies cache
    ensures cache.Valid()
    ensures cache.Inputs() == Cache.Put(old(cache.Inputs()), (tool, sha), EntryOf(v, at, wall), cache.lim.maxEntries)
    ensures cache.Rules() == PutAll(old(cache.Rules()), tool, ruleIds, EntryOf(v, at, wall), cache.lim.maxEntries)
  {
    var _ := cache.Record(tool, sha, Cache.DENIED, Some(v.reason), v.decidedAt, at, wall);
    for i := 0 to |ruleIds|
      invariant cache.Valid()
      invariant cache.Inputs()
             == Cache.Put(old(cache.Inputs()), (tool, sha), EntryOf(v, at, wall), cache.lim.maxEntries)
      invariant cache.Rules()
             == PutAll(old(cache.Rules()), tool, ruleIds[..i], EntryOf(v, at, wall), cache.lim.maxEntries)
    {
      assert ruleIds[..i + 1][..i] == ruleIds[..i];
      var _ := cache.RecordRule(tool, ruleIds[i], Cache.DENIED, Some(v.reason), v.decidedAt, at, wall);
    }
    assert ruleIds[..|ruleIds|] == ruleIds;
  }
}
