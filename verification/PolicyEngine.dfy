// The three-outcome engine of agent/src/policy.py: counters, rate window, denial queue, and the
// pipeline that turns Cedar's answers, the allowlist and the caches into a decision.
module PolicyEngine {
  import opened Wrappers
  import opened Scopes
  import Cache = DecisionCache
  import GateCadence
  import Tiers = PolicyTiers

  const APPROVAL_GATE_CAP_MIN: int := 1
  const APPROVAL_GATE_CAP_MAX: int := 500

  // What _eval_for_tool makes of one tier: nothing denied, a deny with the matching policies, or
  // an exception.
  datatype CedarReply = NoDeny | Deny(pids: seq<string>) | Raised

  datatype DenyReason =
    | Unavailable | Unhashable | CedarError
    | HardDeny(rules: seq<string>)
    | RecentlyRefused(entry: Cache.Entry)
    | RuleRecentlyRefused(rule: string, entry: Cache.Entry)

  datatype Decision =
    | Allowed
    | Denied(why: DenyReason)
    | NeedsApproval(ruleIds: seq<string>, timeout: int, severity: string)

  datatype Denial = Denial(requestId: string, reason: string, decidedAt: Option<string>)

  // Environmental faults, as opposed to intentional denials.
  predicate FailClosed(d: Decision) {
    d.Denied? && (d.why.Unavailable? || d.why.Unhashable? || d.why.CedarError?)
  }

  // The rules of a soft match that the blueprint has not disabled.
  function ActiveRules(softRules: seq<Tiers.Rule>, disabledRules: set<string>, pids: seq<string>): seq<string> {
    Tiers.Enabled(Tiers.Resolve(Tiers.ById(softRules), pids), disabledRules)
  }

  // ---------------------------------------------------------------- the engine as a value

  // What an engine is constructed with, and what changes afterwards.
  datatype Config = Config(cap: int, taskDefault: int, disabled: bool, hardRules: seq<Tiers.Rule>,
                           softRules: seq<Tiers.Rule>, disabledRules: set<string>)

  datatype Session = Session(granted: iset<Scope>, inputs: Cache.Lru, rules: Cache.Lru, window: seq<real>,
                             count: int, denials: seq<Denial>, shrinking: bool)

  function Initial(granted: iset<Scope>, seed: int): Session {
    Session(granted, Cache.EMPTY, Cache.EMPTY, [], seed, [], false)
  }

  // A tool call with everything Cedar, fnmatch, the hash and the clock say about it. `sha` is None
  // when the input cannot be hashed.
  datatype Query = Query(call: Call, sha: Option<string>, hard: CedarReply, soft: CedarReply, glob: Glob, now: real)

  ghost predicate PreApproved(s: Session, q: Query) {
    exists scope :: scope in s.granted && Covers(scope, q.call, q.glob)
  }

  // A granted rule scope names one of the active rules.
  ghost predicate RulePreApproved(s: Session, active: seq<string>) {
    exists r :: r in active && RuleScope(r) in s.granted
  }

  // The evaluation gets as far as the input cache.
  ghost predicate LooksUp(cfg: Config, s: Session, q: Query) {
    !cfg.disabled && q.sha.Some? && q.hard.NoDeny? && !PreApproved(s, q)
  }

  function InputKey(q: Query): Cache.Key
    requires q.sha.Some?
  {
    (q.call.tool, q.sha.value)
  }

  function InputHit(s: Session, q: Query): Option<Cache.Entry>
    requires q.sha.Some?
  {
    Cache.Get(s.inputs, InputKey(q), q.now, Cache.CACHE_TTL_S).1
  }

  function RuleHit(s: Session, q: Query, active: seq<string>): Option<(string, Cache.Entry)> {
    Cache.GetRules(s.rules, q.call.tool, active, q.now, Cache.CACHE_TTL_S).1
  }

  // It gets as far as the rule cache.
  ghost predicate LooksUpRules(cfg: Config, s: Session, q: Query) {
    && LooksUp(cfg, s, q) && InputHit(s, q).None? && q.soft.Deny?
    && ActiveRules(cfg.softRules, cfg.disabledRules, q.soft.pids) != []
    && !RulePreApproved(s, ActiveRules(cfg.softRules, cfg.disabledRules, q.soft.pids))
  }

  // The decision each state calls for.
  ghost predicate CallsFor(cfg: Config, s: Session, q: Query, d: Decision) {
    if cfg.disabled then d == Denied(Unavailable)
    else if q.sha.None? then d == Denied(Unhashable)
    else if q.hard.Raised? then d == Denied(CedarError)
    else if q.hard.Deny? then d == Denied(HardDeny(Tiers.Resolve(Tiers.ById(cfg.hardRules), q.hard.pids)))
    else if PreApproved(s, q) then d == Allowed
    else if InputHit(s, q).Some? then d == Denied(RecentlyRefused(InputHit(s, q).value))
    else match q.soft
      case Raised => d == Denied(CedarError)
      case NoDeny => d == Allowed
      case Deny(pids) =>
        var active := ActiveRules(cfg.softRules, cfg.disabledRules, pids);
        if active == [] || RulePreApproved(s, active) then d == Allowed
        else match RuleHit(s, q, active)
          case Some((rule, entry)) => d == Denied(RuleRecentlyRefused(rule, entry))
          case None =>
            && d.NeedsApproval? && d.ruleIds == active
            && var matched := Tiers.EnabledPolicies(cfg.softRules, pids, cfg.disabledRules);
               Tiers.IsTightest(Tiers.Timeouts(Tiers.ById(cfg.softRules), matched) + [cfg.taskDefault], d.timeout) &&
               Tiers.IsGravest(Tiers.Severities(Tiers.ById(cfg.softRules), matched), d.severity)
  }

  // An evaluation changes nothing but the caches, by the lookups it gets to: a hit becomes the
  // newest entry, a stale one is dropped.
  ghost function AfterEvaluate(cfg: Config, s: Session, q: Query): Session {
    s.(inputs := if LooksUp(cfg, s, q) then Cache.Get(s.inputs, InputKey(q), q.now, Cache.CACHE_TTL_S).0 else s.inputs,
       rules := if LooksUpRules(cfg, s, q)
                then var active := ActiveRules(cfg.softRules, cfg.disabledRules, q.soft.pids);
                     Cache.GetRules(s.rules, q.call.tool, active, q.now, Cache.CACHE_TTL_S).0
                else s.rules)
  }

  // ---------------------------------------------------------------- what a decision tells

  // A refusal of this rule on this tool that is at most 60 s old.
  predicate RuleRefused(rules: Cache.Lru, tool: string, rule: string, now: real) {
    (tool, rule) in rules.entries && now - rules.entries[(tool, rule)].insertedAt <= 60.0
  }

  // The rule of an active rule list whose refusal is met first.
  ghost predicate FirstRefused(s: Session, q: Query, active: seq<string>, i: nat) {
    && i < |active| && RuleRefused(s.rules, q.call.tool, active[i], q.now)
    && forall j :: 0 <= j < i ==> !RuleRefused(s.rules, q.call.tool, active[j], q.now)
  }

  // A refused rule is not asked about again: no rule of an approval request was refused on this
  // tool in the last 60 s, and a call is turned away for a refused rule exactly when the evaluation
  // gets that far and an active rule was refused, with the refusal of the first such rule.
  lemma {:induction false} RefusedRulesAreNotAsked(cfg: Config, s: Session, q: Query, d: Decision)
    requires CallsFor(cfg, s, q, d) && Cache.WellFormed(s.rules)
    ensures d.NeedsApproval? ==> forall r :: r in d.ruleIds ==> !RuleRefused(s.rules, q.call.tool, r, q.now)
    ensures d.Denied? && d.why.RuleRecentlyRefused? <==>
            LooksUpRules(cfg, s, q) && exists i: nat :: FirstRefused(s, q, ActiveOf(cfg, q), i)
    ensures d.Denied? && d.why.RuleRecentlyRefused? ==> forall i: nat :: FirstRefused(s, q, ActiveOf(cfg, q), i) ==>
              d.why.rule == ActiveOf(cfg, q)[i] && d.why.entry == s.rules.entries[(q.call.tool, ActiveOf(cfg, q)[i])]
  {
    if LooksUpRules(cfg, s, q) {
      hide Cache.GetRules, ActiveRules, LooksUpRules;
      var tool, active := q.call.tool, ActiveOf(cfg, q);
      Cache.FirstLiveRuleWins(s.rules, tool, active, q.now, Cache.CACHE_TTL_S);
      assert forall r :: RuleRefused(s.rules, tool, r, q.now) <==>
        Cache.Live(s.rules, (tool, r), q.now, Cache.CACHE_TTL_S);
      assert forall i: nat :: FirstRefused(s, q, active, i) <==>
        Cache.FirstLive(s.rules, tool, active, i, q.now, Cache.CACHE_TTL_S);
    }
  }

  // The active rules of a soft deny.
  function ActiveOf(cfg: Config, q: Query): seq<string> {
    if q.soft.Deny? then ActiveRules(cfg.softRules, cfg.disabledRules, q.soft.pids) else []
  }

  // Hard denials and faults cannot be talked away by any scope, cache or soft rule.
  lemma {:induction false} HardDenyIsAbsolute(cfg: Config, s: Session, q: Query, d: Decision)
    requires CallsFor(cfg, s, q, d) && (cfg.disabled || q.sha.None? || !q.hard.NoDeny?)
    ensures d.Denied? && !d.why.RecentlyRefused? && !d.why.RuleRecentlyRefused?
    ensures FailClosed(d) <==> cfg.disabled || q.sha.None? || q.hard.Raised?
  {
  }

  // A rule of this policy, and the name it goes by: its rule id, or the policy's if it has none.
  ghost predicate Names(rules: seq<Tiers.Rule>, pid: string, name: string) {
    exists r :: r in rules && IsNamed(r, pid, name)
  }

  predicate IsNamed(r: Tiers.Rule, pid: string, name: string) {
    r.policyId == pid && name == if r.ruleId.Some? && r.ruleId.value != "" then r.ruleId.value else pid
  }

  // A hard denial names the rules behind it, match by match, when every match is a known rule.
  lemma {:induction false} HardDenyNamesItsRules(cfg: Config, s: Session, q: Query, d: Decision)
    requires CallsFor(cfg, s, q, d) && !cfg.disabled && q.sha.Some? && q.hard.Deny?
    requires forall pid :: pid in q.hard.pids ==> exists r :: r in cfg.hardRules && r.policyId == pid
    ensures d.Denied? && d.why.HardDeny? && |d.why.rules| == |q.hard.pids|
    ensures forall i :: 0 <= i < |q.hard.pids| ==> Names(cfg.hardRules, q.hard.pids[i], d.why.rules[i])
  {
    hide Tiers.ById, Tiers.Resolve;
    var known, pids := Tiers.ById(cfg.hardRules), q.hard.pids;
    forall pid | pid in pids ensures pid in known {
      Tiers.ByIdFinds(cfg.hardRules, pid);
    }
    Tiers.ResolveIsPointwise(known, pids);
    forall i | 0 <= i < |pids| ensures Names(cfg.hardRules, pids[i], d.why.rules[i]) {
      Tiers.ByIdFinds(cfg.hardRules, pids[i]);
      assert IsNamed(known[pids[i]], pids[i], d.why.rules[i]);
    }
  }

  // A call is allowed exactly when every check before the allowing one is clear.
  lemma {:induction false} AllowedExactlyWhen(cfg: Config, s: Session, q: Query, d: Decision)
    requires CallsFor(cfg, s, q, d)
    ensures d.Allowed? <==>
            && !cfg.disabled && q.sha.Some? && q.hard.NoDeny?
            && (|| PreApproved(s, q)
                || (&& InputHit(s, q).None?
                    && (q.soft.NoDeny? ||
                        (q.soft.Deny? &&
                         var active := ActiveRules(cfg.softRules, cfg.disabledRules, q.soft.pids);
                         active == [] || RulePreApproved(s, active)))))
  {
  }

  class PolicyEngine {
    const cap: int
    const taskDefault: int
    const disabled: bool
    const hardRules: seq<Tiers.Rule>
    const softRules: seq<Tiers.Rule>
    const disabledRules: set<string>
    const allowlist: ApprovalAllowlist
    const cache: Cache.RecentDecisionCache
    var gateCount: int
    var window: seq<real>
    var denials: seq<Denial>
    var emittedCeilingShrinking: bool

    ghost predicate Valid() reads this, allowlist, cache {
      && allowlist.Valid() && cache.Valid() && cache.lim == GateCadence.LIMITS
      && APPROVAL_GATE_CAP_MIN <= cap <= APPROVAL_GATE_CAP_MAX && gateCount >= 0
      && (!disabled ==> Tiers.ValidTier(softRules, "soft") && Tiers.DistinctIds(softRules))
    }

    ghost function Settings(): Config {
      Config(cap, taskDefault, disabled, hardRules, softRules, disabledRules)
    }

    ghost function Snapshot(): Session reads this, allowlist, cache {
      Session(allowlist.AllGranted(), cache.Inputs(), cache.Rules(), window, gateCount, denials,
              emittedCeilingShrinking)
    }

    // -------------------------------------------------------------- construction

    constructor (cap: int, seed: int, taskDefault: int, disabled: bool, hardRules: seq<Tiers.Rule>,
                 softRules: seq<Tiers.Rule>, disabledRules: set<string>)
      requires APPROVAL_GATE_CAP_MIN <= cap <= APPROVAL_GATE_CAP_MAX && seed >= 0
      requires !disabled ==> Tiers.ValidTier(softRules, "soft") && Tiers.DistinctIds(softRules)
      ensures Valid() && fresh(allowlist) && fresh(cache)
      ensures Settings() == Config(cap, taskDefault, disabled, hardRules, softRules, disabledRules)
      ensures Snapshot() == Initial(iset{}, seed)
    {
      this.cap, this.taskDefault, this.disabled := cap, taskDefault, disabled;
      this.hardRules, this.softRules, this.disabledRules := hardRules, softRules, disabledRules;
      gateCount, window, denials, emittedCeilingShrinking := seed, [], [], false;
      allowlist := new ApprovalAllowlist();
      cache := new Cache.RecentDecisionCache(GateCadence.LIMITS);
      new;
      assert Snapshot().granted == iset{};
    }

    // A rule id other than the catch-all's may live in one tier only.
    static ghost predicate NoSharedIds(hard: seq<Tiers.Rule>, soft: seq<Tiers.Rule>) {
      forall h, s :: h in hard && s in soft && Tiers.Given(h.ruleId) && h.ruleId == s.ruleId ==>
        h.ruleId.value == "base_permit"
    }

    // The scopes that a list of approvals grants.
    static ghost function ScopesOf(approvals: seq<string>): iset<Scope> {
      iset s | exists a :: a in approvals && Parse(a) == Some(s)
    }

    // What the constructor of the source accepts; None stands for its ValueError. A seed above
    // the cap is accepted, a task default below the floor as well.
    static method Make(cap: int, seed: int, taskDefault: int, cedarAvailable: bool, hard: seq<Tiers.Rule>,
                       soft: seq<Tiers.Rule>, builtinHardIds: set<string>, disable: seq<string>,
                       initialApprovals: seq<string>)
      returns (engine: Option<PolicyEngine>)
      requires Tiers.DistinctIds(soft)
      ensures engine.Some? <==>
              && APPROVAL_GATE_CAP_MIN <= cap <= APPROVAL_GATE_CAP_MAX && seed >= 0
              && (cedarAvailable ==>
                    && Tiers.ValidTier(hard, "hard") && Tiers.ValidTier(soft, "soft")
                    && (forall id :: id in disable ==> id !in builtinHardIds)
                    && NoSharedIds(hard, soft)
                    && forall a :: a in initialApprovals ==> Parse(a).Some?)
      ensures engine.Some? ==>
              var e := engine.value;
              && e.Valid() && fresh(e) && fresh(e.allowlist) && fresh(e.cache)
              && e.Settings() == (if cedarAvailable
                                  then Config(cap, taskDefault, false, hard, soft, set id | id in disable)
                                  else Config(cap, taskDefault, true, [], [], {}))
              && e.Snapshot() == Initial(if cedarAvailable then ScopesOf(initialApprovals) else iset{}, seed)
    {
      if !(APPROVAL_GATE_CAP_MIN <= cap <= APPROVAL_GATE_CAP_MAX) || seed < 0 { return None; }
      if !cedarAvailable {
        var off := new PolicyEngine(cap, seed, taskDefault, true, [], [], {});
        return Some(off);
      }
      var broken := Tiers.ValidateTier(hard, "hard");
      if broken.Some? { return None; }
      broken := Tiers.ValidateTier(soft, "soft");
      if broken.Some? { return None; }
      if exists id :: id in disable && id in builtinHardIds { return None; }
      if exists h, s :: h in hard && s in soft && Tiers.Given(h.ruleId) && h.ruleId == s.ruleId
                        && h.ruleId.value != "base_permit" {
        return None;
      }
      var e := new PolicyEngine(cap, seed, taskDefault, false, hard, soft, set id | id in disable);
      assert forall s :: e.allowlist.Granted(s) <==> s in e.Snapshot().granted;
      for i := 0 to |initialApprovals|
        invariant e.Valid() && fresh(e) && fresh(e.allowlist) && fresh(e.cache)
        invariant forall a :: a in initialApprovals[..i] ==> Parse(a).Some?
        invariant forall s :: e.allowlist.Granted(s) <==> exists a :: a in initialApprovals[..i] && Parse(a) == Some(s)
        invariant e.Snapshot() == Initial(e.Snapshot().granted, seed)
      {
        assert initialApprovals[..i + 1] == initialApprovals[..i] + [initialApprovals[i]];
        var ok := e.allowlist.Add(initialApprovals[i]);
        if !ok { return None; }
      }
      assert initialApprovals[..|initialApprovals|] == initialApprovals;
      assert e.Snapshot().granted == ScopesOf(initialApprovals);
      return Some(e);
    }

    // -------------------------------------------------------------- counters and queue

    method IncrementGateCount()
      requires Valid()
      modifies this`gateCount
      ensures Valid() && gateCount == old(gateCount) + 1
    {
      gateCount := gateCount + 1;
    }

    method PruneRateWindow(now: real)
      modifies this`window
      ensures window == GateCadence.Prune(old(window), now)
    {
      var cutoff := now - GateCadence.APPROVAL_RATE_WINDOW_S;
      while window != [] && window[0] < cutoff
        invariant GateCadence.Prune(window, now) == GateCadence.Prune(old(window), now)
        decreases |window|
      {
        window := window[1..];
      }
    }

    method RecordGateTimestamp(ts: real)
      modifies this`window
      ensures window == GateCadence.Prune(old(window) + [ts], ts)
    {
      window := window + [ts];
      PruneRateWindow(ts);
    }

    method ApprovalsInLastMinute(now: real) returns (n: nat)
      modifies this`window
      ensures window == GateCadence.Prune(old(window), now) && n == |window|
    {
      PruneRateWindow(now);
      n := |window|;
    }

    method QueueDenial(denial: Denial)
      modifies this`denials
      ensures denials == old(denials) + [denial]
    {
      denials := denials + [denial];
    }

    method DrainDenials() returns (out: seq<Denial>)
      modifies this`denials
      ensures out == old(denials) && denials == []
    {
      out := denials;
      denials := [];
    }

    method MarkCeilingShrinkingEmitted() returns (first: bool)
      modifies this`emittedCeilingShrinking
      ensures first == !old(emittedCeilingShrinking) && emittedCeilingShrinking
    {
      first := !emittedCeilingShrinking;
      emittedCeilingShrinking := true;
    }

    // -------------------------------------------------------------- the pipeline

    method EvaluateToolUse(q: Query) returns (d: Decision)
      requires Valid()
      modifies cache
      ensures Valid() && CallsFor(Settings(), old(Snapshot()), q, d)
      ensures Snapshot() == AfterEvaluate(Settings(), old(Snapshot()), q)
    {
      hide Cache.Get, Cache.GetRules, Tiers.ById, Tiers.Resolve, Tiers.Enabled, Tiers.EnabledPolicies;
      if disabled { return Denied(Unavailable); }
      if q.sha.None? { return Denied(Unhashable); }
      // Step 1: hard denial, absolute.
      if q.hard.Raised? { return Denied(CedarError); }
      if q.hard.Deny? {
        var rules := Tiers.MatchingRuleIds(hardRules, q.hard.pids);
        return Denied(HardDeny(rules));
      }
      // Step 2: scopes granted for the session.
      var approved := allowlist.Matches(q.call, q.glob);
      assert approved <==> PreApproved(Snapshot(), q);
      if approved { return Allowed; }
      // Step 2.5: the same call was refused a moment ago.
      var hit := cache.Lookup(q.call.tool, q.sha.value, q.now);
      if hit.Some? { return Denied(RecentlyRefused(hit.value)); }
      // Step 3: soft denial.
      if q.soft.Raised? { return Denied(CedarError); }
      if q.soft.NoDeny? { return Allowed; }
      var all := Tiers.MatchingRuleIds(softRules, q.soft.pids);
      var active := FilterIds(all);
      if active == [] { return Allowed; }
      var granted := AnyRuleGranted(active);
      if granted { return Allowed; }
      var ruleHit := cache.LookupRules(q.call.tool, active, q.now);
      if ruleHit.Some? { return Denied(RuleRecentlyRefused(ruleHit.value.0, ruleHit.value.1)); }
      var matched := FilterPolicies(q.soft.pids);
      var ids, timeout, severity := Tiers.MergeAnnotations(softRules, matched, taskDefault);
      Tiers.ValidTierNamesRules(softRules, "soft");
      Tiers.FiltersAgree(softRules, q.soft.pids, disabledRules);
      d := NeedsApproval(ids, timeout, severity);
    }

    method FilterIds(ids: seq<string>) returns (active: seq<string>)
      ensures active == Tiers.Enabled(ids, disabledRules)
    {
      active := [];
      for i := 0 to |ids|
        invariant active == Tiers.Enabled(ids[..i], disabledRules)
      {
        assert ids[..i + 1][..i] == ids[..i];
        if ids[i] !in disabledRules { active := active + [ids[i]]; }
      }
      assert ids[..|ids|] == ids;
    }

    method FilterPolicies(pids: seq<string>) returns (matched: seq<string>)
      ensures matched == Tiers.EnabledPolicies(softRules, pids, disabledRules)
    {
      matched := [];
      for i := 0 to |pids|
        invariant matched == Tiers.EnabledPolicies(softRules, pids[..i], disabledRules)
      {
        assert pids[..i + 1][..i] == pids[..i];
        var rid := Tiers.RuleIdForPolicy(softRules, pids[i]);
        if !(rid.Some? && rid.value in disabledRules) { matched := matched + [pids[i]]; }
      }
      assert pids[..|pids|] == pids;
    }

    method AnyRuleGranted(active: seq<string>) returns (any: bool)
      ensures any <==> RulePreApproved(Snapshot(), active)
    {
      any := false;
      for i := 0 to |active|
        invariant any <==> exists r :: r in active[..i] && allowlist.Granted(RuleScope(r))
      {
        assert active[..i + 1] == active[..i] + [active[i]];
        if active[i] in allowlist.ruleIds { assert allowlist.Granted(RuleScope(active[i])); any := true; }
      }
      assert active[..|active|] == active;
    }
  }

  lemma {:induction false} EnabledAreEnabled(ids: seq<string>, disabled: set<string>)
    ensures forall r :: r in Tiers.Enabled(ids, disabled) <==> r in ids && r !in disabled
  {
    if ids != [] {
      EnabledAreEnabled(ids[..|ids| - 1], disabled);
      assert ids == ids[..|ids| - 1] + [ids[|ids| - 1]];
    }
  }
}
