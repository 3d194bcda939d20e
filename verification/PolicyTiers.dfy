// Annotated Cedar rules: validating a tier and merging the annotations of the rules that matched
// (agent/src/policy.py). Cedar itself is not modelled; it reports the ids of matching policies.
module PolicyTiers {
  import opened Wrappers

  const FLOOR_TIMEOUT_S := 30
  const DEFAULT_SEVERITY := "medium"

  datatype Rule = Rule(
    policyId: string, ruleId: Option<string>, tier: Option<string>, effect: Option<string>,
    timeoutS: Option<int>, severity: Option<string>)

  // Python truthiness of an optional string.
  predicate Given(s: Option<string>) {
    s.Some? && s.value != ""
  }

  function Or(s: Option<string>, fallback: string): string {
    if Given(s) then s.value else fallback
  }

  // _SEVERITY_ORDER.get(s, 0)
  function Rank(severity: string): nat {
    if severity == "high" then 2 else if severity == "medium" then 1 else 0
  }

  predicate KnownSeverity(severity: string) {
    severity in {"low", "medium", "high"}
  }

  // ---------------------------------------------------------------- validating a tier

  // The reserved catch-all, exempt from every other requirement.
  predicate BasePermit(r: Rule) {
    r.ruleId == Some("base_permit") && r.tier.None? && r.effect == Some("permit")
  }

  predicate WellAnnotated(r: Rule, tier: string) {
    && r.tier == Some(tier) && Given(r.ruleId)
    && (tier == "soft" ==>
          && (r.timeoutS.Some? ==> r.timeoutS.value >= FLOOR_TIMEOUT_S)
          && (Given(r.severity) ==> KnownSeverity(r.severity.value)))
  }

  // Every rule is the catch-all or well annotated, and no later rule but the catch-all repeats
  // the rule id of an earlier one.
  ghost predicate ValidTier(rules: seq<Rule>, tier: string) {
    && (forall i :: 0 <= i < |rules| ==> BasePermit(rules[i]) || WellAnnotated(rules[i], tier))
    && forall i, j :: 0 <= i < j < |rules| && !BasePermit(rules[j]) ==> rules[i].ruleId != rules[j].ruleId
  }

  // Whether a tier stays valid when its next rule is added.
  ghost predicate Joins(rules: seq<Rule>, i: nat, tier: string)
    requires i < |rules|
  {
    || BasePermit(rules[i])
    || (WellAnnotated(rules[i], tier) && forall j :: 0 <= j < i ==> rules[j].ruleId != rules[i].ruleId)
  }

  lemma {:induction false} TierStep(rules: seq<Rule>, i: nat, tier: string)
    requires i < |rules|
    ensures ValidTier(rules[..i + 1], tier) <==> ValidTier(rules[..i], tier) && Joins(rules, i, tier)
    ensures ValidTier(rules, tier) ==> ValidTier(rules[..i + 1], tier)
  {
    var next := rules[..i + 1];
    assert forall j :: 0 <= j < i ==> next[j] == rules[..i][j];
    assert next[i] == rules[i];
  }

  // In plain terms, for the soft tier: the catch-all is a tierless permit; every other rule names
  // the tier and itself, asks for at least 30 s if it asks at all, and has a known severity if any.
  lemma {:induction false} SoftTierIsValidExactlyWhen(rules: seq<Rule>)
    ensures ValidTier(rules, "soft") <==>
            && (forall i :: 0 <= i < |rules| ==>
                  var r := rules[i];
                  || (r.ruleId == Some("base_permit") && r.tier == None && r.effect == Some("permit"))
                  || (&& r.tier == Some("soft") && r.ruleId.Some? && r.ruleId.value != ""
                      && (r.timeoutS.Some? ==> r.timeoutS.value >= 30)
                      && (r.severity.Some? && r.severity.value != "" ==>
                            r.severity.value in {"low", "medium", "high"})))
            && (forall i, j :: 0 <= i < j < |rules| && rules[i].ruleId == rules[j].ruleId ==>
                  rules[j].ruleId == Some("base_permit") && rules[j].tier == None && rules[j].effect == Some("permit"))
  {
  }

  // None when the tier is accepted, otherwise the position of the first rule that breaks it.
  method ValidateTier(rules: seq<Rule>, tier: string) returns (broken: Option<nat>)
    ensures broken.None? <==> ValidTier(rules, tier)
    ensures broken.Some? ==> broken.value < |rules| && ValidTier(rules[..broken.value], tier)
                             && !ValidTier(rules[..broken.value + 1], tier)
  {
    var seen: set<string> := {};
    assert ValidTier(rules[..0], tier);
    hide ValidTier;
    for i := 0 to |rules|
      invariant ValidTier(rules[..i], tier)
      invariant forall j :: 0 <= j < i ==> Given(rules[j].ruleId) && rules[j].ruleId.value in seen
      invariant forall id :: id in seen ==> exists j :: 0 <= j < i && rules[j].ruleId == Some(id)
    {
      var rule := rules[i];
      TierStep(rules, i, tier);
      if rule.ruleId == Some("base_permit") && rule.tier.None? && rule.effect == Some("permit") {
        seen := seen + {"base_permit"};
        continue;
      }
      if rule.tier.None? || rule.tier.value != tier { return Some(i); }
      if rule.ruleId.None? || rule.ruleId.value == "" { return Some(i); }
      if rule.ruleId.value in seen { return Some(i); }
      seen := seen + {rule.ruleId.value};
      if rule.tier.value == "soft" {
        if rule.timeoutS.Some? && rule.timeoutS.value < FLOOR_TIMEOUT_S { return Some(i); }
        if Given(rule.severity) && !KnownSeverity(rule.severity.value) { return Some(i); }
      }
    }
    assert rules[..|rules|] == rules;
    broken := None;
  }

  // ---------------------------------------------------------------- resolving and merging matches

  // {r.policy_id: r for r in rules}: the last rule of an id wins.
  function ById(rules: seq<Rule>): map<string, Rule> {
    if rules == [] then map[]
    else ById(rules[..|rules| - 1])[rules[|rules| - 1].policyId := rules[|rules| - 1]]
  }

  // _rule_id_for_policy: the first rule of an id wins.
  function RuleIdForPolicy(rules: seq<Rule>, pid: string): Option<string> {
    if rules == [] then None
    else if rules[0].policyId == pid then rules[0].ruleId
    else RuleIdForPolicy(rules[1..], pid)
  }

  // Cedar names the policies of a tier "policy0", "policy1", ...: the keys of one JSON object.
  ghost predicate DistinctIds(rules: seq<Rule>) {
    && (forall r :: r in rules ==> r.policyId != "")
    && forall i, j :: 0 <= i < j < |rules| ==> rules[i].policyId != rules[j].policyId
  }

  function Resolve(known: map<string, Rule>, pids: seq<string>): seq<string> {
    if pids == [] then []
    else
      var rest := Resolve(known, pids[..|pids| - 1]);
      var pid := pids[|pids| - 1];
      if pid in known then rest + [Or(known[pid].ruleId, pid)] else rest
  }

  function Timeouts(known: map<string, Rule>, pids: seq<string>): seq<int> {
    if pids == [] then []
    else
      var rest := Timeouts(known, pids[..|pids| - 1]);
      var pid := pids[|pids| - 1];
      if pid in known && known[pid].timeoutS.Some? then rest + [known[pid].timeoutS.value] else rest
  }

  function Severities(known: map<string, Rule>, pids: seq<string>): seq<string> {
    if pids == [] then []
    else
      var rest := Severities(known, pids[..|pids| - 1]);
      var pid := pids[|pids| - 1];
      if pid in known then rest + [Or(known[pid].severity, DEFAULT_SEVERITY)] else rest
  }

  method MatchingRuleIds(rules: seq<Rule>, pids: seq<string>) returns (ids: seq<string>)
    ensures ids == Resolve(ById(rules), pids)
  {
    var byId := ById(rules);
    ids := [];
    for i := 0 to |pids|
      invariant ids == Resolve(byId, pids[..i])
    {
      assert pids[..i + 1][..i] == pids[..i];
      if pids[i] !in byId { continue; }
      ids := ids + [Or(byId[pids[i]].ruleId, pids[i])];
    }
    assert pids[..|pids|] == pids;
  }

  // The tightest of the asked timeouts, lifted to the floor.
  ghost predicate IsTightest(asked: seq<int>, timeout: int) {
    && (forall t :: t in asked ==> timeout <= t || timeout == FLOOR_TIMEOUT_S)
    && (timeout in asked || exists t :: t in asked && t < timeout)
    && timeout >= FLOOR_TIMEOUT_S && (timeout > FLOOR_TIMEOUT_S ==> timeout in asked)
  }

  // The first of the gravest severities, the default if there is none.
  ghost predicate IsGravest(severities: seq<string>, severity: string) {
    if severities == [] then severity == DEFAULT_SEVERITY
    else exists k :: 0 <= k < |severities| && severity == severities[k] && FirstOfTopRank(severities, k)
  }

  ghost predicate FirstOfTopRank(severities: seq<string>, k: nat)
    requires k < |severities|
  {
    && (forall i :: 0 <= i < |severities| ==> Rank(severities[i]) <= Rank(severities[k]))
    && forall i :: 0 <= i < k ==> Rank(severities[i]) < Rank(severities[k])
  }

  // Of known severities, "high" wins over "medium", and "medium" over "low".
  lemma {:induction false} GravestWins(severities: seq<string>, severity: string)
    requires IsGravest(severities, severity) && forall s :: s in severities ==> s in {"low", "medium", "high"}
    ensures severity == if "high" in severities then "high"
                        else if "medium" in severities || severities == [] then "medium"
                        else "low"
  {
    if severities != [] {
      var k :| 0 <= k < |severities| && severity == severities[k] && FirstOfTopRank(severities, k);
      forall s | s in severities ensures Rank(s) <= Rank(severity) {
        var i :| 0 <= i < |severities| && severities[i] == s;
      }
      assert severity in severities;
      if "high" in severities {
        assert Rank("high") <= Rank(severity);
      } else if "medium" in severities {
        assert Rank("medium") <= Rank(severity);
      }
    }
  }

  method MergeAnnotations(rules: seq<Rule>, pids: seq<string>, taskDefault: int)
    returns (ids: seq<string>, timeout: int, severity: string)
    ensures ids == Resolve(ById(rules), pids)
    ensures IsTightest(Timeouts(ById(rules), pids) + [taskDefault], timeout)
    ensures IsGravest(Severities(ById(rules), pids), severity)
  {
    var byId := ById(rules);
    var timeouts, severities := [], [];
    ids := [];
    for i := 0 to |pids|
      invariant ids == Resolve(byId, pids[..i])
      invariant timeouts == Timeouts(byId, pids[..i])
      invariant severities == Severities(byId, pids[..i])
    {
      assert pids[..i + 1][..i] == pids[..i];
      if pids[i] !in byId { continue; }
      var rule := byId[pids[i]];
      ids := ids + [Or(rule.ruleId, pids[i])];
      if rule.timeoutS.Some? { timeouts := timeouts + [rule.timeoutS.value]; }
      severities := severities + [Or(rule.severity, DEFAULT_SEVERITY)];
    }
    assert pids[..|pids|] == pids;
    timeouts := timeouts + [taskDefault];
    var tightest := timeouts[0];
    for i := 1 to |timeouts|
      invariant tightest in timeouts && forall j :: 0 <= j < i ==> tightest <= timeouts[j]
    {
      if timeouts[i] < tightest { tightest := timeouts[i]; }
    }
    timeout := if tightest < FLOOR_TIMEOUT_S then FLOOR_TIMEOUT_S else tightest;
    severity := DEFAULT_SEVERITY;
    if severities != [] {
      var k := 0;
      for i := 1 to |severities|
        invariant 0 <= k < i
        invariant forall j :: 0 <= j < i ==> Rank(severities[j]) <= Rank(severities[k])
        invariant forall j :: 0 <= j < k ==> Rank(severities[j]) < Rank(severities[k])
      {
        if Rank(severities[i]) > Rank(severities[k]) { k := i; }
      }
      severity := severities[k];
      assert FirstOfTopRank(severities, k);
    }
  }

  // ---------------------------------------------------------------- the two filters agree

  function Enabled(ids: seq<string>, disabled: set<string>): seq<string> {
    if ids == [] then []
    else
      var rest := Enabled(ids[..|ids| - 1], disabled);
      if ids[|ids| - 1] in disabled then rest else rest + [ids[|ids| - 1]]
  }

  // The policy ids whose rule is not disabled; an unknown policy has no rule id and stays.
  function EnabledPolicies(rules: seq<Rule>, pids: seq<string>, disabled: set<string>): seq<string> {
    if pids == [] then []
    else
      var rest := EnabledPolicies(rules, pids[..|pids| - 1], disabled);
      var rid := RuleIdForPolicy(rules, pids[|pids| - 1]);
      if rid.Some? && rid.value in disabled then rest else rest + [pids[|pids| - 1]]
  }

  lemma {:induction false} EnabledPoliciesAre(rules: seq<Rule>, pids: seq<string>, disabled: set<string>)
    ensures forall pid :: pid in EnabledPolicies(rules, pids, disabled) <==>
              pid in pids && !(RuleIdForPolicy(rules, pid).Some? && RuleIdForPolicy(rules, pid).value in disabled)
  {
    if pids != [] {
      EnabledPoliciesAre(rules, pids[..|pids| - 1], disabled);
      assert pids == pids[..|pids| - 1] + [pids[|pids| - 1]];
    }
  }

  // Matches that are all known resolve one by one, to the rule id, or to the policy id if a rule
  // has none.
  lemma {:induction false} ResolveIsPointwise(known: map<string, Rule>, pids: seq<string>)
    requires forall pid :: pid in pids ==> pid in known
    ensures |Resolve(known, pids)| == |pids|
    ensures forall i :: 0 <= i < |pids| ==>
              Resolve(known, pids)[i] == if known[pids[i]].ruleId.Some? && known[pids[i]].ruleId.value != ""
                                         then known[pids[i]].ruleId.value else pids[i]
  {
    if pids != [] {
      ResolveIsPointwise(known, pids[..|pids| - 1]);
    }
  }

  lemma {:induction false} ByIdFinds(rules: seq<Rule>, pid: string)
    ensures pid in ById(rules) ==> ById(rules)[pid] in rules && ById(rules)[pid].policyId == pid
    ensures pid !in ById(rules) ==> forall r :: r in rules ==> r.policyId != pid
  {
    if rules != [] {
      var n := |rules| - 1;
      ByIdFinds(rules[..n], pid);
      assert rules == rules[..n] + [rules[n]];
    }
  }

  lemma {:induction false} LookupsAgree(rules: seq<Rule>, pid: string)
    requires DistinctIds(rules)
    ensures RuleIdForPolicy(rules, pid) == if pid in ById(rules) then ById(rules)[pid].ruleId else None
  {
    if rules != [] {
      var n := |rules| - 1;
      assert rules == rules[..n] + [rules[n]];
      LookupsAgree(rules[..n], pid);
      FirstMatch(rules[..n], rules[n], pid);
      ByIdFinds(rules[..n], pid);
    }
  }

  lemma {:induction false} FirstMatch(rules: seq<Rule>, last: Rule, pid: string)
    ensures RuleIdForPolicy(rules + [last], pid) ==
            if exists r :: r in rules && r.policyId == pid then RuleIdForPolicy(rules, pid)
            else if last.policyId == pid then last.ruleId else None
  {
    if rules != [] {
      assert (rules + [last])[1..] == rules[1..] + [last];
      FirstMatch(rules[1..], last, pid);
    }
  }

  // ---------------------------------------------------------------- the order of the matches

  lemma {:induction false} AsksComeFromMatches(known: map<string, Rule>, pids: seq<string>)
    ensures forall t :: t in Timeouts(known, pids) <==>
              exists pid :: pid in pids && pid in known && known[pid].timeoutS == Some(t)
    ensures forall s :: s in Severities(known, pids) <==>
              exists pid :: pid in pids && pid in known && Or(known[pid].severity, DEFAULT_SEVERITY) == s
  {
    if pids != [] {
      AsksComeFromMatches(known, pids[..|pids| - 1]);
      assert forall p :: p in pids <==> p in pids[..|pids| - 1] || p == pids[|pids| - 1];
    }
  }

  // The merged timeout and severity depend only on which rules matched, not on their order or
  // number, as long as every matching severity is a known one.
  lemma {:induction false} MergeIgnoresOrder(known: map<string, Rule>, p: seq<string>, q: seq<string>, taskDefault: int,
                          pt: int, qt: int, ps: string, qs: string)
    requires forall pid :: pid in p <==> pid in q
    requires IsTightest(Timeouts(known, p) + [taskDefault], pt) && IsTightest(Timeouts(known, q) + [taskDefault], qt)
    requires IsGravest(Severities(known, p), ps) && IsGravest(Severities(known, q), qs)
    requires forall pid :: pid in p && pid in known ==> KnownSeverity(Or(known[pid].severity, DEFAULT_SEVERITY))
    ensures pt == qt && ps == qs
  {
    AsksComeFromMatches(known, p);
    AsksComeFromMatches(known, q);
    var tp, tq := Timeouts(known, p) + [taskDefault], Timeouts(known, q) + [taskDefault];
    assert forall t :: t in tp <==> t in tq;
    var sp, sq := Severities(known, p), Severities(known, q);
    assert forall s :: s in sp <==> s in sq;
    assert sp == [] <==> sq == [] by {
      if sp != [] { assert sp[0] in sq; }
      if sq != [] { assert sq[0] in sp; }
    }
    if sp != [] {
      assert ps in sq && qs in sp;
    }
  }

  // Validation grants that for every rule of the soft tier but the catch-all permit.
  lemma {:induction false} ValidTierKnowsSeverities(rules: seq<Rule>)
    requires ValidTier(rules, "soft")
    ensures forall r :: r in rules && r.effect != Some("permit") ==> KnownSeverity(Or(r.severity, DEFAULT_SEVERITY))
  {
  }

  // Cedar denies because of forbid policies only, so its matches never name a permit.
  ghost predicate NoPermits(rules: seq<Rule>, pids: seq<string>) {
    forall r :: r in rules && r.policyId in pids ==> r.effect != Some("permit")
  }

  // For every tier that validation accepts and every set of matches of a deny, the merged timeout
  // and severity are the same in whatever order, and however often, the matches are reported.
  lemma {:induction false} ValidTierMergeIgnoresOrder(rules: seq<Rule>, p: seq<string>, q: seq<string>,
                                                      taskDefault: int, pt: int, qt: int, ps: string, qs: string)
    requires ValidTier(rules, "soft") && NoPermits(rules, p) && forall pid :: pid in p <==> pid in q
    requires IsTightest(Timeouts(ById(rules), p) + [taskDefault], pt) && IsGravest(Severities(ById(rules), p), ps)
    requires IsTightest(Timeouts(ById(rules), q) + [taskDefault], qt) && IsGravest(Severities(ById(rules), q), qs)
    ensures pt == qt && ps == qs
  {
    hide ValidTier, IsTightest, IsGravest, Timeouts, Severities, ById, KnownSeverity, Or;
    ValidTierKnowsSeverities(rules);
    forall pid | pid in p && pid in ById(rules)
      ensures KnownSeverity(Or(ById(rules)[pid].severity, DEFAULT_SEVERITY))
    {
      ByIdFinds(rules, pid);
    }
    MergeIgnoresOrder(ById(rules), p, q, taskDefault, pt, qt, ps, qs);
  }

  // ---------------------------------------------------------------- main results

  // The rule ids that decide whether approval is needed are exactly the ones the decision then
  // carries, in the same order, however often a policy is reported.
  lemma {:induction false} FiltersAgree(rules: seq<Rule>, pids: seq<string>, disabled: set<string>)
    requires DistinctIds(rules) && forall r :: r in rules ==> Given(r.ruleId)
    ensures Resolve(ById(rules), EnabledPolicies(rules, pids, disabled))
         == Enabled(Resolve(ById(rules), pids), disabled)
  {
    if pids != [] {
      var init, pid := pids[..|pids| - 1], pids[|pids| - 1];
      FiltersAgree(rules, init, disabled);
      LookupsAgree(rules, pid);
      ByIdFinds(rules, pid);
      var kept := EnabledPolicies(rules, init, disabled);
      assert (kept + [pid])[..|kept|] == kept;
      if pid in ById(rules) {
        var ids := Resolve(ById(rules), init);
        assert (ids + [Or(ById(rules)[pid].ruleId, pid)])[..|ids|] == ids;
      }
    }
  }

  lemma {:induction false} ValidTierNamesRules(rules: seq<Rule>, tier: string)
    requires ValidTier(rules, tier)
    ensures forall r :: r in rules ==> Given(r.ruleId)
  {
  }

  // Exactly the rule lists that name every rule make the two filters agree on all matches.
  lemma {:induction false} FiltersAgreeIffNamed(rules: seq<Rule>)
    requires DistinctIds(rules)
    ensures (forall pids, disabled ::
               Resolve(ById(rules), EnabledPolicies(rules, pids, disabled))
               == Enabled(Resolve(ById(rules), pids), disabled))
            <==> forall r :: r in rules ==> Given(r.ruleId)
  {
    if forall r :: r in rules ==> Given(r.ruleId) {
      forall pids, disabled
        ensures Resolve(ById(rules), EnabledPolicies(rules, pids, disabled))
             == Enabled(Resolve(ById(rules), pids), disabled)
      {
        FiltersAgree(rules, pids, disabled);
      }
    } else {
      var r :| r in rules && !Given(r.ruleId);
      var i :| 0 <= i < |rules| && rules[i] == r;
      UnnamedRuleDisagrees(rules, i);
    }
  }

  lemma {:induction false} UnnamedRuleDisagrees(rules: seq<Rule>, i: nat)
    requires DistinctIds(rules) && i < |rules| && !Given(rules[i].ruleId)
    ensures var pid := rules[i].policyId;
            && Resolve(ById(rules), EnabledPolicies(rules, [pid], {pid})) == [pid]
            && Enabled(Resolve(ById(rules), [pid]), {pid}) == []
  {
    var pid := rules[i].policyId;
    LookupsAgree(rules, pid);
    ByIdFinds(rules, pid);
    assert ([pid])[..0] == [];
  }
}
