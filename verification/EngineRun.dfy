// Whole runs of one engine: it is made, then any sequence of evaluations and gates follows. The
// steps are those that PolicyEngine.EvaluateToolUse, ApprovalHook.OpenGate and
// ApprovalHook.SettleGate are proved to take on the engine itself.
module EngineRun {
  import opened Wrappers
  import opened PolicyEngine
  import Cache = DecisionCache
  import Cadence = GateCadence
  import Hook = ApprovalHook
  import Scopes
  import Tiers = PolicyTiers

  datatype Event =
    | Evaluate(q: Query, d: Decision)
    | Open(hasTask: bool, decision: Option<int>, remaining: Option<int>, checkedAt: real, stampedAt: real)
    | Settle(requestId: string, tool: string, sha: string, ruleIds: seq<string>, v: Hook.Verdict, at: real,
             wall: string)
    | Abandon(at: real)  // the row write or the resume of the open gate did not go through
    | Drain              // the queued denials are handed to the agent

  // The engine, and the gates as GateCadence sees them, which also say whether one is open.
  datatype World = World(s: Session, c: Cadence.Cadence)

  function Start(granted: iset<Scopes.Scope>, seed: int, at: real): World {
    World(Initial(granted, seed), Cadence.Cadence(at, [], [], false, []))
  }

  // ---------------------------------------------------------------- steps

  // What the event is for the gates' cadence, if it is anything.
  ghost function AsCadence(cfg: Config, w: World, e: Event): Option<Cadence.Event> {
    match e
    case Evaluate(q, _) => if LooksUp(cfg, w.s, q) then Some(Cadence.Ask(InputKey(q), q.now)) else None
    case Open(hasTask, decision, remaining, checkedAt, stampedAt) =>
      (match Hook.AfterOpen(cfg, w.s, hasTask, decision, remaining, checkedAt, stampedAt).0
       case NoTask => None
       case CapExceeded => None
       case NoLifetime => Some(Cadence.Check(checkedAt))
       case _ => Some(Cadence.Admit(checkedAt, stampedAt)))
    case Settle(_, tool, sha, _, v, at, wall) =>
      Some(if v.Granted? then Cadence.Close(at) else Cadence.Leave((tool, sha), Hook.EntryOf(v, at, wall)))
    case Abandon(at) => Some(Cadence.Close(at))
    case Drain => None
  }

  ghost function After(cfg: Config, s: Session, e: Event): Session {
    match e
    case Evaluate(q, _) => AfterEvaluate(cfg, s, q)
    case Open(hasTask, decision, remaining, checkedAt, stampedAt) =>
      Hook.AfterOpen(cfg, s, hasTask, decision, remaining, checkedAt, stampedAt).1
    case Settle(requestId, tool, sha, ruleIds, v, at, wall) =>
      Hook.AfterSettle(s, requestId, tool, sha, ruleIds, v, at, wall)
    case Abandon(_) => s
    case Drain => s.(denials := [])
  }

  ghost function Step(cfg: Config, w: World, e: Event): World {
    World(After(cfg, w.s, e),
          match AsCadence(cfg, w, e) case Some(ce) => Cadence.Step(w.c, ce) case None => w.c)
  }

  // Time does not run backwards, gates are run one at a time, and an evaluation decides as the
  // engine does.
  ghost predicate CanHappen(cfg: Config, w: World, e: Event) {
    match e
    case Evaluate(q, d) => q.now >= w.c.clock && CallsFor(cfg, w.s, q, d)
    case Open(_, _, _, checkedAt, stampedAt) => !w.c.busy && w.c.clock <= checkedAt <= stampedAt
    case Settle(_, _, _, _, _, at, _) => w.c.busy && at >= w.c.clock
    case Abandon(at) => w.c.busy && at >= w.c.clock
    case Drain => true
  }

  ghost function Run(cfg: Config, start: World, events: seq<Event>): World {
    if events == [] then start else Step(cfg, Run(cfg, start, events[..|events| - 1]), events[|events| - 1])
  }

  ghost predicate Possible(cfg: Config, start: World, events: seq<Event>) {
    events != [] ==>
      && Possible(cfg, start, events[..|events| - 1])
      && CanHappen(cfg, Run(cfg, start, events[..|events| - 1]), events[|events| - 1])
  }

  // ---------------------------------------------------------------- the run keeps in step

  // Deque and input cache are those the cadence prescribes; an open gate is the last one.
  ghost predicate InStep(w: World) {
    && Cadence.Inv(w.c) && w.s.window == w.c.window && w.s.inputs == Cache.After(w.c.ops, Cadence.LIMITS)
    && (w.c.busy ==> w.c.gates != [])
    && Cache.WellFormed(w.s.rules) && |w.s.rules.order| <= Cache.CACHE_MAX_ENTRIES
  }

  lemma {:induction false} OpsGrow(ops: seq<Cache.Op>, op: Cache.Op)
    ensures Cache.After(ops + [op], Cadence.LIMITS)
         == Cache.Apply(Cache.After(ops, Cadence.LIMITS), op, Cadence.LIMITS)
  {
    assert (ops + [op])[..|ops|] == ops;
  }

  lemma {:induction false} StepKeepsRules(cfg: Config, s: Session, e: Event)
    requires Cache.WellFormed(s.rules) && |s.rules.order| <= Cache.CACHE_MAX_ENTRIES
    ensures Cache.WellFormed(After(cfg, s, e).rules) && |After(cfg, s, e).rules.order| <= Cache.CACHE_MAX_ENTRIES
  {
    hide Cache.WellFormed, Cache.GetRules, Hook.PutAll, Cache.Put, Cadence.Prune, LooksUp, ActiveRules;
    match e {
      case Evaluate(q, _) =>
        if LooksUpRules(cfg, s, q) {
          var active := ActiveRules(cfg.softRules, cfg.disabledRules, q.soft.pids);
          Cache.FirstLiveRuleWins(s.rules, q.call.tool, active, q.now, Cache.CACHE_TTL_S);
        }
      case Settle(_, tool, _, ruleIds, v, at, wall) =>
        if v.Refused? {
          Hook.PutAllWellFormed(s.rules, tool, ruleIds, Hook.EntryOf(v, at, wall), Cache.CACHE_MAX_ENTRIES);
        }
      case _ =>
    }
  }

  lemma {:induction false} StepKeepsStep(cfg: Config, w: World, e: Event)
    requires InStep(w) && CanHappen(cfg, w, e)
    ensures InStep(Step(cfg, w, e))
  {
    hide Cadence.Inv, Cadence.Prune, Cache.After, Cache.Get, Cache.GetRules, Cache.Put, Hook.PutAll;
    hide CallsFor, LooksUpRules, Cache.WellFormed, ActiveRules;
    StepKeepsRules(cfg, w.s, e);
    var ce := AsCadence(cfg, w, e);
    if ce.Some? {
      Cadence.StepKeepsInv(w.c, ce.value);
    }
    match e {
      case Evaluate(q, _) =>
        if LooksUp(cfg, w.s, q) {
          OpsGrow(w.c.ops, Cache.Lookup(InputKey(q), q.now));
        }
      case Settle(_, tool, sha, _, v, at, wall) =>
        if !v.Granted? {
          OpsGrow(w.c.ops, Cache.Record((tool, sha), Hook.EntryOf(v, at, wall)));
        }
      case _ =>
    }
  }

  lemma {:induction false} StartInStep(granted: iset<Scopes.Scope>, seed: int, at: real)
    ensures InStep(Start(granted, seed, at))
  {
    Cadence.RunKeepsInv(at, []);
  }

  lemma {:induction false} RunKeepsStep(cfg: Config, granted: iset<Scopes.Scope>, seed: int, at: real,
                                        events: seq<Event>)
    requires Possible(cfg, Start(granted, seed, at), events)
    ensures InStep(Run(cfg, Start(granted, seed, at), events))
  {
    hide InStep, CanHappen, Step, Start;
    if events == [] {
      StartInStep(granted, seed, at);
    } else {
      var front := events[..|events| - 1];
      RunKeepsStep(cfg, granted, seed, at, front);
      StepKeepsStep(cfg, Run(cfg, Start(granted, seed, at), front), events[|events| - 1]);
    }
  }

  // ---------------------------------------------------------------- refusals

  // The last time a gate for this tool and input ended in a refusal or an expiry.
  function LastRefusal(events: seq<Event>, key: Cache.Key): Option<Cache.Entry> {
    if events == [] then None
    else match events[|events| - 1]
      case Settle(_, tool, sha, _, v, at, wall) =>
        if (tool, sha) == key && !v.Granted? then Some(Hook.EntryOf(v, at, wall))
        else LastRefusal(events[..|events| - 1], key)
      case _ => LastRefusal(events[..|events| - 1], key)
  }

  lemma {:induction false} StepRefusal(cfg: Config, w: World, e: Event, key: Cache.Key)
    requires InStep(w) && CanHappen(cfg, w, e)
    ensures Cadence.LatestOutcome(Step(cfg, w, e).c.gates, key)
         == if e.Settle? && (e.tool, e.sha) == key && !e.v.Granted? then Some(Hook.EntryOf(e.v, e.at, e.wall))
            else Cadence.LatestOutcome(w.c.gates, key)
  {
    hide Cadence.Prune, Cache.After, CallsFor, LooksUp;
    hide Cadence.WindowIsSuffix, Cadence.Spaced, Cadence.OpsAreOutcomes, Cadence.KeepsLive;
    var gates := w.c.gates;
    match e {
      case Open(_, _, _, _, stampedAt) =>
        assert (gates + [Cadence.Gate(stampedAt, None)])[..|gates|] == gates;
      case Settle(_, tool, sha, _, v, at, wall) =>
        if !v.Granted? {
          var n := |gates| - 1;
          var op := Cache.Record((tool, sha), Hook.EntryOf(v, at, wall));
          assert gates[n].outcome.None?;
          assert (gates[..n] + [gates[n].(outcome := Some(op))])[..n] == gates[..n];
        }
      case _ =>
    }
  }

  lemma {:induction false} RefusalsAreOutcomes(cfg: Config, granted: iset<Scopes.Scope>, seed: int, at: real,
                                               events: seq<Event>, key: Cache.Key)
    requires Possible(cfg, Start(granted, seed, at), events)
    ensures Cadence.LatestOutcome(Run(cfg, Start(granted, seed, at), events).c.gates, key) == LastRefusal(events, key)
  {
    hide InStep, CanHappen, Step;
    if events != [] {
      var front := events[..|events| - 1];
      RefusalsAreOutcomes(cfg, granted, seed, at, front, key);
      RunKeepsStep(cfg, granted, seed, at, front);
      StepRefusal(cfg, Run(cfg, Start(granted, seed, at), front), events[|events| - 1], key);
    }
  }

  lemma {:induction false} HitIsLastRefusal(cfg: Config, granted: iset<Scopes.Scope>, seed: int, at: real,
                                            events: seq<Event>, q: Query)
    requires Possible(cfg, Start(granted, seed, at), events) && q.sha.Some?
    requires q.now >= Run(cfg, Start(granted, seed, at), events).c.clock
    ensures InputHit(Run(cfg, Start(granted, seed, at), events).s, q)
         == match LastRefusal(events, InputKey(q))
            case Some(entry) => if q.now - entry.insertedAt <= 60.0 then Some(entry) else None
            case None => None
  {
    hide Cadence.Inv, Cache.After, Cache.Get, LastRefusal, Run, Cadence.LatestOutcome;
    RunKeepsStep(cfg, granted, seed, at, events);
    RefusalsAreOutcomes(cfg, granted, seed, at, events, InputKey(q));
    Cadence.InvMakesHistory(Run(cfg, Start(granted, seed, at), events).c, InputKey(q), q.now);
  }

  // The k-th event is the last gate for this tool and input that ended in a refusal or an expiry.
  predicate IsRefusal(e: Event, tool: string, sha: string) {
    e.Settle? && e.tool == tool && e.sha == sha && !e.v.Granted?
  }

  ghost predicate IsLastRefusal(events: seq<Event>, tool: string, sha: string, k: nat) {
    && k < |events| && IsRefusal(events[k], tool, sha)
    && forall j :: k < j < |events| ==> !IsRefusal(events[j], tool, sha)
  }

  // What the engine remembers of it: how it ended and why, when, and when the user decided; where
  // that is not known, the wall clock.
  predicate Remembers(entry: Cache.Entry, e: Event)
    requires e.Settle? && !e.v.Granted?
  {
    && entry.insertedAt == e.at
    && match e.v
       case Refused(reason, decidedAt) =>
         && entry.decision == Cache.DENIED && entry.reason == Some(reason)
         && entry.originalDecisionTs == if decidedAt.Some? && decidedAt.value != "" then decidedAt.value else e.wall
       case Expired(cause) =>
         entry.decision == Cache.TIMED_OUT && entry.reason == cause && entry.originalDecisionTs == e.wall
  }

  lemma {:induction false} LastRefusalIs(events: seq<Event>, tool: string, sha: string)
    ensures LastRefusal(events, (tool, sha)).None? ==> forall k: nat :: !IsLastRefusal(events, tool, sha, k)
    ensures LastRefusal(events, (tool, sha)).Some? ==> exists k: nat :: IsLastRefusal(events, tool, sha, k)
    ensures forall k: nat :: IsLastRefusal(events, tool, sha, k) ==>
              LastRefusal(events, (tool, sha)).Some? && Remembers(LastRefusal(events, (tool, sha)).value, events[k])
  {
    if events != [] {
      var n, front := |events| - 1, events[..|events| - 1];
      LastRefusalIs(front, tool, sha);
      if IsRefusal(events[n], tool, sha) {
        assert IsLastRefusal(events, tool, sha, n);
      } else {
        assert forall k: nat :: IsLastRefusal(events, tool, sha, k) <==> IsLastRefusal(front, tool, sha, k);
      }
    }
  }

  // ---------------------------------------------------------------- main results

  // In every run of an engine, whatever was evaluated, approved, refused or evicted in between: a
  // call is turned away as recently refused exactly when the last gate for this tool and input that
  // was refused or expired ended at most 60 s ago, no granted scope covers the call by now, and no
  // fault or hard denial comes first; and it is turned away with what is remembered of that gate.
  lemma {:induction false} RefusalSticks(cfg: Config, granted: iset<Scopes.Scope>, seed: int, at: real,
                                         events: seq<Event>, q: Query, d: Decision)
    requires Possible(cfg, Start(granted, seed, at), events + [Evaluate(q, d)])
    ensures d.Denied? && d.why.RecentlyRefused? <==>
            && !cfg.disabled && q.sha.Some? && q.hard.NoDeny?
            && !PreApproved(Run(cfg, Start(granted, seed, at), events).s, q)
            && exists k: nat :: IsLastRefusal(events, q.call.tool, q.sha.value, k) && q.now - events[k].at <= 60.0
    ensures d.Denied? && d.why.RecentlyRefused? ==>
              forall k: nat :: IsLastRefusal(events, q.call.tool, q.sha.value, k) ==> Remembers(d.why.entry, events[k])
  {
    hide Run, LastRefusal, IsLastRefusal, Cache.Get, PreApproved;
    assert (events + [Evaluate(q, d)])[..|events|] == events;
    if q.sha.Some? {
      HitIsLastRefusal(cfg, granted, seed, at, events, q);
      LastRefusalIs(events, q.call.tool, q.sha.value);
    }
  }

  // Conversely a human is asked only about a call whose last refusal, if any, is more than 60 s
  // old, and for a non-empty list of rules, none of them disabled, granted, or refused on this tool
  // in the last 60 s.
  lemma {:induction false} GateOnlyIfNotRefused(cfg: Config, granted: iset<Scopes.Scope>, seed: int, at: real,
                                                events: seq<Event>, q: Query, d: Decision)
    requires Possible(cfg, Start(granted, seed, at), events + [Evaluate(q, d)]) && d.NeedsApproval?
    ensures q.sha.Some?
    ensures forall k: nat :: IsLastRefusal(events, q.call.tool, q.sha.value, k) ==> q.now - events[k].at > 60.0
    ensures d.ruleIds != []
    ensures forall r :: r in d.ruleIds ==>
              && r !in cfg.disabledRules
              && Scopes.RuleScope(r) !in Run(cfg, Start(granted, seed, at), events).s.granted
              && !RuleRefused(Run(cfg, Start(granted, seed, at), events).s.rules, q.call.tool, r, q.now)
  {
    hide Run, LastRefusal, IsLastRefusal, Cache.Get, Cache.GetRules, PreApproved, Tiers.Resolve, Tiers.ById;
    assert (events + [Evaluate(q, d)])[..|events|] == events;
    HitIsLastRefusal(cfg, granted, seed, at, events, q);
    LastRefusalIs(events, q.call.tool, q.sha.value);
    RunKeepsStep(cfg, granted, seed, at, events);
    RefusedRulesAreNotAsked(cfg, Run(cfg, Start(granted, seed, at), events).s, q, d);
    EnabledAreEnabled(Tiers.Resolve(Tiers.ById(cfg.softRules), q.soft.pids), cfg.disabledRules);
  }

  // ---------------------------------------------------------------- refused rules

  // The table holds this refusal of the rule.
  predicate Marked(s: Session, tool: string, rule: string, at: real) {
    (tool, rule) in s.rules.entries && s.rules.entries[(tool, rule)].insertedAt == at
  }

  lemma {:induction false} StepKeepsMark(cfg: Config, w: World, e: Event, tool: string, rule: string, at: real)
    requires InStep(w) && CanHappen(cfg, w, e) && !e.Settle? && Marked(w.s, tool, rule, at)
    requires Step(cfg, w, e).c.clock - at <= 60.0
    ensures Marked(Step(cfg, w, e).s, tool, rule, at)
  {
    hide Cadence.Inv, Cadence.Prune, Cache.After, Cache.Get, Cache.GetRules, CallsFor, ActiveRules, Cache.WellFormed;
    if e.Evaluate? && LooksUpRules(cfg, w.s, e.q) {
      var q := e.q;
      var active := ActiveRules(cfg.softRules, cfg.disabledRules, q.soft.pids);
      assert Step(cfg, w, e).c.clock == q.now;
      Cache.FirstLiveRuleWins(w.s.rules, q.call.tool, active, q.now, Cache.CACHE_TTL_S);
      assert Cache.Live(w.s.rules, (tool, rule), q.now, Cache.CACHE_TTL_S);
    }
  }

  lemma {:induction false} ClockRuns(cfg: Config, w: World, e: Event)
    requires CanHappen(cfg, w, e)
    ensures Step(cfg, w, e).c.clock >= w.c.clock
  {
    hide Cadence.Prune, CallsFor, LooksUp, LooksUpRules;
  }

  // Up to 50 rules of a refused gate are marked, and as long as no other gate is settled each of
  // them stays so for 60 s.
  lemma {:induction false} MarksStay(cfg: Config, granted: iset<Scopes.Scope>, seed: int, at: real,
                                     events: seq<Event>, k: nat, rule: string)
    requires Possible(cfg, Start(granted, seed, at), events) && IsLastSettle(events, k)
    requires events[k].v.Refused? && rule in events[k].ruleIds && |events[k].ruleIds| <= 50
    requires Run(cfg, Start(granted, seed, at), events).c.clock - events[k].at <= 60.0
    ensures Marked(Run(cfg, Start(granted, seed, at), events).s, events[k].tool, rule, events[k].at)
    decreases |events|
  {
    hide InStep, CanHappen, Cache.WellFormed, Hook.PutAll, Cadence.Step, Marked;
    var n, front := |events| - 1, events[..|events| - 1];
    var w := Run(cfg, Start(granted, seed, at), front);
    RunKeepsStep(cfg, granted, seed, at, front);
    if k == n {
      SettleMarks(cfg, w, events[n], rule);
    } else {
      ClockRuns(cfg, w, events[n]);
      MarksStay(cfg, granted, seed, at, front, k, rule);
      StepKeepsMark(cfg, w, events[n], events[k].tool, rule, events[k].at);
    }
  }

  ghost predicate IsLastSettle(events: seq<Event>, k: nat) {
    k < |events| && events[k].Settle? && forall j :: k < j < |events| ==> !events[j].Settle?
  }

  lemma {:induction false} SettleMarks(cfg: Config, w: World, e: Event, rule: string)
    requires InStep(w) && e.Settle? && e.v.Refused? && rule in e.ruleIds && |e.ruleIds| <= 50
    ensures Marked(Step(cfg, w, e).s, e.tool, rule, e.at)
  {
    hide Hook.PutAll, Cache.Put;
    Hook.PutAllMarks(w.s.rules, e.tool, e.ruleIds, Hook.EntryOf(e.v, e.at, e.wall), Cache.CACHE_MAX_ENTRIES);
  }

  // A refusal covers its rules as well: until another gate is settled, no call of the same tool that
  // falls under one of them opens a gate within 60 s, whatever its input.
  lemma {:induction false} RefusedRuleIsNotAskedAgain(cfg: Config, granted: iset<Scopes.Scope>, seed: int, at: real,
                                                      events: seq<Event>, q: Query, d: Decision, k: nat, rule: string)
    requires Possible(cfg, Start(granted, seed, at), events + [Evaluate(q, d)]) && IsLastSettle(events, k)
    requires events[k].v.Refused? && rule in events[k].ruleIds && |events[k].ruleIds| <= 50
    requires q.call.tool == events[k].tool && q.now - events[k].at <= 60.0 && rule in ActiveOf(cfg, q)
    ensures !d.NeedsApproval?
  {
    hide Run, Cache.Get, Cache.GetRules, ActiveRules, Cache.WellFormed;
    assert (events + [Evaluate(q, d)])[..|events|] == events;
    RunKeepsStep(cfg, granted, seed, at, events);
    MarksStay(cfg, granted, seed, at, events, k, rule);
    RefusedRulesAreNotAsked(cfg, Run(cfg, Start(granted, seed, at), events).s, q, d);
  }

  // This gate was refused for the tool, and it was opened for the rule among others.
  predicate RefusesRule(e: Event, tool: string, rule: string) {
    e.Settle? && e.v.Refused? && e.tool == tool && rule in e.ruleIds
  }

  // The rule table holds refusals only, each with what is remembered of it.
  ghost predicate RulesAreRefusals(s: Session, events: seq<Event>) {
    forall k :: k in s.rules.entries ==> IsOneOf(s.rules.entries[k], k, events)
  }

  ghost predicate IsOneOf(entry: Cache.Entry, key: Cache.Key, events: seq<Event>) {
    exists i :: 0 <= i < |events| && RefusesRule(events[i], key.0, key.1) && Remembers(entry, events[i])
  }

  lemma {:induction false} OneOfMore(entry: Cache.Entry, key: Cache.Key, events: seq<Event>, e: Event)
    requires IsOneOf(entry, key, events) || (RefusesRule(e, key.0, key.1) && Remembers(entry, e))
    ensures IsOneOf(entry, key, events + [e])
  {
    var more := events + [e];
    if i :| 0 <= i < |events| && RefusesRule(events[i], key.0, key.1) && Remembers(entry, events[i]) {
      assert more[i] == events[i];
    } else {
      assert more[|events|] == e;
    }
  }

  lemma {:induction false} StepMarksRefusals(cfg: Config, w: World, e: Event, events: seq<Event>)
    requires InStep(w) && RulesAreRefusals(w.s, events)
    ensures RulesAreRefusals(After(cfg, w.s, e), events + [e])
  {
    hide InStep, Hook.PutAll, Cache.GetRules, Cache.Put, Cadence.Prune, LooksUp, ActiveRules, IsOneOf;
    assert Cache.WellFormed(w.s.rules) && |w.s.rules.order| <= Cache.CACHE_MAX_ENTRIES by { InStepRules(w); }
    var next := After(cfg, w.s, e);
    if e.Evaluate? && LooksUpRules(cfg, w.s, e.q) {
      Cache.GetRulesAddsNothing(w.s.rules, e.q.call.tool, ActiveRules(cfg.softRules, cfg.disabledRules, e.q.soft.pids),
                                e.q.now, Cache.CACHE_TTL_S);
    }
    if e.Settle? && e.v.Refused? {
      var entry := Hook.EntryOf(e.v, e.at, e.wall);
      Hook.PutAllEntries(w.s.rules, e.tool, e.ruleIds, entry, Cache.CACHE_MAX_ENTRIES);
      Hook.PutAllKeepsOthers(w.s.rules, e.tool, e.ruleIds, entry, Cache.CACHE_MAX_ENTRIES);
    }
    forall k | k in next.rules.entries ensures IsOneOf(next.rules.entries[k], k, events + [e]) {
      OneOfMore(next.rules.entries[k], k, events, e);
    }
  }

  lemma {:induction false} InStepRules(w: World)
    requires InStep(w)
    ensures Cache.WellFormed(w.s.rules) && |w.s.rules.order| <= Cache.CACHE_MAX_ENTRIES
  {
  }

  lemma {:induction false} RunMarksRefusals(cfg: Config, granted: iset<Scopes.Scope>, seed: int, at: real,
                                            events: seq<Event>)
    requires Possible(cfg, Start(granted, seed, at), events)
    ensures RulesAreRefusals(Run(cfg, Start(granted, seed, at), events).s, events)
  {
    hide InStep, CanHappen, After, AsCadence, RulesAreRefusals;
    if events == [] {
      NothingMarked(granted, seed, at);
    } else {
      var front, e := events[..|events| - 1], events[|events| - 1];
      RunMarksRefusals(cfg, granted, seed, at, front);
      RunKeepsStep(cfg, granted, seed, at, front);
      StepMarksRefusals(cfg, Run(cfg, Start(granted, seed, at), front), e, front);
      assert front + [e] == events;
    }
  }

  lemma {:induction false} NothingMarked(granted: iset<Scopes.Scope>, seed: int, at: real)
    ensures RulesAreRefusals(Start(granted, seed, at).s, [])
  {
  }

  // Conversely a call is turned away for a rule only if a user refused a gate of this tool under that
  // rule in the last 60 s, and with what is remembered of that refusal; a gate that expired marks no
  // rule.
  lemma {:induction false} RuleDenialNeedsRefusal(cfg: Config, granted: iset<Scopes.Scope>, seed: int, at: real,
                                                  events: seq<Event>, q: Query, d: Decision)
    requires Possible(cfg, Start(granted, seed, at), events + [Evaluate(q, d)])
    requires d.Denied? && d.why.RuleRecentlyRefused?
    ensures exists k :: 0 <= k < |events| && RefusesRule(events[k], q.call.tool, d.why.rule)
                        && q.now - events[k].at <= 60.0 && Remembers(d.why.entry, events[k])
  {
    hide Run, Cache.Get, Cache.GetRules, ActiveRules, InStep, LooksUpRules;
    assert (events + [Evaluate(q, d)])[..|events|] == events;
    var s := Run(cfg, Start(granted, seed, at), events).s;
    RunKeepsStep(cfg, granted, seed, at, events);
    InStepRules(Run(cfg, Start(granted, seed, at), events));
    RunMarksRefusals(cfg, granted, seed, at, events);
    RefusedRulesAreNotAsked(cfg, s, q, d);
    var i: nat :| FirstRefused(s, q, ActiveOf(cfg, q), i);
    assert IsOneOf(d.why.entry, (q.call.tool, d.why.rule), events);
  }

  // ---------------------------------------------------------------- scopes and denials

  predicate GrantsAt(e: Event, scope: Scopes.Scope) {
    e.Settle? && e.v.Granted? && e.v.scope.Some? && Scopes.Parse(e.v.scope.value) == Some(scope)
  }

  // The scopes granted are the initial ones and those the users' approvals name, no others.
  lemma {:induction false} GrantedAre(cfg: Config, granted: iset<Scopes.Scope>, seed: int, at: real,
                                      events: seq<Event>, scope: Scopes.Scope)
    ensures scope in Run(cfg, Start(granted, seed, at), events).s.granted <==>
            scope in granted || exists k :: 0 <= k < |events| && GrantsAt(events[k], scope)
  {
    hide Cadence.Prune, Cache.Get, Cache.GetRules, Cache.Put, Hook.PutAll, Scopes.Parse, LooksUp, LooksUpRules;
    if events != [] {
      var n, front := |events| - 1, events[..|events| - 1];
      GrantedAre(cfg, granted, seed, at, front, scope);
      NoScopeForOneCall();
      assert forall k :: 0 <= k < n ==> front[k] == events[k];
      if k :| 0 <= k < |front| && GrantsAt(front[k], scope) {
        assert GrantsAt(events[k], scope);
      }
    }
  }

  // What stands for "this call only" is no scope.
  lemma {:induction false} NoScopeForOneCall()
    ensures Scopes.Parse("this_call").None? && Scopes.Parse("").None?
  {
    Scopes.ThisCallIsNoScope();
  }

  // An approval with a scope settles later calls as well: from then on a call it covers is allowed
  // unless a fault or a hard denial comes first.
  lemma {:induction false} ApprovedScopeAllows(cfg: Config, granted: iset<Scopes.Scope>, seed: int, at: real,
                                               events: seq<Event>, q: Query, d: Decision, scope: Scopes.Scope)
    requires Possible(cfg, Start(granted, seed, at), events + [Evaluate(q, d)])
    requires exists k :: 0 <= k < |events| && GrantsAt(events[k], scope)
    requires Scopes.Covers(scope, q.call, q.glob) && !cfg.disabled && q.sha.Some? && q.hard.NoDeny?
    ensures d.Allowed?
  {
    hide Run, Scopes.Covers;
    assert (events + [Evaluate(q, d)])[..|events|] == events;
    GrantedAre(cfg, granted, seed, at, events, scope);
  }

  // The refusals since the last time the queue was drained, as the agent is to be told of them.
  function Refusals(events: seq<Event>): seq<Denial> {
    if events == [] then []
    else match events[|events| - 1]
      case Drain => []
      case Settle(requestId, _, _, _, Refused(reason, decidedAt), _, _) =>
        Refusals(events[..|events| - 1]) + [Denial(requestId, reason, decidedAt)]
      case _ => Refusals(events[..|events| - 1])
  }

  // Every refusal is queued, with its request, its reason and its time, in order; nothing else is.
  lemma {:induction false} DenialsAreRefusals(cfg: Config, granted: iset<Scopes.Scope>, seed: int, at: real,
                                              events: seq<Event>)
    ensures Run(cfg, Start(granted, seed, at), events).s.denials == Refusals(events)
  {
    hide Cadence.Prune, Cache.Get, Cache.GetRules, Cache.Put, Hook.PutAll, Scopes.Parse, LooksUp, LooksUpRules;
    if events != [] {
      DenialsAreRefusals(cfg, granted, seed, at, events[..|events| - 1]);
    }
  }

  // ---------------------------------------------------------------- gates

  // The times at which gates were opened.
  ghost function Openings(cfg: Config, start: World, events: seq<Event>): seq<real> {
    if events == [] then []
    else
      var front, e := events[..|events| - 1], events[|events| - 1];
      Openings(cfg, start, front) + if Opens(cfg, Run(cfg, start, front).s, e) then [e.stampedAt] else []
  }

  ghost predicate Opens(cfg: Config, s: Session, e: Event) {
    e.Open? && Hook.AfterOpen(cfg, s, e.hasTask, e.decision, e.remaining, e.checkedAt, e.stampedAt).0.Opened?
  }

  lemma {:induction false} StepOpenings(cfg: Config, w: World, e: Event)
    requires InStep(w) && CanHappen(cfg, w, e)
    ensures Cadence.Stamps(Step(cfg, w, e).c.gates)
         == Cadence.Stamps(w.c.gates) + if Opens(cfg, w.s, e) then [e.stampedAt] else []
    ensures Step(cfg, w, e).s.count == w.s.count + if Opens(cfg, w.s, e) then 1 else 0
    ensures Opens(cfg, w.s, e) ==> w.s.count < cfg.cap
  {
    hide Cadence.Prune, Cadence.Inv, Cache.After, CallsFor, LooksUp;
    assert Cadence.Stamps(w.c.gates) + [] == Cadence.Stamps(w.c.gates);
    assert Cadence.Stamps(Step(cfg, w, e).c.gates)
        == Cadence.Stamps(w.c.gates) + if Opens(cfg, w.s, e) then [e.stampedAt] else [];
  }

  // In every run the counter counts the gates opened, and opening one never takes it past the cap,
  // not even when it was seeded above it.
  lemma {:induction false} GatesAreBounded(cfg: Config, granted: iset<Scopes.Scope>, seed: int, at: real,
                                           events: seq<Event>)
    requires Possible(cfg, Start(granted, seed, at), events)
    ensures var start := Start(granted, seed, at);
            var stamps := Openings(cfg, start, events);
            && stamps == Cadence.Stamps(Run(cfg, start, events).c.gates)
            && Run(cfg, start, events).s.count == seed + |stamps|
            && (stamps != [] ==> seed + |stamps| <= cfg.cap)
  {
    hide InStep, CanHappen, Step;
    if events != [] {
      var front := events[..|events| - 1];
      GatesAreBounded(cfg, granted, seed, at, front);
      RunKeepsStep(cfg, granted, seed, at, front);
      StepOpenings(cfg, Run(cfg, Start(granted, seed, at), front), events[|events| - 1]);
    }
  }

  // In every run no closed interval of 60 s sees more than 20 gates opened.
  lemma {:induction false} AtMostTwentyOpenings(cfg: Config, granted: iset<Scopes.Scope>, seed: int, at: real,
                                                events: seq<Event>, from: real, i: nat, j: nat)
    requires Possible(cfg, Start(granted, seed, at), events)
    requires var stamps := Openings(cfg, Start(granted, seed, at), events);
             i <= j < |stamps| && from <= stamps[i] && stamps[j] <= from + 60.0
    ensures j - i < 20
  {
    hide Run, Openings, Cache.After;
    GatesAreBounded(cfg, granted, seed, at, events);
    RunKeepsStep(cfg, granted, seed, at, events);
    var gates := Run(cfg, Start(granted, seed, at), events).c.gates;
    if i + Cadence.APPROVAL_RATE_LIMIT <= j {
      Cadence.SingleSpan(gates, i);
    }
  }

  lemma {:induction false} RateLimitedIs(cfg: Config, s: Session, e: Event)
    requires e.Open?
    ensures IsRateLimited(cfg, s, e) <==>
            e.hasTask && s.count < cfg.cap && |Cadence.Prune(s.window, e.checkedAt)| >= 20
  {
    hide Cadence.Prune;
  }

  predicate IsRateLimited(cfg: Config, s: Session, e: Event)
    requires e.Open?
  {
    Hook.AfterOpen(cfg, s, e.hasTask, e.decision, e.remaining, e.checkedAt, e.stampedAt).0.RateLimited?
  }

  // A gate is refused for the rate exactly when 20 gates were opened in the 60 s before the check.
  lemma {:induction false} RateLimitedExactlyWhen(cfg: Config, granted: iset<Scopes.Scope>, seed: int, at: real,
                                                  events: seq<Event>, e: Event)
    requires Possible(cfg, Start(granted, seed, at), events + [e]) && e.Open?
    ensures var start := Start(granted, seed, at);
            var stamps := Openings(cfg, start, events);
            IsRateLimited(cfg, Run(cfg, start, events).s, e) <==>
            && e.hasTask && Run(cfg, start, events).s.count < cfg.cap
            && |stamps| >= 20 && e.checkedAt - stamps[|stamps| - 20] <= 60.0
  {
    hide Run, Openings, Cache.After, Cadence.Prune, Cadence.Recent, IsRateLimited, Cadence.Spaced;
    hide Cadence.OpsAreOutcomes, Cadence.KeepsLive, Cadence.Serial, Cadence.WindowIsSuffix, Cache.WellFormed;
    assert (events + [e])[..|events|] == events;
    GatesAreBounded(cfg, granted, seed, at, events);
    RunKeepsStep(cfg, granted, seed, at, events);
    RateLimitedIs(cfg, Run(cfg, Start(granted, seed, at), events).s, e);
    Cadence.TwentyLeft(Run(cfg, Start(granted, seed, at), events).c, e.checkedAt);
  }
}
