# Approval gates, steering and bookkeeping of the background coding agent

The agent runs a coding task in a container. Before every tool call a policy engine decides: allow,
deny, or ask a human. Between turns the agent is told what users sent it and what they refused.
This project models that machinery and proves what it promises, over every input and every run.

- `GateProtocol` is the human-approval gate as a transition system: any number of gates, decisions
  by users, cancels, container restarts, TTL removals, and store calls that fail before or after
  taking effect. `ApprovalHook` and `PolicyEngine` are the imperative code at its two ends;
  `EngineRun` is what holds over every run of one engine, from its construction on.
- `DecisionCache` is the LRU table with a TTL; `GateCadence` is the sliding rate window and the
  theorem that joins the two: the 50-entry limit is invisible.
- `PolicyTiers`, `Scopes` and `ApprovalTimeout` are rule validation and merging, the session
  allowlist, and how long and how a gate waits.
- `NudgeText`, `NudgeReader` and `BetweenTurns` are the messages to the agent: their text and a
  parser for it, the paged read, and the Stop hook over whole runs.
- `StuckGuard`, `CircuitBreaker`, `Ulid`, `Backoff` and `ComputeTypes` are the smaller state
  machines and encodings around it. `TextOrder` is the order of strings, `Wrappers` an option type.

Classes stand for the objects the program updates in place, functions for what its loops compute;
each method is proved against such a function, and the statements about runs are lemmas about the
functions. Time is `real`, integers are unbounded as in Python. Everything the outside world
decides is an argument or part of an event: Cedar's answers, glob matches, hashes, clock readings,
read times, whether a store call works, is rejected, or raises before or after taking effect.
`dafny verify dfyconfig.toml` checks the project.

## Findings

Where the code and its documentation or its apparent intent part, the model follows the code.

- A committed approval is answered with a timeout, over an APPROVED row, in two ways: the TIMED_OUT
  write fails and the re-read after it fails as well; or the TIMED_OUT write fails, the re-read works
  and sees PENDING, and the approval commits before the resume (`GateProtocol.ApprovalCanBeLost`,
  with the exact condition in `GateProtocol.DecisionIsHeard`).
- A row write that lands but reports an error leaves the task AWAITING_APPROVAL with no gate behind
  it; only a cancel or the reconciler ends it (`GateProtocol.StrandedExactlyBy`, `StrandedForGood`).
- The effective timeout exceeds the task default if and only if the default is below the 30 s floor,
  which the engine does not check (`ApprovalTimeout.DefaultBoundsTimeoutIffAboveFloor`).
- `ApprovalAllowlist.add` is documented to strip white space around the prefix; it strips in front
  of it only, and rejects a scope with white space before the colon (`Scopes.PaddedPrefix`).
- `read_pending` logs that older nudges were dropped; it drops the newest, and it logs so even when
  exactly 100 rows were there (`NudgeReader.TruncationDropsNewest`, `NudgeReader.ReadPending`).
- The comment above the cache update says a TIMED_OUT entry carries the moment the timeout fired;
  the outcome has no such field, so the entry carries the time of caching (`ApprovalHook.SettleGate`).
- The window steer calls every failure in the window "the same error", also when one of six is not
  (`StuckGuard.WindowCountIsRight`, `StuckGuard.WindowCountCanMislead`).
- A nudge whose mark was lost is never marked again by the process that injected it. A hundred of
  them hide every newer nudge from that process (`BetweenTurns.LostMarksStarveNewer`).
- Ids described as 48-bit timestamps hold 50 bits, and wrap around above
  (`Ulid.UlidWraps`).

## Model

| member | source | states |
|---|---|---|
| GateProtocol.AnswersAreBacked | agent/src/hooks.py:649-791 | Over every run with failing and lying store calls: a gate answers "allow" only if an event of the run is a user approving this very gate, committed while its row was PENDING and the task waited for it, and its own conditional resume took effect; "denied by the user" only if such an event is a denial; a written timeout only if there is neither; and the row, if still there, says the same. |
| GateProtocol.DecisionsAreEvents | cdk/src/handlers/deny-task.ts:143-180 | In every run the decision on record for a gate is APPROVED if and only if some committed event approved it, and DENIED if and only if some committed event denied it. |
| GateProtocol.AtMostOneHolder | agent/src/task_state.py:658-732 | However many gates and containers race, at most one gate is between its row write and its resume. |
| GateProtocol.EndedTaskAllowsNothing | agent/src/task_state.py:735-786 | From any state in which the task has ended, no gate that has not answered is ever allowed, whatever follows. |
| GateProtocol.CancelBeforeResumeDenies | agent/src/hooks.py:744-765 | A cancel that precedes a gate's resume means that gate is never allowed. |
| GateProtocol.DecisionIsHeard | agent/src/hooks.py:708-791 | What becomes of a committed approval or denial, over every run: the gate answers with it if and only if its resume went through and no re-read overlooked it; it answers with a timeout if and only if its resume went through and its re-read failed, found no row, or found no decision on it yet; it reports a system failure if and only if its resume did not go through. |
| GateProtocol.RereadHears | agent/src/hooks.py:885-933 | The re-read of a decided gate settles on the decision if and only if it works and finds the row. |
| GateProtocol.RunRecalls | agent/src/hooks.py:708-791 | In every run a gate's phase tells whether a re-read of it overlooked a decision and whether its resume took effect. |
| GateProtocol.DecisionBeforeRereadIsHeard | agent/src/hooks.py:708-742 | A decision committed while the gate polls, writes TIMED_OUT or is about to re-read becomes its verdict in every continuation, unless that re-read fails or TTL has removed the row. |
| GateProtocol.ApprovalCanBeLost | agent/src/hooks.py:708-742 | Both kinds of loss occur: from any gate at the end of its poll one continuation has a failing re-read, another a re-read that works just before the approval commits, and both refuse the call over a row saying APPROVED. |
| GateProtocol.PollEndIsReachable | agent/src/hooks.py:513-742 | The state that example starts from is reached by a run in which nothing fails. |
| GateProtocol.ApprovalGoesThrough | agent/src/hooks.py:649-791 | A readable approval lets the call through, and the task run again, as soon as one read and the resume work. |
| GateProtocol.DecisionStands | cdk/src/handlers/approve-task.ts:160-205 | No step rewrites a committed decision: a second decision, a late one and the TIMED_OUT write all miss their condition. |
| GateProtocol.RowShowsDecision | agent/src/task_state.py:789-833 | While its gate holds the task, the row of a decided gate carries exactly that decision. |
| GateProtocol.AnswersAreFinal | agent/src/hooks.py:513-882 | A gate that has answered never changes its answer, so no approval is spent twice. |
| GateProtocol.StrandedForGood | agent/src/hooks.py:649-706 | A task that waits for an approval no gate will act on lets nothing through, over any further gates, decisions and restarts, until something ends it. |
| GateProtocol.StrandedExactlyBy | agent/src/hooks.py:649-765 | One step strands a task if and only if it is a row write that landed but reported an error, a resume that did not land although it could have, or the death of the container inside a gate. |
| GateProtocol.StepKeepsInv | agent/src/hooks.py:513-791 | Every step of the agent, the user, the environment and TTL keeps the protocol invariant (ownership of the pause, one holder, rows agree with decisions, verdicts are backed). |
| GateProtocol.ExecKeepsInv | agent/src/hooks.py:513-791 | So does every run. |
| GateProtocol.StepKeepsBudget | agent/src/hooks.py:631-647 | Every step, a restart with increments in flight included, keeps the account of gates attempted against the persisted counter and the lost increments. |
| GateProtocol.GateBudget | agent/src/hooks.py:537-549 | Counted over the events of any run with any number of restarts: the gates attempted never exceed the cap by more than the persisted-counter increments that did not take effect. |
| DecisionCache.CacheTracks | agent/src/policy.py:445-565 | For any capacity, TTL and operations: size within the capacity, order equal to last-touch order, every entry the latest record of its key. |
| DecisionCache.HitIsLatestRecord | agent/src/policy.py:533-545 | A hit is the latest record of its key and no older than the TTL (an entry of exactly that age is live). |
| DecisionCache.EvictionNeedsTouches | agent/src/policy.py:492-497 | A record evicts a key only if at least `maxEntries` distinct other keys were touched since that key's last touch. |
| DecisionCache.VictimIsOldest | agent/src/policy.py:492-497 | An overflowing record removes exactly the least recently touched key. |
| DecisionCache.RecentKeysStay | agent/src/policy.py:468-545 | The converse: a recorded key is present unless that many others were touched since or a lookup found it stale. |
| DecisionCache.FirstLiveRuleWins | agent/src/policy.py:547-565 | A rule lookup returns the first rule in order with a live entry and loses only stale entries on the way. |
| DecisionCache.RecentDecisionCache.Record | agent/src/policy.py:468-497 | Refuses APPROVED, otherwise puts the entry in as the newest of the input table: this decision and reason, stamped with the time of the call, and the time of the original decision or else the wall clock. |
| DecisionCache.PutNewest | agent/src/policy.py:492-497 | The keys touched last stay, together with the one put, as long as all of them fit. |
| DecisionCache.RecentDecisionCache.RecordRule | agent/src/policy.py:499-531 | The same for the rule table, which takes DENIED only. |
| DecisionCache.RecentDecisionCache.Lookup | agent/src/policy.py:533-545 | Hit and new table are those of the specification: a hit refreshes the order but not the age, a stale entry is dropped. |
| DecisionCache.RecentDecisionCache.LookupRules | agent/src/policy.py:547-565 | The loop over the rules computes the specified hit and table. |
| GateCadence.PruneIsFilter | agent/src/policy.py:1018-1023 | On ascending timestamps popping from the front equals filtering. |
| GateCadence.PruneCuts | agent/src/policy.py:1018-1023 | On any deque, pruning removes a prefix of too-old timestamps and stops at the first that is not. |
| GateCadence.DequeIsFilteredHistory | agent/src/policy.py:1012-1031 | In every run the pruned deque equals the filter over all timestamps the run ever produced. |
| GateCadence.AtMostTwentyPerWindow | agent/src/hooks.py:551-563 | In every run every closed interval of 60 s holds at most 20 gates. |
| GateCadence.EvictionSpan | agent/src/policy.py:492-497 | If a record evicts a live entry, the cache is full of entries at most 120 s old and the recorded key is not one of them. |
| GateCadence.FewGatesLeaveEntries | agent/src/policy.py:130-131 | Gates run one at a time: at most 41 of them can leave an entry within the last 120 s. |
| GateCadence.NoLiveEviction | agent/src/policy.py:468-497 | Hence in a run of gates no record evicts a live entry. |
| GateCadence.StepKeepsInv | agent/src/hooks.py:551-563 | Every rate check, admission, outcome and cache lookup keeps the joint invariant of deque, gates and cache. |
| GateCadence.CacheIsHistory | agent/src/policy.py:533-545 | In every run, for every key and time, the bounded cache answers as the unbounded history "last refusal of this key within 60 s". |
| PolicyEngine.PolicyEngine.Make | agent/src/policy.py:764-975 | The constructor accepts exactly the arguments it should (a seed above the cap included); the engine starts with those settings, the scopes parsed from the initial approvals, the seeded counter, and empty caches, deque and queue. |
| PolicyEngine.PolicyEngine.EvaluateToolUse | agent/src/policy.py:1153-1320 | The decision is the one the state calls for: fail-closed faults, hard denial, granted scopes, input cache, soft tier with disabled rules removed, granted rules, rule cache, approval with tightest timeout and gravest severity. Nothing changes but the caches, by exactly the lookups that are reached. |
| PolicyEngine.RefusedRulesAreNotAsked | agent/src/policy.py:1267-1289 | No rule of an approval request was refused on this tool in the last 60 s; and a call is turned away for a rule if and only if the evaluation gets that far and an active rule was, with the refusal of the first such rule. |
| PolicyEngine.HardDenyNamesItsRules | agent/src/policy.py:1199-1206 | A hard denial names the rules behind it, match by match. |
| PolicyEngine.PolicyEngine.RecordGateTimestamp | agent/src/policy.py:1012-1023 | Append, then prune at that very time. |
| PolicyEngine.PolicyEngine.ApprovalsInLastMinute | agent/src/policy.py:1025-1031 | Prunes, and counts what is left. |
| PolicyEngine.PolicyEngine.PruneRateWindow | agent/src/policy.py:1018-1023 | The loop of front pops equals the specified pruning. |
| PolicyEngine.PolicyEngine.QueueDenial | agent/src/policy.py:1033-1043 | The queue grows by this denial at its end. |
| PolicyEngine.PolicyEngine.DrainDenials | agent/src/policy.py:1045-1049 | Returns the whole queue in order and leaves it empty. |
| PolicyEngine.PolicyEngine.MarkCeilingShrinkingEmitted | agent/src/policy.py:1051-1062 | True on the first call only. |
| ApprovalHook.OpenGate | agent/src/hooks.py:528-637 | Which refusal the state calls for, in order; an opened gate has bumped the counter within the cap and carries the effective timeout; the whole new state; the shrinking-window warning is raised once. |
| ApprovalHook.SettleGate | agent/src/hooks.py:766-845 | The whole new state: an approval adds exactly its parsed scope and touches no cache; a refusal is cached under the input and under each rule and queued for the agent; an expiry is cached under the input only. |
| ApprovalHook.PutAllMarks | agent/src/hooks.py:813-828 | As many rules as the rule table holds are all marked with the refusal, whatever the table held before. |
| ApprovalHook.OpenedGateWaits | agent/src/policy.py:680-716 | From the matching rules of a valid tier to the open gate: it waits at least 30 s, at most the task default and every matching, enabled rule's own timeout, ends two minutes before the container does, and waits as long as one of these bounds allows. |
| ApprovalHook.RequestIsAsGraveAsItsRules | agent/src/policy.py:699-714 | An approval request is "high" if one of its rules is, otherwise "medium" if one is or has no severity, otherwise "low". |
| EngineRun.RefusalSticks | agent/src/policy.py:1215-1232 | Over every run from construction, through any evaluations, gates, outcomes and evictions: a call is turned away as recently refused if and only if the last gate for this tool and input that was refused or expired ended at most 60 s ago, no granted scope covers the call, and no fault or hard denial comes first; and the answer carries how that gate ended, why, when, and when the user decided. |
| EngineRun.RefusedRuleIsNotAskedAgain | agent/src/hooks.py:813-828 | After a gate was refused, with at most 50 rules, and until another gate is settled, no call of the tool that falls under one of these rules opens a gate within 60 s, whatever its input. |
| EngineRun.RuleDenialNeedsRefusal | agent/src/hooks.py:813-828 | Conversely, over every run, a call is turned away for a rule only if a user refused a gate of this tool under that rule in the last 60 s, and the answer carries that refusal; a gate that expired marks no rule. |
| EngineRun.GrantedAre | agent/src/hooks.py:771-780 | In every run the scopes granted are the initial ones and those that approvals named, no others; an approval of one call adds none. |
| EngineRun.ApprovedScopeAllows | agent/src/policy.py:1208-1213 | From the moment an approval names a scope, a call it covers is allowed unless a fault or a hard denial comes first. |
| EngineRun.DenialsAreRefusals | agent/src/hooks.py:830-835 | In every run the queued denials are the refusals since the queue was last drained, in order, each with its request, reason and time. |
| EngineRun.RateLimitedExactlyWhen | agent/src/hooks.py:551-563 | In every run a gate is refused for the rate if and only if it is under the cap and 20 gates were opened in the 60 s before its check. |
| EngineRun.GateOnlyIfNotRefused | agent/src/policy.py:1245-1307 | Over every run, a human is asked only about a call whose last refusal is more than 60 s old, and for a non-empty list of rules, none disabled, none granted, and none refused on this tool in the last 60 s. |
| EngineRun.StepKeepsStep | agent/src/hooks.py:528-857 | Every evaluation, opening, settling and abandoning keeps deque and input cache those that the history of gates prescribes. |
| EngineRun.RefusalsAreOutcomes | agent/src/hooks.py:801-811 | The last outcome the gates left for a key is the last refusal or expiry settled for it in the run. |
| EngineRun.GatesAreBounded | agent/src/hooks.py:537-549 | In every run the counter counts the gates opened, and opening one never takes it past the cap, not even from a seed above it. |
| EngineRun.AtMostTwentyOpenings | agent/src/hooks.py:551-563 | In every run of the engine no closed interval of 60 s sees more than 20 gates opened. |
| Scopes.ParseShow | agent/src/policy.py:359-395 | Every grantable scope is read back from its text, with any white space around the whole and around its value. |
| Scopes.ParseReads | agent/src/policy.py:372-395 | Each prefix of the scope language grants the scope it names. |
| Scopes.ThisCallIsNoScope | agent/src/policy.py:372-376 | The word for a single call names no scope. |
| Scopes.PaddedPrefix | agent/src/policy.py:359-378 | White space between prefix and colon makes a scope unreadable; without it the scope is read back. |
| Scopes.ParseGrants | agent/src/policy.py:359-395 | Whatever is read is grantable: no empty value, no unknown group. |
| Scopes.StripIgnoresPadding | agent/src/policy.py:359-395 | Stripping ignores surrounding white space of any length. |
| Scopes.ApprovalAllowlist.Add | agent/src/policy.py:359-395 | Grants exactly the scope read, or nothing when the text is rejected. |
| Scopes.ApprovalAllowlist.Matches | agent/src/policy.py:402-420 | True if and only if everything, the tool, its group, the command by some pattern or the path by some pattern was granted; a granted rule pre-approves nothing here. |
| PolicyTiers.ValidateTier | agent/src/policy.py:625-677 | Accepts exactly the valid tiers, and otherwise points at the first rule that breaks one. |
| PolicyTiers.SoftTierIsValidExactlyWhen | agent/src/policy.py:636-677 | What a valid soft tier is: tier and rule id on every rule, timeouts of at least 30 s, known severities, no rule id twice, the catch-all permit exempt. |
| PolicyTiers.GravestWins | agent/src/policy.py:709-714 | Of known severities "high" wins over "medium" and "medium" over "low". |
| PolicyTiers.ResolveIsPointwise | agent/src/policy.py:1412-1423 | Matches that are all known resolve one by one, in order. |
| PolicyTiers.MatchingRuleIds | agent/src/policy.py:1398-1423 | The resolved ids, in the order of the matches. |
| PolicyTiers.MergeAnnotations | agent/src/policy.py:680-716 | The ids in order, the tightest asked timeout lifted to the floor, the first of the gravest severities. |
| PolicyTiers.LookupsAgree | agent/src/policy.py:1426-1431 | The two ways of looking up a rule (last of an id in a dictionary, first in a scan) agree when policy ids are distinct. |
| PolicyTiers.FiltersAgree | agent/src/policy.py:1245-1307 | The rule ids that decide whether an approval is needed are the ones the decision carries, in the same order. |
| PolicyTiers.FiltersAgreeIffNamed | agent/src/policy.py:1245-1300 | The two filters agree on all matches if and only if every rule carries a rule id. |
| PolicyTiers.ValidTierNamesRules | agent/src/policy.py:645-655 | Validation grants exactly that. |
| PolicyTiers.MergeIgnoresOrder | agent/src/policy.py:680-716 | Merged timeout and severity depend only on which rules matched, not on order or repetition, when all their severities are known ones. |
| PolicyTiers.ValidTierMergeIgnoresOrder | agent/src/policy.py:625-716 | Hence for every tier that validation accepts and any matches of a deny, which name forbid policies only: same set of matches, same timeout and severity. |
| PolicyTiers.ValidTierKnowsSeverities | agent/src/policy.py:672-677 | Validation grants that for every rule but the catch-all permit. |
| ApprovalTimeout.ComputeEffectiveTimeout | agent/src/hooks.py:1021-1074 | The clipping steps compute the specified timeout, reason and request. |
| ApprovalTimeout.WrittenGateBounds | agent/src/hooks.py:565-608 | A gate that gets a row waits at least the floor, at most the task default and every matching annotation, and leaves the cleanup margin; each clip reason is reported if and only if that bound is the binding one. |
| ApprovalTimeout.DefaultBoundsTimeoutIffAboveFloor | agent/src/hooks.py:1046-1074 | For every merged timeout and remaining lifetime, the task default bounds what a gate waits if and only if it is itself at least the floor, which the engine does not check. |
| ApprovalTimeout.PollForDecision | agent/src/hooks.py:936-1018 | For any read times and sleep overruns: only the last reply can carry a decision; it is a grant with the approved scope if and only if that reply is an approval, a refusal with its reason ("denied" if empty) if and only if it is a denial; at most 15 + ceil((T-30)/5) reads; each sleep lasts two or five seconds, cut off at the deadline; ten failed reads in a row end the poll and three in a row are reported once. |
| ApprovalTimeout.OneReadLess | agent/src/hooks.py:989-1016 | A read and the sleep after it use up one of the reads that were left, whichever interval applies. |
| ApprovalTimeout.AtMostAllReads | agent/src/hooks.py:954-958 | The reads left at the start are within the bound, also when the deadline is computed a moment before the start. |
| NudgeText.FourPassesAreOne | agent/src/nudge_reader.py:236-249 | The four sequential replacements equal one character map. |
| NudgeText.EscapeHidesMarkup | agent/src/nudge_reader.py:236-249 | Escaped text holds no angle bracket and no double quote. |
| NudgeText.UnescapeEscape | agent/src/nudge_reader.py:236-249 | Escaping has a left inverse. |
| NudgeText.FormatAsUserMessage | agent/src/nudge_reader.py:252-268 | One block per nudge, in order, each with its escaped creation time, id and message in their places. |
| NudgeText.EscapesAre | agent/src/nudge_reader.py:236-249 | What each of the four characters becomes, and that characters are escaped one by one. |
| NudgeText.ParsePrintedBlock | agent/src/nudge_reader.py:265-267 | A printed block is read back whatever its fields and whatever follows it. |
| NudgeText.ParsePrinted | agent/src/nudge_reader.py:252-268 | Any number of printed blocks is read back, up to a text that does not start another. |
| NudgeText.NudgesAreRecovered | agent/src/nudge_reader.py:252-268 | A parser recovers every list of nudges from its message. |
| NudgeText.FormatIsInjective | agent/src/nudge_reader.py:252-268 | Two different lists of nudges never print the same. |
| NudgeText.ParseAll | agent/src/nudge_reader.py:252-268 | Any list of blocks of one style is recovered from its text. |
| NudgeText.TurnIsRecovered | agent/src/hooks.py:1713-1717 | Any lists of nudges and denials joined into one turn, either possibly empty, are recovered and told apart. |
| NudgeReader.ReadPending | agent/src/nudge_reader.py:98-163 | For any pages and failures: nothing if the table fails before 100 rows were seen, otherwise the named rows among the first 100 in stable order of their ids, each nudge with its row's id, text and creation time; "truncated" if and only if at least 100 were seen. |
| NudgeReader.PagesDoNotMatter | agent/src/nudge_reader.py:115-163 | If the rows come in ascending order with ids, the result is exactly the first min(100, n) of them for every split into pages, empty pages included: id, message and creation time of the i-th nudge are those of the i-th row. |
| NudgeReader.PendingIsSorted | agent/src/nudge_reader.py:151-163 | For any row order the result is ascending and holds exactly the named rows among the first hundred, with multiplicity, each in all its fields. |
| NudgeReader.SortByIdSorts | agent/src/nudge_reader.py:151-154 | The sort is a stable sort by id. |
| NudgeReader.StableSortIsUnique | agent/src/nudge_reader.py:151-154 | There is only one stable sort, so nothing depends on the algorithm. |
| NudgeReader.PendingAreKeyed | agent/src/nudge_reader.py:156-163 | If the table holds one row per id, every nudge read has an id and none is read twice. |
| NudgeReader.TruncationDropsNewest | agent/src/nudge_reader.py:144-149 | What a truncated read leaves out are the newest nudges, not the older ones as its log line says. |
| BetweenTurns.NudgeTable.MarkConsumed | agent/src/nudge_reader.py:166-233 | The conditional update consumes an unconsumed row unless it is lost before taking effect, and reports success only for a reported update. |
| BetweenTurns.StopSeam.NudgeHook | agent/src/hooks.py:1380-1472 | Reads the pages, injects exactly the nudges this process has not injected, remembers them, marks them, and does nothing after a cancel. |
| BetweenTurns.StopSeam.DenialHook | agent/src/hooks.py:1475-1530 | Drains the whole queue into one text, one block per denial with its escaped request id, time and reason, and does nothing after a cancel or without an engine. |
| BetweenTurns.StopSeam.StopHook | agent/src/hooks.py:1635-1717 | For any registry of hooks, the loop with its early exit computes the specified state and reply. |
| BetweenTurns.CallIs | agent/src/hooks.py:1613-1632 | With the registry of the source a call is cancel, stuck guard, nudges, denials, or nothing but the cancel. |
| BetweenTurns.CancelWins | agent/src/hooks.py:1533-1565 | A call that sees the cancel halts, consumes and remembers no nudge, and drains no denial. |
| BetweenTurns.ReasonTellsAll | agent/src/hooks.py:1705-1717 | Otherwise every new nudge and every queued denial is in the returned reason, and the agent may stop only if there is nothing to say. |
| BetweenTurns.ReasonIsReadable | agent/src/hooks.py:1705-1717 | Without a steer in front, the reply alone determines the nudges injected and the denials drained: a reader of the text recovers both. |
| BetweenTurns.InjectedAtMostOnce | agent/src/hooks.py:1426-1451 | Over every run, however often marking fails and however stale the reads, no nudge is injected by two calls of one process. |
| BetweenTurns.InjectedOncePerCall | agent/src/hooks.py:1426-1440 | The nudges one call injects are all different when the table holds one row per id. |
| BetweenTurns.InjectedOldestFirst | agent/src/nudge_reader.py:151-163 | A call injects its nudges oldest first, each one of the first hundred rows of the table in all its fields. |
| BetweenTurns.ConsumedExactlyWhen | agent/src/hooks.py:1453-1458 | In every run a nudge is consumed if and only if some call injected it and its update reached the table. |
| BetweenTurns.ReinjectedOnlyIfMarkMissed | agent/src/hooks.py:1445-1458 | If a nudge is injected twice, with current reads, a new process started in between and the update that should have marked it the first time did not reach the table. |
| BetweenTurns.MarkAllIs | agent/src/nudge_reader.py:166-196 | Marking consumes exactly the listed unconsumed nudges whose update reached the table. |
| BetweenTurns.DenialsInOrder | agent/src/policy.py:1033-1049 | In every run the denials delivered by a process, followed by those still queued, are those queued in it: each at most once and in order. |
| BetweenTurns.InjectsNothingExactlyWhen | agent/src/hooks.py:1421-1432 | On a read that works, a call injects nothing if and only if the first hundred unconsumed rows were all injected before, however many newer ones follow. |
| BetweenTurns.LostMarksStarveNewer | agent/src/hooks.py:1426-1458 | Nudges injected with a lost mark are never marked later by the same process; while they fill the first hundred rows, no call of it injects anything, whatever happens in between. |
| StuckGuard.StreakIsLongest | agent/src/stuck_guard.py:216-233 | A command's streak is the length of the longest suffix of its own results that all failed with one fingerprint. |
| StuckGuard.LastFailingIs | agent/src/stuck_guard.py:234-240 | The guard's "last failing" command is that of the last failure, unless that command ran again since. |
| StuckGuard.DominantIsUnique | agent/src/stuck_guard.py:325-331 | At most one fingerprint can make up five of six results, so no tie is ever broken. |
| StuckGuard.DominantWindowFailure | agent/src/stuck_guard.py:298-331 | Counting in a dictionary and taking any maximal key finds the dominating fingerprint and its latest command, if and only if there is one. |
| StuckGuard.StuckGuard.RecordToolResult | agent/src/stuck_guard.py:200-240 | Streaks, last failing command and window keep agreeing with the whole history. |
| StuckGuard.StuckGuard.Evaluate | agent/src/stuck_guard.py:242-296 | The action is the one the history and the earlier steers call for, and the steer is remembered. |
| StuckGuard.SteersExactlyWhen | agent/src/stuck_guard.py:242-296 | A command is steered if and only if it is the last that failed, its last three results failed alike, and it was not steered before; the window if and only if the last failing command does not qualify and was not steered, the window was not, and five of the last six results are one error. |
| StuckGuard.DominatesIs | agent/src/stuck_guard.py:298-331 | An error dominates the window if and only if all but at most one of the last six results failed with it. |
| StuckGuard.SteersAreRemembered | agent/src/stuck_guard.py:256-280 | Over every interleaving, a command (the window) is remembered as steered if and only if an earlier answer steered it. |
| StuckGuard.SteersAtMostOnce | agent/src/stuck_guard.py:242-296 | Over every interleaving of records and evaluations no two evaluations steer the same command, and no two steer the window. |
| StuckGuard.QuietRunsAreNotSteered | agent/src/stuck_guard.py:38-49 | A run in which no command ever fails three times alike and no error makes up five of six results is never steered. |
| StuckGuard.SpinIsSteered | agent/src/stuck_guard.py:255-269 | A command that just failed for the third time in a row alike is steered unless it was before. |
| StuckGuard.WindowCountIsRight | agent/src/stuck_guard.py:281-293 | The number in the window message, said to be of one error, is right if and only if that error fills the window or some result in it did not fail. |
| StuckGuard.WindowCountCanMislead | agent/src/stuck_guard.py:281-293 | After any five commands failing alike and a sixth, new one failing differently the guard reports six failures with the same error. |
| StuckGuard.HistoriesAreReachable | agent/src/stuck_guard.py:200-240 | Every history of results is one that a run records. |
| Ulid.EncodeDigits | agent/src/progress_writer.py:66-80 | The shift-and-append loop with its reversal yields the digits, most significant first. |
| Ulid.GenerateUlid | agent/src/progress_writer.py:58-82 | Twenty-six characters: timestamp, then random bits. |
| Ulid.DecodeEncode | agent/src/progress_writer.py:66-80 | Decoding returns the value modulo what the digits can hold. |
| Ulid.UlidDecodes | agent/src/progress_writer.py:58-82 | Both numbers come back; the timestamp does if and only if it is below 2^50. |
| Ulid.UlidOrder | agent/src/progress_writer.py:58-82 | The order of the strings is exactly the order of (timestamp mod 2^50, random). |
| Ulid.UlidSortsByTime | agent/src/progress_writer.py:58-63 | Below 2^50 milliseconds ids sort by (timestamp, random). |
| Ulid.UlidWraps | agent/src/progress_writer.py:64-71 | The first millisecond beyond sorts before the last one within. |
| CircuitBreaker.TripsOnThree | agent/src/progress_writer.py:289-334 | A stream is silenced if and only if its history holds a fatal outcome, or three counted failures with no success in between. |
| CircuitBreaker.SilencedExactlyWhen | agent/src/progress_writer.py:263-287 | For any interleaving of guards and outcomes of any writers over any tasks, the shared table silences a task's stream if and only if one of its own writes ended fatally, or three of them failed in a way that counts with no success of its own in between. |
| CircuitBreaker.KindIs | agent/src/progress_writer.py:513-557 | Which results are fatal, which only drop their event, and that every other failure counts. |
| CircuitBreaker.AttemptedExactlyWhen | agent/src/progress_writer.py:474-475 | In every interleaving a call attempts its write if and only if there is a table and the stream is not silenced. |
| CircuitBreaker.RunReflects | agent/src/progress_writer.py:289-334 | In every interleaving the shared table holds, for every task, the counter and the latch of that task's own history. |
| CircuitBreaker.UpdateIsLocal | agent/src/progress_writer.py:302-334 | An outcome changes its own task's entry only. |
| CircuitBreaker.DisabledIsALatch | agent/src/progress_writer.py:474-475 | Once silenced always silenced, and no call that starts afterwards attempts a write. |
| CircuitBreaker.DropsDoNotCount | agent/src/progress_writer.py:520-557 | Removing dropped events from a history changes neither counter nor latch. |
| CircuitBreaker.ReflectsStep | agent/src/progress_writer.py:302-334 | Any outcome of any task keeps the table in agreement with all histories. |
| CircuitBreaker.SharedCircuitBreaker.RecordFailure | agent/src/progress_writer.py:314-321 | Returns the failures since the last success and whether the stream is silenced, over the whole history. |
| CircuitBreaker.SharedCircuitBreaker.RecordSuccess | agent/src/progress_writer.py:323-334 | Resets the counter and does not reopen. |
| CircuitBreaker.SharedCircuitBreaker.Disable | agent/src/progress_writer.py:302-312 | Silences at once. |
| CircuitBreaker.ProgressWriter.MayWrite | agent/src/progress_writer.py:474-475 | A write is attempted if and only if there is a table and the stream is not silenced. |
| CircuitBreaker.ProgressWriter.Settle | agent/src/progress_writer.py:503-598 | Every result is accounted for as the classification of its exception says. |
| CircuitBreaker.ProgressWriter.PutEvent | agent/src/progress_writer.py:457-598 | A whole call: nothing happens when silenced, otherwise exactly one outcome is recorded. |
| Backoff.RunCmdWithBackoff | agent/src/shell.py:489-513 | Every run but the last failed transiently, named no unresolvable host and left attempts; the last succeeded, is not worth repeating or is the last allowed; its result is returned; the first delay is the base and each is twice the one before. |
| Backoff.RunsAreBounded | agent/src/shell.py:489-507 | At least one and at most max(1, max_attempts) runs, and only one possible last run. |
| Backoff.SucceedsExactlyWhen | agent/src/shell.py:460-482 | The result is a success if and only if some run within the bound succeeds and every run before it failed in a retryable way. |
| Backoff.FailsExactlyWhen | agent/src/shell.py:496-507 | The result is a failure if and only if some run fails in a way not worth a retry after retryable ones only, or all runs within the bound are retryable failures; and which run is the last. |
| Backoff.TotalDelay | agent/src/shell.py:505-512 | n retries wait base * (2^n - 1) in all. |
| ComputeTypes.ConditionIsMembership | cdk/scripts/generate-bootstrap-template.ts:85-107 | For every list over the three backends, the join-then-split condition is membership of the needle. |
| ComputeTypes.OccursIffMember | cdk/scripts/generate-bootstrap-template.ts:87-106 | A backend name occurs in the separator-less join if and only if it is a member: none arises across a word boundary. |
| ComputeTypes.SplitFinds | cdk/scripts/generate-bootstrap-template.ts:95-106 | The first part differs from the whole if and only if the separator occurs. |
| ComputeTypes.PrefixIsNotMembership | cdk/scripts/generate-bootstrap-template.ts:109-113 | A prefix as needle would fire for a list that does not contain it. |

## Left out

- Cedar parsing and evaluation, SHA-256, fnmatch, and every regular expression (failure detection,
  fingerprints, signatures, egress and self-reclone detection): parameters or inputs.
- Clock rounding and sleeps that end early: the poll assumes a sleep lasts at least as long as asked.
- Events, milestones, logs, previews, and the texts of reasons and steers; the numbers and names
  that go into them are modelled where a decision depends on them.
- A container that keeps running after its replacement has started: a restart ends every gate of
  the old one.
- A restart that reads a stale or missing persisted counter: the new container is seeded from the
  stored value.
- Task states other than HYDRATING, RUNNING, AWAITING_APPROVAL and the terminal ones (of which
  TIMED_OUT is called EXPIRED here, as rows have a TIMED_OUT of their own).
- The rate limits, ownership checks and HTTP replies of the approve and deny handlers.
- Threads inside one stop-hook call or one breaker method: hooks run one after the other, and the
  breaker's lock makes its methods atomic.
- The text of the steer in front of a turn's reason; it comes from command previews and is not
  parsed back.
- `recent_failure_summary`, prompt building, telemetry, output scanning, sanitization, and the
  final verdict of the pipeline.
- GateCadence.CacheIsHistory: assumes that a task runs its gates one after the other, as the
  agent's hooks do; it covers the input-hash table only, because one gate may record any number of
  rule ids in the other.
- EngineRun.RefusalSticks: speaks of the input-hash table only, and of gates run one after the other,
  for the same reasons.
- EngineRun.RefusedRuleIsNotAskedAgain: stops at the next gate that is settled and at 50 rules, because
  later refusals may push the rules out of their table of 50.
- BetweenTurns.InjectedAtMostOnce: holds within one process, as the memory of injected nudges is
  lost with it; `ReinjectedOnlyIfMarkMissed` says what holds across processes.
- NudgeReader.PagesDoNotMatter: attributes are strings; other DynamoDB types are not modelled.
- StuckGuard.DominantWindowFailure: the choice among maximal keys is left open, as it cannot matter.
