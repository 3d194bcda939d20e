// How fast gates may be opened, and what that implies for the decision cache.
//
// The engine keeps the timestamps of recent gates in a deque pruned from the front, and refuses a
// gate when 20 of them lie in the last 60 seconds (agent/src/policy.py, agent/src/hooks.py). A
// task runs its gates one at a time; each leaves at most one entry in the 50-entry cache.
module GateCadence {
  import opened Wrappers
  import opened DecisionCache

  const APPROVAL_RATE_LIMIT: nat := 20
  const APPROVAL_RATE_WINDOW_S: real := 60.0
  const LIMITS := Limits(CACHE_MAX_ENTRIES, CACHE_TTL_S)

  // ---------------------------------------------------------------- the sliding window

  function Prune(window: seq<real>, now: real): seq<real> {
    if window != [] && window[0] < now - APPROVAL_RATE_WINDOW_S then Prune(window[1..], now) else window
  }

  // The declarative reading: every timestamp of the whole history that is not too old.
  function Recent(stamps: seq<real>, now: real): seq<real> {
    if stamps == [] then []
    else if stamps[0] < now - APPROVAL_RATE_WINDOW_S then Recent(stamps[1..], now)
    else [stamps[0]] + Recent(stamps[1..], now)
  }

  ghost predicate Ascending(stamps: seq<real>) {
    forall i, j :: 0 <= i < j < |stamps| ==> stamps[i] <= stamps[j]
  }

  lemma {:induction false} PruneIsFilter(stamps: seq<real>, now: real)
    requires Ascending(stamps)
    ensures Prune(stamps, now) == Recent(stamps, now)
  {
    if stamps != [] {
      if stamps[0] < now - APPROVAL_RATE_WINDOW_S {
        PruneIsFilter(stamps[1..], now);
      } else {
        AllRecent(stamps, now);
      }
    }
  }

  lemma {:induction false} AllRecent(stamps: seq<real>, now: real)
    requires forall i :: 0 <= i < |stamps| ==> stamps[i] >= now - APPROVAL_RATE_WINDOW_S
    ensures Recent(stamps, now) == stamps
  {
    if stamps != [] {
      AllRecent(stamps[1..], now);
    }
  }

  lemma {:induction false} OldPrefixIsDropped(stale: seq<real>, stamps: seq<real>, now: real)
    requires forall i :: 0 <= i < |stale| ==> stale[i] < now - APPROVAL_RATE_WINDOW_S
    ensures Recent(stale + stamps, now) == Recent(stamps, now)
  {
    if stale == [] {
      assert stale + stamps == stamps;
    } else {
      assert (stale + stamps)[1..] == stale[1..] + stamps;
      OldPrefixIsDropped(stale[1..], stamps, now);
    }
  }

  // Pruning removes a prefix, all of it too old, and stops at the first timestamp that is not.
  lemma {:induction false} PruneCuts(window: seq<real>, now: real)
    ensures var k := |window| - |Prune(window, now)|;
            && 0 <= k && Prune(window, now) == window[k..]
            && (forall i :: 0 <= i < k ==> window[i] < now - APPROVAL_RATE_WINDOW_S)
            && (k < |window| ==> window[k] >= now - APPROVAL_RATE_WINDOW_S)
  {
    if window != [] && window[0] < now - APPROVAL_RATE_WINDOW_S {
      PruneCuts(window[1..], now);
    }
  }

  // ---------------------------------------------------------------- gates, one at a time

  // A gate that was let through the rate check, and the cache entry it left, if any.
  datatype Gate = Gate(stamp: real, outcome: Option<Op>)

  // `window` is the engine's deque and After(ops, LIMITS) its cache; the rest is history.
  datatype Cadence = Cadence(clock: real, window: seq<real>, gates: seq<Gate>, busy: bool, ops: seq<Op>)

  datatype Event =
    | Admit(checkedAt: real, stampedAt: real)  // rate check, then the counter bump
    | Check(at: real)                          // rate check of a gate refused for another reason
    | Leave(key: Key, entry: Entry)            // the gate ends DENIED or TIMED_OUT
    | Close(at: real)                          // the gate ends any other way
    | Ask(key: Key, at: real)                  // the engine consults the cache

  function Step(c: Cadence, e: Event): Cadence {
    match e
    case Admit(checkedAt, stampedAt) =>
      if c.busy || !(c.clock <= checkedAt <= stampedAt) then c
      else
        var window := Prune(c.window, checkedAt);
        if |window| >= APPROVAL_RATE_LIMIT then c.(clock := checkedAt, window := window)
        else c.(clock := stampedAt, window := Prune(window + [stampedAt], stampedAt),
                gates := c.gates + [Gate(stampedAt, None)], busy := true)
    case Check(at) =>
      if at < c.clock then c else c.(clock := at, window := Prune(c.window, at))
    case Leave(key, entry) =>
      if !c.busy || c.gates == [] || entry.insertedAt < c.clock then c
      else
        var op := Record(key, entry);
        c.(clock := entry.insertedAt, ops := c.ops + [op], busy := false,
           gates := c.gates[..|c.gates| - 1] + [c.gates[|c.gates| - 1].(outcome := Some(op))])
    case Close(at) =>
      if at < c.clock then c else c.(clock := at, busy := false)
    case Ask(key, at) =>
      if at < c.clock then c else c.(clock := at, ops := c.ops + [Lookup(key, at)])
  }

  function Run(start: real, events: seq<Event>): Cadence {
    if events == [] then Cadence(start, [], [], false, [])
    else Step(Run(start, events[..|events| - 1]), events[|events| - 1])
  }

  function Time(op: Op): real {
    if op.Record? then op.entry.insertedAt else op.now
  }

  // The unbounded reading of the cache: the last entry any gate left for the key, if it is live.
  function LatestOutcome(gates: seq<Gate>, key: Key): Option<Entry> {
    if gates == [] then None
    else
      var g := gates[|gates| - 1];
      if g.outcome.Some? && g.outcome.value.Record? && g.outcome.value.key == key then Some(g.outcome.value.entry)
      else LatestOutcome(gates[..|gates| - 1], key)
  }

  function HistoryLookup(gates: seq<Gate>, key: Key, now: real): Option<Entry> {
    match LatestOutcome(gates, key)
    case Some(entry) => if now - entry.insertedAt <= CACHE_TTL_S then Some(entry) else None
    case None => None
  }

  // ---------------------------------------------------------------- invariants

  function Stamps(gates: seq<Gate>): seq<real> {
    seq(|gates|, i requires 0 <= i < |gates| => gates[i].stamp)
  }

  // Gates do not overlap: each leaves its entry before the next one is stamped.
  ghost predicate Serial(c: Cadence) {
    && (forall i :: 0 <= i < |c.gates| ==> c.gates[i].stamp <= c.clock)
    && (forall i, j :: 0 <= i < j < |c.gates| ==> c.gates[i].stamp <= c.gates[j].stamp)
    && (forall i :: 0 <= i < |c.gates| && c.gates[i].outcome.Some? ==>
          c.gates[i].outcome.value.Record? && c.gates[i].stamp <= Time(c.gates[i].outcome.value) <= c.clock)
    && (forall i, j :: 0 <= i < j < |c.gates| && c.gates[i].outcome.Some? ==>
          Time(c.gates[i].outcome.value) <= c.gates[j].stamp)
    && (c.busy && c.gates != [] ==> c.gates[|c.gates| - 1].outcome.None?)
  }

  // The deque is what is left of the whole history after dropping a prefix that is too old.
  ghost predicate WindowIsSuffix(c: Cadence) {
    && |c.window| <= |c.gates|
    && c.window == Stamps(c.gates)[|c.gates| - |c.window|..]
    && forall i :: 0 <= i < |c.gates| - |c.window| ==> c.gates[i].stamp < c.clock - APPROVAL_RATE_WINDOW_S
  }

  // Any 21 gates in a row span more than the window: no closed 60 s interval holds 21 of them.
  ghost predicate Spaced(gates: seq<Gate>) {
    forall i, j :: 0 <= i && j == i + APPROVAL_RATE_LIMIT && j < |gates| ==>
      gates[j].stamp - gates[i].stamp > APPROVAL_RATE_WINDOW_S
  }

  ghost predicate OpsInTime(ops: seq<Op>, clock: real) {
    && (forall i :: 0 <= i < |ops| ==> Time(ops[i]) <= clock)
    && forall i, j :: 0 <= i < j < |ops| ==> Time(ops[i]) <= Time(ops[j])
  }

  ghost predicate OpsAreOutcomes(c: Cadence) {
    && OpsInTime(c.ops, c.clock)
    && forall k :: LatestRecord(c.ops, k) == LatestOutcome(c.gates, k)
  }

  // No live entry has been evicted.
  ghost predicate KeepsLive(c: Cadence) {
    forall k :: LatestRecord(c.ops, k).Some? && c.clock - LatestRecord(c.ops, k).value.insertedAt <= CACHE_TTL_S ==>
      k in After(c.ops, LIMITS).entries
  }

  ghost predicate Inv(c: Cadence) {
    Serial(c) && WindowIsSuffix(c) && Spaced(c.gates) && OpsAreOutcomes(c) && KeepsLive(c)
  }

  // ---------------------------------------------------------------- the rate bound

  lemma {:induction false} LeaveKeepsSerial(c: Cadence, key: Key, entry: Entry)
    requires Serial(c)
    ensures Serial(Step(c, Leave(key, entry)))
  {
    var t := Step(c, Leave(key, entry));
    assert forall i :: 0 <= i < |c.gates| - 1 ==> t.gates[i] == c.gates[i];
    assert |t.gates| == |c.gates| && forall i :: 0 <= i < |c.gates| ==> t.gates[i].stamp == c.gates[i].stamp;
  }

  lemma {:induction false} AdmitKeepsSerial(c: Cadence, checkedAt: real, stampedAt: real)
    requires Serial(c)
    ensures Serial(Step(c, Admit(checkedAt, stampedAt)))
  {
    var t := Step(c, Admit(checkedAt, stampedAt));
    assert forall i :: 0 <= i < |c.gates| ==> t.gates[i] == c.gates[i];
  }

  lemma {:induction false} StepKeepsSerial(c: Cadence, e: Event)
    requires Serial(c)
    ensures Serial(Step(c, e))
  {
    hide Prune;
    match e {
      case Leave(key, entry) => LeaveKeepsSerial(c, key, entry);
      case Admit(checkedAt, stampedAt) => AdmitKeepsSerial(c, checkedAt, stampedAt);
      case Check(_) =>
      case Close(_) =>
      case Ask(_, _) =>
    }
  }

  lemma {:induction false} PruneKeepsWindow(c: Cadence, now: real)
    requires WindowIsSuffix(c) && c.clock <= now
    ensures WindowIsSuffix(c.(clock := now, window := Prune(c.window, now)))
    ensures forall i :: 0 <= i < |c.gates| - |Prune(c.window, now)| ==> c.gates[i].stamp < now - APPROVAL_RATE_WINDOW_S
  {
    PruneCuts(c.window, now);
    var n, w, m := |c.gates|, |c.window|, |Prune(c.window, now)|;
    forall i | 0 <= i < n - m ensures c.gates[i].stamp < now - APPROVAL_RATE_WINDOW_S {
      if i >= n - w {
        assert c.window[i - (n - w)] == c.gates[i].stamp;
      }
    }
  }

  // The rate check itself: fewer than 20 stamps left means the 20th last one is out of the window.
  lemma {:induction false} AdmitKeepsSpaced(c: Cadence, checkedAt: real, stampedAt: real)
    requires WindowIsSuffix(c) && Spaced(c.gates) && c.clock <= checkedAt <= stampedAt
    requires |Prune(c.window, checkedAt)| < APPROVAL_RATE_LIMIT
    ensures Spaced(c.gates + [Gate(stampedAt, None)])
  {
    PruneKeepsWindow(c, checkedAt);
  }

  lemma {:induction false} AppendKeepsWindow(c: Cadence, stamp: real)
    requires WindowIsSuffix(c)
    ensures WindowIsSuffix(c.(gates := c.gates + [Gate(stamp, None)], window := c.window + [stamp]))
  {
    assert Stamps(c.gates + [Gate(stamp, None)]) == Stamps(c.gates) + [stamp];
  }

  lemma {:induction false} LaterKeepsWindow(c: Cadence, t: Cadence)
    requires WindowIsSuffix(c) && t.window == c.window && |t.gates| == |c.gates| && t.clock >= c.clock
    requires forall i :: 0 <= i < |c.gates| ==> t.gates[i].stamp == c.gates[i].stamp
    ensures WindowIsSuffix(t)
  {
    assert Stamps(t.gates) == Stamps(c.gates);
  }

  lemma {:induction false} AdmitKeepsWindow(c: Cadence, checkedAt: real, stampedAt: real)
    requires WindowIsSuffix(c) && Spaced(c.gates)
    ensures WindowIsSuffix(Step(c, Admit(checkedAt, stampedAt))) && Spaced(Step(c, Admit(checkedAt, stampedAt)).gates)
  {
    if !c.busy && c.clock <= checkedAt <= stampedAt {
      PruneKeepsWindow(c, checkedAt);
      var d := c.(clock := checkedAt, window := Prune(c.window, checkedAt));
      if |d.window| < APPROVAL_RATE_LIMIT {
        AdmitKeepsSpaced(c, checkedAt, stampedAt);
        AppendKeepsWindow(d, stampedAt);
        PruneKeepsWindow(d.(gates := d.gates + [Gate(stampedAt, None)], window := d.window + [stampedAt]), stampedAt);
        LaterKeepsWindow(d.(clock := stampedAt, gates := d.gates + [Gate(stampedAt, None)],
                            window := Prune(d.window + [stampedAt], stampedAt)),
                         Step(c, Admit(checkedAt, stampedAt)));
      }
    }
  }

  lemma {:induction false} StepKeepsWindow(c: Cadence, e: Event)
    requires WindowIsSuffix(c) && Spaced(c.gates)
    ensures WindowIsSuffix(Step(c, e)) && Spaced(Step(c, e).gates)
  {
    if e.Admit? {
      AdmitKeepsWindow(c, e.checkedAt, e.stampedAt);
    } else if e.Check? {
      if c.clock <= e.at { PruneKeepsWindow(c, e.at); }
    } else {
      LaterKeepsWindow(c, Step(c, e));
    }
  }

  // ---------------------------------------------------------------- the cache keeps every live entry

  // An entry that an operation did not write was there before, and only a hit on it touched it.
  lemma {:induction false} EntryCarriesOver(ops: seq<Op>, op: Op, key: Key)
    requires key in After(ops + [op], LIMITS).entries && !(op.Record? && op.key == key)
    ensures key in After(ops, LIMITS).entries
    ensures After(ops, LIMITS).entries[key] == After(ops + [op], LIMITS).entries[key]
    ensures LastTouch(ops + [op], key, LIMITS) == if op.key == key then |ops| else LastTouch(ops, key, LIMITS)
    ensures op.key == key ==> Time(op) - After(ops, LIMITS).entries[key].insertedAt <= CACHE_TTL_S
  {
    assert (ops + [op])[..|ops|] == ops;
  }

  lemma {:induction false} FreshEntry(ops: seq<Op>, op: Op)
    requires op.Record?
    ensures LatestRecord(ops + [op], op.key) == Some(op.entry) && LastTouch(ops + [op], op.key, LIMITS) == |ops|
  {
  }

  // A key's last touch is at most one TTL younger than the entry the cache holds for it.
  lemma {:induction false} TouchIsNearRecord(ops: seq<Op>, key: Key, clock: real)
    requires OpsInTime(ops, clock) && key in After(ops, LIMITS).entries
    ensures var i := LastTouch(ops, key, LIMITS);
            i >= 0 && 0.0 <= Time(ops[i]) - After(ops, LIMITS).entries[key].insertedAt <= CACHE_TTL_S
  {
    var before, op := ops[..|ops| - 1], ops[|ops| - 1];
    assert before + [op] == ops;
    if op.Record? && op.key == key {
      FreshEntry(before, op);
      CacheTracks(ops, LIMITS);
    } else {
      EntryCarriesOver(before, op, key);
      TouchIsNearRecord(before, key, clock);
    }
  }

  // If a record pushed out a live entry, all 51 keys then in the table were recorded in the last 120 s.
  lemma {:induction false} EvictionSpan(ops: seq<Op>, op: Op, key: Key)
    requires op.Record? && OpsInTime(ops + [op], Time(op))
    requires key in After(ops, LIMITS).entries && key !in After(ops + [op], LIMITS).entries
    requires Time(op) - After(ops, LIMITS).entries[key].insertedAt <= CACHE_TTL_S
    ensures |After(ops, LIMITS).order| == CACHE_MAX_ENTRIES && op.key !in After(ops, LIMITS).entries
    ensures forall k :: k in After(ops, LIMITS).entries ==>
              Time(op) - After(ops, LIMITS).entries[k].insertedAt <= 2.0 * CACHE_TTL_S
  {
    hide Apply, LastTouch, LatestRecord;
    var c, all := After(ops, LIMITS), ops + [op];
    assert all[..|ops|] == ops;
    assert forall i :: 0 <= i < |ops| ==> all[i] == ops[i];
    CacheTracks(ops, LIMITS);
    VictimHeads(c, op, key);
    OthersAreYounger(ops, key, Time(op));
  }

  // Such a record finds the table full, its own key not in it, and the victim at the head.
  lemma {:induction false} VictimHeads(c: Lru, op: Op, key: Key)
    requires op.Record? && WellFormed(c) && |c.order| <= CACHE_MAX_ENTRIES
    requires key in c.entries && key !in Apply(c, op, LIMITS).entries
    ensures |c.order| == CACHE_MAX_ENTRIES && op.key !in c.entries && c.order[0] == key
  {
    hide Apply;
    VictimIsOldest(c, op, key, LIMITS);
    WithoutKeeps(c.order, op.key);
  }

  // If the least recently touched entry is live, no entry is older than two TTLs.
  lemma {:induction false} OthersAreYounger(ops: seq<Op>, key: Key, clock: real)
    requires OpsInTime(ops, clock) && key in After(ops, LIMITS).entries && Tracks(After(ops, LIMITS), ops, LIMITS)
    requires After(ops, LIMITS).order != [] && After(ops, LIMITS).order[0] == key
    requires clock - After(ops, LIMITS).entries[key].insertedAt <= CACHE_TTL_S
    ensures forall k :: k in After(ops, LIMITS).entries ==>
              clock - After(ops, LIMITS).entries[k].insertedAt <= 2.0 * CACHE_TTL_S
  {
    hide After, LastTouch, LatestRecord;
    var c := After(ops, LIMITS);
    TouchIsNearRecord(ops, key, clock);
    forall k | k in c.entries ensures clock - c.entries[k].insertedAt <= 2.0 * CACHE_TTL_S {
      TouchIsNearRecord(ops, k, clock);
      assert k in c.order;
    }
  }

  predicate LeftEntrySince(g: Gate, since: real) {
    g.outcome.Some? && g.outcome.value.Record? && Time(g.outcome.value) >= since
  }

  lemma {:induction false} SingleSpan(gates: seq<Gate>, i: nat)
    requires Spaced(gates) && i + APPROVAL_RATE_LIMIT < |gates|
    ensures gates[i + APPROVAL_RATE_LIMIT].stamp - gates[i].stamp > APPROVAL_RATE_WINDOW_S
  {
  }

  lemma {:induction false} DoubleSpan(gates: seq<Gate>, i: nat)
    requires Spaced(gates) && i + 2 * APPROVAL_RATE_LIMIT < |gates|
    ensures gates[i + 2 * APPROVAL_RATE_LIMIT].stamp - gates[i].stamp > 2.0 * APPROVAL_RATE_WINDOW_S
  {
    assert gates[i + APPROVAL_RATE_LIMIT].stamp - gates[i].stamp > APPROVAL_RATE_WINDOW_S;
  }

  // In any 120 s at most 41 gates leave an entry: 40 stamped inside, one that was already open.
  lemma {:induction false} FewGatesLeaveEntries(c: Cadence, first: nat, since: real)
    requires Serial(c) && Spaced(c.gates) && since >= c.clock - 2.0 * APPROVAL_RATE_WINDOW_S
    requires first < |c.gates| && LeftEntrySince(c.gates[first], since)
    ensures |c.gates| - first <= 2 * APPROVAL_RATE_LIMIT + 1
  {
    if first + 1 < |c.gates| {
      assert c.gates[first + 1].stamp >= since;
      if first + 1 + 2 * APPROVAL_RATE_LIMIT < |c.gates| {
        DoubleSpan(c.gates, first + 1);
      }
    }
  }

  lemma {:induction false} FewKeys(gates: seq<Gate>, keys: set<Key>)
    requires forall k :: k in keys ==> exists g :: g in gates && g.outcome.Some? && g.outcome.value.key == k
    ensures |keys| <= |gates|
  {
    if gates == [] {
      assert keys == {};
    } else {
      var g := gates[0];
      var rest := if g.outcome.Some? then keys - {g.outcome.value.key} else keys;
      FewKeys(gates[1..], rest);
    }
  }

  lemma {:induction false} LatestOutcomeIsThere(gates: seq<Gate>, key: Key)
    requires LatestOutcome(gates, key).Some?
    ensures exists i :: 0 <= i < |gates| && gates[i].outcome == Some(Record(key, LatestOutcome(gates, key).value))
  {
    var n := |gates| - 1;
    if gates[n].outcome.Some? && gates[n].outcome.value.Record? && gates[n].outcome.value.key == key {
    } else {
      LatestOutcomeIsThere(gates[..n], key);
    }
  }

  // No more than 41 different keys were left in the last 120 s.
  lemma {:induction false} FewKeysSince(c: Cadence, keys: set<Key>, since: real)
    requires Serial(c) && Spaced(c.gates) && since >= c.clock - 2.0 * APPROVAL_RATE_WINDOW_S
    requires forall k :: k in keys ==>
               LatestOutcome(c.gates, k).Some? && LatestOutcome(c.gates, k).value.insertedAt >= since
    ensures |keys| <= 2 * APPROVAL_RATE_LIMIT + 1
  {
    hide LatestOutcome, Serial, Spaced;
    if first: nat :| first < |c.gates| && LeftEntrySince(c.gates[first], since) &&
                     forall i :: 0 <= i < first ==> !LeftEntrySince(c.gates[i], since) {
      FewGatesLeaveEntries(c, first, since);
      forall k | k in keys
        ensures exists g :: g in c.gates[first..] && g.outcome.Some? && g.outcome.value.key == k
      {
        LatestOutcomeIsThere(c.gates, k);
        var i :| 0 <= i < |c.gates| && c.gates[i].outcome == Some(Record(k, LatestOutcome(c.gates, k).value));
        assert LeftEntrySince(c.gates[i], since);
        assert c.gates[first..][i - first] == c.gates[i];
      }
      FewKeys(c.gates[first..], keys);
    } else {
      NoneSince(c.gates, since);
      if k :| k in keys {
        LatestOutcomeIsThere(c.gates, k);
        assert false;
      }
    }
  }

  lemma {:induction false} NoneSince(gates: seq<Gate>, since: real)
    requires !exists first: nat :: && first < |gates| && LeftEntrySince(gates[first], since)
                                   && forall i :: 0 <= i < first ==> !LeftEntrySince(gates[i], since)
    ensures forall i :: 0 <= i < |gates| ==> !LeftEntrySince(gates[i], since)
  {
    if i: nat :| i < |gates| && LeftEntrySince(gates[i], since) {
      var first := FirstSince(gates, since, i);
    }
  }

  lemma {:induction false} FirstSince(gates: seq<Gate>, since: real, i: nat) returns (first: nat)
    requires i < |gates| && LeftEntrySince(gates[i], since)
    ensures first <= i && LeftEntrySince(gates[first], since)
    ensures forall j :: 0 <= j < first ==> !LeftEntrySince(gates[j], since)
  {
    if j: nat :| j < i && LeftEntrySince(gates[j], since) {
      first := FirstSince(gates, since, j);
    } else {
      first := i;
    }
  }

  lemma {:induction false} LeaveKeepsOutcomes(c: Cadence, key: Key, entry: Entry)
    requires Serial(c) && OpsAreOutcomes(c)
    ensures OpsAreOutcomes(Step(c, Leave(key, entry)))
  {
    var t := Step(c, Leave(key, entry));
    if t != c {
      var n := |c.gates| - 1;
      assert t.gates[..n] == c.gates[..n] && t.gates[n].outcome == Some(Record(key, entry));
      assert t.ops[..|c.ops|] == c.ops;
      assert c.gates[n].outcome.None?;
    }
  }

  lemma {:induction false} StepKeepsOutcomes(c: Cadence, e: Event)
    requires Serial(c) && OpsAreOutcomes(c)
    ensures OpsAreOutcomes(Step(c, e))
  {
    hide Prune, Serial, LatestOutcome, LatestRecord;
    match e {
      case Leave(key, entry) => LeaveKeepsOutcomes(c, key, entry);
      case Admit(_, stampedAt) => OpenGateLeavesNothing(c.gates, stampedAt);
      case Ask(key, at) => AskRecordsNothing(c.ops, key, at);
      case Check(_) =>
      case Close(_) =>
    }
  }

  lemma {:induction false} OpenGateLeavesNothing(gates: seq<Gate>, stamp: real)
    ensures forall k :: LatestOutcome(gates + [Gate(stamp, None)], k) == LatestOutcome(gates, k)
  {
    assert (gates + [Gate(stamp, None)])[..|gates|] == gates;
  }

  lemma {:induction false} AskRecordsNothing(ops: seq<Op>, key: Key, at: real)
    ensures forall k :: LatestRecord(ops + [Lookup(key, at)], k) == LatestRecord(ops, k)
  {
    assert (ops + [Lookup(key, at)])[..|ops|] == ops;
  }

  // Pushing out a live entry would take 51 keys recorded within 120 s; there are at most 41.
  lemma {:induction false} NoLiveEviction(c: Cadence, t: Cadence, op: Op, key: Key)
    requires Serial(t) && Spaced(t.gates) && OpsAreOutcomes(t) && t.ops == c.ops + [op] && t.clock == Time(op)
    requires op.Record? && key in After(c.ops, LIMITS).entries
    requires Time(op) - After(c.ops, LIMITS).entries[key].insertedAt <= CACHE_TTL_S
    ensures key in After(t.ops, LIMITS).entries
  {
    if key !in After(t.ops, LIMITS).entries {
      var entries := After(c.ops, LIMITS).entries;
      EvictionSpan(c.ops, op, key);
      CacheTracks(c.ops, LIMITS);
      DistinctCount(After(c.ops, LIMITS).order);
      assert (set k | k in After(c.ops, LIMITS).order) == entries.Keys;
      assert t.ops[..|c.ops|] == c.ops;
      forall k | k in entries.Keys + {op.key}
        ensures LatestOutcome(t.gates, k).Some?
        ensures LatestOutcome(t.gates, k).value.insertedAt >= t.clock - 2.0 * APPROVAL_RATE_WINDOW_S
      {
        assert LatestOutcome(t.gates, k) == LatestRecord(t.ops, k);
        assert k != op.key ==> LatestRecord(t.ops, k) == Some(entries[k]);
      }
      FewKeysSince(t, entries.Keys + {op.key}, t.clock - 2.0 * APPROVAL_RATE_WINDOW_S);
    }
  }

  lemma {:induction false} StepKeepsLive(c: Cadence, e: Event)
    requires KeepsLive(c)
    requires Serial(Step(c, e)) && Spaced(Step(c, e).gates) && OpsAreOutcomes(Step(c, e))
    ensures KeepsLive(Step(c, e))
  {
    var t := Step(c, e);
    forall k | LatestRecord(t.ops, k).Some? && t.clock - LatestRecord(t.ops, k).value.insertedAt <= CACHE_TTL_S
      ensures k in After(t.ops, LIMITS).entries
    {
      if t.ops != c.ops {
        var op := t.ops[|c.ops|];
        assert t.ops == c.ops + [op] && t.ops[..|c.ops|] == c.ops;
        LiveKeyStays(c, t, op, k);
      }
    }
  }

  lemma {:induction false} LiveKeyStays(c: Cadence, t: Cadence, op: Op, k: Key)
    requires Serial(t) && Spaced(t.gates) && OpsAreOutcomes(t) && KeepsLive(c)
    requires t.ops == c.ops + [op] && t.clock == Time(op) >= c.clock
    requires LatestRecord(t.ops, k).Some? && t.clock - LatestRecord(t.ops, k).value.insertedAt <= CACHE_TTL_S
    ensures k in After(t.ops, LIMITS).entries
  {
    assert t.ops[..|c.ops|] == c.ops;
    if op.Record? && op.key == k {
      FreshRecordStays(c.ops, op, LIMITS);
    } else {
      assert LatestRecord(t.ops, k) == LatestRecord(c.ops, k);
      CacheTracks(c.ops, LIMITS);
      if op.Record? {
        NoLiveEviction(c, t, op, k);
      }
    }
  }

  lemma {:induction false} StepKeepsInv(c: Cadence, e: Event)
    requires Inv(c)
    ensures Inv(Step(c, e))
  {
    StepKeepsSerial(c, e);
    StepKeepsWindow(c, e);
    StepKeepsOutcomes(c, e);
    StepKeepsLive(c, e);
  }

  lemma {:induction false} RunKeepsInv(start: real, events: seq<Event>)
    ensures Inv(Run(start, events))
  {
    if events == [] {
      assert After([], LIMITS) == EMPTY;
    } else {
      RunKeepsInv(start, events[..|events| - 1]);
      StepKeepsInv(Run(start, events[..|events| - 1]), events[|events| - 1]);
    }
  }

  // ---------------------------------------------------------------- main results

  lemma {:induction false} InvMakesHistory(c: Cadence, key: Key, now: real)
    requires Inv(c) && now >= c.clock
    ensures Get(After(c.ops, LIMITS), key, now, CACHE_TTL_S).1 == HistoryLookup(c.gates, key, now)
  {
    CacheTracks(c.ops, LIMITS);
  }

  // Twenty timestamps are left after pruning exactly when the twentieth last gate of the whole
  // history is at most 60 s old.
  lemma {:induction false} TwentyLeft(c: Cadence, now: real)
    requires Serial(c) && WindowIsSuffix(c) && now >= c.clock
    ensures |Prune(c.window, now)| >= 20 <==> |c.gates| >= 20 && now - Stamps(c.gates)[|c.gates| - 20] <= 60.0
  {
    hide Prune, WindowIsSuffix;
    FirstKept(c, now);
    var n, m := |c.gates|, |Prune(c.window, now)|;
    assert m >= 20 ==> c.gates[n - m].stamp <= c.gates[n - 20].stamp;
  }

  // Pruning keeps the last gates of the history, from the first that is at most 60 s old.
  lemma {:induction false} FirstKept(c: Cadence, now: real)
    requires WindowIsSuffix(c) && now >= c.clock
    ensures var n, m := |c.gates|, |Prune(c.window, now)|;
            && m <= n && (forall i :: 0 <= i < n - m ==> now - c.gates[i].stamp > 60.0)
            && (m > 0 ==> now - c.gates[n - m].stamp <= 60.0)
  {
    hide Prune;
    PruneKeepsWindow(c, now);
    PruneCuts(c.window, now);
    var n, w, m := |c.gates|, |c.window|, |Prune(c.window, now)|;
    if m > 0 {
      assert c.window[w - m] == Stamps(c.gates)[n - m];
    }
  }

  // Whatever the gates, their outcomes and the timing, the bounded cache answers every question
  // as the unbounded history does: the 50-entry limit never shows.
  lemma {:induction false} CacheIsHistory(start: real, events: seq<Event>, key: Key, now: real)
    requires now >= Run(start, events).clock
    ensures var c := Run(start, events);
            Get(After(c.ops, LIMITS), key, now, CACHE_TTL_S).1 == HistoryLookup(c.gates, key, now)
  {
    RunKeepsInv(start, events);
    InvMakesHistory(Run(start, events), key, now);
  }

  // In every run, no closed interval of 60 s holds more than 20 gates.
  lemma {:induction false} AtMostTwentyPerWindow(start: real, events: seq<Event>, from: real, i: nat, j: nat)
    requires i <= j < |Run(start, events).gates|
    requires from <= Run(start, events).gates[i].stamp
    requires Run(start, events).gates[j].stamp <= from + APPROVAL_RATE_WINDOW_S
    ensures j - i < APPROVAL_RATE_LIMIT
  {
    RunKeepsInv(start, events);
    if i + APPROVAL_RATE_LIMIT < |Run(start, events).gates| {
      SingleSpan(Run(start, events).gates, i);
    }
  }

  // Pruning the deque from the front gives what filtering every timestamp of the run would.
  lemma {:induction false} DequeIsFilteredHistory(start: real, events: seq<Event>, now: real)
    requires now >= Run(start, events).clock
    ensures Prune(Run(start, events).window, now) == Recent(Stamps(Run(start, events).gates), now)
  {
    RunKeepsInv(start, events);
    var c := Run(start, events);
    SuffixPrunes(Stamps(c.gates), |c.gates| - |c.window|, now);
  }

  lemma {:induction false} SuffixPrunes(stamps: seq<real>, d: nat, now: real)
    requires Ascending(stamps) && d <= |stamps|
    requires forall i :: 0 <= i < d ==> stamps[i] < now - APPROVAL_RATE_WINDOW_S
    ensures Prune(stamps[d..], now) == Recent(stamps, now)
  {
    var gone, kept := stamps[..d], stamps[d..];
    PruneIsFilter(kept, now);
    OldPrefixIsDropped(gone, kept, now);
    assert stamps == gone + kept;
  }
}
