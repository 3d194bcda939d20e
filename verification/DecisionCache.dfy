// The recent-decision cache of agent/src/policy.py: a bounded least-recently-used table of DENIED
// and TIMED_OUT outcomes whose entries go stale after a fixed time.
module DecisionCache {
  import opened Wrappers

  const CACHE_MAX_ENTRIES: nat := 50
  const CACHE_TTL_S: real := 60.0

  datatype Decision = APPROVED | DENIED | TIMED_OUT

  datatype Entry = Entry(decision: Decision, reason: Option<string>, insertedAt: real, originalDecisionTs: string)

  // (tool name, input hash) or (tool name, rule id)
  type Key = (string, string)

  // Python's OrderedDict: `order` runs from the least to the most recently touched key.
  datatype Lru = Lru(order: seq<Key>, entries: map<Key, Entry>)

  datatype Limits = Limits(maxEntries: nat, ttl: real)

  const EMPTY := Lru([], map[])

  ghost predicate Distinct<T>(s: seq<T>) {
    forall i, j :: 0 <= i < j < |s| ==> s[i] != s[j]
  }

  ghost predicate WellFormed(c: Lru) {
    Distinct(c.order) && forall k :: k in c.order <==> k in c.entries
  }

  // ---------------------------------------------------------------- one operation

  function IndexOf(order: seq<Key>, key: Key): (i: nat)
    requires key in order
    ensures i < |order| && order[i] == key
  {
    if order[0] == key then 0 else 1 + IndexOf(order[1..], key)
  }

  function Without(order: seq<Key>, key: Key): seq<Key> {
    if key in order then var i := IndexOf(order, key); order[..i] + order[i + 1..] else order
  }

  function Touch(c: Lru, key: Key): Lru {
    c.(order := Without(c.order, key) + [key])
  }

  function Evict(c: Lru): Lru
    requires c.order != []
  {
    Lru(c.order[1..], c.entries - {c.order[0]})
  }

  function Put(c: Lru, key: Key, entry: Entry, max: nat): Lru {
    var full := Touch(c.(entries := c.entries[key := entry]), key);
    if |full.order| > max then Evict(full) else full
  }

  predicate Live(c: Lru, key: Key, now: real, ttl: real) {
    key in c.entries && now - c.entries[key].insertedAt <= ttl
  }

  function Get(c: Lru, key: Key, now: real, ttl: real): (Lru, Option<Entry>) {
    if key !in c.entries then (c, None)
    else if Live(c, key, now, ttl) then (Touch(c, key), Some(c.entries[key]))
    else (Lru(Without(c.order, key), c.entries - {key}), None)
  }

  // get_rule_decision: the rules are tried in order, stale ones met on the way are dropped.
  function GetRules(c: Lru, tool: string, rules: seq<string>, now: real, ttl: real)
    : (Lru, Option<(string, Entry)>)
    decreases |rules|
  {
    if rules == [] then (c, None)
    else match Get(c, (tool, rules[0]), now, ttl)
      case (next, Some(entry)) => (next, Some((rules[0], entry)))
      case (next, None) => GetRules(next, tool, rules[1..], now, ttl)
  }

  lemma {:induction false} WithoutKeeps(order: seq<Key>, key: Key)
    requires Distinct(order)
    ensures Distinct(Without(order, key)) && key !in Without(order, key)
    ensures forall k :: k in order && k != key ==> k in Without(order, key)
    ensures forall k :: k in Without(order, key) ==> k in order
    ensures |Without(order, key)| == if key in order then |order| - 1 else |order|
  {
    if key in order {
      var i := IndexOf(order, key);
      assert forall k :: k in order && k != key ==> k in order[..i] || k in order[i + 1..];
    }
  }

  lemma {:induction false} PutKeeps(c: Lru, key: Key, entry: Entry, max: nat)
    requires WellFormed(c) && |c.order| <= max
    ensures WellFormed(Put(c, key, entry, max)) && |Put(c, key, entry, max).order| <= max
  {
    WithoutKeeps(c.order, key);
    var full := Touch(c.(entries := c.entries[key := entry]), key);
    assert WellFormed(full);
    if |full.order| > max {
      assert forall k :: k in full.order ==> k == full.order[0] || k in full.order[1..];
    }
  }

  lemma {:induction false} GetKeeps(c: Lru, key: Key, now: real, ttl: real)
    requires WellFormed(c)
    ensures WellFormed(Get(c, key, now, ttl).0) && |Get(c, key, now, ttl).0.order| <= |c.order|
  {
    WithoutKeeps(c.order, key);
  }

  // A put stores its entry and changes no other one, except that it may push one out.
  lemma {:induction false} PutStores(c: Lru, key: Key, entry: Entry, max: nat)
    requires WellFormed(c) && |c.order| <= max && max > 0
    ensures key in Put(c, key, entry, max).entries && Put(c, key, entry, max).entries[key] == entry
    ensures forall k :: k in Put(c, key, entry, max).entries && k != key ==>
              k in c.entries && Put(c, key, entry, max).entries[k] == c.entries[k]
  {
    WithoutKeeps(c.order, key);
  }

  // These keys are the ones touched last.
  ghost predicate Newest(order: seq<Key>, keys: set<Key>) {
    && (forall k :: k in keys ==> k in order)
    && forall i, j :: 0 <= i < j < |order| && order[i] in keys ==> order[j] in keys
  }

  // They stay, together with the key put, as long as all of them fit.
  lemma {:induction false} PutNewest(c: Lru, key: Key, entry: Entry, max: nat, keys: set<Key>)
    requires WellFormed(c) && |c.order| <= max && Newest(c.order, keys) && |keys + {key}| <= max
    ensures Newest(Put(c, key, entry, max).order, keys + {key})
  {
    hide Without, Newest;
    var full := Without(c.order, key) + [key];
    TouchedNewest(c.order, key, keys);
    WithoutKeeps(c.order, key);
    if |full| > max {
      TailNewest(full, keys + {key}, max);
    }
  }

  lemma {:induction false} TouchedNewest(order: seq<Key>, key: Key, keys: set<Key>)
    requires Distinct(order) && Newest(order, keys)
    ensures Newest(Without(order, key) + [key], keys + {key})
  {
    hide Without;
    WithoutKeeps(order, key);
    WithoutNewest(order, key, keys);
    var rest := Without(order, key);
    assert forall i :: 0 <= i < |rest| ==> rest[i] in rest;
    assert forall k :: k in keys && k != key ==> k in rest;
  }

  lemma {:induction false} TailNewest(full: seq<Key>, keys: set<Key>, max: nat)
    requires Distinct(full) && Newest(full, keys) && |full| > max >= |keys|
    ensures Newest(full[1..], keys)
  {
    if full[0] in keys {
      forall k | k in full ensures k in keys {
        var i :| 0 <= i < |full| && full[i] == k;
      }
      AllDistinct(full, keys);
    }
    assert forall k :: k in full ==> k == full[0] || k in full[1..];
  }

  lemma {:induction false} WithoutNewest(order: seq<Key>, key: Key, keys: set<Key>)
    requires Distinct(order) && Newest(order, keys)
    ensures var rest := Without(order, key); forall i, j :: 0 <= i < j < |rest| && rest[i] in keys ==> rest[j] in keys
  {
  }

  lemma {:induction false} AllDistinct(s: seq<Key>, keys: set<Key>)
    requires Distinct(s) && forall k :: k in s ==> k in keys
    ensures |s| <= |keys|
  {
    if s != [] {
      assert s[0] in s;
      assert forall k :: k in s[1..] ==> k in s && k != s[0];
      AllDistinct(s[1..], keys - {s[0]});
    }
  }

  // A lookup changes the entries only by dropping a stale one.
  lemma {:induction false} GetDropsStale(c: Lru, key: Key, now: real, ttl: real)
    requires WellFormed(c)
    ensures var next := Get(c, key, now, ttl).0;
            && WellFormed(next) && |next.order| <= |c.order|
            && (forall k :: Live(c, k, now, ttl) <==> Live(next, k, now, ttl))
            && (forall k :: Live(c, k, now, ttl) ==> next.entries[k] == c.entries[k])
  {
    GetKeeps(c, key, now, ttl);
  }

  // Lookups add and change no entry.
  lemma {:induction false} GetRulesAddsNothing(c: Lru, tool: string, rules: seq<string>, now: real, ttl: real)
    ensures var next := GetRules(c, tool, rules, now, ttl).0;
            forall k :: k in next.entries ==> k in c.entries && next.entries[k] == c.entries[k]
    decreases |rules|
  {
    hide Without;
    if rules != [] && Get(c, (tool, rules[0]), now, ttl).1.None? {
      GetRulesAddsNothing(Get(c, (tool, rules[0]), now, ttl).0, tool, rules[1..], now, ttl);
    }
  }

  // `rule` is the first of the rules with a live entry.
  ghost predicate FirstLive(c: Lru, tool: string, rules: seq<string>, i: nat, now: real, ttl: real) {
    && i < |rules| && Live(c, (tool, rules[i]), now, ttl)
    && forall j :: 0 <= j < i ==> !Live(c, (tool, rules[j]), now, ttl)
  }

  // The first rule with a live entry wins, and only stale entries are lost on the way to it.
  lemma {:induction false} FirstLiveRuleWins(c: Lru, tool: string, rules: seq<string>, now: real, ttl: real)
    requires WellFormed(c)
    ensures var (next, hit) := GetRules(c, tool, rules, now, ttl);
            && WellFormed(next) && |next.order| <= |c.order|
            && (forall k :: Live(c, k, now, ttl) <==> Live(next, k, now, ttl))
            && (forall k :: Live(c, k, now, ttl) ==> next.entries[k] == c.entries[k])
            && (hit.None? <==> forall r :: r in rules ==> !Live(c, (tool, r), now, ttl))
            && (hit.Some? ==> exists i: nat ::
                  FirstLive(c, tool, rules, i, now, ttl) && hit.value == (rules[i], c.entries[(tool, rules[i])]))
    decreases |rules|
  {
    hide Without, Touch;
    if rules != [] {
      var (next, first) := Get(c, (tool, rules[0]), now, ttl);
      GetDropsStale(c, (tool, rules[0]), now, ttl);
      if first.None? {
        var rest := rules[1..];
        FirstLiveRuleWins(next, tool, rest, now, ttl);
        var hit := GetRules(next, tool, rest, now, ttl).1;
        if hit.Some? {
          var i: nat :| && FirstLive(next, tool, rest, i, now, ttl)
                        && hit.value == (rest[i], next.entries[(tool, rest[i])]);
          assert forall j :: 0 < j <= i + 1 ==> rules[j] == rest[j - 1];
          assert FirstLive(c, tool, rules, i + 1, now, ttl);
        } else {
          assert forall r :: r in rules ==> r == rules[0] || r in rest;
        }
      } else {
        assert FirstLive(c, tool, rules, 0, now, ttl) && rules[0] in rules;
      }
    }
  }

  // ---------------------------------------------------------------- any sequence of operations

  datatype Op = Record(key: Key, entry: Entry) | Lookup(key: Key, now: real)

  function Apply(c: Lru, op: Op, lim: Limits): Lru {
    match op
    case Record(key, entry) => Put(c, key, entry, lim.maxEntries)
    case Lookup(key, now) => Get(c, key, now, lim.ttl).0
  }

  function After(ops: seq<Op>, lim: Limits): Lru {
    if ops == [] then EMPTY else Apply(After(ops[..|ops| - 1], lim), ops[|ops| - 1], lim)
  }

  predicate IsTouch(c: Lru, op: Op, lim: Limits) {
    op.Record? || Live(c, op.key, op.now, lim.ttl)
  }

  // Position of the last record of, or hit on, a key; -1 if there is none.
  function LastTouch(ops: seq<Op>, key: Key, lim: Limits): (i: int)
    ensures -1 <= i < |ops|
    ensures i >= 0 ==> ops[i].key == key
  {
    if ops == [] then -1
    else
      var op := ops[|ops| - 1];
      if op.key == key && IsTouch(After(ops[..|ops| - 1], lim), op, lim) then |ops| - 1
      else LastTouch(ops[..|ops| - 1], key, lim)
  }

  function LatestRecord(ops: seq<Op>, key: Key): Option<Entry> {
    if ops == [] then None
    else
      var op := ops[|ops| - 1];
      if op.Record? && op.key == key then Some(op.entry) else LatestRecord(ops[..|ops| - 1], key)
  }

  ghost predicate InTouchOrder(order: seq<Key>, ops: seq<Op>, lim: Limits) {
    forall i, j :: 0 <= i < j < |order| ==> LastTouch(ops, order[i], lim) < LastTouch(ops, order[j], lim)
  }

  // The size bound holds, the order is exactly the last-touch order, and every entry is the
  // latest record of its key.
  ghost predicate Tracks(c: Lru, ops: seq<Op>, lim: Limits) {
    && WellFormed(c) && |c.order| <= lim.maxEntries
    && InTouchOrder(c.order, ops, lim)
    && forall k :: k in c.entries ==> LatestRecord(ops, k) == Some(c.entries[k]) && LastTouch(ops, k, lim) >= 0
  }

  lemma {:induction false} WithoutTouchOrder(order: seq<Key>, key: Key, ops: seq<Op>, lim: Limits)
    requires InTouchOrder(order, ops, lim)
    ensures InTouchOrder(Without(order, key), ops, lim)
  {
  }

  lemma {:induction false} TouchTracks(c: Lru, ops: seq<Op>, op: Op, lim: Limits)
    requires Tracks(c, ops, lim) && c == After(ops, lim) && IsTouch(c, op, lim)
    ensures InTouchOrder(Without(c.order, op.key) + [op.key], ops + [op], lim)
  {
    var rest, all := Without(c.order, op.key), ops + [op];
    WithoutKeeps(c.order, op.key);
    WithoutTouchOrder(c.order, op.key, ops, lim);
    assert all[..|ops|] == ops && LastTouch(all, op.key, lim) == |ops|;
    forall i | 0 <= i < |rest| ensures LastTouch(all, rest[i], lim) == LastTouch(ops, rest[i], lim) {
      assert rest[i] in rest;
    }
  }

  lemma {:induction false} RecordTracks(ops: seq<Op>, op: Op, lim: Limits)
    requires op.Record? && Tracks(After(ops, lim), ops, lim)
    ensures Tracks(After(ops + [op], lim), ops + [op], lim)
  {
    var c := After(ops, lim);
    assert (ops + [op])[..|ops|] == ops;
    TouchTracks(c, ops, op, lim);
    PutKeeps(c, op.key, op.entry, lim.maxEntries);
    var next := After(ops + [op], lim);
    forall k | k in next.entries
      ensures LatestRecord(ops + [op], k) == Some(next.entries[k]) && LastTouch(ops + [op], k, lim) >= 0
    {
      assert k != op.key ==> k in c.entries && next.entries[k] == c.entries[k];
    }
  }

  lemma {:induction false} LookupTracks(ops: seq<Op>, op: Op, lim: Limits)
    requires op.Lookup? && Tracks(After(ops, lim), ops, lim)
    ensures Tracks(After(ops + [op], lim), ops + [op], lim)
  {
    hide Without;
    var c := After(ops, lim);
    assert (ops + [op])[..|ops|] == ops;
    GetKeeps(c, op.key, op.now, lim.ttl);
    if IsTouch(c, op, lim) {
      TouchTracks(c, ops, op, lim);
    } else {
      WithoutTouchOrder(c.order, op.key, ops, lim);
      assert forall k :: LastTouch(ops + [op], k, lim) == LastTouch(ops, k, lim);
    }
    assert forall k :: LatestRecord(ops + [op], k) == LatestRecord(ops, k);
  }

  // For any capacity, TTL and sequence of operations.
  lemma {:induction false} CacheTracks(ops: seq<Op>, lim: Limits)
    ensures Tracks(After(ops, lim), ops, lim)
  {
    if ops != [] {
      var before, op := ops[..|ops| - 1], ops[|ops| - 1];
      CacheTracks(before, lim);
      assert before + [op] == ops;
      if op.Record? {
        RecordTracks(before, op, lim);
      } else {
        LookupTracks(before, op, lim);
      }
    }
  }

  // A hit is the latest record of its key, and it is live.
  lemma {:induction false} HitIsLatestRecord(ops: seq<Op>, key: Key, now: real, lim: Limits)
    ensures match Get(After(ops, lim), key, now, lim.ttl).1
            case Some(entry) => LatestRecord(ops, key) == Some(entry) && now - entry.insertedAt <= lim.ttl
            case None => key in After(ops, lim).entries ==> now - After(ops, lim).entries[key].insertedAt > lim.ttl
  {
    CacheTracks(ops, lim);
  }

  // The other keys touched since a key's own last touch.
  ghost function TouchedSince(ops: seq<Op>, key: Key, lim: Limits): set<Key> {
    set i | LastTouch(ops, key, lim) < i < |ops| && IsTouch(After(ops[..i], lim), ops[i], lim) :: ops[i].key
  }

  lemma {:induction false} LastTouchIsTouch(ops: seq<Op>, key: Key, lim: Limits)
    ensures var i := LastTouch(ops, key, lim);
            && (i >= 0 ==> IsTouch(After(ops[..i], lim), ops[i], lim))
            && forall j :: i < j < |ops| && ops[j].key == key ==> !IsTouch(After(ops[..j], lim), ops[j], lim)
  {
    if ops != [] {
      var before := ops[..|ops| - 1];
      LastTouchIsTouch(before, key, lim);
      assert forall j :: 0 <= j <= |before| ==> ops[..j] == before[..j];
    }
  }

  lemma {:induction false} DistinctCount<T>(s: seq<T>)
    requires Distinct(s)
    ensures |set x | x in s| == |s|
  {
    if s != [] {
      DistinctCount(s[1..]);
      assert (set x | x in s) == {s[0]} + set x | x in s[1..];
    }
  }

  // A record evicts a key only when `maxEntries` other keys have been touched since its last touch.
  lemma {:induction false} EvictionNeedsTouches(ops: seq<Op>, op: Op, key: Key, lim: Limits)
    requires op.Record? && key in After(ops, lim).entries && key !in After(ops + [op], lim).entries
    ensures |TouchedSince(ops + [op], key, lim)| >= lim.maxEntries
    ensures key !in TouchedSince(ops + [op], key, lim)
  {
    var c, all := After(ops, lim), ops + [op];
    var order := Without(c.order, op.key) + [op.key];
    CacheTracks(ops, lim);
    TouchTracks(c, ops, op, lim);
    VictimIsOldest(c, op, key, lim);
    assert all[..|ops|] == ops;
    YoungerKeysTouchedSince(order, all, lim);
    DistinctCount(order[1..]);
    SubsetCount((set k | k in order[1..]), TouchedSince(all, key, lim));
    LastTouchIsTouch(all, key, lim);
  }

  // What an overflowing record removes is the least recently touched key.
  lemma {:induction false} VictimIsOldest(c: Lru, op: Op, key: Key, lim: Limits)
    requires op.Record? && WellFormed(c) && |c.order| <= lim.maxEntries
    requires key in c.entries && key !in Apply(c, op, lim).entries
    ensures var order := Without(c.order, op.key) + [op.key];
            |order| == lim.maxEntries + 1 && order[0] == key && Distinct(order)
  {
    WithoutKeeps(c.order, op.key);
  }

  lemma {:induction false} YoungerKeysTouchedSince(order: seq<Key>, ops: seq<Op>, lim: Limits)
    requires order != [] && InTouchOrder(order, ops, lim)
    ensures forall k :: k in order[1..] ==> k in TouchedSince(ops, order[0], lim)
  {
    forall k | k in order[1..] ensures k in TouchedSince(ops, order[0], lim) {
      LastTouchIsTouch(ops, k, lim);
    }
  }

  lemma {:induction false} SubsetCount<T>(a: set<T>, b: set<T>)
    requires a <= b
    ensures |a| <= |b|
  {
    assert b == a + (b - a);
  }

  lemma {:induction false} TouchedSinceGrows(ops: seq<Op>, op: Op, key: Key, lim: Limits)
    requires LastTouch(ops + [op], key, lim) == LastTouch(ops, key, lim)
    ensures |TouchedSince(ops, key, lim)| <= |TouchedSince(ops + [op], key, lim)|
  {
    assert forall i :: 0 <= i <= |ops| ==> (ops + [op])[..i] == ops[..i];
    SubsetCount(TouchedSince(ops, key, lim), TouchedSince(ops + [op], key, lim));
  }

  lemma {:induction false} FreshRecordStays(ops: seq<Op>, op: Op, lim: Limits)
    requires op.Record? && lim.maxEntries > 0
    ensures op.key in After(ops + [op], lim).entries
  {
    assert (ops + [op])[..|ops|] == ops;
    CacheTracks(ops, lim);
    WithoutKeeps(After(ops, lim).order, op.key);
  }

  // No lookup ever finds the key stale.
  ghost predicate NeverFoundStale(ops: seq<Op>, key: Key, lim: Limits) {
    forall i :: 0 <= i < |ops| && ops[i].Lookup? && ops[i].key == key ==>
      match LatestRecord(ops[..i], key)
      case Some(entry) => ops[i].now - entry.insertedAt <= lim.ttl
      case None => true
  }

  lemma {:induction false} OneOpKeeps(ops: seq<Op>, op: Op, key: Key, lim: Limits)
    requires key in After(ops, lim).entries && |TouchedSince(ops + [op], key, lim)| < lim.maxEntries
    requires op.Lookup? && op.key == key ==>
               LatestRecord(ops, key).Some? && op.now - LatestRecord(ops, key).value.insertedAt <= lim.ttl
    ensures key in After(ops + [op], lim).entries
  {
    assert (ops + [op])[..|ops|] == ops;
    if op.Record? {
      if key !in After(ops + [op], lim).entries {
        EvictionNeedsTouches(ops, op, key, lim);
      }
    } else {
      CacheTracks(ops, lim);
    }
  }

  // Hence a recorded key is still there, with its latest record, unless that many other keys were
  // touched in the meantime or a lookup found it stale.
  lemma {:induction false} RecentKeysStay(ops: seq<Op>, key: Key, lim: Limits)
    requires LatestRecord(ops, key).Some? && |TouchedSince(ops, key, lim)| < lim.maxEntries
    requires NeverFoundStale(ops, key, lim)
    ensures key in After(ops, lim).entries
  {
    hide Put, Without, TouchedSince;
    var before, op := ops[..|ops| - 1], ops[|ops| - 1];
    assert before + [op] == ops;
    if op.Record? && op.key == key {
      FreshRecordStays(before, op, lim);
    } else if LastTouch(ops, key, lim) < |before| {
      TouchedSinceGrows(before, op, key, lim);
      assert forall i :: 0 <= i <= |before| ==> ops[..i] == before[..i];
      assert NeverFoundStale(before, key, lim);
      assert LatestRecord(before, key) == LatestRecord(ops, key);
      RecentKeysStay(before, key, lim);
      OneOpKeeps(before, op, key, lim);
    }
  }

  // ---------------------------------------------------------------- the object

  // Two tables of the same shape: one keyed by the hash of a tool's input, one by a rule.
  class RecentDecisionCache {
    var order: seq<Key>
    var entries: map<Key, Entry>
    var ruleOrder: seq<Key>
    var ruleEntries: map<Key, Entry>
    const lim: Limits

    function Inputs(): Lru reads this { Lru(order, entries) }

    function Rules(): Lru reads this { Lru(ruleOrder, ruleEntries) }

    ghost predicate Valid() reads this {
      && WellFormed(Inputs()) && |order| <= lim.maxEntries
      && WellFormed(Rules()) && |ruleOrder| <= lim.maxEntries
    }

    constructor (lim: Limits)
      ensures Valid() && this.lim == lim && Inputs() == EMPTY && Rules() == EMPTY
    {
      this.lim := lim;
      order, entries, ruleOrder, ruleEntries := [], map[], [], map[];
    }

    // `or`: a missing or empty timestamp falls back to the wall clock.
    static function Stamped(decision: Decision, reason: Option<string>, now: real, decidedAt: Option<string>,
                            wall: string): Entry
    {
      Entry(decision, reason, now, if decidedAt.Some? && decidedAt.value != "" then decidedAt.value else wall)
    }

    method Record(tool: string, sha: string, decision: Decision, reason: Option<string>, decidedAt: Option<string>,
                  now: real, wall: string) returns (ok: bool)
      requires Valid()
      modifies this`order, this`entries
      ensures Valid() && (ok <==> decision in {DENIED, TIMED_OUT})
      ensures Inputs()
           == if ok
              then Put(old(Inputs()), (tool, sha), Stamped(decision, reason, now, decidedAt, wall), lim.maxEntries)
              else old(Inputs())
      // What is stored: the decision and its reason, now, and the time of the user's decision if given.
      ensures ok && lim.maxEntries > 0 ==>
                && (tool, sha) in entries && entries[(tool, sha)].insertedAt == now
                && entries[(tool, sha)].decision == decision && entries[(tool, sha)].reason == reason
                && entries[(tool, sha)].originalDecisionTs
                   == if decidedAt.Some? && decidedAt.value != "" then decidedAt.value else wall
    {
      hide Without;
      if decision !in {DENIED, TIMED_OUT} { return false; }
      var key := (tool, sha);
      PutKeeps(Inputs(), key, Stamped(decision, reason, now, decidedAt, wall), lim.maxEntries);
      if lim.maxEntries > 0 {
        PutStores(Inputs(), key, Stamped(decision, reason, now, decidedAt, wall), lim.maxEntries);
      }
      WithoutKeeps(order, key);
      entries := entries[key := Stamped(decision, reason, now, decidedAt, wall)];
      order := Without(order, key) + [key];
      ghost var full := Inputs();
      while |order| > lim.maxEntries
        invariant |full.order| <= lim.maxEntries + 1
        invariant Inputs() == full || (|full.order| > lim.maxEntries && Inputs() == Evict(full))
        decreases |order|
      {
        entries := entries - {order[0]};
        order := order[1..];
      }
      ok := true;
    }

    method RecordRule(tool: string, rule: string, decision: Decision, reason: Option<string>, decidedAt: Option<string>,
                      now: real, wall: string) returns (ok: bool)
      requires Valid()
      modifies this`ruleOrder, this`ruleEntries
      ensures Valid() && (ok <==> decision == DENIED)
      ensures Rules()
           == if ok
              then Put(old(Rules()), (tool, rule), Stamped(decision, reason, now, decidedAt, wall), lim.maxEntries)
              else old(Rules())
      ensures ok && lim.maxEntries > 0 ==>
                && (tool, rule) in ruleEntries && ruleEntries[(tool, rule)].insertedAt == now
                && ruleEntries[(tool, rule)].decision == decision && ruleEntries[(tool, rule)].reason == reason
                && ruleEntries[(tool, rule)].originalDecisionTs
                   == if decidedAt.Some? && decidedAt.value != "" then decidedAt.value else wall
    {
      hide Without;
      if decision != DENIED { return false; }
      var key := (tool, rule);
      PutKeeps(Rules(), key, Stamped(decision, reason, now, decidedAt, wall), lim.maxEntries);
      if lim.maxEntries > 0 {
        PutStores(Rules(), key, Stamped(decision, reason, now, decidedAt, wall), lim.maxEntries);
      }
      WithoutKeeps(ruleOrder, key);
      ruleEntries := ruleEntries[key := Stamped(decision, reason, now, decidedAt, wall)];
      ruleOrder := Without(ruleOrder, key) + [key];
      ghost var full := Rules();
      while |ruleOrder| > lim.maxEntries
        invariant |full.order| <= lim.maxEntries + 1
        invariant Rules() == full || (|full.order| > lim.maxEntries && Rules() == Evict(full))
        decreases |ruleOrder|
      {
        ruleEntries := ruleEntries - {ruleOrder[0]};
        ruleOrder := ruleOrder[1..];
      }
      ok := true;
    }

    method Lookup(tool: string, sha: string, now: real) returns (hit: Option<Entry>)
      requires Valid()
      modifies this`order, this`entries
      ensures Valid() && (Inputs(), hit) == Get(old(Inputs()), (tool, sha), now, lim.ttl)
    {
      var key := (tool, sha);
      GetKeeps(Inputs(), key, now, lim.ttl);
      if key !in entries { return None; }
      if now - entries[key].insertedAt > lim.ttl {
        order, entries := Without(order, key), entries - {key};
        return None;
      }
      order := Without(order, key) + [key];
      return Some(entries[key]);
    }

    method LookupRules(tool: string, rules: seq<string>, now: real) returns (hit: Option<(string, Entry)>)
      requires Valid()
      modifies this`ruleOrder, this`ruleEntries
      ensures Valid() && (Rules(), hit) == GetRules(old(Rules()), tool, rules, now, lim.ttl)
    {
      for i := 0 to |rules|
        invariant Valid()
        invariant GetRules(old(Rules()), tool, rules, now, lim.ttl) == GetRules(Rules(), tool, rules[i..], now, lim.ttl)
      {
        var key := (tool, rules[i]);
        GetKeeps(Rules(), key, now, lim.ttl);
        assert rules[i..][1..] == rules[i + 1..];
        if key in ruleEntries {
          if now - ruleEntries[key].insertedAt > lim.ttl {
            ruleOrder, ruleEntries := Without(ruleOrder, key), ruleEntries - {key};
          } else {
            ruleOrder := Without(ruleOrder, key) + [key];
            return Some((rules[i], ruleEntries[key]));
          }
        }
      }
      return None;
    }
  }
}
