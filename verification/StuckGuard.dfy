// The guard against a spinning agent (agent/src/stuck_guard.py): it watches tool results and, at
// most once per command and once for the window, advises the agent to stop retrying.
module StuckGuard {
  import opened Wrappers

  const STEER_THRESHOLD: nat := 3
  const WINDOW: nat := 6
  const WINDOW_FAIL_THRESHOLD: nat := 5

  // "tool|command": never empty.
  type Signature = s: string | s != "" witness "|"

  // One tool result: whether its output looks failed, a preview of the command, the fingerprint of
  // the output.
  datatype Outcome = Outcome(sig: Signature, failed: bool, preview: string, finger: string)

  datatype SigState = SigState(streak: nat, preview: string, finger: string)

  datatype Entry = Entry(failed: bool, preview: string, finger: string)

  datatype Action =
    | NoAction
    | SteerCommand(sig: Signature, preview: string, streak: nat)
    | SteerWindow(last: string, failures: nat, size: nat)

  function Last<T>(s: seq<T>): T
    requires s != []
  {
    s[|s| - 1]
  }

  function Front<T>(s: seq<T>): seq<T>
    requires s != []
  {
    s[..|s| - 1]
  }

  // ---------------------------------------------------------------- streaks

  function Sub(h: seq<Outcome>, sig: Signature): seq<Outcome> {
    if h == [] then [] else Sub(Front(h), sig) + if Last(h).sig == sig then [Last(h)] else []
  }

  function Streak(sub: seq<Outcome>): nat {
    if sub == [] || !Last(sub).failed then 0
    else if |sub| > 1 && Last(Front(sub)).failed && Last(Front(sub)).finger == Last(sub).finger
    then Streak(Front(sub)) + 1
    else 1
  }

  predicate FailAlike(s: seq<Outcome>) {
    forall i :: 0 <= i < |s| ==> s[i].failed && s[i].finger == Last(s).finger
  }

  // The streak is the length of the longest suffix of identical failures.
  lemma {:induction false} StreakIsLongest(sub: seq<Outcome>, k: nat)
    requires k <= |sub|
    ensures Streak(sub) <= |sub|
    ensures FailAlike(sub[|sub| - k..]) <==> k <= Streak(sub)
  {
    if sub != [] && k > 0 {
      var front := Front(sub);
      var tail := sub[|sub| - k..];
      StreakIsLongest(front, k - 1);
      assert Last(tail) == Last(sub);
      assert tail == front[|front| - (k - 1)..] + [Last(sub)];
      if k > 1 {
        assert Last(front[|front| - (k - 1)..]) == Last(front) == tail[k - 2];
        assert forall i :: 0 <= i < k - 1 ==> tail[i] == front[|front| - (k - 1)..][i];
      }
    } else if sub != [] {
      StreakIsLongest(Front(sub), 0);
    }
  }

  function LastFailing(h: seq<Outcome>): Option<Signature> {
    if h == [] then None
    else if Last(h).failed then Some(Last(h).sig)
    else if LastFailing(Front(h)) == Some(Last(h).sig) then None
    else LastFailing(Front(h))
  }

  // It is the signature of the last failure, unless that command ran again since.
  ghost predicate LastFailureAt(h: seq<Outcome>, i: nat) {
    && i < |h| && h[i].failed
    && forall j :: i < j < |h| ==> !h[j].failed && h[j].sig != h[i].sig
  }

  lemma {:induction false} LastFailingIs(h: seq<Outcome>, sig: Signature)
    ensures LastFailing(h) == Some(sig) <==> exists i: nat :: LastFailureAt(h, i) && h[i].sig == sig
  {
    if h != [] {
      var front, n := Front(h), |h| - 1;
      LastFailingIs(front, sig);
      if h[n].failed {
        assert h[n].sig == sig ==> LastFailureAt(h, n);
      } else {
        if LastFailing(h) == Some(sig) {
          var i: nat :| LastFailureAt(front, i) && front[i].sig == sig;
          assert LastFailureAt(h, i) && h[i].sig == sig;
        }
        if i: nat :| LastFailureAt(h, i) && h[i].sig == sig {
          assert LastFailureAt(front, i) && front[i].sig == sig;
        }
      }
    }
  }

  // ---------------------------------------------------------------- the window

  function EntryOf(o: Outcome): Entry {
    Entry(o.failed, o.preview, if o.failed then o.finger else "")
  }

  function Entries(h: seq<Outcome>): seq<Entry> {
    seq(|h|, i requires 0 <= i < |h| => EntryOf(h[i]))
  }

  function Recent(h: seq<Outcome>): seq<Outcome> {
    if |h| <= WINDOW then h else h[|h| - WINDOW..]
  }

  // How many failures in the window have this fingerprint.
  function Count(w: seq<Entry>, finger: string): nat {
    if w == [] then 0 else Count(Front(w), finger) + if Last(w).failed && Last(w).finger == finger then 1 else 0
  }

  function Failures(w: seq<Entry>): nat {
    if w == [] then 0 else Failures(Front(w)) + if Last(w).failed then 1 else 0
  }

  // The command that failed so most recently.
  function LastPreview(w: seq<Entry>, finger: string): string {
    if w == [] then ""
    else if Last(w).failed && Last(w).finger == finger then Last(w).preview
    else LastPreview(Front(w), finger)
  }

  predicate Dominates(w: seq<Entry>, finger: string) {
    |w| >= WINDOW && Count(w, finger) >= WINDOW_FAIL_THRESHOLD
  }

  lemma {:induction false} CountsShare(w: seq<Entry>, p: string, q: string)
    requires p != q
    ensures Count(w, p) + Count(w, q) <= Failures(w) <= |w|
  {
    if w != [] {
      CountsShare(Front(w), p, q);
    }
  }

  // Five of six leave no room for a second fingerprint, so no tie is ever broken.
  lemma {:induction false} DominantIsUnique(w: seq<Entry>, p: string, q: string)
    requires |w| <= WINDOW && Dominates(w, p) && Dominates(w, q)
    ensures p == q
  {
    if p != q {
      CountsShare(w, p, q);
    }
  }

  predicate IsMaximal(counts: map<string, (nat, string)>, keys: set<string>, top: string)
    requires keys <= counts.Keys
  {
    top in keys && forall k :: k in keys ==> counts[k].0 <= counts[top].0
  }

  lemma {:induction false} MaximumExists(counts: map<string, (nat, string)>, keys: set<string>)
    requires keys <= counts.Keys && keys != {}
    ensures exists top :: IsMaximal(counts, keys, top)
    decreases |keys|
  {
    var some :| some in keys;
    var rest := keys - {some};
    if rest == {} {
      assert keys == {some};
      assert IsMaximal(counts, keys, some);
    } else {
      MaximumExists(counts, rest);
      var top :| IsMaximal(counts, rest, top);
      var best := if counts[some].0 > counts[top].0 then some else top;
      forall k | k in keys ensures counts[k].0 <= counts[best].0 {
        if k != some { assert k in rest; }
      }
      assert IsMaximal(counts, keys, best);
    }
  }

  // _dominant_window_failure: counting in a dictionary and taking a maximal key finds exactly the
  // dominating fingerprint, if there is one.
  method DominantWindowFailure(w: seq<Entry>) returns (r: Option<(string, string)>)
    ensures r.Some? ==> Dominates(w, r.value.0) && r.value.1 == LastPreview(w, r.value.0)
    ensures r.None? ==> forall finger :: !Dominates(w, finger)
  {
    if |w| < WINDOW { return None; }
    var counts: map<string, (nat, string)> := map[];
    for i := 0 to |w|
      invariant forall finger :: finger in counts <==> Count(w[..i], finger) > 0
      invariant forall finger :: finger in counts ==>
                  counts[finger] == (Count(w[..i], finger), LastPreview(w[..i], finger))
    {
      assert Front(w[..i + 1]) == w[..i] && Last(w[..i + 1]) == w[i];
      if !w[i].failed { continue; }
      var n := if w[i].finger in counts then counts[w[i].finger].0 else 0;
      counts := counts[w[i].finger := (n + 1, w[i].preview)];
    }
    assert w[..|w|] == w;
    if counts == map[] { return None; }
    MaximumExists(counts, counts.Keys);
    var top :| top in counts && IsMaximal(counts, counts.Keys, top);
    if counts[top].0 >= WINDOW_FAIL_THRESHOLD { return Some((top, counts[top].1)); }
    return None;
  }

  // ---------------------------------------------------------------- the verdict

  // What an evaluation calls for, given everything recorded and everything steered before.
  ghost predicate CallsFor(h: seq<Outcome>, steered: set<Signature>, windowSteered: bool, a: Action) {
    match LastFailing(h)
    case None => a == NoAction
    case Some(sig) =>
      var sub, w := Sub(h, sig), Entries(Recent(h));
      if Streak(sub) >= STEER_THRESHOLD && sig !in steered
      then a == SteerCommand(sig, Last(sub).preview, Streak(sub))
      else if !windowSteered && sig !in steered && exists finger :: Dominates(w, finger)
      then a.SteerWindow? && a.failures == Failures(w) && a.size == |w|
           && exists finger :: Dominates(w, finger) && a.last == LastPreview(w, finger)
      else a == NoAction
  }

  // The table of streaks holds each command's streak, and the error and preview it belongs to.
  ghost predicate Follows(sigs: map<Signature, SigState>, h: seq<Outcome>, sig: Signature) {
    var sub := Sub(h, sig);
    if sig !in sigs then sub == []
    else
      && sub != [] && sigs[sig].streak == Streak(sub)
      && if Streak(sub) == 0 then sigs[sig].finger == ""
         else sigs[sig].finger == Last(sub).finger && sigs[sig].preview == Last(sub).preview
  }

  function NextState(state: SigState, o: Outcome): SigState {
    if !o.failed then SigState(0, state.preview, "")
    else SigState(if o.finger == state.finger then state.streak + 1 else 1, o.preview, o.finger)
  }

  function NextSigs(sigs: map<Signature, SigState>, o: Outcome): map<Signature, SigState> {
    sigs[o.sig := NextState(if o.sig in sigs then sigs[o.sig] else SigState(0, "", ""), o)]
  }

  ghost predicate AllFollow(sigs: map<Signature, SigState>, h: seq<Outcome>) {
    forall sig :: Follows(sigs, h, sig)
  }

  lemma {:induction false} RecordFollows(sigs: map<Signature, SigState>, h: seq<Outcome>, o: Outcome)
    requires AllFollow(sigs, h)
    ensures AllFollow(NextSigs(sigs, o), h + [o])
  {
    hide Sub, Streak;
    forall sig ensures Follows(NextSigs(sigs, o), h + [o], sig) {
      StreakStep(h, o, sig);
      assert Follows(sigs, h, sig);
      assert Sub(h, sig) + [] == Sub(h, sig);
      StreakOfNone();
    }
  }

  lemma {:induction false} StreakOfNone()
    ensures Streak([]) == 0
  {
  }

  lemma {:induction false} LastFailingRecorded(h: seq<Outcome>)
    ensures LastFailing(h).Some? ==> Sub(h, LastFailing(h).value) != []
  {
    if h != [] {
      LastFailingRecorded(Front(h));
    }
  }

  class StuckGuard {
    var sigs: map<Signature, SigState>
    var steered: set<Signature>
    var lastFailing: Option<Signature>
    var window: seq<Entry>
    var windowSteered: bool
    ghost var history: seq<Outcome>

    ghost predicate Valid() reads this {
      && AllFollow(sigs, history)
      && lastFailing == LastFailing(history)
      && window == Entries(Recent(history))
    }

    constructor ()
      ensures Valid() && history == [] && steered == {} && !windowSteered
    {
      sigs, steered, lastFailing, window, windowSteered := map[], {}, None, [], false;
      history := [];
    }

    method RecordToolResult(o: Outcome)
      requires Valid()
      modifies this
      ensures Valid() && history == old(history) + [o]
      ensures steered == old(steered) && windowSteered == old(windowSteered)
    {
      hide AllFollow, Entries, Recent, Sub, Streak, EntryOf;
      window := window + [EntryOf(o)];
      if |window| > WINDOW { window := window[1..]; }
      var state := if o.sig in sigs then sigs[o.sig] else SigState(0, "", "");
      if o.failed {
        var streak := if o.finger == state.finger then state.streak + 1 else 1;
        sigs := sigs[o.sig := SigState(streak, o.preview, o.finger)];
        lastFailing := Some(o.sig);
      } else {
        sigs := sigs[o.sig := SigState(0, state.preview, "")];
        if lastFailing == Some(o.sig) { lastFailing := None; }
      }
      history := history + [o];
      WindowStep(old(history), o);
      assert sigs == NextSigs(old(sigs), o);
      RecordFollows(old(sigs), old(history), o);
      assert Front(history) == old(history) && Last(history) == o;
    }

    method Evaluate() returns (a: Action)
      requires Valid()
      modifies this`steered, this`windowSteered
      ensures Valid() && CallsFor(history, old(steered), old(windowSteered), a)
      ensures steered == old(steered) + if a.SteerCommand? then {a.sig} else {}
      ensures windowSteered == (old(windowSteered) || a.SteerWindow?)
    {
      hide Sub, Streak, LastFailing, Entries, Recent, Failures, LastPreview, Dominates;
      if lastFailing.None? { return NoAction; }
      var sig := lastFailing.value;
      assert Follows(sigs, history, sig);
      LastFailingRecorded(history);
      if sig !in sigs { return NoAction; }
      var state := sigs[sig];
      if state.streak >= STEER_THRESHOLD && sig !in steered {
        steered := steered + {sig};
        return SteerCommand(sig, state.preview, state.streak);
      }
      var dominant := DominantWindowFailure(window);
      if !windowSteered && dominant.Some? && sig !in steered {
        windowSteered := true;
        var failures := CountFailures(window);
        return SteerWindow(dominant.value.1, failures, |window|);
      }
      return NoAction;
    }
  }

  method CountFailures(w: seq<Entry>) returns (n: nat)
    ensures n == Failures(w)
  {
    n := 0;
    for i := 0 to |w|
      invariant n == Failures(w[..i])
    {
      assert Front(w[..i + 1]) == w[..i];
      if w[i].failed { n := n + 1; }
    }
    assert w[..|w|] == w;
  }

  lemma {:induction false} WindowStep(h: seq<Outcome>, o: Outcome)
    ensures var w := Entries(Recent(h)) + [EntryOf(o)];
            Entries(Recent(h + [o])) == if |w| > WINDOW then w[1..] else w
  {
  }

  lemma {:induction false} StreakStep(h: seq<Outcome>, o: Outcome, sig: Signature)
    ensures Front(h + [o]) == h
    ensures Sub(h + [o], sig) == Sub(h, sig) + if o.sig == sig then [o] else []
    ensures var sub := Sub(h, sig);
            Streak(sub + [o]) == if !o.failed then 0
                                 else if Streak(sub) > 0 && Last(sub).finger == o.finger then Streak(sub) + 1
                                 else 1
  {
    assert Front(h + [o]) == h;
    var sub := Sub(h, sig);
    assert Front(sub + [o]) == sub;
    assert sub + [] == sub;
  }

  // ---------------------------------------------------------------- over a run

  datatype Op = Record(o: Outcome) | Evaluate(a: Action)

  // `answers` are the actions of the evaluations so far.
  datatype Guard = Guard(history: seq<Outcome>, steered: set<Signature>, windowSteered: bool, answers: seq<Action>)

  const INIT := Guard([], {}, false, [])

  function Step(g: Guard, op: Op): Guard {
    match op
    case Record(o) => g.(history := g.history + [o])
    case Evaluate(a) =>
      g.(steered := g.steered + (if a.SteerCommand? then {a.sig} else {}),
         windowSteered := g.windowSteered || a.SteerWindow?,
         answers := g.answers + [a])
  }

  function Run(ops: seq<Op>): Guard {
    if ops == [] then INIT else Step(Run(Front(ops)), Last(ops))
  }

  // Every answer is the one StuckGuard.Evaluate gives in that state.
  ghost predicate Possible(ops: seq<Op>) {
    ops != [] ==>
      && Possible(Front(ops))
      && (Last(ops).Evaluate? ==>
            var g := Run(Front(ops));
            CallsFor(g.history, g.steered, g.windowSteered, Last(ops).a))
  }

  ghost predicate SteeredIn(answers: seq<Action>, sig: Signature) {
    exists i :: 0 <= i < |answers| && answers[i].SteerCommand? && answers[i].sig == sig
  }

  ghost predicate WindowSteeredIn(answers: seq<Action>) {
    exists i :: 0 <= i < |answers| && answers[i].SteerWindow?
  }

  lemma {:induction false} SteersAreRemembered(ops: seq<Op>)
    ensures var g := Run(ops);
            && (forall sig :: sig in g.steered <==> SteeredIn(g.answers, sig))
            && (g.windowSteered <==> WindowSteeredIn(g.answers))
  {
    if ops != [] && Last(ops).Evaluate? {
      SteersAreRemembered(Front(ops));
      var g, next := Run(Front(ops)), Run(ops);
      var n := |g.answers|;
      forall sig ensures sig in next.steered <==> SteeredIn(next.answers, sig) {
        if i :| 0 <= i < n && g.answers[i].SteerCommand? && g.answers[i].sig == sig {
          assert next.answers[i].SteerCommand? && next.answers[i].sig == sig;
        }
        assert next.answers[n] == Last(ops).a;
      }
      if i :| 0 <= i < n && g.answers[i].SteerWindow? {
        assert next.answers[i].SteerWindow?;
      }
      assert next.answers[n] == Last(ops).a;
    } else if ops != [] {
      SteersAreRemembered(Front(ops));
    }
  }

  // Over any interleaving of records and evaluations, no two evaluations steer the same command, and
  // no two steer the window.
  lemma {:induction false} SteersAtMostOnce(ops: seq<Op>, i: nat, j: nat)
    requires Possible(ops) && i < j < |ops| && ops[i].Evaluate? && ops[j].Evaluate?
    ensures var a, b := ops[i].a, ops[j].a;
            && !(a.SteerCommand? && b.SteerCommand? && a.sig == b.sig)
            && !(a.SteerWindow? && b.SteerWindow?)
  {
    if j < |ops| - 1 {
      SteersAtMostOnce(Front(ops), i, j);
    } else {
      var g := Run(Front(ops));
      SteersAreRemembered(Front(ops));
      AnsweredIn(Front(ops), i);
      var k :| 0 <= k < |g.answers| && g.answers[k] == ops[i].a;
      SteerIsNew(g, Last(ops).a, k);
    }
  }

  lemma {:induction false} AnsweredIn(ops: seq<Op>, i: nat)
    requires i < |ops| && ops[i].Evaluate?
    ensures exists k :: 0 <= k < |Run(ops).answers| && Run(ops).answers[k] == ops[i].a
  {
    if i == |ops| - 1 {
      assert Last(Run(ops).answers) == ops[i].a;
    } else {
      AnsweredIn(Front(ops), i);
      var k :| 0 <= k < |Run(Front(ops)).answers| && Run(Front(ops)).answers[k] == ops[i].a;
      assert Run(ops).answers[k] == ops[i].a;
    }
  }

  lemma {:induction false} SteerIsNew(g: Guard, a: Action, i: nat)
    requires forall sig :: sig in g.steered <==> SteeredIn(g.answers, sig)
    requires g.windowSteered <==> WindowSteeredIn(g.answers)
    requires CallsFor(g.history, g.steered, g.windowSteered, a) && i < |g.answers|
    ensures !(a.SteerCommand? && g.answers[i].SteerCommand? && a.sig == g.answers[i].sig)
    ensures !(a.SteerWindow? && g.answers[i].SteerWindow?)
  {
    hide Sub, Streak, LastFailing, Entries, Recent, Failures, LastPreview, Dominates;
    if g.answers[i].SteerCommand? {
      assert SteeredIn(g.answers, g.answers[i].sig);
    }
  }

  // All results but at most one, the j-th, failed with this error.
  predicate FailExceptAt(s: seq<Outcome>, finger: string, j: nat) {
    j < |s| && forall i :: 0 <= i < |s| && i != j ==> s[i].failed && s[i].finger == finger
  }

  ghost predicate FailExceptOnce(s: seq<Outcome>, finger: string) {
    exists j: nat :: FailExceptAt(s, finger, j)
  }

  ghost predicate FiveOfLastSix(h: seq<Outcome>, finger: string) {
    |h| >= 6 && FailExceptOnce(h[|h| - 6..], finger)
  }

  lemma {:induction false} AllButOne(s: seq<Outcome>, finger: string)
    requires s != []
    ensures Count(Entries(s), finger) >= |s| - 1 <==> FailExceptOnce(s, finger)
  {
    hide Count, Entries;
    var front, last, n := Front(s), Last(s), |s| - 1;
    EntriesStep(s, finger);
    if n == 0 {
      assert FailExceptAt(s, finger, 0);
    } else {
      AllButOne(front, finger);
      AllOf(front, finger);
      if last.failed && last.finger == finger {
        assert forall j: nat :: FailExceptAt(front, finger, j) ==> FailExceptAt(s, finger, j);
        assert forall j: nat :: j < n && FailExceptAt(s, finger, j) ==> FailExceptAt(front, finger, j);
        assert FailExceptAt(s, finger, n) ==> FailExceptAt(front, finger, 0);
      } else {
        assert forall j: nat :: FailExceptAt(s, finger, j) ==> j == n;
        assert forall i :: 0 <= i < n ==> front[i] == s[i];
        assert FailExceptAt(s, finger, n) <==>
               forall i :: 0 <= i < |front| ==> front[i].failed && front[i].finger == finger;
      }
    }
  }

  lemma {:induction false} EntriesStep(s: seq<Outcome>, finger: string)
    requires s != []
    ensures Count(Entries(s), finger)
         == Count(Entries(Front(s)), finger) + if Last(s).failed && Last(s).finger == finger then 1 else 0
    ensures Count(Entries(Front(s)), finger) >= 0 && (|s| == 1 ==> Count(Entries(Front(s)), finger) == 0)
  {
    assert Front(Entries(s)) == Entries(Front(s));
  }

  // The last one excepted, all of them failed so exactly when the count says so.
  lemma {:induction false} AllOf(front: seq<Outcome>, finger: string)
    ensures Count(Entries(front), finger) <= |front|
    ensures Count(Entries(front), finger) == |front| <==>
            forall i :: 0 <= i < |front| ==> front[i].failed && front[i].finger == finger
  {
    CountsFailures(Entries(front), finger);
    FailuresAre(Entries(front));
    assert forall i :: 0 <= i < |front| ==> Entries(front)[i] in Entries(front);
    if forall i :: 0 <= i < |front| ==> front[i].failed && front[i].finger == finger {
      forall e | e in Entries(front) ensures e.failed && e.finger == finger {
        var i :| 0 <= i < |front| && Entries(front)[i] == e;
      }
    }
    if forall e :: e in Entries(front) ==> e.failed && e.finger == finger {
      forall i | 0 <= i < |front| ensures front[i].failed && front[i].finger == finger {
        assert Entries(front)[i].failed;
      }
    }
  }

  lemma {:induction false} DominatesIs(h: seq<Outcome>, finger: string)
    ensures Dominates(Entries(Recent(h)), finger) <==> FiveOfLastSix(h, finger)
  {
    hide Count;
    if |h| >= 6 {
      AllButOne(h[|h| - 6..], finger);
      assert Recent(h) == h[|h| - 6..];
    }
  }

  // When a command is steered: it is the last that failed, its last three results failed alike, and
  // it was not steered before. When the window is: the last failing command does not qualify and
  // was not steered, the window was not steered before, and five of the last six results are one
  // error.
  lemma {:induction false} SteersExactlyWhen(h: seq<Outcome>, steered: set<Signature>, windowSteered: bool, a: Action)
    requires CallsFor(h, steered, windowSteered, a)
    ensures a.SteerCommand? <==> exists sig :: LastFailing(h) == Some(sig) && ThreeAlike(h, sig) && sig !in steered
    ensures a.SteerCommand? ==> LastFailing(h) == Some(a.sig)
    ensures a.SteerWindow? <==>
            && (exists sig :: LastFailing(h) == Some(sig) && !ThreeAlike(h, sig) && sig !in steered)
            && !windowSteered && exists finger :: FiveOfLastSix(h, finger)
  {
    hide Sub, Streak, LastFailing, Entries, Recent, Failures, LastPreview, Dominates, FiveOfLastSix;
    forall finger ensures Dominates(Entries(Recent(h)), finger) <==> FiveOfLastSix(h, finger) {
      DominatesIs(h, finger);
    }
    match LastFailing(h) {
      case None =>
      case Some(sig) => ThreeAlikeIs(h, sig);
    }
  }

  // The last three results of this command failed with one fingerprint.
  predicate ThreeAlike(h: seq<Outcome>, sig: Signature) {
    var sub := Sub(h, sig);
    && |sub| >= 3 && sub[|sub| - 1].failed && sub[|sub| - 2].failed && sub[|sub| - 3].failed
    && sub[|sub| - 3].finger == sub[|sub| - 2].finger == sub[|sub| - 1].finger
  }

  lemma {:induction false} ThreeAlikeIs(h: seq<Outcome>, sig: Signature)
    ensures Streak(Sub(h, sig)) >= STEER_THRESHOLD <==> ThreeAlike(h, sig)
  {
    hide Sub, Streak;
    var sub := Sub(h, sig);
    StreakIsLongest(sub, 0);
    if |sub| >= 3 {
      StreakIsLongest(sub, 3);
      var tail := sub[|sub| - 3..];
      assert tail[0] == sub[|sub| - 3] && tail[1] == sub[|sub| - 2] && tail[2] == sub[|sub| - 1];
    }
  }

  // Nothing in the history is a spin: no command ever failed three times in a row in the same way,
  // and no error ever made up five of six results in a row.
  ghost predicate Quiet(h: seq<Outcome>) {
    && (forall sig :: Streak(Sub(h, sig)) < STEER_THRESHOLD)
    && (forall finger :: !Dominates(Entries(Recent(h)), finger))
  }

  // A healthy agent is never steered.
  lemma {:induction false} QuietIsNotSteered(h: seq<Outcome>, steered: set<Signature>, windowSteered: bool, a: Action)
    requires Quiet(h) && CallsFor(h, steered, windowSteered, a)
    ensures a == NoAction
  {
  }

  lemma {:induction false} QuietRunsAreNotSteered(ops: seq<Op>)
    requires Possible(ops) && forall k :: 0 <= k <= |ops| ==> Quiet(Run(ops[..k]).history)
    ensures forall a :: a in Run(ops).answers ==> a == NoAction
  {
    hide Quiet, CallsFor;
    if ops != [] {
      forall k | 0 <= k <= |Front(ops)| ensures Quiet(Run(Front(ops)[..k]).history) {
        assert Front(ops)[..k] == ops[..k];
      }
      QuietRunsAreNotSteered(Front(ops));
      if Last(ops).Evaluate? {
        var g := Run(Front(ops));
        assert ops[..|ops| - 1] == Front(ops);
        QuietIsNotSteered(g.history, g.steered, g.windowSteered, Last(ops).a);
      }
    }
  }

  // A command that just failed for the third time in a row, each time alike, is steered unless it
  // was before.
  lemma {:induction false} SpinIsSteered(h: seq<Outcome>, steered: set<Signature>, windowSteered: bool, a: Action)
    requires h != [] && var sub := Sub(h, Last(h).sig); |sub| >= 3 && FailAlike(sub[|sub| - 3..])
    requires CallsFor(h, steered, windowSteered, a)
    ensures Last(h).sig !in steered ==>
              a.SteerCommand? && a.sig == Last(h).sig && a.preview == Last(h).preview && a.streak >= 3
  {
    var sub := Sub(h, Last(h).sig);
    StreakIsLongest(sub, 3);
    assert Last(sub) == Last(h);
    assert Last(sub[|sub| - 3..]) == Last(sub);
  }

  lemma {:induction false} FailuresAre(w: seq<Entry>)
    ensures Failures(w) <= |w|
    ensures Failures(w) == |w| <==> forall e :: e in w ==> e.failed
  {
    if w != [] {
      FailuresAre(Front(w));
      assert w == Front(w) + [Last(w)];
    }
  }

  lemma {:induction false} CountsFailures(w: seq<Entry>, finger: string)
    ensures Count(w, finger) <= Failures(w)
    ensures Count(w, finger) == |w| <==> forall e :: e in w ==> e.failed && e.finger == finger
  {
    FailuresAre(w);
    if w != [] {
      CountsFailures(Front(w), finger);
      FailuresAre(Front(w));
      assert w == Front(w) + [Last(w)];
    }
  }

  // The window's message says that all its failures are one error. It is right exactly when that
  // error fills the window or some result in it did not fail.
  lemma {:induction false} WindowCountIsRight(w: seq<Entry>, finger: string)
    requires |w| == WINDOW && Dominates(w, finger)
    ensures Failures(w) == Count(w, finger) <==> Count(w, finger) == WINDOW || exists e :: e in w && !e.failed
  {
    CountsFailures(w, finger);
    FailuresAre(w);
  }

  // It is wrong after any five commands failing alike and a sixth, new one failing differently:
  // the agent is told of six failures with the same error.
  lemma {:induction false} WindowCountCanMislead(h: seq<Outcome>, finger: string)
    requires |h| == WINDOW && (forall o :: o in h ==> o.failed) && (forall i :: 0 <= i < 5 ==> h[i].finger == finger)
    requires h[5].finger != finger && forall i :: 0 <= i < 5 ==> h[i].sig != h[5].sig
    ensures CallsFor(h, {}, false, SteerWindow(h[4].preview, 6, 6)) && Count(Entries(Recent(h)), finger) == 5
  {
    hide Streak, Count, Failures;
    var w := Entries(h);
    assert Recent(h) == h && Front(w) == Entries(h[..5]) && Last(w) == EntryOf(h[5]);
    CountsFailures(Entries(h[..5]), finger);
    FailuresAre(w);
    CountStep(w, finger);
    assert LastPreview(w, finger) == LastPreview(Front(w), finger) == h[4].preview by {
      assert Last(Entries(h[..5])) == EntryOf(h[4]);
    }
    assert Dominates(w, finger);
    NoneOf(h[..5], h[5].sig);
    assert Front(h) == h[..5] && Sub(h, h[5].sig) == [h[5]];
    StreakIsLongest([h[5]], 0);
  }

  lemma {:induction false} CountStep(w: seq<Entry>, finger: string)
    requires w != []
    ensures Count(w, finger) == Count(Front(w), finger) + if Last(w).failed && Last(w).finger == finger then 1 else 0
  {
  }

  lemma {:induction false} NoneOf(h: seq<Outcome>, sig: Signature)
    requires forall o :: o in h ==> o.sig != sig
    ensures Sub(h, sig) == []
  {
    if h != [] {
      NoneOf(Front(h), sig);
    }
  }

  function Records(h: seq<Outcome>): seq<Op> {
    if h == [] then [] else Records(Front(h)) + [Record(Last(h))]
  }

  // Every history is one that a run records.
  lemma {:induction false} HistoriesAreReachable(h: seq<Outcome>)
    ensures Possible(Records(h)) && Run(Records(h)) == INIT.(history := h)
  {
    if h != [] {
      HistoriesAreReachable(Front(h));
      assert Front(Records(h)) == Records(Front(h)) && Last(Records(h)) == Record(Last(h));
      assert h == Front(h) + [Last(h)];
    }
  }
}
