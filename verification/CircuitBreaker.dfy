// The circuit breaker that all progress writers of a task share
// (agent/src/progress_writer.py): three counted failures with no success in between, or one that
// can never heal, silence a task's event stream for good.
module CircuitBreaker {
  import opened Wrappers

  const MAX_FAILURES: nat := 3

  const PERMANENT_DDB_ERROR_CODES := {
    "ValidationException", "ItemCollectionSizeLimitExceededException", "ResourceNotFoundException",
    "AccessDeniedException", "UnauthorizedOperation" }

  const TRANSIENT_DDB_ERROR_CODES := {
    "ProvisionedThroughputExceededException", "RequestLimitExceeded", "ThrottlingException",
    "ServiceUnavailable", "InternalServerError" }

  const TRANSIENT_NETWORK_EXC_NAMES := {
    "ConnectionError", "EndpointConnectionError", "ReadTimeoutError", "ConnectTimeoutError",
    "ConnectionClosedError", "ClientConnectionError" }

  const FATAL_CODES := { "AccessDeniedException", "UnauthorizedOperation", "ResourceNotFoundException" }

  // An exception: the AWS error code it carries, if any, and its class name.
  datatype Exc = Exc(code: Option<string>, name: string)

  datatype Class = Permanent | Transient | Unknown

  // How an attempted write ends.
  datatype Result = Stored | NoBoto | Raised(exc: Exc)

  // What that means for the breaker.
  datatype Kind = Success | Counted | Dropped | Fatal

  datatype Entry = Entry(failures: nat, disabled: bool)

  function Classify(e: Exc): Class {
    if e.code.Some? && e.code.value in PERMANENT_DDB_ERROR_CODES then Permanent
    else if e.code.Some? && e.code.value in TRANSIENT_DDB_ERROR_CODES then Transient
    else if e.name in TRANSIENT_NETWORK_EXC_NAMES then Transient
    else Unknown
  }

  function KindOf(r: Result): Kind {
    match r
    case Stored => Success
    case NoBoto => Fatal
    case Raised(e) =>
      if !Classify(e).Permanent? then Counted
      else if e.code.Some? && e.code.value in FATAL_CODES then Fatal
      else Dropped
  }

  // In plain terms: which results are fatal, which only drop their event, and that every other
  // failure counts.
  predicate IsFatal(r: Result) {
    r.NoBoto? || (r.Raised? && r.exc.code.Some? &&
                  r.exc.code.value in {"AccessDeniedException", "UnauthorizedOperation", "ResourceNotFoundException"})
  }

  predicate IsDropped(r: Result) {
    r.Raised? && r.exc.code.Some? &&
    r.exc.code.value in {"ValidationException", "ItemCollectionSizeLimitExceededException"}
  }

  lemma {:induction false} KindIs(r: Result)
    ensures KindOf(r) == if r.Stored? then Success
                         else if IsFatal(r) then Fatal
                         else if IsDropped(r) then Dropped
                         else Counted
  {
  }

  // ---------------------------------------------------------------- what a history means

  function Last<T>(s: seq<T>): T
    requires s != []
  {
    s[|s| - 1]
  }

  function Front<T>(s: seq<T>): seq<T>
    requires s != []
  {
    s[..|s| - 1]
  }

  // Counted failures since the last success.
  function Failures(h: seq<Kind>): nat {
    if h == [] then 0
    else match Last(h)
      case Success => 0
      case Counted => Failures(Front(h)) + 1
      case _ => Failures(Front(h))
  }

  predicate Tripped(h: seq<Kind>) {
    h != [] && (Tripped(Front(h)) || Last(h).Fatal? || (Last(h).Counted? && Failures(h) >= MAX_FAILURES))
  }

  // Three counted failures with no success between the first and the last.
  ghost predicate ThreeInARow(h: seq<Kind>, i: nat, j: nat, k: nat) {
    i < j < k < |h| && h[i].Counted? && h[j].Counted? && h[k].Counted? && forall m :: i < m < k ==> !h[m].Success?
  }

  ghost predicate MustSilence(h: seq<Kind>) {
    || (exists i :: 0 <= i < |h| && h[i].Fatal?)
    || (exists i: nat, j: nat, k: nat :: ThreeInARow(h, i, j, k))
  }

  ghost predicate SinceSuccess(h: seq<Kind>, i: nat) {
    i < |h| && h[i].Counted? && forall m :: i < m < |h| ==> !h[m].Success?
  }

  lemma {:induction false} FailuresAreCounted(h: seq<Kind>)
    ensures Failures(h) >= 1 <==> exists i: nat :: SinceSuccess(h, i)
    ensures Failures(h) >= 2 <==> exists i: nat, j: nat :: i < j && SinceSuccess(h, i) && SinceSuccess(h, j)
  {
    if h != [] {
      var front, n := Front(h), |h| - 1;
      FailuresAreCounted(front);
      assert forall i: nat :: i < n ==> (SinceSuccess(h, i) <==> SinceSuccess(front, i) && !h[n].Success?);
      assert SinceSuccess(h, n) <==> h[n].Counted?;
    }
  }

  lemma {:induction false} TripsOnThree(h: seq<Kind>)
    ensures Tripped(h) <==> MustSilence(h)
  {
    hide Failures;
    if h != [] {
      var front, n := Front(h), |h| - 1;
      TripsOnThree(front);
      FailuresAreCounted(front);
      FailuresStep(h);
      if Tripped(front) {
        if i: nat, j: nat, k: nat :| ThreeInARow(front, i, j, k) {
          assert ThreeInARow(h, i, j, k);
        }
        if i :| 0 <= i < |front| && front[i].Fatal? {
          assert h[i].Fatal?;
        }
      }
      if Tripped(h) && !Tripped(front) && h[n].Counted? {
        var i: nat, j: nat :| i < j && SinceSuccess(front, i) && SinceSuccess(front, j);
        assert ThreeInARow(h, i, j, n);
      }
      if i: nat, j: nat, k: nat :| ThreeInARow(h, i, j, k) {
        if k < n {
          assert ThreeInARow(front, i, j, k);
        } else {
          assert SinceSuccess(front, i) && SinceSuccess(front, j);
        }
      }
    }
  }

  lemma {:induction false} FailuresStep(h: seq<Kind>)
    requires h != []
    ensures Failures(h) == match Last(h)
                           case Success => 0
                           case Counted => Failures(Front(h)) + 1
                           case _ => Failures(Front(h))
  {
  }

  // ---------------------------------------------------------------- the code

  function Of(log: seq<(string, Kind)>, task: string): seq<Kind> {
    if log == [] then [] else Of(Front(log), task) + if Last(log).0 == task then [Last(log).1] else []
  }

  function EntryIn(state: map<string, Entry>, task: string): Entry {
    if task in state then state[task] else Entry(0, false)
  }

  function Summary(h: seq<Kind>): Entry {
    Entry(Failures(h), Tripped(h))
  }

  ghost predicate Reflects(state: map<string, Entry>, log: seq<(string, Kind)>) {
    forall task :: EntryIn(state, task) == Summary(Of(log, task))
  }

  function Apply(e: Entry, k: Kind): Entry {
    match k
    case Success => e.(failures := 0)
    case Counted => Entry(e.failures + 1, e.disabled || e.failures + 1 >= MAX_FAILURES)
    case Dropped => e
    case Fatal => e.(disabled := true)
  }

  lemma {:induction false} SummaryStep(h: seq<Kind>, k: Kind)
    ensures Summary(h + [k]) == Apply(Summary(h), k)
  {
    assert Front(h + [k]) == h;
  }

  lemma {:induction false} OfStep(log: seq<(string, Kind)>, task: string, k: Kind, other: string)
    ensures Of(log + [(task, k)], other) == if other == task then Of(log, other) + [k] else Of(log, other)
  {
    assert Front(log + [(task, k)]) == log;
    assert Of(log, other) + [] == Of(log, other);
  }

  // What an outcome does to the shared table.
  function Update(state: map<string, Entry>, task: string, k: Kind): map<string, Entry> {
    match k
    case Success => if task in state then state[task := state[task].(failures := 0)] else state
    case Counted =>
      var failures := EntryIn(state, task).failures + 1;
      state[task := Entry(failures, EntryIn(state, task).disabled || failures >= MAX_FAILURES)]
    case Dropped => state
    case Fatal => state[task := EntryIn(state, task).(disabled := true)]
  }

  // Tasks do not affect each other: an outcome changes its own task's entry only.
  lemma {:induction false} UpdateIsLocal(state: map<string, Entry>, task: string, k: Kind, other: string)
    ensures EntryIn(Update(state, task, k), other)
         == if other == task then Apply(EntryIn(state, task), k) else EntryIn(state, other)
  {
  }

  lemma {:induction false} ReflectsStep(state: map<string, Entry>, log: seq<(string, Kind)>, task: string, k: Kind)
    requires Reflects(state, log)
    ensures Reflects(Update(state, task, k), log + [(task, k)])
  {
    hide Summary, Of, Apply, EntryIn, Update;
    forall other ensures EntryIn(Update(state, task, k), other) == Summary(Of(log + [(task, k)], other)) {
      UpdateIsLocal(state, task, k, other);
      OfStep(log, task, k, other);
      SummaryStep(Of(log, other), k);
    }
  }

  class SharedCircuitBreaker {
    var state: map<string, Entry>
    // Every outcome so far, of all tasks.
    ghost var log: seq<(string, Kind)>

    ghost predicate Valid() reads this {
      Reflects(state, log)
    }

    constructor ()
      ensures Valid() && log == []
    {
      state, log := map[], [];
    }

    predicate IsDisabled(task: string) reads this {
      task in state && state[task].disabled
    }

    method Disable(task: string)
      requires Valid()
      modifies this
      ensures Valid() && log == old(log) + [(task, Fatal)] && state == Update(old(state), task, Fatal)
    {
      hide Reflects;
      state := state[task := EntryIn(state, task).(disabled := true)];
      log := log + [(task, Fatal)];
      ReflectsStep(old(state), old(log), task, Fatal);
    }

    method RecordFailure(task: string) returns (count: nat, nowDisabled: bool)
      requires Valid()
      modifies this
      ensures Valid() && log == old(log) + [(task, Counted)] && state == Update(old(state), task, Counted)
      ensures count == Failures(Of(log, task)) && nowDisabled == Tripped(Of(log, task))
    {
      hide Failures, Tripped, Of;
      var entry := EntryIn(state, task);
      entry := entry.(failures := entry.failures + 1);
      if entry.failures >= MAX_FAILURES { entry := entry.(disabled := true); }
      state := state[task := entry];
      log := log + [(task, Counted)];
      ReflectsStep(old(state), old(log), task, Counted);
      assert EntryIn(state, task) == Summary(Of(log, task));
      return entry.failures, entry.disabled;
    }

    method RecordSuccess(task: string)
      requires Valid()
      modifies this
      ensures Valid() && log == old(log) + [(task, Success)] && state == Update(old(state), task, Success)
    {
      hide Reflects;
      if task in state { state := state[task := state[task].(failures := 0)]; }
      log := log + [(task, Success)];
      ReflectsStep(old(state), old(log), task, Success);
    }

    // A dropped event is not reported to the breaker at all.
    ghost method RecordDropped(task: string)
      requires Valid()
      modifies this`log
      ensures Valid() && log == old(log) + [(task, Dropped)] && state == Update(old(state), task, Dropped)
    {
      hide Reflects;
      log := log + [(task, Dropped)];
      ReflectsStep(state, old(log), task, Dropped);
    }
  }

  class ProgressWriter {
    const task: string
    const hasTable: bool
    const breaker: SharedCircuitBreaker

    constructor (task: string, hasTable: bool, breaker: SharedCircuitBreaker)
      ensures this.task == task && this.hasTable == hasTable && this.breaker == breaker
    {
      this.task, this.hasTable, this.breaker := task, hasTable, breaker;
    }

    // The guard in front of a write: no table, or a tripped breaker, and nothing is attempted.
    method MayWrite() returns (ok: bool)
      requires breaker.Valid()
      ensures ok <==> hasTable && !EntryIn(breaker.state, task).disabled
      ensures ok <==> hasTable && !Tripped(Of(breaker.log, task))
    {
      assert EntryIn(breaker.state, task) == Summary(Of(breaker.log, task));
      ok := hasTable && !breaker.IsDisabled(task);
    }

    // The accounting after an attempt.
    method Settle(r: Result)
      requires breaker.Valid()
      modifies breaker
      ensures breaker.Valid() && breaker.log == old(breaker.log) + [(task, KindOf(r))]
      ensures breaker.state == Update(old(breaker.state), task, KindOf(r))
    {
      hide Reflects, Failures, Tripped, Of, Update;
      match r {
        case Stored => breaker.RecordSuccess(task);
        case NoBoto => breaker.Disable(task);
        case Raised(e) =>
          match Classify(e) {
            case Permanent =>
              if e.code.Some? && e.code.value in FATAL_CODES {
                breaker.Disable(task);
              } else {
                breaker.RecordDropped(task);
              }
            case Transient => var _, _ := breaker.RecordFailure(task);
            case Unknown => var _, _ := breaker.RecordFailure(task);
          }
      }
    }

    // _put_event, without another writer in between: `r` is how the attempt ends, if it is made.
    method PutEvent(r: Result) returns (attempted: bool)
      requires breaker.Valid()
      modifies breaker
      ensures breaker.Valid() && (attempted <==> hasTable && !Tripped(Of(old(breaker.log), task)))
      ensures breaker.log == old(breaker.log) + if attempted then [(task, KindOf(r))] else []
    {
      hide Tripped, Of, KindOf;
      attempted := MayWrite();
      if attempted { Settle(r); }
    }
  }

  // ---------------------------------------------------------------- interleaved writers

  // Guard and accounting of one call, with any steps of other calls in between.
  datatype Event = Begin(task: string, hasTable: bool) | End(call: nat, r: Result)

  datatype Call = Call(task: string, pending: bool, attempted: bool)

  // The table the writers share, and the calls begun so far.
  datatype World = World(state: map<string, Entry>, calls: seq<Call>)

  function Step(w: World, e: Event): World {
    match e
    case Begin(task, hasTable) =>
      var go := hasTable && !EntryIn(w.state, task).disabled;
      w.(calls := w.calls + [Call(task, go, go)])
    case End(c, r) =>
      if c < |w.calls| && w.calls[c].pending
      then World(Update(w.state, w.calls[c].task, KindOf(r)), w.calls[c := w.calls[c].(pending := false)])
      else w
  }

  function Run(events: seq<Event>): World {
    if events == [] then World(map[], []) else Step(Run(Front(events)), Last(events))
  }

  predicate Silenced(w: World, task: string) {
    EntryIn(w.state, task).disabled
  }

  // The k-th event ends a write of this task.
  predicate EndsAt(events: seq<Event>, task: string, k: nat) {
    k < |events| && EndsCall(Run(events[..k]), events[k], task)
  }

  predicate EndsCall(w: World, e: Event, task: string) {
    e.End? && e.call < |w.calls| && w.calls[e.call].pending && w.calls[e.call].task == task
  }

  predicate FatalAt(events: seq<Event>, task: string, k: nat) {
    EndsAt(events, task, k) && IsFatal(events[k].r)
  }

  predicate SucceedsAt(events: seq<Event>, task: string, k: nat) {
    EndsAt(events, task, k) && events[k].r.Stored?
  }

  // It fails in a way that counts.
  predicate FailsAt(events: seq<Event>, task: string, k: nat) {
    EndsAt(events, task, k) && !events[k].r.Stored? && !IsFatal(events[k].r) && !IsDropped(events[k].r)
  }

  // The task's own history, event by event; events that do not concern it change nothing.
  function Trace(events: seq<Event>, task: string): seq<Kind> {
    if events == [] then []
    else Trace(Front(events), task)
         + [if EndsCall(Run(Front(events)), Last(events), task) then KindOf(Last(events).r) else Dropped]
  }

  lemma {:induction false} TraceIs(events: seq<Event>, task: string)
    ensures |Trace(events, task)| == |events|
    ensures forall k :: 0 <= k < |events| ==>
              Trace(events, task)[k] == if EndsAt(events, task, k) then KindOf(events[k].r) else Dropped
  {
    hide EndsCall, KindOf, Run;
    if events != [] {
      var front, n := Front(events), |events| - 1;
      TraceIs(front, task);
      assert forall k :: 0 <= k <= n ==> events[..k] == front[..k];
      assert front[..n] == front;
      forall k | 0 <= k < n ensures EndsAt(events, task, k) <==> EndsAt(front, task, k) {
        assert events[..k] == front[..k] && events[k] == front[k];
      }
    }
  }

  // In every interleaving the shared table holds, for every task, the counter and the latch of that
  // task's own history.
  lemma {:induction false} RunReflects(events: seq<Event>, task: string)
    ensures EntryIn(Run(events).state, task) == Summary(Trace(events, task))
  {
    hide Summary, EntryIn, Update, KindOf;
    if events == [] {
      NothingReflects(task);
    } else {
      var w, e := Run(Front(events)), Last(events);
      RunReflects(Front(events), task);
      SummaryStep(Trace(Front(events), task), if EndsCall(w, e, task) then KindOf(e.r) else Dropped);
      if e.End? && e.call < |w.calls| {
        UpdateIsLocal(w.state, w.calls[e.call].task, KindOf(e.r), task);
      }
    }
  }

  lemma {:induction false} NothingReflects(task: string)
    ensures EntryIn(map[], task) == Summary([])
  {
  }

  // However the writers interleave: the shared table silences a stream exactly when one of the
  // writes of its own task ended fatally, or three of them failed in a way that counts with no
  // success in between. Writes of other tasks play no part, nor does the order in which calls were
  // begun.
  lemma {:induction false} SilencedExactlyWhen(events: seq<Event>, task: string)
    ensures Silenced(Run(events), task) <==>
            || (exists k: nat :: FatalAt(events, task, k))
            || (exists i: nat, j: nat, k: nat ::
                  && i < j < k && FailsAt(events, task, i) && FailsAt(events, task, j) && FailsAt(events, task, k)
                  && forall m: nat :: i < m < k ==> !SucceedsAt(events, task, m))
  {
    hide Run, EndsAt, Trace, KindOf, Tripped, Failures, IsFatal, IsDropped;
    var h := Trace(events, task);
    RunReflects(events, task);
    TripsOnThree(h);
    TraceIs(events, task);
    KindsAt(events, task);
    if i :| 0 <= i < |h| && h[i].Fatal? {
      assert FatalAt(events, task, i);
    }
    if k: nat :| FatalAt(events, task, k) {
      assert h[k].Fatal?;
    }
    if i: nat, j: nat, k: nat :| ThreeInARow(h, i, j, k) {
      assert FailsAt(events, task, i) && FailsAt(events, task, j) && FailsAt(events, task, k);
      assert forall m: nat :: i < m < k ==> !SucceedsAt(events, task, m);
    }
    if i: nat, j: nat, k: nat :| && i < j < k && FailsAt(events, task, i) && FailsAt(events, task, j)
                                 && FailsAt(events, task, k)
                                 && forall m: nat :: i < m < k ==> !SucceedsAt(events, task, m) {
      assert ThreeInARow(h, i, j, k);
    }
  }

  lemma {:induction false} KindsAt(events: seq<Event>, task: string)
    ensures |Trace(events, task)| == |events|
    ensures forall k: nat :: FatalAt(events, task, k) <==> k < |events| && Trace(events, task)[k].Fatal?
    ensures forall k: nat :: FailsAt(events, task, k) <==> k < |events| && Trace(events, task)[k].Counted?
    ensures forall k: nat :: SucceedsAt(events, task, k) <==> k < |events| && Trace(events, task)[k].Success?
  {
    hide EndsAt, Trace;
    TraceIs(events, task);
    forall k: nat | k < |events|
      ensures FatalAt(events, task, k) <==> Trace(events, task)[k].Fatal?
      ensures FailsAt(events, task, k) <==> Trace(events, task)[k].Counted?
      ensures SucceedsAt(events, task, k) <==> Trace(events, task)[k].Success?
    {
      KindAt(events, task, k);
    }
    assert forall k: nat :: EndsAt(events, task, k) ==> k < |events| by { EndsWithin(events, task); }
  }

  lemma {:induction false} EndsWithin(events: seq<Event>, task: string)
    ensures forall k: nat :: EndsAt(events, task, k) ==> k < |events|
  {
  }

  lemma {:induction false} KindAt(events: seq<Event>, task: string, k: nat)
    requires k < |events|
    ensures |Trace(events, task)| == |events|
    ensures FatalAt(events, task, k) <==> Trace(events, task)[k].Fatal?
    ensures FailsAt(events, task, k) <==> Trace(events, task)[k].Counted?
    ensures SucceedsAt(events, task, k) <==> Trace(events, task)[k].Success?
  {
    hide Run, Trace, KindOf;
    TraceIs(events, task);
    if EndsAt(events, task, k) {
      KindIs(events[k].r);
    }
  }

  // A call attempts its write exactly when there is a table and the stream is not silenced.
  lemma {:induction false} AttemptedExactlyWhen(events: seq<Event>, task: string, hasTable: bool)
    ensures var calls := Run(events + [Begin(task, hasTable)]).calls;
            && calls != [] && Last(calls).task == task && Last(calls).pending == Last(calls).attempted
            && (Last(calls).attempted <==> hasTable && !Silenced(Run(events), task))
  {
    assert Front(events + [Begin(task, hasTable)]) == events;
  }

  // Of the calls from the n-th on, none of this task attempted a write.
  predicate SilentFrom(calls: seq<Call>, n: nat, task: string) {
    n <= |calls| && forall c :: n <= c < |calls| && calls[c].task == task ==> !calls[c].attempted
  }

  lemma {:induction false} StepIsSilent(w: World, e: Event, n: nat, task: string)
    requires Silenced(w, task) && SilentFrom(w.calls, n, task)
    ensures Silenced(Step(w, e), task) && SilentFrom(Step(w, e).calls, n, task)
  {
    hide KindOf, EntryIn, Update;
    if e.End? && e.call < |w.calls| && w.calls[e.call].pending {
      UpdateIsLocal(w.state, w.calls[e.call].task, KindOf(e.r), task);
    }
  }

  // Once silenced, always silenced, and no call that starts then attempts a write.
  lemma {:induction false} DisabledIsALatch(events: seq<Event>, more: seq<Event>, task: string)
    requires Silenced(Run(events), task)
    ensures Silenced(Run(events + more), task) && SilentFrom(Run(events + more).calls, |Run(events).calls|, task)
  {
    hide Silenced, Step;
    if more == [] {
      assert events + more == events;
    } else {
      DisabledIsALatch(events, Front(more), task);
      assert Front(events + more) == events + Front(more);
      StepIsSilent(Run(events + Front(more)), Last(more), |Run(events).calls|, task);
    }
  }

  function WithoutDrops(h: seq<Kind>): seq<Kind> {
    if h == [] then [] else WithoutDrops(Front(h)) + if Last(h).Dropped? then [] else [Last(h)]
  }

  lemma {:induction false} DropsDoNotCount(h: seq<Kind>)
    ensures Summary(h) == Summary(WithoutDrops(h))
  {
    if h != [] {
      DropsDoNotCount(Front(h));
      assert h == Front(h) + [Last(h)];
      SummaryStep(Front(h), Last(h));
      if !Last(h).Dropped? {
        SummaryStep(WithoutDrops(Front(h)), Last(h));
      } else {
        assert WithoutDrops(h) == WithoutDrops(Front(h));
      }
    }
  }
}
