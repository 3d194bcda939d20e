// The human-approval gate (agent/src/hooks.py, agent/src/task_state.py) as a transition system.
//
// One task, any number of gates in flight, an adversarial environment. Every event is one atomic
// step: the agent code between two awaits, one store call, or one act of the outside world.
// Whatever the outside world decides (whether a call fails, whether it fails before or after
// taking effect, when a timer fires) is carried by the event, so a run is a sequence of events.
module GateProtocol {
  import opened Wrappers

  const POLL_MAX_CONSECUTIVE_FAILS := 10

  type RequestId = string

  datatype RowStatus = PENDING | APPROVED | DENIED | TIMED_OUT

  // `writer` is the gate that put the row; it is history, the code never reads it.
  datatype Row = Row(status: RowStatus, writer: nat)

  // EXPIRED is the task status TIMED_OUT.
  datatype TaskStatus = HYDRATING | RUNNING | AWAITING_APPROVAL | CANCELLED | COMPLETED | FAILED | EXPIRED

  datatype Task = Task(status: TaskStatus, awaiting: Option<RequestId>)

  datatype Store = Store(rows: map<RequestId, Row>, task: Task, count: nat)

  // How one store call ends: it works, the store rejects it without effect, or it raises
  // without having taken effect, or it raises after having taken effect.
  datatype Fault = Works | Rejected | LostBefore | LostAfter

  // How a gate came to keep the TIMED_OUT outcome of its poll.
  datatype Lapse = Written | RereadFailed | RowGone | RowUndecided

  datatype Verdict = Approve | Deny | Lapsed(how: Lapse)

  datatype Refusal =
    | NoTask | CapExceeded | RateLimited | NoLifetime
    | WriteCancelled | WriteFailed | NotAwaiting | ResumeFailed

  datatype Answer = Allowed | DeniedByUser | DeniedByTimeout(how: Lapse) | Refused(why: Refusal)

  datatype Phase =
    | Counting                       // counters bumped, the persisted increment is in flight
    | Writing                        // about to put the row and pause the task
    | Polling(fails: nat)            // consecutive failed reads so far
    | Expiring                       // the poll gave up: about to flip the row to TIMED_OUT
    | Rereading                      // that flip did not report success
    | Resuming(verdict: Verdict)     // about to resume the task
    | Answered(answer: Answer)
    | Killed                         // its container is gone

  datatype Gate = Gate(rid: RequestId, phase: Phase)

  // What happened, kept for the statements below and never read by a step of the agent.
  datatype Ledger = Ledger(
    decided: map<nat, RowStatus>,  // the decision a user committed on a gate's row
    resumed: set<nat>,             // gates whose conditional resume took effect
    attempted: nat,                // gates that bumped the session counter
    lost: nat,                     // persisted-counter increments that did not take effect
    seed: nat,                     // persisted counter when this container started
    attemptedBefore: nat,          // `attempted` when this container started
    lostBefore: nat)               // `lost` when this container started

  // `session` is the engine's own counter; `cap` is frozen on the task record.
  datatype State = State(store: Store, cap: nat, session: nat, gates: seq<Gate>, ledger: Ledger)

  datatype Event =
    | Begin(rid: RequestId, hasTask: bool, rateOk: bool, lifetimeOk: bool)
    | Persist(gate: nat, landed: nat)
    | Write(gate: nat, fault: Fault)
    | Read(gate: nat, ok: bool)
    | Deadline(gate: nat)
    | Expire(gate: nat, fault: Fault)
    | Reread(gate: nat, ok: bool)
    | Resume(gate: nat, fault: Fault)
    | Decide(rid: RequestId, approve: bool)  // approve-task.ts, deny-task.ts
    | Launch                                 // HYDRATING -> RUNNING
    | Finish(status: TaskStatus)             // cancel-task.ts, write_terminal, the reconcilers
    | Reap(rid: RequestId)                   // DynamoDB TTL
    | Restart                                // the container dies and a new one is seeded

  // ---------------------------------------------------------------- steps

  predicate Terminal(status: TaskStatus) {
    status in {CANCELLED, COMPLETED, FAILED, EXPIRED}
  }

  function Init(cap: nat): State {
    State(Store(map[], Task(HYDRATING, None), 0), cap, 0, [], Ledger(map[], {}, 0, 0, 0, 0, 0))
  }

  // Gates whose increment of the persisted counter is still in flight.
  function InFlight(gates: seq<Gate>): nat {
    if gates == [] then 0
    else InFlight(gates[..|gates| - 1]) + if gates[|gates| - 1].phase == Counting then 1 else 0
  }

  predicate At(s: State, i: nat, p: Phase) {
    i < |s.gates| && s.gates[i].phase == p
  }

  function Goto(s: State, i: nat, p: Phase): State
    requires i < |s.gates|
  {
    s.(gates := s.gates[i := s.gates[i].(phase := p)])
  }

  // The task row is paused for exactly this request.
  predicate AwaitingFor(t: Task, rid: RequestId) {
    t.status == AWAITING_APPROVAL && t.awaiting == Some(rid)
  }

  function StepBegin(s: State, e: Event): State
    requires e.Begin?
  {
    var refuse := (why: Refusal) => s.(gates := s.gates + [Gate(e.rid, Answered(Refused(why)))]);
    if !e.hasTask then refuse(NoTask)
    else if s.session >= s.cap then refuse(CapExceeded)
    else if !e.rateOk then refuse(RateLimited)
    else if !e.lifetimeOk then refuse(NoLifetime)
    else s.(session := s.session + 1,
            gates := s.gates + [Gate(e.rid, Counting)],
            ledger := s.ledger.(attempted := s.ledger.attempted + 1))
  }

  // ADD approval_gate_count :one; a retried call may land more than once.
  function StepPersist(s: State, i: nat, landed: nat): State {
    if !At(s, i, Counting) then s
    else Goto(s, i, Writing).(
         store := s.store.(count := s.store.count + landed),
         ledger := s.ledger.(lost := s.ledger.lost + if landed == 0 then 1 else 0))
  }

  // Put of a fresh PENDING row together with RUNNING -> AWAITING_APPROVAL.
  function StepWrite(s: State, i: nat, fault: Fault): State {
    if !At(s, i, Writing) then s
    else
      var rid := s.gates[i].rid;
      var holds := rid !in s.store.rows && s.store.task.status == RUNNING;
      var store := if holds && fault in {Works, LostAfter}
                   then s.store.(rows := s.store.rows[rid := Row(PENDING, i)],
                                 task := Task(AWAITING_APPROVAL, Some(rid)))
                   else s.store;
      var next := if fault in {LostBefore, LostAfter} then Answered(Refused(WriteFailed))
                  else if holds && fault == Works then Polling(0)
                  else Answered(Refused(WriteCancelled));
      Goto(s, i, next).(store := store)
  }

  // What a consistent read of the row settles, if anything.
  function Settled(store: Store, rid: RequestId): Option<Verdict> {
    if rid !in store.rows then None
    else match store.rows[rid].status
      case APPROVED => Some(Approve)
      case DENIED => Some(Deny)
      case _ => None
  }

  function StepRead(s: State, i: nat, ok: bool): State {
    if i >= |s.gates| || !s.gates[i].phase.Polling? then s
    else if !ok then
      var fails := s.gates[i].phase.fails + 1;
      Goto(s, i, if fails >= POLL_MAX_CONSECUTIVE_FAILS then Expiring else Polling(fails))
    else match Settled(s.store, s.gates[i].rid)
      case Some(v) => Goto(s, i, Resuming(v))
      case None => Goto(s, i, Polling(0))
  }

  function StepDeadline(s: State, i: nat): State {
    if i < |s.gates| && s.gates[i].phase.Polling? then Goto(s, i, Expiring) else s
  }

  // Update to TIMED_OUT, conditional on PENDING. Only a reported success skips the re-read.
  function StepExpire(s: State, i: nat, fault: Fault): State {
    if !At(s, i, Expiring) then s
    else
      var rid := s.gates[i].rid;
      var holds := rid in s.store.rows && s.store.rows[rid].status == PENDING;
      var store := if holds && fault in {Works, LostAfter}
                   then s.store.(rows := s.store.rows[rid := s.store.rows[rid].(status := TIMED_OUT)])
                   else s.store;
      Goto(s, i, if holds && fault == Works then Resuming(Lapsed(Written)) else Rereading).(store := store)
  }

  function StepReread(s: State, i: nat, ok: bool): State {
    if !At(s, i, Rereading) then s
    else if !ok then Goto(s, i, Resuming(Lapsed(RereadFailed)))
    else match Settled(s.store, s.gates[i].rid)
      case Some(v) => Goto(s, i, Resuming(v))
      case None => Goto(s, i, Resuming(Lapsed(if s.gates[i].rid in s.store.rows then RowUndecided else RowGone)))
  }

  function AnswerOf(v: Verdict): Answer {
    match v
    case Approve => Allowed
    case Deny => DeniedByUser
    case Lapsed(how) => DeniedByTimeout(how)
  }

  // AWAITING_APPROVAL -> RUNNING, conditional on the task awaiting this very request.
  function StepResume(s: State, i: nat, fault: Fault): State {
    if i >= |s.gates| || !s.gates[i].phase.Resuming? then s
    else
      var holds := AwaitingFor(s.store.task, s.gates[i].rid);
      var lands := holds && fault in {Works, LostAfter};
      var next := if fault in {LostBefore, LostAfter} then Refused(ResumeFailed)
                  else if holds && fault == Works then AnswerOf(s.gates[i].phase.verdict)
                  else Refused(NotAwaiting);
      Goto(s, i, Answered(next)).(
           store := if lands then s.store.(task := Task(RUNNING, None)) else s.store,
           ledger := if lands then s.ledger.(resumed := s.ledger.resumed + {i}) else s.ledger)
  }

  // A user's decision commits only on a PENDING row of the request the task awaits.
  function StepDecide(s: State, rid: RequestId, approve: bool): State {
    if rid in s.store.rows && s.store.rows[rid].status == PENDING && AwaitingFor(s.store.task, rid) then
      var row := s.store.rows[rid].(status := if approve then APPROVED else DENIED);
      s.(store := s.store.(rows := s.store.rows[rid := row]),
         ledger := s.ledger.(decided := s.ledger.decided[row.writer := row.status]))
    else s
  }

  function Kill(g: Gate): Gate {
    if g.phase.Answered? then g else g.(phase := Killed)
  }

  // The new container seeds its session counter from the persisted one. Increments still in
  // flight when the old one dies never take effect.
  function StepRestart(s: State): State {
    var lost := s.ledger.lost + InFlight(s.gates);
    s.(session := s.store.count,
       gates := seq(|s.gates|, i requires 0 <= i < |s.gates| => Kill(s.gates[i])),
       ledger := s.ledger.(lost := lost, seed := s.store.count,
                           attemptedBefore := s.ledger.attempted, lostBefore := lost))
  }

  // An event whose guard does not hold changes nothing.
  function Step(s: State, e: Event): State {
    match e
    case Begin(_, _, _, _) => StepBegin(s, e)
    case Persist(i, landed) => StepPersist(s, i, landed)
    case Write(i, fault) => StepWrite(s, i, fault)
    case Read(i, ok) => StepRead(s, i, ok)
    case Deadline(i) => StepDeadline(s, i)
    case Expire(i, fault) => StepExpire(s, i, fault)
    case Reread(i, ok) => StepReread(s, i, ok)
    case Resume(i, fault) => StepResume(s, i, fault)
    case Decide(rid, approve) => StepDecide(s, rid, approve)
    case Launch =>
      if s.store.task.status == HYDRATING then s.(store := s.store.(task := s.store.task.(status := RUNNING))) else s
    case Finish(status) =>
      if Terminal(status) && !Terminal(s.store.task.status)
      then s.(store := s.store.(task := s.store.task.(status := status))) else s
    case Reap(rid) => s.(store := s.store.(rows := s.store.rows - {rid}))
    case Restart => StepRestart(s)
  }

  function Exec(s: State, events: seq<Event>): State {
    if events == [] then s else Step(Exec(s, events[..|events| - 1]), events[|events| - 1])
  }

  function Run(cap: nat, events: seq<Event>): State {
    Exec(Init(cap), events)
  }

  // ---------------------------------------------------------------- the invariant

  // From the moment its row is written until its resume, a gate holds the task.
  predicate Holding(g: Gate) {
    g.phase.Polling? || g.phase.Expiring? || g.phase.Rereading? || g.phase.Resuming?
  }

  predicate Fresh(g: Gate) {
    g.phase.Counting? || g.phase.Writing?
  }

  // The verdict a gate has settled on, whether or not its resume went through.
  function VerdictOf(g: Gate): Option<Verdict> {
    match g.phase
    case Resuming(v) => Some(v)
    case Answered(Allowed) => Some(Approve)
    case Answered(DeniedByUser) => Some(Deny)
    case Answered(DeniedByTimeout(how)) => Some(Lapsed(how))
    case _ => None
  }

  // A holding gate owns the pause: unless the task has ended it awaits this gate's request,
  // and a row under that request is this gate's own.
  ghost predicate HoldersOwn(s: State) {
    forall i :: 0 <= i < |s.gates| && Holding(s.gates[i]) ==>
      && (Terminal(s.store.task.status) || AwaitingFor(s.store.task, s.gates[i].rid))
      && (s.gates[i].rid in s.store.rows ==> s.store.rows[s.gates[i].rid].writer == i)
  }

  ghost predicate OneHolder(s: State) {
    forall i, j :: 0 <= i < j < |s.gates| ==> !(Holding(s.gates[i]) && Holding(s.gates[j]))
  }

  ghost predicate RowsMatchLedger(s: State) {
    && (forall r :: r in s.store.rows ==>
          var row := s.store.rows[r];
          && row.writer < |s.gates| && s.gates[row.writer].rid == r && !Fresh(s.gates[row.writer])
          && (row.status in {PENDING, TIMED_OUT} ==> row.writer !in s.ledger.decided)
          && (row.status in {APPROVED, DENIED} ==>
                row.writer in s.ledger.decided && s.ledger.decided[row.writer] == row.status))
    && (forall i :: i in s.ledger.decided ==>
          i < |s.gates| && !Fresh(s.gates[i]) && s.ledger.decided[i] in {APPROVED, DENIED})
  }

  // What each settled verdict says about the ledger and about the row, if the row is still there.
  ghost predicate VerdictBacked(s: State, i: nat)
    requires i < |s.gates|
  {
    match VerdictOf(s.gates[i])
    case Some(Approve) => i in s.ledger.decided && s.ledger.decided[i] == APPROVED
    case Some(Deny) => i in s.ledger.decided && s.ledger.decided[i] == DENIED
    case Some(Lapsed(Written)) =>
      i !in s.ledger.decided &&
      forall r :: r in s.store.rows && s.store.rows[r].writer == i ==> s.store.rows[r].status == TIMED_OUT
    case _ => true
  }

  ghost predicate VerdictsBacked(s: State) {
    forall i :: 0 <= i < |s.gates| ==>
      VerdictBacked(s, i) && (s.gates[i].phase == Answered(Allowed) ==> i in s.ledger.resumed)
  }

  ghost predicate Inv(s: State) {
    HoldersOwn(s) && OneHolder(s) && RowsMatchLedger(s) && VerdictsBacked(s)
  }

  // A gate that never holds the task is added.
  lemma {:induction false} AppendKeepsInv(s: State, t: State, g: Gate)
    requires Inv(s) && t.gates == s.gates + [g] && !Holding(g) && VerdictOf(g).None?
    requires t.store == s.store && t.ledger.decided == s.ledger.decided && t.ledger.resumed == s.ledger.resumed
    ensures Inv(t)
  {
    assert forall i :: 0 <= i < |s.gates| ==> t.gates[i] == s.gates[i];
    AppendKeepsRows(s, t, g);
    forall i | 0 <= i < |t.gates|
      ensures VerdictBacked(t, i) && (t.gates[i].phase == Answered(Allowed) ==> i in t.ledger.resumed)
    {
      assert i < |s.gates| ==> VerdictBacked(s, i);
    }
  }

  lemma {:induction false} AppendKeepsRows(s: State, t: State, g: Gate)
    requires RowsMatchLedger(s) && t.gates == s.gates + [g]
    requires t.store == s.store && t.ledger.decided == s.ledger.decided
    ensures RowsMatchLedger(t)
  {
  }

  // A holding gate moves on without touching the store.
  lemma {:induction false} MoveKeepsInv(s: State, i: nat, p: Phase)
    requires Inv(s) && i < |s.gates| && Holding(s.gates[i]) && Holding(s.gates[i].(phase := p))
    requires VerdictBacked(Goto(s, i, p), i)
    ensures Inv(Goto(s, i, p))
  {
    var t := Goto(s, i, p);
    forall j | 0 <= j < |t.gates|
      ensures VerdictBacked(t, j) && (t.gates[j].phase == Answered(Allowed) ==> j in t.ledger.resumed)
    {
      assert VerdictBacked(s, j);
    }
  }

  // A holding gate stops holding with an answer its verdict backs.
  lemma {:induction false} ReleaseKeepsInv(s: State, i: nat, answer: Answer)
    requires Inv(s) && i < |s.gates| && Holding(s.gates[i])
    requires answer.Refused? || VerdictOf(s.gates[i]) == VerdictOf(s.gates[i].(phase := Answered(answer)))
    requires answer == Allowed ==> i in s.ledger.resumed
    ensures Inv(Goto(s, i, Answered(answer)))
  {
    var t := Goto(s, i, Answered(answer));
    forall j | 0 <= j < |t.gates|
      ensures VerdictBacked(t, j) && (t.gates[j].phase == Answered(Allowed) ==> j in t.ledger.resumed)
    {
      assert VerdictBacked(s, j);
    }
  }

  lemma {:induction false} TimeOutKeepsInv(s: State, i: nat)
    requires Inv(s) && At(s, i, Expiring)
    requires s.gates[i].rid in s.store.rows && s.store.rows[s.gates[i].rid].status == PENDING
    ensures Inv(s.(store := s.store.(rows := s.store.rows[s.gates[i].rid := Row(TIMED_OUT, i)])))
    ensures s.store.rows[s.gates[i].rid].writer == i && i !in s.ledger.decided
  {
    assert forall j :: 0 <= j < |s.gates| ==> VerdictBacked(s, j);
  }

  lemma {:induction false} BeginKeepsInv(s: State, e: Event)
    requires Inv(s) && e.Begin?
    ensures Inv(StepBegin(s, e))
  {
    var t := StepBegin(s, e);
    AppendKeepsInv(s, t, t.gates[|s.gates|]);
  }

  lemma {:induction false} PersistKeepsInv(s: State, i: nat, landed: nat)
    requires Inv(s)
    ensures Inv(StepPersist(s, i, landed))
  {
  }

  // A gate that leaves Writing without a row of its own.
  lemma {:induction false} RefuseKeepsInv(s: State, i: nat, why: Refusal)
    requires Inv(s) && At(s, i, Writing)
    ensures Inv(Goto(s, i, Answered(Refused(why))))
  {
  }

  lemma {:induction false} PauseKeepsInv(s: State, i: nat, next: Phase)
    requires Inv(s) && At(s, i, Writing) && s.gates[i].rid !in s.store.rows && s.store.task.status == RUNNING
    requires next == Polling(0) || next == Answered(Refused(WriteFailed))
    ensures Inv(Goto(s, i, next).(store := s.store.(rows := s.store.rows[s.gates[i].rid := Row(PENDING, i)],
                                                    task := Task(AWAITING_APPROVAL, Some(s.gates[i].rid)))))
  {
    assert forall j :: 0 <= j < |s.gates| ==> !Holding(s.gates[j]);
    assert forall j :: 0 <= j < |s.gates| && j != i ==> VerdictBacked(s, j);
    assert i !in s.ledger.decided && forall r :: r in s.store.rows ==> s.store.rows[r].writer != i;
  }

  lemma {:induction false} WriteKeepsInv(s: State, i: nat, fault: Fault)
    requires Inv(s)
    ensures Inv(StepWrite(s, i, fault))
  {
    if At(s, i, Writing) {
      var t := StepWrite(s, i, fault);
      if t.store == s.store {
        RefuseKeepsInv(s, i, t.gates[i].phase.answer.why);
      } else {
        PauseKeepsInv(s, i, t.gates[i].phase);
      }
    }
  }

  lemma {:induction false} ReadKeepsInv(s: State, i: nat, ok: bool)
    requires Inv(s)
    ensures Inv(StepRead(s, i, ok))
  {
    if i < |s.gates| && s.gates[i].phase.Polling? {
      assert VerdictBacked(StepRead(s, i, ok), i);
      MoveKeepsInv(s, i, StepRead(s, i, ok).gates[i].phase);
    }
  }

  lemma {:induction false} DeadlineKeepsInv(s: State, i: nat)
    requires Inv(s)
    ensures Inv(StepDeadline(s, i))
  {
    if i < |s.gates| && s.gates[i].phase.Polling? {
      MoveKeepsInv(s, i, Expiring);
    }
  }

  lemma {:induction false} ExpireKeepsInv(s: State, i: nat, fault: Fault)
    requires Inv(s)
    ensures Inv(StepExpire(s, i, fault))
  {
    if At(s, i, Expiring) {
      var t := StepExpire(s, i, fault);
      if t.store == s.store {
        MoveKeepsInv(s, i, Rereading);
      } else {
        TimeOutKeepsInv(s, i);
        var mid := s.(store := t.store);
        assert mid.store.rows == s.store.rows[s.gates[i].rid := Row(TIMED_OUT, i)];
        MoveKeepsInv(mid, i, t.gates[i].phase);
      }
    }
  }

  lemma {:induction false} RereadKeepsInv(s: State, i: nat, ok: bool)
    requires Inv(s)
    ensures Inv(StepReread(s, i, ok))
  {
    if At(s, i, Rereading) {
      assert VerdictBacked(StepReread(s, i, ok), i);
      MoveKeepsInv(s, i, StepReread(s, i, ok).gates[i].phase);
    }
  }

  lemma {:induction false} UnpauseKeepsInv(s: State, task: Task)
    requires Inv(s) && forall j :: 0 <= j < |s.gates| ==> !Holding(s.gates[j])
    ensures Inv(s.(store := s.store.(task := task)))
  {
    assert forall j :: 0 <= j < |s.gates| ==> VerdictBacked(s, j);
  }

  lemma {:induction false} ResumeKeepsInv(s: State, i: nat, fault: Fault)
    requires Inv(s)
    ensures Inv(StepResume(s, i, fault))
  {
    if i < |s.gates| && s.gates[i].phase.Resuming? {
      var t := StepResume(s, i, fault);
      if t.store == s.store {
        ReleaseKeepsInv(s, i, t.gates[i].phase.answer);
      } else {
        var mid := s.(ledger := t.ledger);
        assert forall j :: 0 <= j < |s.gates| ==> VerdictBacked(mid, j) == VerdictBacked(s, j);
        ReleaseKeepsInv(mid, i, t.gates[i].phase.answer);
        UnpauseKeepsInv(Goto(mid, i, t.gates[i].phase), t.store.task);
      }
    }
  }

  lemma {:induction false} DecideKeepsInv(s: State, rid: RequestId, approve: bool)
    requires Inv(s)
    ensures Inv(StepDecide(s, rid, approve))
  {
    if rid in s.store.rows && s.store.rows[rid].status == PENDING && AwaitingFor(s.store.task, rid) {
      var t, w := StepDecide(s, rid, approve), s.store.rows[rid].writer;
      assert RowsMatchLedger(t);
      forall j | 0 <= j < |t.gates|
        ensures VerdictBacked(t, j)
      {
        assert VerdictBacked(s, j);
      }
    }
  }

  lemma {:induction false} RestartKeepsInv(s: State)
    requires Inv(s)
    ensures Inv(StepRestart(s))
  {
  }

  lemma {:induction false} StepKeepsInv(s: State, e: Event)
    requires Inv(s)
    ensures Inv(Step(s, e))
  {
    match e {
      case Begin(_, _, _, _) => BeginKeepsInv(s, e);
      case Persist(i, landed) => PersistKeepsInv(s, i, landed);
      case Write(i, fault) => WriteKeepsInv(s, i, fault);
      case Read(i, ok) => ReadKeepsInv(s, i, ok);
      case Deadline(i) => DeadlineKeepsInv(s, i);
      case Expire(i, fault) => ExpireKeepsInv(s, i, fault);
      case Reread(i, ok) => RereadKeepsInv(s, i, ok);
      case Resume(i, fault) => ResumeKeepsInv(s, i, fault);
      case Decide(rid, approve) => DecideKeepsInv(s, rid, approve);
      case Launch =>
      case Finish(_) =>
      case Reap(_) =>
      case Restart => RestartKeepsInv(s);
    }
  }

  lemma {:induction false} ExecKeepsInv(s: State, events: seq<Event>)
    requires Inv(s)
    ensures Inv(Exec(s, events))
  {
    if events != [] {
      ExecKeepsInv(s, events[..|events| - 1]);
      StepKeepsInv(Exec(s, events[..|events| - 1]), events[|events| - 1]);
    }
  }

  // ---------------------------------------------------------------- what the events of a run did

  // This event is a user's decision on gate i, and it commits: the row is this gate's and still
  // PENDING, and the task waits for it.
  predicate DecidesAt(s: State, e: Event, i: nat, approve: bool) {
    && i < |s.gates| && e == Decide(s.gates[i].rid, approve) && AwaitingFor(s.store.task, s.gates[i].rid)
    && s.gates[i].rid in s.store.rows && s.store.rows[s.gates[i].rid] == Row(PENDING, i)
  }

  // This event is gate i's re-read and it cannot see a decision: it fails, the row is gone, or the
  // row does not carry one.
  predicate OverlooksAt(s: State, e: Event, i: nat) {
    && e.Reread? && e.gate == i && At(s, i, Rereading)
    && (!e.ok || s.gates[i].rid !in s.store.rows || s.store.rows[s.gates[i].rid].status !in {APPROVED, DENIED})
  }

  // This event is gate i's resume; it takes effect and reports so.
  predicate ResumesAt(s: State, e: Event, i: nat) {
    e == Resume(i, Works) && i < |s.gates| && s.gates[i].phase.Resuming? && AwaitingFor(s.store.task, s.gates[i].rid)
  }

  ghost predicate Decided(cap: nat, events: seq<Event>, i: nat, approve: bool) {
    exists k :: 0 <= k < |events| && DecidesAt(Run(cap, events[..k]), events[k], i, approve)
  }

  ghost predicate Overlooked(cap: nat, events: seq<Event>, i: nat) {
    exists k :: 0 <= k < |events| && OverlooksAt(Run(cap, events[..k]), events[k], i)
  }

  ghost predicate Resumed(cap: nat, events: seq<Event>, i: nat) {
    exists k :: 0 <= k < |events| && ResumesAt(Run(cap, events[..k]), events[k], i)
  }

  // What a gate's phase tells about its past.
  predicate Recalls(s: State, i: nat, overlooked: bool, resumed: bool) {
    if i >= |s.gates| then !overlooked && !resumed
    else match s.gates[i].phase
      case Resuming(v) => !resumed && (overlooked <==> v.Lapsed? && v.how != Written)
      case Answered(Refused(_)) => !resumed
      case Answered(DeniedByTimeout(how)) => resumed && (overlooked <==> how != Written)
      case Answered(_) => resumed && !overlooked
      case Killed => !resumed
      case _ => !overlooked && !resumed
  }

  lemma {:induction false} StepRecalls(s: State, e: Event, i: nat, overlooked: bool, resumed: bool)
    requires Inv(s) && Recalls(s, i, overlooked, resumed)
    ensures Recalls(Step(s, e), i, overlooked || OverlooksAt(s, e, i), resumed || ResumesAt(s, e, i))
  {
    match e {
      case Reread(_, _) => RereadRecalls(s, e, i, overlooked, resumed);
      case Resume(_, _) =>
      case _ => OtherRecalls(s, e, i, overlooked, resumed);
    }
  }

  lemma {:induction false} RereadRecalls(s: State, e: Event, i: nat, overlooked: bool, resumed: bool)
    requires e.Reread? && Recalls(s, i, overlooked, resumed)
    ensures Recalls(Step(s, e), i, overlooked || OverlooksAt(s, e, i), resumed)
  {
  }

  lemma {:induction false} OtherRecalls(s: State, e: Event, i: nat, overlooked: bool, resumed: bool)
    requires !e.Reread? && !e.Resume? && Recalls(s, i, overlooked, resumed)
    ensures Recalls(Step(s, e), i, overlooked, resumed)
  {
    if e.Restart? && i < |s.gates| {
      assert Step(s, e).gates[i] == Kill(s.gates[i]);
    }
  }

  lemma {:induction false} PastGrows(cap: nat, events: seq<Event>, i: nat)
    requires events != []
    ensures var front, e := events[..|events| - 1], events[|events| - 1];
            && (forall approve :: Decided(cap, events, i, approve) <==>
                  Decided(cap, front, i, approve) || DecidesAt(Run(cap, front), e, i, approve))
            && (Overlooked(cap, events, i) <==> Overlooked(cap, front, i) || OverlooksAt(Run(cap, front), e, i))
            && (Resumed(cap, events, i) <==> Resumed(cap, front, i) || ResumesAt(Run(cap, front), e, i))
  {
    hide Run, DecidesAt, OverlooksAt, ResumesAt;
    var n := |events| - 1;
    var front := events[..n];
    assert forall k :: 0 <= k < n ==> front[..k] == events[..k] && front[k] == events[k];
    forall approve | Decided(cap, front, i, approve) ensures Decided(cap, events, i, approve) {
      var k :| 0 <= k < n && DecidesAt(Run(cap, front[..k]), front[k], i, approve);
      assert DecidesAt(Run(cap, events[..k]), events[k], i, approve);
    }
    if Overlooked(cap, front, i) {
      var k :| 0 <= k < n && OverlooksAt(Run(cap, front[..k]), front[k], i);
      assert OverlooksAt(Run(cap, events[..k]), events[k], i);
    }
    if Resumed(cap, front, i) {
      var k :| 0 <= k < n && ResumesAt(Run(cap, front[..k]), front[k], i);
      assert ResumesAt(Run(cap, events[..k]), events[k], i);
    }
  }

  lemma {:induction false} RunRecalls(cap: nat, events: seq<Event>, i: nat)
    ensures Recalls(Run(cap, events), i, Overlooked(cap, events, i), Resumed(cap, events, i))
  {
    hide Step, OverlooksAt, ResumesAt;
    if events != [] {
      var front, e := events[..|events| - 1], events[|events| - 1];
      RunRecalls(cap, front, i);
      ExecKeepsInv(Init(cap), front);
      PastGrows(cap, events, i);
      StepRecalls(Run(cap, front), e, i, Overlooked(cap, front, i), Resumed(cap, front, i));
    }
  }

  function StatusFor(approve: bool): RowStatus {
    if approve then APPROVED else DENIED
  }

  // The recorded decisions are exactly the users' decisions that committed, each as it was made.
  lemma {:induction false} StepDecides(s: State, e: Event, i: nat, approve: bool)
    requires Inv(s)
    ensures (i in Step(s, e).ledger.decided && Step(s, e).ledger.decided[i] == StatusFor(approve)) <==>
            (i in s.ledger.decided && s.ledger.decided[i] == StatusFor(approve)) || DecidesAt(s, e, i, approve)
  {
  }

  lemma {:induction false} DecisionsAreEvents(cap: nat, events: seq<Event>, i: nat, approve: bool)
    ensures var s := Run(cap, events);
            i in s.ledger.decided && s.ledger.decided[i] == StatusFor(approve) <==> Decided(cap, events, i, approve)
  {
    hide Step, DecidesAt, StatusFor, Decided;
    if events == [] {
      NothingDecided(cap, i, approve);
    } else {
      var front, e := events[..|events| - 1], events[|events| - 1];
      DecisionsAreEvents(cap, front, i, approve);
      ExecKeepsInv(Init(cap), front);
      PastGrows(cap, events, i);
      StepDecides(Run(cap, front), e, i, approve);
    }
  }

  lemma {:induction false} NothingDecided(cap: nat, i: nat, approve: bool)
    ensures !Decided(cap, [], i, approve)
  {
  }

  // ---------------------------------------------------------------- safety over every run

  // A tool call is let through only if a user approved this very gate, by a decision that committed
  // while its row was PENDING, and only after this gate's own resume took effect. A denial is blamed
  // on the user only if the user denied, a timeout is written only if nobody decided. If the row is
  // still there it says the same.
  lemma {:induction false} AnswersAreBacked(cap: nat, events: seq<Event>, i: nat)
    requires i < |Run(cap, events).gates|
    ensures var s := Run(cap, events);
            match s.gates[i].phase
            case Answered(Allowed) =>
              Decided(cap, events, i, true) && Resumed(cap, events, i) &&
              forall r :: r in s.store.rows && s.store.rows[r].writer == i ==> s.store.rows[r].status == APPROVED
            case Answered(DeniedByUser) =>
              Decided(cap, events, i, false) && Resumed(cap, events, i) &&
              forall r :: r in s.store.rows && s.store.rows[r].writer == i ==> s.store.rows[r].status == DENIED
            case Answered(DeniedByTimeout(Written)) =>
              !Decided(cap, events, i, true) && !Decided(cap, events, i, false) && Resumed(cap, events, i) &&
              forall r :: r in s.store.rows && s.store.rows[r].writer == i ==> s.store.rows[r].status == TIMED_OUT
            case _ => true
  {
    hide Decided, Resumed, Overlooked;
    ExecKeepsInv(Init(cap), events);
    RunRecalls(cap, events, i);
    DecisionsAreEvents(cap, events, i, true);
    DecisionsAreEvents(cap, events, i, false);
    assert VerdictBacked(Run(cap, events), i);
  }

  // However many gates and containers race, at most one gate holds the task at any time.
  lemma {:induction false} AtMostOneHolder(cap: nat, events: seq<Event>, i: nat, j: nat)
    requires i < |Run(cap, events).gates| && j < |Run(cap, events).gates|
    requires Holding(Run(cap, events).gates[i]) && Holding(Run(cap, events).gates[j])
    ensures i == j
  {
    ExecKeepsInv(Init(cap), events);
  }

  predicate NotAllowed(s: State, i: nat) {
    i < |s.gates| ==> s.gates[i].phase != Answered(Allowed)
  }

  // Once the task has ended (a cancel, say), no gate that has not answered yet is ever allowed,
  // whatever happens next.
  lemma {:induction false} EndedTaskAllowsNothing(s: State, after: seq<Event>, i: nat)
    requires Terminal(s.store.task.status) && NotAllowed(s, i)
    ensures Terminal(Exec(s, after).store.task.status) && NotAllowed(Exec(s, after), i)
  {
    if after != [] {
      EndedTaskAllowsNothing(s, after[..|after| - 1], i);
      StepKeepsEnded(Exec(s, after[..|after| - 1]), after[|after| - 1], i);
    }
  }

  lemma {:induction false} StepKeepsEnded(s: State, e: Event, i: nat)
    requires Terminal(s.store.task.status) && NotAllowed(s, i)
    ensures Terminal(Step(s, e).store.task.status) && NotAllowed(Step(s, e), i)
  {
  }

  lemma {:induction false} CancelBeforeResumeDenies(cap: nat, before: seq<Event>, after: seq<Event>, i: nat)
    requires NotAllowed(Run(cap, before), i)
    requires !Terminal(Run(cap, before).store.task.status)
    ensures NotAllowed(Exec(Step(Run(cap, before), Finish(CANCELLED)), after), i)
  {
    EndedTaskAllowsNothing(Step(Run(cap, before), Finish(CANCELLED)), after, i);
  }

  // A gate whose row carries a committed decision, on its way to or at its answer.
  ghost predicate Heard(s: State, i: nat, decision: RowStatus) {
    && i < |s.gates| && i in s.ledger.decided && s.ledger.decided[i] == decision
    && match VerdictOf(s.gates[i])
       case Some(Approve) => decision == APPROVED
       case Some(Deny) => decision == DENIED
       case Some(Lapsed(how)) => how in {RereadFailed, RowGone}
       case None => true
  }

  // A committed decision is never rewritten, and while its gate holds the task the row, if it is
  // still there, shows it.
  lemma {:induction false} DecisionStands(s: State, e: Event, i: nat)
    requires RowsMatchLedger(s) && i in s.ledger.decided
    ensures i in Step(s, e).ledger.decided && Step(s, e).ledger.decided[i] == s.ledger.decided[i]
  {
  }

  lemma {:induction false} RowShowsDecision(s: State, i: nat)
    requires Inv(s) && i in s.ledger.decided && Holding(s.gates[i]) && s.gates[i].rid in s.store.rows
    ensures s.store.rows[s.gates[i].rid].status == s.ledger.decided[i]
  {
  }

  lemma {:induction false} StepHears(s: State, e: Event, i: nat, decision: RowStatus)
    requires Inv(s) && Heard(s, i, decision)
    ensures Heard(Step(s, e), i, decision)
  {
    DecisionStands(s, e, i);
    if Holding(s.gates[i]) && s.gates[i].rid in s.store.rows {
      RowShowsDecision(s, i);
    }
    VerdictHeard(s, e, i, decision);
  }

  lemma {:induction false} VerdictHeard(s: State, e: Event, i: nat, decision: RowStatus)
    requires Heard(s, i, decision) && decision in {APPROVED, DENIED}
    requires Holding(s.gates[i]) && s.gates[i].rid in s.store.rows ==> s.store.rows[s.gates[i].rid].status == decision
    requires i in Step(s, e).ledger.decided && Step(s, e).ledger.decided[i] == decision
    ensures Heard(Step(s, e), i, decision)
  {
    if e.Restart? {
      assert Step(s, e).gates[i] == Kill(s.gates[i]);
    }
  }

  // A decision that commits before the gate has settled, so in particular one in the last sleep of
  // the poll or during the TIMED_OUT write, becomes the verdict, unless the consistent re-read
  // failed or TTL had removed the row.
  lemma {:induction false} DecisionBeforeRereadIsHeard(cap: nat, before: seq<Event>, after: seq<Event>, i: nat)
    requires var s := Run(cap, before);
             && i < |s.gates| && i in s.ledger.decided
             && (s.gates[i].phase.Polling? || s.gates[i].phase.Expiring? || s.gates[i].phase.Rereading?)
    ensures Heard(Exec(Run(cap, before), after), i, Run(cap, before).ledger.decided[i])
  {
    ExecKeepsInv(Init(cap), before);
    if after != [] {
      DecisionBeforeRereadIsHeard(cap, before, after[..|after| - 1], i);
      ExecKeepsInv(Run(cap, before), after[..|after| - 1]);
      StepHears(Exec(Run(cap, before), after[..|after| - 1]), after[|after| - 1], i,
                Run(cap, before).ledger.decided[i]);
    }
  }

  lemma {:induction false} ExecSnoc(s: State, events: seq<Event>, e: Event)
    ensures Exec(s, events + [e]) == Step(Exec(s, events), e)
  {
    assert (events + [e])[..|events|] == events;
  }

  lemma {:induction false} Exec4(s: State, a: Event, b: Event, c: Event, d: Event)
    ensures Exec(s, [a, b, c, d]) == Step(Step(Step(Step(s, a), b), c), d)
  {
    assert [a, b, c, d][..3] == [a, b, c] && [a, b, c][..2] == [a, b] && [a, b][..1] == [a] && [a][..0] == [];
    assert Exec(s, [a]) == Step(s, a);
    assert Exec(s, [a, b]) == Step(Exec(s, [a]), b);
    assert Exec(s, [a, b, c]) == Step(Exec(s, [a, b]), c);
  }

  // ---------------------------------------------------------------- when a decision counts

  function VerdictFor(decision: RowStatus): Verdict
    requires decision in {APPROVED, DENIED}
  {
    if decision == APPROVED then Approve else Deny
  }

  // The re-read of a decided gate settles on the decision exactly when it works and finds the row.
  lemma {:induction false} RereadHears(s: State, i: nat, ok: bool)
    requires Inv(s) && At(s, i, Rereading) && i in s.ledger.decided
    ensures s.ledger.decided[i] in {APPROVED, DENIED}
    ensures Step(s, Reread(i, ok)).gates[i].phase == Resuming(VerdictFor(s.ledger.decided[i]))
            <==> ok && s.gates[i].rid in s.store.rows
  {
    if s.gates[i].rid in s.store.rows {
      RowShowsDecision(s, i);
    }
  }

  // What becomes of a user's decision, over every run. The gate answers with it if and only if its
  // resume went through and no re-read overlooked it; it answers with a timeout if and only if its
  // resume went through and its re-read failed, found no row, or came before the decision; it
  // answers that the approval system failed if and only if its resume did not go through.
  lemma {:induction false} DecisionIsHeard(cap: nat, events: seq<Event>, i: nat, approve: bool)
    requires Decided(cap, events, i, approve)
    requires i < |Run(cap, events).gates| && Run(cap, events).gates[i].phase.Answered?
    ensures var answer := Run(cap, events).gates[i].phase.answer;
            && (answer == (if approve then Allowed else DeniedByUser) <==>
                Resumed(cap, events, i) && !Overlooked(cap, events, i))
            && (answer.DeniedByTimeout? <==> Resumed(cap, events, i) && Overlooked(cap, events, i))
            && (answer.Refused? <==> !Resumed(cap, events, i))
  {
    hide Decided, Overlooked, Resumed;
    ExecKeepsInv(Init(cap), events);
    RunRecalls(cap, events, i);
    DecisionsAreEvents(cap, events, i, approve);
    assert VerdictBacked(Run(cap, events), i);
  }

  // Approvals are really lost that way: from any gate at the end of its poll, one that commits
  // while the TIMED_OUT write is failing is refused over an APPROVED row if the re-read fails too,
  // and so is one that commits just after a re-read that works.
  lemma {:induction false} ApprovalCanBeLost(s: State, i: nat)
    requires At(s, i, Expiring) && AwaitingFor(s.store.task, s.gates[i].rid)
    requires s.gates[i].rid in s.store.rows && s.store.rows[s.gates[i].rid] == Row(PENDING, i)
    ensures var rid := s.gates[i].rid;
            var t := Exec(s, [Expire(i, LostBefore), Decide(rid, true), Reread(i, false), Resume(i, Works)]);
            && At(t, i, Answered(DeniedByTimeout(RereadFailed)))
            && rid in t.store.rows && t.store.rows[rid] == Row(APPROVED, i)
    ensures var rid := s.gates[i].rid;
            var t := Exec(s, [Expire(i, LostBefore), Reread(i, true), Decide(rid, true), Resume(i, Works)]);
            && At(t, i, Answered(DeniedByTimeout(RowUndecided)))
            && rid in t.store.rows && t.store.rows[rid] == Row(APPROVED, i)
  {
    var rid := s.gates[i].rid;
    Exec4(s, Expire(i, LostBefore), Decide(rid, true), Reread(i, false), Resume(i, Works));
    Exec4(s, Expire(i, LostBefore), Reread(i, true), Decide(rid, true), Resume(i, Works));
  }

  // Such a gate is reached by a run in which nothing fails.
  lemma {:induction false} PollEndIsReachable(rid: RequestId)
    ensures var begun := Run(1, [Launch, Begin(rid, true, true, true), Persist(0, 1), Write(0, Works)]);
            var s := Exec(begun, [Deadline(0)]);
            && At(s, 0, Expiring) && s.gates[0].rid == rid && AwaitingFor(s.store.task, rid)
            && rid in s.store.rows && s.store.rows[rid] == Row(PENDING, 0)
  {
    Exec4(Init(1), Launch, Begin(rid, true, true, true), Persist(0, 1), Write(0, Works));
    var s := Run(1, [Launch, Begin(rid, true, true, true), Persist(0, 1), Write(0, Works)]);
    assert [Deadline(0)][..0] == [] && Exec(s, []) == s;
  }

  // Conversely an approval that is still readable, while the task is still paused for it, lets
  // the call through as soon as one read and the resume work.
  lemma {:induction false} ApprovalGoesThrough(s: State, i: nat)
    requires i < |s.gates| && s.gates[i].phase.Polling? && AwaitingFor(s.store.task, s.gates[i].rid)
    requires s.gates[i].rid in s.store.rows && s.store.rows[s.gates[i].rid].status == APPROVED
    ensures var t := Exec(s, [Read(i, true), Resume(i, Works)]);
            At(t, i, Answered(Allowed)) && t.store.task == Task(RUNNING, None)
  {
    ExecSnoc(s, [], Read(i, true));
    ExecSnoc(s, [Read(i, true)], Resume(i, Works));
    assert [] + [Read(i, true)] == [Read(i, true)];
    assert [Read(i, true)] + [Resume(i, Works)] == [Read(i, true), Resume(i, Works)];
  }

  // Answers are final, and each gate gives one: no approval is spent twice.
  lemma {:induction false} AnswersAreFinal(s: State, after: seq<Event>, i: nat)
    requires i < |s.gates| && s.gates[i].phase.Answered?
    ensures i < |Exec(s, after).gates| && Exec(s, after).gates[i] == s.gates[i]
  {
    if after != [] {
      AnswersAreFinal(s, after[..|after| - 1], i);
      StepKeepsAnswer(Exec(s, after[..|after| - 1]), after[|after| - 1], i);
    }
  }

  lemma {:induction false} StepKeepsAnswer(s: State, e: Event, i: nat)
    requires i < |s.gates| && s.gates[i].phase.Answered?
    ensures i < |Step(s, e).gates| && Step(s, e).gates[i] == s.gates[i]
  {
  }

  // ---------------------------------------------------------------- stranded tasks

  // The task waits for an approval that no gate will ever act on.
  ghost predicate Stranded(s: State) {
    s.store.task.status == AWAITING_APPROVAL && forall i :: 0 <= i < |s.gates| ==> !Holding(s.gates[i])
  }

  // A stranded task lets nothing through for the rest of its life: it stays stranded, over any
  // number of further gates, decisions and restarts, until something ends it.
  lemma {:induction false} StrandedForGood(s: State, after: seq<Event>, i: nat)
    requires Stranded(s) && NotAllowed(s, i)
    ensures Stranded(Exec(s, after)) || Terminal(Exec(s, after).store.task.status)
    ensures NotAllowed(Exec(s, after), i)
  {
    if after != [] {
      var t := Exec(s, after[..|after| - 1]);
      StrandedForGood(s, after[..|after| - 1], i);
      if Stranded(t) {
        StepKeepsStranded(t, after[|after| - 1], i);
      } else {
        StepKeepsEnded(t, after[|after| - 1], i);
      }
    }
  }

  lemma {:induction false} StepKeepsStranded(s: State, e: Event, i: nat)
    requires Stranded(s) && NotAllowed(s, i)
    ensures (Stranded(Step(s, e)) || Terminal(Step(s, e).store.task.status)) && NotAllowed(Step(s, e), i)
  {
    if e.Restart? {
      assert forall j :: 0 <= j < |s.gates| ==> Step(s, e).gates[j] == Kill(s.gates[j]);
    }
  }

  // What strands a task: the write landed but reported an error, or the resume did not land
  // while it could have, or the container died inside the gate. Nothing else does.
  ghost predicate Strands(s: State, e: Event) {
    match e
    case Write(i, fault) =>
      At(s, i, Writing) && s.gates[i].rid !in s.store.rows && s.store.task.status == RUNNING && fault == LostAfter
    case Resume(i, fault) =>
      i < |s.gates| && s.gates[i].phase.Resuming? && AwaitingFor(s.store.task, s.gates[i].rid) &&
      fault in {Rejected, LostBefore}
    case Restart => s.store.task.status == AWAITING_APPROVAL
    case _ => false
  }

  lemma {:induction false} StrandedExactlyBy(s: State, e: Event)
    requires Inv(s) && !Stranded(s)
    ensures Stranded(Step(s, e)) <==> Strands(s, e)
  {
    if s.store.task.status == AWAITING_APPROVAL {
      var h :| 0 <= h < |s.gates| && Holding(s.gates[h]);
      PausedStrandedBy(s, e, h);
    } else {
      UnpausedStrandedBy(s, e);
    }
  }

  lemma {:induction false} PausedStrandedBy(s: State, e: Event, h: nat)
    requires s.store.task.status == AWAITING_APPROVAL && h < |s.gates| && Holding(s.gates[h])
    requires HoldersOwn(s) && OneHolder(s)
    ensures Stranded(Step(s, e)) <==> Strands(s, e)
  {
    var t := Step(s, e);
    if e.Restart? {
      assert forall j :: 0 <= j < |s.gates| ==> t.gates[j] == Kill(s.gates[j]);
    } else if e.Resume? && e.gate == h {
      assert forall j :: 0 <= j < |s.gates| && j != h ==> !Holding(s.gates[j]) && t.gates[j] == s.gates[j];
    } else {
      assert Holding(t.gates[h]);
    }
  }

  lemma {:induction false} UnpausedStrandedBy(s: State, e: Event)
    requires s.store.task.status != AWAITING_APPROVAL && HoldersOwn(s)
    ensures Stranded(Step(s, e)) <==> Strands(s, e)
  {
    var t := Step(s, e);
    if e.Write? && t.store != s.store {
      assert forall j :: 0 <= j < |s.gates| ==> !Holding(s.gates[j]);
      assert e.fault == Works ==> Holding(t.gates[e.gate]);
    } else {
      assert t.store.task.status != AWAITING_APPROVAL;
    }
  }

  // ---------------------------------------------------------------- the gate budget

  ghost predicate Budgeted(s: State) {
    var l := s.ledger;
    && l.attemptedBefore <= l.seed + l.lostBefore
    && l.lostBefore <= l.lost
    && s.session == l.seed + (l.attempted - l.attemptedBefore)
    && l.attemptedBefore <= l.attempted <= s.store.count + l.lost + InFlight(s.gates)
    && l.attempted <= s.cap + l.lost
  }

  lemma {:induction false} InFlightUpdate(gates: seq<Gate>, i: nat, g: Gate)
    requires i < |gates|
    ensures InFlight(gates[i := g]) == InFlight(gates)
            - (if gates[i].phase == Counting then 1 else 0) + (if g.phase == Counting then 1 else 0)
  {
    var n := |gates| - 1;
    if i == n {
      assert gates[i := g][..n] == gates[..n];
    } else {
      InFlightUpdate(gates[..n], i, g);
      assert gates[i := g][..n] == gates[..n][i := g];
    }
  }

  lemma {:induction false} NoneInFlight(gates: seq<Gate>)
    requires forall i :: 0 <= i < |gates| ==> gates[i].phase != Counting
    ensures InFlight(gates) == 0
  {
    if gates != [] {
      NoneInFlight(gates[..|gates| - 1]);
    }
  }

  lemma {:induction false} OthersKeepInFlight(s: State, e: Event)
    requires !e.Begin? && !e.Persist? && !e.Restart?
    ensures var t := Step(s, e);
            && InFlight(t.gates) == InFlight(s.gates) && t.store.count == s.store.count
            && t.session == s.session && t.cap == s.cap
            && t.ledger == s.ledger.(decided := t.ledger.decided, resumed := t.ledger.resumed)
  {
    var t := Step(s, e);
    if (e.Write? || e.Read? || e.Deadline? || e.Expire? || e.Reread? || e.Resume?) && e.gate < |s.gates| {
      InFlightUpdate(s.gates, e.gate, t.gates[e.gate]);
    }
  }

  lemma {:induction false} StepKeepsBudget(s: State, e: Event)
    requires Budgeted(s)
    ensures Budgeted(Step(s, e))
  {
    var t := Step(s, e);
    match e {
      case Begin(_, _, _, _) =>
        assert t.gates[..|s.gates|] == s.gates;
      case Persist(i, _) =>
        if At(s, i, Counting) {
          InFlightUpdate(s.gates, i, t.gates[i]);
        }
      case Restart =>
        NoneInFlight(t.gates);
      case _ =>
        OthersKeepInFlight(s, e);
    }
  }

  // A gate that gets past the checks is attempted.
  predicate AttemptsAt(s: State, e: Event) {
    e.Begin? && e.hasTask && s.session < s.cap && e.rateOk && e.lifetimeOk
  }

  // Increments of the persisted counter that this event loses.
  function LosesAt(s: State, e: Event): nat {
    if e.Persist? && At(s, e.gate, Counting) && e.landed == 0 then 1
    else if e.Restart? then InFlight(s.gates)
    else 0
  }

  function Attempts(cap: nat, events: seq<Event>): nat {
    if events == [] then 0
    else
      var front, e := events[..|events| - 1], events[|events| - 1];
      Attempts(cap, front) + if AttemptsAt(Run(cap, front), e) then 1 else 0
  }

  function Losses(cap: nat, events: seq<Event>): nat {
    if events == [] then 0
    else
      var front, e := events[..|events| - 1], events[|events| - 1];
      Losses(cap, front) + LosesAt(Run(cap, front), e)
  }

  // Across any number of restarts the gates attempted never exceed the cap by more than the
  // increments of the persisted counter that did not take effect.
  lemma {:induction false} GateBudget(cap: nat, events: seq<Event>)
    ensures Budgeted(Run(cap, events)) && Run(cap, events).cap == cap
    ensures Run(cap, events).ledger.attempted == Attempts(cap, events)
    ensures Run(cap, events).ledger.lost == Losses(cap, events)
    ensures Attempts(cap, events) <= cap + Losses(cap, events)
  {
    if events != [] {
      var front, e := events[..|events| - 1], events[|events| - 1];
      GateBudget(cap, front);
      StepKeepsBudget(Run(cap, front), e);
      StepCounts(Run(cap, front), e);
    }
  }

  lemma {:induction false} StepCounts(s: State, e: Event)
    ensures Step(s, e).ledger.attempted == s.ledger.attempted + if AttemptsAt(s, e) then 1 else 0
    ensures Step(s, e).ledger.lost == s.ledger.lost + LosesAt(s, e)
    ensures Step(s, e).cap == s.cap
  {
    if !e.Begin? && !e.Persist? && !e.Restart? {
      OthersKeepInFlight(s, e);
    }
  }
}
