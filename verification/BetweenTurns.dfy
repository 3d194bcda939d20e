// What happens between two turns of the agent: the Stop hook runs the registered hooks, cancel
// first, and turns what they produce into the next user message (agent/src/hooks.py,
// agent/src/nudge_reader.py).
module BetweenTurns {
  import opened NudgeText
  import opened Wrappers
  import Engine = PolicyEngine
  import Reader = NudgeReader
  import opened TextOrder

  // A nudge's key in the nudges table.
  type Key = (string, string)

  datatype Hook = CANCEL | STUCK | NUDGES | DENIALS

  const BETWEEN_TURNS_HOOKS := [CANCEL, STUCK, NUDGES, DENIALS]

  // How the conditional update of one nudge ends: it works, or it raises before or after
  // taking effect.
  datatype Fault = Works | LostBefore | LostAfter

  // What one call of the Stop hook meets: whether the task record was read and says CANCELLED,
  // the steer the stuck guard gives, the table's answers to the query for unconsumed nudges (none
  // if no table is configured), how each update ends.
  datatype Turn = Turn(task: string, cancelled: bool, steer: Option<string>, answers: seq<Reader.Reply>,
                       faults: map<string, Fault>, hasEngine: bool)

  datatype Reply = Halt | AllowStop | Continue(reason: string)

  // The nudges read.
  function PendingOf(turn: Turn): seq<Nudge> {
    Reader.Pending(turn.answers)
  }

  function FaultOf(turn: Turn, id: string): Fault {
    if id in turn.faults then turn.faults[id] else Works
  }

  // ---------------------------------------------------------------- state and hooks

  // The process's memory of injected nudges per task, the engine's denial queue, and the nudges
  // table (is this nudge consumed?).
  datatype Memory = Memory(injected: map<string, set<string>>, queue: seq<Engine.Denial>, rows: map<Key, bool>)

  // A call in progress: what it changed, whether it saw the cancel, and what it produced.
  datatype Progress = Progress(m: Memory, cancel: bool, chunks: seq<string>, nudges: seq<Nudge>,
                               denials: seq<Engine.Denial>)

  function InjectedIn(injected: map<string, set<string>>, task: string): set<string> {
    if task in injected then injected[task] else {}
  }

  function Unseen(pending: seq<Nudge>, already: set<string>): seq<Nudge> {
    if pending == [] then []
    else Unseen(pending[..|pending| - 1], already)
         + if pending[|pending| - 1].id in already then [] else [pending[|pending| - 1]]
  }

  function Ids(nudges: seq<Nudge>): set<string> {
    set i | 0 <= i < |nudges| && nudges[i].id != "" :: nudges[i].id
  }

  // The conditional update of one row: only an unconsumed nudge becomes consumed.
  function Mark(rows: map<Key, bool>, key: Key, fault: Fault): map<Key, bool> {
    if key in rows && !rows[key] && fault != LostBefore then rows[key := true] else rows
  }

  function MarkAll(rows: map<Key, bool>, turn: Turn, nudges: seq<Nudge>): map<Key, bool> {
    if nudges == [] then rows
    else
      var last := nudges[|nudges| - 1];
      Mark(MarkAll(rows, turn, nudges[..|nudges| - 1]), (turn.task, last.id), FaultOf(turn, last.id))
  }

  function DenialItems(denials: seq<Engine.Denial>): seq<Item> {
    seq(|denials|, i requires 0 <= i < |denials| =>
      Item(denials[i].requestId,
           if denials[i].decidedAt.Some? then denials[i].decidedAt.value else "",
           denials[i].reason))
  }

  // The text of one denial, as it stands in the message.
  function DenialBlock(denial: Engine.Denial): string {
    "<user_denial request_id=\"" + XmlEscape(denial.requestId) + "\" decided_at=\""
    + XmlEscape(if denial.decidedAt.Some? then denial.decidedAt.value else "") + "\">\n"
    + XmlEscape(denial.reason) + "\n</user_denial>"
  }

  function DenialBlocks(denials: seq<Engine.Denial>): seq<string> {
    seq(|denials|, i requires 0 <= i < |denials| => DenialBlock(denials[i]))
  }

  lemma {:induction false} DenialBlockIs(d: Engine.Denial)
    ensures DenialBlock(d)
         == Block(DENIAL, Item(d.requestId, if d.decidedAt.Some? then d.decidedAt.value else "", d.reason))
  {
    hide XmlEscape;
    var at := if d.decidedAt.Some? then d.decidedAt.value else "";
    TailOfBlock(DENIAL.open + XmlEscape(d.requestId) + DENIAL.mid + XmlEscape(at) + TAG_END + XmlEscape(d.reason),
                DENIAL.close);
  }

  lemma {:induction false} DenialBlocksAre(denials: seq<Engine.Denial>)
    ensures DenialBlocks(denials) == Blocks(DENIAL, DenialItems(denials))
  {
    hide DenialBlock, Block;
    forall i | 0 <= i < |denials| ensures DenialBlock(denials[i]) == Blocks(DENIAL, DenialItems(denials))[i] {
      DenialBlockIs(denials[i]);
    }
  }

  function RunHook(hook: Hook, p: Progress, turn: Turn): Progress {
    match hook
    case CANCEL => if turn.task != "" && turn.cancelled then p.(cancel := true) else p
    case STUCK =>
      if p.cancel || turn.steer.None? then p else p.(chunks := p.chunks + [turn.steer.value])
    case NUDGES =>
      var unseen := Unseen(PendingOf(turn), InjectedIn(p.m.injected, turn.task));
      if turn.task == "" || p.cancel || unseen == [] then p
      else p.(m := p.m.(injected := p.m.injected[turn.task := InjectedIn(p.m.injected, turn.task) + Ids(unseen)],
                        rows := MarkAll(p.m.rows, turn, unseen)),
              chunks := p.chunks + [Format(NUDGE, NudgeItems(unseen))],
              nudges := p.nudges + unseen)
    case DENIALS =>
      if p.cancel || !turn.hasEngine || p.m.queue == [] then p
      else p.(m := p.m.(queue := []),
              chunks := p.chunks + [Format(DENIAL, DenialItems(p.m.queue))],
              denials := p.denials + p.m.queue)
  }

  function RunHooks(hooks: seq<Hook>, p: Progress, turn: Turn): Progress {
    if hooks == [] || p.cancel then p else RunHooks(hooks[1..], RunHook(hooks[0], p, turn), turn)
  }

  function Start(m: Memory): Progress {
    Progress(m, false, [], [], [])
  }

  function ReplyOf(p: Progress): Reply {
    if p.cancel then Halt else if p.chunks == [] then AllowStop else Continue(Join("\n\n", p.chunks))
  }

  function StopCall(m: Memory, turn: Turn): Progress {
    RunHooks(BETWEEN_TURNS_HOOKS, Start(m), turn)
  }

  // ---------------------------------------------------------------- the code

  class NudgeTable {
    var rows: map<Key, bool>

    constructor ()
      ensures rows == map[]
    {
      rows := map[];
    }

    // mark_consumed: True only when the update worked on an unconsumed nudge and was reported.
    method MarkConsumed(task: string, id: string, fault: Fault) returns (ok: bool)
      modifies this
      ensures rows == Mark(old(rows), (task, id), fault)
      ensures ok <==> fault == Works && (task, id) in old(rows) && !old(rows)[(task, id)]
    {
      if fault == LostBefore { return false; }
      if (task, id) !in rows || rows[(task, id)] { return false; }
      rows := rows[(task, id) := true];
      ok := fault == Works;
    }
  }

  class StopSeam {
    var injected: map<string, set<string>>

    constructor ()
      ensures injected == map[]
    {
      injected := map[];
    }

    ghost function MemoryWith(table: NudgeTable, engine: Engine.PolicyEngine): Memory
      reads this, table, engine
    {
      Memory(injected, engine.denials, table.rows)
    }

    method Remember(task: string, nudges: seq<Nudge>)
      modifies this
      ensures injected == old(injected)[task := InjectedIn(old(injected), task) + Ids(nudges)]
    {
      hide Ids;
      var ids := InjectedIn(injected, task);
      IdsOfNone();
      for i := 0 to |nudges|
        invariant ids == InjectedIn(old(injected), task) + Ids(nudges[..i]) && injected == old(injected)
      {
        assert nudges[..i + 1] == nudges[..i] + [nudges[i]];
        IdsAppend(nudges[..i], nudges[i]);
        if nudges[i].id != "" { ids := ids + {nudges[i].id}; }
      }
      assert nudges[..|nudges|] == nudges;
      injected := injected[task := ids];
    }

    static method FilterUnseen(read: seq<Nudge>, already: set<string>) returns (pending: seq<Nudge>)
      ensures pending == Unseen(read, already)
    {
      pending := [];
      for i := 0 to |read|
        invariant pending == Unseen(read[..i], already)
      {
        assert read[..i + 1][..i] == read[..i];
        if read[i].id !in already { pending := pending + [read[i]]; }
      }
      assert read[..|read|] == read;
    }

    method NudgeHook(turn: Turn, cancel: bool, table: NudgeTable)
      returns (chunks: seq<string>, ghost unseen: seq<Nudge>)
      modifies this, table
      ensures unseen == if turn.task == "" || cancel then []
                        else Unseen(PendingOf(turn), InjectedIn(old(injected), turn.task))
      ensures unseen == [] ==> chunks == [] && injected == old(injected) && table.rows == old(table.rows)
      ensures unseen != [] ==>
                && chunks == [Format(NUDGE, NudgeItems(unseen))] == [Join("\n", NudgeBlocks(unseen))]
                && injected == old(injected)[turn.task := InjectedIn(old(injected), turn.task) + Ids(unseen)]
                && table.rows == MarkAll(old(table.rows), turn, unseen)
    {
      hide Format, NudgeItems, Mark, Unseen, Reader.Pending;
      unseen := [];
      if turn.task == "" || cancel { return [], unseen; }
      Reader.PendingOfNothing();
      var read, _ := Reader.ReadPending(if turn.answers == [] then None else Some(turn.answers));
      var already := InjectedIn(injected, turn.task);
      var pending := FilterUnseen(read, already);
      unseen := pending;
      if pending == [] { return [], unseen; }
      var formatted := FormatAsUserMessage(pending);
      // Remembered before the rows are marked, so a failing mark cannot inject twice.
      Remember(turn.task, pending);
      for i := 0 to |pending|
        invariant injected == old(injected)[turn.task := already + Ids(pending)]
        invariant table.rows == MarkAll(old(table.rows), turn, pending[..i])
      {
        assert pending[..i + 1][..i] == pending[..i];
        var _ := table.MarkConsumed(turn.task, pending[i].id, FaultOf(turn, pending[i].id));
      }
      assert pending[..|pending|] == pending;
      chunks := [formatted];
    }

    method DenialHook(cancel: bool, hasEngine: bool, engine: Engine.PolicyEngine) returns (chunks: seq<string>)
      modifies engine`denials
      ensures if cancel || !hasEngine || old(engine.denials) == []
              then chunks == [] && engine.denials == old(engine.denials)
              else chunks == [Format(DENIAL, DenialItems(old(engine.denials)))] && engine.denials == []
      ensures chunks != [] ==> chunks == [Join("\n", DenialBlocks(old(engine.denials)))]
    {
      hide DenialBlock, Block;
      DenialBlocksAre(engine.denials);
      if cancel || !hasEngine { return []; }
      var pending := engine.DrainDenials();
      if pending == [] { return []; }
      var blocks: seq<string> := [];
      for i := 0 to |pending|
        invariant blocks == DenialBlocks(pending)[..i]
      {
        blocks := blocks + [DenialBlock(pending[i])];
      }
      assert blocks == DenialBlocks(pending);
      chunks := [Join("\n", blocks)];
    }

    // stop_hook: the loop over the registered hooks, left at the first sign of a cancel.
    method StopHook(hooks: seq<Hook>, turn: Turn, table: NudgeTable, engine: Engine.PolicyEngine)
      returns (reply: Reply, ghost p: Progress)
      modifies this, table, engine`denials
      ensures p == RunHooks(hooks, Start(old(MemoryWith(table, engine))), turn)
      ensures MemoryWith(table, engine) == p.m && reply == ReplyOf(p)
    {
      hide Format, MarkAll, NudgeItems, DenialItems, Unseen, Ids;
      var chunks, cancel, i := [], false, 0;
      p := Start(MemoryWith(table, engine));
      while i < |hooks|
        invariant i <= |hooks| && !cancel
        invariant p.m == MemoryWith(table, engine) && p.cancel == cancel && p.chunks == chunks
        invariant RunHooks(hooks[i..], p, turn) == RunHooks(hooks, Start(old(MemoryWith(table, engine))), turn)
      {
        assert hooks[i..][0] == hooks[i] && hooks[i..][1..] == hooks[i + 1..];
        ghost var next := RunHook(hooks[i], p, turn);
        var produced: seq<string> := [];
        match hooks[i] {
          case CANCEL =>
            cancel := turn.task != "" && turn.cancelled;
          case STUCK =>
            if turn.steer.Some? { produced := [turn.steer.value]; }
          case NUDGES =>
            ghost var unseen;
            produced, unseen := NudgeHook(turn, cancel, table);
          case DENIALS =>
            produced := DenialHook(cancel, turn.hasEngine, engine);
        }
        chunks := chunks + produced;
        p := next;
        i := i + 1;
        if cancel { return Halt, p; }
      }
      if chunks == [] { return AllowStop, p; }
      reply := Continue(Join("\n\n", chunks));
    }
  }

  lemma {:induction false} IdsOfNone()
    ensures Ids([]) == {}
  {
  }

  lemma {:induction false} IdsAppend(nudges: seq<Nudge>, nudge: Nudge)
    ensures Ids(nudges + [nudge]) == Ids(nudges) + if nudge.id == "" then {} else {nudge.id}
  {
    forall id ensures id in Ids(nudges + [nudge]) <==> id in Ids(nudges) || (id == nudge.id && id != "") {
      if id in Ids(nudges) {
        var i :| 0 <= i < |nudges| && nudges[i].id != "" && nudges[i].id == id;
        assert (nudges + [nudge])[i].id == id;
      }
      if id == nudge.id != "" {
        assert (nudges + [nudge])[|nudges|].id == id;
      }
    }
  }

  // ---------------------------------------------------------------- whole runs

  datatype Event =
    | Send(task: string, id: string)  // a user sends a nudge
    | Queue(denial: Engine.Denial)    // a gate was refused
    | Call(turn: Turn)                // the Stop hook runs
    | Restart                         // the process dies and a new one starts

  function Keys(task: string, nudges: seq<Nudge>): seq<Key> {
    seq(|nudges|, i requires 0 <= i < |nudges| => (task, nudges[i].id))
  }

  predicate Consumed(m: Memory, key: Key) {
    key in m.rows && m.rows[key]
  }

  function Step(m: Memory, e: Event): Memory {
    match e
    case Send(task, id) => if (task, id) in m.rows then m else m.(rows := m.rows[(task, id) := false])
    case Queue(denial) => m.(queue := m.queue + [denial])
    case Restart => m.(injected := map[], queue := [])
    case Call(turn) => StopCall(m, turn).m
  }

  function Run(events: seq<Event>): Memory {
    if events == [] then Memory(map[], [], map[]) else Step(Run(events[..|events| - 1]), events[|events| - 1])
  }

  // This event is a call that injects this nudge.
  predicate Injects(m: Memory, e: Event, key: Key) {
    e.Call? && key in Keys(e.turn.task, StopCall(m, e.turn).nudges)
  }

  predicate InjectsAt(events: seq<Event>, k: nat, key: Key) {
    k < |events| && Injects(Run(events[..k]), events[k], key)
  }

  // No new process starts after the i-th event and before the j-th.
  predicate SameProcess(events: seq<Event>, i: nat, j: nat) {
    forall r :: i < r < j && r < |events| ==> events[r] != Restart
  }

  // The table holds one row per nudge id.
  ghost predicate WellRead(turn: Turn) {
    forall id :: |Reader.WithId(Reader.RowsBeforeFailure(turn.answers), id)| <= 1
  }

  // The table answers with rows that are unconsumed at that moment, not with stale ones.
  predicate Current(m: Memory, turn: Turn) {
    forall row :: row in Reader.RowsBeforeFailure(turn.answers) && Reader.RowId(row) != "" ==>
      (turn.task, Reader.RowId(row)) in m.rows && !m.rows[(turn.task, Reader.RowId(row))]
  }

  predicate NoneTwice(keys: seq<Key>) {
    forall i, j :: 0 <= i < j < |keys| ==> keys[i] != keys[j]
  }

  // ---------------------------------------------------------------- one call

  // The call as a whole, hook by hook.
  lemma {:induction false} CallIs(m: Memory, turn: Turn)
    ensures var p := StopCall(m, turn);
            if turn.task != "" && turn.cancelled then p == Start(m).(cancel := true)
            else p == RunHook(DENIALS, RunHook(NUDGES, RunHook(STUCK, Start(m), turn), turn), turn) && !p.cancel
  {
    hide Format, MarkAll, NudgeItems, DenialItems, Unseen, Ids;
    var p0 := Start(m);
    var p1 := RunHook(CANCEL, p0, turn);
    assert BETWEEN_TURNS_HOOKS[1..] == [STUCK, NUDGES, DENIALS];
    assert [STUCK, NUDGES, DENIALS][1..] == [NUDGES, DENIALS];
    assert [NUDGES, DENIALS][1..] == [DENIALS];
    assert StopCall(m, turn) == RunHooks([STUCK, NUDGES, DENIALS], p1, turn);
    if !p1.cancel {
      var p2 := RunHook(STUCK, p1, turn);
      var p3 := RunHook(NUDGES, p2, turn);
      assert RunHooks([DENIALS], p3, turn) == RunHook(DENIALS, p3, turn);
      assert RunHooks([NUDGES, DENIALS], p2, turn) == RunHooks([DENIALS], p3, turn);
      assert RunHooks([STUCK, NUDGES, DENIALS], p1, turn) == RunHooks([NUDGES, DENIALS], p2, turn);
    }
  }

  // The nudges a call injects: those read that this process has not injected before.
  function NewNudges(m: Memory, turn: Turn): seq<Nudge> {
    if turn.task == "" || turn.cancelled then [] else Unseen(PendingOf(turn), InjectedIn(m.injected, turn.task))
  }

  lemma {:induction false} CallInjects(m: Memory, turn: Turn)
    ensures var p, nudges := StopCall(m, turn), NewNudges(m, turn);
            && p.nudges == nudges && p.m.rows == MarkAll(m.rows, turn, nudges)
            && p.m.injected == if nudges == [] then m.injected
                               else m.injected[turn.task := InjectedIn(m.injected, turn.task) + Ids(nudges)]
  {
    hide Format, NudgeItems, DenialItems, Unseen, Ids, StopCall;
    CallIs(m, turn);
    var unseen := Unseen(PendingOf(turn), InjectedIn(m.injected, turn.task));
    assert [] + unseen == unseen;
  }

  // A call that sees the cancel halts, and neither consumes a nudge, nor remembers one, nor drains
  // a denial.
  lemma {:induction false} CancelWins(m: Memory, turn: Turn)
    requires turn.task != "" && turn.cancelled
    ensures StopCall(m, turn).m == m && StopCall(m, turn).nudges == [] && StopCall(m, turn).denials == []
    ensures ReplyOf(StopCall(m, turn)) == Halt
  {
    CallIs(m, turn);
  }

  // Otherwise every new nudge and every queued denial is in the text the agent is given, and the
  // agent may stop only if there is nothing to tell it.
  lemma {:induction false} ReasonTellsAll(m: Memory, turn: Turn)
    requires !(turn.task != "" && turn.cancelled)
    ensures var p := StopCall(m, turn);
            && p.nudges == (if turn.task == "" then [] else Unseen(PendingOf(turn), InjectedIn(m.injected, turn.task)))
            && p.denials == (if turn.hasEngine then m.queue else [])
            && ReplyOf(p) ==
               var chunks := (if turn.steer.Some? then [turn.steer.value] else [])
                             + (if p.nudges == [] then [] else [Format(NUDGE, NudgeItems(p.nudges))])
                             + (if p.denials == [] then [] else [Format(DENIAL, DenialItems(p.denials))]);
               if chunks == [] then AllowStop else Continue(Join("\n\n", chunks))
  {
    hide Format, MarkAll, NudgeItems, DenialItems, Unseen, Ids, StopCall, Join;
    CallIs(m, turn);
    var steer: seq<string> := if turn.steer.Some? then [turn.steer.value] else [];
    var p1 := RunHook(STUCK, Start(m), turn);
    assert p1.chunks == steer && p1.m == m;
    var unseen := Unseen(PendingOf(turn), InjectedIn(m.injected, turn.task));
    assert [] + unseen == unseen && [] + m.queue == m.queue;
    var p2 := RunHook(NUDGES, p1, turn);
    var nudges: seq<string> := if p2.nudges == [] then [] else [Format(NUDGE, NudgeItems(p2.nudges))];
    assert p2.chunks == steer + nudges && p2.m.queue == m.queue;
    var p := RunHook(DENIALS, p2, turn);
    assert p.denials == if turn.hasEngine then m.queue else [];
    assert p.chunks == steer + nudges + if p.denials == [] then [] else [Format(DENIAL, DenialItems(p.denials))];
  }

  // Without a steer in front, the agent's text determines the nudges and the denials.
  lemma {:induction false} ReasonIsReadable(m: Memory, turn: Turn)
    requires turn.steer.None? && ReplyOf(StopCall(m, turn)) != Halt
    ensures var p, reply := StopCall(m, turn), ReplyOf(StopCall(m, turn));
            ReadTurn(if reply.Continue? then reply.reason else "") == (NudgeItems(p.nudges), DenialItems(p.denials))
  {
    hide Format, MarkAll, Unseen, Ids, StopCall, Join, ReadTurn;
    CallIs(m, turn);
    ReasonTellsAll(m, turn);
    var p := StopCall(m, turn);
    assert |NudgeItems(p.nudges)| == |p.nudges| && |DenialItems(p.denials)| == |p.denials|;
    var chunks := Chunks(NudgeItems(p.nudges), DenialItems(p.denials));
    TurnIsRecovered(NudgeItems(p.nudges), DenialItems(p.denials));
    JoinedNothing("\n\n");
    var steer: seq<string> := [];
    assert steer + (if p.nudges == [] then [] else [Format(NUDGE, NudgeItems(p.nudges))])
           + (if p.denials == [] then [] else [Format(DENIAL, DenialItems(p.denials))]) == chunks;
  }

  lemma {:induction false} JoinedNothing(separator: string)
    ensures Join(separator, []) == ""
  {
  }

  // ---------------------------------------------------------------- over a run

  lemma {:induction false} UnseenAre(pending: seq<Nudge>, already: set<string>)
    ensures forall n :: n in Unseen(pending, already) <==> n in pending && n.id !in already
  {
    if pending != [] {
      var front, last := pending[..|pending| - 1], pending[|pending| - 1];
      UnseenAre(front, already);
      assert pending == front + [last];
    }
  }

  lemma {:induction false} UnseenDiffer(pending: seq<Nudge>, already: set<string>)
    requires forall i, j :: 0 <= i < j < |pending| ==> pending[i].id != pending[j].id
    ensures forall i, j :: 0 <= i < j < |Unseen(pending, already)| ==>
              Unseen(pending, already)[i].id != Unseen(pending, already)[j].id
  {
    if pending != [] {
      var front, last := pending[..|pending| - 1], pending[|pending| - 1];
      UnseenDiffer(front, already);
      UnseenAre(front, already);
      var u := Unseen(front, already);
      forall i | 0 <= i < |u| ensures u[i].id != last.id {
        assert u[i] in front;
        var k :| 0 <= k < |front| && front[k] == u[i];
        assert pending[k].id != pending[|pending| - 1].id;
      }
    }
  }

  lemma {:induction false} NewNudgesAre(m: Memory, turn: Turn)
    requires WellRead(turn)
    ensures var keys := Keys(turn.task, NewNudges(m, turn));
            && NoneTwice(keys)
            && forall key: Key :: key in keys ==> key.0 == turn.task && key.1 in Ids(NewNudges(m, turn))
  {
    hide Unseen, Reader.Pending;
    var nudges := NewNudges(m, turn);
    Reader.PendingAreKeyed(turn.answers);
    UnseenAre(PendingOf(turn), InjectedIn(m.injected, turn.task));
    UnseenDiffer(PendingOf(turn), InjectedIn(m.injected, turn.task));
    forall i | 0 <= i < |nudges| ensures nudges[i].id in Ids(nudges) {
      assert nudges[i] in nudges;
    }
  }

  lemma {:induction false} NewNudgesAreNew(m: Memory, turn: Turn)
    ensures forall key: Key :: key in Keys(turn.task, NewNudges(m, turn)) ==>
              && key.1 !in InjectedIn(m.injected, turn.task)
              && exists row :: row in Reader.RowsBeforeFailure(turn.answers) && Reader.RowId(row) == key.1 != ""
  {
    hide Unseen, Reader.Pending, Reader.RowsBeforeFailure;
    var nudges := NewNudges(m, turn);
    Reader.PendingAreRows(turn.answers);
    UnseenAre(PendingOf(turn), InjectedIn(m.injected, turn.task));
    forall i | 0 <= i < |nudges|
      ensures nudges[i].id !in InjectedIn(m.injected, turn.task)
      ensures exists row :: row in Reader.RowsBeforeFailure(turn.answers) && Reader.RowId(row) == nudges[i].id != ""
    {
      assert nudges[i] in nudges;
    }
  }

  lemma {:induction false} InjectedAfter(injected: map<string, set<string>>, task: string, nudges: seq<Nudge>,
                                         t: string)
    ensures InjectedIn(if nudges == [] then injected else injected[task := InjectedIn(injected, task) + Ids(nudges)], t)
         == InjectedIn(injected, t) + if t == task then Ids(nudges) else {}
  {
  }

  // The nudges of one call are all different, if the table holds one row per id.
  lemma {:induction false} InjectedOncePerCall(m: Memory, turn: Turn)
    requires WellRead(turn)
    ensures NoneTwice(Keys(turn.task, StopCall(m, turn).nudges))
  {
    hide StopCall, NewNudges, WellRead, Keys;
    CallInjects(m, turn);
    NewNudgesAre(m, turn);
  }

  predicate Remembered(m: Memory, key: Key) {
    key.1 in InjectedIn(m.injected, key.0)
  }

  // Only what is not remembered is injected, and then it is remembered until the process ends.
  lemma {:induction false} StepRemembers(m: Memory, e: Event, key: Key)
    ensures Injects(m, e, key) ==> !Remembered(m, key)
    ensures !e.Restart? && (Remembered(m, key) || Injects(m, e, key)) ==> Remembered(Step(m, e), key)
  {
    if e.Call? {
      hide StopCall, NewNudges, InjectedIn, MarkAll, Reader.RowsBeforeFailure;
      var nudges := NewNudges(m, e.turn);
      CallInjects(m, e.turn);
      NewNudgesAreNew(m, e.turn);
      InjectedAfter(m.injected, e.turn.task, nudges, key.0);
    }
  }

  lemma {:induction false} RemembersSince(events: seq<Event>, i: nat, j: nat, key: Key)
    requires i < j <= |events| && InjectsAt(events, i, key) && SameProcess(events, i, j)
    ensures Remembered(Run(events[..j]), key)
  {
    hide Injects, Remembered, Step;
    assert events[..j][..j - 1] == events[..j - 1];
    StepRemembers(Run(events[..j - 1]), events[j - 1], key);
    if i < j - 1 {
      RemembersSince(events, i, j - 1, key);
    } else {
      InjectsNow(Run(events[..i]), events[i], key);
    }
  }

  lemma {:induction false} InjectsNow(m: Memory, e: Event, key: Key)
    requires Injects(m, e, key)
    ensures !e.Restart?
  {
  }

  // However often marking a nudge consumed fails, and however stale the reads are, one process
  // injects no nudge in two of its calls.
  lemma {:induction false} InjectedAtMostOnce(events: seq<Event>, i: nat, j: nat, key: Key)
    requires i < j && InjectsAt(events, i, key) && InjectsAt(events, j, key)
    ensures !SameProcess(events, i, j)
  {
    hide Injects, Remembered;
    if SameProcess(events, i, j) {
      RemembersSince(events, i, j, key);
      StepRemembers(Run(events[..j]), events[j], key);
    }
  }

  // Marking consumes nothing but the nudges marked, and among those exactly the ones whose update
  // reached the table.
  lemma {:induction false} MarkAllIs(rows: map<Key, bool>, turn: Turn, nudges: seq<Nudge>, key: Key)
    ensures var after := MarkAll(rows, turn, nudges);
            (key in after && after[key]) <==>
            && key in rows
            && (rows[key] || (key in Keys(turn.task, nudges) && FaultOf(turn, key.1) != LostBefore))
    ensures MarkAll(rows, turn, nudges).Keys == rows.Keys
  {
    if nudges != [] {
      var front, last := nudges[..|nudges| - 1], nudges[|nudges| - 1];
      MarkAllIs(rows, turn, front, key);
      assert Keys(turn.task, nudges) == Keys(turn.task, front) + [(turn.task, last.id)];
    }
  }

  // Only injecting a nudge consumes it, and it does unless the update is lost.
  lemma {:induction false} StepConsumes(m: Memory, e: Event, key: Key)
    ensures Consumed(Step(m, e), key) <==>
            || Consumed(m, key)
            || (Injects(m, e, key) && key in m.rows && FaultOf(e.turn, key.1) != LostBefore)
  {
    if e.Call? {
      hide MarkAll, StopCall, NewNudges;
      CallInjects(m, e.turn);
      MarkAllIs(m.rows, e.turn, NewNudges(m, e.turn), key);
    }
  }

  // The k-th event injects this nudge and its row is marked.
  predicate MarksAt(events: seq<Event>, k: nat, key: Key) {
    InjectsAt(events, k, key) && key in Run(events[..k]).rows && FaultOf(events[k].turn, key.1) != LostBefore
  }

  // In every run a nudge is consumed exactly when some call injected it and marked its row.
  lemma {:induction false} ConsumedExactlyWhen(events: seq<Event>, key: Key)
    ensures Consumed(Run(events), key) <==> exists k: nat :: MarksAt(events, k, key)
  {
    hide Consumed, StopCall, Keys, Step, FaultOf;
    if events == [] {
      NothingConsumed(key);
    } else {
      var n := |events| - 1;
      var front, e := events[..n], events[n];
      ConsumedExactlyWhen(front, key);
      StepConsumes(Run(front), e, key);
      assert forall k: nat :: k < n ==> front[..k] == events[..k] && front[k] == events[k];
      assert forall k: nat :: k < n ==> (MarksAt(front, k, key) <==> MarksAt(events, k, key));
      assert MarksAt(events, n, key) <==>
             Injects(Run(front), e, key) && key in Run(front).rows && FaultOf(e.turn, key.1) != LostBefore;
      if k: nat :| MarksAt(front, k, key) {
        assert MarksAt(events, k, key);
      }
    }
  }

  lemma {:induction false} NothingConsumed(key: Key)
    ensures !Consumed(Run([]), key) && forall k: nat :: !MarksAt([], k, key)
  {
  }

  // Across restarts as well: if a nudge is injected twice, a new process started in between, and
  // the update that should have marked it the first time did not reach the table. This takes a
  // table that answers with rows that are unconsumed at that moment.
  lemma {:induction false} ReinjectedOnlyIfMarkMissed(events: seq<Event>, i: nat, j: nat, key: Key)
    requires i < j && InjectsAt(events, i, key) && InjectsAt(events, j, key)
    requires Current(Run(events[..i]), events[i].turn) && Current(Run(events[..j]), events[j].turn)
    ensures FaultOf(events[i].turn, key.1) == LostBefore && !SameProcess(events, i, j)
  {
    hide Consumed, FaultOf, Current;
    InjectedAtMostOnce(events, i, j, key);
    InjectedWasUnconsumed(Run(events[..i]), events[i], key);
    InjectedWasUnconsumed(Run(events[..j]), events[j], key);
    if MarksAt(events, i, key) {
      assert events[..j][..i] == events[..i];
      assert MarksAt(events[..j], i, key);
      ConsumedExactlyWhen(events[..j], key);
    }
  }

  lemma {:induction false} InjectedWasUnconsumed(m: Memory, e: Event, key: Key)
    requires Injects(m, e, key) && Current(m, e.turn)
    ensures key in m.rows && !Consumed(m, key)
  {
    hide StopCall, NewNudges, Reader.RowsBeforeFailure;
    CallInjects(m, e.turn);
    NewNudgesAreNew(m, e.turn);
    KeysAreOf(e.turn.task, NewNudges(m, e.turn));
  }

  // The denials queued in this process, and those its calls delivered.
  function Queued(events: seq<Event>): seq<Engine.Denial> {
    if events == [] then []
    else match events[|events| - 1]
      case Restart => []
      case Queue(denial) => Queued(events[..|events| - 1]) + [denial]
      case _ => Queued(events[..|events| - 1])
  }

  function Delivered(events: seq<Event>): seq<Engine.Denial> {
    if events == [] then []
    else
      var front := events[..|events| - 1];
      match events[|events| - 1]
      case Restart => []
      case Call(turn) => Delivered(front) + StopCall(Run(front), turn).denials
      case _ => Delivered(front)
  }

  // Every queued denial is delivered at most once and in order: what one process has delivered,
  // followed by what is still queued, is what was queued.
  lemma {:induction false} DenialsInOrder(events: seq<Event>)
    ensures Delivered(events) + Run(events).queue == Queued(events)
  {
    hide Format, MarkAll, NudgeItems, DenialItems, Unseen, Ids, StopCall;
    if events != [] {
      var front, last := events[..|events| - 1], events[|events| - 1];
      DenialsInOrder(front);
      if last.Call? {
        CallIs(Run(front), last.turn);
      }
    }
  }

  // ---------------------------------------------------------------- the order of nudges

  lemma {:induction false} UnseenAscend(pending: seq<Nudge>, already: set<string>)
    requires forall i, j :: 0 <= i < j < |pending| ==> LexLeq(pending[i].id, pending[j].id)
    ensures forall i, j :: 0 <= i < j < |Unseen(pending, already)| ==>
              LexLeq(Unseen(pending, already)[i].id, Unseen(pending, already)[j].id)
  {
    hide LexLeq;
    if pending != [] {
      var front, last := pending[..|pending| - 1], pending[|pending| - 1];
      UnseenAscend(front, already);
      UnseenAre(front, already);
      var u := Unseen(front, already);
      forall i | 0 <= i < |u| ensures LexLeq(u[i].id, last.id) {
        assert u[i] in front;
        var k :| 0 <= k < |front| && front[k] == u[i];
        assert LexLeq(pending[k].id, pending[|pending| - 1].id);
      }
    }
  }

  // A call injects its nudges oldest first, and each is one of the first hundred rows of the table,
  // in all its fields.
  lemma {:induction false} InjectedOldestFirst(m: Memory, turn: Turn)
    ensures var nudges := StopCall(m, turn).nudges;
            && (forall i, j :: 0 <= i < j < |nudges| ==> LexLeq(nudges[i].id, nudges[j].id))
            && (forall nudge :: nudge in nudges ==>
                  Reader.IsEarlyRow(nudge, Reader.RowsBeforeFailure(turn.answers)))
  {
    hide LexLeq, StopCall, Unseen, Reader.Pending, Reader.IsEarlyRow;
    CallInjects(m, turn);
    Reader.PendingAscends(turn.answers);
    Reader.PendingShowsRows(turn.answers);
    UnseenAscend(PendingOf(turn), InjectedIn(m.injected, turn.task));
    UnseenAre(PendingOf(turn), InjectedIn(m.injected, turn.task));
  }

  // ---------------------------------------------------------------- starvation

  // A call injects nothing exactly when the first hundred unconsumed rows, in ascending order,
  // were all injected before, however many newer ones follow.
  lemma {:induction false} InjectsNothingExactlyWhen(m: Memory, turn: Turn)
    requires turn.task != "" && !turn.cancelled && InOrder(turn)
    ensures NewNudges(m, turn) == [] <==>
            forall row :: row in Reader.Capped(Reader.RowsBeforeFailure(turn.answers)) ==>
              Reader.RowId(row) in InjectedIn(m.injected, turn.task)
  {
    hide Unseen, Reader.Pending, Reader.Ascending, Reader.RowsBeforeFailure;
    var rows := Reader.Capped(Reader.RowsBeforeFailure(turn.answers));
    var already := InjectedIn(m.injected, turn.task);
    Reader.OrderedRowsAreRead(turn.answers);
    UnseenAre(PendingOf(turn), already);
    if NewNudges(m, turn) == [] {
      forall row | row in rows ensures Reader.RowId(row) in already {
        var i :| 0 <= i < |rows| && rows[i] == row;
        assert PendingOf(turn)[i] == Reader.AsNudge(row);
        assert Reader.AsNudge(row) in PendingOf(turn);
      }
    } else {
      var nudge := NewNudges(m, turn)[0];
      assert nudge in NewNudges(m, turn);
      var i :| 0 <= i < |PendingOf(turn)| && PendingOf(turn)[i] == nudge;
      assert nudge == Reader.AsNudge(rows[i]);
      assert rows[i] in rows;
    }
  }

  // A read that works: ascending rows, each with an id.
  predicate InOrder(turn: Turn) {
    var rows := Reader.RowsBeforeFailure(turn.answers);
    Reader.Unbroken(turn.answers) && Reader.Ascending(rows) && forall row :: row in rows ==> Reader.RowId(row) != ""
  }

  // These nudges were injected, but the updates that should have marked them did not reach the
  // table.
  predicate Unmarked(m: Memory, task: string, ids: set<string>) {
    ids <= InjectedIn(m.injected, task) && forall id :: id in ids ==> (task, id) in m.rows && !m.rows[(task, id)]
  }

  // Nobody marks them later.
  lemma {:induction false} StepKeepsUnmarked(m: Memory, e: Event, task: string, ids: set<string>)
    requires !e.Restart? && Unmarked(m, task, ids)
    ensures Unmarked(Step(m, e), task, ids)
  {
    if e.Call? {
      hide StopCall, NewNudges, MarkAll, Ids, Keys, InjectedIn, FaultOf;
      var nudges := NewNudges(m, e.turn);
      CallInjects(m, e.turn);
      NewNudgesAreNew(m, e.turn);
      InjectedAfter(m.injected, e.turn.task, nudges, task);
      KeysAreOf(e.turn.task, nudges);
      forall id | id in ids
        ensures (task, id) in Step(m, e).rows && !Step(m, e).rows[(task, id)]
      {
        MarkAllIs(m.rows, e.turn, nudges, (task, id));
      }
    }
  }

  lemma {:induction false} KeysAreOf(task: string, nudges: seq<Nudge>)
    ensures forall key: Key :: key in Keys(task, nudges) ==> key.0 == task
  {
  }

  // So a hundred lost marks starve every newer nudge: as long as those rows come first, no call of
  // this process injects anything any more, whatever happens and whatever is sent in between.
  lemma {:induction false} LostMarksStarveNewer(before: seq<Event>, after: seq<Event>, turn: Turn, ids: set<string>)
    requires Unmarked(Run(before), turn.task, ids) && Restart !in after
    requires InOrder(turn)
    requires forall row :: row in Reader.Capped(Reader.RowsBeforeFailure(turn.answers)) ==> Reader.RowId(row) in ids
    ensures StopCall(Run(before + after), turn).nudges == []
  {
    hide StopCall, Run, InjectedIn;
    StaysUnmarked(before, after, turn.task, ids);
    CallInjects(Run(before + after), turn);
    if turn.task != "" && !turn.cancelled {
      InjectsNothingExactlyWhen(Run(before + after), turn);
    }
  }

  lemma {:induction false} StaysUnmarked(before: seq<Event>, after: seq<Event>, task: string, ids: set<string>)
    requires Unmarked(Run(before), task, ids) && Restart !in after
    ensures Unmarked(Run(before + after), task, ids)
  {
    hide Unmarked, Step;
    if after == [] {
      assert before + after == before;
    } else {
      var front, last := after[..|after| - 1], after[|after| - 1];
      StaysUnmarked(before, front, task, ids);
      assert (before + after)[..|before + after| - 1] == before + front;
      assert last in after;
      StepKeepsUnmarked(Run(before + front), last, task, ids);
    }
  }
}
