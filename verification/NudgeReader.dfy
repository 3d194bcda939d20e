// Reading a task's pending nudges page by page (agent/src/nudge_reader.py).
module NudgeReader {
  import opened Wrappers
  import opened TextOrder
  import opened NudgeText

  const MAX_PENDING_ITEMS := 100

  // A row as the query returns it; any attribute may be missing.
  datatype Row = Row(nudgeId: Option<string>, text: Option<string>, created: Option<string>)

  // One answer of the table. A page names a following page unless it is the last answer.
  datatype Reply = Page(items: seq<Row>) | Failure

  function OrEmpty(s: Option<string>): string {
    if s.Some? then s.value else ""
  }

  function RowId(row: Row): string {
    OrEmpty(row.nudgeId)
  }

  function AsNudge(row: Row): Nudge {
    Nudge(RowId(row), OrEmpty(row.text), OrEmpty(row.created))
  }

  // ---------------------------------------------------------------- the sort

  predicate Ascending(rows: seq<Row>) {
    forall i, j :: 0 <= i < j < |rows| ==> LexLeq(RowId(rows[i]), RowId(rows[j]))
  }

  function WithId(rows: seq<Row>, id: string): seq<Row> {
    if rows == [] then []
    else (if RowId(rows[0]) == id then [rows[0]] else []) + WithId(rows[1..], id)
  }

  // The stable sort by id: rows come in order of their id, and rows of one id keep their order.
  ghost predicate IsStableSort(result: seq<Row>, rows: seq<Row>) {
    Ascending(result) && forall id :: WithId(result, id) == WithId(rows, id)
  }

  function Insert(row: Row, rows: seq<Row>): seq<Row> {
    if rows == [] || LexLeq(RowId(row), RowId(rows[0])) then [row] + rows
    else [rows[0]] + Insert(row, rows[1..])
  }

  function SortById(rows: seq<Row>): seq<Row> {
    if rows == [] then [] else Insert(rows[0], SortById(rows[1..]))
  }

  lemma {:induction false} InsertKeepsIds(row: Row, rows: seq<Row>, id: string)
    requires Ascending(rows)
    ensures WithId(Insert(row, rows), id) == (if RowId(row) == id then [row] else []) + WithId(rows, id)
  {
    assert forall x: string :: LexLeq(x, x);
    hide LexLeq, RowId;
    if rows == [] || LexLeq(RowId(row), RowId(rows[0])) {
      assert ([row] + rows)[1..] == rows;
    } else {
      InsertKeepsIds(row, rows[1..], id);
      assert Insert(row, rows)[1..] == Insert(row, rows[1..]);
      assert RowId(row) != RowId(rows[0]);
      assert [] + WithId(rows[1..], id) == WithId(rows[1..], id);
    }
  }

  lemma {:induction false} InsertAscends(row: Row, rows: seq<Row>)
    requires Ascending(rows)
    ensures Ascending(Insert(row, rows)) && multiset(Insert(row, rows)) == multiset(rows) + multiset{row}
  {
    hide LexLeq, RowId;
    var result := Insert(row, rows);
    if rows == [] || LexLeq(RowId(row), RowId(rows[0])) {
      forall j | 0 <= j < |rows| ensures LexLeq(RowId(row), RowId(rows[j])) {
        if j > 0 {
          LexLeqTransitive(RowId(row), RowId(rows[0]), RowId(rows[j]));
        }
      }
    } else {
      InsertAscends(row, rows[1..]);
      assert rows == [rows[0]] + rows[1..];
      IdsTotal(row, rows[0]);
      forall x | x in result[1..] ensures LexLeq(RowId(rows[0]), RowId(x)) {
        assert x in multiset(result[1..]);
        assert x == row || x in rows[1..];
      }
      assert forall j :: 0 < j < |result| ==> result[j] in result[1..];
      assert forall j :: 0 < j < |result| ==> result[j] == result[1..][j - 1];
    }
  }

  lemma {:induction false} IdsTotal(a: Row, b: Row)
    ensures LexLeq(RowId(a), RowId(b)) || LexLeq(RowId(b), RowId(a))
  {
    LexTotal(RowId(a), RowId(b));
  }

  lemma {:induction false} SortByIdSorts(rows: seq<Row>)
    ensures IsStableSort(SortById(rows), rows) && multiset(SortById(rows)) == multiset(rows)
  {
    hide LexLeq, RowId, Insert;
    if rows != [] {
      SortByIdSorts(rows[1..]);
      var sorted := SortById(rows[1..]);
      InsertAscends(rows[0], sorted);
      assert rows == [rows[0]] + rows[1..];
      forall id ensures WithId(Insert(rows[0], sorted), id) == WithId(rows, id) {
        InsertKeepsIds(rows[0], sorted, id);
      }
    }
  }

  lemma {:induction false} FirstWithId(rows: seq<Row>)
    requires rows != []
    ensures WithId(rows, RowId(rows[0])) != [] && WithId(rows, RowId(rows[0]))[0] == rows[0]
  {
  }

  lemma {:induction false} WithIdMember(rows: seq<Row>, id: string)
    requires WithId(rows, id) != []
    ensures exists i :: 0 <= i < |rows| && RowId(rows[i]) == id
  {
    if RowId(rows[0]) != id {
      WithIdMember(rows[1..], id);
      var i :| 0 <= i < |rows[1..]| && RowId(rows[1..][i]) == id;
      assert RowId(rows[i + 1]) == id;
    }
  }

  lemma {:induction false} FirstIsLeast(a: seq<Row>, b: seq<Row>)
    requires a != [] && Ascending(b) && forall id :: WithId(a, id) == WithId(b, id)
    ensures b != [] && LexLeq(RowId(b[0]), RowId(a[0]))
  {
    FirstWithId(a);
    WithIdMember(b, RowId(a[0]));
  }

  // There is only one stable sort, so any correct implementation of it yields SortById.
  lemma {:induction false} StableSortIsUnique(a: seq<Row>, b: seq<Row>)
    requires Ascending(a) && Ascending(b) && forall id :: WithId(a, id) == WithId(b, id)
    ensures a == b
  {
    if a == [] {
      if b != [] {
        FirstIsLeast(b, a);
      }
    } else {
      FirstIsLeast(a, b);
      FirstIsLeast(b, a);
      LexTotal(RowId(a[0]), RowId(b[0]));
      FirstWithId(a);
      FirstWithId(b);
      assert a[0] == b[0];
      forall id ensures WithId(a[1..], id) == WithId(b[1..], id) {
        assert WithId(a, id) == WithId(b, id);
        var head := if RowId(a[0]) == id then [a[0]] else [];
        assert head + WithId(a[1..], id) == head + WithId(b[1..], id);
        assert (head + WithId(a[1..], id))[|head|..] == WithId(a[1..], id);
        assert (head + WithId(b[1..], id))[|head|..] == WithId(b[1..], id);
      }
      StableSortIsUnique(a[1..], b[1..]);
      assert a == [a[0]] + a[1..] && b == [b[0]] + b[1..];
    }
  }

  // ---------------------------------------------------------------- the result

  // The rows of the answers before the first failure.
  function RowsBeforeFailure(replies: seq<Reply>): seq<Row> {
    if replies == [] || replies[0].Failure? then [] else replies[0].items + RowsBeforeFailure(replies[1..])
  }

  predicate Unbroken(replies: seq<Reply>) {
    Failure !in replies
  }

  function NamedNudges(rows: seq<Row>): seq<Nudge> {
    if rows == [] then []
    else (if RowId(rows[0]) == "" then [] else [AsNudge(rows[0])]) + NamedNudges(rows[1..])
  }

  function Capped(rows: seq<Row>): seq<Row> {
    if |rows| <= MAX_PENDING_ITEMS then rows else rows[..MAX_PENDING_ITEMS]
  }

  // What reading yields: nothing when the table fails before a hundred rows were seen.
  function Pending(replies: seq<Reply>): seq<Nudge> {
    var rows := RowsBeforeFailure(replies);
    if |rows| < MAX_PENDING_ITEMS && !Unbroken(replies) then [] else NamedNudges(SortById(Capped(rows)))
  }

  lemma {:induction false} RowsAppend(replies: seq<Reply>, last: Reply)
    requires Unbroken(replies)
    ensures RowsBeforeFailure(replies + [last])
         == RowsBeforeFailure(replies) + if last.Failure? then [] else last.items
  {
    if replies == [] {
      assert [last][1..] == [];
    } else {
      assert (replies + [last])[1..] == replies[1..] + [last];
      RowsAppend(replies[1..], last);
    }
  }

  lemma {:induction false} RowsOnlyGrow(replies: seq<Reply>, k: nat)
    requires k <= |replies| && Unbroken(replies[..k])
    ensures RowsBeforeFailure(replies[..k]) <= RowsBeforeFailure(replies)
  {
    if k > 0 {
      assert replies[..k][0] == replies[0] && replies[..k][1..] == replies[1..][..k - 1];
      RowsOnlyGrow(replies[1..], k - 1);
    }
  }

  // read_pending: a query per page until enough rows were seen, the last page was read or the
  // table failed. Without a table, or on a failure, no nudge is reported.
  method ReadPending(table: Option<seq<Reply>>) returns (nudges: seq<Nudge>, truncated: bool)
    requires table.Some? ==> table.value != []
    ensures table.None? ==> nudges == [] && !truncated
    ensures table.Some? ==> nudges == Pending(table.value)
    ensures table.Some? ==> (truncated <==> |RowsBeforeFailure(table.value)| >= 100)
    ensures table.Some? ==> forall nudge :: nudge in nudges ==> IsEarlyRow(nudge, RowsBeforeFailure(table.value))
  {
    hide SortById, NamedNudges, Shows;
    nudges, truncated := [], false;
    if table.None? { return; }
    PendingShowsRows(table.value);
    var replies, items, page := table.value, [], 0;
    while true
      invariant page < |replies| && Unbroken(replies[..page]) && !truncated && nudges == []
      invariant items == RowsBeforeFailure(replies[..page]) && |items| < MAX_PENDING_ITEMS
      decreases |replies| - page
    {
      assert replies[..page + 1] == replies[..page] + [replies[page]];
      RowsAppend(replies[..page], replies[page]);
      if replies[page].Failure? {
        RowsStopAtFailure(replies, page);
        return;
      }
      items := items + replies[page].items;
      if |items| >= MAX_PENDING_ITEMS {
        RowsOnlyGrow(replies, page + 1);
        truncated := true;
        items := items[..MAX_PENDING_ITEMS];
        assert items == Capped(RowsBeforeFailure(replies));
        break;
      }
      if page + 1 == |replies| {
        assert replies[..page + 1] == replies;
        break;
      }
      page := page + 1;
    }
    items := SortById(items);
    nudges := KeepNamed(items);
  }

  lemma {:induction false} RowsStopAtFailure(replies: seq<Reply>, k: nat)
    requires k < |replies| && replies[k].Failure? && Unbroken(replies[..k])
    ensures RowsBeforeFailure(replies) == RowsBeforeFailure(replies[..k]) && !Unbroken(replies)
  {
    if k > 0 {
      assert replies[..k][0] == replies[0] && replies[..k][1..] == replies[1..][..k - 1];
      RowsStopAtFailure(replies[1..], k - 1);
    }
  }

  method KeepNamed(rows: seq<Row>) returns (nudges: seq<Nudge>)
    ensures nudges == NamedNudges(rows)
  {
    hide RowId, AsNudge, NamedNudges;
    nudges := [];
    assert [] + NamedNudges(rows) == NamedNudges(rows) && rows[0..] == rows;
    for i := 0 to |rows|
      invariant nudges + NamedNudges(rows[i..]) == NamedNudges(rows)
    {
      NamedNudgesStep(rows[i..]);
      assert rows[i..][1..] == rows[i + 1..];
      if RowId(rows[i]) != "" {
        assert nudges + ([AsNudge(rows[i])] + NamedNudges(rows[i + 1..]))
            == nudges + [AsNudge(rows[i])] + NamedNudges(rows[i + 1..]);
        nudges := nudges + [AsNudge(rows[i])];
      }
    }
    assert NamedNudges(rows[|rows|..]) == [] by {
      assert rows[|rows|..] == [] && AsNudges([]) == [];
      NamedNudgesOfNamed([]);
    }
  }

  lemma {:induction false} NamedNudgesStep(rows: seq<Row>)
    requires rows != []
    ensures NamedNudges(rows)
         == if RowId(rows[0]) == "" then NamedNudges(rows[1..]) else [AsNudge(rows[0])] + NamedNudges(rows[1..])
  {
  }

  // ---------------------------------------------------------------- main results

  function AsNudges(rows: seq<Row>): seq<Nudge> {
    seq(|rows|, i requires 0 <= i < |rows| => AsNudge(rows[i]))
  }

  lemma {:induction false} NamedNudgesOfNamed(rows: seq<Row>)
    requires forall row :: row in rows ==> RowId(row) != ""
    ensures NamedNudges(rows) == AsNudges(rows)
  {
    if rows != [] {
      NamedNudgesOfNamed(rows[1..]);
      assert AsNudges(rows) == [AsNudge(rows[0])] + AsNudges(rows[1..]);
    }
  }

  lemma {:induction false} SortedStaysSorted(rows: seq<Row>)
    requires Ascending(rows)
    ensures SortById(rows) == rows
  {
    SortByIdSorts(rows);
    StableSortIsUnique(SortById(rows), rows);
  }

  lemma {:induction false} OrderedRowsAreRead(replies: seq<Reply>)
    requires Unbroken(replies) && Ascending(RowsBeforeFailure(replies))
    requires forall row :: row in RowsBeforeFailure(replies) ==> RowId(row) != ""
    ensures Pending(replies) == AsNudges(Capped(RowsBeforeFailure(replies)))
  {
    hide SortById, NamedNudges;
    var rows := Capped(RowsBeforeFailure(replies));
    SortedStaysSorted(rows);
    NamedNudgesOfNamed(rows);
  }

  // However the table splits its rows into pages, empty ones included, the result is the first
  // hundred rows in ascending order, field by field, when the rows come in ascending order and
  // carry an id. A missing text or creation time reads as empty.
  lemma {:induction false} PagesDoNotMatter(replies: seq<Reply>)
    requires Unbroken(replies) && Ascending(RowsBeforeFailure(replies))
    requires forall row :: row in RowsBeforeFailure(replies) ==> row.nudgeId.Some? && row.nudgeId.value != ""
    ensures var rows, nudges := RowsBeforeFailure(replies), Pending(replies);
            && |nudges| == (if |rows| < 100 then |rows| else 100)
            && forall i :: 0 <= i < |nudges| ==>
                 && rows[i].nudgeId == Some(nudges[i].id)
                 && nudges[i].message == (if rows[i].text.Some? then rows[i].text.value else "")
                 && nudges[i].createdAt == (if rows[i].created.Some? then rows[i].created.value else "")
  {
    hide Pending, Ascending;
    OrderedRowsAreRead(replies);
    var rows := RowsBeforeFailure(replies);
    var nudges := AsNudges(Capped(rows));
    assert |nudges| == if |rows| < 100 then |rows| else 100;
    forall i | 0 <= i < |nudges| ensures nudges[i] == AsNudge(rows[i]) && rows[i].nudgeId.Some? {
      assert rows[i] in rows;
    }
  }

  // A nudge carries a row's id, text and creation time, each empty if the row lacks it.
  predicate Shows(nudge: Nudge, row: Row) {
    && nudge.id == (if row.nudgeId.Some? then row.nudgeId.value else "")
    && nudge.message == (if row.text.Some? then row.text.value else "")
    && nudge.createdAt == (if row.created.Some? then row.created.value else "")
  }

  // It is one of the first hundred rows read.
  ghost predicate IsEarlyRow(nudge: Nudge, rows: seq<Row>) {
    exists i :: 0 <= i < |rows| && i < 100 && Shows(nudge, rows[i])
  }

  lemma {:induction false} NamedNudgesShowRows(rows: seq<Row>)
    ensures forall nudge :: nudge in NamedNudges(rows) ==> exists row :: row in rows && Shows(nudge, row)
  {
    if rows != [] {
      NamedNudgesShowRows(rows[1..]);
      assert Shows(AsNudge(rows[0]), rows[0]) && rows[0] in rows;
      forall nudge | nudge in NamedNudges(rows[1..]) ensures exists row :: row in rows && Shows(nudge, row) {
        var row :| row in rows[1..] && Shows(nudge, row);
        assert row in rows;
      }
    }
  }

  // Every nudge read is one of the first hundred rows, in all its fields.
  lemma {:induction false} PendingShowsRows(replies: seq<Reply>)
    ensures forall nudge :: nudge in Pending(replies) ==> IsEarlyRow(nudge, RowsBeforeFailure(replies))
  {
    hide SortById, NamedNudges, Shows;
    var rows := Capped(RowsBeforeFailure(replies));
    SortByIdSorts(rows);
    NamedNudgesShowRows(SortById(rows));
    forall nudge | nudge in Pending(replies)
      ensures IsEarlyRow(nudge, RowsBeforeFailure(replies))
    {
      var row :| row in SortById(rows) && Shows(nudge, row);
      assert row in multiset(SortById(rows));
      assert row in multiset(rows);
      var i :| 0 <= i < |rows| && rows[i] == row;
      assert RowsBeforeFailure(replies)[i] == row;
    }
  }

  // Every other row order still yields the first hundred rows seen, once each, in ascending order
  // of their ids.
  lemma {:induction false} PendingIsSorted(replies: seq<Reply>)
    requires Unbroken(replies)
    ensures var nudges, rows := Pending(replies), Capped(RowsBeforeFailure(replies));
            && (forall i, j :: 0 <= i < j < |nudges| ==> LexLeq(nudges[i].id, nudges[j].id))
            && (forall nudge :: multiset(nudges)[nudge] == Occurrences(rows, nudge))
            && (forall nudge :: nudge in nudges ==> IsEarlyRow(nudge, RowsBeforeFailure(replies)))
  {
    hide SortById, LexLeq, Shows;
    var rows := Capped(RowsBeforeFailure(replies));
    PendingShowsRows(replies);
    SortByIdSorts(rows);
    NamedNudgesSorted(SortById(rows));
    forall nudge ensures multiset(Pending(replies))[nudge] == Occurrences(rows, nudge) {
      NamedNudgesCount(SortById(rows), nudge);
      OccurrencesReorder(SortById(rows), rows, nudge);
    }
  }

  // Whatever the table answers, what is read is in ascending order of the ids.
  lemma {:induction false} PendingAscends(replies: seq<Reply>)
    ensures forall i, j :: 0 <= i < j < |Pending(replies)| ==> LexLeq(Pending(replies)[i].id, Pending(replies)[j].id)
  {
    hide SortById, LexLeq;
    var rows := Capped(RowsBeforeFailure(replies));
    SortByIdSorts(rows);
    NamedNudgesSorted(SortById(rows));
  }

  // How many rows with an id read as this nudge.
  function Occurrences(rows: seq<Row>, nudge: Nudge): nat {
    if rows == [] then 0
    else (if RowId(rows[0]) != "" && AsNudge(rows[0]) == nudge then 1 else 0) + Occurrences(rows[1..], nudge)
  }

  lemma {:induction false} NamedNudgesCount(rows: seq<Row>, nudge: Nudge)
    ensures multiset(NamedNudges(rows))[nudge] == Occurrences(rows, nudge)
  {
    if rows != [] {
      NamedNudgesCount(rows[1..], nudge);
    }
  }

  lemma {:induction false} OccurrencesWithout(rows: seq<Row>, i: nat, nudge: Nudge)
    requires i < |rows|
    ensures Occurrences(rows, nudge) == Occurrences([rows[i]], nudge) + Occurrences(rows[..i] + rows[i + 1..], nudge)
  {
    if i == 0 {
      assert rows[..0] + rows[1..] == rows[1..];
    } else {
      OccurrencesWithout(rows[1..], i - 1, nudge);
      assert (rows[..i] + rows[i + 1..])[1..] == rows[1..][..i - 1] + rows[1..][i..];
    }
  }

  lemma {:induction false} OccurrencesReorder(a: seq<Row>, b: seq<Row>, nudge: Nudge)
    requires multiset(a) == multiset(b)
    ensures Occurrences(a, nudge) == Occurrences(b, nudge)
  {
    hide Occurrences, RowId, AsNudge;
    if a == [] {
      assert |multiset(b)| == 0;
    } else {
      assert a[0] in multiset(b);
      var i :| 0 <= i < |b| && b[i] == a[0];
      var rest := b[..i] + b[i + 1..];
      SameWithoutFirst(a, b, i);
      OccurrencesReorder(a[1..], rest, nudge);
      OccurrencesWithout(b, i, nudge);
      OccurrencesWithout(a, 0, nudge);
    }
  }

  lemma {:induction false} SameWithoutFirst(a: seq<Row>, b: seq<Row>, i: nat)
    requires multiset(a) == multiset(b) && a != [] && i < |b| && b[i] == a[0]
    ensures multiset(a[1..]) == multiset(b[..i] + b[i + 1..]) && a[..0] + a[1..] == a[1..]
  {
    assert a[..0] + a[1..] == a[1..];
    WithoutOne(a, 0);
    WithoutOne(b, i);
  }

  lemma {:induction false} WithoutOne(rows: seq<Row>, i: nat)
    requires i < |rows|
    ensures multiset(rows[..i] + rows[i + 1..]) == multiset(rows) - multiset{rows[i]}
  {
    assert rows == rows[..i] + [rows[i]] + rows[i + 1..];
  }

  lemma {:induction false} NamedNudgesSorted(rows: seq<Row>)
    requires Ascending(rows)
    ensures forall i, j :: 0 <= i < j < |NamedNudges(rows)| ==> LexLeq(NamedNudges(rows)[i].id, NamedNudges(rows)[j].id)
    ensures forall nudge :: nudge in NamedNudges(rows) ==> exists k :: 0 <= k < |rows| && RowId(rows[k]) == nudge.id
  {
    hide LexLeq;
    if rows != [] {
      NamedNudgesSorted(rows[1..]);
      var rest := NamedNudges(rows[1..]);
      forall nudge | nudge in rest
        ensures LexLeq(RowId(rows[0]), nudge.id) && exists k :: 0 <= k < |rows| && RowId(rows[k]) == nudge.id
      {
        var k :| 0 <= k < |rows[1..]| && RowId(rows[1..][k]) == nudge.id;
        assert RowId(rows[k + 1]) == nudge.id;
      }
    }
  }

  // Reaching the cap is reported even when nothing was left out, and what is left out are the
  // newest nudges, not the oldest.
  lemma {:induction false} TruncationDropsNewest(replies: seq<Reply>, i: nat, j: nat)
    requires Ascending(RowsBeforeFailure(replies))
    requires i < |Capped(RowsBeforeFailure(replies))| <= j < |RowsBeforeFailure(replies)|
    ensures |RowsBeforeFailure(replies)| > MAX_PENDING_ITEMS
    ensures LexLeq(RowId(Capped(RowsBeforeFailure(replies))[i]), RowId(RowsBeforeFailure(replies)[j]))
  {
    assert i < j;
  }

  lemma {:induction false} WithIdOfPrefix(rows: seq<Row>, k: nat, id: string)
    requires k <= |rows|
    ensures |WithId(rows[..k], id)| <= |WithId(rows, id)|
  {
    if k > 0 {
      assert rows[..k][0] == rows[0] && rows[..k][1..] == rows[1..][..k - 1];
      WithIdOfPrefix(rows[1..], k - 1, id);
    }
  }

  lemma {:induction false} NamedNudgesAreNamed(rows: seq<Row>)
    ensures forall nudge :: nudge in NamedNudges(rows) ==> nudge.id != "" && WithId(rows, nudge.id) != []
  {
    if rows != [] {
      NamedNudgesAreNamed(rows[1..]);
    }
  }

  lemma {:induction false} NamedNudgesDiffer(rows: seq<Row>)
    requires forall id :: |WithId(rows, id)| <= 1
    ensures forall i, j :: 0 <= i < j < |NamedNudges(rows)| ==> NamedNudges(rows)[i].id != NamedNudges(rows)[j].id
  {
    if rows != [] {
      forall id ensures |WithId(rows[1..], id)| <= 1 {
        assert |WithId(rows, id)| <= 1;
      }
      NamedNudgesDiffer(rows[1..]);
      NamedNudgesAreNamed(rows[1..]);
      assert |WithId(rows, RowId(rows[0]))| <= 1;
      assert forall j :: 0 <= j < |NamedNudges(rows[1..])| ==> NamedNudges(rows[1..])[j] in NamedNudges(rows[1..]);
    }
  }

  // The table holds one row per id, so what is read names every nudge and names none twice.
  lemma {:induction false} PendingAreKeyed(replies: seq<Reply>)
    requires forall id :: |WithId(RowsBeforeFailure(replies), id)| <= 1
    ensures forall i :: 0 <= i < |Pending(replies)| ==> Pending(replies)[i].id != ""
    ensures forall i, j :: 0 <= i < j < |Pending(replies)| ==> Pending(replies)[i].id != Pending(replies)[j].id
  {
    hide SortById, NamedNudges, WithId;
    var rows := Capped(RowsBeforeFailure(replies));
    SortByIdSorts(rows);
    forall id ensures |WithId(SortById(rows), id)| <= 1 {
      if |RowsBeforeFailure(replies)| > MAX_PENDING_ITEMS {
        WithIdOfPrefix(RowsBeforeFailure(replies), MAX_PENDING_ITEMS, id);
      }
    }
    NamedNudgesDiffer(SortById(rows));
    NamedNudgesAreNamed(SortById(rows));
  }

  // Every nudge read is a row of the table.
  lemma {:induction false} PendingAreRows(replies: seq<Reply>)
    ensures forall nudge :: nudge in Pending(replies) ==>
              exists row :: row in RowsBeforeFailure(replies) && RowId(row) == nudge.id != ""
  {
    hide SortById, NamedNudges, WithId;
    var rows := Capped(RowsBeforeFailure(replies));
    SortByIdSorts(rows);
    NamedNudgesAreNamed(SortById(rows));
    forall nudge | nudge in Pending(replies)
      ensures exists row :: row in RowsBeforeFailure(replies) && RowId(row) == nudge.id != ""
    {
      assert WithId(SortById(rows), nudge.id) == WithId(rows, nudge.id);
      WithIdMember(rows, nudge.id);
      var i :| 0 <= i < |rows| && RowId(rows[i]) == nudge.id;
      assert rows[i] in RowsBeforeFailure(replies);
    }
  }

  lemma {:induction false} PendingOfNothing()
    ensures Pending([]) == []
  {
    hide SortById, NamedNudges;
    SortedStaysSorted([]);
    NamedNudgesOfNamed([]);
    assert AsNudges([]) == [];
  }
}
