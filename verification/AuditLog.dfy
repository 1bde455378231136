/**
  The bounded audit log of app/audit.py: a table with ever-growing ids, pruned by age and size on every write, and
  paged through by cursor while it changes.  Times are integers: the stored ISO texts of UTC times sort alike.
*/
module AuditLog {
  import opened Wrappers

  datatype Row = Row(id: nat, createdAt: int, actor: string, printerId: string, command: string, result: string)

  predicate Ascending(rows: seq<Row>) {
    forall i, j :: 0 <= i < j < |rows| ==> rows[i].id < rows[j].id
  }

  // ---------------------------------------------------------------- retention

  function Unexpired(rows: seq<Row>, cutoff: int): seq<Row> {
    if rows == [] then []
    else
      var last := rows[|rows| - 1];
      Unexpired(rows[..|rows| - 1], cutoff) + if last.createdAt < cutoff then [] else [last]
  }

  function Above(rows: seq<Row>, id: nat): seq<Row> {
    if rows == [] then []
    else
      var last := rows[|rows| - 1];
      Above(rows[..|rows| - 1], id) + if last.id <= id then [] else [last]
  }

  /** The two deletions of `_prune`. */
  function Pruned(rows: seq<Row>, cutoff: int, maxRows: nat): seq<Row> {
    Capped(Unexpired(rows, cutoff), maxRows)
  }

  /** How many unexpired rows are newer than the id. */
  function Newer(rows: seq<Row>, id: nat, cutoff: int): nat {
    if rows == [] then 0
    else
      var last := rows[|rows| - 1];
      Newer(rows[..|rows| - 1], id, cutoff) + if last.id > id && last.createdAt >= cutoff then 1 else 0
  }

  lemma {:induction false} UnexpiredHolds(rows: seq<Row>, cutoff: int, r: Row)
    ensures r in Unexpired(rows, cutoff) <==> r in rows && r.createdAt >= cutoff
  {
    if rows == [] {
    } else {
      assert rows == rows[..|rows| - 1] + [rows[|rows| - 1]];
      UnexpiredHolds(rows[..|rows| - 1], cutoff, r);
    }
  }

  lemma {:induction false} AboveHolds(rows: seq<Row>, id: nat, r: Row)
    ensures r in Above(rows, id) <==> r in rows && r.id > id
  {
    if rows == [] {
    } else {
      assert rows == rows[..|rows| - 1] + [rows[|rows| - 1]];
      AboveHolds(rows[..|rows| - 1], id, r);
    }
  }

  lemma {:induction false} UnexpiredAscends(rows: seq<Row>, cutoff: int)
    requires Ascending(rows)
    ensures Ascending(Unexpired(rows, cutoff))
  {
    if rows == [] {
    } else {
      var rest := Unexpired(rows[..|rows| - 1], cutoff);
      UnexpiredAscends(rows[..|rows| - 1], cutoff);
      forall r | r in rest ensures r.id < rows[|rows| - 1].id { UnexpiredHolds(rows[..|rows| - 1], cutoff, r); }
    }
  }

  lemma {:induction false} AboveAscends(rows: seq<Row>, id: nat)
    requires Ascending(rows)
    ensures Ascending(Above(rows, id))
  {
    if rows == [] {
    } else {
      var rest := Above(rows[..|rows| - 1], id);
      AboveAscends(rows[..|rows| - 1], id);
      forall r | r in rest ensures r.id < rows[|rows| - 1].id { AboveHolds(rows[..|rows| - 1], id, r); }
    }
  }

  lemma {:induction false} NewerOfUnexpired(rows: seq<Row>, id: nat, cutoff: int)
    ensures Newer(rows, id, cutoff) == Newer(Unexpired(rows, cutoff), id, cutoff)
  {
    if rows == [] {
    } else {
      var n := |rows| - 1;
      NewerOfUnexpired(rows[..n], id, cutoff);
      if rows[n].createdAt >= cutoff {
        assert Unexpired(rows, cutoff)[..|Unexpired(rows, cutoff)| - 1] == Unexpired(rows[..n], cutoff);
      } else {
        assert Unexpired(rows, cutoff) == Unexpired(rows[..n], cutoff);
      }
    }
  }

  lemma {:induction false} NewerByPosition(rows: seq<Row>, i: nat, cutoff: int)
    requires Ascending(rows) && i < |rows| && forall r :: r in rows ==> r.createdAt >= cutoff
    ensures Newer(rows, rows[i].id, cutoff) == |rows| - 1 - i
  {
    var n := |rows| - 1;
    if i < n {
      NewerByPosition(rows[..n], i, cutoff);
    } else {
      NoneNewer(rows, rows[n].id, cutoff);
    }
  }

  lemma {:induction false} NoneNewer(rows: seq<Row>, id: nat, cutoff: int)
    requires forall r :: r in rows ==> r.id <= id
    ensures Newer(rows, id, cutoff) == 0
  {
    if rows == [] {
    } else {
      NoneNewer(rows[..|rows| - 1], id, cutoff);
    }
  }

  /** Pruning leaves exactly the newest `maxRows` of the unexpired rows. */
  lemma PrunedIff(rows: seq<Row>, cutoff: int, maxRows: nat, r: Row)
    requires Ascending(rows)
    ensures r in Pruned(rows, cutoff, maxRows) <==>
              r in rows && r.createdAt >= cutoff && Newer(rows, r.id, cutoff) < maxRows
  {
    UnexpiredHolds(rows, cutoff, r);
    UnexpiredAscends(rows, cutoff);
    NewerOfUnexpired(rows, r.id, cutoff);
    if r in Unexpired(rows, cutoff) {
      var i :| 0 <= i < |Unexpired(rows, cutoff)| && Unexpired(rows, cutoff)[i] == r;
      NewerInOrder(rows, i, cutoff);
    }
    CappedIff(Unexpired(rows, cutoff), maxRows, r);
  }

  function Capped(kept: seq<Row>, maxRows: nat): seq<Row> {
    if |kept| > maxRows then Above(kept, kept[|kept| - 1 - maxRows].id) else kept
  }

  lemma CappedIff(kept: seq<Row>, maxRows: nat, r: Row)
    requires Ascending(kept)
    ensures r in Capped(kept, maxRows) <==> exists i :: 0 <= i < |kept| && kept[i] == r && |kept| - 1 - i < maxRows
  {
    if |kept| > maxRows { AboveHolds(kept, kept[|kept| - 1 - maxRows].id, r); }
    if r in kept {
      var i :| 0 <= i < |kept| && kept[i] == r;
      assert |kept| > maxRows ==> (i > |kept| - 1 - maxRows <==> r.id > kept[|kept| - 1 - maxRows].id);
    }
  }

  lemma NewerInOrder(rows: seq<Row>, i: nat, cutoff: int)
    requires Ascending(rows) && i < |Unexpired(rows, cutoff)|
    ensures var kept := Unexpired(rows, cutoff); Ascending(kept) && Newer(kept, kept[i].id, cutoff) == |kept| - 1 - i
  {
    var kept := Unexpired(rows, cutoff);
    UnexpiredAscends(rows, cutoff);
    forall r | r in kept ensures r.createdAt >= cutoff { UnexpiredHolds(rows, cutoff, r); }
    NewerByPosition(kept, i, cutoff);
  }

  lemma PrunedAscends(rows: seq<Row>, cutoff: int, maxRows: nat)
    requires Ascending(rows)
    ensures Ascending(Pruned(rows, cutoff, maxRows))
    ensures forall r :: r in Pruned(rows, cutoff, maxRows) ==> r in rows
  {
    var kept := Unexpired(rows, cutoff);
    UnexpiredAscends(rows, cutoff);
    if |kept| > maxRows { AboveAscends(kept, kept[|kept| - 1 - maxRows].id); }
    forall r | r in Pruned(rows, cutoff, maxRows) ensures r in rows { PrunedIff(rows, cutoff, maxRows, r); }
  }

  lemma {:induction false} AboveIsSuffix(rows: seq<Row>, i: nat)
    requires Ascending(rows) && i < |rows|
    ensures |Above(rows, rows[i].id)| == |rows| - 1 - i
  {
    var n := |rows| - 1;
    if i < n {
      AboveIsSuffix(rows[..n], i);
    } else {
      NothingAbove(rows, rows[n].id);
    }
  }

  lemma {:induction false} NothingAbove(rows: seq<Row>, id: nat)
    requires forall r :: r in rows ==> r.id <= id
    ensures Above(rows, id) == []
  {
    if rows == [] {
    } else {
      NothingAbove(rows[..|rows| - 1], id);
    }
  }

  /** The size after pruning: all unexpired rows, or exactly the cap. */
  lemma PrunedSize(rows: seq<Row>, cutoff: int, maxRows: nat)
    requires Ascending(rows)
    ensures var n := |Unexpired(rows, cutoff)|; |Pruned(rows, cutoff, maxRows)| == if n > maxRows then maxRows else n
  {
    var kept := Unexpired(rows, cutoff);
    UnexpiredAscends(rows, cutoff);
    if |kept| > maxRows { AboveIsSuffix(kept, |kept| - 1 - maxRows); }
  }

  // ------------------------------------------------------------------ history

  datatype Query = Query(printerId: Option<string>, command: Option<string>, result: Option<string>,
                         actor: Option<string>, fromTime: Option<int>, toTime: Option<int>)

  predicate Is(wanted: Option<string>, value: string) {
    wanted.Some? ==> wanted.value == value
  }

  predicate Matches(q: Query, r: Row) {
    && Is(q.printerId, r.printerId) && Is(q.command, r.command) && Is(q.result, r.result) && Is(q.actor, r.actor)
    && (q.fromTime.Some? ==> r.createdAt >= q.fromTime.value)
    && (q.toTime.Some? ==> r.createdAt <= q.toTime.value)
  }

  predicate Before(cursor: Option<nat>, id: nat) {
    cursor.Some? ==> id < cursor.value
  }

  datatype Page = Page(items: seq<Row>, next: Option<nat>)

  /** Every one of the first n rows that the query selects, newest first. */
  function ListingTo(rows: seq<Row>, n: nat, q: Query, cursor: Option<nat>): seq<Row>
    requires n <= |rows|
  {
    if n == 0 then []
    else
      (if Matches(q, rows[n - 1]) && Before(cursor, rows[n - 1].id) then [rows[n - 1]] else [])
      + ListingTo(rows, n - 1, q, cursor)
  }

  function Listing(rows: seq<Row>, q: Query, cursor: Option<nat>): seq<Row> {
    ListingTo(rows, |rows|, q, cursor)
  }

  function PageOf(rows: seq<Row>, q: Query, cursor: Option<nat>, limit: nat): Page
    requires limit >= 1
  {
    var all := Listing(rows, q, cursor);
    if |all| > limit then Page(all[..limit], Some(all[limit - 1].id)) else Page(all, None)
  }

  predicate Descending(items: seq<Row>) {
    forall i, j :: 0 <= i < j < |items| ==> items[i].id > items[j].id
  }

  lemma {:induction false} ListingHolds(rows: seq<Row>, n: nat, q: Query, cursor: Option<nat>, r: Row)
    requires n <= |rows|
    ensures r in ListingTo(rows, n, q, cursor) <==> r in rows[..n] && Matches(q, r) && Before(cursor, r.id)
  {
    if n == 0 {
    } else {
      assert rows[..n] == rows[..n - 1] + [rows[n - 1]];
      ListingHolds(rows, n - 1, q, cursor, r);
    }
  }

  lemma {:induction false} ListingDescends(rows: seq<Row>, n: nat, q: Query, cursor: Option<nat>)
    requires Ascending(rows) && n <= |rows|
    ensures Descending(ListingTo(rows, n, q, cursor))
  {
    if n == 0 {
    } else {
      var rest := ListingTo(rows, n - 1, q, cursor);
      ListingDescends(rows, n - 1, q, cursor);
      forall r | r in rest ensures r.id < rows[n - 1].id {
        ListingHolds(rows, n - 1, q, cursor, r);
      }
    }
  }

  /** A page selects matching rows only, in descending order. */
  lemma PageSelects(rows: seq<Row>, q: Query, cursor: Option<nat>, limit: nat)
    requires Ascending(rows) && limit >= 1
    ensures Descending(PageOf(rows, q, cursor, limit).items)
    ensures forall r :: r in PageOf(rows, q, cursor, limit).items ==> r in rows && Matches(q, r) && Before(cursor, r.id)
    ensures forall r :: r in PageOf(rows, q, cursor, limit).items ==>
      && (q.printerId.Some? ==> r.printerId == q.printerId.value) && (q.command.Some? ==> r.command == q.command.value)
      && (q.result.Some? ==> r.result == q.result.value) && (q.actor.Some? ==> r.actor == q.actor.value)
      && (q.fromTime.Some? ==> q.fromTime.value <= r.createdAt) && (q.toTime.Some? ==> r.createdAt <= q.toTime.value)
      && (cursor.Some? ==> r.id < cursor.value)
  {
    ListingDescends(rows, |rows|, q, cursor);
    forall r | r in PageOf(rows, q, cursor, limit).items ensures r in rows && Matches(q, r) && Before(cursor, r.id) {
      ListingHolds(rows, |rows|, q, cursor, r);
      assert rows[..|rows|] == rows;
    }
  }

  /** It is complete down to its next cursor. */
  lemma PageIsComplete(rows: seq<Row>, q: Query, cursor: Option<nat>, limit: nat, r: Row)
    requires Ascending(rows) && limit >= 1 && r in rows && Matches(q, r) && Before(cursor, r.id)
    ensures var p := PageOf(rows, q, cursor, limit); r in p.items || (p.next.Some? && r.id < p.next.value)
  {
    var all := Listing(rows, q, cursor);
    ListingDescends(rows, |rows|, q, cursor);
    ListingHolds(rows, |rows|, q, cursor, r);
    assert rows[..|rows|] == rows;
    var i :| 0 <= i < |all| && all[i] == r;
    if i < limit && |all| > limit { assert all[..limit][i] == r; }
  }

  /** A page that has a successor is full, and its next cursor is its last and lowest id. */
  lemma FullPage(rows: seq<Row>, q: Query, cursor: Option<nat>, limit: nat)
    requires Ascending(rows) && limit >= 1 && PageOf(rows, q, cursor, limit).next.Some?
    ensures var p := PageOf(rows, q, cursor, limit);
      && |p.items| == limit && p.items[limit - 1].id == p.next.value
      && forall r :: r in p.items ==> r.id >= p.next.value
  {
    ListingDescends(rows, |rows|, q, cursor);
    var p := PageOf(rows, q, cursor, limit);
    forall r | r in p.items ensures r.id >= p.next.value {
      var i :| 0 <= i < limit && p.items[i] == r;
      assert i < limit - 1 ==> p.items[i].id > p.items[limit - 1].id;
    }
  }

  // --------------------------------------------------------- walking the pages

  /** How the table may change between two requests: rows vanish, and new ones carry ids never used before. */
  ghost predicate Evolves(before: seq<Row>, lastId: nat, after: seq<Row>) {
    forall r :: r in after ==> r in before || r.id > lastId
  }

  /** The tables the successive requests of one walk meet; `lastId` belongs to the first. */
  ghost predicate Successive(tables: seq<seq<Row>>, lastId: nat) {
    && tables != []
    && (forall i :: 0 <= i < |tables| ==> Ascending(tables[i]) && Evolves(tables[0], lastId, tables[i]))
    && (forall r :: r in tables[0] ==> r.id <= lastId)
  }

  /** Following next_cursor until there is none, or no further request is made. */
  function Walk(tables: seq<seq<Row>>, q: Query, cursor: Option<nat>, limit: nat): seq<Row>
    requires limit >= 1
  {
    if tables == [] then []
    else
      var p := PageOf(tables[0], q, cursor, limit);
      p.items + if p.next.Some? then Walk(tables[1..], q, p.next, limit) else []
  }

  predicate Finished(tables: seq<seq<Row>>, q: Query, cursor: Option<nat>, limit: nat)
    requires limit >= 1
  {
    tables != [] &&
    var p := PageOf(tables[0], q, cursor, limit);
    p.next.None? || Finished(tables[1..], q, p.next, limit)
  }

  /** The number of requests the walk makes. */
  function Requests(tables: seq<seq<Row>>, q: Query, cursor: Option<nat>, limit: nat): (n: nat)
    requires limit >= 1
    ensures n <= |tables|
  {
    if tables == [] then 0
    else
      var p := PageOf(tables[0], q, cursor, limit);
      1 + if p.next.Some? then Requests(tables[1..], q, p.next, limit) else 0
  }

  lemma {:induction false} WalkDescends(tables: seq<seq<Row>>, q: Query, cursor: Option<nat>, limit: nat)
    requires limit >= 1 && forall i :: 0 <= i < |tables| ==> Ascending(tables[i])
    ensures Descending(Walk(tables, q, cursor, limit))
    ensures forall r :: r in Walk(tables, q, cursor, limit) ==>
              Before(cursor, r.id) && Matches(q, r) && exists i :: 0 <= i < |tables| && r in tables[i]
  {
    if tables == [] {
    } else {
      var p := PageOf(tables[0], q, cursor, limit);
      PageSelects(tables[0], q, cursor, limit);
      if p.next.Some? {
        FullPage(tables[0], q, cursor, limit);
        WalkDescends(tables[1..], q, p.next, limit);
        DescendingJoin(p.items, Walk(tables[1..], q, p.next, limit), p.next.value);
        forall r | r in Walk(tables[1..], q, p.next, limit)
          ensures Before(cursor, r.id) && exists i :: 0 <= i < |tables| && r in tables[i]
        {
          assert p.items[limit - 1] in p.items;
          var i :| 0 <= i < |tables[1..]| && r in tables[1..][i];
          assert r in tables[i + 1];
        }
      }
    }
  }

  lemma DescendingJoin(a: seq<Row>, b: seq<Row>, bound: nat)
    requires Descending(a) && Descending(b)
    requires (forall r :: r in a ==> r.id >= bound) && forall r :: r in b ==> r.id < bound
    ensures Descending(a + b)
  {
    var c := a + b;
    forall i, j | 0 <= i < j < |c| ensures c[i].id > c[j].id {
      if i < |a| <= j { assert c[i] in a && c[j] in b; }
    }
  }

  lemma {:induction false} WalkMisses(tables: seq<seq<Row>>, q: Query, cursor: Option<nat>, limit: nat, r: Row)
    requires limit >= 1 && forall i :: 0 <= i < |tables| ==> Ascending(tables[i])
    requires Finished(tables, q, cursor, limit) && Matches(q, r) && Before(cursor, r.id)
    requires forall i :: 0 <= i < Requests(tables, q, cursor, limit) ==> r in tables[i]
    ensures r in Walk(tables, q, cursor, limit)
  {
    var p := PageOf(tables[0], q, cursor, limit);
    assert r in tables[0];
    PageIsComplete(tables[0], q, cursor, limit, r);
    if r !in p.items {
      forall i | 0 <= i < Requests(tables[1..], q, p.next, limit) ensures r in tables[1..][i] {
        assert r in tables[i + 1];
      }
      WalkMisses(tables[1..], q, p.next, limit, r);
    }
  }

  lemma {:induction false} WalkLength(tables: seq<seq<Row>>, q: Query, cursor: Option<nat>, limit: nat)
    requires limit >= 1 && !Finished(tables, q, cursor, limit)
    ensures |Walk(tables, q, cursor, limit)| == limit * |tables|
  {
    if tables == [] {
    } else {
      var p := PageOf(tables[0], q, cursor, limit);
      FirstPageIsFull(tables[0], q, cursor, limit);
      WalkLength(tables[1..], q, p.next, limit);
      OneMore(limit, |tables|);
    }
  }

  lemma FirstPageIsFull(rows: seq<Row>, q: Query, cursor: Option<nat>, limit: nat)
    requires limit >= 1 && PageOf(rows, q, cursor, limit).next.Some?
    ensures |PageOf(rows, q, cursor, limit).items| == limit
  {
  }

  lemma OneMore(limit: nat, n: nat)
    requires n >= 1
    ensures limit * n == limit + limit * (n - 1)
  {
  }

  lemma {:induction false} DescendingIsShort(items: seq<Row>, top: nat)
    requires Descending(items) && forall r :: r in items ==> 1 <= r.id <= top
    ensures |items| <= top
  {
    if items == [] {
    } else {
      var n := |items| - 1;
      if n > 0 {
        forall r | r in items[1..] ensures 1 <= r.id <= items[0].id - 1 {
          var i :| 0 <= i < n && items[1..][i] == r;
          assert r == items[i + 1] && r in items;
        }
        assert items[0] in items;
        DescendingIsShort(items[1..], items[0].id - 1);
      } else {
        assert items[0] in items;
      }
    }
  }

  /**
    Pagination is exact under change.  Whatever is recorded and pruned between the requests, a walk returns strictly
    descending ids, so no row twice; only matching rows that were there at the first request, so none recorded later;
    and once finished, every matching row that was there at each of its requests.
  */
  lemma PaginationIsExact(tables: seq<seq<Row>>, lastId: nat, q: Query, limit: nat)
    requires Successive(tables, lastId) && limit >= 1
    ensures Descending(Walk(tables, q, None, limit))
    ensures forall r :: r in Walk(tables, q, None, limit) ==> r in tables[0] && Matches(q, r)
    ensures Finished(tables, q, None, limit) ==>
              forall r :: Matches(q, r) && (forall i :: 0 <= i < Requests(tables, q, None, limit) ==> r in tables[i])
                ==> r in Walk(tables, q, None, limit)
  {
    WalkDescends(tables, q, None, limit);
    WalkStartsBelow(tables, lastId, q, limit);
    forall r | r in Walk(tables, q, None, limit) ensures r in tables[0] {
      var i :| 0 <= i < |tables| && r in tables[i];
      assert Evolves(tables[0], lastId, tables[i]);
    }
    if Finished(tables, q, None, limit) {
      forall r | Matches(q, r) && (forall i :: 0 <= i < Requests(tables, q, None, limit) ==> r in tables[i])
        ensures r in Walk(tables, q, None, limit)
      {
        WalkMisses(tables, q, None, limit, r);
      }
    }
  }

  lemma WalkStartsBelow(tables: seq<seq<Row>>, lastId: nat, q: Query, limit: nat)
    requires Successive(tables, lastId) && limit >= 1
    ensures forall r :: r in Walk(tables, q, None, limit) ==> r.id <= lastId
  {
    var p := PageOf(tables[0], q, None, limit);
    PageSelects(tables[0], q, None, limit);
    if p.next.Some? {
      FullPage(tables[0], q, None, limit);
      WalkDescends(tables[1..], q, p.next, limit);
      assert p.items[limit - 1] in p.items;
    }
  }

  /** A walk ends: an unfinished one has taken a full page of distinct ids per request. */
  lemma WalksEnd(tables: seq<seq<Row>>, lastId: nat, q: Query, limit: nat)
    requires Successive(tables, lastId) && limit >= 1 && forall r :: r in tables[0] ==> r.id >= 1
    requires limit * |tables| > lastId
    ensures Finished(tables, q, None, limit)
  {
    if !Finished(tables, q, None, limit) {
      PaginationIsExact(tables, lastId, q, limit);
      WalkLength(tables, q, None, limit);
      DescendingIsShort(Walk(tables, q, None, limit), lastId);
    }
  }

  // ------------------------------------------------------- the log over time

  /** The table and the highest id ever given out, which AUTOINCREMENT never reuses. */
  datatype Log = Log(rows: seq<Row>, lastId: nat)

  predicate Sound(log: Log) {
    Ascending(log.rows) && forall r :: r in log.rows ==> 1 <= r.id <= log.lastId
  }

  datatype Entry = Entry(actor: string, printerId: string, command: string, result: string)

  function Cut(text: string, length: nat): string {
    if |text| > length then text[..length] else text
  }

  function RowFor(entry: Entry, id: nat, createdAt: int): Row {
    Row(id, createdAt, Cut(entry.actor, 128), Cut(entry.printerId, 64), Cut(entry.command, 64), Cut(entry.result, 32))
  }

  /** The row says what the entry says, each text in its own column and cut to the column's length. */
  predicate Says(r: Row, entry: Entry, id: nat, createdAt: int) {
    && r.id == id && r.createdAt == createdAt
    && IsCut(r.actor, entry.actor, 128) && IsCut(r.printerId, entry.printerId, 64)
    && IsCut(r.command, entry.command, 64) && IsCut(r.result, entry.result, 32)
  }

  predicate IsCut(part: string, whole: string, length: nat) {
    part <= whole && |part| <= length && (|part| < length ==> part == whole)
  }

  /** One write: a record, read off two clock readings, or the pruning at start-up. */
  datatype Write = Record(entry: Entry, createdAt: int, cutoff: int) | Prune(cutoff: int)

  function Inserted(log: Log, write: Write): Log {
    match write
    case Record(entry, createdAt, _) => Log(log.rows + [RowFor(entry, log.lastId + 1, createdAt)], log.lastId + 1)
    case Prune(_) => log
  }

  function Written(log: Log, write: Write, maxRows: nat): Log {
    var inserted := Inserted(log, write);
    Log(Pruned(inserted.rows, write.cutoff, maxRows), inserted.lastId)
  }

  /**
    After a record the table holds exactly the newest `maxRows` of the rows there were and the new one, which says what
    was recorded, without those that are too old.
  */
  lemma RecordedIff(log: Log, entry: Entry, createdAt: int, cutoff: int, maxRows: nat, r: Row)
    requires Sound(log)
    ensures var after := Written(log, Record(entry, createdAt, cutoff), maxRows);
            && after.lastId == log.lastId + 1
            && (r in after.rows <==>
                  && (r in log.rows || Says(r, entry, log.lastId + 1, createdAt)) && r.createdAt >= cutoff
                  && Newer(log.rows, r.id, cutoff)
                     + (if r in log.rows && createdAt >= cutoff then 1 else 0) < maxRows)
  {
    var row := RowFor(entry, log.lastId + 1, createdAt);
    var rows := log.rows + [row];
    InsertedSound(log, Record(entry, createdAt, cutoff));
    PrunedIff(rows, cutoff, maxRows, r);
    assert rows[..|rows| - 1] == log.rows;
    SaysIff(r, entry, log.lastId + 1, createdAt);
  }

  lemma SaysIff(r: Row, entry: Entry, id: nat, createdAt: int)
    ensures Says(r, entry, id, createdAt) <==> r == RowFor(entry, id, createdAt)
  {
    CutIff(r.actor, entry.actor, 128);
    CutIff(r.printerId, entry.printerId, 64);
    CutIff(r.command, entry.command, 64);
    CutIff(r.result, entry.result, 32);
  }

  lemma CutIff(part: string, whole: string, length: nat)
    ensures IsCut(part, whole, length) <==> part == Cut(whole, length)
  {
  }

  /** The table has the row that says what was recorded. */
  ghost predicate Keeps(rows: seq<Row>, entry: Entry, id: nat, createdAt: int) {
    exists r :: r in rows && Says(r, entry, id, createdAt)
  }

  lemma RecordKeeps(log: Log, entry: Entry, createdAt: int, cutoff: int, maxRows: nat)
    requires Sound(log) && createdAt >= cutoff && maxRows >= 1
    ensures Keeps(Written(log, Record(entry, createdAt, cutoff), maxRows).rows, entry, log.lastId + 1, createdAt)
  {
    var row := RowFor(entry, log.lastId + 1, createdAt);
    SaysIff(row, entry, log.lastId + 1, createdAt);
    RecordedIff(log, entry, createdAt, cutoff, maxRows, row);
    NoneNewer(log.rows, row.id, cutoff);
  }

  function After(log: Log, writes: seq<Write>, maxRows: nat): Log {
    if writes == [] then log
    else Written(After(log, writes[..|writes| - 1], maxRows), writes[|writes| - 1], maxRows)
  }

  lemma InsertedSound(log: Log, write: Write)
    requires Sound(log)
    ensures Sound(Inserted(log, write))
  {
  }

  lemma PrunedSound(log: Log, cutoff: int, maxRows: nat)
    requires Sound(log)
    ensures Sound(Log(Pruned(log.rows, cutoff, maxRows), log.lastId))
  {
    PrunedAscends(log.rows, cutoff, maxRows);
  }

  lemma WrittenSound(log: Log, write: Write, maxRows: nat)
    requires Sound(log)
    ensures Sound(Written(log, write, maxRows)) && Written(log, write, maxRows).lastId >= log.lastId
    ensures Evolves(log.rows, log.lastId, Written(log, write, maxRows).rows)
  {
    InsertedSound(log, write);
    PrunedAscends(Inserted(log, write).rows, write.cutoff, maxRows);
  }

  lemma {:induction false} AfterSound(log: Log, writes: seq<Write>, maxRows: nat)
    requires Sound(log)
    ensures Sound(After(log, writes, maxRows)) && After(log, writes, maxRows).lastId >= log.lastId
    ensures Evolves(log.rows, log.lastId, After(log, writes, maxRows).rows)
  {
    if writes == [] {
    } else {
      var before := After(log, writes[..|writes| - 1], maxRows);
      AfterSound(log, writes[..|writes| - 1], maxRows);
      WrittenSound(before, writes[|writes| - 1], maxRows);
    }
  }

  /** The tables that successive requests see when the given writes happen between them. */
  function Tables(log: Log, between: seq<seq<Write>>, maxRows: nat): seq<seq<Row>>
    decreases |between|
  {
    [log.rows] + if between == [] then [] else Tables(After(log, between[0], maxRows), between[1..], maxRows)
  }

  lemma EvolvesOn(log: Log, next: Log, rows: seq<Row>)
    requires Evolves(log.rows, log.lastId, next.rows) && next.lastId >= log.lastId
    requires Evolves(next.rows, next.lastId, rows)
    ensures Evolves(log.rows, log.lastId, rows)
  {
  }

  lemma {:induction false} TablesEvolve(log: Log, between: seq<seq<Write>>, maxRows: nat)
    requires Sound(log)
    ensures |Tables(log, between, maxRows)| == |between| + 1
    ensures Successive(Tables(log, between, maxRows), log.lastId)
    decreases |between|
  {
    if between == [] {
    } else {
      var next := After(log, between[0], maxRows);
      var rest := Tables(next, between[1..], maxRows);
      AfterSound(log, between[0], maxRows);
      TablesEvolve(next, between[1..], maxRows);
      var tables := Tables(log, between, maxRows);
      forall i | 0 <= i < |tables| ensures Ascending(tables[i]) && Evolves(tables[0], log.lastId, tables[i]) {
        if i > 0 {
          assert tables[i] == rest[i - 1] && rest[0] == next.rows;
          EvolvesOn(log, next, rest[i - 1]);
        }
      }
    }
  }

  /** Exact pagination, and an end to every walk, for every sequence of writes between the requests. */
  lemma PaginationOverRuns(log: Log, between: seq<seq<Write>>, maxRows: nat, q: Query, limit: nat)
    requires Sound(log) && limit >= 1
    ensures var tables := Tables(log, between, maxRows);
      && Descending(Walk(tables, q, None, limit))
      && (forall r :: r in Walk(tables, q, None, limit) ==> r in log.rows && Matches(q, r))
      && (Finished(tables, q, None, limit) ==>
            forall r :: Matches(q, r) && (forall i :: 0 <= i < Requests(tables, q, None, limit) ==> r in tables[i])
              ==> r in Walk(tables, q, None, limit))
      && (limit * |tables| > log.lastId ==> Finished(tables, q, None, limit))
  {
    var tables := Tables(log, between, maxRows);
    TablesEvolve(log, between, maxRows);
    PaginationIsExact(tables, log.lastId, q, limit);
    if limit * |tables| > log.lastId { WalksEnd(tables, log.lastId, q, limit); }
  }

  // ---------------------------------------------------------------- the class

  datatype Column = PrinterId | CommandName | ResultName | Actor

  datatype Clause = Equals(column: Column, text: string) | IdBelow(id: nat) | NotBefore(time: int) | NotAfter(time: int)

  function Value(r: Row, column: Column): string {
    match column
    case PrinterId => r.printerId
    case CommandName => r.command
    case ResultName => r.result
    case Actor => r.actor
  }

  predicate Holds(clause: Clause, r: Row) {
    match clause
    case Equals(column, text) => Value(r, column) == text
    case IdBelow(id) => r.id < id
    case NotBefore(time) => r.createdAt >= time
    case NotAfter(time) => r.createdAt <= time
  }

  predicate AllHold(clauses: seq<Clause>, r: Row) {
    forall i :: 0 <= i < |clauses| ==> Holds(clauses[i], r)
  }

  function Wanted(column: Column, text: Option<string>): seq<Clause> {
    if text.Some? then [Equals(column, text.value)] else []
  }

  function Bounds(cursor: Option<nat>, q: Query): seq<Clause> {
    (if cursor.Some? then [IdBelow(cursor.value)] else [])
    + (if q.fromTime.Some? then [NotBefore(q.fromTime.value)] else [])
    + (if q.toTime.Some? then [NotAfter(q.toTime.value)] else [])
  }

  function ClausesFor(cursor: Option<nat>, q: Query): seq<Clause> {
    Wanted(PrinterId, q.printerId) + Wanted(CommandName, q.command)
    + Wanted(ResultName, q.result) + Wanted(Actor, q.actor)
    + Bounds(cursor, q)
  }

  lemma BothHold(a: seq<Clause>, b: seq<Clause>, r: Row)
    ensures AllHold(a + b, r) <==> AllHold(a, r) && AllHold(b, r)
  {
    if AllHold(a + b, r) {
      forall i | 0 <= i < |a| ensures Holds(a[i], r) { assert (a + b)[i] == a[i]; }
      forall i | 0 <= i < |b| ensures Holds(b[i], r) { assert (a + b)[|a| + i] == b[i]; }
    }
  }

  lemma WantedHolds(column: Column, text: Option<string>, r: Row)
    ensures AllHold(Wanted(column, text), r) <==> Is(text, Value(r, column))
  {
    if text.Some? { assert Wanted(column, text)[0] == Equals(column, text.value); }
  }

  /** The collected clauses say what the query asks for. */
  lemma ClausesMean(cursor: Option<nat>, q: Query, r: Row)
    ensures AllHold(ClausesFor(cursor, q), r) <==> Matches(q, r) && Before(cursor, r.id)
  {
    var p, c := Wanted(PrinterId, q.printerId), Wanted(CommandName, q.command);
    var u, a := Wanted(ResultName, q.result), Wanted(Actor, q.actor);
    var x: seq<Clause> := if cursor.Some? then [IdBelow(cursor.value)] else [];
    var y: seq<Clause> := if q.fromTime.Some? then [NotBefore(q.fromTime.value)] else [];
    var z: seq<Clause> := if q.toTime.Some? then [NotAfter(q.toTime.value)] else [];
    WantedHolds(PrinterId, q.printerId, r);
    WantedHolds(CommandName, q.command, r);
    WantedHolds(ResultName, q.result, r);
    WantedHolds(Actor, q.actor, r);
    BothHold(p, c, r);
    BothHold(p + c, u, r);
    BothHold(p + c + u, a, r);
    BothHold(p + c + u + a, Bounds(cursor, q), r);
    BothHold(x, y, r);
    BothHold(x + y, z, r);
    assert x != [] ==> x[0] == IdBelow(cursor.value);
    assert y != [] ==> y[0] == NotBefore(q.fromTime.value);
    assert z != [] ==> z[0] == NotAfter(q.toTime.value);
  }

  /** What a recording transaction executes; each may raise. */
  datatype Statement = InsertRow | DeleteExpiredRows | SelectBoundary | DeleteSurplusRows | CommitWrites

  class AuditLog {
    const retention: int
    const maxRows: nat
    var rows: seq<Row>
    var lastId: nat

    predicate Valid()
      reads this
    {
      Sound(Log(rows, lastId))
    }

    /** Opens a table, pruning it. */
    constructor (retention: int, maxRows: nat, log: Log, now: int)
      requires Sound(log)
      ensures this.retention == retention && this.maxRows == maxRows && Valid()
      ensures Log(rows, lastId) == Written(log, Write.Prune(now - retention), maxRows)
    {
      this.retention, this.maxRows, rows, lastId := retention, maxRows, log.rows, log.lastId;
      new;
      Prune(now);
    }

    /** `_prune` at start-up, where a failing statement means that there is no log. */
    method Prune(now: int)
      requires Valid()
      modifies this`rows
      ensures Valid() && rows == Pruned(old(rows), now - retention, maxRows)
    {
      ghost var log := Log(rows, lastId);
      var ok := DeleteOld(now - retention, _ => false);
      PrunedSound(log, now - retention, maxRows);
    }

    /** `_prune`: age first, then everything from the row `maxRows` places below the newest; any statement may raise. */
    method DeleteOld(cutoff: int, raises: Statement -> bool) returns (ok: bool)
      modifies this`rows
      ensures ok ==> rows == Pruned(old(rows), cutoff, maxRows)
      ensures !ok ==> raises(DeleteExpiredRows) || raises(SelectBoundary) || raises(DeleteSurplusRows)
    {
      if raises(DeleteExpiredRows) { return false; }
      DeleteExpired(cutoff);
      if raises(SelectBoundary) { return false; }
      if |rows| > maxRows {
        if raises(DeleteSurplusRows) { return false; }
        DeleteUpTo(rows[|rows| - 1 - maxRows].id);
      }
      ok := true;
    }

    method DeleteExpired(cutoff: int)
      modifies this`rows
      ensures rows == Unexpired(old(rows), cutoff)
    {
      var i, kept := 0, [];
      while i < |rows|
        invariant i <= |rows| && kept == Unexpired(rows[..i], cutoff)
      {
        assert rows[..i + 1][..i] == rows[..i];
        if rows[i].createdAt >= cutoff { kept := kept + [rows[i]]; }
        i := i + 1;
      }
      assert rows[..i] == rows;
      rows := kept;
    }

    method DeleteUpTo(id: nat)
      modifies this`rows
      ensures rows == Above(old(rows), id)
    {
      var i, kept := 0, [];
      while i < |rows|
        invariant i <= |rows| && kept == Above(rows[..i], id)
      {
        assert rows[..i + 1][..i] == rows[..i];
        if rows[i].id > id { kept := kept + [rows[i]]; }
        i := i + 1;
      }
      assert rows[..i] == rows;
      rows := kept;
    }

    /**
      `record`: insertion and pruning in one transaction, which takes place as a whole or, when a statement or the
      commit raises, not at all.  The clock is read once for the row and once for the pruning.
    */
    method Record(entry: Entry, createdAt: int, now: int, raises: Statement -> bool) returns (ok: bool)
      requires Valid()
      modifies this
      ensures Valid()
      ensures Log(rows, lastId) ==
              if ok then Written(old(Log(rows, lastId)), Write.Record(entry, createdAt, now - retention), maxRows)
              else old(Log(rows, lastId))
      ensures ok && createdAt >= now - retention && maxRows >= 1 ==> Keeps(rows, entry, old(lastId) + 1, createdAt)
      ensures !ok ==> exists statement :: raises(statement)
    {
      ghost var journal := Log(rows, lastId);
      ok := Transact(entry, createdAt, now, raises);
      if ok && createdAt >= now - retention && maxRows >= 1 {
        RecordKeeps(journal, entry, createdAt, now - retention, maxRows);
      }
    }

    /** The transaction itself. */
    method Transact(entry: Entry, createdAt: int, now: int, raises: Statement -> bool) returns (ok: bool)
      requires Valid()
      modifies this
      ensures Valid()
      ensures Log(rows, lastId) ==
              if ok then Written(old(Log(rows, lastId)), Write.Record(entry, createdAt, now - retention), maxRows)
              else old(Log(rows, lastId))
      ensures !ok ==> exists statement :: raises(statement)
    {
      var journal := Log(rows, lastId);
      var write := Write.Record(entry, createdAt, now - retention);
      InsertedSound(journal, write);
      PrunedSound(Inserted(journal, write), now - retention, maxRows);
      ok := !raises(InsertRow);
      if ok {
        lastId := lastId + 1;
        rows := rows + [RowFor(entry, lastId, createdAt)];
        ok := DeleteOld(now - retention, raises);
      }
      if ok && raises(CommitWrites) { ok := false; }
      if !ok { rows, lastId := journal.rows, journal.lastId; }
    }

    /** `history`: the clauses are collected, and the table is read from its newest row down to one row too many. */
    method History(limit: int, cursor: Option<nat>, q: Query) returns (page: Option<Page>)
      requires Valid()
      ensures page == if 1 <= limit <= 100 then Some(PageOf(rows, q, cursor, limit)) else None
    {
      if !(1 <= limit <= 100) { return None; }
      var clauses := Clauses(cursor, q);
      var found := Select(clauses, limit + 1, q, cursor);
      var items := if |found| > limit then found[..limit] else found;
      assert items == PageOf(rows, q, cursor, limit).items;
      page := Some(Page(items, if |found| > limit then Some(items[limit - 1].id) else None));
    }

    /** ORDER BY id DESC LIMIT. */
    method Select(clauses: seq<Clause>, limit: nat, ghost q: Query, ghost cursor: Option<nat>) returns (found: seq<Row>)
      requires clauses == ClausesFor(cursor, q)
      ensures var all := Listing(rows, q, cursor); found == if |all| > limit then all[..limit] else all
    {
      var i := |rows|;
      ghost var all := Listing(rows, q, cursor);
      found := [];
      while i > 0 && |found| < limit
        invariant 0 <= i <= |rows| && |found| <= limit && |found| <= |all|
        invariant found == all[..|found|] && ListingTo(rows, i, q, cursor) == all[|found|..]
      {
        i := i - 1;
        ClausesMean(cursor, q, rows[i]);
        if AllHold(clauses, rows[i]) {
          TakeOne(all, |found|, rows[i], ListingTo(rows, i, q, cursor));
          found := found + [rows[i]];
        }
      }
    }

    lemma TakeOne(all: seq<Row>, n: nat, r: Row, rest: seq<Row>)
      requires n <= |all| && all[n..] == [r] + rest
      ensures n < |all| && all[..n + 1] == all[..n] + [r] && all[n + 1..] == rest
    {
      assert all[n..][0] == r;
      assert all[n..][1..] == rest;
    }

    method Clauses(cursor: Option<nat>, q: Query) returns (clauses: seq<Clause>)
      ensures clauses == ClausesFor(cursor, q)
    {
      clauses := [];
      clauses := AddWanted(clauses, PrinterId, q.printerId);
      clauses := AddWanted(clauses, CommandName, q.command);
      clauses := AddWanted(clauses, ResultName, q.result);
      clauses := AddWanted(clauses, Actor, q.actor);
      clauses := AddBounds(clauses, cursor, q);
    }

    method AddBounds(clauses: seq<Clause>, cursor: Option<nat>, q: Query) returns (more: seq<Clause>)
      ensures more == clauses + Bounds(cursor, q)
    {
      more := clauses;
      if cursor.Some? { more := more + [IdBelow(cursor.value)]; }
      if q.fromTime.Some? { more := more + [NotBefore(q.fromTime.value)]; }
      if q.toTime.Some? { more := more + [NotAfter(q.toTime.value)]; }
    }

    method AddWanted(clauses: seq<Clause>, column: Column, text: Option<string>) returns (more: seq<Clause>)
      ensures more == clauses + Wanted(column, text)
    {
      more := clauses;
      if text.Some? { more := more + [Equals(column, text.value)]; }
    }
  }
}
