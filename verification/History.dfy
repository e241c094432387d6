/**
 Message history with a cursor: SaveMessage and the three message queries of internal/db/db.go, as
 handleHistory of internal/server/web.go drives them.

 The cursor is an id, the order of a page is by created_at, and rows with the same created_at may come
 in any order; so a query has many legal answers.  A reader pages back by passing the smallest id of
 each page as the next cursor, while new messages are being saved.
 */
module History {
  import opened Common

  datatype Kind = Public | Private | Group

  /** A row of messages joined with the names of its sender, recipient and group. */
  datatype Row =
    Row(id: int, from: string, to: string, group: string, kind: Kind, content: string, createdAt: int)

  datatype Query = PublicLog | GroupLog(group: string) | PrivateLog(user: string, peer: string)

  predicate Matches(q: Query, r: Row) {
    match q
    case PublicLog => r.kind.Public?
    case GroupLog(group) => r.kind.Group? && r.group == group
    case PrivateLog(user, peer) =>
      r.kind.Private? && ((r.from == user && r.to == peer) || (r.from == peer && r.to == user))
  }

  /** The logs a message belongs to; a private one is in that of each of the two, seen from its side. */
  function LogsOf(r: Row): set<Query> {
    match r.kind
    case Public => {PublicLog}
    case Group => {GroupLog(r.group)}
    case Private => {PrivateLog(r.from, r.to), PrivateLog(r.to, r.from)}
  }

  lemma ShownInItsLogs(q: Query, r: Row)
    ensures Matches(q, r) <==> q in LogsOf(r)
  {
  }

  /** Ids are handed out in increasing order from 1. */
  ghost predicate IsTable(t: seq<Row>) {
    && (forall i :: 0 <= i < |t| ==> t[i].id >= 1)
    && (forall i, j :: 0 <= i < j < |t| ==> t[i].id < t[j].id)
  }

  /** The rows a query may return, newest id first; a cursor of 0 or less is no cursor. */
  function Newest(t: seq<Row>, q: Query, before: int): seq<Row> {
    if t == [] then []
    else
      var last := t[|t| - 1];
      (if Matches(q, last) && (before <= 0 || last.id < before) then [last] else [])
      + Newest(t[..|t| - 1], q, before)
  }

  /** No row left out is newer than the last one returned. */
  ghost predicate NothingNewerLeft(rows: seq<Row>, page: seq<Row>)
    requires page != []
  {
    forall r :: r in rows && r !in page ==> r.createdAt <= page[|page| - 1].createdAt
  }

  /** ORDER BY created_at DESC LIMIT limit, with ties in any order. */
  ghost predicate IsPage(rows: seq<Row>, limit: nat, page: seq<Row>) {
    && |page| == (if |rows| <= limit then |rows| else limit)
    && (forall i :: 0 <= i < |page| ==> page[i] in rows)
    && (forall i, j :: 0 <= i < j < |page| ==>
          page[i].id != page[j].id && page[i].createdAt >= page[j].createdAt)
    && (page != [] ==> NothingNewerLeft(rows, page))
  }

  function MinId(page: seq<Row>): (m: int)
    requires page != []
    ensures forall i :: 0 <= i < |page| ==> m <= page[i].id
    ensures exists i :: 0 <= i < |page| && m == page[i].id
  {
    if |page| == 1 then page[0].id
    else
      var m := MinId(page[..|page| - 1]);
      var last := page[|page| - 1].id;
      if last < m then last else m
  }

  /**
   Requests that got an answer: each on the table as it is by then, with the smallest id of the previous
   page as cursor.  The last table is the one at the time the reader stops.
   */
  ghost predicate Asks(tables: seq<seq<Row>>, q: Query, limit: nat, before: int, pages: seq<seq<Row>>)
    decreases |pages|
  {
    && |tables| == |pages| + 1
    && (pages != [] ==>
          && pages[0] != []
          && IsPage(Newest(tables[0], q, before), limit, pages[0])
          && Asks(tables[1..], q, limit, MinId(pages[0]), pages[1..]))
  }

  /** The same until nothing is left. */
  ghost predicate Requests(tables: seq<seq<Row>>, q: Query, limit: nat, before: int, pages: seq<seq<Row>>)
    decreases |pages|
  {
    && |tables| == |pages| + 1
    && (if pages == [] then Newest(tables[0], q, before) == []
        else
          && pages[0] != []
          && IsPage(Newest(tables[0], q, before), limit, pages[0])
          && Requests(tables[1..], q, limit, MinId(pages[0]), pages[1..]))
  }

  /** Between requests messages are only added. */
  ghost predicate Grow(tables: seq<seq<Row>>) {
    && (forall i :: 0 <= i < |tables| ==> IsTable(tables[i]))
    && (forall i, j :: 0 <= i < j < |tables| ==> tables[i] <= tables[j])
  }

  /** The new row comes first in the logs it belongs to, and changes no other log. */
  ghost predicate ShowsFirst(before: seq<Row>, after: seq<Row>, r: Row) {
    forall q :: Newest(after, q, 0) == (if q in LogsOf(r) then [r] else []) + Newest(before, q, 0)
  }

  lemma SavedShows(t: seq<Row>, r: Row)
    ensures ShowsFirst(t, t + [r], r)
  {
    forall q: Query
      ensures Newest(t + [r], q, 0) == (if q in LogsOf(r) then [r] else []) + Newest(t, q, 0)
    {
      ShownInItsLogs(q, r);
      assert (t + [r])[..|t|] == t;
    }
  }

  class MessageStore {
    var rows: seq<Row>

    ghost predicate Valid()
      reads this
    {
      IsTable(rows)
    }

    constructor ()
      ensures Valid() && rows == []
    {
      rows := [];
    }

    /**
     The insert gets the next id and the database's clock, which may stand still or go back.  If only
     reading the id back fails, the caller is told that it failed, and the message is there all the same.
     */
    method SaveMessage(from: string, to: string, group: string, kind: Kind, content: string, clock: int,
                       insertFails: bool, idFails: bool)
        returns (r: Result<int>)
      requires Valid()
      modifies this
      ensures Valid() && Grow([old(rows), rows])
      ensures r.Err? <==> insertFails || idFails
      ensures insertFails ==> rows == old(rows)
      ensures !insertFails ==>
                && |rows| == |old(rows)| + 1
                && rows[|old(rows)|] == Row(rows[|old(rows)|].id, from, to, group, kind, content, clock)
      ensures r.Ok? ==> r.value == rows[|old(rows)|].id
      ensures !insertFails ==> ShowsFirst(old(rows), rows, rows[|old(rows)|])
    {
      if insertFails {
        return Err("failed to save message");
      }
      var id := if rows == [] then 1 else rows[|rows| - 1].id + 1;
      rows := rows + [Row(id, from, to, group, kind, content, clock)];
      SavedShows(old(rows), Row(id, from, to, group, kind, content, clock));
      if idFails {
        return Err("failed to get message id");
      }
      return Ok(id);
    }
  }

  // ----- The same walk over a fixed list of rows, newest id first

  ghost predicate Descending(rows: seq<Row>) {
    && (forall i :: 0 <= i < |rows| ==> rows[i].id >= 1)
    && (forall i, j :: 0 <= i < j < |rows| ==> rows[i].id > rows[j].id)
  }

  function Older(rows: seq<Row>, before: int): seq<Row> {
    if rows == [] then []
    else (if rows[0].id < before then [rows[0]] else []) + Older(rows[1..], before)
  }

  lemma {:induction false} OlderHas(rows: seq<Row>, before: int, r: Row)
    ensures r in Older(rows, before) <==> r in rows && r.id < before
  {
    if rows != [] {
      OlderHas(rows[1..], before, r);
    }
  }

  lemma {:induction false} OlderShrinks(rows: seq<Row>, before: int)
    ensures |Older(rows, before)| <= |rows|
    ensures (exists i :: 0 <= i < |rows| && rows[i].id >= before) ==> |Older(rows, before)| < |rows|
  {
    if rows != [] {
      OlderShrinks(rows[1..], before);
    }
  }

  lemma {:induction false} OlderDescends(rows: seq<Row>, before: int)
    requires Descending(rows)
    ensures Descending(Older(rows, before))
  {
    if rows != [] {
      var rest := Older(rows[1..], before);
      TailDescends(rows, 1);
      OlderDescends(rows[1..], before);
      forall i | 0 <= i < |rest|
        ensures rest[i].id < rows[0].id
      {
        OlderHas(rows[1..], before, rest[i]);
      }
    }
  }

  lemma TailDescends(rows: seq<Row>, k: nat)
    requires k <= |rows| && Descending(rows)
    ensures Descending(rows[k..])
  {
  }

  lemma OlderIs(rows: seq<Row>, before: int)
    ensures forall r :: r in Older(rows, before) <==> r in rows && r.id < before
    ensures Descending(rows) ==> Descending(Older(rows, before))
  {
    forall r {
      OlderHas(rows, before, r);
    }
    if Descending(rows) {
      OlderDescends(rows, before);
    }
  }

  lemma {:induction false} OlderFrom(rows: seq<Row>, k: nat, before: int)
    requires Descending(rows) && k <= |rows|
    requires k > 0 ==> rows[k - 1].id >= before
    requires k < |rows| ==> rows[k].id < before
    ensures Older(rows, before) == rows[k..]
  {
    if rows != [] {
      OlderFrom(rows[1..], if k == 0 then 0 else k - 1, before);
    }
  }

  /** A page takes something away, so the walk ends. */
  lemma PageShrinks(rows: seq<Row>, limit: nat, page: seq<Row>)
    requires IsPage(rows, limit, page) && page != []
    ensures |Older(rows, MinId(page))| < |rows|
    ensures forall r :: r in Older(rows, MinId(page)) ==> r !in page
  {
    OlderIs(rows, MinId(page));
    OlderShrinks(rows, MinId(page));
    var i :| 0 <= i < |page| && MinId(page) == page[i].id;
    var j :| 0 <= j < |rows| && rows[j] == page[i];
  }

  ghost predicate IsWalk(rows: seq<Row>, limit: nat, pages: seq<seq<Row>>)
    decreases |pages|
  {
    if pages == [] then rows == []
    else
      && pages[0] != []
      && IsPage(rows, limit, pages[0])
      && IsWalk(Older(rows, MinId(pages[0])), limit, pages[1..])
  }

  /** The first pages of a walk, however many. */
  ghost predicate IsPartialWalk(rows: seq<Row>, limit: nat, pages: seq<seq<Row>>)
    decreases |pages|
  {
    pages != [] ==>
      && pages[0] != []
      && IsPage(rows, limit, pages[0])
      && IsPartialWalk(Older(rows, MinId(pages[0])), limit, pages[1..])
  }

  lemma {:induction false} WalkIsPartial(rows: seq<Row>, limit: nat, pages: seq<seq<Row>>)
    requires IsWalk(rows, limit, pages)
    ensures IsPartialWalk(rows, limit, pages)
    decreases |pages|
  {
    if pages != [] {
      WalkIsPartial(Older(rows, MinId(pages[0])), limit, pages[1..]);
    }
  }

  function Flatten(pages: seq<seq<Row>>): seq<Row> {
    if pages == [] then [] else pages[0] + Flatten(pages[1..])
  }

  // ----- Messages saved during the walk make no difference

  lemma {:induction false} NewestIs(t: seq<Row>, q: Query, before: int)
    requires IsTable(t)
    ensures Descending(Newest(t, q, before))
    ensures forall r :: r in Newest(t, q, before) <==> r in t && Matches(q, r) && (before <= 0 || r.id < before)
  {
    if t != [] {
      NewestIs(t[..|t| - 1], q, before);
      assert forall r :: r in t <==> r == t[|t| - 1] || r in t[..|t| - 1];
    }
  }

  /** A query returns exactly the messages that belong to its log, below the cursor if there is one. */
  lemma HistoryShows(t: seq<Row>, q: Query, before: int, r: Row)
    requires IsTable(t)
    ensures r in Newest(t, q, before) <==> r in t && q in LogsOf(r) && (before > 0 ==> r.id < before)
  {
    NewestIs(t, q, before);
    ShownInItsLogs(q, r);
  }

  lemma {:induction false} NewestOlder(t: seq<Row>, q: Query, before: int, cursor: int)
    requires cursor >= 1 && (before <= 0 || cursor <= before)
    ensures Newest(t, q, cursor) == Older(Newest(t, q, before), cursor)
  {
    if t != [] {
      var last, rest := t[|t| - 1], Newest(t[..|t| - 1], q, before);
      NewestOlder(t[..|t| - 1], q, before, cursor);
      assert ([last] + rest)[1..] == rest;
      assert [] + rest == rest;
    }
  }

  lemma {:induction false} NewestIgnoresLater(t: seq<Row>, more: seq<Row>, q: Query, cursor: int)
    requires IsTable(more) && t <= more && cursor >= 1
    requires exists i :: 0 <= i < |t| && cursor <= t[i].id
    ensures Newest(more, q, cursor) == Newest(t, q, cursor)
    decreases |more|
  {
    if |t| < |more| {
      NewestIgnoresLater(t, more[..|more| - 1], q, cursor);
    } else {
      assert t == more;
    }
  }

  /** A page's smallest id is that of a row that was already there. */
  lemma CursorIsOld(t: seq<Row>, q: Query, before: int, limit: nat, page: seq<Row>)
    requires IsTable(t) && page != [] && IsPage(Newest(t, q, before), limit, page)
    ensures MinId(page) >= 1 && (before <= 0 || MinId(page) <= before)
    ensures exists i :: 0 <= i < |t| && MinId(page) <= t[i].id
  {
    NewestIs(t, q, before);
    var i :| 0 <= i < |page| && MinId(page) == page[i].id;
    var j :| 0 <= j < |t| && t[j] == page[i];
  }

  /** Paging through a growing table is paging through the rows there were at the first request. */
  lemma {:induction false} RequestsAreWalks(tables: seq<seq<Row>>, q: Query, limit: nat, before: int,
                                            pages: seq<seq<Row>>)
    requires Grow(tables) && |tables| == |pages| + 1
    ensures Requests(tables, q, limit, before, pages) <==> IsWalk(Newest(tables[0], q, before), limit, pages)
    decreases |pages|
  {
    var rows := Newest(tables[0], q, before);
    if pages != [] && pages[0] != [] && IsPage(rows, limit, pages[0]) {
      var cursor := MinId(pages[0]);
      CursorIsOld(tables[0], q, before, limit, pages[0]);
      NewestIgnoresLater(tables[0], tables[1], q, cursor);
      NewestOlder(tables[0], q, before, cursor);
      RequestsAreWalks(tables[1..], q, limit, cursor, pages[1..]);
    }
  }

  lemma {:induction false} AsksAreWalks(tables: seq<seq<Row>>, q: Query, limit: nat, before: int, pages: seq<seq<Row>>)
    requires Grow(tables) && |tables| == |pages| + 1
    ensures Asks(tables, q, limit, before, pages) <==> IsPartialWalk(Newest(tables[0], q, before), limit, pages)
    decreases |pages|
  {
    if pages != [] && pages[0] != [] && IsPage(Newest(tables[0], q, before), limit, pages[0]) {
      var cursor := MinId(pages[0]);
      CursorIsOld(tables[0], q, before, limit, pages[0]);
      NewestIgnoresLater(tables[0], tables[1], q, cursor);
      NewestOlder(tables[0], q, before, cursor);
      AsksAreWalks(tables[1..], q, limit, cursor, pages[1..]);
    }
  }

  // ----- Nothing comes twice

  lemma {:induction false} WalkStaysIn(rows: seq<Row>, limit: nat, pages: seq<seq<Row>>)
    requires IsPartialWalk(rows, limit, pages)
    ensures forall r :: r in Flatten(pages) ==> r in rows
    ensures |pages| <= |rows|
    decreases |pages|
  {
    if pages != [] {
      PageShrinks(rows, limit, pages[0]);
      OlderIs(rows, MinId(pages[0]));
      WalkStaysIn(Older(rows, MinId(pages[0])), limit, pages[1..]);
    }
  }

  ghost predicate NoRepeats(rows: seq<Row>) {
    forall i, j :: 0 <= i < j < |rows| ==> rows[i].id != rows[j].id
  }

  lemma Apart(a: seq<Row>, b: seq<Row>, m: int)
    requires NoRepeats(a) && NoRepeats(b)
    requires forall i :: 0 <= i < |a| ==> m <= a[i].id
    requires forall r :: r in b ==> r.id < m
    ensures NoRepeats(a + b)
  {
  }

  /**
   Whatever the timestamps, a row is never returned twice; and there are never more pages than rows,
   so asking ends.
   */
  lemma {:induction false} WalkNeverRepeats(rows: seq<Row>, limit: nat, pages: seq<seq<Row>>)
    requires IsPartialWalk(rows, limit, pages)
    ensures NoRepeats(Flatten(pages)) && |pages| <= |rows|
    decreases |pages|
  {
    WalkStaysIn(rows, limit, pages);
    if pages != [] {
      var rest := Older(rows, MinId(pages[0]));
      OlderIs(rows, MinId(pages[0]));
      WalkStaysIn(rest, limit, pages[1..]);
      WalkNeverRepeats(rest, limit, pages[1..]);
      Apart(pages[0], Flatten(pages[1..]), MinId(pages[0]));
    }
  }

  // ----- Exactly when nothing is missed

  /** The page that position p falls on, counting off limit positions at a time. */
  function PageOf(p: nat, limit: nat): nat
    requires limit >= 1
  {
    if p < limit then 0 else 1 + PageOf(p - limit, limit)
  }

  /** Rows that fall on different pages when counted off by id have strictly ordered timestamps. */
  ghost predicate PagesOrdered(rows: seq<Row>, limit: nat)
    requires limit >= 1
  {
    forall p, q {:trigger rows[p], rows[q]} ::
      0 <= p < q < |rows| && PageOf(p, limit) < PageOf(q, limit) ==> rows[p].createdAt > rows[q].createdAt
  }

  ghost predicate Lossless(rows: seq<Row>, pages: seq<seq<Row>>) {
    forall r :: r in rows ==> r in Flatten(pages)
  }

  ghost predicate FirstOrdered(rows: seq<Row>, limit: nat) {
    forall p, q :: 0 <= p < limit <= q < |rows| ==> rows[p].createdAt > rows[q].createdAt
  }

  /** The condition, one page at a time. */
  lemma PagesOrderedStep(rows: seq<Row>, limit: nat)
    requires limit >= 1 && |rows| > limit
    ensures PagesOrdered(rows, limit) <==> FirstOrdered(rows, limit) && PagesOrdered(rows[limit..], limit)
  {
    var rest := rows[limit..];
    if PagesOrdered(rows, limit) {
      forall p, q | 0 <= p < q < |rest| && PageOf(p, limit) < PageOf(q, limit)
        ensures rest[p].createdAt > rest[q].createdAt
      {
        assert PageOf(p + limit, limit) < PageOf(q + limit, limit);
        assert rows[p + limit].createdAt > rows[q + limit].createdAt;
      }
    }
    if FirstOrdered(rows, limit) && PagesOrdered(rest, limit) {
      forall p, q | 0 <= p < q < |rows| && PageOf(p, limit) < PageOf(q, limit)
        ensures rows[p].createdAt > rows[q].createdAt
      {
        if p >= limit {
          assert PageOf(p - limit, limit) < PageOf(q - limit, limit);
          assert rest[p - limit].createdAt > rest[q - limit].createdAt;
        }
      }
    }
  }

  function Rows(s: seq<Row>): set<Row> {
    set r | r in s
  }

  lemma {:induction false} RowsCount(s: seq<Row>)
    requires NoRepeats(s)
    ensures |Rows(s)| == |s|
  {
    if s != [] {
      var last := s[|s| - 1];
      RowsCount(s[..|s| - 1]);
      assert Rows(s) == Rows(s[..|s| - 1]) + {last};
    }
  }

  lemma SameCount(a: set<Row>, b: set<Row>)
    requires a <= b && |a| == |b|
    ensures a == b
  {
    assert b == a + (b - a);
    assert |b| == |a| + |b - a|;
  }

  lemma MemberOutside(a: seq<Row>, b: seq<Row>) returns (r: Row)
    requires NoRepeats(a) && NoRepeats(b) && |a| == |b| && Rows(a) != Rows(b)
    ensures r in a && r !in b
  {
    RowsCount(a);
    RowsCount(b);
    if Rows(a) <= Rows(b) {
      SameCount(Rows(a), Rows(b));
      assert false;
    }
    r :| r in Rows(a) && r !in Rows(b);
  }

  lemma LeftOutIsOlder(rows: seq<Row>, limit: nat, page: seq<Row>, r: Row, x: Row)
    requires IsPage(rows, limit, page) && r in rows && r !in page && x in page
    ensures r.createdAt <= x.createdAt
  {
    var i :| 0 <= i < |page| && page[i] == x;
  }

  lemma MemberAt(rows: seq<Row>, r: Row) returns (i: nat)
    requires r in rows
    ensures i < |rows| && rows[i] == r
  {
    i :| 0 <= i < |rows| && rows[i] == r;
  }

  lemma BeyondBlock(rows: seq<Row>, n: nat, r: Row) returns (q: nat)
    requires n <= |rows| && r in rows && r !in rows[..n]
    ensures n <= q < |rows| && rows[q] == r
  {
    q := MemberAt(rows, r);
    assert forall j :: 0 <= j < n ==> rows[j] in rows[..n];
  }

  /** Either a page is the newest block of ids, or it misses one of them for an older row. */
  lemma BlockOrGap(rows: seq<Row>, limit: nat, page: seq<Row>) returns (p: nat, q: nat)
    requires Descending(rows) && |rows| > limit && IsPage(rows, limit, page)
    ensures Rows(page) == Rows(rows[..limit])
         || (&& p < limit <= q < |rows| && rows[p] !in page && rows[q] in page
             && rows[p].createdAt <= rows[q].createdAt)
  {
    p, q := 0, 0;
    var block := rows[..limit];
    if Rows(page) != Rows(block) {
      var missed := MemberOutside(block, page);
      p := MemberAt(block, missed);
      var extra := MemberOutside(page, block);
      q := BeyondBlock(rows, limit, extra);
      LeftOutIsOlder(rows, limit, page, missed, extra);
    }
  }

  lemma OrderedPageIsBlock(rows: seq<Row>, limit: nat, page: seq<Row>)
    requires Descending(rows) && |rows| > limit && FirstOrdered(rows, limit) && IsPage(rows, limit, page)
    ensures Rows(page) == Rows(rows[..limit])
  {
    var p, q := BlockOrGap(rows, limit, page);
  }

  lemma BlockLeavesRest(rows: seq<Row>, limit: nat, page: seq<Row>)
    requires Descending(rows) && |rows| > limit >= 1 && page != [] && Rows(page) == Rows(rows[..limit])
    ensures Older(rows, MinId(page)) == rows[limit..]
  {
    var m := MinId(page);
    assert rows[limit - 1] in page by {
      assert rows[..limit][limit - 1] in Rows(page);
    }
    var i :| 0 <= i < |page| && m == page[i].id;
    assert page[i] in Rows(rows[..limit]);
    var j :| 0 <= j < limit && rows[j] == page[i];
    OlderFrom(rows, limit, m);
  }

  lemma TailKeeps(rows: seq<Row>, k: nat)
    requires k <= |rows|
    ensures Descending(rows) ==> Descending(rows[k..])
    ensures StrictTimes(rows) ==> StrictTimes(rows[k..])
  {
  }

  lemma WalkStep(rows: seq<Row>, limit: nat, pages: seq<seq<Row>>)
    requires rows != [] && IsWalk(rows, limit, pages)
    ensures pages != [] && pages[0] != [] && IsPage(rows, limit, pages[0])
    ensures IsWalk(Older(rows, MinId(pages[0])), limit, pages[1..])
  {
  }

  lemma BlockPage(rows: seq<Row>, limit: nat, page: seq<Row>)
    requires limit >= 1 && Descending(rows) && |rows| > limit && FirstOrdered(rows, limit)
    requires page != [] && IsPage(rows, limit, page)
    ensures Rows(page) == Rows(rows[..limit])
    ensures Older(rows, MinId(page)) == rows[limit..]
  {
    OrderedPageIsBlock(rows, limit, page);
    BlockLeavesRest(rows, limit, page);
  }

  /** A walk over ordered rows begins with the newest block and goes on with the rest. */
  lemma FirstBlock(rows: seq<Row>, limit: nat, pages: seq<seq<Row>>)
    requires limit >= 1 && Descending(rows) && |rows| > limit && FirstOrdered(rows, limit)
    requires IsWalk(rows, limit, pages)
    ensures pages != [] && Rows(pages[0]) == Rows(rows[..limit]) && IsPage(rows, limit, pages[0])
    ensures IsWalk(rows[limit..], limit, pages[1..])
  {
    WalkStep(rows, limit, pages);
    BlockPage(rows, limit, pages[0]);
  }

  lemma OnlyBlock(rows: seq<Row>, limit: nat, pages: seq<seq<Row>>)
    requires Descending(rows) && |rows| <= limit && IsWalk(rows, limit, pages)
    ensures Lossless(rows, pages)
  {
    if rows != [] {
      LastPageIsAll(rows, limit, pages[0]);
    }
  }

  lemma {:induction false} OrderedIsLossless(rows: seq<Row>, limit: nat, pages: seq<seq<Row>>)
    requires limit >= 1 && Descending(rows) && PagesOrdered(rows, limit) && IsWalk(rows, limit, pages)
    ensures Lossless(rows, pages)
    decreases |pages|
  {
    if |rows| <= limit {
      OnlyBlock(rows, limit, pages);
    } else {
      PagesOrderedStep(rows, limit);
      FirstBlock(rows, limit, pages);
      TailKeeps(rows, limit);
      OrderedIsLossless(rows[limit..], limit, pages[1..]);
      LosslessStep(rows, limit, pages);
    }
  }

  lemma LosslessStep(rows: seq<Row>, limit: nat, pages: seq<seq<Row>>)
    requires |rows| > limit && pages != [] && Rows(pages[0]) == Rows(rows[..limit])
    requires Lossless(rows[limit..], pages[1..])
    ensures Lossless(rows, pages)
  {
    assert rows == rows[..limit] + rows[limit..];
    assert forall r :: r in rows[..limit] ==> r in Rows(pages[0]);
  }

  lemma LastPageIsAll(rows: seq<Row>, limit: nat, page: seq<Row>)
    requires Descending(rows) && |rows| <= limit && IsPage(rows, limit, page)
    ensures Rows(page) == Rows(rows)
    ensures forall r :: r in rows ==> r in page
  {
    RowsCount(page);
    RowsCount(rows);
    SameCount(Rows(page), Rows(rows));
    assert forall r :: r in rows ==> r in Rows(page);
  }

  // ----- A legal answer always exists, and with the wrong timestamps a lossy one

  function Insert(r: Row, s: seq<Row>): seq<Row> {
    if s == [] || r.createdAt >= s[0].createdAt then [r] + s else [s[0]] + Insert(r, s[1..])
  }

  function ByTime(rows: seq<Row>): seq<Row> {
    if rows == [] then [] else Insert(rows[0], ByTime(rows[1..]))
  }

  ghost predicate TimeSorted(s: seq<Row>) {
    forall i, j :: 0 <= i < j < |s| ==> s[i].createdAt >= s[j].createdAt
  }

  lemma {:induction false} InsertKeeps(r: Row, s: seq<Row>)
    requires TimeSorted(s) && NoRepeats(s) && forall i :: 0 <= i < |s| ==> s[i].id != r.id
    ensures |Insert(r, s)| == |s| + 1 && TimeSorted(Insert(r, s)) && NoRepeats(Insert(r, s))
    ensures forall x :: x in Insert(r, s) <==> x == r || x in s
  {
    if s == [] || r.createdAt >= s[0].createdAt {
    } else {
      InsertKeeps(r, s[1..]);
      assert forall x :: x in s <==> x == s[0] || x in s[1..];
      assert forall x :: x in Insert(r, s[1..]) ==> x.id != s[0].id && s[0].createdAt >= x.createdAt;
    }
  }

  lemma {:induction false} ByTimeSorts(rows: seq<Row>)
    requires Descending(rows)
    ensures |ByTime(rows)| == |rows| && TimeSorted(ByTime(rows)) && NoRepeats(ByTime(rows))
    ensures forall x :: x in ByTime(rows) <==> x in rows
  {
    if rows != [] {
      var s := ByTime(rows[1..]);
      ByTimeSorts(rows[1..]);
      assert forall i :: 0 <= i < |s| ==> s[i] in rows[1..];
      InsertKeeps(rows[0], s);
      assert forall x :: x in rows <==> x == rows[0] || x in rows[1..];
    }
  }

  lemma BeyondPrefix(s: seq<Row>, n: nat, r: Row)
    requires TimeSorted(s) && 1 <= n <= |s| && r in s && r !in s[..n]
    ensures r.createdAt <= s[n - 1].createdAt
  {
    assert forall j :: 0 <= j < n ==> s[j] in s[..n];
    var j :| 0 <= j < |s| && s[j] == r;
  }

  /** The most recent rows of a sorted table form a page. */
  lemma PrefixIsPage(rows: seq<Row>, limit: nat, s: seq<Row>)
    requires |s| == |rows| && TimeSorted(s) && NoRepeats(s) && forall x :: x in s <==> x in rows
    ensures IsPage(rows, limit, s[..if |rows| <= limit then |rows| else limit])
  {
    var n := if |rows| <= limit then |rows| else limit;
    forall r | r in rows && r !in s[..n] && n > 0
      ensures r.createdAt <= s[n - 1].createdAt
    {
      BeyondPrefix(s, n, r);
    }
  }

  lemma {:induction false} SomePage(rows: seq<Row>, limit: nat) returns (page: seq<Row>)
    requires Descending(rows)
    ensures IsPage(rows, limit, page)
  {
    ByTimeSorts(rows);
    PrefixIsPage(rows, limit, ByTime(rows));
    page := ByTime(rows)[..if |rows| <= limit then |rows| else limit];
  }

  lemma {:induction false} SomeWalk(rows: seq<Row>, limit: nat) returns (pages: seq<seq<Row>>)
    requires limit >= 1 && Descending(rows)
    ensures IsWalk(rows, limit, pages)
    decreases |rows|
  {
    if rows == [] {
      pages := [];
    } else {
      var page := SomePage(rows, limit);
      PageShrinks(rows, limit, page);
      OlderIs(rows, MinId(page));
      var rest := SomeWalk(Older(rows, MinId(page)), limit);
      pages := [page] + rest;
      assert pages[1..] == rest;
    }
  }

  /** If an older id is at least as recent as one of the first block, some legal page skips a row. */
  lemma GappyPage(rows: seq<Row>, limit: nat) returns (page: seq<Row>)
    requires limit >= 1 && Descending(rows) && |rows| > limit && !FirstOrdered(rows, limit)
    ensures IsPage(rows, limit, page) && Rows(page) != Rows(rows[..limit])
  {
    page := SomePage(rows, limit);
    if Rows(page) == Rows(rows[..limit]) {
      var p, q :| 0 <= p < limit <= q < |rows| && rows[p].createdAt <= rows[q].createdAt;
      BlockMembers(rows, limit, page, p, q);
      TieWithLast(rows, limit, page, rows[p], rows[q]);
      SwapLast(rows, limit, page, rows[q]);
      page := page[..limit - 1] + [rows[q]];
      assert page[limit - 1] == rows[q] && rows[q] !in Rows(rows[..limit]);
    }
  }

  lemma BlockMembers(rows: seq<Row>, limit: nat, page: seq<Row>, p: nat, q: nat)
    requires Descending(rows) && p < limit <= q < |rows| && Rows(page) == Rows(rows[..limit])
    ensures rows[p] in page && rows[q] !in page && rows[q] !in rows[..limit]
  {
    assert rows[..limit][p] in Rows(page);
    assert rows[q] !in rows[..limit];
    assert rows[q] !in Rows(page);
  }

  /** A row left out that is no older than one returned is as old as the last one returned. */
  lemma TieWithLast(rows: seq<Row>, limit: nat, page: seq<Row>, inside: Row, outside: Row)
    requires IsPage(rows, limit, page) && inside in page && outside in rows && outside !in page
    requires inside.createdAt <= outside.createdAt
    ensures outside.createdAt == page[|page| - 1].createdAt
  {
    LeftOutIsOlder(rows, limit, page, outside, page[|page| - 1]);
    var i := MemberAt(page, inside);
  }

  lemma IdsIdentify(rows: seq<Row>, a: Row, b: Row)
    requires Descending(rows) && a in rows && b in rows && a.id == b.id
    ensures a == b
  {
  }

  /** A row as recent as the last of a page may stand in its place. */
  lemma SwapLast(rows: seq<Row>, limit: nat, page: seq<Row>, x: Row)
    requires limit >= 1 && Descending(rows) && |rows| > limit && IsPage(rows, limit, page)
    requires x in rows && x !in page && x.createdAt == page[limit - 1].createdAt
    ensures IsPage(rows, limit, page[..limit - 1] + [x])
  {
    var kept := page[..limit - 1];
    forall i | 0 <= i < |kept|
      ensures kept[i].id != x.id
    {
      if kept[i].id == x.id {
        IdsIdentify(rows, kept[i], x);
      }
    }
    assert forall r :: r in page ==> r in kept || r == page[limit - 1];
  }

  /** A page that is not the newest block loses a row for good. */
  lemma GapIsFinal(rows: seq<Row>, limit: nat, page: seq<Row>, rest: seq<seq<Row>>) returns (lost: Row)
    requires limit >= 1 && Descending(rows) && |rows| > limit && page != [] && IsPage(rows, limit, page)
    requires Rows(page) != Rows(rows[..limit]) && IsWalk(Older(rows, MinId(page)), limit, rest)
    ensures lost in rows && lost !in page && lost !in Flatten(rest)
  {
    var p, q := BlockOrGap(rows, limit, page);
    lost := rows[p];
    OlderIs(rows, MinId(page));
    WalkIsPartial(Older(rows, MinId(page)), limit, rest);
    WalkStaysIn(Older(rows, MinId(page)), limit, rest);
    var i :| 0 <= i < |page| && page[i] == rows[q];
  }

  lemma {:induction false} LossyWalk(rows: seq<Row>, limit: nat) returns (pages: seq<seq<Row>>)
    requires limit >= 1 && Descending(rows) && !PagesOrdered(rows, limit)
    ensures IsWalk(rows, limit, pages) && !Lossless(rows, pages)
    decreases |rows|
  {
    if |rows| <= limit {
      SmallIsOrdered(rows, limit);
      assert false;
    } else {
      PagesOrderedStep(rows, limit);
      if !FirstOrdered(rows, limit) {
        pages := LossyNow(rows, limit);
      } else {
        var rest := LossyWalk(rows[limit..], limit);
        pages := LossyLater(rows, limit, rest);
      }
    }
  }

  lemma LossyNow(rows: seq<Row>, limit: nat) returns (pages: seq<seq<Row>>)
    requires limit >= 1 && Descending(rows) && |rows| > limit && !FirstOrdered(rows, limit)
    ensures IsWalk(rows, limit, pages) && !Lossless(rows, pages)
  {
    var page := GappyPage(rows, limit);
    assert Descending(Older(rows, MinId(page))) by {
      OlderIs(rows, MinId(page));
    }
    var rest := SomeWalk(Older(rows, MinId(page)), limit);
    var lost := GapIsFinal(rows, limit, page, rest);
    pages := LossAppends(rows, limit, page, rest, lost);
  }

  lemma LossyLater(rows: seq<Row>, limit: nat, rest: seq<seq<Row>>) returns (pages: seq<seq<Row>>)
    requires limit >= 1 && Descending(rows) && |rows| > limit && FirstOrdered(rows, limit)
    requires IsWalk(rows[limit..], limit, rest) && !Lossless(rows[limit..], rest)
    ensures IsWalk(rows, limit, pages) && !Lossless(rows, pages)
  {
    var page := SomePage(rows, limit);
    assert Older(rows, MinId(page)) == rows[limit..] by {
      OrderedPageIsBlock(rows, limit, page);
      BlockLeavesRest(rows, limit, page);
    }
    var lost :| lost in rows[limit..] && lost !in Flatten(rest);
    assert lost !in page by {
      PageShrinks(rows, limit, page);
    }
    pages := LossAppends(rows, limit, page, rest, lost);
  }

  lemma LossAppends(rows: seq<Row>, limit: nat, page: seq<Row>, rest: seq<seq<Row>>, lost: Row)
      returns (pages: seq<seq<Row>>)
    requires page != [] && IsPage(rows, limit, page) && IsWalk(Older(rows, MinId(page)), limit, rest)
    requires lost in rows && lost !in page && lost !in Flatten(rest)
    ensures IsWalk(rows, limit, pages) && !Lossless(rows, pages)
  {
    pages := [page] + rest;
    assert pages[1..] == rest;
    assert lost !in Flatten(pages);
  }

  lemma SmallIsOrdered(rows: seq<Row>, limit: nat)
    requires limit >= 1 && |rows| <= limit
    ensures PagesOrdered(rows, limit)
  {
    assert forall p :: 0 <= p < |rows| ==> PageOf(p, limit) == 0;
  }

  /**
   Paging back misses nothing, whatever legal answers the database gives, exactly when rows on different
   pages have strictly ordered timestamps.
   */
  lemma {:induction false} LosslessIff(rows: seq<Row>, limit: nat)
    requires limit >= 1 && Descending(rows)
    ensures (forall pages :: IsWalk(rows, limit, pages) ==> Lossless(rows, pages)) <==> PagesOrdered(rows, limit)
  {
    if PagesOrdered(rows, limit) {
      forall pages | IsWalk(rows, limit, pages)
        ensures Lossless(rows, pages)
      {
        OrderedIsLossless(rows, limit, pages);
      }
    } else {
      var pages := LossyWalk(rows, limit);
    }
  }

  // ----- Strictly increasing timestamps give the exact history

  ghost predicate StrictTimes(rows: seq<Row>) {
    forall p, q :: 0 <= p < q < |rows| ==> rows[p].createdAt > rows[q].createdAt
  }

  lemma {:induction false} OneOrder(a: seq<Row>, b: seq<Row>)
    requires StrictTimes(b) && TimeSorted(a) && NoRepeats(a) && NoRepeats(b) && Rows(a) == Rows(b)
    ensures a == b
  {
    RowsCount(a);
    RowsCount(b);
    if a != [] {
      assert a[0] in Rows(b) && b[0] in Rows(a);
      assert a[0] == b[0];
      assert Rows(a[1..]) == Rows(a) - {a[0]};
      assert Rows(b[1..]) == Rows(b) - {b[0]};
      OneOrder(a[1..], b[1..]);
    }
  }

  lemma StrictPage(rows: seq<Row>, limit: nat, page: seq<Row>)
    requires Descending(rows) && StrictTimes(rows) && IsPage(rows, limit, page)
    ensures page == if |rows| <= limit then rows else rows[..limit]
  {
    if |rows| <= limit {
      LastPageIsAll(rows, limit, page);
      OneOrder(page, rows);
    } else {
      OrderedPageIsBlock(rows, limit, page);
      OneOrder(page, rows[..limit]);
    }
  }

  lemma NoPages(limit: nat, pages: seq<seq<Row>>)
    requires IsWalk([], limit, pages)
    ensures pages == []
  {
  }

  lemma StrictOnlyPage(rows: seq<Row>, limit: nat, pages: seq<seq<Row>>)
    requires Descending(rows) && StrictTimes(rows) && |rows| <= limit && IsWalk(rows, limit, pages)
    ensures Flatten(pages) == rows
  {
    if rows == [] {
      NoPages(limit, pages);
    } else {
      WalkStep(rows, limit, pages);
      StrictPage(rows, limit, pages[0]);
      OlderFrom(rows, |rows|, MinId(rows));
      NoPages(limit, pages[1..]);
    }
  }

  lemma Glue(rows: seq<Row>, limit: nat, pages: seq<seq<Row>>)
    requires limit <= |rows| && pages != []
    requires pages[0] == rows[..limit] && Flatten(pages[1..]) == rows[limit..]
    ensures Flatten(pages) == rows
  {
  }

  lemma {:induction false} StrictWalkIsHistory(rows: seq<Row>, limit: nat, pages: seq<seq<Row>>)
    requires limit >= 1 && Descending(rows) && StrictTimes(rows) && IsWalk(rows, limit, pages)
    ensures Flatten(pages) == rows
    decreases |pages|
  {
    if |rows| <= limit {
      StrictOnlyPage(rows, limit, pages);
    } else {
      FirstBlock(rows, limit, pages);
      StrictPage(rows, limit, pages[0]);
      TailKeeps(rows, limit);
      StrictWalkIsHistory(rows[limit..], limit, pages[1..]);
      Glue(rows, limit, pages);
    }
  }

  lemma {:induction false} StrictPartialIsPrefix(rows: seq<Row>, limit: nat, pages: seq<seq<Row>>)
    requires limit >= 1 && Descending(rows) && StrictTimes(rows) && IsPartialWalk(rows, limit, pages)
    ensures Flatten(pages) <= rows
    decreases |pages|
  {
    if pages != [] {
      StrictPage(rows, limit, pages[0]);
      if |rows| <= limit {
        OlderFrom(rows, |rows|, MinId(rows));
        assert pages[1..] == [];
      } else {
        BlockPage(rows, limit, pages[0]);
        TailKeeps(rows, limit);
        StrictPartialIsPrefix(rows[limit..], limit, pages[1..]);
        GluePrefix(rows, limit, pages);
      }
    }
  }

  lemma GluePrefix(rows: seq<Row>, limit: nat, pages: seq<seq<Row>>)
    requires limit <= |rows| && pages != []
    requires pages[0] == rows[..limit] && Flatten(pages[1..]) <= rows[limit..]
    ensures Flatten(pages) <= rows
  {
  }

  // ----- Main result, on the database

  /**
   A reader who pages back from the newest message, while messages are being saved, never sees a message
   twice, and with strictly increasing timestamps sees a prefix of the newest-first history of the first
   request.  One who goes on to the end misses nothing if the pages are ordered, and with strictly
   increasing timestamps has seen exactly that history.
   */
  lemma {:induction false} PagingBack(tables: seq<seq<Row>>, q: Query, limit: nat, pages: seq<seq<Row>>)
    requires limit >= 1 && Grow(tables) && Asks(tables, q, limit, 0, pages)
    ensures NoRepeats(Flatten(pages)) && |pages| <= |Newest(tables[0], q, 0)|
    ensures StrictTimes(Newest(tables[0], q, 0)) ==> Flatten(pages) <= Newest(tables[0], q, 0)
    ensures Requests(tables, q, limit, 0, pages) && PagesOrdered(Newest(tables[0], q, 0), limit) ==>
              Lossless(Newest(tables[0], q, 0), pages)
    ensures Requests(tables, q, limit, 0, pages) && StrictTimes(Newest(tables[0], q, 0)) ==>
              Flatten(pages) == Newest(tables[0], q, 0)
  {
    var rows := Newest(tables[0], q, 0);
    NewestIs(tables[0], q, 0);
    AsksAreWalks(tables, q, limit, 0, pages);
    RequestsAreWalks(tables, q, limit, 0, pages);
    WalkNeverRepeats(rows, limit, pages);
    if StrictTimes(rows) {
      StrictPartialIsPrefix(rows, limit, pages);
    }
    if IsWalk(rows, limit, pages) && PagesOrdered(rows, limit) {
      OrderedIsLossless(rows, limit, pages);
    }
    if IsWalk(rows, limit, pages) && StrictTimes(rows) {
      StrictWalkIsHistory(rows, limit, pages);
    }
  }

  function Repeated(t: seq<Row>, n: nat): seq<seq<Row>> {
    seq(n, _ => t)
  }

  lemma SteadyRequests(t: seq<Row>, q: Query, limit: nat, pages: seq<seq<Row>>)
    requires IsTable(t) && IsWalk(Newest(t, q, 0), limit, pages)
    ensures Requests(Repeated(t, |pages| + 1), q, limit, 0, pages)
  {
    assert Repeated(t, |pages| + 1)[0] == t;
    RequestsAreWalks(Repeated(t, |pages| + 1), q, limit, 0, pages);
  }

  /** And otherwise it can miss messages, even on a table that does not change. */
  lemma {:induction false} PagingBackCanMiss(t: seq<Row>, q: Query, limit: nat) returns (pages: seq<seq<Row>>)
    requires limit >= 1 && IsTable(t) && !PagesOrdered(Newest(t, q, 0), limit)
    ensures Requests(Repeated(t, |pages| + 1), q, limit, 0, pages) && !Lossless(Newest(t, q, 0), pages)
  {
    NewestIs(t, q, 0);
    pages := LossyWalk(Newest(t, q, 0), limit);
    SteadyRequests(t, q, limit, pages);
  }

  // ----- The limit a request ends up with

  /** The configured limit, or the requested one if positive, at most the configured maximum. */
  function EffectiveLimit(historyLimit: int, historyMax: int, requested: Option<int>): (limit: int)
    ensures historyLimit >= 1 && historyMax >= 1 ==> 1 <= limit && (limit <= historyMax || limit == historyLimit)
    ensures requested.Some? && 1 <= requested.value <= historyMax ==> limit == requested.value
    ensures requested.Some? && requested.value >= 1 ==> limit <= requested.value && limit <= historyMax
    ensures requested.Some? && 1 <= requested.value && historyMax < requested.value ==> limit == historyMax
    ensures requested.None? || requested.value < 1 ==> limit == historyLimit
  {
    if requested.Some? && requested.value > 0 then
      if requested.value < historyMax then requested.value else historyMax
    else historyLimit
  }
}
