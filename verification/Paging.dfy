/** Reading a growing list page by page: `collectPaginated`, `dedupeRowsByKey` and
    `collectPaginatedWithOverlap` in src/services/governanceProvider.ts, and `koiosGetAll` in
    src/services/koios.ts. */
module Paging {
  import opened Common

  /** The server's list at every fetch, and whether the client is under pressure then. */
  datatype Server<!Row> = Server(rowsAt: nat -> seq<Row>, pressureAt: nat -> bool)

  /** Rows are only appended between fetches, and never beyond the bound. */
  ghost predicate Grows<Row>(server: Server<Row>, bound: nat) {
    && (forall t: nat :: |server.rowsAt(t)| <= bound)
    && (forall t: nat, u: nat :: t <= u ==> server.rowsAt(t) <= server.rowsAt(u))
  }

  /** Half pages under pressure, but at least 200 rows. */
  function AdaptiveLimit(pageSize: nat, highVolume: bool, pressure: bool): nat {
    if highVolume && pressure then (if pageSize / 2 < 200 then 200 else pageSize / 2) else pageSize
  }

  /** Pressure asks for at least half a page, less one row, and never for fewer than 200: a page that
      was smaller than that gets larger. */
  lemma LimitUnderPressure(pageSize: nat, highVolume: bool, pressure: bool)
    ensures var limit := AdaptiveLimit(pageSize, highVolume, pressure);
            && (!highVolume || !pressure ==> limit == pageSize)
            && (highVolume && pressure && pageSize >= 400 ==> limit >= 200 && pageSize - 1 <= 2 * limit <= pageSize)
            && (highVolume && pressure && pageSize < 400 ==> limit == 200)
            && (limit > pageSize <==> highVolume && pressure && pageSize < 200)
  {
  }

  function Page<Row>(rows: seq<Row>, offset: nat, limit: nat): seq<Row> {
    if offset >= |rows| then []
    else if offset + limit >= |rows| then rows[offset..]
    else rows[offset..offset + limit]
  }

  lemma NextPage<Row>(rows: seq<Row>, start: nat, offset: nat, limit: nat)
    requires start <= offset <= |rows| && limit >= 1
    ensures var end := offset + |Page(rows, offset, limit)|;
            && end <= |rows| && rows[start..offset] + Page(rows, offset, limit) == rows[start..end]
            && |Page(rows, offset, limit)| <= limit && (end < offset + limit ==> end == |rows|)
  {
  }

  lemma SliceStays<Row>(now: seq<Row>, later: seq<Row>, start: nat, end: nat)
    requires now <= later && start <= end <= |now|
    ensures |now| <= |later| && now[start..end] == later[start..end]
  {
  }

  /** One pass from an offset on, as both passes of collectPaginatedWithOverlap run it.
      `first` numbers its first fetch, `fetches` counts them. The rows read are the server's
      rows from that offset on, as of the last fetch. */
  method CollectFrom<Row>(server: Server<Row>, first: nat, start: nat, pageSize: nat, highVolume: bool,
                          ghost bound: nat)
    returns (rows: seq<Row>, fetches: nat)
    requires pageSize >= 1 && Grows(server, bound)
    requires start <= |server.rowsAt(first)|
    ensures fetches >= 1
    ensures start <= |server.rowsAt(first + fetches - 1)|
    ensures rows == server.rowsAt(first + fetches - 1)[start..]
  {
    rows := [];
    fetches := 0;
    var offset := start;
    var hasMore := true;
    while hasMore
      invariant start <= offset <= |server.rowsAt(first + fetches)|
      invariant rows == server.rowsAt(first + fetches)[start..offset]
      invariant !hasMore ==> fetches >= 1 && start <= |server.rowsAt(first + fetches - 1)|
                             && rows == server.rowsAt(first + fetches - 1)[start..]
      decreases hasMore, bound - offset
    {
      ghost var now := server.rowsAt(first + fetches);
      assert now <= server.rowsAt(first + fetches + 1);
      var limit := AdaptiveLimit(pageSize, highVolume, server.pressureAt(first + fetches));
      var page := Page(server.rowsAt(first + fetches), offset, limit);
      NextPage(now, start, offset, limit);
      SliceStays(now, server.rowsAt(first + fetches + 1), start, offset + |page|);
      hide Page, AdaptiveLimit;
      fetches := fetches + 1;
      if |page| == 0 {
        hasMore := false;
        continue;
      }
      rows := rows + page;
      offset := offset + |page|;
      hasMore := |page| == limit;
    }
  }

  /** The first pass of koiosGetAll: it moves on by the limit, and it may also stop on a
      Content-Range header, which some answers carry. */
  method KoiosPass<Row>(server: Server<Row>, hasRange: nat -> bool, first: nat, start: nat, pageSize: nat,
                        highVolume: bool, ghost bound: nat)
    returns (rows: seq<Row>, fetches: nat)
    requires pageSize >= 1 && Grows(server, bound)
    requires start <= |server.rowsAt(first)|
    ensures fetches >= 1
    ensures start <= |server.rowsAt(first + fetches - 1)|
    ensures rows == server.rowsAt(first + fetches - 1)[start..]
  {
    rows := [];
    fetches := 0;
    var offset := start;
    while true
      invariant start <= offset <= |server.rowsAt(first + fetches)|
      invariant rows == server.rowsAt(first + fetches)[start..offset]
      decreases bound - offset
    {
      ghost var now := server.rowsAt(first + fetches);
      assert now <= server.rowsAt(first + fetches + 1);
      var limit := AdaptiveLimit(pageSize, highVolume, server.pressureAt(first + fetches));
      var data := Page(server.rowsAt(first + fetches), offset, limit);
      NextPage(now, start, offset, limit);
      SliceStays(now, server.rowsAt(first + fetches + 1), start, offset + |data|);
      hide Page, AdaptiveLimit;
      var range := if hasRange(first + fetches) && |data| > 0 then [offset, offset + |data| - 1] else [];
      fetches := fetches + 1;
      if |data| > 0 {
        rows := rows + data;
      }
      if |range| == 2 && range[1] - range[0] + 1 < limit { return; }
      if |data| < limit { return; }
      offset := offset + limit;
    }
  }

  // ----- merging two passes

  /** A JavaScript Map in insertion order: a known key keeps its place and gets the new row. */
  function Put<Row, Key(==)>(rows: seq<Row>, key: Row -> Key, row: Row): seq<Row> {
    if rows == [] then [row]
    else if key(rows[0]) == key(row) then [row] + rows[1..]
    else [rows[0]] + Put(rows[1..], key, row)
  }

  function Deduped<Row, Key(==)>(rows: seq<Row>, key: Row -> Key): seq<Row> {
    if rows == [] then [] else Put(Deduped(rows[..|rows| - 1], key), key, rows[|rows| - 1])
  }

  method DedupeRowsByKey<Row, Key(==)>(rows: seq<Row>, key: Row -> Key) returns (deduped: seq<Row>)
    ensures deduped == Deduped(rows, key)
  {
    deduped := [];
    for i := 0 to |rows|
      invariant deduped == Deduped(rows[..i], key)
    {
      assert rows[..i + 1][..i] == rows[..i];
      deduped := Put(deduped, key, rows[i]);
    }
    assert rows[..|rows|] == rows;
  }

  ghost predicate UniqueKeys<Row, Key>(rows: seq<Row>, key: Row -> Key) {
    forall i, j :: 0 <= i < j < |rows| ==> key(rows[i]) != key(rows[j])
  }

  lemma {:induction false} PutNew<Row, Key>(rows: seq<Row>, key: Row -> Key, row: Row)
    requires forall i :: 0 <= i < |rows| ==> key(rows[i]) != key(row)
    ensures Put(rows, key, row) == rows + [row]
  {
    if rows == [] {
    } else {
      PutNew(rows[1..], key, row);
      assert [rows[0]] + (rows[1..] + [row]) == rows + [row];
    }
  }

  lemma {:induction false} PutKnown<Row, Key>(rows: seq<Row>, key: Row -> Key, i: nat)
    requires i < |rows| && UniqueKeys(rows, key)
    ensures Put(rows, key, rows[i]) == rows
  {
    if i == 0 {
    } else {
      PutKnown(rows[1..], key, i - 1);
      assert rows[1..][i - 1] == rows[i];
    }
  }

  lemma DedupedSnoc<Row, Key>(rows: seq<Row>, key: Row -> Key, row: Row)
    ensures Deduped(rows + [row], key) == Put(Deduped(rows, key), key, row)
  {
    assert (rows + [row])[..|rows|] == rows;
  }

  lemma {:induction false} PrefixIsKept<Row, Key>(all: seq<Row>, key: Row -> Key, n: nat)
    requires UniqueKeys(all, key) && n <= |all|
    ensures Deduped(all[..n], key) == all[..n]
  {
    if n > 0 {
      PrefixIsKept(all, key, n - 1);
      assert all[..n] == all[..n - 1] + [all[n - 1]];
      DedupedSnoc(all[..n - 1], key, all[n - 1]);
      PutNew(all[..n - 1], key, all[n - 1]);
    }
  }

  lemma PutIntoPrefix<Row, Key>(all: seq<Row>, key: Row -> Key, n: nat, i: nat)
    requires UniqueKeys(all, key) && i <= n <= |all| && i < |all|
    ensures Put(all[..n], key, all[i]) == if i < n then all[..n] else all[..n + 1]
  {
    if i < n {
      assert all[..n][i] == all[i];
      PutKnown(all[..n], key, i);
    } else {
      PutNew(all[..n], key, all[i]);
      assert all[..n] + [all[i]] == all[..n + 1];
    }
  }

  lemma SliceSnoc<Row>(all: seq<Row>, prefix: seq<Row>, back: nat, upTo: nat)
    requires back < upTo <= |all|
    ensures prefix + all[back..upTo] == (prefix + all[back..upTo - 1]) + [all[upTo - 1]]
  {
  }

  /** Reading a prefix and then everything from inside it on gives the whole, in order. */
  lemma {:induction false} OverlapIsWhole<Row, Key>(all: seq<Row>, key: Row -> Key, seen: nat, back: nat, upTo: nat)
    requires UniqueKeys(all, key)
    requires back <= seen <= |all| && back <= upTo <= |all|
    ensures Deduped(all[..seen] + all[back..upTo], key) == all[..Max(seen, upTo)]
    decreases upTo
  {
    if upTo == back {
      assert all[..seen] + all[back..upTo] == all[..seen];
      PrefixIsKept(all, key, seen);
    } else {
      OverlapIsWhole(all, key, seen, back, upTo - 1);
      SliceSnoc(all, all[..seen], back, upTo);
      DedupedSnoc(all[..seen] + all[back..upTo - 1], key, all[upTo - 1]);
      PutIntoPrefix(all, key, Max(seen, upTo - 1), upTo - 1);
    }
  }

  lemma {:induction false} MergeIsWhole<Row, Key>(early: seq<Row>, late: seq<Row>, key: Row -> Key, back: nat)
    requires UniqueKeys(late, key) && early <= late && back <= |early|
    ensures Deduped(early + late[back..], key) == late
  {
    OverlapIsWhole(late, key, |early|, back, |late|);
    assert early == late[..|early|];
    assert late[back..|late|] == late[back..];
    assert late[..|late|] == late;
  }

  /** Whatever pages the pressure dictates and however the list grows meanwhile, the merged
      rows are the server's list as of the last fetch: nothing missing, nothing twice, in order. */
  method CollectPaginatedWithOverlap<Row, Key(==)>(server: Server<Row>, pageSize: nat, highVolume: bool,
                                                   overlapRows: int, key: Row -> Key, ghost bound: nat)
    returns (rows: seq<Row>, fetches: nat)
    requires pageSize >= 1 && Grows(server, bound)
    requires forall t: nat :: UniqueKeys(server.rowsAt(t), key)
    ensures fetches >= 1 && rows == server.rowsAt(fetches - 1)
  {
    var passOne, n := CollectFrom(server, 0, 0, pageSize, highVolume, bound);
    rows, fetches := passOne, n;
    var overlap := if overlapRows < 0 then 0 else overlapRows;
    if |passOne| == 0 || overlap == 0 {
      return;
    }
    var overlapOffset := if |passOne| < overlap then 0 else |passOne| - overlap;
    assert server.rowsAt(n - 1) <= server.rowsAt(n);
    var passTwo, m := CollectFrom(server, n, overlapOffset, pageSize, highVolume, bound);
    fetches := n + m;
    assert server.rowsAt(n - 1) <= server.rowsAt(n + m - 1);
    MergeIsWhole(passOne, server.rowsAt(n + m - 1), key, overlapOffset);
    rows := DedupeRowsByKey(passOne + passTwo, key);
  }

  method KoiosGetAll<Row, Key(==)>(server: Server<Row>, hasRange: nat -> bool, pageSize: nat, highVolume: bool,
                                   overlapRows: int, key: Row -> Key, ghost bound: nat)
    returns (rows: seq<Row>, fetches: nat)
    requires pageSize >= 1 && Grows(server, bound)
    requires forall t: nat :: UniqueKeys(server.rowsAt(t), key)
    ensures fetches >= 1 && rows == server.rowsAt(fetches - 1)
  {
    var passOne, n := KoiosPass(server, hasRange, 0, 0, pageSize, highVolume, bound);
    rows, fetches := passOne, n;
    var overlap := if overlapRows < 0 then 0 else overlapRows;
    if overlap == 0 || |passOne| == 0 {
      return;
    }
    var overlapOffset := if |passOne| < overlap then 0 else |passOne| - overlap;
    assert server.rowsAt(n - 1) <= server.rowsAt(n);
    var passTwo, m := KoiosPass(server, hasRange, n, overlapOffset, pageSize, highVolume, bound);
    fetches := n + m;
    assert server.rowsAt(n - 1) <= server.rowsAt(n + m - 1);
    MergeIsWhole(passOne, server.rowsAt(n + m - 1), key, overlapOffset);
    rows := MergePasses(passOne, passTwo, key);
  }

  /** The merge loops of koiosGetAll. */
  method MergePasses<Row, Key(==)>(passOne: seq<Row>, passTwo: seq<Row>, key: Row -> Key) returns (rows: seq<Row>)
    ensures rows == Deduped(passOne + passTwo, key)
  {
    rows := [];
    for i := 0 to |passOne|
      invariant rows == Deduped(passOne[..i], key)
    {
      DedupedSnoc(passOne[..i], key, passOne[i]);
      assert passOne[..i + 1] == passOne[..i] + [passOne[i]];
      rows := Put(rows, key, passOne[i]);
    }
    assert passOne[..|passOne|] == passOne == passOne + passTwo[..0];
    for i := 0 to |passTwo|
      invariant rows == Deduped(passOne + passTwo[..i], key)
    {
      DedupedSnoc(passOne + passTwo[..i], key, passTwo[i]);
      assert passOne + passTwo[..i + 1] == (passOne + passTwo[..i]) + [passTwo[i]];
      rows := Put(rows, key, passTwo[i]);
    }
    assert passTwo[..|passTwo|] == passTwo;
  }
}
