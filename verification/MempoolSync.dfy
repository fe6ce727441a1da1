/** Mempool synchronization: the rows a sync query sees, page by page and byte by byte. */
module MempoolSync {
  import opened Wrappers
  import opened MempoolSchema
  import opened Orders

  /** hashed_txid: the salted hash of a txid, ordered as a 256-bit number. */
  type Hash = nat

  type Tag = nat

  /** What the remote peer says it has. */
  datatype SyncData =
    | BloomFilter(contains: Txid -> bool)
    | TxTags(tagOf: Txid -> Tag, tags: seq<Tag>)
  {
    predicate Contains(t: Txid) {
      match this
      case BloomFilter(contains) => contains(t)
      case TxTags(tagOf, tags) => tagOf(t) in tags
    }
  }

  // ---------- SELECT ... WHERE hashed_txid > cursor ... ORDER BY hashed_txid ASC ----------

  type Pager = map<Txid, Hash>

  ghost predicate CollisionFree(pager: Pager) {
    forall t, u :: t in pager && u in pager && pager[t] == pager[u] ==> t == u
  }

  /** A row of the query's result. */
  datatype Row = Row(txid: Txid, hash: Hash, body: seq<Byte>)

  ghost predicate Ascending(rows: seq<Row>) {
    forall i, j :: 0 <= i < j < |rows| ==> rows[i].hash < rows[j].hash
  }

  ghost predicate DistinctHashes(s: set<Row>) {
    forall a, b :: a in s && b in s && a.hash == b.hash ==> a == b
  }

  lemma LowestExists(s: set<Row>)
    requires s != {}
    ensures exists r :: r in s && forall u :: u in s ==> r.hash <= u.hash
  {
    var r := LeastExists(s, (a: Row, b: Row) => a.hash <= b.hash);
    assert r in s && forall u :: u in s ==> r.hash <= u.hash;
  }

  function Least(s: set<Row>): (r: Row)
    requires s != {} && DistinctHashes(s)
    ensures r in s && forall u :: u in s && u != r ==> r.hash < u.hash
  {
    LowestExists(s);
    var r :| r in s && forall u :: u in s ==> r.hash <= u.hash;
    r
  }

  function ByHash(s: set<Row>): (rows: seq<Row>)
    requires DistinctHashes(s)
    decreases |s|
  {
    if s == {} then [] else [Least(s)] + ByHash(s - {Least(s)})
  }

  lemma {:induction false} ByHashHasAll(s: set<Row>, r: Row)
    requires DistinctHashes(s)
    ensures r in ByHash(s) <==> r in s
    decreases |s|
  {
    if s != {} {
      ByHashHasAll(s - {Least(s)}, r);
    }
  }

  lemma {:induction false} ByHashAscends(s: set<Row>)
    requires DistinctHashes(s)
    ensures Ascending(ByHash(s))
    decreases |s|
  {
    if s != {} {
      var least := Least(s);
      ByHashAscends(s - {least});
      var rest := ByHash(s - {least});
      forall j | 0 <= j < |rest|
        ensures least.hash < rest[j].hash
      {
        ByHashHasAll(s - {least}, rest[j]);
      }
      assert ByHash(s) == [least] + rest;
    }
  }

  lemma HasElement(s: seq<Row>) returns (r: Row)
    requires s != []
    ensures r in s
  {
    r := s[0];
  }

  /** Two ascending enumerations of the same rows are the same. */
  lemma {:induction false} AscendingUnique(a: seq<Row>, b: seq<Row>)
    requires Ascending(a) && Ascending(b)
    requires forall r :: r in a <==> r in b
    ensures a == b
  {
    if a == [] {
      if b != [] {
        var r := HasElement(b);
      }
    } else {
      assert a[0] in b;
      assert b[0] in a;
      assert a[0] == b[0];
      forall r
        ensures r in a[1..] <==> r in b[1..]
      {
        if r in a[1..] { assert r in a; assert r != a[0]; }
        if r in b[1..] { assert r in b; assert r != b[0]; }
      }
      AscendingUnique(a[1..], b[1..]);
      assert a == [a[0]] + a[1..] && b == [b[0]] + b[1..];
    }
  }

  /** Recent enough, not evicted from the filter, and after the cursor. */
  predicate IsListed(m: Mempool, pager: Pager, removed: set<Txid>, floor: nat, cursor: Hash, t: Txid) {
    t in m && t in pager && t !in removed && m[t].height > floor && pager[t] > cursor
  }

  function Listed(m: Mempool, pager: Pager, removed: set<Txid>, floor: nat, cursor: Hash): set<Row> {
    set t | t in m && IsListed(m, pager, removed, floor, cursor, t) :: Row(t, pager[t], m[t].body)
  }

  lemma ListedDistinct(m: Mempool, pager: Pager, removed: set<Txid>, floor: nat, cursor: Hash)
    requires CollisionFree(pager)
    ensures DistinctHashes(Listed(m, pager, removed, floor, cursor))
  {
  }

  /** The rows that a query from a given cursor would list if it had no limit. */
  function Rows(m: Mempool, pager: Pager, removed: set<Txid>, floor: nat, cursor: Hash): (rows: seq<Row>)
    requires CollisionFree(pager)
  {
    ListedDistinct(m, pager, removed, floor, cursor);
    ByHash(Listed(m, pager, removed, floor, cursor))
  }

  /** What the query lists, and in which order. */
  lemma RowsListed(m: Mempool, pager: Pager, removed: set<Txid>, floor: nat, cursor: Hash)
    requires CollisionFree(pager)
    ensures Ascending(Rows(m, pager, removed, floor, cursor))
    ensures forall r :: r in Rows(m, pager, removed, floor, cursor) <==>
      && r.txid in m && r.txid in pager && r.txid !in removed && m[r.txid].height > floor && pager[r.txid] > cursor
      && r == Row(r.txid, pager[r.txid], m[r.txid].body)
  {
    ListedDistinct(m, pager, removed, floor, cursor);
    ByHashAscends(Listed(m, pager, removed, floor, cursor));
    forall r {
      ByHashHasAll(Listed(m, pager, removed, floor, cursor), r);
    }
  }

  /** Moving the cursor to a listed row leaves exactly the rows after it. */
  lemma CursorAdvances(m: Mempool, pager: Pager, removed: set<Txid>, floor: nat, cursor: Hash, n: nat)
    requires CollisionFree(pager)
    requires 0 < n <= |Rows(m, pager, removed, floor, cursor)|
    ensures var rows := Rows(m, pager, removed, floor, cursor);
            Rows(m, pager, removed, floor, rows[n - 1].hash) == rows[n..]
  {
    hide Rows;
    var rows := Rows(m, pager, removed, floor, cursor);
    var last := rows[n - 1];
    RowsListed(m, pager, removed, floor, cursor);
    RowsListed(m, pager, removed, floor, last.hash);
    assert last in rows;
    var rest := Rows(m, pager, removed, floor, last.hash);
    forall r
      ensures r in rest <==> r in rows[n..]
    {
      if r in rest {
        assert r in rows;
        var i :| 0 <= i < |rows| && rows[i] == r;
        assert i >= n;
        assert rows[n..][i - n] == r;
      }
      if r in rows[n..] {
        var i :| n <= i < |rows| && rows[i] == r;
        assert r in rows;
      }
    }
    AscendingUnique(rest, rows[n..]);
  }

  // ---------- Pages ----------

  /** The rows the remote peer lacks. */
  function Missing(data: SyncData, rows: seq<Row>): (lacking: seq<Row>) {
    if rows == [] then []
    else if data.Contains(rows[0].txid) then Missing(data, rows[1..])
    else [rows[0]] + Missing(data, rows[1..])
  }

  lemma {:induction false} MissingMembers(data: SyncData, rows: seq<Row>, r: Row)
    ensures r in Missing(data, rows) <==> r in rows && !data.Contains(r.txid)
  {
    if rows != [] {
      MissingMembers(data, rows[1..], r);
      assert rows == [rows[0]] + rows[1..];
    }
  }

  lemma {:induction false} MissingSplits(data: SyncData, a: seq<Row>, b: seq<Row>)
    ensures Missing(data, a + b) == Missing(data, a) + Missing(data, b)
  {
    if a == [] {
      assert a + b == b;
    } else {
      assert (a + b)[1..] == a[1..] + b;
      MissingSplits(data, a[1..], b);
    }
  }

  lemma MissingOfOne(data: SyncData, rows: seq<Row>, n: nat)
    requires n < |rows|
    ensures Missing(data, rows[..n + 1]) == Missing(data, rows[..n]) + (if data.Contains(rows[n].txid) then [] else [rows[n]])
  {
    assert rows[..n + 1] == rows[..n] + [rows[n]];
    MissingSplits(data, rows[..n], [rows[n]]);
  }

  /** Two consecutive pages together. */
  lemma PagesJoin(data: SyncData, rows: seq<Row>, n: nat, k: nat)
    requires n + k <= |rows|
    ensures Missing(data, rows[..n]) + Missing(data, rows[n..][..k]) == Missing(data, rows[..n + k])
    ensures rows[n..][k..] == rows[n + k..]
  {
    assert rows[..n + k] == rows[..n] + rows[n..][..k];
    MissingSplits(data, rows[..n], rows[n..][..k]);
  }

  lemma {:induction false} MissingKeepsOrder(data: SyncData, rows: seq<Row>)
    requires Ascending(rows)
    ensures Ascending(Missing(data, rows))
  {
    if rows != [] {
      MissingKeepsOrder(data, rows[1..]);
      var rest := Missing(data, rows[1..]);
      forall i | 0 <= i < |rest|
        ensures rows[0].hash < rest[i].hash
      {
        MissingMembers(data, rows[1..], rest[i]);
      }
    }
  }

  /** At least one transaction is returned even when none is asked for. */
  function Quota(maxTxs: nat): nat {
    if maxTxs == 0 then 1 else maxTxs
  }

  /** A page visits n rows: as many as the limit and the table allow, unless the last row
      visited filled the quota of transactions. */
  ghost predicate IsPage(data: SyncData, rows: seq<Row>, maxTxs: nat, maxRun: nat, n: nat) {
    && n <= |rows| && n <= maxRun
    && |Missing(data, rows[..n])| <= Quota(maxTxs)
    && (n < Min(|rows|, maxRun) ==> |Missing(data, rows[..n])| == Quota(maxTxs))
    && (n > 0 ==> |Missing(data, rows[..n - 1])| < Quota(maxTxs))
  }

  lemma {:induction false} MissingGrows(data: SyncData, rows: seq<Row>, a: nat, b: nat)
    requires a <= b <= |rows|
    ensures |Missing(data, rows[..a])| <= |Missing(data, rows[..b])|
    decreases b - a
  {
    hide Missing;
    if a < b {
      MissingGrows(data, rows, a, b - 1);
      MissingOfOne(data, rows, b - 1);
    }
  }

  /** The definition of a page determines it. */
  lemma PageIsUnique(data: SyncData, rows: seq<Row>, maxTxs: nat, maxRun: nat, a: nat, b: nat)
    requires IsPage(data, rows, maxTxs, maxRun, a) && IsPage(data, rows, maxTxs, maxRun, b)
    ensures a == b
  {
    hide Missing;
    if a < b {
      MissingGrows(data, rows, a, b - 1);
    } else if b < a {
      MissingGrows(data, rows, b, a - 1);
    }
  }

  datatype Page = Page(txs: seq<Row>, next: Option<Hash>, visited: nat)

  ghost predicate PageOf(data: SyncData, rows: seq<Row>, maxTxs: nat, maxRun: nat, page: Page) {
    && IsPage(data, rows, maxTxs, maxRun, page.visited)
    && page.txs == Missing(data, rows[..page.visited])
    && page.next == if page.visited == 0 then None else Some(rows[page.visited - 1].hash)
  }

  /** The cursor is None only when there is nothing left. */
  lemma LastPage(data: SyncData, rows: seq<Row>, maxTxs: nat, maxRun: nat, page: Page)
    requires PageOf(data, rows, maxTxs, maxRun, page) && maxRun > 0
    ensures page.visited <= |rows|
    ensures page.next.None? <==> rows == []
    ensures page.next.None? <==> page.visited == 0
  {
  }

  method TagsTable(data: SyncData) returns (table: set<Tag>)
    ensures data.TxTags? ==> forall tag :: tag in table <==> tag in data.tags
  {
    table := {};
    if data.TxTags? {
      for i := 0 to |data.tags|
        invariant forall tag :: tag in table <==> tag in data.tags[..i]
      {
        table := table + {data.tags[i]};
      }
      assert data.tags[..|data.tags|] == data.tags;
    }
  }

  /** The loop over the result rows of one page query. */
  method VisitRows(data: SyncData, rows: seq<Row>, maxTxs: nat, maxRun: nat) returns (page: Page)
    ensures PageOf(data, rows, maxTxs, maxRun, page)
  {
    var tagsTable := TagsTable(data);
    var limit := Min(|rows|, maxRun);
    var ret: seq<Row> := [];
    var visited := 0;
    var nextPage: Option<Hash> := None;
    assert Missing(data, rows[..0]) == [];
    hide Missing;
    while visited < limit
      invariant visited <= limit
      invariant ret == Missing(data, rows[..visited]) && |ret| < Quota(maxTxs)
      invariant visited > 0 ==> |Missing(data, rows[..visited - 1])| < Quota(maxTxs)
      invariant nextPage == if visited == 0 then None else Some(rows[visited - 1].hash)
    {
      var row := rows[visited];
      MissingOfOne(data, rows, visited);
      visited := visited + 1;
      nextPage := Some(row.hash);
      var contains := if data.BloomFilter? then data.contains(row.txid) else data.tagOf(row.txid) in tagsTable;
      if !contains {
        ret := ret + [row];
        if |ret| >= maxTxs {
          break;
        }
      }
    }
    return Page(ret, nextPage, visited);
  }

  // ---------- The stream ----------

  function Pow256(n: nat): (p: nat)
    ensures p > 0
  {
    if n == 0 then 1 else 256 * Pow256(n - 1)
  }

  function BigEndian(h: Hash, n: nat): (bytes: seq<Byte>)
    ensures |bytes| == n
  {
    if n == 0 then [] else BigEndian(h / 256, n - 1) + [(h % 256) as Byte]
  }

  /** The 32 big-endian bytes of a hashed txid, which end a stream. */
  function PageId(h: Hash): (bytes: seq<Byte>)
    ensures |bytes| == 32
  {
    BigEndian(h, 32)
  }

  function Bodies(txs: seq<Row>): seq<Byte> {
    if txs == [] then [] else txs[0].body + Bodies(txs[1..])
  }

  lemma {:induction false} BodiesSplit(a: seq<Row>, b: seq<Row>)
    ensures Bodies(a + b) == Bodies(a) + Bodies(b)
  {
    if a == [] {
      assert a + b == b;
    } else {
      assert (a + b)[1..] == a[1..] + b;
      BodiesSplit(a[1..], b);
    }
  }

  /** The id that ends a stream over the rows above a cursor, at most `budget` of which may be
      visited. It is left out exactly when the rows run out before the budget does and the last
      of them was sent. */
  function Trailer(data: SyncData, rows: seq<Row>, cursor: Hash, budget: nat): seq<Byte> {
    var k := Min(|rows|, budget);
    var last := if k == 0 then cursor else rows[k - 1].hash;
    if budget <= |rows| || (k > 0 && data.Contains(rows[k - 1].txid)) then PageId(last) else []
  }

  /** The whole stream: the missing transactions among the rows visited, and then the trailer. */
  function Stream(data: SyncData, rows: seq<Row>, cursor: Hash, budget: nat): seq<Byte> {
    Bodies(Missing(data, rows[..Min(|rows|, budget)])) + Trailer(data, rows, cursor, budget)
  }

  /** The bytes of a reply: the missing transactions among the rows visited, and a page id unless the
      rows ran out within the budget with a transaction that was sent (or there were none at all).
      Running out of rows is not enough. */
  ghost predicate IsReply(data: SyncData, rows: seq<Row>, cursor: Hash, budget: nat, out: seq<Byte>) {
    var sent := Bodies(Missing(data, rows[..Min(|rows|, budget)]));
    && sent <= out && (|out| == |sent| || |out| == |sent| + 32)
    && (out == sent <==> |rows| < budget && (rows == [] || !data.Contains(rows[|rows| - 1].txid)))
    && (out != sent ==> out[|sent|..] == PageId(if rows == [] || budget == 0 then cursor else rows[Min(|rows|, budget) - 1].hash))
  }

  lemma StreamIsReply(data: SyncData, rows: seq<Row>, cursor: Hash, budget: nat)
    ensures IsReply(data, rows, cursor, budget, Stream(data, rows, cursor, budget))
  {
    hide PageId, Bodies, Missing;
    var sent, trailer := Bodies(Missing(data, rows[..Min(|rows|, budget)])), Trailer(data, rows, cursor, budget);
    assert (sent + trailer)[|sent|..] == trailer;
  }

  /** A stream whose rows ran out, that sent all there was to send, and that still ends in a page id. */
  lemma TrailerAfterRowsRanOut()
    ensures var data := BloomFilter((t: Txid) => t == 7);
            var rows := [Row(3, 10, [1, 2]), Row(7, 20, [3])];
            Missing(data, rows) == [rows[0]] && Stream(data, rows, 0, 100) == [1, 2] + PageId(20)
  {
    hide PageId;
    var data := BloomFilter((t: Txid) => t == 7);
    var rows := [Row(3, 10, [1, 2]), Row(7, 20, [3])];
    assert rows[..2] == rows;
    assert Missing(data, rows[1..][1..]) == [];
    assert Missing(data, rows[1..]) == [];
    assert Missing(data, rows) == [rows[0]] + [];
    assert Bodies([rows[0]]) == [1, 2] + Bodies([]);
  }

  /** Where a peer goes on after a reply. */
  function NextPage(data: SyncData, rows: seq<Row>, budget: nat): Option<Hash>
    requires budget > 0
  {
    var k := Min(|rows|, budget);
    if k > 0 && (budget <= |rows| || data.Contains(rows[k - 1].txid)) then Some(rows[k - 1].hash) else None
  }

  /** What a reply is good for: without a page id everything missing has been sent; with one, what
      is missing is what has been sent and what is missing above that id. */
  lemma ReplyResumes(data: SyncData, rows: seq<Row>, cursor: Hash, budget: nat)
    requires budget > 0
    ensures var k, next := Min(|rows|, budget), NextPage(data, rows, budget);
            && Stream(data, rows, cursor, budget) == Bodies(Missing(data, rows[..k])) + (if next.Some? then PageId(next.value) else [])
            && Missing(data, rows) == Missing(data, rows[..k]) + Missing(data, rows[k..])
            && (next.None? ==> k == |rows|)
            && (next.Some? ==> k > 0 && next.value == rows[k - 1].hash)
  {
    hide PageId, Missing, Bodies;
    var k := Min(|rows|, budget);
    assert rows == rows[..k] + rows[k..];
    MissingSplits(data, rows[..k], rows[k..]);
  }

  /** After a page that sends a transaction, the trailer is that of the rows after the page. */
  lemma TrailerUnrolls(data: SyncData, rows: seq<Row>, cursor: Hash, budget: nat, n: nat)
    requires 0 < n <= |rows| && n <= budget && !data.Contains(rows[n - 1].txid)
    ensures Trailer(data, rows, cursor, budget) == Trailer(data, rows[n..], rows[n - 1].hash, budget - n)
  {
    hide PageId;
    var rest := rows[n..];
    var k, kr := Min(|rows|, budget), Min(|rest|, budget - n);
    assert k == n + kr;
    if kr > 0 {
      assert rest[kr - 1] == rows[k - 1];
    }
  }

  lemma BodiesUnroll(data: SyncData, rows: seq<Row>, budget: nat, n: nat)
    requires n <= |rows| && n <= budget
    ensures Bodies(Missing(data, rows[..Min(|rows|, budget)]))
         == Bodies(Missing(data, rows[..n])) + Bodies(Missing(data, rows[n..][..Min(|rows| - n, budget - n)]))
  {
    hide Missing, Bodies;
    var rest := rows[n..][..Min(|rows| - n, budget - n)];
    assert rows[..Min(|rows|, budget)] == rows[..n] + rest;
    MissingSplits(data, rows[..n], rest);
    BodiesSplit(Missing(data, rows[..n]), Missing(data, rest));
  }

  /** Handing out buffered bytes. */
  lemma HandOut(buf: seq<Byte>, start: nat, end: nat, rest: seq<Byte>)
    requires start <= end <= |buf|
    ensures buf[start..end] + (buf[end..] + rest) == buf[start..] + rest
  {
    assert buf[start..] == buf[start..end] + buf[end..];
  }

  lemma Associate(a: seq<Byte>, b: seq<Byte>, c: seq<Byte>)
    ensures (a + b) + c == a + (b + c)
  {
  }

  /** The stream when no more rows may be visited. */
  lemma StreamFull(data: SyncData, rows: seq<Row>, cursor: Hash)
    ensures Stream(data, rows, cursor, 0) == PageId(cursor)
  {
    hide PageId;
  }

  /** The stream when the next page sends nothing. */
  lemma StreamEnds(data: SyncData, rows: seq<Row>, cursor: Hash, budget: nat, n: nat)
    requires budget > 0 && IsPage(data, rows, 1, budget, n) && Missing(data, rows[..n]) == []
    ensures Stream(data, rows, cursor, budget) == if n == 0 then [] else PageId(rows[n - 1].hash)
  {
    hide PageId, Missing;
    if n > 0 {
      MissingOfOne(data, rows, n - 1);
    }
  }

  /** The stream when the next page sends a transaction. */
  lemma StreamUnrolls(data: SyncData, rows: seq<Row>, cursor: Hash, budget: nat, n: nat)
    requires budget > 0 && IsPage(data, rows, 1, budget, n) && Missing(data, rows[..n]) != []
    ensures n > 0
    ensures Stream(data, rows, cursor, budget)
         == Bodies(Missing(data, rows[..n])) + Stream(data, rows[n..], rows[n - 1].hash, budget - n)
  {
    hide Trailer, Bodies;
    assert n > 0;
    MissingOfOne(data, rows, n - 1);
    hide Missing;
    TrailerUnrolls(data, rows, cursor, budget, n);
    BodiesUnroll(data, rows, budget, n);
  }
}
