/** The other end of mempool synchronization: decoding a reply, and following page ids from reply to reply. */
module MempoolQuery {
  import opened Wrappers
  import opened MempoolSync
  import opened MempoolTables
  import opened MempoolDB

  // ---------- Page ids as bytes ----------

  function FromBytes(bytes: seq<Byte>): nat {
    if bytes == [] then 0 else FromBytes(bytes[..|bytes| - 1]) * 256 + bytes[|bytes| - 1] as nat
  }

  lemma FromBytesAppend(front: seq<Byte>, b: Byte)
    ensures FromBytes(front + [b]) == FromBytes(front) * 256 + b as nat
  {
    assert (front + [b])[..|front|] == front;
  }

  lemma {:induction false} BigEndianRoundTrip(h: Hash, n: nat)
    requires h < Pow256(n)
    ensures FromBytes(BigEndian(h, n)) == h
  {
    hide FromBytes;
    if n > 0 {
      var high, low := h / 256, h % 256;
      BigEndianRoundTrip(high, n - 1);
      FromBytesAppend(BigEndian(high, n - 1), low as Byte);
    } else {
      assert FromBytes([]) == 0 by { FromNothing(); }
    }
  }

  lemma FromNothing()
    ensures FromBytes([]) == 0
  {
  }

  /** Reading a page id back. */
  lemma PageIdRoundTrip(h: Hash)
    requires h < Pow256(32)
    ensures FromBytes(PageId(h)) == h
  {
    BigEndianRoundTrip(h, 32);
  }

  // ---------- Decoding a reply ----------

  /** Reading one transaction from the front of some bytes. */
  datatype Parsed = Parsed(len: nat) | Truncated | Malformed

  type Codec = seq<Byte> -> Parsed

  datatype Reply = Reply(txs: seq<seq<Byte>>, pageId: Option<Hash>)

  /** A transaction is never empty, and never longer than what it is read from. */
  ghost predicate Sound(codec: Codec) {
    forall bytes :: codec(bytes).Parsed? ==> 0 < codec(bytes).len <= |bytes|
  }

  /** The trailing page id, if nothing or at least 32 bytes are left. */
  function TrailingId(rest: seq<Byte>): Result<Option<Hash>> {
    if |rest| >= 32 then Success(Some(FromBytes(rest[..32])))
    else if rest == [] then Success(None)
    else Failure
  }

  function Prepend(txs: seq<seq<Byte>>, r: Result<Reply>): Result<Reply> {
    if r.Success? then Success(Reply(txs + r.value.txs, r.value.pageId)) else Failure
  }

  /** A list of transactions, then an optional page id. */
  function Decode(codec: Codec, rest: seq<Byte>): Result<Reply>
    requires Sound(codec)
    decreases |rest|
  {
    match codec(rest)
    case Parsed(n) => Prepend([rest[..n]], Decode(codec, rest[n..]))
    case Truncated => (match TrailingId(rest) case Success(id) => Success(Reply([], id)) case Failure => Failure)
    case Malformed => AtEnd(codec, rest)
  }

  /** Bytes that are no transaction must be a page id with nothing after it. */
  function AtEnd(codec: Codec, rest: seq<Byte>): Result<Reply> {
    if |rest| == 32 && codec([]).Truncated? then Success(Reply([], Some(FromBytes(rest)))) else Failure
  }

  /** A reader that pretends the stream ends after so many bytes. */
  function Limited(bytes: seq<Byte>, maxLen: nat): seq<Byte> {
    bytes[..Min(|bytes|, maxLen)]
  }

  /** The decoding loop. */
  method DecodeTxStream(codec: Codec, stream: seq<Byte>, maxLen: nat) returns (r: Result<Reply>)
    requires Sound(codec)
    ensures r == Decode(codec, Limited(stream, maxLen))
  {
    hide FromBytes;
    var bytes := Limited(stream, maxLen);
    var pos := 0;
    var txs: seq<seq<Byte>> := [];
    var pageId: Option<Hash> := None;
    var expectEof := false;
    assert bytes[0..] == bytes;
    PrependNothing(Decode(codec, bytes));
    while true
      invariant pos <= |bytes|
      invariant !expectEof ==> Decode(codec, bytes) == Prepend(txs, Decode(codec, bytes[pos..]))
      invariant expectEof ==>
        Decode(codec, bytes) == if codec(bytes[pos..]).Truncated? && pos == |bytes| then Success(Reply(txs, pageId)) else Failure
      decreases |bytes| - pos, !expectEof
    {
      var rest := bytes[pos..];
      var next := codec(rest);
      match next {
        case Parsed(n) =>
          if expectEof {
            return Failure;
          }
          assert bytes[pos + n..] == rest[n..];
          PrependTwice(txs, rest[..n], Decode(codec, rest[n..]));
          txs := txs + [rest[..n]];
          pos := pos + n;
        case Truncated =>
          if expectEof {
            return if pos != |bytes| then Failure else Success(Reply(txs, pageId));
          }
          var id := TrailingId(rest);
          assert txs + [] == txs;
          return if id.Success? then Success(Reply(txs, id.value)) else Failure;
        case Malformed =>
          if expectEof {
            return Failure;
          }
          var id := TrailingId(rest);
          if id.Failure? {
            return Failure;
          }
          pageId, expectEof := id.value, true;
          assert Decode(codec, rest) == AtEnd(codec, rest) && txs + [] == txs;
          if |rest| >= 32 {
            assert rest[..32] + rest[32..] == rest;
            assert bytes[pos + 32..] == rest[32..];
            assert |rest| == 32 ==> rest[32..] == [] && rest[..32] == rest;
            pos := pos + 32;
          }
      }
    }
  }

  lemma PrependNothing(r: Result<Reply>)
    ensures Prepend([], r) == r
  {
    if r.Success? {
      assert [] + r.value.txs == r.value.txs;
    }
  }

  lemma PrependTwice(txs: seq<seq<Byte>>, tx: seq<Byte>, r: Result<Reply>)
    ensures Prepend(txs, Prepend([tx], r)) == Prepend(txs + [tx], r)
  {
    if r.Success? {
      assert txs + ([tx] + r.value.txs) == (txs + [tx]) + r.value.txs;
    }
  }

  // ---------- The round trip ----------

  /** What the transaction format promises: stored transactions can be read back whatever follows
      them, and no transaction fits into the 32 bytes of a page id. */
  ghost predicate Reads(codec: Codec, rows: seq<Row>) {
    && (forall i, rest :: 0 <= i < |rows| ==> codec(rows[i].body + rest) == Parsed(|rows[i].body|))
    && (forall bytes :: |bytes| <= 32 ==> !codec(bytes).Parsed?)
    && codec([]) == Truncated
  }

  function BodyList(rows: seq<Row>): (r: seq<seq<Byte>>)
    ensures |r| == |rows| && forall i :: 0 <= i < |rows| ==> r[i] == rows[i].body
  {
    seq(|rows|, i requires 0 <= i < |rows| => rows[i].body)
  }

  function IdBytes(id: Option<Hash>): seq<Byte> {
    if id.Some? then PageId(id.value) else []
  }

  lemma DecodeId(codec: Codec, id: Option<Hash>)
    requires Sound(codec) && Reads(codec, []) && (id.Some? ==> id.value < Pow256(32))
    ensures Decode(codec, IdBytes(id)) == Success(Reply([], id))
  {
    hide PageId, FromBytes;
    if id.Some? {
      PageIdRoundTrip(id.value);
      assert PageId(id.value)[..32] == PageId(id.value);
    }
  }

  /** Whatever transactions are sent, with or without a page id after them, the peer reads them back. */
  lemma {:induction false} DecodeRoundTrip(codec: Codec, rows: seq<Row>, id: Option<Hash>)
    requires Sound(codec) && Reads(codec, rows) && (id.Some? ==> id.value < Pow256(32))
    ensures Decode(codec, Bodies(rows) + IdBytes(id)) == Success(Reply(BodyList(rows), id))
  {
    hide IdBytes;
    if rows == [] {
      assert Bodies(rows) + IdBytes(id) == IdBytes(id);
      DecodeId(codec, id);
      assert BodyList(rows) == [];
    } else {
      var tx, rest := rows[0].body, Bodies(rows[1..]) + IdBytes(id);
      assert Bodies(rows) + IdBytes(id) == tx + rest;
      assert codec(tx + rest) == Parsed(|tx|);
      assert (tx + rest)[..|tx|] == tx && (tx + rest)[|tx|..] == rest;
      assert Reads(codec, rows[1..]);
      DecodeRoundTrip(codec, rows[1..], id);
      assert BodyList(rows) == [tx] + BodyList(rows[1..]);
    }
  }

  function TotalLength(txs: seq<seq<Byte>>): nat {
    if txs == [] then 0 else |txs[0]| + TotalLength(txs[1..])
  }

  /** What is decoded was in the bytes, each of them once. */
  lemma {:induction false} DecodedFits(codec: Codec, rest: seq<Byte>)
    requires Sound(codec)
    ensures var r := Decode(codec, rest);
            r.Success? ==> TotalLength(r.value.txs) + (if r.value.pageId.Some? then 32 else 0) <= |rest|
    decreases |rest|
  {
    hide FromBytes;
    if codec(rest).Parsed? {
      var n := codec(rest).len;
      DecodedFits(codec, rest[n..]);
      var r := Decode(codec, rest[n..]);
      if r.Success? {
        assert ([rest[..n]] + r.value.txs)[1..] == r.value.txs;
      }
    }
  }

  lemma {:induction false} BodiesLength(rows: seq<Row>)
    ensures TotalLength(BodyList(rows)) == |Bodies(rows)|
  {
    if rows != [] {
      BodiesLength(rows[1..]);
      assert BodyList(rows)[1..] == BodyList(rows[1..]);
    }
  }

  /** A reply is read back exactly when it is no longer than the reader allows. */
  lemma ReadBackExactly(codec: Codec, rows: seq<Row>, id: Option<Hash>, maxLen: nat)
    requires Sound(codec) && Reads(codec, rows) && (id.Some? ==> id.value < Pow256(32))
    ensures var bytes := Bodies(rows) + IdBytes(id);
            Decode(codec, Limited(bytes, maxLen)) == Success(Reply(BodyList(rows), id)) <==> |bytes| <= maxLen
  {
    hide Decode, Reads, Sound, PageId, Bodies, BodyList;
    var bytes := Bodies(rows) + IdBytes(id);
    if |bytes| <= maxLen {
      assert Limited(bytes, maxLen) == bytes;
      DecodeRoundTrip(codec, rows, id);
    } else {
      DecodedFits(codec, Limited(bytes, maxLen));
      BodiesLength(rows);
    }
  }

  // ---------- From reply to reply ----------

  /** Every listed row can be read back, and its hash has 256 bits. */
  ghost predicate Readable(codec: Codec, rows: seq<Row>) {
    Reads(codec, rows) && forall i :: 0 <= i < |rows| ==> rows[i].hash < Pow256(32)
  }

  lemma ReadableParts(codec: Codec, data: SyncData, rows: seq<Row>, k: nat)
    requires Readable(codec, rows) && k <= |rows|
    ensures Readable(codec, rows[k..]) && Reads(codec, Missing(data, rows[..k]))
  {
    hide Pow256;
    var sent := Missing(data, rows[..k]);
    forall i, rest | 0 <= i < |sent|
      ensures codec(sent[i].body + rest) == Parsed(|sent[i].body|)
    {
      MissingMembers(data, rows[..k], sent[i]);
      var j :| 0 <= j < k && rows[j] == sent[i];
      assert codec(rows[j].body + rest) == Parsed(|rows[j].body|);
    }
  }

  lemma BodyListJoins(a: seq<Row>, b: seq<Row>)
    ensures BodyList(a) + BodyList(b) == BodyList(a + b)
  {
  }

  /** One query: the reply as it was streamed, in chunks of any sizes, and as the peer decodes it. */
  method Query(db: MemPoolDB, codec: Codec, data: SyncData, maxTxs: nat, height: nat, cursor: Hash, chunk: nat -> nat, maxLen: nat)
    returns (r: Result<Reply>)
    requires CollisionFree(db.pager) && Sound(codec) && Readable(codec, db.RowsAbove(height, cursor))
    requires Floor(height) <= I64_MAX && 0 < maxTxs <= I64_MAX && forall i :: chunk(i) > 0
    ensures var rows := db.RowsAbove(height, cursor);
            r == Success(Reply(BodyList(Missing(data, rows[..Min(|rows|, maxTxs)])), NextPage(data, rows, maxTxs)))
            <==> |Stream(data, rows, cursor, maxTxs)| <= maxLen
  {
    hide CollisionFree, Decode, Readable, Stream, Missing, BodyList, Sound, IsReply, NextPage, Limited;
    var q := new TxStreamData(data, maxTxs, height, cursor);
    StreamDecodes(codec, data, db.RowsAbove(height, cursor), cursor, maxTxs, maxLen);
    var bytes, calls := db.StreamReply(q, chunk);
    r := DecodeTxStream(codec, bytes, maxLen);
  }

  lemma StreamDecodes(codec: Codec, data: SyncData, rows: seq<Row>, cursor: Hash, budget: nat, maxLen: nat)
    requires Sound(codec) && Readable(codec, rows) && budget > 0
    ensures var bytes := Stream(data, rows, cursor, budget);
            Decode(codec, Limited(bytes, maxLen))
            == Success(Reply(BodyList(Missing(data, rows[..Min(|rows|, budget)])), NextPage(data, rows, budget)))
            <==> |bytes| <= maxLen
  {
    hide Decode, Readable, Reads, Stream, Missing, BodyList, Sound, NextPage, Limited;
    var k, next := Min(|rows|, budget), NextPage(data, rows, budget);
    ReplyResumes(data, rows, cursor, budget);
    ReadableParts(codec, data, rows, k);
    NextFits(codec, rows, k, next);
    ReadBackExactly(codec, Missing(data, rows[..k]), next, maxLen);
  }

  lemma NextFits(codec: Codec, rows: seq<Row>, k: nat, next: Option<Hash>)
    requires Readable(codec, rows) && k <= |rows| && (next.Some? ==> k > 0 && next.value == rows[k - 1].hash)
    ensures next.Some? ==> next.value < Pow256(32)
  {
    hide Pow256, Reads;
  }

  lemma NextPageIs(data: SyncData, rows: seq<Row>, budget: nat)
    requires budget > 0
    ensures var k, next := Min(|rows|, budget), NextPage(data, rows, budget);
            if next.None? then k == |rows| else k > 0 && next.value == rows[k - 1].hash
  {
  }

  /** What a peer gets that describes anew what it has in every query, data(i) in the i-th: from each
      stretch of rows, the ones that its description at that time lacks. */
  function Received(data: nat -> SyncData, rows: seq<Row>, maxTxs: nat, i: nat): seq<Row>
    requires maxTxs > 0
    decreases |rows|
  {
    if rows == [] then []
    else
      var k := Min(|rows|, maxTxs);
      Missing(data(i), rows[..k]) + Received(data, rows[k..], maxTxs, i + 1)
  }

  /** No reply is longer than the reader allows. */
  ghost predicate RepliesFit(data: nat -> SyncData, rows: seq<Row>, cursor: Hash, maxTxs: nat, maxLen: nat, i: nat)
    requires maxTxs > 0
    decreases |rows|
  {
    && |Stream(data(i), rows, cursor, maxTxs)| <= maxLen
    && var k := Min(|rows|, maxTxs);
       k > 0 ==> RepliesFit(data, rows[k..], rows[k - 1].hash, maxTxs, maxLen, i + 1)
  }

  /** With one description throughout, that is everything the peer lacks. */
  lemma {:induction false} ReceivedAll(data: nat -> SyncData, rows: seq<Row>, maxTxs: nat, i: nat)
    requires maxTxs > 0 && forall j :: data(j) == data(0)
    ensures Received(data, rows, maxTxs, i) == Missing(data(0), rows)
    decreases |rows|
  {
    if rows != [] {
      var k := Min(|rows|, maxTxs);
      ReceivedAll(data, rows[k..], maxTxs, i + 1);
      MissingSplits(data(0), rows[..k], rows[k..]);
      assert rows == rows[..k] + rows[k..];
    }
  }

  /** In any case, a row that every description lacks is received, and a row that every one has is not. */
  lemma {:induction false} ReceivedMembers(data: nat -> SyncData, rows: seq<Row>, maxTxs: nat, i: nat, r: Row)
    requires maxTxs > 0
    ensures r in Received(data, rows, maxTxs, i) ==> r in rows && exists j :: j >= i && !data(j).Contains(r.txid)
    ensures r in rows && (forall j :: j >= i ==> !data(j).Contains(r.txid)) ==> r in Received(data, rows, maxTxs, i)
    decreases |rows|
  {
    if rows != [] {
      var k := Min(|rows|, maxTxs);
      ReceivedMembers(data, rows[k..], maxTxs, i + 1, r);
      MissingMembers(data(i), rows[..k], r);
      assert rows == rows[..k] + rows[k..];
    }
  }

  /** Nothing is received twice, or out of order. */
  lemma {:induction false} ReceivedInOrder(data: nat -> SyncData, rows: seq<Row>, maxTxs: nat, i: nat)
    requires maxTxs > 0 && Ascending(rows)
    ensures Ascending(Received(data, rows, maxTxs, i))
    decreases |rows|
  {
    if rows != [] {
      var k := Min(|rows|, maxTxs);
      var first, rest := Missing(data(i), rows[..k]), Received(data, rows[k..], maxTxs, i + 1);
      ReceivedInOrder(data, rows[k..], maxTxs, i + 1);
      MissingKeepsOrder(data(i), rows[..k]);
      forall a, b | 0 <= a < |first| && 0 <= b < |rest|
        ensures first[a].hash < rest[b].hash
      {
        MissingMembers(data(i), rows[..k], first[a]);
        ReceivedMembers(data, rows[k..], maxTxs, i + 1, rest[b]);
      }
    }
  }

  /** A peer that follows the page ids until a reply has none receives exactly that, whatever the chunks. */
  method SyncMempool(db: MemPoolDB, codec: Codec, data: nat -> SyncData, maxTxs: nat, height: nat, start: Hash, chunk: nat -> nat, maxLen: nat)
    returns (txs: seq<seq<Byte>>, replies: nat)
    requires CollisionFree(db.pager) && Sound(codec) && Readable(codec, db.RowsAbove(height, start))
    requires Floor(height) <= I64_MAX && 0 < maxTxs <= I64_MAX && forall i :: chunk(i) > 0
    requires RepliesFit(data, db.RowsAbove(height, start), start, maxTxs, maxLen, 0)
    ensures txs == BodyList(Received(data, db.RowsAbove(height, start), maxTxs, 0))
    ensures replies <= |db.RowsAbove(height, start)| + 1
  {
    hide CollisionFree, Readable, Missing, BodyList, Sound, NextPage, Received, RepliesFit, Stream, MemPoolDB.RowsAbove;
    ghost var rows, n := db.RowsAbove(height, start), 0;
    ghost var all := BodyList(Received(data, rows, maxTxs, 0));
    var cursor := start;
    txs, replies := [], 0;
    assert rows[0..] == rows && [] + all == all;
    while true
      invariant n <= |rows| && replies <= n
      invariant db.RowsAbove(height, cursor) == rows[n..] && Readable(codec, rows[n..])
      invariant RepliesFit(data, rows[n..], cursor, maxTxs, maxLen, replies)
      invariant all == txs + BodyList(Received(data, rows[n..], maxTxs, replies))
      decreases |rows| - n
    {
      ghost var rest := rows[n..];
      ghost var k := Min(|rest|, maxTxs);
      ReplyFits(data, rest, cursor, maxTxs, maxLen, replies);
      ReceivedStep(data, rest, maxTxs, replies, txs);
      var r := Query(db, codec, data(replies), maxTxs, height, cursor, chunk, maxLen);
      var reply := r.value;
      NextPageIs(data(replies), rest, maxTxs);
      txs := txs + reply.txs;
      ReadableParts(codec, data(replies), rest, k);
      assert rest[k..] == rows[n + k..];
      n, replies := n + k, replies + 1;
      if reply.pageId.None? {
        NothingLeft(data, rows[n..], maxTxs, replies, txs);
        break;
      }
      db.RowsAboveAdvance(height, cursor, k);
      cursor := reply.pageId.value;
    }
  }

  lemma ReplyFits(data: nat -> SyncData, rows: seq<Row>, cursor: Hash, maxTxs: nat, maxLen: nat, i: nat)
    requires maxTxs > 0 && RepliesFit(data, rows, cursor, maxTxs, maxLen, i)
    ensures |Stream(data(i), rows, cursor, maxTxs)| <= maxLen
    ensures var k := Min(|rows|, maxTxs);
            k > 0 ==> RepliesFit(data, rows[k..], rows[k - 1].hash, maxTxs, maxLen, i + 1)
  {
    hide Stream;
  }

  lemma ReceivedStep(data: nat -> SyncData, rows: seq<Row>, maxTxs: nat, i: nat, txs: seq<seq<Byte>>)
    requires maxTxs > 0
    ensures var k := Min(|rows|, maxTxs);
            txs + BodyList(Received(data, rows, maxTxs, i))
            == txs + BodyList(Missing(data(i), rows[..k])) + BodyList(Received(data, rows[k..], maxTxs, i + 1))
  {
    hide BodyList;
    var k := Min(|rows|, maxTxs);
    BodyListJoins(Missing(data(i), rows[..k]), Received(data, rows[k..], maxTxs, i + 1));
    if rows == [] {
      assert Missing(data(i), rows[..k]) == [];
      BodyListJoins([], []);
    }
    assert txs + (BodyList(Missing(data(i), rows[..k])) + BodyList(Received(data, rows[k..], maxTxs, i + 1)))
        == txs + BodyList(Missing(data(i), rows[..k])) + BodyList(Received(data, rows[k..], maxTxs, i + 1));
  }

  lemma NothingLeft(data: nat -> SyncData, rows: seq<Row>, maxTxs: nat, i: nat, txs: seq<seq<Byte>>)
    requires maxTxs > 0 && rows == []
    ensures txs + BodyList(Received(data, rows, maxTxs, i)) == txs
  {
  }
}
