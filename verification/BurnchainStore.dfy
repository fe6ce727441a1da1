/** The burnchain block store: append-only, idempotent, with a canonical tip. */
module BurnchainStore {
  import opened Wrappers
  import opened Orders
  import opened StableSort

  type Hash = nat

  /** BurnchainHeaderHash::sentinel(), the parent of the first block. */
  const SENTINEL: Hash := 0xffff_ffff_ffff_ffff_ffff_ffff_ffff_ffff_ffff_ffff_ffff_ffff_ffff_ffff_ffff_ffff

  datatype Header = Header(hash: Hash, height: nat, parent: Hash, numTxs: nat, timestamp: nat)

  /** A classified operation; `payload` stands for everything but its position in the block. */
  datatype Op = Op(vtxindex: nat, payload: nat)

  /** A transaction of a burnchain block, with what classify_transaction makes of it. */
  datatype BurnTx = BurnTx(event: nat, classified: Option<Op>)

  datatype Block = Block(header: Header, txs: seq<BurnTx>)

  const VTXINDEX: Op -> real := (op: Op) => op.vtxindex as real

  // ---------- The operations of a block ----------

  function Classified(txs: seq<BurnTx>): seq<Op> {
    if txs == [] then []
    else Classified(txs[..|txs| - 1]) + if txs[|txs| - 1].classified.Some? then [txs[|txs| - 1].classified.value] else []
  }

  /** Every classified transaction is there, after those of the transactions before it. */
  lemma {:induction false} ClassifiedAt(txs: seq<BurnTx>, i: nat)
    requires i < |txs| && txs[i].classified.Some?
    ensures var k := |Classified(txs[..i])|;
            k < |Classified(txs)| && Classified(txs)[k] == txs[i].classified.value && Classified(txs)[..k] == Classified(txs[..i])
  {
    var n := |txs| - 1;
    if i < n {
      ClassifiedAt(txs[..n], i);
      assert txs[..n][..i] == txs[..i];
    }
  }

  /** And nothing else is. */
  lemma {:induction false} ClassifiedCount(txs: seq<BurnTx>)
    ensures |Classified(txs)| == |set i | 0 <= i < |txs| && txs[i].classified.Some?|
  {
    if txs != [] {
      var n := |txs| - 1;
      ClassifiedCount(txs[..n]);
      var before := set i | 0 <= i < n && txs[..n][i].classified.Some?;
      var all := set i | 0 <= i < |txs| && txs[i].classified.Some?;
      assert all == before + if txs[n].classified.Some? then {n} else {};
    }
  }

  /** What is stored for a block. */
  function OpsOf(b: Block): seq<Op> {
    SortBy(Classified(b.txs), VTXINDEX)
  }

  /** The stored operations are a stable permutation of the classified ones, sorted by vtxindex. */
  lemma OpsAreSortedStably(b: Block, v: nat)
    ensures SortedBy(OpsOf(b), VTXINDEX)
    ensures multiset(OpsOf(b)) == multiset(Classified(b.txs))
    ensures WithKey(OpsOf(b), VTXINDEX, v as real) == WithKey(Classified(b.txs), VTXINDEX, v as real)
  {
    SortSorts(Classified(b.txs), VTXINDEX);
    SortPermutes(Classified(b.txs), VTXINDEX);
    SortIsStable(Classified(b.txs), VTXINDEX, v as real);
  }

  method GetBlockstackTransactions(b: Block) returns (ops: seq<Op>)
    ensures ops == OpsOf(b)
  {
    ops := [];
    for i := 0 to |b.txs|
      invariant ops == Classified(b.txs[..i])
    {
      assert b.txs[..i + 1][..i] == b.txs[..i];
      if b.txs[i].classified.Some? {
        ops := ops + [b.txs[i].classified.value];
      }
    }
    assert b.txs[..|b.txs|] == b.txs;
    ops := SortBy(ops, VTXINDEX);
  }

  // ---------- The contents of the store ----------

  datatype Entry = Entry(header: Header, ops: seq<Op>)

  /** The contents: what get_burnchain_block answers for every hash. */
  type Contents = map<Hash, Entry>

  function EntryOf(b: Block): Entry {
    Entry(b.header, OpsOf(b))
  }

  predicate Storable(b: Block) {
    b.header.height <= I64_MAX && b.header.numTxs <= I64_MAX && b.header.timestamp <= I64_MAX
  }

  /** process_block: a known hash is left alone. */
  function Process(c: Contents, b: Block): Contents {
    if b.header.hash in c || !Storable(b) then c else c[b.header.hash := EntryOf(b)]
  }

  function ProcessAll(c: Contents, blocks: seq<Block>): Contents {
    if blocks == [] then c else Process(ProcessAll(c, blocks[..|blocks| - 1]), blocks[|blocks| - 1])
  }

  /** Nothing stored is ever changed or lost. */
  lemma {:induction false} ProcessOnlyAdds(c: Contents, blocks: seq<Block>, h: Hash)
    requires h in c
    ensures h in ProcessAll(c, blocks) && ProcessAll(c, blocks)[h] == c[h]
  {
    if blocks != [] {
      ProcessOnlyAdds(c, blocks[..|blocks| - 1], h);
    }
  }

  /** A block that was processed before, however long ago, changes nothing any more. */
  lemma {:induction false} RepeatChangesNothing(c: Contents, blocks: seq<Block>, i: nat)
    requires i < |blocks|
    ensures Process(ProcessAll(c, blocks), blocks[i]) == ProcessAll(c, blocks)
  {
    var n := |blocks| - 1;
    if i < n {
      RepeatChangesNothing(c, blocks[..n], i);
    }
  }

  /** The blocks that compete for a hash. */
  predicate Offers(b: Block, h: Hash) {
    b.header.hash == h && Storable(b)
  }

  /** A hash is stored exactly if it was there or some block brought it, with that block's entry. */
  lemma {:induction false} StoredExactly(c: Contents, blocks: seq<Block>, h: Hash)
    requires h !in c
    ensures h in ProcessAll(c, blocks) <==> exists i :: 0 <= i < |blocks| && Offers(blocks[i], h)
    ensures h in ProcessAll(c, blocks) ==> exists i :: 0 <= i < |blocks| && Offers(blocks[i], h) && ProcessAll(c, blocks)[h] == EntryOf(blocks[i])
  {
    if blocks != [] {
      var n := |blocks| - 1;
      StoredExactly(c, blocks[..n], h);
      if h in ProcessAll(c, blocks[..n]) {
        var i :| 0 <= i < n && Offers(blocks[..n][i], h) && ProcessAll(c, blocks[..n])[h] == EntryOf(blocks[..n][i]);
        assert Offers(blocks[i], h);
      } else if Offers(blocks[n], h) {
        assert ProcessAll(c, blocks)[h] == EntryOf(blocks[n]);
      } else {
        forall i | 0 <= i < |blocks|
          ensures !Offers(blocks[i], h)
        {
          if i < n {
            assert blocks[..n][i] == blocks[i];
          }
        }
      }
    }
  }

  ghost predicate SameBlocks(a: seq<Block>, b: seq<Block>) {
    forall x :: x in a <==> x in b
  }

  /** No two blocks offer different entries for one new hash. */
  ghost predicate Unambiguous(c: Contents, s: seq<Block>) {
    forall x, y :: x in s && y in s && x.header.hash == y.header.hash && x.header.hash !in c && Storable(x) && Storable(y) ==>
      EntryOf(x) == EntryOf(y)
  }

  ghost predicate OrderIndependent(c: Contents, s: seq<Block>) {
    forall a, b :: SameBlocks(a, s) && SameBlocks(b, s) ==> ProcessAll(c, a) == ProcessAll(c, b)
  }

  /** For any two sequences of the same blocks, with repeats and in any order. */
  lemma SameContents(c: Contents, s: seq<Block>, a: seq<Block>, b: seq<Block>)
    requires Unambiguous(c, s) && SameBlocks(a, s) && SameBlocks(b, s)
    ensures ProcessAll(c, a) == ProcessAll(c, b)
  {
    var ca, cb := ProcessAll(c, a), ProcessAll(c, b);
    forall h: Hash
      ensures h in ca <==> h in cb
      ensures h in ca && h in cb ==> ca[h] == cb[h]
    {
      SameEntry(c, s, a, b, h);
    }
  }

  lemma SameEntry(c: Contents, s: seq<Block>, a: seq<Block>, b: seq<Block>, h: Hash)
    requires Unambiguous(c, s) && SameBlocks(a, s) && SameBlocks(b, s)
    ensures h in ProcessAll(c, a) <==> h in ProcessAll(c, b)
    ensures h in ProcessAll(c, a) && h in ProcessAll(c, b) ==> ProcessAll(c, a)[h] == ProcessAll(c, b)[h]
  {
    hide EntryOf, ProcessAll;
    if h in c {
      ProcessOnlyAdds(c, a, h);
      ProcessOnlyAdds(c, b, h);
    } else {
      StoredExactly(c, a, h);
      StoredExactly(c, b, h);
      if i :| 0 <= i < |a| && Offers(a[i], h) {
        assert a[i] in b;
      }
      if i :| 0 <= i < |b| && Offers(b[i], h) {
        assert b[i] in a;
      }
      if h in ProcessAll(c, a) && h in ProcessAll(c, b) {
        var i :| 0 <= i < |a| && Offers(a[i], h) && ProcessAll(c, a)[h] == EntryOf(a[i]);
        var j :| 0 <= j < |b| && Offers(b[j], h) && ProcessAll(c, b)[h] == EntryOf(b[j]);
        assert a[i] in s && b[j] in s;
      }
    }
  }

  /** The first block of a sequence gets its hash. */
  lemma FirstWins(c: Contents, x: Block, rest: seq<Block>)
    requires x.header.hash !in c && Storable(x)
    ensures x.header.hash in ProcessAll(c, [x] + rest) && ProcessAll(c, [x] + rest)[x.header.hash] == EntryOf(x)
  {
    if rest == [] {
      assert ([x] + rest)[..0] == [];
    } else {
      FirstWins(c, x, rest[..|rest| - 1]);
      assert ([x] + rest)[..|rest|] == [x] + rest[..|rest| - 1];
    }
  }

  /** The contents are the same for every order exactly when the blocks are unambiguous. */
  lemma OrderIndependentExactly(c: Contents, s: seq<Block>)
    ensures OrderIndependent(c, s) <==> Unambiguous(c, s)
  {
    if Unambiguous(c, s) {
      forall a, b | SameBlocks(a, s) && SameBlocks(b, s)
        ensures ProcessAll(c, a) == ProcessAll(c, b)
      {
        SameContents(c, s, a, b);
      }
    }
    if OrderIndependent(c, s) {
      forall x, y | x in s && y in s && x.header.hash == y.header.hash && x.header.hash !in c && Storable(x) && Storable(y)
        ensures EntryOf(x) == EntryOf(y)
      {
        FirstWins(c, x, s);
        FirstWins(c, y, s);
        assert SameBlocks([x] + s, s) && SameBlocks([y] + s, s);
      }
    }
  }

  /** Two blocks that claim one hash: whichever comes first is stored. */
  lemma OrderMatters()
    ensures var a, b := Block(Header(1, 5, 0, 0, 0), []), Block(Header(1, 6, 0, 0, 0), []);
            ProcessAll(map[], [a, b]) != ProcessAll(map[], [b, a])
  {
    var a, b := Block(Header(1, 5, 0, 0, 0), []), Block(Header(1, 6, 0, 0, 0), []);
    FirstWins(map[], a, [b]);
    FirstWins(map[], b, [a]);
    assert [a] + [b] == [a, b] && [b] + [a] == [b, a];
  }

  // ---------- The canonical tip ----------

  /** ORDER BY block_height DESC, block_hash ASC */
  predicate Better(a: Header, b: Header) {
    a.height > b.height || (a.height == b.height && a.hash <= b.hash)
  }

  /** Every entry is stored under its own hash. */
  ghost predicate Keyed(c: Contents) {
    forall h :: h in c ==> c[h].header.hash == h
  }

  lemma TipExists(c: Contents, s: set<Hash>)
    requires s != {} && s <= c.Keys
    ensures exists h :: h in s && forall g :: g in s ==> Better(c[h].header, c[g].header)
  {
    var h := LeastExists(s, (a: Hash, b: Hash) => a in c && b in c && Better(c[a].header, c[b].header));
    assert h in s && forall g :: g in s ==> Better(c[h].header, c[g].header);
  }

  function CanonicalTip(c: Contents): (r: Result<Header>)
    requires Keyed(c)
    ensures r.Failure? <==> c.Keys == {}
    ensures r.Success? ==> r.value.hash in c && c[r.value.hash].header == r.value
    ensures r.Success? ==> forall g :: g in c ==> Better(r.value, c[g].header)
  {
    if c.Keys == {} then Failure
    else
      TipExists(c, c.Keys);
      var h :| h in c.Keys && forall g :: g in c.Keys ==> Better(c[h].header, c[g].header);
      Success(c[h].header)
  }

  lemma {:induction false} ProcessKeepsKeyed(c: Contents, blocks: seq<Block>)
    requires Keyed(c)
    ensures Keyed(ProcessAll(c, blocks))
  {
    if blocks != [] {
      ProcessKeepsKeyed(c, blocks[..|blocks| - 1]);
    }
  }

  /** The tip never moves back. */
  lemma TipOnlyImproves(c: Contents, blocks: seq<Block>)
    requires Keyed(c) && c.Keys != {}
    ensures Keyed(ProcessAll(c, blocks)) && CanonicalTip(ProcessAll(c, blocks)).Success?
    ensures Better(CanonicalTip(ProcessAll(c, blocks)).value, CanonicalTip(c).value)
  {
    ProcessKeepsKeyed(c, blocks);
    ProcessOnlyAdds(c, blocks, CanonicalTip(c).value.hash);
  }

  /** The canonical tip is the same for every order of arrival. */
  lemma SameTip(c: Contents, s: seq<Block>, a: seq<Block>, b: seq<Block>)
    requires Keyed(c) && Unambiguous(c, s) && SameBlocks(a, s) && SameBlocks(b, s)
    ensures Keyed(ProcessAll(c, a)) && Keyed(ProcessAll(c, b))
    ensures CanonicalTip(ProcessAll(c, a)) == CanonicalTip(ProcessAll(c, b))
  {
    ProcessKeepsKeyed(c, a);
    ProcessKeepsKeyed(c, b);
    SameContents(c, s, a, b);
  }

  // ---------- The database ----------

  datatype OpRow = OpRow(hash: Hash, op: Op)

  /** SELECT * FROM burnchain_db_block_ops WHERE block_hash = h */
  function Select(rows: seq<OpRow>, h: Hash): seq<Op> {
    if rows == [] then []
    else Select(rows[..|rows| - 1], h) + if rows[|rows| - 1].hash == h then [rows[|rows| - 1].op] else []
  }

  lemma SelectAppend(rows: seq<OpRow>, row: OpRow, h: Hash)
    ensures Select(rows + [row], h) == Select(rows, h) + if row.hash == h then [row.op] else []
  {
    assert (rows + [row])[..|rows|] == rows;
  }

  class BurnchainDB {
    var headers: map<Hash, Header>
    var opRows: seq<OpRow>
    /** What the database was created with, and every block it has been given since. */
    ghost const initial: Contents
    ghost var processed: seq<Block>

    ghost predicate Valid()
      reads this
    {
      && Rows() && (exists h :: h in headers)
      && Keyed(initial) && View() == ProcessAll(initial, processed)
    }

    /** Every header is under its own hash, and every operation belongs to a header. */
    ghost predicate Rows()
      reads this
    {
      && (forall h :: h in headers ==> headers[h].hash == h)
      && (forall h :: h !in headers ==> Select(opRows, h) == [])
    }

    function View(): Contents
      reads this
    {
      map h | h in headers :: Entry(headers[h], Select(opRows, h))
    }

    /** A new database holds the first block's header and nothing else. */
    constructor (firstHeight: nat)
      ensures Valid() && processed == []
      ensures View() == initial == map[0 := Entry(Header(0, firstHeight, SENTINEL, 0, 0), [])]
    {
      headers := map[0 := Header(0, firstHeight, SENTINEL, 0, 0)];
      opRows, processed := [], [];
      initial := map[0 := Entry(Header(0, firstHeight, SENTINEL, 0, 0), [])];
      new;
      assert 0 in headers;
    }

    method StoreOps(hash: Hash, ops: seq<Op>)
      modifies this`opRows
      ensures forall h :: Select(opRows, h) == Select(old(opRows), h) + if h == hash then ops else []
    {
      for i := 0 to |ops|
        invariant forall h :: Select(opRows, h) == Select(old(opRows), h) + if h == hash then ops[..i] else []
      {
        forall h {
          SelectAppend(opRows, OpRow(hash, ops[i]), h);
        }
        opRows := opRows + [OpRow(hash, ops[i])];
        assert ops[..i + 1] == ops[..i] + [ops[i]];
      }
      assert ops[..|ops|] == ops;
    }

    /** A hash that is already there violates the uniqueness of the column: nothing changes. */
    method StoreNewBurnchainBlock(b: Block) returns (r: Result<seq<Op>>)
      requires Rows()
      modifies this`headers, this`opRows
      ensures Rows() && View() == Process(old(View()), b)
      ensures r.Success? <==>
        && b.header.hash !in old(headers) && b.header.height < 0x8000_0000_0000_0000
        && b.header.numTxs < 0x8000_0000_0000_0000 && b.header.timestamp < 0x8000_0000_0000_0000
      ensures r.Success? ==> r.value == OpsOf(b) && headers == old(headers)[b.header.hash := b.header]
      ensures old(headers).Keys <= headers.Keys
      ensures r.Failure? ==> headers == old(headers) && opRows == old(opRows)
    {
      hide SortBy, Classified, SortedBy;
      var ops := GetBlockstackTransactions(b);
      SortSorts(Classified(b.txs), VTXINDEX);
      SortOfSorted(ops, VTXINDEX);
      ops := SortBy(ops, VTXINDEX);
      if !Storable(b) || b.header.hash in headers {
        return Failure;
      }
      ghost var before := View();
      headers := headers[b.header.hash := b.header];
      StoreOps(b.header.hash, ops);
      forall h | h in headers
        ensures View()[h] == before[b.header.hash := EntryOf(b)][h]
      {
        assert Select(opRows, h) == Select(old(opRows), h) + if h == b.header.hash then ops else [];
      }
      assert View() == before[b.header.hash := EntryOf(b)];
      return Success(ops);
    }

    method ProcessBlock(b: Block) returns (r: Result<Header>)
      requires Valid()
      modifies this
      ensures Valid() && processed == old(processed) + [b] && View() == Process(old(View()), b)
      ensures r == if b.header.hash in old(headers) || b.header.hash in headers then Success(b.header) else Failure
    {
      ghost var more := processed + [b];
      assert more[..|processed|] == processed;
      var known := b.header.hash in headers;
      if known {
        processed := more;
        return Success(b.header);
      }
      var stored := StoreNewBurnchainBlock(b);
      processed := more;
      return if stored.Success? then Success(b.header) else Failure;
    }

    /** There always is a tip: a stored header with no higher one and, at its own height, none of a
        smaller hash. It is the canonical tip of all the blocks processed so far. */
    method GetCanonicalChainTip() returns (r: Result<Header>)
      requires Valid()
      ensures r.Success? && r.value.hash in headers && headers[r.value.hash] == r.value
      ensures forall g :: g in headers ==> headers[g].height < r.value.height || (headers[g].height == r.value.height && r.value.hash <= g)
      ensures Keyed(ProcessAll(initial, processed)) && r == CanonicalTip(ProcessAll(initial, processed))
    {
      ProcessKeepsKeyed(initial, processed);
      ghost var h :| h in headers;
      assert h in View();
      r := CanonicalTip(View());
      assert forall g :: g in headers ==> g in View() && View()[g].header == headers[g];
    }
  }
}
