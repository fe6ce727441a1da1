/** The mempool's tables as a state machine: admission, replacement, garbage collection, and the
    bloom set of recent transactions. */
module MempoolTables {
  import opened Wrappers
  import opened MempoolSchema
  import opened Orders
  import opened MempoolSync

  const MAX_BLOOM_COUNTER_TXS: nat := 8192
  const BLOOM_COUNTER_DEPTH: nat := 2

  /** height.saturating_sub(BLOOM_COUNTER_DEPTH) */
  function Floor(height: nat): nat {
    if height >= BLOOM_COUNTER_DEPTH then height - BLOOM_COUNTER_DEPTH else 0
  }

  /** The tables, and the bloom counter as the multiset of the txids it counts. */
  datatype Tables = Tables(mempool: Mempool, removed: set<Txid>, pager: Pager, estimates: Estimates, bloom: multiset<Txid>)

  // ---------- Slots ----------

  function OriginHolder(m: Mempool, slot: Slot): (r: Option<Txid>)
    requires UniqueSlots(m)
    ensures r.Some? ==> r.value in m && m[r.value].origin == slot
    ensures r.None? ==> forall t :: t in m ==> m[t].origin != slot
  {
    if t :| t in m && m[t].origin == slot then Some(t) else None
  }

  function SponsorHolder(m: Mempool, slot: Slot): (r: Option<Txid>)
    requires UniqueSlots(m)
    ensures r.Some? ==> r.value in m && m[r.value].Sponsor() == slot
    ensures r.None? ==> forall t :: t in m ==> m[t].Sponsor() != slot
  {
    if t :| t in m && m[t].Sponsor() == slot then Some(t) else None
  }

  /** The transaction that a new one has to beat: the holder of its origin slot, or else of its sponsor slot. */
  function Prior(m: Mempool, tx: Tx): (r: Option<Txid>)
    requires UniqueSlots(m)
    ensures r.Some? ==> r.value in m
  {
    var o := OriginHolder(m, tx.origin);
    if o.Some? then o else SponsorHolder(m, tx.Sponsor())
  }

  /** Replace by fee, or across forks. */
  predicate Beats(tx: Tx, prior: Tx, sameFork: (BlockId, BlockId) -> bool) {
    tx.fee > prior.fee || !sameFork(prior.tip, tx.tip)
  }

  /** Some number of the submission does not fit a signed 64-bit column. */
  predicate Oversized(tx: Tx) {
    tx.origin.nonce > I64_MAX || tx.Sponsor().nonce > I64_MAX || tx.fee > I64_MAX || tx.height > I64_MAX || |tx.body| > I64_MAX
  }

  predicate Admits(m: Mempool, tx: Tx, sameFork: (BlockId, BlockId) -> bool)
    requires UniqueSlots(m)
  {
    && !Oversized(tx)
    && var prior := Prior(m, tx);
       prior.Some? ==> Beats(tx, m[prior.value], sameFork)
  }

  /** A submission is admitted exactly if its numbers fit their columns and it pays more than, or is on
      another fork than, the row in its origin slot; if there is none, than the row in its sponsor slot. */
  lemma AdmittedExactly(m: Mempool, tx: Tx, sameFork: (BlockId, BlockId) -> bool)
    requires UniqueSlots(m)
    ensures Admits(m, tx, sameFork) <==>
      && tx.origin.nonce < 0x8000_0000_0000_0000 && tx.Sponsor().nonce < 0x8000_0000_0000_0000
      && tx.fee < 0x8000_0000_0000_0000 && tx.height < 0x8000_0000_0000_0000 && |tx.body| < 0x8000_0000_0000_0000
      && (forall t :: t in m && m[t].origin == tx.origin ==> m[t].fee < tx.fee || !sameFork(m[t].tip, tx.tip))
      && (forall t :: t in m && m[t].Sponsor() == tx.Sponsor() && (forall u :: u in m ==> m[u].origin != tx.origin) ==>
            m[t].fee < tx.fee || !sameFork(m[t].tip, tx.tip))
  {
    var o, s := OriginHolder(m, tx.origin), SponsorHolder(m, tx.Sponsor());
    assert o.Some? ==> forall t :: t in m && m[t].origin == tx.origin ==> t == o.value;
    assert s.Some? ==> forall t :: t in m && m[t].Sponsor() == tx.Sponsor() ==> t == s.value;
  }

  // ---------- Deletion with cascades ----------

  function Delete(t: Tables, gone: set<Txid>): Tables {
    Tables(t.mempool - gone, t.removed - gone, t.pager - gone, t.estimates - gone, t.bloom)
  }

  lemma DeleteTwice(t: Tables, a: set<Txid>, b: set<Txid>)
    ensures Delete(Delete(t, a), b) == Delete(t, a + b)
  {
  }

  function Elements(s: seq<Txid>): set<Txid> {
    set t | t in s
  }

  lemma DeleteNothing(t: Tables)
    ensures Delete(t, {}) == t && Elements([]) == {}
  {
  }

  lemma DeletedKeys(t: Tables, gone: set<Txid>)
    ensures Delete(t, gone).mempool.Keys == t.mempool.Keys - gone
  {
  }

  lemma DroppedRows(t: Tables, txids: seq<Txid>)
    ensures forall u :: u in Delete(t, Elements(txids)).mempool <==> u in t.mempool && u !in txids
    ensures forall u :: u in Delete(t, Elements(txids)).mempool ==> Delete(t, Elements(txids)).mempool[u] == t.mempool[u]
  {
  }

  lemma ElementsGrow(s: seq<Txid>, i: nat)
    requires i < |s|
    ensures Elements(s[..i + 1]) == Elements(s[..i]) + {s[i]}
  {
    assert s[..i + 1] == s[..i] + [s[i]];
  }

  /** The rows that INSERT OR REPLACE deletes. */
  function Colliding(m: Mempool, id: Txid, tx: Tx): set<Txid> {
    set t | t in m && (t == id || m[t].origin == tx.origin || m[t].Sponsor() == tx.Sponsor())
  }

  // ---------- The bloom counter ----------

  /** Rows that are still represented in the bloom counter, above a height. */
  function Unremoved(t: Tables, floor: nat): (r: set<Txid>)
    ensures r <= t.mempool.Keys
  {
    set u | u in t.mempool && u !in t.removed && t.mempool[u].height > floor
  }

  function AtHeight(t: Tables, height: nat): set<Txid> {
    set u | u in t.mempool && u !in t.removed && t.mempool[u].height == height
  }

  /** Take the rows at one height out of the bloom counter. */
  function Prune(t: Tables, height: nat): Tables {
    t.(bloom := t.bloom - multiset(AtHeight(t, height)), removed := t.removed + AtHeight(t, height))
  }

  /** Removing one item after another removes them all. */
  lemma RemoveOneMore(bloom: multiset<Txid>, done: set<Txid>, t: Txid)
    requires t !in done
    ensures bloom - multiset(done) - multiset{t} == bloom - multiset(done + {t})
  {
  }

  /** The loop of prune_bloom_counter. */
  method RemoveAll(bloom: multiset<Txid>, removed: set<Txid>, txids: set<Txid>) returns (bloom': multiset<Txid>, removed': set<Txid>)
    ensures bloom' == bloom - multiset(txids) && removed' == removed + txids
  {
    var left := txids;
    bloom', removed' := bloom, removed;
    while left != {}
      invariant left <= txids
      invariant bloom' == bloom - multiset(txids - left) && removed' == removed + (txids - left)
      decreases |left|
    {
      var t :| t in left;
      RemoveOneMore(bloom, txids - left, t);
      assert txids - (left - {t}) == (txids - left) + {t};
      bloom' := bloom' - multiset{t};
      removed' := removed' + {t};
      left := left - {t};
    }
    assert txids - left == txids;
  }

  predicate IsMaxHeight(m: Mempool, h: nat) {
    (exists t :: t in m && m[t].height == h) && forall t :: t in m ==> m[t].height <= h
  }

  lemma MaxHeightExists(m: Mempool, s: set<Txid>)
    requires s != {} && s <= m.Keys
    ensures exists t :: t in s && forall u :: u in s ==> m[u].height <= m[t].height
  {
    var t := LeastExists(s, (a: Txid, b: Txid) => a in m && b in m && m[b].height <= m[a].height);
    assert t in s && forall u :: u in s ==> m[u].height <= m[t].height;
  }

  function MaxHeight(m: Mempool): (h: nat)
    requires m.Keys != {}
    ensures IsMaxHeight(m, h)
  {
    MaxHeightExists(m, m.Keys);
    var t :| t in m.Keys && forall u :: u in m.Keys ==> m[u].height <= m[t].height;
    m[t].height
  }

  /** get_num_recent_txs: all rows of the window, whether or not the bloom counter still has them. */
  function NumRecent(m: Mempool): nat {
    if m.Keys == {} then 0 else |Recent(m, MaxHeight(m))|
  }

  function Recent(m: Mempool, h: nat): set<Txid> {
    set t | t in m && Floor(h) < m[t].height <= h
  }

  predicate IsCheapest(m: Mempool, s: set<Txid>, t: Txid)
    requires s <= m.Keys
  {
    t in s && forall u :: u in s ==> m[t].fee < m[u].fee || (m[t].fee == m[u].fee && t <= u)
  }

  lemma CheapestExists(m: Mempool, s: set<Txid>)
    requires s != {} && s <= m.Keys
    ensures exists t :: IsCheapest(m, s, t)
  {
    var t := LeastExists(s, (a: Txid, b: Txid) => a in m && b in m && (m[a].fee < m[b].fee || (m[a].fee == m[b].fee && a <= b)));
    assert IsCheapest(m, s, t);
  }

  /** ORDER BY tx_fee ASC LIMIT 1 */
  function Cheapest(m: Mempool, s: set<Txid>): (t: Txid)
    requires s != {} && s <= m.Keys
    ensures t in s && forall u :: u in s ==> m[t].fee <= m[u].fee
  {
    CheapestExists(m, s);
    var t :| IsCheapest(m, s, t);
    t
  }

  /** Keep the bloom counter unsaturated: take at most one recent transaction out of it. */
  function Evict(t: Tables, height: nat): Tables {
    if NumRecent(t.mempool) >= MAX_BLOOM_COUNTER_TXS && Unremoved(t, Floor(height)) != {} then
      var victim := Cheapest(t.mempool, Unremoved(t, Floor(height)));
      t.(bloom := t.bloom - multiset{victim}, removed := t.removed + {victim})
    else t
  }

  /** Is this the first transaction at a height that moves the window? */
  predicate MovesWindow(m: Mempool, height: nat) {
    height > BLOOM_COUNTER_DEPTH && forall t :: t in m ==> m[t].height != height
  }

  function UpdateBloom(t: Tables, id: Txid, height: nat, prior: Option<Txid>): Tables {
    var t1 := if MovesWindow(t.mempool, height) then Prune(t, height - BLOOM_COUNTER_DEPTH) else t;
    var t2 := if prior.Some? then t1.(bloom := t1.bloom - multiset{prior.value}) else t1;
    var t3 := Evict(t2, height);
    t3.(bloom := t3.bloom + multiset{id})
  }

  /** The rows of the newest two blocks. */
  ghost predicate IsRecent(m: Mempool, u: Txid) {
    u in m && m[u].height > 0 && forall v :: v in m ==> m[v].height < m[u].height + 2
  }

  lemma NumRecentCounts(m: Mempool)
    ensures NumRecent(m) == |set u | u in m && IsRecent(m, u)|
  {
    var recent := set u | u in m && IsRecent(m, u);
    if m.Keys == {} {
      assert recent == {};
    } else {
      var h := MaxHeight(m);
      var v :| v in m && m[v].height == h;
      assert recent == Recent(m, h);
    }
  }

  // ---------- Operations ----------

  function Insert(t: Tables, id: Txid, tx: Tx, hash: Hash, rate: Option<real>): Tables {
    var d := Delete(t, Colliding(t.mempool, id, tx));
    Tables(d.mempool[id := tx], d.removed, d.pager[id := hash], d.estimates[id := rate], d.bloom)
  }

  function Submit(t: Tables, id: Txid, tx: Tx, hash: Hash, rate: Option<real>, sameFork: (BlockId, BlockId) -> bool): Result<Tables>
    requires UniqueSlots(t.mempool)
  {
    if Admits(t.mempool, tx, sameFork)
    then Success(Insert(UpdateBloom(t, id, tx.height, Prior(t.mempool, tx)), id, tx, hash, rate))
    else Failure
  }

  function Stale(m: Mempool, minHeight: nat): set<Txid> {
    set t | t in m && m[t].height < minHeight
  }

  /** The state-changing operations. Drop is drop_txs, Collect is garbage_collect. */
  datatype Op =
    | Submission(id: Txid, tx: Tx, rate: Option<real>)
    | Collect(minHeight: nat)
    | Drop(txids: seq<Txid>)

  /** What does not change over a run: the salted hash and which tips share a fork. */
  datatype World = World(hashOf: Txid -> Hash, sameFork: (BlockId, BlockId) -> bool)

  /** One operation; a rejected submission changes nothing, and neither does a collection up to a height
      that does not fit the column. */
  function Apply(w: World, t: Tables, op: Op): Tables
    requires UniqueSlots(t.mempool)
  {
    match op
    case Submission(id, tx, rate) =>
      (match Submit(t, id, tx, w.hashOf(id), rate, w.sameFork)
       case Success(t') => t'
       case Failure => t)
    case Collect(minHeight) => if minHeight > I64_MAX then t else Delete(t, Stale(t.mempool, minHeight))
    case Drop(txids) => Delete(t, Elements(txids))
  }

  function Empty(): Tables {
    Tables(map[], {}, map[], map[], multiset{})
  }

  // ---------- What every operation keeps ----------

  ghost predicate Consistent(hashOf: Txid -> Hash, t: Tables) {
    && UniqueSlots(t.mempool)
    && t.removed <= t.mempool.Keys
    && t.pager.Keys == t.mempool.Keys && (forall u :: u in t.pager ==> t.pager[u] == hashOf(u))
    && t.estimates.Keys == t.mempool.Keys
    && (forall u :: u in t.mempool && u !in t.removed ==> u in t.bloom)
  }

  lemma DeleteKeepsConsistent(hashOf: Txid -> Hash, t: Tables, gone: set<Txid>)
    requires Consistent(hashOf, t)
    ensures Consistent(hashOf, Delete(t, gone))
  {
  }

  lemma PriorCollides(m: Mempool, id: Txid, tx: Tx)
    requires UniqueSlots(m)
    ensures Prior(m, tx).Some? ==> Prior(m, tx).value in Colliding(m, id, tx)
  {
  }

  /** Every row that is not recorded as removed is in the bloom counter, with one possible exception. */
  ghost predicate Represented(t: Tables, exempt: Option<Txid>) {
    && t.removed <= t.mempool.Keys
    && forall u :: u in t.mempool && u !in t.removed && Some(u) != exempt ==> u in t.bloom
  }

  lemma PruneRepresents(t: Tables, height: nat)
    requires Represented(t, None)
    ensures Represented(Prune(t, height), None)
    ensures Prune(t, height).mempool == t.mempool && Prune(t, height).pager == t.pager && Prune(t, height).estimates == t.estimates
  {
  }

  lemma EvictRepresents(t: Tables, height: nat, exempt: Option<Txid>)
    requires Represented(t, exempt)
    ensures Represented(Evict(t, height), exempt)
    ensures Evict(t, height).mempool == t.mempool && Evict(t, height).pager == t.pager && Evict(t, height).estimates == t.estimates
  {
    hide NumRecent, Represented, Cheapest;
    if NumRecent(t.mempool) >= MAX_BLOOM_COUNTER_TXS && Unremoved(t, Floor(height)) != {} {
      EvictOneRepresents(t, Cheapest(t.mempool, Unremoved(t, Floor(height))), exempt);
    }
  }

  lemma EvictOneRepresents(t: Tables, victim: Txid, exempt: Option<Txid>)
    requires Represented(t, exempt) && victim in t.mempool
    ensures Represented(t.(bloom := t.bloom - multiset{victim}, removed := t.removed + {victim}), exempt)
  {
  }

  /** Only the transaction being replaced can lose its place in the bloom counter without being
      recorded as removed. */
  lemma UpdateBloomRepresents(t: Tables, id: Txid, height: nat, prior: Option<Txid>)
    requires Represented(t, None)
    ensures var t' := UpdateBloom(t, id, height, prior);
            && t'.mempool == t.mempool && t'.pager == t.pager && t'.estimates == t.estimates
            && Represented(t', prior) && id in t'.bloom
  {
    hide Evict, Prune;
    var t1 := if MovesWindow(t.mempool, height) then Prune(t, height - BLOOM_COUNTER_DEPTH) else t;
    if MovesWindow(t.mempool, height) {
      PruneRepresents(t, height - BLOOM_COUNTER_DEPTH);
    }
    var t2 := if prior.Some? then t1.(bloom := t1.bloom - multiset{prior.value}) else t1;
    EvictRepresents(t2, height, prior);
  }

  lemma InsertKeepsSlots(m: Mempool, id: Txid, tx: Tx)
    requires UniqueSlots(m)
    ensures UniqueSlots((m - Colliding(m, id, tx))[id := tx])
  {
  }

  lemma SubmitKeepsConsistent(w: World, t: Tables, id: Txid, tx: Tx, rate: Option<real>)
    requires Consistent(w.hashOf, t) && Admits(t.mempool, tx, w.sameFork)
    ensures Consistent(w.hashOf, Submit(t, id, tx, w.hashOf(id), rate, w.sameFork).value)
  {
    hide UpdateBloom, Admits;
    var prior := Prior(t.mempool, tx);
    PriorCollides(t.mempool, id, tx);
    UpdateBloomRepresents(t, id, tx.height, prior);
    InsertKeepsSlots(t.mempool, id, tx);
  }

  lemma ApplyKeepsConsistent(w: World, t: Tables, op: Op)
    requires Consistent(w.hashOf, t)
    ensures Consistent(w.hashOf, Apply(w, t, op))
  {
    hide Consistent, Submit, Delete;
    assert UniqueSlots(t.mempool) by { ConsistentSlots(w.hashOf, t); }
    match op
    case Submission(id, tx, rate) =>
      if Admits(t.mempool, tx, w.sameFork) {
        SubmitKeepsConsistent(w, t, id, tx, rate);
      }
      SubmitSucceeds(t, id, tx, w.hashOf(id), rate, w.sameFork);
    case Collect(minHeight) =>
      DeleteKeepsConsistent(w.hashOf, t, Stale(t.mempool, minHeight));
    case Drop(txids) =>
      DeleteKeepsConsistent(w.hashOf, t, Elements(txids));
  }

  lemma ConsistentSlots(hashOf: Txid -> Hash, t: Tables)
    requires Consistent(hashOf, t)
    ensures UniqueSlots(t.mempool)
  {
  }

  lemma SubmitSucceeds(t: Tables, id: Txid, tx: Tx, hash: Hash, rate: Option<real>, sameFork: (BlockId, BlockId) -> bool)
    requires UniqueSlots(t.mempool)
    ensures Submit(t, id, tx, hash, rate, sameFork).Success? <==> Admits(t.mempool, tx, sameFork)
  {
  }

  // ---------- Whole runs ----------

  lemma EmptyConsistent(w: World)
    ensures Consistent(w.hashOf, Empty())
  {
  }

  /** The tables after a run of operations, from the empty mempool. After every run the slots are
      unique, every row not recorded as removed is in the bloom counter, removed rows are rows, and
      every row is in the paging order. */
  ghost function After(w: World, ops: seq<Op>): (t: Tables)
    ensures Consistent(w.hashOf, t)
  {
    if ops == [] then
      EmptyConsistent(w);
      Empty()
    else
      var t := After(w, ops[..|ops| - 1]);
      ConsistentSlots(w.hashOf, t);
      ApplyKeepsConsistent(w, t, ops[|ops| - 1]);
      Apply(w, t, ops[|ops| - 1])
  }

  lemma AfterOneMore(w: World, ops: seq<Op>, op: Op)
    ensures UniqueSlots(After(w, ops).mempool) && After(w, ops + [op]) == Apply(w, After(w, ops), op)
  {
    hide Consistent, Apply;
    ConsistentSlots(w.hashOf, After(w, ops));
    assert (ops + [op])[..|ops|] == ops;
  }

  // ---------- Bounded advertisement ----------

  /** What get_bloom_txids would return if h were the maximum height. */
  function Window(t: Tables, h: nat): set<Txid> {
    set u | u in t.mempool && u !in t.removed && Floor(h) < t.mempool[u].height <= h
  }

  /** get_bloom_txids */
  function Advertised(t: Tables): set<Txid> {
    if t.mempool.Keys == {} then {} else Window(t, MaxHeight(t.mempool))
  }

  /** A row is advertised exactly if it is not recorded as removed, is above height zero, and no row is
      two or more blocks newer. */
  lemma AdvertisedExactly(t: Tables, u: Txid)
    ensures u in Advertised(t) <==>
      && u in t.mempool && u !in t.removed && t.mempool[u].height > 0
      && forall v :: v in t.mempool ==> t.mempool[v].height < t.mempool[u].height + 2
  {
    if t.mempool.Keys != {} {
      var h := MaxHeight(t.mempool);
      var v :| v in t.mempool && t.mempool[v].height == h;
      assert t.mempool[v].height == h;
    }
  }

  /** The bound at every height, not only at the current one: deleting the newest rows moves the window back. */
  ghost predicate Bounded(t: Tables) {
    forall h :: |Window(t, h)| <= MAX_BLOOM_COUNTER_TXS
  }

  lemma DeleteKeepsBounded(t: Tables, gone: set<Txid>)
    requires Bounded(t)
    ensures Bounded(Delete(t, gone))
  {
    forall h
      ensures |Window(Delete(t, gone), h)| <= MAX_BLOOM_COUNTER_TXS
    {
      assert Window(Delete(t, gone), h) <= Window(t, h);
      SubsetSize(Window(Delete(t, gone), h), Window(t, h));
    }
  }

  /** A submission may lag behind the newest row, but only by so much. */
  ghost predicate LagsAtMost(t: Tables, op: Op, d: nat) {
    op.Submission? ==> forall u :: u in t.mempool ==> t.mempool[u].height <= op.tx.height + d
  }

  /** The height just below the window of another one. Height 0 is in no window at all. */
  predicate FellOut(low: nat, high: nat) {
    low > 0 && low + BLOOM_COUNTER_DEPTH == high
  }

  /** The rows that have fallen out of the window of some other row are recorded as removed. */
  ghost predicate Pruned(t: Tables) {
    forall u, v :: u in t.mempool && v in t.mempool && FellOut(t.mempool[u].height, t.mempool[v].height) ==> u in t.removed
  }

  lemma DeleteKeepsPruned(t: Tables, gone: set<Txid>)
    requires Pruned(t)
    ensures Pruned(Delete(t, gone))
  {
  }

  /** Every unremoved row above the floor is counted by get_num_recent_txs. */
  ghost predicate AllCounted(t: Tables, height: nat) {
    forall u :: u in Unremoved(t, Floor(height)) ==> u in Recent(t.mempool, MaxHeight(t.mempool))
  }

  /** If the count that triggers the eviction sees all the candidates, one more fits afterwards. */
  lemma EvictMakesRoom(t: Tables, height: nat)
    requires AllCounted(t, height) && |Unremoved(t, Floor(height))| <= MAX_BLOOM_COUNTER_TXS
    ensures |Unremoved(Evict(t, height), Floor(height))| < MAX_BLOOM_COUNTER_TXS
  {
    hide MaxHeight;
    var live := Unremoved(t, Floor(height));
    if NumRecent(t.mempool) >= MAX_BLOOM_COUNTER_TXS {
      if live != {} {
        var victim := Cheapest(t.mempool, live);
        assert Unremoved(Evict(t, height), Floor(height)) == live - {victim};
      }
    } else if live != {} {
      SubsetSize(live, Recent(t.mempool, MaxHeight(t.mempool)));
    }
  }

  /** A submission that lags by less than the depth of the window: the rows it could crowd out have
      been pruned, so that the candidates lie in one window, and the count sees them all. */
  lemma LagIsCounted(t: Tables, height: nat)
    requires Pruned(t) && forall u :: u in t.mempool ==> t.mempool[u].height < height + BLOOM_COUNTER_DEPTH
    ensures AllCounted(t, height)
    ensures Unremoved(t, Floor(height)) <= Window(t, height) || Unremoved(t, Floor(height)) <= Window(t, height + 1)
  {
    if exists v :: v in t.mempool && t.mempool[v].height == height + 1 {
      var v :| v in t.mempool && t.mempool[v].height == height + 1;
      forall u | u in Unremoved(t, Floor(height))
        ensures u in Window(t, height + 1) && t.mempool[u].height >= height
      {
        assert FellOut(t.mempool[u].height, t.mempool[v].height) ==> u in t.removed;
      }
    } else {
      assert Unremoved(t, Floor(height)) <= Window(t, height);
    }
  }

  lemma PruneGrowsRemoved(t: Tables, height: nat)
    requires Pruned(t) && Bounded(t)
    ensures Pruned(Prune(t, height)) && Bounded(Prune(t, height))
    ensures Prune(t, height).mempool == t.mempool && t.removed <= Prune(t, height).removed
  {
    forall h
      ensures |Window(Prune(t, height), h)| <= MAX_BLOOM_COUNTER_TXS
    {
      SubsetSize(Window(Prune(t, height), h), Window(t, h));
    }
  }

  lemma EvictGrowsRemoved(t: Tables, height: nat)
    ensures Evict(t, height).mempool == t.mempool && t.removed <= Evict(t, height).removed
    ensures Evict(t, height).pager == t.pager && Evict(t, height).estimates == t.estimates
  {
  }

  /** Two tables that differ in the bloom counter only. */
  lemma BloomDoesNotMatter(t: Tables, bloom: multiset<Txid>)
    requires Pruned(t) && Bounded(t)
    ensures Pruned(t.(bloom := bloom)) && Bounded(t.(bloom := bloom))
    ensures forall floor :: Unremoved(t.(bloom := bloom), floor) == Unremoved(t, floor)
  {
    forall h
      ensures |Window(t.(bloom := bloom), h)| <= MAX_BLOOM_COUNTER_TXS
    {
      assert Window(t.(bloom := bloom), h) == Window(t, h);
    }
    forall floor
      ensures Unremoved(t.(bloom := bloom), floor) == Unremoved(t, floor)
    {
    }
  }

  lemma UpdateBloomMakesRoom(t: Tables, id: Txid, height: nat, prior: Option<Txid>)
    requires Pruned(t) && Bounded(t)
    requires forall u :: u in t.mempool ==> t.mempool[u].height < height + BLOOM_COUNTER_DEPTH
    ensures var t' := UpdateBloom(t, id, height, prior);
            && t'.mempool == t.mempool && t.removed <= t'.removed
            && |Unremoved(t', Floor(height))| < MAX_BLOOM_COUNTER_TXS
            && (height > BLOOM_COUNTER_DEPTH ==> AtHeight(t', height - BLOOM_COUNTER_DEPTH) == {})
  {
    hide Evict, Prune, Pruned, Bounded, Unremoved, AllCounted;
    var t1 := if MovesWindow(t.mempool, height) then Prune(t, height - BLOOM_COUNTER_DEPTH) else t;
    if MovesWindow(t.mempool, height) {
      PruneGrowsRemoved(t, height - BLOOM_COUNTER_DEPTH);
    }
    if height > BLOOM_COUNTER_DEPTH {
      NoneAtFloor(t, height);
    }
    var t2 := if prior.Some? then t1.(bloom := t1.bloom - multiset{prior.value}) else t1;
    BloomDoesNotMatter(t1, t2.bloom);
    LagIsCounted(t2, height);
    UnremovedIsBounded(t2, height);
    EvictMakesRoom(t2, height);
    EvictGrowsRemoved(t2, height);
    if height > BLOOM_COUNTER_DEPTH {
      FewerAtHeight(t1, UpdateBloom(t, id, height, prior), height - BLOOM_COUNTER_DEPTH);
    }
    SameUnremoved(Evict(t2, height), UpdateBloom(t, id, height, prior), Floor(height));
  }

  lemma NoneAtFloor(t: Tables, height: nat)
    requires Pruned(t) && height > BLOOM_COUNTER_DEPTH
    ensures AtHeight(if MovesWindow(t.mempool, height) then Prune(t, height - BLOOM_COUNTER_DEPTH) else t, height - BLOOM_COUNTER_DEPTH) == {}
  {
    if !MovesWindow(t.mempool, height) {
      var v :| v in t.mempool && t.mempool[v].height == height;
      assert forall u :: u in t.mempool && FellOut(t.mempool[u].height, t.mempool[v].height) ==> u in t.removed;
    }
  }

  lemma UnremovedIsBounded(t: Tables, height: nat)
    requires Bounded(t)
    requires Unremoved(t, Floor(height)) <= Window(t, height) || Unremoved(t, Floor(height)) <= Window(t, height + 1)
    ensures |Unremoved(t, Floor(height))| <= MAX_BLOOM_COUNTER_TXS
  {
    hide Unremoved, Window;
    var h := if Unremoved(t, Floor(height)) <= Window(t, height) then height else height + 1;
    SubsetSize(Unremoved(t, Floor(height)), Window(t, h));
  }

  lemma FewerAtHeight(t: Tables, t': Tables, height: nat)
    requires t'.mempool == t.mempool && t.removed <= t'.removed
    ensures AtHeight(t', height) <= AtHeight(t, height)
  {
  }

  lemma SameUnremoved(t: Tables, t': Tables, floor: nat)
    requires t'.mempool == t.mempool && t'.removed == t.removed
    ensures Unremoved(t', floor) == Unremoved(t, floor)
  {
  }

  lemma SubmitKeepsBounded(w: World, t: Tables, id: Txid, tx: Tx, rate: Option<real>)
    requires UniqueSlots(t.mempool) && Admits(t.mempool, tx, w.sameFork) && Pruned(t) && Bounded(t)
    requires forall u :: u in t.mempool ==> t.mempool[u].height < tx.height + BLOOM_COUNTER_DEPTH
    ensures var t' := Submit(t, id, tx, w.hashOf(id), rate, w.sameFork).value;
            Pruned(t') && Bounded(t')
  {
    hide UpdateBloom, UniqueSlots, Admits, Prior, Colliding;
    var b := UpdateBloom(t, id, tx.height, Prior(t.mempool, tx));
    UpdateBloomMakesRoom(t, id, tx.height, Prior(t.mempool, tx));
    InsertKeepsPruned(t, b, id, tx, w.hashOf(id), rate);
    InsertKeepsBounded(t, b, id, tx, w.hashOf(id), rate);
  }

  lemma InsertKeepsPruned(t: Tables, b: Tables, id: Txid, tx: Tx, hash: Hash, rate: Option<real>)
    requires Pruned(t) && b.mempool == t.mempool && t.removed <= b.removed
    requires forall u :: u in t.mempool ==> t.mempool[u].height < tx.height + BLOOM_COUNTER_DEPTH
    requires tx.height > BLOOM_COUNTER_DEPTH ==> AtHeight(b, tx.height - BLOOM_COUNTER_DEPTH) == {}
    ensures Pruned(Insert(b, id, tx, hash, rate))
  {
    hide Colliding;
    var t' := Insert(b, id, tx, hash, rate);
    forall u, v | u in t'.mempool && v in t'.mempool && FellOut(t'.mempool[u].height, t'.mempool[v].height)
      ensures u in t'.removed
    {
      assert u != id;
      if v == id {
        assert u !in AtHeight(b, tx.height - BLOOM_COUNTER_DEPTH);
      }
    }
  }

  lemma InsertKeepsBounded(t: Tables, b: Tables, id: Txid, tx: Tx, hash: Hash, rate: Option<real>)
    requires Bounded(t) && b.mempool == t.mempool && t.removed <= b.removed
    requires |Unremoved(b, Floor(tx.height))| < MAX_BLOOM_COUNTER_TXS
    ensures Bounded(Insert(b, id, tx, hash, rate))
  {
    hide Colliding;
    var t' := Insert(b, id, tx, hash, rate);
    forall h
      ensures |Window(t', h)| <= MAX_BLOOM_COUNTER_TXS
    {
      if Floor(h) < tx.height <= h {
        assert Window(t', h) <= Unremoved(b, Floor(tx.height)) + {id};
        SubsetSize(Window(t', h), Unremoved(b, Floor(tx.height)) + {id});
      } else {
        assert Window(t', h) <= Window(t, h);
        SubsetSize(Window(t', h), Window(t, h));
      }
    }
  }

  lemma ApplyKeepsBounded(w: World, t: Tables, op: Op)
    requires UniqueSlots(t.mempool) && Pruned(t) && Bounded(t) && LagsAtMost(t, op, BLOOM_COUNTER_DEPTH - 1)
    ensures Pruned(Apply(w, t, op)) && Bounded(Apply(w, t, op))
  {
    hide UniqueSlots, Pruned, Bounded, Submit, Delete, Admits;
    match op
    case Submission(id, tx, rate) =>
      SubmitSucceeds(t, id, tx, w.hashOf(id), rate, w.sameFork);
      if Admits(t.mempool, tx, w.sameFork) {
        SubmitKeepsBounded(w, t, id, tx, rate);
      }
    case Collect(minHeight) =>
      DeleteKeepsBounded(t, Stale(t.mempool, minHeight));
      DeleteKeepsPruned(t, Stale(t.mempool, minHeight));
    case Drop(txids) =>
      DeleteKeepsBounded(t, Elements(txids));
      DeleteKeepsPruned(t, Elements(txids));
  }

  lemma EmptyBounded()
    ensures Bounded(Empty()) && Pruned(Empty())
  {
    forall h
      ensures |Window(Empty(), h)| <= MAX_BLOOM_COUNTER_TXS
    {
      assert Window(Empty(), h) == {};
    }
  }

  /** No submission of the run lags further than d behind the newest row at its time. */
  ghost predicate RunLagsAtMost(w: World, ops: seq<Op>, d: nat) {
    forall i :: 0 <= i < |ops| ==> LagsAtMost(After(w, ops[..i]), ops[i], d)
  }

  lemma RunLagsPrefix(w: World, ops: seq<Op>, d: nat)
    requires RunLagsAtMost(w, ops, d) && ops != []
    ensures RunLagsAtMost(w, ops[..|ops| - 1], d)
    ensures LagsAtMost(After(w, ops[..|ops| - 1]), ops[|ops| - 1], d)
  {
    hide LagsAtMost, After;
    var front := ops[..|ops| - 1];
    forall i | 0 <= i < |front|
      ensures LagsAtMost(After(w, front[..i]), front[i], d)
    {
      assert front[..i] == ops[..i];
    }
  }

  /** Submissions that lag by less than the depth of the window, mixed with collections and drops,
      never advertise more than the bloom counter is dimensioned for. */
  lemma {:induction false} RunsStayBounded(w: World, ops: seq<Op>, d: nat)
    requires RunLagsAtMost(w, ops, d) && d < BLOOM_COUNTER_DEPTH
    ensures Pruned(After(w, ops)) && Bounded(After(w, ops))
    ensures |Advertised(After(w, ops))| <= MAX_BLOOM_COUNTER_TXS
  {
    hide Consistent, Apply, Window, Pruned, RunLagsAtMost;
    if ops == [] {
      EmptyBounded();
    } else {
      var front := ops[..|ops| - 1];
      RunLagsPrefix(w, ops, d);
      RunsStayBounded(w, front, d);
      ConsistentSlots(w.hashOf, After(w, front));
      ApplyKeepsBounded(w, After(w, front), ops[|ops| - 1]);
    }
  }

  // ---------- Non-decreasing heights ----------

  /** Every row was put there by an earlier submission. */
  lemma {:induction false} RowsWereSubmitted(w: World, ops: seq<Op>, u: Txid)
    requires u in After(w, ops).mempool
    ensures exists j :: 0 <= j < |ops| && ops[j].Submission? && ops[j].tx == After(w, ops).mempool[u]
  {
    hide UniqueSlots, Submit, Consistent;
    if ops != [] {
      var front, op := ops[..|ops| - 1], ops[|ops| - 1];
      var before := After(w, front);
      ConsistentSlots(w.hashOf, before);
      assert After(w, ops) == Apply(w, before, op);
      if op.Submission? {
        SubmittedRow(w, before, op, u);
      }
      if u in before.mempool && before.mempool[u] == After(w, ops).mempool[u] {
        RowsWereSubmitted(w, front, u);
      }
    }
  }

  lemma SubmittedRow(w: World, t: Tables, op: Op, u: Txid)
    requires UniqueSlots(t.mempool) && op.Submission? && u in Apply(w, t, op).mempool
    ensures Apply(w, t, op).mempool[u] == op.tx || (u in t.mempool && t.mempool[u] == Apply(w, t, op).mempool[u])
  {
    hide UniqueSlots, Admits, UpdateBloom;
    UpdateBloomKeepsRows(t, op.id, op.tx.height, Prior(t.mempool, op.tx));
  }

  lemma UpdateBloomKeepsRows(t: Tables, id: Txid, height: nat, prior: Option<Txid>)
    ensures var t' := UpdateBloom(t, id, height, prior);
            t'.mempool == t.mempool && t'.pager == t.pager && t'.estimates == t.estimates
  {
    hide Evict;
    var t1 := if MovesWindow(t.mempool, height) then Prune(t, height - BLOOM_COUNTER_DEPTH) else t;
    var t2 := if prior.Some? then t1.(bloom := t1.bloom - multiset{prior.value}) else t1;
    EvictGrowsRemoved(t2, height);
  }

  ghost predicate NonDecreasing(ops: seq<Op>) {
    forall i, j :: 0 <= i < j < |ops| && ops[i].Submission? && ops[j].Submission? ==> ops[i].tx.height <= ops[j].tx.height
  }

  /** At non-decreasing heights no submission lags at all. */
  lemma NonDecreasingNeverLags(w: World, ops: seq<Op>)
    requires NonDecreasing(ops)
    ensures RunLagsAtMost(w, ops, 0) && |Advertised(After(w, ops))| <= MAX_BLOOM_COUNTER_TXS
  {
    hide After, Advertised;
    forall i, u | 0 <= i < |ops| && ops[i].Submission? && u in After(w, ops[..i]).mempool
      ensures After(w, ops[..i]).mempool[u].height <= ops[i].tx.height
    {
      RowsWereSubmitted(w, ops[..i], u);
    }
    RunsStayBounded(w, ops, 0);
  }

  // ---------- Replacement ----------

  /** The rows after an accepted submission: the holders of its own slots are gone, nothing else is. */
  lemma AcceptedRows(w: World, t: Tables, id: Txid, tx: Tx, rate: Option<real>)
    requires UniqueSlots(t.mempool) && Admits(t.mempool, tx, w.sameFork)
    ensures var m, m' := t.mempool, Apply(w, t, Submission(id, tx, rate)).mempool;
            && id in m' && m'[id] == tx
            && (forall u :: u in m' && u != id ==> u in m && m'[u] == m[u])
            && (forall u :: u in m && u !in m' ==>
                  Some(u) == OriginHolder(m, tx.origin) || Some(u) == SponsorHolder(m, tx.Sponsor()))
            && (forall u :: u in m && u != id ==> (u in m' <==> m[u].origin != tx.origin && m[u].Sponsor() != tx.Sponsor()))
    ensures var t' := Apply(w, t, Submission(id, tx, rate));
            && id in t'.pager && t'.pager[id] == w.hashOf(id) && id in t'.estimates && t'.estimates[id] == rate
            && (forall u :: u in t'.mempool && u != id && u in t.estimates ==> u in t'.estimates && t'.estimates[u] == t.estimates[u])
  {
    hide Admits, UpdateBloom;
    UpdateBloomKeepsRows(t, id, tx.height, Prior(t.mempool, tx));
    SubmitSucceeds(t, id, tx, w.hashOf(id), rate, w.sameFork);
  }

  /** An origin slot passes from one transaction to another only by fee or across forks. */
  lemma OriginHolderChange(w: World, t: Tables, op: Op, slot: Slot, a: Txid, b: Txid)
    requires UniqueSlots(t.mempool) && a in t.mempool && t.mempool[a].origin == slot
    requires b in Apply(w, t, op).mempool && Apply(w, t, op).mempool[b].origin == slot && a != b
    ensures op.Submission? && op.id == b && op.tx.origin == slot
    ensures op.tx.fee > t.mempool[a].fee || !w.sameFork(t.mempool[a].tip, op.tx.tip)
  {
    hide UpdateBloom;
    if op.Submission? {
      UpdateBloomKeepsRows(t, op.id, op.tx.height, Prior(t.mempool, op.tx));
    }
  }

  /** A sponsor slot has a weaker protection: when another transaction holds the origin slot, only
      that one has to be beaten. The holder of the sponsor slot is safe if every submission to the
      two slots that is admitted beats it. */
  ghost predicate SponsorSlotSafe(m: Mempool, origin: Slot, sponsor: Slot, held: Txid, sameFork: (BlockId, BlockId) -> bool)
    requires UniqueSlots(m) && held in m
  {
    forall tx: Tx :: tx.origin == origin && tx.Sponsor() == sponsor && Admits(m, tx, sameFork) ==> Beats(tx, m[held], sameFork)
  }

  /** It is itself the one compared with, or on its own fork the one compared with is no easier to beat. */
  ghost predicate SponsorSlotCondition(m: Mempool, origin: Slot, held: Txid, sameFork: (BlockId, BlockId) -> bool)
    requires UniqueSlots(m) && held in m
  {
    match OriginHolder(m, origin)
    case None => true
    case Some(a) => a == held || forall tip :: sameFork(m[held].tip, tip) ==> sameFork(m[a].tip, tip) && m[a].fee >= m[held].fee
  }

  /** For every chain, the condition is exact. */
  lemma SponsorSlotSafeExactly(m: Mempool, origin: Slot, sponsor: Slot, held: Txid, sameFork: (BlockId, BlockId) -> bool)
    requires UniqueSlots(m) && SponsorHolder(m, sponsor) == Some(held)
    requires origin.nonce <= I64_MAX && sponsor.nonce <= I64_MAX && m[held].fee <= I64_MAX
    ensures SponsorSlotSafe(m, origin, sponsor, held, sameFork) <==> SponsorSlotCondition(m, origin, held, sameFork)
  {
    if !SponsorSlotCondition(m, origin, held, sameFork) {
      var a := OriginHolder(m, origin).value;
      var tip :| sameFork(m[held].tip, tip) && !(sameFork(m[a].tip, tip) && m[a].fee >= m[held].fee);
      var tx := Tx(origin, Some(sponsor), m[held].fee, 0, tip, []);
      assert Admits(m, tx, sameFork) && !Beats(tx, m[held], sameFork);
    }
  }

  // ---------- Paging ----------

  /** The join of the sync query loses no row: every recent transaction after the cursor is listed. */
  lemma PagingLosesNoRow(hashOf: Txid -> Hash, t: Tables, height: nat, cursor: Hash, u: Txid)
    requires Consistent(hashOf, t) && (forall x, y :: hashOf(x) == hashOf(y) ==> x == y)
    requires u in t.mempool && u !in t.removed && t.mempool[u].height > Floor(height) && hashOf(u) > cursor
    ensures CollisionFree(t.pager)
    ensures Row(u, hashOf(u), t.mempool[u].body) in Rows(t.mempool, t.pager, t.removed, Floor(height), cursor)
  {
    hide Rows, UniqueSlots;
    assert CollisionFree(t.pager);
    RowsListed(t.mempool, t.pager, t.removed, Floor(height), cursor);
    assert IsListed(t.mempool, t.pager, t.removed, Floor(height), cursor, u);
  }

  // ---------- How far a submission may lag ----------

  function Numbers(n: nat): (r: set<nat>)
    ensures |r| == n && forall i: nat :: i in r <==> i < n
  {
    if n == 0 then {} else Numbers(n - 1) + {n - 1}
  }

  function Small(i: nat, height: nat): Tx {
    Tx(Slot(i, 0), None, 1, height, 0, [])
  }

  /** A mempool without removed rows. */
  function Full(w: World, m: Mempool): Tables {
    Tables(m, {}, map i | i in m :: w.hashOf(i), map i | i in m :: None, multiset(m.Keys))
  }

  /** Nothing to prune and no need to evict. */
  ghost predicate Quiet(m: Mempool, height: nat) {
    && BLOOM_COUNTER_DEPTH < height && (forall t :: t in m ==> m[t].height + BLOOM_COUNTER_DEPTH != height)
    && NumRecent(m) < MAX_BLOOM_COUNTER_TXS
  }

  /** A transaction for which nobody has to give way. */
  predicate Free(m: Mempool, id: Txid, tx: Tx) {
    && id !in m && !Oversized(tx)
    && forall t :: t in m ==> m[t].origin != tx.origin && m[t].Sponsor() != tx.Sponsor()
  }

  lemma FewRecent(m: Mempool)
    requires |m| < MAX_BLOOM_COUNTER_TXS
    ensures NumRecent(m) < MAX_BLOOM_COUNTER_TXS
  {
    if m.Keys != {} {
      SubsetSize(Recent(m, MaxHeight(m)), m.Keys);
    }
  }

  lemma NothingToPrune(w: World, m: Mempool, height: nat)
    requires Quiet(m, height)
    ensures height >= BLOOM_COUNTER_DEPTH && Prune(Full(w, m), height - BLOOM_COUNTER_DEPTH) == Full(w, m)
  {
    hide NumRecent;
    assert AtHeight(Full(w, m), height - BLOOM_COUNTER_DEPTH) == {};
  }

  lemma NothingToEvict(w: World, m: Mempool, height: nat)
    requires Quiet(m, height)
    ensures Evict(Full(w, m), height) == Full(w, m)
  {
    hide NumRecent;
  }

  lemma QuietUpdate(w: World, m: Mempool, id: Txid, height: nat)
    requires Quiet(m, height)
    ensures UpdateBloom(Full(w, m), id, height, None) == Full(w, m).(bloom := multiset(m.Keys) + multiset{id})
  {
    hide NumRecent, MovesWindow, Prune, Evict;
    NothingToPrune(w, m, height);
    NothingToEvict(w, m, height);
  }

  lemma FreeIsAdmitted(w: World, m: Mempool, id: Txid, tx: Tx)
    requires UniqueSlots(m) && Free(m, id, tx)
    ensures Prior(m, tx).None? && Admits(m, tx, w.sameFork) && Colliding(m, id, tx) == {}
  {
  }

  lemma FullGrows(w: World, m: Mempool, id: Txid, tx: Tx)
    requires id !in m
    ensures var t := Full(w, m);
            && t.mempool == m && t.removed == {} && t.bloom == multiset(m.Keys)
            && Full(w, m[id := tx]) == Tables(m[id := tx], {}, t.pager[id := w.hashOf(id)], t.estimates[id := None], t.bloom + multiset{id})
  {
    assert m[id := tx].Keys == m.Keys + {id};
    OneMoreMember(m.Keys, id);
    HashesGrow(w, m, id, tx);
  }

  lemma OneMoreMember(s: set<Txid>, x: Txid)
    requires x !in s
    ensures multiset(s + {x}) == multiset(s) + multiset{x}
  {
  }

  lemma HashesGrow(w: World, m: Mempool, id: Txid, tx: Tx)
    ensures Full(w, m[id := tx]).pager == Full(w, m).pager[id := w.hashOf(id)]
    ensures Full(w, m[id := tx]).estimates == Full(w, m).estimates[id := None]
  {
  }

  lemma InsertFree(w: World, m: Mempool, id: Txid, tx: Tx)
    requires id !in m && Colliding(m, id, tx) == {}
    ensures Insert(Full(w, m).(bloom := multiset(m.Keys) + multiset{id}), id, tx, w.hashOf(id), None) == Full(w, m[id := tx])
  {
    hide Colliding, Full, Delete;
    FullGrows(w, m, id, tx);
    DeleteNothing(Full(w, m).(bloom := multiset(m.Keys) + multiset{id}));
  }

  lemma QuietSubmission(w: World, m: Mempool, id: Txid, tx: Tx)
    requires UniqueSlots(m) && Free(m, id, tx) && Quiet(m, tx.height)
    ensures Apply(w, Full(w, m), Submission(id, tx, None)) == Full(w, m[id := tx])
  {
    hide NumRecent, UpdateBloom, Insert, Prior, Admits, Colliding, UniqueSlots;
    QuietUpdate(w, m, id, tx.height);
    FreeIsAdmitted(w, m, id, tx);
    InsertFree(w, m, id, tx);
  }

  const NEWEST: Txid := MAX_BLOOM_COUNTER_TXS + 1

  /** Rows at height 3, under one row at height 5 whose window they are just outside of. */
  function Crowd(n: nat): Mempool {
    (map i | i in Numbers(n) :: Small(i, 3))[NEWEST := Small(NEWEST, 5)]
  }

  lemma CrowdIsQuiet(n: nat)
    requires n <= MAX_BLOOM_COUNTER_TXS
    ensures UniqueSlots(Crowd(n)) && Free(Crowd(n), n, Small(n, 3)) && Quiet(Crowd(n), 3)
    ensures Crowd(n)[n := Small(n, 3)] == Crowd(n + 1)
  {
    hide Numbers, NumRecent;
    CrowdCountsOne(n);
    CrowdGrows(n);
  }

  lemma CrowdCountsOne(n: nat)
    ensures NumRecent(Crowd(n)) == 1
  {
    hide Numbers;
    var m := Crowd(n);
    assert m[NEWEST].height == 5;
    assert Recent(m, 5) == {NEWEST};
  }

  lemma CrowdGrows(n: nat)
    requires n <= MAX_BLOOM_COUNTER_TXS
    ensures Crowd(n)[n := Small(n, 3)] == Crowd(n + 1)
  {
  }

  lemma {:induction false} FirstRow(w: World)
    ensures Apply(w, Empty(), Submission(NEWEST, Small(NEWEST, 5), None)) == Full(w, Crowd(0))
  {
    hide Apply;
    assert Full(w, map[]) == Empty();
    QuietSubmission(w, map[], NEWEST, Small(NEWEST, 5));
    assert Crowd(0) == map[NEWEST := Small(NEWEST, 5)];
  }

  lemma ThenLags(w: World, ops: seq<Op>, op: Op, d: nat)
    requires RunLagsAtMost(w, ops, d) && LagsAtMost(After(w, ops), op, d)
    ensures RunLagsAtMost(w, ops + [op], d)
  {
    hide LagsAtMost, After;
    var more := ops + [op];
    forall i | 0 <= i < |more|
      ensures LagsAtMost(After(w, more[..i]), more[i], d)
    {
      assert more[..i] == ops[..i];
      assert ops[..|ops|] == ops;
    }
  }

  lemma CrowdLags(w: World, n: nat)
    ensures LagsAtMost(Full(w, Crowd(n)), Submission(n, Small(n, 3), None), BLOOM_COUNTER_DEPTH)
    ensures Small(n, 3).height == 3
  {
    hide Numbers;
  }

  /** One row at height 5, then n rows at height 3. */
  lemma {:induction false} CrowdRun(w: World, n: nat) returns (ops: seq<Op>)
    requires n <= MAX_BLOOM_COUNTER_TXS + 1
    ensures RunLagsAtMost(w, ops, BLOOM_COUNTER_DEPTH) && After(w, ops) == Full(w, Crowd(n))
  {
    hide After, Apply, UniqueSlots, RunLagsAtMost, LagsAtMost, Quiet, Free, Crowd, Full, Small;
    var op;
    if n == 0 {
      ops, op := [], Submission(NEWEST, Small(NEWEST, 5), None);
      NothingLags(w, op);
      FirstRow(w);
    } else {
      var k := n - 1;
      ops := CrowdRun(w, k);
      op := Submission(k, Small(k, 3), None);
      CrowdIsQuiet(k);
      CrowdLags(w, k);
      QuietSubmission(w, Crowd(k), k, Small(k, 3));
    }
    ThenLags(w, ops, op, BLOOM_COUNTER_DEPTH);
    AfterOneMore(w, ops, op);
    ops := ops + [op];
  }

  lemma NothingLags(w: World, op: Op)
    ensures RunLagsAtMost(w, [], BLOOM_COUNTER_DEPTH) && After(w, []) == Empty() && LagsAtMost(Empty(), op, BLOOM_COUNTER_DEPTH)
  {
  }

  /** The rows left when the newest row goes. */
  function Overflowing(w: World): Tables {
    Delete(Full(w, Crowd(MAX_BLOOM_COUNTER_TXS + 1)), {NEWEST})
  }

  lemma OverflowingRows(w: World)
    ensures Overflowing(w).mempool == (map i | i in Numbers(MAX_BLOOM_COUNTER_TXS + 1) :: Small(i, 3)) && Overflowing(w).removed == {}
  {
    hide Numbers;
  }

  lemma OverflowingIsTooMany(w: World)
    ensures |Advertised(Overflowing(w))| == MAX_BLOOM_COUNTER_TXS + 1
  {
    hide Overflowing, Numbers;
    OverflowingRows(w);
    var o := Overflowing(w);
    assert o.mempool[0].height == 3;
    assert Window(o, 3) == Numbers(MAX_BLOOM_COUNTER_TXS + 1);
  }

  /** Submissions that lag by the depth of the window are not counted against the rows at their own
      height: dropping the newest row then advertises too many. */
  lemma LagOverflows(w: World) returns (ops: seq<Op>)
    ensures RunLagsAtMost(w, ops, BLOOM_COUNTER_DEPTH) && |Advertised(After(w, ops))| > MAX_BLOOM_COUNTER_TXS
  {
    hide After, Consistent, Advertised, Crowd, UniqueSlots, RunLagsAtMost;
    ops := CrowdRun(w, MAX_BLOOM_COUNTER_TXS + 1);
    var op := Drop([NEWEST]);
    ThenLags(w, ops, op, BLOOM_COUNTER_DEPTH);
    AfterOneMore(w, ops, op);
    assert Elements([NEWEST]) == {NEWEST};
    OverflowingIsTooMany(w);
    ops := ops + [op];
  }

  ghost predicate NeverOverflows(d: nat) {
    forall w: World, ops: seq<Op> :: RunLagsAtMost(w, ops, d) ==> |Advertised(After(w, ops))| <= MAX_BLOOM_COUNTER_TXS
  }

  /** How far submissions may lag behind the newest row: by less than the depth of the window, and no further. */
  lemma NeverOverflowsExactly(d: nat)
    ensures NeverOverflows(d) <==> d < BLOOM_COUNTER_DEPTH
  {
    hide After, Advertised, LagsAtMost;
    if d < BLOOM_COUNTER_DEPTH {
      forall w: World, ops: seq<Op> | RunLagsAtMost(w, ops, d)
        ensures |Advertised(After(w, ops))| <= MAX_BLOOM_COUNTER_TXS
      {
        RunsStayBounded(w, ops, d);
      }
    } else {
      var w := World((t: Txid) => t, (x: BlockId, y: BlockId) => true);
      var ops := LagOverflows(w);
      MoreLag(w, ops, BLOOM_COUNTER_DEPTH, d);
    }
  }

  lemma MoreLag(w: World, ops: seq<Op>, d: nat, e: nat)
    requires RunLagsAtMost(w, ops, d) && d <= e
    ensures RunLagsAtMost(w, ops, e)
  {
    hide After;
    forall i | 0 <= i < |ops|
      ensures LagsAtMost(After(w, ops[..i]), ops[i], e)
    {
      assert LagsAtMost(After(w, ops[..i]), ops[i], d);
    }
  }

  // ---------- A sponsor slot that is lost without a fight ----------

  function Cheap(): Tx { Tx(Slot(1, 0), None, 1, 3, 0, [1]) }

  function Rich(): Tx { Tx(Slot(2, 0), Some(Slot(3, 0)), 100, 3, 0, [2]) }

  function Intruder(): Tx { Tx(Slot(1, 0), Some(Slot(3, 0)), 2, 3, 0, [3]) }

  function Pair(): Mempool { map[10 := Cheap(), 20 := Rich()] }

  lemma PairRun(w: World)
    ensures After(w, [Submission(10, Cheap(), None), Submission(20, Rich(), None)]) == Full(w, Pair())
  {
    hide Apply, Consistent, NumRecent, Full;
    var first, second := Submission(10, Cheap(), None), Submission(20, Rich(), None);
    assert Full(w, map[]) == Empty() by { EmptyIsFull(w); }
    FewRecent(map[]);
    QuietSubmission(w, map[], 10, Cheap());
    AfterOneMore(w, [], first);
    assert [] + [first] == [first];
    FewRecent(map[10 := Cheap()]);
    QuietSubmission(w, map[10 := Cheap()], 20, Rich());
    AfterOneMore(w, [first], second);
    assert [first] + [second] == [first, second];
  }

  lemma EmptyIsFull(w: World)
    ensures Full(w, map[]) == Empty()
  {
  }

  lemma PairHolders()
    ensures UniqueSlots(Pair()) && OriginHolder(Pair(), Slot(1, 0)) == Some(10) && SponsorHolder(Pair(), Slot(3, 0)) == Some(20)
    ensures 20 in Colliding(Pair(), 30, Intruder())
  {
    var m := Pair();
    assert m[10].origin == Slot(1, 0) && m[20].Sponsor() == Slot(3, 0);
  }

  /** INSERT OR REPLACE deletes what collides. */
  lemma CollidingIsGone(w: World, t: Tables, id: Txid, tx: Tx, u: Txid)
    requires UniqueSlots(t.mempool) && Admits(t.mempool, tx, w.sameFork) && u in Colliding(t.mempool, id, tx) && u != id
    ensures u !in Apply(w, t, Submission(id, tx, None)).mempool
  {
    hide UpdateBloom, UniqueSlots, Admits, Prior, Colliding;
    UpdateBloomKeepsRows(t, id, tx.height, Prior(t.mempool, tx));
  }

  /** After two submissions to different slots, a third one that beats the cheap transaction at its
      origin slot displaces the rich one at its sponsor slot, which it does not beat. */
  lemma SponsorHolderDisplaced(w: World) returns (ops: seq<Op>)
    requires w.sameFork(0, 0)
    ensures var t := After(w, ops);
            && 20 in t.mempool && SponsorHolder(t.mempool, Intruder().Sponsor()) == Some(20) && !Beats(Intruder(), t.mempool[20], w.sameFork)
            && Admits(t.mempool, Intruder(), w.sameFork)
            && 20 !in After(w, ops + [Submission(30, Intruder(), None)]).mempool
  {
    hide After, Apply, UniqueSlots, OriginHolder, SponsorHolder, Colliding;
    ops := [Submission(10, Cheap(), None), Submission(20, Rich(), None)];
    PairRun(w);
    PairHolders();
    AfterOneMore(w, ops, Submission(30, Intruder(), None));
    CollidingIsGone(w, Full(w, Pair()), 30, Intruder(), 20);
  }
}
