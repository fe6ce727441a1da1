/** The mempool database. */
module MempoolDB {
  import opened Wrappers
  import opened MempoolSchema
  import opened MempoolWalk
  import opened MempoolSync
  import opened MempoolTables

  /** The state of one streamed answer to a sync query. */
  class TxStreamData {
    const query: SyncData
    const maxTxs: nat
    const height: nat
    var lastRandomizedTxid: Hash
    var buf: seq<Byte>
    var ptr: nat
    var numTxs: nat
    var corked: bool

    constructor (query: SyncData, maxTxs: nat, height: nat, pageId: Hash)
      ensures this.query == query && this.maxTxs == maxTxs && this.height == height && lastRandomizedTxid == pageId
      ensures buf == [] && ptr == 0 && numTxs == 0 && !corked
    {
      this.query, this.maxTxs, this.height := query, maxTxs, height;
      lastRandomizedTxid, buf, ptr, numTxs, corked := pageId, [], 0, 0, false;
    }
  }

  datatype WalkResult = Ok(considered: nat) | Err

  /** What one round of the walk comes to; `last` is the transaction that ended it, if one did. */
  datatype Round<+C> = LookedUp | Considered(txid: Txid, chain: C) | Over(ok: bool, last: seq<Txid>, chain: C)

  /** What get_next_tx_to_consider answers. */
  datatype Consideration = NoTransactions | UpdateNonces(addresses: seq<Address>) | Consider(txid: Txid, updateEstimate: bool)

  class MemPoolDB {
    var mempool: Mempool
    var known: map<Txid, Known>
    var estimates: Estimates
    var removed: set<Txid>
    var pager: Pager
    var bloom: multiset<Txid>

    /** The hash of a txid with this node's own seed, which fixes the paging order. */
    const hashOf: Txid -> Hash

    constructor (hashOf: Txid -> Hash)
      ensures this.hashOf == hashOf && State() == Empty() && Valid()
    {
      this.hashOf := hashOf;
      mempool, known, estimates, removed, pager, bloom := map[], map[], map[], {}, map[], multiset{};
    }

    function State(): Tables
      reads this
    {
      Tables(mempool, removed, pager, estimates, bloom)
    }

    ghost predicate Valid()
      reads this
    {
      Consistent(hashOf, State()) && known.Keys == mempool.Keys
    }

    // ---------- Admission ----------

    /** Take the rows at one height out of the bloom counter, one by one. */
    method PruneBloomCounter(height: nat)
      modifies this`bloom, this`removed
      ensures State() == Prune(old(State()), height)
    {
      hide AtHeight;
      bloom, removed := RemoveAll(bloom, removed, AtHeight(State(), height));
    }

    /** Keep the bloom counter unsaturated. */
    method EvictOne(height: nat) returns (evicted: Option<Txid>)
      modifies this`bloom, this`removed
      ensures State() == Evict(old(State()), height)
      ensures evicted.Some? ==> evicted.value in removed && evicted.value !in old(removed)
    {
      evicted := None;
      if NumRecent(mempool) >= MAX_BLOOM_COUNTER_TXS {
        var candidates := Unremoved(State(), Floor(height));
        if candidates != {} {
          var victim := Cheapest(mempool, candidates);
          bloom := bloom - multiset{victim};
          removed := removed + {victim};
          evicted := Some(victim);
        }
      }
    }

    method UpdateBloomCounter(height: nat, txid: Txid, prior: Option<Txid>) returns (evicted: Option<Txid>)
      modifies this`bloom, this`removed
      ensures State() == UpdateBloom(old(State()), txid, height, prior)
    {
      hide Prune, Evict;
      if MovesWindow(mempool, height) {
        PruneBloomCounter(height - BLOOM_COUNTER_DEPTH);
      }
      if prior.Some? {
        bloom := bloom - multiset{prior.value};
      }
      evicted := EvictOne(height);
      bloom := bloom + multiset{txid};
    }

    /** DELETE FROM mempool, with ON DELETE CASCADE in the child tables. */
    method DeleteRows(gone: set<Txid>)
      modifies this`mempool, this`known, this`estimates, this`removed, this`pager
      ensures State() == Delete(old(State()), gone) && known == old(known) - gone
    {
      mempool, known, estimates := mempool - gone, known - gone, estimates - gone;
      removed, pager := removed - gone, pager - gone;
    }

    /** INSERT OR REPLACE INTO mempool, and the rows of the child tables. */
    method InsertOrReplace(txid: Txid, tx: Tx, rate: Option<real>)
      requires known.Keys == mempool.Keys
      modifies this`mempool, this`known, this`estimates, this`removed, this`pager
      ensures State() == Insert(old(State()), txid, tx, hashOf(txid), rate)
      ensures known == (old(known) - old(Colliding(mempool, txid, tx)))[txid := Known(None, None)]
      ensures known.Keys == mempool.Keys
    {
      hide Colliding;
      DeleteRows(Colliding(mempool, txid, tx));
      mempool, known := mempool[txid := tx], known[txid := Known(None, None)];
      pager := pager[txid := hashOf(txid)];
      estimates := estimates[txid := rate];
    }

    /** Admission, replacement and insertion of one transaction; `dropped` is the transaction that
        observers are told about. */
    method TrySubmit(txid: Txid, tx: Tx, rate: Option<real>, sameFork: (BlockId, BlockId) -> bool)
      returns (accepted: bool, dropped: Option<Txid>)
      requires Valid()
      modifies this`mempool, this`known, this`estimates, this`removed, this`pager, this`bloom
      ensures Valid()
      ensures State() == Apply(World(hashOf, sameFork), old(State()), Submission(txid, tx, rate))
      ensures accepted == old(Admits(mempool, tx, sameFork))
      ensures accepted ==> dropped == old(Prior(mempool, tx))
      ensures !accepted ==> dropped.None? && known == old(known)
    {
      hide UpdateBloom, Insert, Consistent, UniqueSlots, OriginHolder, SponsorHolder;
      ConsistentSlots(hashOf, State());
      var prior := OriginHolder(mempool, tx.origin);
      if prior.None? {
        prior := SponsorHolder(mempool, tx.Sponsor());
      }
      if Oversized(tx) || (prior.Some? && !Beats(tx, mempool[prior.value], sameFork)) {
        return false, None;
      }
      SubmitKeepsConsistent(World(hashOf, sameFork), State(), txid, tx, rate);
      var _ := UpdateBloomCounter(tx.height, txid, prior);
      InsertOrReplace(txid, tx, rate);
      return true, prior;
    }

    method GarbageCollect(minHeight: nat) returns (ok: bool)
      requires Valid()
      modifies this`mempool, this`known, this`estimates, this`removed, this`pager
      ensures Valid()
      ensures ok <==> minHeight <= I64_MAX
      ensures !ok ==> unchanged(this)
      ensures ok ==> forall t :: t in mempool <==> t in old(mempool) && old(mempool)[t].height >= minHeight
      ensures forall w: World :: State() == Apply(w, old(State()), Collect(minHeight))
    {
      hide Consistent, UniqueSlots;
      ConsistentSlots(hashOf, State());
      if minHeight > I64_MAX {
        return false;
      }
      DeleteKeepsConsistent(hashOf, State(), Stale(mempool, minHeight));
      DeleteRows(Stale(mempool, minHeight));
      ok := true;
    }

    method DropTxs(txids: seq<Txid>)
      requires Valid()
      modifies this`mempool, this`known, this`estimates, this`removed, this`pager
      ensures Valid()
      ensures forall w: World :: State() == Apply(w, old(State()), Drop(txids))
      ensures forall t :: t in mempool <==> t in old(mempool) && t !in txids
      ensures forall t :: t in mempool ==> mempool[t] == old(mempool)[t]
    {
      hide Consistent, UniqueSlots, Elements, Delete;
      ghost var was := State();
      ConsistentSlots(hashOf, was);
      DeleteNothing(was);
      for i := 0 to |txids|
        invariant State() == Delete(was, Elements(txids[..i])) && known.Keys == mempool.Keys
      {
        ElementsGrow(txids, i);
        DeleteTwice(was, Elements(txids[..i]), {txids[i]});
        DeletedKeys(State(), {txids[i]});
        DeleteRows({txids[i]});
      }
      assert txids[..|txids|] == txids;
      DeleteKeepsConsistent(hashOf, was, Elements(txids));
      DroppedRows(was, txids);
    }

    /** The txids the bloom counter stands for: no more than it is dimensioned for, if the bound holds. */
    method GetBloomTxids() returns (txids: set<Txid>)
      requires Valid()
      ensures txids == Advertised(State())
      ensures forall t :: t in txids <==>
        && t in mempool && t !in removed && mempool[t].height > 0
        && forall u :: u in mempool ==> mempool[u].height < mempool[t].height + 2
      ensures forall t :: t in txids ==> t in mempool && t in bloom
      ensures Bounded(State()) ==> |txids| <= MAX_BLOOM_COUNTER_TXS
    {
      if mempool.Keys == {} {
        return {};
      }
      var maxHeight := MaxHeight(mempool);
      var minHeight := Floor(maxHeight);
      txids := set t | t in mempool && t !in removed && minHeight < mempool[t].height <= maxHeight;
      assert txids == Window(State(), maxHeight);
    }

    // ---------- The mining walk ----------

    ghost predicate Coherent<C>(w: Moment<C>)
      reads this
    {
      Covers(mempool, w) && known == Cells(mempool, w.cached, w.nonces)
    }

    method ResetLastKnownNonces()
      modifies this`known
      ensures known == Cells(mempool, {}, map[])
    {
      known := map t | t in mempool :: Known(None, None);
    }

    method BumpLastKnownNonces(a: Address, ghost cached: set<Address>, ghost nonces: Nonces)
      requires cached <= nonces.Keys && known == Cells(mempool, cached, nonces) && a in cached
      modifies this`known
      ensures known == Cells(mempool, cached, BumpNonce(nonces, a))
    {
      BumpKeepsCoherence(mempool, cached, nonces, a);
      known := BumpOriginCells(mempool, known, a);
      known := BumpSponsorCells(mempool, known, a);
    }

    method UpdateLastKnownNonces(a: Address, n: nat, ghost cached: set<Address>, ghost nonces: Nonces) returns (ok: bool)
      requires cached <= nonces.Keys && known == Cells(mempool, cached, nonces)
      modifies this`known
      ensures ok == (n <= I64_MAX)
      ensures if ok then known == Cells(mempool, cached + {a}, nonces[a := n]) else known == old(known)
    {
      if n > I64_MAX {
        return false;
      }
      LookupKeepsCoherence(mempool, cached, nonces, a, n);
      known := SetOriginCells(mempool, known, a, n);
      known := SetSponsorCells(mempool, known, a, n);
      ok := true;
    }

    /** The answer is the eager scheduler's, or asks for nonces that are still missing from the cache. */
    method GetNextTxToConsider<C>(startWithNoEstimate: bool, ghost w: Moment<C>) returns (r: Consideration)
      requires Coherent(w)
      ensures match r
              case NoTransactions => Ready(mempool, w.nonces) == {}
              case UpdateNonces(addresses) =>
                1 <= |addresses| <= 2 && forall a :: a in addresses ==> a in Addresses(mempool) && a !in w.cached
              case Consider(t, update) =>
                && t in Ready(mempool, w.nonces)
                && Pick(mempool, estimates, Ready(mempool, w.nonces), startWithNoEstimate) == Some(t)
                && mempool[t].origin.address in w.cached && mempool[t].Sponsor().address in w.cached
                && update == !HasEstimate(estimates, t)
    {
      hide Pick, Addresses, Cells, Ready;
      LazyPickIsEagerPick(mempool, estimates, w.cached, w.nonces, startWithNoEstimate);
      var pick := Pick(mempool, estimates, Eligible(mempool, known), startWithNoEstimate);
      if pick.None? {
        return NoTransactions;
      }
      var t := pick.value;
      EmptyCellsAreUncached(mempool, w.cached, w.nonces, t);
      var needsNonces := [];
      if known[t].origin.None? {
        needsNonces := needsNonces + [mempool[t].origin.address];
      }
      if known[t].sponsor.None? {
        needsNonces := needsNonces + [mempool[t].Sponsor().address];
      }
      assert needsNonces == EmptyCells(mempool[t], known[t]);
      if needsNonces != [] {
        return UpdateNonces(needsNonces);
      } else {
        return Consider(t, !HasEstimate(estimates, t));
      }
    }

    /** The lookups of one round: the address of each empty cell, once (there are at most two). */
    method LookUp<C(!new)>(addresses: seq<Address>, chain: C, env: Env<C>, ghost w0: Moment<C>, ghost w: Moment<C>, ghost rounds: nat)
      returns (ok: bool, ghost v: Moment<C>, ghost last: Address)
      requires Coherent(w) && Walking(mempool, estimates, env, w0, w, rounds) && w.chain == chain
      requires 1 <= |addresses| <= 2
      requires forall a :: a in addresses ==> a in Addresses(mempool) && a !in w.cached
      modifies this`known
      ensures Coherent(v) && Covers(mempool, v) && v.chain == chain && v.considered == w.considered
      ensures Walking(mempool, estimates, env, w0, v, if ok then rounds + 1 else rounds)
      ensures ok ==> RoundsLeft(mempool, v) < RoundsLeft(mempool, w)
      ensures ok ==> forall a :: a in addresses ==> a in v.cached && v.nonces[a] == env.nonceOf(chain, a) <= I64_MAX
      ensures !ok ==> last in addresses && last !in v.cached && env.nonceOf(chain, last) > I64_MAX
    {
      hide Walking, RoundsLeft, Cells, Addresses;
      ghost var m, est := mempool, estimates;
      v, last := w, addresses[0];
      ok := UpdateLastKnownNonces(addresses[0], env.nonceOf(chain, addresses[0]), v.cached, v.nonces);
      if ok {
        WalkLooksUp(m, est, env, w0, v, rounds, addresses[0]);
        v := AfterLookup(env, v, addresses[0]);
        // one lookup is enough for both cells of a transaction whose sponsor is its origin
        if |addresses| == 2 && addresses[1] != addresses[0] {
          last := addresses[1];
          ok := UpdateLastKnownNonces(addresses[1], env.nonceOf(chain, addresses[1]), v.cached, v.nonces);
          if ok {
            WalkLooksUp(m, est, env, w0, v, rounds + 1, addresses[1]);
            v := AfterLookup(env, v, addresses[1]);
            FewerRounds(m, est, env, w0, v, rounds + 2, rounds + 1);
          } else {
            FewerRounds(m, est, env, w0, v, rounds + 1, rounds);
          }
        }
      }
    }

    /** One consideration: call the closure and, if the walk goes on, move the cached nonces on. */
    method ConsiderTx<C(!new)>(t: Txid, updateEstimate: bool, chain: C, env: Env<C>, ghost w0: Moment<C>, ghost w: Moment<C>, ghost rounds: nat, ghost late: bool)
      returns (verdict: Verdict<C>, ghost v: Moment<C>)
      requires Coherent(w) && Walking(mempool, estimates, env, w0, w, rounds) && w.chain == chain
      requires t in Ready(mempool, w.nonces) && mempool[t].origin.address in w.cached && mempool[t].Sponsor().address in w.cached
      requires Pick(mempool, estimates, Ready(mempool, w.nonces), env.Sample(|w.considered|)) == Some(t)
      requires updateEstimate == !HasEstimate(estimates, t)
      modifies this`known
      ensures Coherent(v)
      ensures verdict.Continue? ==>
                && Covers(mempool, v) && v.chain == verdict.chain && v.considered == w.considered + [t]
                && Walking(mempool, estimates, env, w0, v, rounds + 1)
                && RoundsLeft(mempool, v) < RoundsLeft(mempool, w)
      ensures !verdict.Continue? ==>
                v == w && EndsBy(mempool, estimates, env, w, w.considered + [t], if verdict.Stop? then verdict.chain else chain,
                                 if verdict.Stop? then Stopped(t) else Failed(t), verdict.Stop?, late)
      ensures !verdict.Continue? ==> Promised(mempool, estimates, env, w0, w.considered + [t], false, rounds + 1)
    {
      hide Walking, RoundsLeft, Cells, Addresses, Promised, Pick, Eligible, HasEstimate;
      ghost var m, est := mempool, estimates;
      verdict := env.todo(chain, t, updateEstimate);
      v := w;
      if !verdict.Continue? {
        WalkStopped(m, est, env, w0, w, rounds, t);
        return;
      }
      WalkContinues(m, est, env, w0, w, rounds, t);
      v := AfterConsider(m, w, t, verdict.chain);
      BumpLastKnownNonces(mempool[t].origin.address, w.cached, w.nonces);
      if mempool[t].sponsorship.Some? {
        BumpLastKnownNonces(mempool[t].Sponsor().address, w.cached, BumpNonce(w.nonces, m[t].origin.address));
      }
    }

    /** What holds when the walk is over. */
    lemma Finish<C(!new)>(est: Estimates, env: Env<C>, w0: Moment<C>, w: Moment<C>, rounds: nat, ending: Ending, late: bool) returns (last: nat)
      requires Coherent(w) && Walking(mempool, est, env, w0, w, rounds)
      requires match ending
               case OutOfTime => late
               case NonceTooLarge(a) => a in Addresses(mempool) && a !in w.cached && env.nonceOf(w.chain, a) > I64_MAX
               case NothingReady => Ready(mempool, w.nonces) == {}
               case _ => false
      ensures EndsBy(mempool, est, env, w, w.considered, w.chain, ending, !ending.NonceTooLarge?, late)
      ensures last == rounds + 1 && Promised(mempool, est, env, w0, w.considered, ending.Cut(), last)
      ensures w0.cached == {} && Applies(mempool, env) ==> Reflects(mempool, env, w) && Current(mempool, env, known, w.chain)
    {
      hide Walking, Promised, Reflects, Current, Applies, Ready, Cells;
      last := rounds + 1;
      WalkEnds(mempool, est, env, w0, w, rounds, ending.Cut());
      if w0.cached == {} {
        WalkReflects(mempool, est, env, w0, w, rounds);
      }
    }

    /** One round: ask for the next transaction, and look nonces up or consider it. */
    method WalkRound<C(!new)>(startWithNoEstimate: bool, chain: C, env: Env<C>, ghost w0: Moment<C>, ghost w: Moment<C>, ghost rounds: nat)
      returns (r: Round<C>, ghost v: Moment<C>, ghost ending: Ending)
      requires Coherent(w) && Walking(mempool, estimates, env, w0, w, rounds) && w.chain == chain
      requires startWithNoEstimate == env.Sample(|w.considered|)
      modifies this`known
      ensures Coherent(v)
      ensures !r.Over? ==>
                && Covers(mempool, v) && Walking(mempool, estimates, env, w0, v, rounds + 1) && RoundsLeft(mempool, v) < RoundsLeft(mempool, w)
                && v.considered == w.considered + (if r.Considered? then [r.txid] else [])
                && v.chain == if r.Considered? then r.chain else chain
      ensures r.Over? ==>
                && EndsBy(mempool, estimates, env, v, w.considered + r.last, r.chain, ending, r.ok, false)
                && Promised(mempool, estimates, env, w0, w.considered + r.last, ending.Cut(), rounds + 1)
                && (w0.cached == {} && Applies(mempool, env) ==> Reflects(mempool, env, v) && Current(mempool, env, known, v.chain))
    {
      hide Walking, RoundsLeft, Addresses, Promised, Pick, Ready, HasEstimate, Applies, Reflects, Current, Cells, EndsBy;
      ghost var m, est := mempool, estimates;
      v, ending := w, NothingReady;
      assert w.considered + [] == w.considered;
      var next := GetNextTxToConsider(startWithNoEstimate, w);
      match next {
        case NoTransactions =>
          ghost var _ := Finish(est, env, w0, w, rounds, NothingReady, false);
          r := Over(true, [], chain);
        case UpdateNonces(addresses) =>
          var ok;
          ghost var last;
          ok, v, last := LookUp(addresses, chain, env, w0, w, rounds);
          if ok {
            r := LookedUp;
          } else {
            ending := NonceTooLarge(last);
            ghost var _ := Finish(est, env, w0, v, rounds, ending, false);
            r := Over(false, [], chain);
          }
        case Consider(t, updateEstimate) =>
          ghost var _ := Finish(est, env, w0, w, rounds, OutOfTime, true);
          var verdict;
          verdict, v := ConsiderTx(t, updateEstimate, chain, env, w0, w, rounds, false);
          if verdict.Continue? {
            r := Considered(t, verdict.chain);
          } else {
            ending := if verdict.Stop? then Stopped(t) else Failed(t);
            r := Over(verdict.Stop?, [t], if verdict.Stop? then verdict.chain else chain);
          }
      }
    }

    /** The walk. `deadlinePassed` is the clock check at the top of each round; `rounds` counts the
        last round too, and w is the last moment between two rounds. */
    method IterateCandidates<C(!new)>(chain0: C, env: Env<C>, deadlinePassed: nat -> bool, ghost w0: Moment<C>)
      returns (result: WalkResult, considered: seq<Txid>, chain: C, ghost ending: Ending, ghost rounds: nat, ghost w: Moment<C>)
      requires Coherent(w0) && Covers(mempool, w0) && w0.chain == chain0 && w0.considered == []
      modifies this`known
      ensures Coherent(w) && rounds > 0 && forall i :: 0 <= i < rounds - 1 ==> !deadlinePassed(i)
      ensures EndsBy(mempool, estimates, env, w, considered, chain, ending, result.Ok?, ending.OutOfTime? && deadlinePassed(rounds - 1))
      ensures result.Ok? ==> result.considered == |considered|
      ensures Promised(mempool, estimates, env, w0, considered, ending.Cut(), rounds)
      ensures w0.cached == {} && Applies(mempool, env) ==> Reflects(mempool, env, w) && Current(mempool, env, known, w.chain)
    {
      hide Walking, RoundsLeft, Promised, Applies, Reflects, Current, Coherent, EndsBy;
      ghost var m, est := mempool, estimates;
      w, considered, rounds := w0, [], 0;
      chain := chain0;
      var draws, round := 0, 0;
      var remember: Option<bool> := None;
      WalkStarts(m, est, env, w0);
      while !deadlinePassed(round)
        invariant mempool == m && estimates == est && forall i :: 0 <= i < round ==> !deadlinePassed(i)
        invariant Coherent(w) && Covers(m, w) && w.chain == chain && w.considered == considered
        invariant Walking(m, est, env, w0, w, rounds) && round == rounds
        invariant draws == |considered| + (if remember.Some? then 1 else 0)
        invariant remember.Some? ==> remember.value == env.Sample(|considered|)
        decreases RoundsLeft(m, w)
      {
        var startWithNoEstimate;
        if remember.Some? {
          startWithNoEstimate := remember.value;
        } else {
          startWithNoEstimate := env.Sample(draws);
          draws := draws + 1;
        }
        var r;
        r, w, ending := WalkRound(startWithNoEstimate, chain, env, w0, w, rounds);
        rounds, round := rounds + 1, round + 1;
        match r {
          case Over(ok, last, end) =>
            considered, chain := considered + last, end;
            result := if ok then Ok(|considered|) else Err;
            EndedInTime(m, est, env, w, considered, chain, ending, ok);
            return;
          case LookedUp =>
            remember := Some(startWithNoEstimate);
            assert considered + [] == considered;
          case Considered(t, after) =>
            remember, considered, chain := None, considered + [t], after;
        }
      }
      ending := OutOfTime;
      rounds := Finish(est, env, w0, w, rounds, ending, true);
      result := Ok(|considered|);
    }

    /** How the miners use the walk: from reset nonces. A closure that touches only the accounts
        of the transaction it is given sees exactly the eager schedule, or a prefix of it if the clock
        or a nonce that is too large cut the walk short; if it also applies every transaction it goes on
        from, the cache follows the chain. */
    method WalkFromReset<C(!new)>(chain0: C, env: Env<C>, deadlinePassed: nat -> bool)
      returns (result: WalkResult, considered: seq<Txid>, chain: C, ghost ending: Ending, ghost rounds: nat, ghost w: Moment<C>)
      modifies this`known
      ensures Promised(mempool, estimates, env, Start(mempool, env, chain0), considered, ending.Cut(), rounds)
      ensures TouchesOnlyItsAccounts(mempool, env) ==>
                var full := Schedule(mempool, estimates, env, ChainNonces(mempool, env, chain0), chain0, 0);
                if ending.Cut() then considered <= full else considered == full
      ensures rounds > 0 && EndsBy(mempool, estimates, env, w, considered, chain, ending, result.Ok?, ending.OutOfTime? && deadlinePassed(rounds - 1))
      ensures (forall i :: 0 <= i < rounds ==> !deadlinePassed(i)) && (forall c, a :: env.nonceOf(c, a) <= I64_MAX) && TouchesOnlyItsAccounts(mempool, env) ==>
                considered == Schedule(mempool, estimates, env, ChainNonces(mempool, env, chain0), chain0, 0)
      ensures Applies(mempool, env) ==> Current(mempool, env, known, w.chain)
      ensures result.Ok? ==> result.considered == |considered|
    {
      hide Tidy, TouchesOnlyItsAccounts, Schedule, Applies, Current, Reflects, Ready, HasEstimate;
      ResetLastKnownNonces();
      ghost var w0 := Start(mempool, env, chain0);
      assert Coherent(w0);
      result, considered, chain, ending, rounds, w := IterateCandidates(chain0, env, deadlinePassed, w0);
    }

    // ---------- Synchronization ----------

    ghost function RowsAbove(height: nat, cursor: Hash): (rows: seq<Row>)
      requires CollisionFree(pager)
      reads this
    {
      Rows(mempool, pager, removed, Floor(height), cursor)
    }

    lemma RowsAboveAdvance(height: nat, cursor: Hash, n: nat)
      requires CollisionFree(pager)
      requires 0 < n <= |RowsAbove(height, cursor)|
      ensures RowsAbove(height, RowsAbove(height, cursor)[n - 1].hash) == RowsAbove(height, cursor)[n..]
    {
      CursorAdvances(mempool, pager, removed, Floor(height), cursor, n);
    }

    /** One page of the transactions that the remote peer lacks. */
    method FindNextMissingTransactions(data: SyncData, height: nat, lastRandomizedTxid: Hash, maxTxs: nat, maxRun: nat)
      returns (r: Result<Page>)
      requires CollisionFree(pager)
      ensures r.Failure? <==> Floor(height) > I64_MAX || maxRun > I64_MAX
      ensures r.Success? ==> PageOf(data, RowsAbove(height, lastRandomizedTxid), maxTxs, maxRun, r.value)
    {
      if Floor(height) > I64_MAX || maxRun > I64_MAX {
        return Failure;
      }
      var rows := Rows(mempool, pager, removed, Floor(height), lastRandomizedTxid);
      var page := VisitRows(data, rows, maxTxs, maxRun);
      return Success(page);
    }

    /** A peer that keeps asking for the next page gets every transaction it lacks, once and in order. */
    method FindAllMissingTransactions(data: SyncData, height: nat, start: Hash, maxTxs: nat, maxRun: nat)
      returns (txs: seq<Row>, pages: nat)
      requires CollisionFree(pager)
      requires Floor(height) <= I64_MAX && 1 <= maxRun <= I64_MAX
      ensures txs == Missing(data, RowsAbove(height, start))
      ensures pages <= |RowsAbove(height, start)| + 1
    {
      hide RowsAbove, CollisionFree, IsPage;
      ghost var rows := RowsAbove(height, start);
      ghost var n := 0;
      var cursor := start;
      txs, pages := [], 0;
      assert Missing(data, rows[..0]) == [];
      while true
        invariant n <= |rows| && pages <= n
        invariant RowsAbove(height, cursor) == rows[n..]
        invariant txs == Missing(data, rows[..n])
        decreases |rows| - n
      {
        var r := FindNextMissingTransactions(data, height, cursor, maxTxs, maxRun);
        ghost var k := r.value.visited;
        pages := pages + 1;
        LastPage(data, rows[n..], maxTxs, maxRun, r.value);
        PagesJoin(data, rows, n, k);
        txs := txs + r.value.txs;
        if r.value.next.None? {
          break;
        }
        RowsAboveAdvance(height, cursor, k);
        n := n + k;
        cursor := r.value.next.value;
      }
      hide Missing;
      assert rows[..n] == rows;
    }

    /** What is missing, row by row. */
    lemma MissingRows(data: SyncData, height: nat, start: Hash)
      requires CollisionFree(pager)
      ensures Ascending(Missing(data, RowsAbove(height, start)))
      ensures forall r :: r in Missing(data, RowsAbove(height, start)) <==>
        && r.txid in mempool && r.txid in pager && r.txid !in removed && pager[r.txid] > start
        && mempool[r.txid].height > 0 && mempool[r.txid].height + 2 > height
        && r == Row(r.txid, pager[r.txid], mempool[r.txid].body)
        && !data.Contains(r.txid)
    {
      hide Missing, Rows, Ascending, CollisionFree;
      RowsListed(mempool, pager, removed, Floor(height), start);
      MissingKeepsOrder(data, RowsAbove(height, start));
      forall r {
        MissingMembers(data, RowsAbove(height, start), r);
      }
    }

    // ---------- Streaming ----------

    ghost predicate ValidStream(q: TxStreamData)
      reads q
    {
      q.ptr <= |q.buf| && q.numTxs <= q.maxTxs
    }

    /** What is left of the stream after the bytes that are already buffered. */
    ghost function Unloaded(q: TxStreamData): seq<Byte>
      requires CollisionFree(pager) && ValidStream(q)
      reads this, q
    {
      if q.corked then []
      else Stream(q.query, RowsAbove(q.height, q.lastRandomizedTxid), q.lastRandomizedTxid, q.maxTxs - q.numTxs)
    }

    /** The bytes a stream still has to deliver. */
    ghost function Pending(q: TxStreamData): seq<Byte>
      requires CollisionFree(pager) && ValidStream(q)
      reads this, q
    {
      q.buf[q.ptr..] + Unloaded(q)
    }

    ghost predicate IsFresh(q: TxStreamData)
      reads q
    {
      q.buf == [] && q.ptr == 0 && q.numTxs == 0 && !q.corked
    }

    /** The numbers of a query that have to fit the database's signed integers. */
    ghost predicate Fits(q: TxStreamData)
      reads q
    {
      Floor(q.height) <= I64_MAX && q.maxTxs - q.numTxs <= I64_MAX
    }

    /** Refill the drained buffer of a stream that is not corked yet. */
    method LoadNext(q: TxStreamData) returns (ok: bool)
      requires CollisionFree(pager) && ValidStream(q) && q.ptr == |q.buf| && !q.corked
      modifies q
      ensures ValidStream(q) && q.numTxs >= old(q.numTxs)
      ensures !ok ==> unchanged(q) && !Fits(q)
      ensures ok ==> Pending(q) == old(Pending(q)) && q.ptr == 0
      ensures ok ==> q.corked || q.numTxs > old(q.numTxs)
    {
      hide RowsAbove, Stream, Missing, Bodies, PageId, CollisionFree;
      if q.numTxs >= q.maxTxs {
        StreamFull(q.query, RowsAbove(q.height, q.lastRandomizedTxid), q.lastRandomizedTxid);
        // the row budget is used up
        q.ptr, q.buf, q.corked := 0, PageId(q.lastRandomizedTxid), true;
        return true;
      }
      var remaining := q.maxTxs - q.numTxs;
      ghost var rows, cursor := RowsAbove(q.height, q.lastRandomizedTxid), q.lastRandomizedTxid;
      var r := FindNextMissingTransactions(q.query, q.height, q.lastRandomizedTxid, 1, remaining);
      if r.Failure? {
        return false;
      }
      var page := r.value;
      q.numTxs := q.numTxs + page.visited;
      q.ptr := 0;
      ok := true;
      if page.txs != [] {
        StreamUnrolls(q.query, rows, cursor, remaining, page.visited);
        RowsAboveAdvance(q.height, cursor, page.visited);
        q.buf := Bodies(page.txs);
        q.lastRandomizedTxid := page.next.value;
      } else {
        StreamEnds(q.query, rows, cursor, remaining, page.visited);
        q.corked := true;
        if page.next.Some? {
          // nothing to send among the rows visited
          q.lastRandomizedTxid := page.next.value;
          q.buf := PageId(q.lastRandomizedTxid);
        } else {
          q.buf := [];
        }
      }
    }

    /** Hand out buffered bytes. */
    method HandOutBuffered(q: TxStreamData, count: nat) returns (bytes: seq<Byte>)
      requires CollisionFree(pager) && ValidStream(q)
      modifies q`ptr
      ensures ValidStream(q) && bytes + Pending(q) == old(Pending(q))
      ensures |bytes| <= count && (q.ptr == |q.buf| || |bytes| == count)
    {
      hide CollisionFree, Stream, RowsAbove;
      var start := q.ptr;
      var end := Min(|q.buf|, start + count);
      HandOut(q.buf, start, end, Unloaded(q));
      bytes := q.buf[start..end];
      q.ptr := end;
    }

    lemma Drained(q: TxStreamData)
      requires CollisionFree(pager) && ValidStream(q) && q.corked && q.ptr == |q.buf|
      ensures Pending(q) == []
    {
    }

    /** One call of the stream: the next bytes, about `count` of them. */
    method StreamTxs(q: TxStreamData, count: nat) returns (ok: bool, out: seq<Byte>)
      requires CollisionFree(pager) && ValidStream(q)
      modifies q
      ensures ValidStream(q)
      ensures out + Pending(q) == old(Pending(q))
      ensures old(Fits(q)) ==> ok && Fits(q)
      ensures ok && |out| < count ==> q.corked && Pending(q) == []
      ensures count > 0 ==> |out| < 2 * count
      ensures count == 0 ==> out == []
    {
      hide CollisionFree, Pending;
      out := [];
      assert [] + Pending(q) == Pending(q);
      while |out| < count
        invariant ValidStream(q)
        invariant out + Pending(q) == old(Pending(q))
        invariant old(Fits(q)) ==> Fits(q)
        invariant count > 0 ==> |out| < 2 * count
        invariant count == 0 ==> out == []
        decreases if q.corked then 0 else 1 + q.maxTxs - q.numTxs, if |out| < count then 1 else 0
      {
        var bytes := HandOutBuffered(q, count);
        Associate(out, bytes, Pending(q));
        out := out + bytes;
        if q.ptr >= |q.buf| {
          if q.corked {
            Drained(q);
            return true, out;
          }
          ok := LoadNext(q);
          if !ok {
            return;
          }
        }
      }
      ok := true;
    }

    lemma FreshReply(q: TxStreamData)
      requires CollisionFree(pager) && IsFresh(q)
      ensures Pending(q) == Stream(q.query, RowsAbove(q.height, q.lastRandomizedTxid), q.lastRandomizedTxid, q.maxTxs)
      ensures IsReply(q.query, RowsAbove(q.height, q.lastRandomizedTxid), q.lastRandomizedTxid, q.maxTxs, Pending(q))
    {
      hide CollisionFree, RowsAbove, IsReply, Stream;
      StreamIsReply(q.query, RowsAbove(q.height, q.lastRandomizedTxid), q.lastRandomizedTxid, q.maxTxs);
      assert Pending(q) == [] + Unloaded(q) == Unloaded(q);
    }

    /** A reply streamed in chunks of any sizes until a call yields nothing: the bytes do not
        depend on the sizes. */
    method StreamReply(q: TxStreamData, chunk: nat -> nat) returns (out: seq<Byte>, calls: nat)
      requires CollisionFree(pager) && ValidStream(q) && Fits(q)
      requires forall i :: chunk(i) > 0
      modifies q
      ensures out == old(Pending(q))
      ensures old(IsFresh(q)) ==> out == Stream(q.query, old(RowsAbove(q.height, q.lastRandomizedTxid)), old(q.lastRandomizedTxid), q.maxTxs)
      ensures old(IsFresh(q)) ==> IsReply(q.query, old(RowsAbove(q.height, q.lastRandomizedTxid)), old(q.lastRandomizedTxid), q.maxTxs, out)
      ensures q.corked && ValidStream(q) && Pending(q) == []
      ensures calls <= |out| + 1
    {
      hide CollisionFree, Unloaded, IsReply, Stream, RowsAbove;
      if IsFresh(q) {
        FreshReply(q);
      }
      out, calls := [], 0;
      while true
        invariant ValidStream(q) && Fits(q)
        invariant out + Pending(q) == old(Pending(q))
        invariant calls <= |out|
        decreases |Pending(q)|
      {
        var ok, bytes := StreamTxs(q, chunk(calls));
        calls := calls + 1;
        Associate(out, bytes, Pending(q));
        out := out + bytes;
        if bytes == [] {
          break;
        }
      }
    }
  }
}
