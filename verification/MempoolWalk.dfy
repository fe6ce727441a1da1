/** The mining walk over the mempool: the specification it refines and the steps of the refinement. */
module MempoolWalk {
  import opened Wrappers
  import opened MempoolSchema
  import opened Orders

  // ---------- ORDER BY ... DESC LIMIT 1 ----------

  /** The sort key of the two queries: the fee without an estimate, the fee rate with one. */
  function Rank(m: Mempool, est: Estimates, t: Txid): real
    requires t in m
  {
    if HasEstimate(est, t) then est[t].value else m[t].fee as real
  }

  /** Descending rank; ties are broken by txid. */
  predicate Precedes(m: Mempool, est: Estimates, a: Txid, b: Txid)
    requires a in m && b in m
  {
    Rank(m, est, a) > Rank(m, est, b) || (Rank(m, est, a) == Rank(m, est, b) && a < b)
  }

  predicate IsFirst(m: Mempool, est: Estimates, s: set<Txid>, t: Txid)
    requires s <= m.Keys
  {
    t in s && forall u :: u in s ==> u == t || Precedes(m, est, t, u)
  }

  lemma FirstExists(m: Mempool, est: Estimates, s: set<Txid>)
    requires s <= m.Keys && s != {}
    ensures exists t :: IsFirst(m, est, s, t)
  {
    var t := LeastExists(s, (a: Txid, b: Txid) => a in m && b in m && (a == b || Precedes(m, est, a, b)));
    assert IsFirst(m, est, s, t);
  }

  function First(m: Mempool, est: Estimates, s: set<Txid>): (t: Txid)
    requires s <= m.Keys && s != {}
    ensures IsFirst(m, est, s, t)
  {
    FirstExists(m, est, s);
    var t :| IsFirst(m, est, s, t);
    t
  }

  /** The best row of a larger set is the best row of any smaller set that still has it. */
  lemma FirstOfSubset(m: Mempool, est: Estimates, small: set<Txid>, large: set<Txid>)
    requires large <= m.Keys && small <= large && small != {}
    requires First(m, est, large) in small
    ensures First(m, est, large) == First(m, est, small)
  {
    var a, b := First(m, est, large), First(m, est, small);
    assert b in large;
  }

  /** The rows of s with (or without) a fee-rate estimate. */
  function Class(est: Estimates, s: set<Txid>, noEstimate: bool): set<Txid> {
    set t | t in s && HasEstimate(est, t) != noEstimate
  }

  /** One row of s: the best of the requested class, or else the best of the other class. */
  function Pick(m: Mempool, est: Estimates, s: set<Txid>, noEstimate: bool): (r: Option<Txid>)
    requires s <= m.Keys
    ensures r.None? <==> s == {}
    ensures r.Some? ==> r.value in s
  {
    var wanted, other := Class(est, s, noEstimate), Class(est, s, !noEstimate);
    assert s == wanted + other;
    if wanted != {} then Some(First(m, est, wanted))
    else if other != {} then Some(First(m, est, other))
    else None
  }

  /** The row that is picked: of the requested class if there is one, and of its class the one with the
      highest fee rate, or without estimates the highest fee; of several such, the first. */
  lemma PickIsBest(m: Mempool, est: Estimates, s: set<Txid>, noEstimate: bool)
    requires s <= m.Keys && s != {}
    ensures var t := Pick(m, est, s, noEstimate).value;
            && ((exists u :: u in s && (u in est && est[u].Some?) != noEstimate) ==> (t in est && est[t].Some?) != noEstimate)
            && (t in est && est[t].Some? ==> forall u :: u in s && u in est && est[u].Some? ==>
                  est[u].value < est[t].value || (est[u].value == est[t].value && t <= u))
            && (!(t in est && est[t].Some?) ==> forall u :: u in s && !(u in est && est[u].Some?) ==>
                  m[u].fee < m[t].fee || (m[u].fee == m[t].fee && t <= u))
  {
    var t := Pick(m, est, s, noEstimate).value;
    if u :| u in s && (u in est && est[u].Some?) != noEstimate {
      assert u in Class(est, s, noEstimate);
    }
    forall u | u in s && HasEstimate(est, u) == HasEstimate(est, t)
      ensures u == t || Precedes(m, est, t, u)
    {
      assert u in Class(est, s, !HasEstimate(est, t));
    }
  }

  /** A draw below the percentage asks for a row without an estimate. */
  lemma SampleIsByPercentage<C>(env: Env<C>, k: nat)
    ensures env.noEstimatePercent == 0 ==> !env.Sample(k)
    ensures env.draw(k) < 100 && env.noEstimatePercent >= 100 ==> env.Sample(k)
    ensures env.noEstimatePercent == env.draw(k) + 1 ==> env.Sample(k)
    ensures env.noEstimatePercent == env.draw(k) ==> !env.Sample(k)
  {
  }

  /** Shrinking the table to a subset that keeps the picked row does not change the pick. */
  lemma PickOfSubset(m: Mempool, est: Estimates, small: set<Txid>, large: set<Txid>, noEstimate: bool)
    requires large <= m.Keys && small <= large
    requires Pick(m, est, large, noEstimate).Some?
    requires Pick(m, est, large, noEstimate).value in small
    ensures Pick(m, est, small, noEstimate) == Pick(m, est, large, noEstimate)
  {
    var t := Pick(m, est, large, noEstimate).value;
    if Class(est, large, noEstimate) != {} {
      assert t in Class(est, small, noEstimate);
      FirstOfSubset(m, est, Class(est, small, noEstimate), Class(est, large, noEstimate));
    } else {
      assert Class(est, small, noEstimate) <= Class(est, large, noEstimate);
      assert t in Class(est, small, !noEstimate);
      FirstOfSubset(m, est, Class(est, small, !noEstimate), Class(est, large, !noEstimate));
    }
  }

  // ---------- The eager scheduler ----------

  type Nonces = map<Address, nat>

  function Addresses(m: Mempool): set<Address> {
    (set t | t in m :: m[t].origin.address) + (set t | t in m :: m[t].Sponsor().address)
  }

  predicate IsReady(tx: Tx, nonces: Nonces) {
    && tx.origin.address in nonces && nonces[tx.origin.address] == tx.origin.nonce
    && tx.Sponsor().address in nonces && nonces[tx.Sponsor().address] == tx.Sponsor().nonce
  }

  function Ready(m: Mempool, nonces: Nonces): set<Txid> {
    set t | t in m && IsReady(m[t], nonces)
  }

  function BumpNonce(nonces: Nonces, a: Address): Nonces
    requires a in nonces
  {
    nonces[a := nonces[a] + 1]
  }

  /** The nonces after a transaction has been considered: the origin moves on, and so does a sponsor. */
  function BumpNonces(nonces: Nonces, tx: Tx): Nonces
    requires tx.origin.address in nonces && tx.Sponsor().address in nonces
  {
    var n := BumpNonce(nonces, tx.origin.address);
    if tx.sponsorship.Some? then BumpNonce(n, tx.Sponsor().address) else n
  }

  /** What the caller's closure answers for one transaction. */
  datatype Verdict<+C> = Continue(chain: C) | Stop(chain: C) | Error

  /** Everything the walk takes from outside: the chain state it reads account nonces from, the
      closure it calls, the random draws and the percentage they are compared with. */
  datatype Env<!C> = Env(nonceOf: (C, Address) -> nat, todo: (C, Txid, bool) -> Verdict<C>, draw: nat -> nat, noEstimatePercent: nat) {
    function Sample(k: nat): bool {
      draw(k) < noEstimatePercent
    }
  }

  /** The closure changes no account nonce except those of the transaction it is given. */
  ghost predicate TouchesOnlyItsAccounts<C(!new)>(m: Mempool, env: Env<C>) {
    forall c: C, t: Txid, b: bool, a: Address ::
      t in m && env.todo(c, t, b).Continue? && a != m[t].origin.address && a != m[t].Sponsor().address ==>
        env.nonceOf(env.todo(c, t, b).chain, a) == env.nonceOf(c, a)
  }

  /** The transactions that still have a chance: no known nonce of the origin has moved past them. */
  function Alive(m: Mempool, cached: set<Address>, nonces: Nonces): set<Txid>
    requires cached <= nonces.Keys
  {
    set t | t in m && !(m[t].origin.address in cached && m[t].origin.nonce < nonces[m[t].origin.address])
  }

  lemma ConsideredDies(m: Mempool, cached: set<Address>, nonces: Nonces, t: Txid)
    requires cached <= nonces.Keys
    requires t in Ready(m, nonces) && m[t].origin.address in cached
    ensures Alive(m, cached, BumpNonces(nonces, m[t])) <= Alive(m, cached, nonces) - {t}
    ensures |Alive(m, cached, BumpNonces(nonces, m[t]))| < |Alive(m, cached, nonces)|
  {
    var after := Alive(m, cached, BumpNonces(nonces, m[t]));
    assert t in Alive(m, cached, nonces) && t !in after;
    SubsetSize(after, Alive(m, cached, nonces) - {t});
  }

  /** The simple scheduler: all account nonces are known; the best ready transaction is
      considered, its accounts move on, and so forth until nothing is ready or the closure says stop. */
  ghost function Schedule<C>(m: Mempool, est: Estimates, env: Env<C>, nonces: Nonces, chain: C, k: nat): seq<Txid>
    decreases |Alive(m, nonces.Keys, nonces)|
  {
    var next := Pick(m, est, Ready(m, nonces), env.Sample(k));
    if next.None? then []
    else
      var t := next.value;
      match env.todo(chain, t, !HasEstimate(est, t))
      case Continue(chain') =>
        ConsideredDies(m, nonces.Keys, nonces, t);
        assert BumpNonces(nonces, m[t]).Keys == nonces.Keys;
        [t] + Schedule(m, est, env, BumpNonces(nonces, m[t]), chain', k + 1)
      case _ => [t]
  }

  // ---------- The nonce cache ----------

  /** The cache columns when exactly the addresses in `cached` have been looked up: every cell
      of a cached address holds that address's nonce, every other cell is NULL. */
  function Cells(m: Mempool, cached: set<Address>, nonces: Nonces): (r: map<Txid, Known>)
    requires cached <= nonces.Keys
    ensures r.Keys == m.Keys
  {
    map t | t in m :: Known(
      if m[t].origin.address in cached then Some(nonces[m[t].origin.address]) else None,
      if m[t].Sponsor().address in cached then Some(nonces[m[t].Sponsor().address]) else None)
  }

  /** UPDATE mempool SET last_known_origin_nonce = n WHERE origin_address = a. */
  function SetOriginCells(m: Mempool, known: map<Txid, Known>, a: Address, n: nat): map<Txid, Known>
    requires known.Keys == m.Keys
  {
    map t | t in known :: if m[t].origin.address == a then known[t].(origin := Some(n)) else known[t]
  }

  function SetSponsorCells(m: Mempool, known: map<Txid, Known>, a: Address, n: nat): map<Txid, Known>
    requires known.Keys == m.Keys
  {
    map t | t in known :: if m[t].Sponsor().address == a then known[t].(sponsor := Some(n)) else known[t]
  }

  /** UPDATE ... SET last_known_origin_nonce = last_known_origin_nonce + 1 WHERE ... IS NOT NULL. */
  function BumpOriginCells(m: Mempool, known: map<Txid, Known>, a: Address): map<Txid, Known>
    requires known.Keys == m.Keys
  {
    map t | t in known ::
      if m[t].origin.address == a && known[t].origin.Some? then known[t].(origin := Some(known[t].origin.value + 1)) else known[t]
  }

  function BumpSponsorCells(m: Mempool, known: map<Txid, Known>, a: Address): map<Txid, Known>
    requires known.Keys == m.Keys
  {
    map t | t in known ::
      if m[t].Sponsor().address == a && known[t].sponsor.Some? then known[t].(sponsor := Some(known[t].sponsor.value + 1)) else known[t]
  }

  lemma LookupKeepsCoherence(m: Mempool, cached: set<Address>, nonces: Nonces, a: Address, n: nat)
    requires cached <= nonces.Keys
    ensures SetSponsorCells(m, SetOriginCells(m, Cells(m, cached, nonces), a, n), a, n)
         == Cells(m, cached + {a}, nonces[a := n])
  {
  }

  lemma BumpKeepsCoherence(m: Mempool, cached: set<Address>, nonces: Nonces, a: Address)
    requires cached <= nonces.Keys && a in cached
    ensures BumpSponsorCells(m, BumpOriginCells(m, Cells(m, cached, nonces), a), a)
         == Cells(m, cached, BumpNonce(nonces, a))
  {
    var cells, after := Cells(m, cached, nonces), Cells(m, cached, BumpNonce(nonces, a));
    var bumped := BumpSponsorCells(m, BumpOriginCells(m, cells, a), a);
    forall t | t in m
      ensures bumped[t] == after[t]
    {
      hide Cells;
      BumpedCell(m, cached, nonces, a, t);
    }
  }

  lemma BumpedCell(m: Mempool, cached: set<Address>, nonces: Nonces, a: Address, t: Txid)
    requires cached <= nonces.Keys && a in cached && t in m
    ensures BumpSponsorCells(m, BumpOriginCells(m, Cells(m, cached, nonces), a), a)[t]
         == Cells(m, cached, BumpNonce(nonces, a))[t]
  {
    var o := BumpOriginCells(m, Cells(m, cached, nonces), a)[t];
    assert o.origin == Cells(m, cached, BumpNonce(nonces, a))[t].origin;
    assert o.sponsor == Cells(m, cached, nonces)[t].sponsor;
  }

  /** The WHERE clause of the two selection queries. */
  predicate IsEligible(tx: Tx, known: Known) {
    || (known.origin == Some(tx.origin.nonce) && known.sponsor == Some(tx.Sponsor().nonce))
    || known.origin.None?
    || known.sponsor.None?
  }

  function Eligible(m: Mempool, known: map<Txid, Known>): (r: set<Txid>)
    requires known.Keys == m.Keys
    ensures r <= m.Keys
  {
    set t | t in m && IsEligible(m[t], known[t])
  }

  /** The addresses whose nonce is missing from a row's cache columns. */
  function EmptyCells(tx: Tx, known: Known): seq<Address> {
    (if known.origin.None? then [tx.origin.address] else [])
    + (if known.sponsor.None? then [tx.Sponsor().address] else [])
  }

  lemma EmptyCellsAreUncached(m: Mempool, cached: set<Address>, nonces: Nonces, t: Txid)
    requires cached <= nonces.Keys && t in m
    ensures forall a :: a in EmptyCells(m[t], Cells(m, cached, nonces)[t]) ==> a in Addresses(m) && a !in cached
  {
  }

  /** When the lazily picked row has both cells filled in, the eager scheduler would pick the same row. */
  lemma LazyPickIsEagerPick(m: Mempool, est: Estimates, cached: set<Address>, nonces: Nonces, noEstimate: bool)
    requires cached <= nonces.Keys && Addresses(m) <= nonces.Keys
    ensures var known := Cells(m, cached, nonces);
            var lazy := Pick(m, est, Eligible(m, known), noEstimate);
            && (lazy.None? ==> Ready(m, nonces) == {})
            && (lazy.Some? && known[lazy.value].origin.Some? && known[lazy.value].sponsor.Some? ==>
                  && lazy.value in Ready(m, nonces) && Pick(m, est, Ready(m, nonces), noEstimate) == lazy
                  && m[lazy.value].origin.address in cached && m[lazy.value].Sponsor().address in cached)
  {
    var known := Cells(m, cached, nonces);
    assert Ready(m, nonces) <= Eligible(m, known);
    var lazy := Pick(m, est, Eligible(m, known), noEstimate);
    if lazy.Some? && known[lazy.value].origin.Some? && known[lazy.value].sponsor.Some? {
      assert lazy.value in Ready(m, nonces);
      PickOfSubset(m, est, Ready(m, nonces), Eligible(m, known), noEstimate);
    }
  }

  // ---------- Nonces consumed by one account ----------

  /** The nonces of account a that a considered transaction uses up. */
  function Uses(tx: Tx, a: Address): seq<nat> {
    (if tx.origin.address == a then [tx.origin.nonce] else [])
    + (if tx.sponsorship.Some? && tx.Sponsor().address == a then [tx.Sponsor().nonce] else [])
  }

  ghost function Consumed(m: Mempool, considered: seq<Txid>, a: Address): seq<nat>
    requires forall t :: t in considered ==> t in m
  {
    if considered == [] then []
    else Consumed(m, considered[..|considered| - 1], a) + Uses(m[considered[|considered| - 1]], a)
  }

  ghost predicate Consecutive(s: seq<nat>) {
    forall i, j :: 0 <= i < j < |s| && j == i + 1 ==> s[j] == s[i] + 1
  }

  predicate SponsorsItself(tx: Tx) {
    tx.sponsorship.Some? && tx.Sponsor().address == tx.origin.address
  }

  predicate HasSelfSponsored(m: Mempool, considered: seq<Txid>, a: Address)
    requires forall t :: t in considered ==> t in m
  {
    exists t :: t in considered && SponsorsItself(m[t]) && m[t].origin.address == a
  }

  /** A row that uses the same nonce of account a twice: as its origin and as its sponsor. */
  predicate Doubles(tx: Tx, a: Address) {
    SponsorsItself(tx) && tx.origin.address == a && tx.origin.nonce == tx.Sponsor().nonce
  }

  predicate HasDouble(m: Mempool, a: Address) {
    exists t :: t in m && Doubles(m[t], a)
  }

  /** The history of one account during a walk: gap-free and in step with its nonce, unless a
      transaction of that account sponsored itself and moved the nonce on twice. */
  ghost predicate InStep(m: Mempool, considered: seq<Txid>, nonces: Nonces, cached: set<Address>, a: Address)
    requires forall t :: t in considered ==> t in m
  {
    var used := Consumed(m, considered, a);
    if HasSelfSponsored(m, considered, a) then !Consecutive(used)
    else Consecutive(used) && (used != [] ==> a in cached && a in nonces && used[|used| - 1] + 1 == nonces[a])
  }

  lemma ConsumedAppend(m: Mempool, considered: seq<Txid>, t: Txid, a: Address)
    requires forall u :: u in considered ==> u in m
    requires t in m
    ensures Consumed(m, considered + [t], a) == Consumed(m, considered, a) + Uses(m[t], a)
  {
    var s := considered + [t];
    assert s[..|s| - 1] == considered;
  }

  lemma BrokenStaysBroken(s: seq<nat>, more: seq<nat>)
    requires !Consecutive(s)
    ensures !Consecutive(s + more)
  {
    var i, j :| 0 <= i < j < |s| && j == i + 1 && s[j] != s[i] + 1;
    assert (s + more)[i] == s[i] && (s + more)[j] == s[j];
  }

  /** A ready transaction that does not sponsor itself uses the account's current nonce once, or not at all. */
  lemma UsesCurrentNonce(tx: Tx, nonces: Nonces, a: Address)
    requires IsReady(tx, nonces) && !(SponsorsItself(tx) && tx.origin.address == a)
    ensures Uses(tx, a) == [] ==> BumpNonces(nonces, tx).Keys == nonces.Keys && (a in nonces ==> BumpNonces(nonces, tx)[a] == nonces[a])
    ensures Uses(tx, a) != [] ==> a in nonces && Uses(tx, a) == [nonces[a]]
    ensures Uses(tx, a) != [] ==> a in BumpNonces(nonces, tx) && BumpNonces(nonces, tx)[a] == nonces[a] + 1
    ensures Uses(tx, a) != [] ==> a == tx.origin.address || a == tx.Sponsor().address
  {
  }

  lemma ConsecutiveAppend(s: seq<nat>, n: nat)
    requires Consecutive(s) && (s != [] ==> s[|s| - 1] + 1 == n)
    ensures Consecutive(s + [n])
  {
  }

  lemma ConsiderKeepsInStep(m: Mempool, considered: seq<Txid>, nonces: Nonces, cached: set<Address>, a: Address, t: Txid)
    requires forall u :: u in considered ==> u in m
    requires InStep(m, considered, nonces, cached, a)
    requires t in Ready(m, nonces) && m[t].origin.address in cached && m[t].Sponsor().address in cached
    ensures InStep(m, considered + [t], BumpNonces(nonces, m[t]), cached, a)
  {
    hide BumpNonces, Consumed, Uses, Consecutive;
    var before, more := Consumed(m, considered, a), Uses(m[t], a);
    ConsumedAppend(m, considered, t, a);
    if HasSelfSponsored(m, considered, a) {
      var u :| u in considered && SponsorsItself(m[u]) && m[u].origin.address == a;
      assert u in considered + [t];
      BrokenStaysBroken(before, more);
    } else if SponsorsItself(m[t]) && m[t].origin.address == a {
      assert t in considered + [t];
      TwiceIsBroken(before, m[t], a);
    } else {
      UsesCurrentNonce(m[t], nonces, a);
      assert !HasSelfSponsored(m, considered + [t], a);
      if more == [] {
        assert before + more == before;
      } else {
        ConsecutiveAppend(before, nonces[a]);
      }
    }
  }

  lemma TwiceIsBroken(s: seq<nat>, tx: Tx, a: Address)
    requires SponsorsItself(tx) && tx.origin.address == a && tx.origin.nonce == tx.Sponsor().nonce
    ensures !Consecutive(s + Uses(tx, a))
  {
    var all := s + Uses(tx, a);
    assert all[|s|] == tx.origin.nonce && all[|s| + 1] == tx.origin.nonce;
  }

  // ---------- The invariant of the walk ----------

  /** A moment of the walk: which addresses have been looked up, their nonces (for the others, the
      nonce the chain would report), the chain state, and what has been considered so far. */
  datatype Moment<C> = Moment(cached: set<Address>, nonces: Nonces, chain: C, considered: seq<Txid>)

  ghost predicate Covers<C>(m: Mempool, w: Moment<C>) {
    w.cached <= w.nonces.Keys && Addresses(m) <= w.nonces.Keys
  }

  ghost predicate NoRepeats(s: seq<Txid>) {
    forall i, j :: 0 <= i < j < |s| ==> s[i] != s[j]
  }

  /** Safety, whatever the closure does to the chain. */
  ghost predicate Safe<C>(m: Mempool, w: Moment<C>) {
    && Covers(m, w)
    && (forall t :: t in w.considered ==> t in m && t !in Alive(m, w.cached, w.nonces))
    && (forall t :: t in w.considered && SponsorsItself(m[t]) ==> Doubles(m[t], m[t].origin.address))
    && NoRepeats(w.considered)
    && (forall a :: InStep(m, w.considered, w.nonces, w.cached, a))
  }

  /** The closure applies every transaction it lets the walk go on from: the nonces of its origin and
      of its sponsor move on by one, also if they are the same account, and no others do. */
  ghost predicate Applies<C(!new)>(m: Mempool, env: Env<C>) {
    forall c: C, t: Txid, b: bool, a: Address ::
      t in m && env.todo(c, t, b).Continue? ==>
        env.nonceOf(env.todo(c, t, b).chain, a)
        == env.nonceOf(c, a) + if a == m[t].origin.address || a == m[t].Sponsor().address then 1 else 0
  }

  /** How many of the considered transactions moved the cached nonce of account a on twice. */
  function TwiceMoved(m: Mempool, considered: seq<Txid>, a: Address): nat
    requires forall t :: t in considered ==> t in m
  {
    if considered == [] then 0
    else
      var last := m[considered[|considered| - 1]];
      TwiceMoved(m, considered[..|considered| - 1], a) + if SponsorsItself(last) && last.origin.address == a then 1 else 0
  }

  lemma {:induction false} TwiceMovedOnlyByDoubles(m: Mempool, considered: seq<Txid>, a: Address)
    requires forall t :: t in considered ==> t in m
    ensures TwiceMoved(m, considered, a) == 0 <==> !HasSelfSponsored(m, considered, a)
  {
    if considered != [] {
      var n := |considered| - 1;
      TwiceMovedOnlyByDoubles(m, considered[..n], a);
      assert considered == considered[..n] + [considered[n]];
    }
  }

  /** Where the cache stands: ahead of the chain by one for every transaction that moved it twice. */
  ghost predicate Reflects<C>(m: Mempool, env: Env<C>, w: Moment<C>) {
    && Covers(m, w) && (forall t :: t in w.considered ==> t in m)
    && (forall a :: a in w.cached ==> w.nonces[a] == env.nonceOf(w.chain, a) + TwiceMoved(m, w.considered, a))
    && (forall t :: t in w.considered ==> m[t].origin.address in w.cached)
  }

  /** The cached nonce of an account is the chain's exactly if no considered transaction of it sponsored itself. */
  lemma CacheIsExact<C>(m: Mempool, env: Env<C>, w: Moment<C>, a: Address)
    requires Reflects(m, env, w) && a in w.cached
    ensures w.nonces[a] == env.nonceOf(w.chain, a) <==> !HasSelfSponsored(m, w.considered, a)
  {
    TwiceMovedOnlyByDoubles(m, w.considered, a);
  }

  lemma LookupReflects<C>(m: Mempool, env: Env<C>, w: Moment<C>, a: Address)
    requires Reflects(m, env, w) && a !in w.cached
    ensures Reflects(m, env, AfterLookup(env, w, a))
  {
    TwiceMovedOnlyByDoubles(m, w.considered, a);
  }

  lemma BumpedBy(nonces: Nonces, tx: Tx, a: Address)
    requires tx.origin.address in nonces && tx.Sponsor().address in nonces && a in nonces
    ensures a in BumpNonces(nonces, tx)
    ensures BumpNonces(nonces, tx)[a] == nonces[a] + (if a == tx.origin.address || a == tx.Sponsor().address then 1 else 0)
            + (if SponsorsItself(tx) && tx.origin.address == a then 1 else 0)
  {
  }

  lemma TwiceMovedAppend(m: Mempool, considered: seq<Txid>, t: Txid, a: Address)
    requires t in m && forall u :: u in considered ==> u in m
    ensures TwiceMoved(m, considered + [t], a)
            == TwiceMoved(m, considered, a) + if SponsorsItself(m[t]) && m[t].origin.address == a then 1 else 0
  {
    assert (considered + [t])[..|considered|] == considered;
  }

  lemma AppliedBy<C(!new)>(m: Mempool, env: Env<C>, chain: C, t: Txid, b: bool, a: Address)
    requires Applies(m, env) && t in m && env.todo(chain, t, b).Continue?
    ensures env.nonceOf(env.todo(chain, t, b).chain, a)
            == env.nonceOf(chain, a) + if a == m[t].origin.address || a == m[t].Sponsor().address then 1 else 0
  {
  }

  lemma ConsiderReflects<C(!new)>(m: Mempool, env: Env<C>, w: Moment<C>, t: Txid, b: bool)
    requires Reflects(m, env, w) && Applies(m, env)
    requires t in Ready(m, w.nonces) && m[t].origin.address in w.cached && m[t].Sponsor().address in w.cached
    requires env.todo(w.chain, t, b).Continue?
    ensures var v := AfterConsider(m, w, t, env.todo(w.chain, t, b).chain);
            Reflects(m, env, v)
  {
    hide Addresses, TwiceMoved, Applies;
    var v := AfterConsider(m, w, t, env.todo(w.chain, t, b).chain);
    assert v.nonces.Keys == w.nonces.Keys;
    forall a | a in v.cached
      ensures v.nonces[a] == env.nonceOf(v.chain, a) + TwiceMoved(m, v.considered, a)
    {
      hide TwiceMoved, BumpNonces, Applies, Ready;
      BumpedBy(w.nonces, m[t], a);
      TwiceMovedAppend(m, w.considered, t, a);
      AppliedBy(m, env, w.chain, t, b, a);
    }
  }

  /** Every address looked up and every transaction considered uses up one of the allowed rounds. */
  ghost function RoundsLeft<C>(m: Mempool, w: Moment<C>): nat
    requires Covers(m, w)
  {
    |Addresses(m) - w.cached| + |Alive(m, w.cached, w.nonces)|
  }

  /** Refinement, for a well-behaved closure: what remains of the eager schedule is the eager
      schedule from here. */
  ghost predicate OnSchedule<C>(m: Mempool, est: Estimates, env: Env<C>, full: seq<Txid>, w: Moment<C>)
    requires Covers(m, w)
  {
    && (forall a :: a in Addresses(m) && a !in w.cached ==> w.nonces[a] == env.nonceOf(w.chain, a))
    && full == w.considered + Schedule(m, est, env, w.nonces, w.chain, |w.considered|)
  }

  ghost function AfterLookup<C>(env: Env<C>, w: Moment<C>, a: Address): Moment<C> {
    w.(cached := w.cached + {a}, nonces := w.nonces[a := env.nonceOf(w.chain, a)])
  }

  lemma LookupIsSafe<C>(m: Mempool, env: Env<C>, w: Moment<C>, a: Address)
    requires Safe(m, w) && a in Addresses(m) && a !in w.cached
    ensures Safe(m, AfterLookup(env, w, a))
    ensures RoundsLeft(m, AfterLookup(env, w, a)) < RoundsLeft(m, w)
  {
    var v := AfterLookup(env, w, a);
    assert Addresses(m) - v.cached == (Addresses(m) - w.cached) - {a};
    assert Alive(m, v.cached, v.nonces) <= Alive(m, w.cached, w.nonces);
    SubsetSize(Alive(m, v.cached, v.nonces), Alive(m, w.cached, w.nonces));
    forall b
      ensures InStep(m, v.considered, v.nonces, v.cached, b)
    {
      assert InStep(m, w.considered, w.nonces, w.cached, b);
    }
  }

  lemma LookupStaysOnSchedule<C>(m: Mempool, est: Estimates, env: Env<C>, full: seq<Txid>, w: Moment<C>, a: Address)
    requires Covers(m, w) && OnSchedule(m, est, env, full, w) && a in Addresses(m) && a !in w.cached
    ensures OnSchedule(m, est, env, full, AfterLookup(env, w, a))
  {
    assert AfterLookup(env, w, a).nonces == w.nonces;
  }

  lemma LookupStep<C>(m: Mempool, est: Estimates, env: Env<C>, full: seq<Txid>, w: Moment<C>, a: Address)
    requires Safe(m, w) && a in Addresses(m) && a !in w.cached
    ensures Safe(m, AfterLookup(env, w, a))
    ensures RoundsLeft(m, AfterLookup(env, w, a)) < RoundsLeft(m, w)
    ensures OnSchedule(m, est, env, full, w) ==> OnSchedule(m, est, env, full, AfterLookup(env, w, a))
  {
    LookupIsSafe(m, env, w, a);
    if OnSchedule(m, est, env, full, w) {
      LookupStaysOnSchedule(m, est, env, full, w, a);
    }
  }

  ghost function AfterConsider<C>(m: Mempool, w: Moment<C>, t: Txid, chain: C): Moment<C>
    requires t in Ready(m, w.nonces)
  {
    Moment(w.cached, BumpNonces(w.nonces, m[t]), chain, w.considered + [t])
  }

  lemma ConsiderIsSafe<C>(m: Mempool, w: Moment<C>, t: Txid, chain: C)
    requires Safe(m, w)
    requires t in Ready(m, w.nonces) && m[t].origin.address in w.cached && m[t].Sponsor().address in w.cached
    ensures Safe(m, AfterConsider(m, w, t, chain))
    ensures RoundsLeft(m, AfterConsider(m, w, t, chain)) < RoundsLeft(m, w)
  {
    var v := AfterConsider(m, w, t, chain);
    assert v.nonces.Keys == w.nonces.Keys;
    ConsideredDies(m, w.cached, w.nonces, t);
    assert t in Alive(m, w.cached, w.nonces);
    forall b
      ensures InStep(m, v.considered, v.nonces, v.cached, b)
    {
      ConsiderKeepsInStep(m, w.considered, w.nonces, w.cached, b, t);
    }
  }

  lemma ScheduleUnfolds<C>(m: Mempool, est: Estimates, env: Env<C>, nonces: Nonces, chain: C, k: nat, t: Txid)
    requires t in Ready(m, nonces) && Pick(m, est, Ready(m, nonces), env.Sample(k)) == Some(t)
    ensures var verdict := env.todo(chain, t, !HasEstimate(est, t));
            Schedule(m, est, env, nonces, chain, k)
            == [t] + (if verdict.Continue? then Schedule(m, est, env, BumpNonces(nonces, m[t]), verdict.chain, k + 1) else [])
  {
  }

  /** The chain still agrees with the eager nonces of every address that has not been looked up. */
  lemma UncachedUntouched<C(!new)>(m: Mempool, env: Env<C>, w: Moment<C>, t: Txid, b: bool)
    requires Covers(m, w) && TouchesOnlyItsAccounts(m, env)
    requires forall a :: a in Addresses(m) && a !in w.cached ==> w.nonces[a] == env.nonceOf(w.chain, a)
    requires t in Ready(m, w.nonces) && m[t].origin.address in w.cached && m[t].Sponsor().address in w.cached
    requires env.todo(w.chain, t, b).Continue?
    ensures var v := AfterConsider(m, w, t, env.todo(w.chain, t, b).chain);
            forall a :: a in Addresses(m) && a !in w.cached ==> a in v.nonces && v.nonces[a] == env.nonceOf(v.chain, a)
  {
    var v := AfterConsider(m, w, t, env.todo(w.chain, t, b).chain);
    forall a | a in Addresses(m) && a !in w.cached
      ensures a in v.nonces && v.nonces[a] == env.nonceOf(v.chain, a)
    {
      assert env.nonceOf(env.todo(w.chain, t, b).chain, a) == env.nonceOf(w.chain, a);
    }
  }

  lemma ConsiderStaysOnSchedule<C(!new)>(m: Mempool, est: Estimates, env: Env<C>, full: seq<Txid>, w: Moment<C>, t: Txid)
    requires Covers(m, w) && OnSchedule(m, est, env, full, w) && TouchesOnlyItsAccounts(m, env)
    requires t in Ready(m, w.nonces) && m[t].origin.address in w.cached && m[t].Sponsor().address in w.cached
    requires Pick(m, est, Ready(m, w.nonces), env.Sample(|w.considered|)) == Some(t)
    ensures var verdict := env.todo(w.chain, t, !HasEstimate(est, t));
            if verdict.Continue?
            then Covers(m, AfterConsider(m, w, t, verdict.chain)) && OnSchedule(m, est, env, full, AfterConsider(m, w, t, verdict.chain))
            else full == w.considered + [t]
  {
    hide TouchesOnlyItsAccounts, Pick, Schedule, HasEstimate, Addresses;
    var verdict := env.todo(w.chain, t, !HasEstimate(est, t));
    ScheduleUnfolds(m, est, env, w.nonces, w.chain, |w.considered|, t);
    if verdict.Continue? {
      UncachedUntouched(m, env, w, t, !HasEstimate(est, t));
      var rest := Schedule(m, est, env, BumpNonces(w.nonces, m[t]), verdict.chain, |w.considered| + 1);
      assert w.considered + ([t] + rest) == (w.considered + [t]) + rest;
    }
  }

  /** The invariant of a walk that started at w0. */
  ghost predicate Walking<C(!new)>(m: Mempool, est: Estimates, env: Env<C>, w0: Moment<C>, w: Moment<C>, rounds: nat) {
    && Covers(m, w0) && Safe(m, w)
    && rounds + RoundsLeft(m, w) <= |Addresses(m)| + |m|
    && (WellBehaved(m, env, w0) ==> OnSchedule(m, est, env, Schedule(m, est, env, w0.nonces, w0.chain, 0), w))
    && (Applies(m, env) && w0.cached == {} ==> Reflects(m, env, w))
  }

  /** The closure is well behaved and the eager scheduler starts from the nonces the walk will find. */
  ghost predicate WellBehaved<C(!new)>(m: Mempool, env: Env<C>, w0: Moment<C>)
    requires Covers(m, w0)
  {
    && TouchesOnlyItsAccounts(m, env)
    && forall a :: a in Addresses(m) && a !in w0.cached ==> w0.nonces[a] == env.nonceOf(w0.chain, a)
  }

  /** What the walk uses up: no transaction twice, and no gaps unless a transaction sponsors itself. */
  ghost predicate Tidy(m: Mempool, considered: seq<Txid>) {
    && (forall t :: t in considered ==> t in m)
    && NoRepeats(considered)
    && (forall a :: Consecutive(Consumed(m, considered, a)) <==> !HasSelfSponsored(m, considered, a))
    && (forall a :: !HasDouble(m, a) ==> !HasSelfSponsored(m, considered, a))
  }

  /** What the walk promises about the transactions it passed to the closure. `cut` says that
      the deadline, or an account nonce too large for the database, ended it early. */
  ghost predicate Promised<C(!new)>(m: Mempool, est: Estimates, env: Env<C>, w0: Moment<C>, considered: seq<Txid>, cut: bool, rounds: nat) {
    && Covers(m, w0)
    && Tidy(m, considered)
    && rounds <= |Addresses(m)| + |m| + 1
    && (WellBehaved(m, env, w0) ==>
          var full := Schedule(m, est, env, w0.nonces, w0.chain, 0);
          if cut then considered <= full else considered == full)
  }

  lemma StartIsSafe<C>(m: Mempool, w0: Moment<C>)
    requires Covers(m, w0) && w0.considered == []
    ensures Safe(m, w0)
  {
    forall a
      ensures InStep(m, w0.considered, w0.nonces, w0.cached, a)
    {
      hide Addresses;
      assert Consumed(m, w0.considered, a) == [] && !HasSelfSponsored(m, w0.considered, a);
    }
  }

  lemma StartReflects<C>(m: Mempool, env: Env<C>, w0: Moment<C>)
    requires Covers(m, w0) && w0.considered == [] && w0.cached == {}
    ensures Reflects(m, env, w0)
  {
    hide Addresses;
  }

  lemma StartRounds<C>(m: Mempool, w0: Moment<C>)
    requires Covers(m, w0)
    ensures RoundsLeft(m, w0) <= |Addresses(m)| + |m|
  {
    hide Addresses;
    SubsetSize(Addresses(m) - w0.cached, Addresses(m));
    SubsetSize(Alive(m, w0.cached, w0.nonces), m.Keys);
  }

  lemma StartOnSchedule<C(!new)>(m: Mempool, est: Estimates, env: Env<C>, w0: Moment<C>)
    requires Covers(m, w0) && w0.considered == [] && WellBehaved(m, env, w0)
    ensures OnSchedule(m, est, env, Schedule(m, est, env, w0.nonces, w0.chain, 0), w0)
  {
    hide Schedule, Addresses, TouchesOnlyItsAccounts;
    var full := Schedule(m, est, env, w0.nonces, w0.chain, 0);
    assert full == [] + full;
  }

  lemma WalkStarts<C(!new)>(m: Mempool, est: Estimates, env: Env<C>, w0: Moment<C>)
    requires Covers(m, w0) && w0.considered == []
    ensures Walking(m, est, env, w0, w0, 0)
  {
    hide Safe, Schedule, Addresses, WellBehaved, OnSchedule, RoundsLeft, Reflects, Applies;
    StartIsSafe(m, w0);
    StartRounds(m, w0);
    if w0.cached == {} {
      StartReflects(m, env, w0);
    }
    if WellBehaved(m, env, w0) {
      StartOnSchedule(m, est, env, w0);
    }
  }

  lemma SafeIsTidy<C>(m: Mempool, w: Moment<C>)
    requires Safe(m, w)
    ensures Tidy(m, w.considered)
  {
    hide Consecutive, Consumed, Addresses;
    forall a
      ensures Consecutive(Consumed(m, w.considered, a)) <==> !HasSelfSponsored(m, w.considered, a)
      ensures !HasDouble(m, a) ==> !HasSelfSponsored(m, w.considered, a)
    {
      assert InStep(m, w.considered, w.nonces, w.cached, a);
    }
  }

  lemma SafeCovers<C>(m: Mempool, w: Moment<C>)
    requires Safe(m, w)
    ensures Covers(m, w) && forall t :: t in w.considered ==> t in m
  {
  }

  lemma ScheduleIsOver<C>(m: Mempool, est: Estimates, env: Env<C>, full: seq<Txid>, w: Moment<C>)
    requires Covers(m, w) && OnSchedule(m, est, env, full, w)
    ensures w.considered <= full && (Ready(m, w.nonces) == {} ==> w.considered == full)
  {
    hide Addresses;
  }

  /** Ending the walk between two rounds. */
  lemma WalkEnds<C(!new)>(m: Mempool, est: Estimates, env: Env<C>, w0: Moment<C>, w: Moment<C>, rounds: nat, cut: bool)
    requires Walking(m, est, env, w0, w, rounds)
    requires !cut ==> Ready(m, w.nonces) == {}
    ensures Promised(m, est, env, w0, w.considered, cut, rounds + 1)
  {
    hide Safe, Tidy, WellBehaved, OnSchedule, Reflects, Applies, Schedule, Addresses, Ready;
    SafeIsTidy(m, w);
    SafeCovers(m, w);
    if WellBehaved(m, env, w0) {
      ScheduleIsOver(m, est, env, Schedule(m, est, env, w0.nonces, w0.chain, 0), w);
    }
  }

  /** Ending the walk because the closure said so. */
  lemma WalkStopped<C(!new)>(m: Mempool, est: Estimates, env: Env<C>, w0: Moment<C>, w: Moment<C>, rounds: nat, t: Txid)
    requires Walking(m, est, env, w0, w, rounds)
    requires t in Ready(m, w.nonces) && m[t].origin.address in w.cached && m[t].Sponsor().address in w.cached
    requires Pick(m, est, Ready(m, w.nonces), env.Sample(|w.considered|)) == Some(t)
    requires !env.todo(w.chain, t, !HasEstimate(est, t)).Continue?
    ensures Promised(m, est, env, w0, w.considered + [t], false, rounds + 1)
  {
    hide Safe, Tidy, TouchesOnlyItsAccounts, OnSchedule, Reflects, Applies, Schedule, Addresses, Pick, HasEstimate, RoundsLeft;
    ConsiderIsSafe(m, w, t, w.chain);
    SafeIsTidy(m, AfterConsider(m, w, t, w.chain));
    SafeCovers(m, w);
    if WellBehaved(m, env, w0) {
      ConsiderStaysOnSchedule(m, est, env, Schedule(m, est, env, w0.nonces, w0.chain, 0), w, t);
    }
  }

  lemma WalkContinues<C(!new)>(m: Mempool, est: Estimates, env: Env<C>, w0: Moment<C>, w: Moment<C>, rounds: nat, t: Txid)
    requires Walking(m, est, env, w0, w, rounds)
    requires t in Ready(m, w.nonces) && m[t].origin.address in w.cached && m[t].Sponsor().address in w.cached
    requires Pick(m, est, Ready(m, w.nonces), env.Sample(|w.considered|)) == Some(t)
    requires env.todo(w.chain, t, !HasEstimate(est, t)).Continue?
    ensures var v := AfterConsider(m, w, t, env.todo(w.chain, t, !HasEstimate(est, t)).chain);
            Walking(m, est, env, w0, v, rounds + 1) && RoundsLeft(m, v) < RoundsLeft(m, w)
  {
    hide Safe, TouchesOnlyItsAccounts, OnSchedule, Reflects, Applies, Schedule, Addresses, Pick, HasEstimate, RoundsLeft;
    var chain := env.todo(w.chain, t, !HasEstimate(est, t)).chain;
    ConsiderIsSafe(m, w, t, chain);
    SafeCovers(m, w);
    SafeCovers(m, AfterConsider(m, w, t, chain));
    if WellBehaved(m, env, w0) {
      ConsiderStaysOnSchedule(m, est, env, Schedule(m, est, env, w0.nonces, w0.chain, 0), w, t);
    }
    if Applies(m, env) && w0.cached == {} {
      ConsiderReflects(m, env, w, t, !HasEstimate(est, t));
    }
  }

  lemma WalkLooksUp<C(!new)>(m: Mempool, est: Estimates, env: Env<C>, w0: Moment<C>, w: Moment<C>, rounds: nat, a: Address)
    requires Walking(m, est, env, w0, w, rounds)
    requires a in Addresses(m) && a !in w.cached
    ensures var v := AfterLookup(env, w, a);
            Walking(m, est, env, w0, v, rounds + 1) && RoundsLeft(m, v) < RoundsLeft(m, w)
  {
    hide Safe, WellBehaved, OnSchedule, Reflects, Applies, Schedule, Addresses, RoundsLeft;
    SafeCovers(m, w);
    LookupStep(m, est, env, Schedule(m, est, env, w0.nonces, w0.chain, 0), w, a);
    SafeCovers(m, AfterLookup(env, w, a));
    if Applies(m, env) && w0.cached == {} {
      LookupReflects(m, env, w, a);
    }
  }

  /** At every moment of a walk from reset nonces, the cache is where the chain is, give or take
      the transactions that moved it twice. */
  lemma WalkReflects<C(!new)>(m: Mempool, est: Estimates, env: Env<C>, w0: Moment<C>, w: Moment<C>, rounds: nat)
    requires Walking(m, est, env, w0, w, rounds) && w0.cached == {}
    ensures Applies(m, env) ==> Reflects(m, env, w) && Current(m, env, Cells(m, w.cached, w.nonces), w.chain)
  {
    hide Safe, Reflects, Applies, Current, Schedule, Addresses;
    if Applies(m, env) {
      SafeIsTidy(m, w);
      SafeCovers(m, w);
      CellsAreCurrent(m, env, w);
    }
  }

  /** Every filled cell of an account without a doubling row holds the chain's nonce. */
  ghost predicate Current<C>(m: Mempool, env: Env<C>, known: map<Txid, Known>, chain: C) {
    forall t :: t in m && t in known ==>
      && (known[t].origin.Some? && !HasDouble(m, m[t].origin.address) ==>
            known[t].origin.value == env.nonceOf(chain, m[t].origin.address))
      && (known[t].sponsor.Some? && !HasDouble(m, m[t].Sponsor().address) ==>
            known[t].sponsor.value == env.nonceOf(chain, m[t].Sponsor().address))
  }

  lemma CellsAreCurrent<C>(m: Mempool, env: Env<C>, w: Moment<C>)
    requires Covers(m, w) && Reflects(m, env, w) && Tidy(m, w.considered)
    ensures Current(m, env, Cells(m, w.cached, w.nonces), w.chain)
  {
    hide Addresses, Consecutive, Consumed, HasSelfSponsored, HasDouble, Reflects;
    forall a | a in w.cached && !HasDouble(m, a)
      ensures w.nonces[a] == env.nonceOf(w.chain, a)
    {
      CacheIsExact(m, env, w, a);
    }
  }

  /** Why a walk ends. Only the clock, or a nonce that does not fit the column, cuts it short. */
  datatype Ending = OutOfTime | NonceTooLarge(address: Address) | NothingReady | Stopped(txid: Txid) | Failed(txid: Txid) {
    predicate Cut() { OutOfTime? || NonceTooLarge? }
  }

  /** How a walk ends that was last at moment w: there, or with one transaction more at which the
      closure stopped or failed. */
  ghost predicate EndsBy<C>(m: Mempool, est: Estimates, env: Env<C>, w: Moment<C>, considered: seq<Txid>, chain: C,
                            ending: Ending, ok: bool, late: bool) {
    match ending
    case OutOfTime => late && ok && considered == w.considered && chain == w.chain
    case NonceTooLarge(a) =>
      a in Addresses(m) && a !in w.cached && env.nonceOf(w.chain, a) > I64_MAX && !ok && considered == w.considered && chain == w.chain
    case NothingReady => Ready(m, w.nonces) == {} && ok && considered == w.considered && chain == w.chain
    case Stopped(t) =>
      var verdict := env.todo(w.chain, t, !HasEstimate(est, t));
      t in Ready(m, w.nonces) && verdict.Stop? && ok && considered == w.considered + [t] && chain == verdict.chain
    case Failed(t) =>
      t in Ready(m, w.nonces) && env.todo(w.chain, t, !HasEstimate(est, t)).Error? && !ok && considered == w.considered + [t] && chain == w.chain
  }

  /** A walk that was not called off by the clock did not end because of it. */
  lemma EndedInTime<C>(m: Mempool, est: Estimates, env: Env<C>, w: Moment<C>, considered: seq<Txid>, chain: C, ending: Ending, ok: bool)
    requires EndsBy(m, est, env, w, considered, chain, ending, ok, false)
    ensures !ending.OutOfTime?
  {
  }

  lemma FewerRounds<C(!new)>(m: Mempool, est: Estimates, env: Env<C>, w0: Moment<C>, w: Moment<C>, rounds: nat, fewer: nat)
    requires Walking(m, est, env, w0, w, rounds) && fewer <= rounds
    ensures Walking(m, est, env, w0, w, fewer)
  {
    hide Safe, WellBehaved, OnSchedule;
  }

  /** The account nonces the chain reports before the walk. */
  ghost function ChainNonces<C>(m: Mempool, env: Env<C>, chain: C): Nonces {
    map a | a in Addresses(m) :: env.nonceOf(chain, a)
  }

  /** From reset nonces, the moment the walk starts in. */
  ghost function Start<C>(m: Mempool, env: Env<C>, chain: C): Moment<C> {
    Moment({}, ChainNonces(m, env, chain), chain, [])
  }

  // ---------- Which mempools leave no gaps ----------

  /** The nonces of account a that a whole schedule uses up, starting from the chain's own. */
  ghost predicate GapFree<C>(m: Mempool, est: Estimates, env: Env<C>, chain: C, a: Address) {
    var s := Schedule(m, est, env, ChainNonces(m, env, chain), chain, 0);
    (forall t :: t in s ==> t in m) && Consecutive(Consumed(m, s, a))
  }

  /** From a safe moment with all nonces known, the rest of the schedule leaves no gaps either. */
  lemma {:induction false} ScheduleLeavesNoGaps<C>(m: Mempool, est: Estimates, env: Env<C>, w: Moment<C>, a: Address)
    requires Safe(m, w) && w.cached == w.nonces.Keys && !HasDouble(m, a)
    ensures var s := w.considered + Schedule(m, est, env, w.nonces, w.chain, |w.considered|);
            (forall t :: t in s ==> t in m) && Consecutive(Consumed(m, s, a))
    decreases |Alive(m, w.nonces.Keys, w.nonces)|
  {
    hide Safe, Consumed, Consecutive, Pick, Addresses, HasDouble, HasEstimate, Schedule, Alive, RoundsLeft;
    var rest := Schedule(m, est, env, w.nonces, w.chain, |w.considered|);
    var next := Pick(m, est, Ready(m, w.nonces), env.Sample(|w.considered|));
    if next.None? {
      assert rest == [] by { NothingReady(m, est, env, w.nonces, w.chain, |w.considered|); }
      assert w.considered + rest == w.considered;
      SafeCovers(m, w);
      SafeLeavesNoGaps(m, w, a);
    } else {
      var t := next.value;
      var verdict := env.todo(w.chain, t, !HasEstimate(est, t));
      var v := AfterConsider(m, w, t, if verdict.Continue? then verdict.chain else w.chain);
      ConsiderIsSafe(m, w, t, v.chain);
      ConsideredDies(m, w.nonces.Keys, w.nonces, t);
      assert v.nonces.Keys == w.nonces.Keys;
      ScheduleUnfolds(m, est, env, w.nonces, w.chain, |w.considered|, t);
      if verdict.Continue? {
        ScheduleLeavesNoGaps(m, est, env, v, a);
        assert w.considered + rest == v.considered + Schedule(m, est, env, v.nonces, v.chain, |v.considered|);
      } else {
        assert w.considered + rest == v.considered;
        SafeCovers(m, v);
        SafeLeavesNoGaps(m, v, a);
      }
    }
  }

  lemma NothingReady<C>(m: Mempool, est: Estimates, env: Env<C>, nonces: Nonces, chain: C, k: nat)
    requires Pick(m, est, Ready(m, nonces), env.Sample(k)).None?
    ensures Schedule(m, est, env, nonces, chain, k) == []
  {
  }

  lemma SafeLeavesNoGaps<C>(m: Mempool, w: Moment<C>, a: Address)
    requires Safe(m, w) && !HasDouble(m, a)
    ensures !HasSelfSponsored(m, w.considered, a) && Consecutive(Consumed(m, w.considered, a))
  {
    hide Consumed, Consecutive;
    assert InStep(m, w.considered, w.nonces, w.cached, a);
  }

  /** Whatever the chain and the closure, an account without a doubling row has no gaps. */
  lemma NoDoubleNoGaps<C>(m: Mempool, est: Estimates, env: Env<C>, chain: C, a: Address)
    requires !HasDouble(m, a)
    ensures GapFree(m, est, env, chain, a)
  {
    hide Schedule, Consumed, Consecutive, HasDouble;
    var w := Moment(Addresses(m), ChainNonces(m, env, chain), chain, []);
    StartIsSafe(m, w);
    ScheduleLeavesNoGaps(m, est, env, w, a);
    assert [] + Schedule(m, est, env, w.nonces, chain, 0) == Schedule(m, est, env, w.nonces, chain, 0);
  }

  /** A closure that stops at the first transaction, over a chain on which only account a has not
      moved past all of its transactions. */
  ghost function StopAtOnce(): Env<Nonces> {
    Env((c: Nonces, a: Address) => if a in c then c[a] else 0, (c: Nonces, t: Txid, b: bool) => Stop(c), (k: nat) => 0, 0)
  }

  lemma {:induction false} BeyondAll(m: Mempool) returns (big: nat)
    ensures forall t :: t in m ==> m[t].origin.nonce < big && m[t].Sponsor().nonce < big
    decreases |m|
  {
    if m == map[] {
      big := 0;
    } else {
      var t :| t in m;
      var rest := BeyondAll(m - {t});
      big := rest + m[t].origin.nonce + m[t].Sponsor().nonce + 1;
      forall u | u in m
        ensures m[u].origin.nonce < big && m[u].Sponsor().nonce < big
      {
        assert u != t ==> u in m - {t};
      }
    }
  }

  /** A doubling row is considered by some walk, and leaves a gap. */
  lemma DoubleLeavesGap(m: Mempool, est: Estimates, a: Address) returns (chain: Nonces)
    requires UniqueSlots(m) && HasDouble(m, a)
    ensures TouchesOnlyItsAccounts(m, StopAtOnce()) && !GapFree(m, est, StopAtOnce(), chain, a)
  {
    hide Schedule, Consumed, Consecutive, UniqueSlots, Addresses, Ready;
    var t :| t in m && Doubles(m[t], a);
    var big := BeyondAll(m);
    chain := map b | b in Addresses(m) :: if b == a then m[t].origin.nonce else big;
    OnlyReady(m, t, a, chain, big);
    SoleSchedule(m, est, chain, t, a);
  }

  lemma SoleSchedule(m: Mempool, est: Estimates, chain: Nonces, t: Txid, a: Address)
    requires chain.Keys == Addresses(m) && t in m && Ready(m, chain) == {t} && Doubles(m[t], a)
    ensures Schedule(m, est, StopAtOnce(), ChainNonces(m, StopAtOnce(), chain), chain, 0) == [t]
    ensures !Consecutive(Consumed(m, [t], a))
  {
    hide Addresses, Ready, Consecutive, Pick, HasEstimate;
    assert ChainNonces(m, StopAtOnce(), chain) == chain;
    ScheduleUnfolds(m, est, StopAtOnce(), chain, chain, 0, t);
    TwiceIsBroken([], m[t], a);
    ConsumedAppend(m, [], t, a);
    assert [] + [t] == [t];
  }

  lemma OnlyReady(m: Mempool, t: Txid, a: Address, nonces: Nonces, big: nat)
    requires UniqueSlots(m) && t in m && Doubles(m[t], a)
    requires forall u :: u in m ==> m[u].origin.nonce < big && m[u].Sponsor().nonce < big
    requires nonces.Keys == Addresses(m) && forall b :: b in nonces ==> nonces[b] == if b == a then m[t].origin.nonce else big
    ensures Ready(m, nonces) == {t}
  {
    assert a in Addresses(m);
    forall u | u in Ready(m, nonces)
      ensures u == t
    {
      assert m[u].origin == Slot(a, m[t].origin.nonce) == m[t].origin;
    }
    assert IsReady(m[t], nonces);
  }

  /** Every walk over the mempool leaves account a without gaps. */
  ghost predicate NeverGaps(m: Mempool, est: Estimates, a: Address) {
    forall env: Env<Nonces>, chain: Nonces :: TouchesOnlyItsAccounts(m, env) ==> GapFree(m, est, env, chain, a)
  }

  /** Exactly when it has no row that sponsors itself with its own nonce. */
  lemma NeverGapsExactly(m: Mempool, est: Estimates, a: Address)
    requires UniqueSlots(m)
    ensures NeverGaps(m, est, a) <==> !HasDouble(m, a)
  {
    hide GapFree, TouchesOnlyItsAccounts, HasDouble;
    if HasDouble(m, a) {
      var chain := DoubleLeavesGap(m, est, a);
    } else {
      forall env: Env<Nonces>, chain: Nonces
        ensures GapFree(m, est, env, chain, a)
      {
        NoDoubleNoGaps(m, est, env, chain, a);
      }
    }
  }

  /** A transaction that sponsors itself uses nonce 0 of its account twice. */
  lemma SelfSponsoredGap()
    ensures var m := map[7 := Tx(Slot(1, 0), Some(Slot(1, 0)), 5, 3, 0, [1])];
            Schedule(m, map[], StopAtOnce(), map[1 := 0], map[1 := 0], 0) == [7] && Consumed(m, [7], 1) == [0, 0]
  {
    var m := map[7 := Tx(Slot(1, 0), Some(Slot(1, 0)), 5, 3, 0, [1])];
    var nonces: Nonces := map[1 := 0];
    hide Schedule, Pick, Consecutive, HasEstimate;
    assert Ready(m, nonces) == {7} && Addresses(m) == {1};
    assert ChainNonces(m, StopAtOnce(), nonces) == nonces;
    SoleSchedule(m, map[], nonces, 7, 1);
    ConsumedAppend(m, [], 7, 1);
    assert [] + [7] == [7];
  }
}
