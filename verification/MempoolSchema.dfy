/** The columns of the mempool database that the other mempool modules share. */
module MempoolSchema {

  import opened Wrappers

  /** Transaction ids are 256-bit hashes; only equality and one fixed total order matter. */
  type Txid = nat

  type Address = nat

  /** The chain tip a transaction was submitted against. */
  type BlockId = nat

  /** A nonce of an account; the unit that the UNIQUE constraints of the mempool table protect. */
  datatype Slot = Slot(address: Address, nonce: nat)

  /** The immutable columns of a mempool row, together with the part of the
      deserialized transaction that the walk looks at. */
  datatype Tx = Tx(origin: Slot, sponsorship: Option<Slot>, fee: nat, height: nat, tip: BlockId, body: seq<Byte>) {

    /** An unsponsored transaction is recorded as paid for by its origin. */
    function Sponsor(): Slot {
      if sponsorship.Some? then sponsorship.value else origin
    }
  }

  /** The two nullable cache columns last_known_origin_nonce and last_known_sponsor_nonce. */
  datatype Known = Known(origin: Option<nat>, sponsor: Option<nat>)

  type Mempool = map<Txid, Tx>

  /** UNIQUE (origin_address, origin_nonce), UNIQUE (sponsor_address, sponsor_nonce) */
  ghost predicate UniqueSlots(m: Mempool) {
    forall t, u :: t in m && u in m && t != u ==> m[t].origin != m[u].origin && m[t].Sponsor() != m[u].Sponsor()
  }

  /** Column fee_rate of fee_estimates: a missing row and a NULL rate read the same through the LEFT JOIN. */
  type Estimates = map<Txid, Option<real>>

  predicate HasEstimate(est: Estimates, t: Txid) {
    t in est && est[t].Some?
  }

  lemma {:induction false} SubsetSize<T>(a: set<T>, b: set<T>)
    requires a <= b
    ensures |a| <= |b|
  {
    if a != {} {
      var x :| x in a;
      SubsetSize(a - {x}, b - {x});
    }
  }
}
