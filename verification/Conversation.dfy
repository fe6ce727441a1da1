/** The peer-to-peer conversation: handshakes, who may say what, and what is known of the peer. */
module Conversation {
  import opened Wrappers
  import opened Relaying

  const NUM_HEALTH_POINTS: nat := 32
  const HANDSHAKE_REQUIRED: nat := 1
  const THROTTLED: nat := 3
  const MAX_PEER_HEARTBEAT_INTERVAL: nat := 21_600

  type KeyBuffer = nat
  type PublicKey = nat
  type BurnHash = nat
  type PeerAddress = nat

  // ---------- Messages ----------

  datatype HandshakeData = HandshakeData(addrbytes: PeerAddress, port: nat, services: nat, nodeKey: KeyBuffer, expire: nat, dataUrl: string)

  datatype Payload =
    | Handshake(data: HandshakeData)
    | HandshakeAccept(accepted: HandshakeData, heartbeat: nat)
    | HandshakeReject
    | Nack(code: nat)
    | Ping(nonce: nat) | Pong(nonce: nat)
    | NatPunchRequest(nonce: nat) | NatPunchReply(addrbytes: PeerAddress, port: nat, nonce: nat)
    | GetNeighbors | Neighbors | GetBlocksInv | BlocksInv | GetPoxInv | PoxInv | BlocksAvailable | MicroblocksAvailable
    | Blocks | Microblocks | Transaction
  {
    /** The requests, inventories and pushes that a peer has to authenticate for. */
    predicate IsDataPlane() {
      || GetNeighbors? || Neighbors? || GetBlocksInv? || BlocksInv? || GetPoxInv? || PoxInv?
      || BlocksAvailable? || MicroblocksAvailable? || Blocks? || Microblocks? || Transaction?
    }

    predicate IsPush() { Blocks? || Microblocks? || Transaction? }

    /** StacksMessageID */
    function Id(): nat {
      match this
      case Handshake(_) => 0 case HandshakeAccept(_, _) => 1 case HandshakeReject => 2
      case GetNeighbors => 3 case Neighbors => 4 case GetBlocksInv => 5 case BlocksInv => 6
      case GetPoxInv => 7 case PoxInv => 8 case BlocksAvailable => 9 case MicroblocksAvailable => 10
      case Blocks => 11 case Microblocks => 12 case Transaction => 13 case Nack(_) => 14
      case Ping(_) => 15 case Pong(_) => 16 case NatPunchRequest(_) => 17 case NatPunchReply(_, _, _) => 18
    }
  }

  /** Everything that is not about handshakes, nacks, pings or hole punches is of the data plane, and
      every kind of message has an identifier of its own. */
  lemma KindsOfMessages(a: Payload, b: Payload)
    ensures a.IsDataPlane() <==>
      !(a.Handshake? || a.HandshakeAccept? || a.HandshakeReject? || a.Nack? || a.Ping? || a.Pong? || a.NatPunchRequest? || a.NatPunchReply?)
    ensures a.Id() < 19
    ensures a.Id() == b.Id() && a.IsDataPlane() ==> a == b
    ensures a.Id() == b.Id() && !a.IsDataPlane() ==>
      || (a.Handshake? && b.Handshake?) || (a.HandshakeAccept? && b.HandshakeAccept?) || (a.HandshakeReject? && b.HandshakeReject?)
      || (a.Nack? && b.Nack?) || (a.Ping? && b.Ping?) || (a.Pong? && b.Pong?)
      || (a.NatPunchRequest? && b.NatPunchRequest?) || (a.NatPunchReply? && b.NatPunchReply?)
  {
  }

  datatype Preamble = Preamble(version: bv32, networkId: nat, seqno: nat,
                               height: nat, hash: BurnHash, stableHeight: nat, stableHash: BurnHash, payloadLen: nat)

  datatype Message = Message(preamble: Preamble, relayers: seq<RelayData>, payload: Payload)

  datatype BurnchainView = BurnchainView(height: nat, hashes: map<nat, BurnHash>)

  // ---------- What comes from outside ----------

  /** Key decoding, signature checks, the epoch schedule, and everything that can fail in the parts
      of the node that are not modelled: the peer database, the outbox, the inventory answers, the
      bandwidth throttle. */
  datatype World = World(
    decode: KeyBuffer -> Option<PublicKey>,
    signedWith: (Message, KeyBuffer) -> bool,
    networkEpoch: nat -> bv32,
    isAnyNet: PeerAddress -> bool,
    savesPeer: Message -> bool,
    sends: Message -> bool,
    answers: Message -> Option<Payload>,
    throttled: Message -> bool)

  /** Our own node, as far as a conversation needs it. */
  datatype LocalPeer = LocalPeer(ownKey: KeyBuffer, ownHash: KeyHash, heartbeat: nat, noInboundHandshakes: bool)

  /** What does not change during a conversation. */
  datatype Setup = Setup(networkId: nat, version: bv32, stableConfirmations: nat, outbound: bool, peerAddr: PeerAddress, peerPort: nat)

  // ---------- What is known of the peer ----------

  datatype Identity = Identity(key: Option<PublicKey>, version: bv32, networkId: nat, services: nat, expire: nat,
                               handshakeAddr: PeerAddress, handshakePort: nat, dataUrl: string)

  datatype ChainView = ChainView(tipHeight: nat, tipHash: BurnHash, stableHeight: nat, stableHash: BurnHash)

  datatype Stats = Stats(msgsRx: nat, counts: map<nat, nat>, unsolicited: nat, errors: nat, healthpoints: seq<bool>, relayed: Relayed)

  // ---------- Checks ----------

  predicate Disagrees(height: nat, hash: BurnHash, view: BurnchainView) {
    height in view.hashes && view.hashes[height] != hash
  }

  predicate AcceptableEpoch(w: World, s: Setup, view: BurnchainView, remote: bv32) {
    (s.version & 0xff) <= (remote & 0xff) || w.networkEpoch(view.height) <= (remote & 0xff)
  }

  predicate PreambleValid(w: World, s: Setup, p: Preamble, view: BurnchainView) {
    && p.networkId == s.networkId
    && (p.version & 0xff00_0000) == (s.version & 0xff00_0000)
    && AcceptableEpoch(w, s, view, p.version)
    && p.stableHeight + s.stableConfirmations == p.height
    && !Disagrees(p.stableHeight, p.stableHash, view)
  }

  /** A peer of our version and network is believed unless it names another hash for a stable block we know. */
  lemma SameRulesAreValid(w: World, s: Setup, view: BurnchainView, p: Preamble)
    requires p.version == s.version && p.networkId == s.networkId && p.height == p.stableHeight + s.stableConfirmations
    ensures PreambleValid(w, s, p, view) <==> (p.stableHeight in view.hashes ==> view.hashes[p.stableHeight] == p.stableHash)
  {
    hide AcceptableEpoch;
    NewEnough(w, s, view, s.version);
  }

  lemma NewEnough(w: World, s: Setup, view: BurnchainView, remote: bv32)
    ensures (s.version & 0xff) <= (remote & 0xff) ==> AcceptableEpoch(w, s, view, remote)
    ensures (remote & 0xff) < (s.version & 0xff) ==> (AcceptableEpoch(w, s, view, remote) <==> w.networkEpoch(view.height) <= (remote & 0xff))
  {
  }

  datatype HandshakeCheck = Accepted | InvalidHandshake | InvalidMessage

  /** A peer that we called and that we know has to give the address we called, or none at all. */
  predicate HonestAddress(w: World, s: Setup, key: Option<PublicKey>, d: HandshakeData) {
    key.Some? && s.outbound ==> w.isAnyNet(d.addrbytes) || (d.addrbytes == s.peerAddr && d.port == s.peerPort)
  }

  /** A first handshake is signed with its own key; a later one is from where it should be. Either way
      the key is readable, not expired and not ours. */
  predicate Acceptable(w: World, s: Setup, local: LocalPeer, view: BurnchainView, key: Option<PublicKey>, m: Message)
    requires m.payload.Handshake?
  {
    var d := m.payload.data;
    && (key.None? ==> w.signedWith(m, d.nodeKey)) && HonestAddress(w, s, key, d)
    && w.decode(d.nodeKey).Some? && view.height < d.expire && d.nodeKey != local.ownKey
  }

  /** The identity a handshake establishes. */
  function Introduced(w: World, p: Preamble, d: HandshakeData): Identity {
    Identity(w.decode(d.nodeKey), p.version, p.networkId, d.services, d.expire, d.addrbytes, d.port, d.dataUrl)
  }

  // ---------- What one message may do ----------

  /** What happened to one message: the situation it arrived in, and where it ended up. It may be
      claimed by whoever sent the request it answers, or delivered to the data plane and from there
      returned to the caller; or it may have ended the conversation. */
  datatype Record = Record(view: BurnchainView, local: LocalPeer, msg: Message, solicited: bool,
                           before: Identity, after: Identity, claimed: bool, delivered: bool, returned: bool, ended: bool)

  /** A message that is good enough to install a first key. */
  ghost predicate Introduces(w: World, r: Record) {
    if r.msg.payload.Handshake? then
      var d := r.msg.payload.data;
      && w.signedWith(r.msg, d.nodeKey) && d.expire > r.view.height && d.nodeKey != r.local.ownKey
      && w.decode(d.nodeKey).Some? && r.after == Introduced(w, r.msg.preamble, d)
    else
      && r.msg.payload.HandshakeAccept? && r.solicited
      && w.decode(r.msg.payload.accepted.nodeKey).Some?
      && r.after == Introduced(w, r.msg.preamble, r.msg.payload.accepted)
  }

  /** The rules of authentication, for one message. */
  ghost predicate Lawful(w: World, s: Setup, r: Record) {
    // nothing of the data plane gets through without a key
    && (r.delivered && r.msg.payload.IsDataPlane() ==> r.before.key.Some?)
    && (r.returned ==> r.delivered)
    && (r.claimed ==> r.solicited && !r.delivered)
    // keys are never removed, and a first key has a good origin
    && (r.before.key.Some? ==> r.after.key.Some?)
    && (r.before.key.None? && r.after.key.Some? ==> Introduces(w, r))
    // the identity changes only through an accepted handshake
    && (r.after != r.before ==>
          if r.msg.payload.Handshake? then Acceptable(w, s, r.local, r.view, r.before.key, r.msg)
          else r.msg.payload.HandshakeAccept? && (r.before.key.Some? || r.solicited))
  }

  /** A run of a conversation: every message lawful, each one starting where the previous one ended. */
  ghost predicate LawfulRun(w: World, s: Setup, run: seq<Record>, start: Identity, end: Identity) {
    && (forall i :: 0 <= i < |run| ==> Lawful(w, s, run[i]))
    && (forall i, j :: 0 <= i < j < |run| && j == i + 1 ==> run[j].before == run[i].after)
    && (if run == [] then end == start else run[0].before == start && run[|run| - 1].after == end)
  }

  lemma RunGrows(w: World, s: Setup, run: seq<Record>, start: Identity, end: Identity, r: Record)
    requires LawfulRun(w, s, run, start, end) && Lawful(w, s, r) && r.before == end
    ensures LawfulRun(w, s, run + [r], start, r.after)
  {
    hide Lawful;
  }

  /** If the peer has a key, some earlier message introduced the peer properly. */
  lemma {:induction false} KeyHasOrigin(w: World, s: Setup, run: seq<Record>, start: Identity, end: Identity) returns (k: nat)
    requires LawfulRun(w, s, run, start, end) && start.key.None? && end.key.Some?
    ensures k < |run| && run[k].before.key.None? && run[k].after.key.Some? && Introduces(w, run[k])
    ensures forall i :: k < i < |run| ==> run[i].before.key.Some?
  {
    var n := |run| - 1;
    var last := run[n];
    assert Lawful(w, s, last);
    if last.before.key.None? {
      k := n;
    } else {
      assert n > 0;
      assert run[n].before == run[n - 1].after;
      k := KeyHasOrigin(w, s, run[..n], start, last.before);
    }
  }

  /** The messages that were delivered to the data plane, in order. */
  ghost function Delivered(run: seq<Record>): seq<Message> {
    if run == [] then [] else
      var last := run[|run| - 1];
      Delivered(run[..|run| - 1]) + if last.delivered then [last.msg] else []
  }

  lemma {:induction false} DeliveredFrom(run: seq<Record>, m: Message) returns (i: nat)
    requires m in Delivered(run)
    ensures i < |run| && run[i].delivered && run[i].msg == m
  {
    var n := |run| - 1;
    if run[n].delivered && run[n].msg == m {
      i := n;
    } else {
      i := DeliveredFrom(run[..n], m);
    }
  }

  lemma LawfulPrefix(w: World, s: Setup, run: seq<Record>, start: Identity, end: Identity, i: nat)
    requires LawfulRun(w, s, run, start, end) && i < |run|
    ensures LawfulRun(w, s, run[..i], start, run[i].before) && Lawful(w, s, run[i])
  {
    hide Lawful;
  }

  /** In every run that starts without a key: whatever of the data plane was delivered or returned
      came after a message that introduced the peer properly. */
  lemma DeliveredAfterIntroduction(w: World, s: Setup, run: seq<Record>, start: Identity, end: Identity, i: nat) returns (k: nat)
    requires LawfulRun(w, s, run, start, end) && start.key.None? && i < |run|
    requires (run[i].delivered || run[i].returned) && run[i].msg.payload.IsDataPlane()
    ensures k < i && run[k].before.key.None? && run[k].after.key.Some? && Introduces(w, run[k])
  {
    hide LawfulRun, Introduces;
    LawfulPrefix(w, s, run, start, end, i);
    k := KeyHasOrigin(w, s, run[..i], start, run[i].before);
  }

  // ---------- The peer's chain view and statistics ----------

  /** The recorded heights are those of some preamble, or nothing has been recorded yet. */
  predicate ChainViewOk(s: Setup, c: ChainView) {
    (c.tipHeight == 0 && c.stableHeight == 0) || c.tipHeight == c.stableHeight + s.stableConfirmations
  }

  function SeePreamble(c: ChainView, p: Preamble): ChainView {
    var c1 := if p.height > c.tipHeight then c.(tipHeight := p.height, tipHash := p.hash) else c;
    if p.stableHeight > c1.stableHeight then c1.(stableHeight := p.stableHeight, stableHash := p.stableHash) else c1
  }

  /** A valid preamble moves both heights together, and never back. */
  lemma ChainViewStaysOk(w: World, s: Setup, view: BurnchainView, c: ChainView, p: Preamble)
    requires ChainViewOk(s, c) && PreambleValid(w, s, p, view)
    ensures ChainViewOk(s, SeePreamble(c, p))
    ensures SeePreamble(c, p).tipHeight >= c.tipHeight && SeePreamble(c, p).stableHeight >= c.stableHeight
    ensures SeePreamble(c, p).tipHeight >= p.height && SeePreamble(c, p).stableHeight >= p.stableHeight
    ensures c.stableHeight < p.stableHeight || (c.stableHeight == 0 && p.stableHeight == 0 && c.tipHeight < p.height) ==>
      SeePreamble(c, p).tipHash == p.hash
    ensures c.stableHeight < p.stableHeight ==> SeePreamble(c, p).stableHash == p.stableHash
    ensures c.stableHeight >= p.stableHeight ==> SeePreamble(c, p).stableHash == c.stableHash
    ensures c.tipHeight >= p.height ==> SeePreamble(c, p).tipHash == c.tipHash
  {
  }

  const MESSAGE_IDS: nat := 19

  function Received(counts: map<nat, nat>, id: nat): nat {
    if id in counts then counts[id] else 0
  }

  function TotalReceived(counts: map<nat, nat>, n: nat): nat {
    if n == 0 then 0 else TotalReceived(counts, n - 1) + Received(counts, n - 1)
  }

  lemma {:induction false} OneMoreReceived(counts: map<nat, nat>, id: nat, n: nat)
    ensures TotalReceived(counts[id := Received(counts, id) + 1], n) == TotalReceived(counts, n) + if id < n then 1 else 0
  {
    if n > 0 {
      OneMoreReceived(counts, id, n - 1);
    }
  }

  ghost predicate StatsOk(st: Stats) {
    && |st.healthpoints| <= NUM_HEALTH_POINTS
    && st.msgsRx == TotalReceived(st.counts, MESSAGE_IDS)
  }

  /** push_back, then pop_front while there are too many. */
  method AddHealthpoint(points: seq<bool>, success: bool) returns (r: seq<bool>)
    requires |points| <= NUM_HEALTH_POINTS
    ensures |r| <= 32
    ensures r == if |points| < 32 then points + [success] else points[1..] + [success]
  {
    r := points + [success];
    while |r| > NUM_HEALTH_POINTS
      invariant |r| <= NUM_HEALTH_POINTS + 1
      invariant r == points + [success] || (|points| == NUM_HEALTH_POINTS && r == points[1..] + [success])
      decreases |r|
    {
      assert (points + [success])[1..] == points[1..] + [success];
      r := r[1..];
    }
  }

  // ---------- The conversation ----------

  /** The answer of a control-plane handler. */
  datatype Control = Fail | Done(reply: Option<Payload>, consumed: bool)

  datatype DataResult = Forward | Handled | Broken

  datatype Outcome = Abort | Next(passedOn: Option<Message>)

  function Unknown(): Identity {
    Identity(None, 0, 0, 0, 0, 0, 0, "")
  }

  /** The part of the rules that the control plane is responsible for. */
  ghost predicate LawfulControl(w: World, s: Setup, local: LocalPeer, view: BurnchainView, m: Message, solicited: bool, before: Identity, after: Identity) {
    Lawful(w, s, Record(view, local, m, solicited, before, after, false, false, false, false))
  }

  lemma NothingLearned(w: World, s: Setup, local: LocalPeer, view: BurnchainView, m: Message, solicited: bool, i: Identity)
    ensures LawfulControl(w, s, local, view, m, solicited, i, i)
  {
  }

  /** What the control plane makes of a message: its answer, and what is then known of the peer. */
  datatype Reaction = Reaction(answer: Control, after: Identity, heartbeat: nat)

  ghost function ReactToHandshake(w: World, s: Setup, local: LocalPeer, view: BurnchainView, m: Message, before: Identity, heartbeat: nat): Reaction
    requires m.payload.Handshake?
  {
    var d := m.payload.data;
    var after := Introduced(w, m.preamble, d);
    if before.key.None? && local.noInboundHandshakes then
      Reaction(Done(None, true), before, heartbeat)
    else if Acceptable(w, s, local, view, before.key, m) then
      if before.key.Some? && before.key != after.key && !w.savesPeer(m) then Reaction(Fail, after, heartbeat)
      else Reaction(Done(Some(HandshakeAccept(HandshakeData(0, 0, 0, local.ownKey, 0, ""), local.heartbeat)), false), after, local.heartbeat)
    else if (before.key.None? && !w.signedWith(m, d.nodeKey)) || (HonestAddress(w, s, before.key, d) && w.decode(d.nodeKey).None?) then
      Reaction(Fail, before, heartbeat)
    else
      Reaction(Done(Some(HandshakeReject), true), before, heartbeat)
  }

  ghost function ReactToAccept(w: World, m: Message, before: Identity, heartbeat: nat): Reaction
    requires m.payload.HandshakeAccept?
  {
    if w.decode(m.payload.accepted.nodeKey).None? then Reaction(Fail, before, heartbeat)
    else Reaction(Done(None, false), Introduced(w, m.preamble, m.payload.accepted), Min(m.payload.heartbeat, 21_600))
  }

  ghost function React(w: World, s: Setup, local: LocalPeer, view: BurnchainView, m: Message, solicited: bool, before: Identity, heartbeat: nat): Reaction {
    var known := before.key.Some?;
    match m.payload
    case Handshake(_) => ReactToHandshake(w, s, local, view, m, before, heartbeat)
    case HandshakeAccept(_, _) =>
      if known || solicited then ReactToAccept(w, m, before, heartbeat) else Reaction(Done(None, true), before, heartbeat)
    case HandshakeReject => Reaction(Done(None, false), before, heartbeat)
    case Nack(_) => Reaction(Done(None, false), before, heartbeat)
    case NatPunchReply(_, _, _) => Reaction(Done(None, false), before, heartbeat)
    case NatPunchRequest(nonce) => Reaction(Done(Some(NatPunchReply(s.peerAddr, s.peerPort, nonce)), true), before, heartbeat)
    case Ping(nonce) => Reaction(Done(Some(if known then Pong(nonce) else Nack(HANDSHAKE_REQUIRED)), true), before, heartbeat)
    case _ => Reaction(if known then Done(None, false) else Done(Some(Nack(HANDSHAKE_REQUIRED)), true), before, heartbeat)
  }

  function Sent(p: Option<Payload>): seq<Payload> {
    if p.Some? then [p.value] else []
  }

  /** A reaction after which the conversation does not go on. */
  ghost predicate BreaksOff(w: World, m: Message, c: Control) {
    c.Fail? || (c.reply.Some? && !w.sends(m))
  }

  /** What the data plane answers. */
  ghost function DataReply(w: World, local: LocalPeer, m: Message): Option<Payload> {
    match m.payload
    case Blocks => PushReply(w, local, m)
    case Microblocks => PushReply(w, local, m)
    case Transaction => PushReply(w, local, m)
    case GetNeighbors => w.answers(m)
    case GetBlocksInv => w.answers(m)
    case _ => None
  }

  ghost function PushReply(w: World, local: LocalPeer, m: Message): Option<Payload> {
    if Passes(local.ownHash, m.relayers) && w.throttled(m) && w.sends(m) then Some(Nack(3)) else None
  }

  /** A push that ends the conversation: its relayers do not check out, or it cannot be nacked. */
  ghost predicate DataBreaks(w: World, local: LocalPeer, m: Message) {
    (m.payload.Blocks? || m.payload.Microblocks? || m.payload.Transaction?) && (!Passes(local.ownHash, m.relayers) || (w.throttled(m) && !w.sends(m)))
  }

  /** What becomes of a message with a valid preamble, once the control plane has reacted to it: unless
      that breaks the conversation off, it is claimed if someone waits for it, and delivered if nobody
      does and the control plane leaves it; every reply is sent, in order. */
  ghost predicate Processed(w: World, local: LocalPeer, m: Message, reaction: Reaction, r: Record, o: Outcome, before: seq<Payload>, after: seq<Payload>) {
    && r.after == reaction.after
    && if BreaksOff(w, m, reaction.answer) then o.Abort? && !r.claimed && !r.delivered && !r.returned && after == before
       else
         && r.claimed == r.solicited && r.delivered == (!r.solicited && !reaction.answer.consumed)
         && (o.Abort? <==> r.delivered && DataBreaks(w, local, m))
         && (r.returned <==> r.delivered && DataReply(w, local, m).None? && !DataBreaks(w, local, m))
         && after == before + Sent(reaction.answer.reply) + if r.delivered then Sent(DataReply(w, local, m)) else []
  }

  /** A peer that accepts our handshake is known from then on, and so is one whose handshake we accept. */
  lemma PeersGetKnown(w: World, s: Setup, local: LocalPeer, view: BurnchainView, m: Message, identity: Identity, heartbeat: nat,
                      r: Record, o: Outcome, before: seq<Payload>, after: seq<Payload>)
    requires Processed(w, local, m, React(w, s, local, view, m, r.solicited, identity, heartbeat), r, o, before, after)
    ensures m.payload.HandshakeAccept? && r.solicited && w.decode(m.payload.accepted.nodeKey).Some? ==>
      o.Next? && r.claimed && r.after == Introduced(w, m.preamble, m.payload.accepted)
    ensures m.payload.Handshake? && identity.key.None? && !local.noInboundHandshakes && Acceptable(w, s, local, view, None, m) && w.sends(m) ==>
      o.Next? && r.after == Introduced(w, m.preamble, m.payload.data) && |after| == |before| + 1 && after[|before|].HandshakeAccept?
  {
    hide Introduced, Acceptable;
  }

  /** Whatever is not about handshakes, nacks or hole punches is nacked if the peer has no key. */
  lemma StrangersAreNacked(w: World, s: Setup, local: LocalPeer, view: BurnchainView, m: Message, identity: Identity, heartbeat: nat,
                           r: Record, o: Outcome, before: seq<Payload>, after: seq<Payload>)
    requires Processed(w, local, m, React(w, s, local, view, m, r.solicited, identity, heartbeat), r, o, before, after)
    ensures o.Next? ==> r.claimed == r.solicited && !(r.claimed && r.delivered)
    ensures identity.key.None? && (m.payload.IsDataPlane() || m.payload.Ping? || m.payload.Pong?) ==>
      && (w.sends(m) <==> o.Next?) && !r.delivered && r.after == identity
      && after == before + if w.sends(m) then [Nack(1)] else []
  {
    hide ReactToHandshake, ReactToAccept;
  }

  class ConversationP2P {
    const w: World
    const setup: Setup
    var identity: Identity
    var peerHeartbeat: nat
    var chain: ChainView
    var stats: Stats
    /** The sequence numbers of our requests that are still waiting for a reply. */
    var inflight: seq<nat>
    var replies: seq<Payload>
    ghost var run: seq<Record>
    /** Every message the data-plane handler was called with; written by the handler itself. */
    ghost var handled: seq<Message>

    ghost predicate Valid()
      reads this
    {
      && LawfulRun(w, setup, run, Unknown(), identity) && ChainViewOk(setup, chain) && StatsOk(stats)
      && handled == Delivered(run)
    }

    constructor (w: World, setup: Setup)
      ensures Valid() && this.w == w && this.setup == setup && run == []
      ensures identity == Unknown() && inflight == [] && replies == [] && handled == []
    {
      this.w, this.setup := w, setup;
      identity, peerHeartbeat := Unknown(), 0;
      chain, stats := ChainView(0, 0, 0, 0), Stats(0, map[], 0, 0, [], map[]);
      inflight, replies, run, handled := [], [], [], [];
      new;
      assert StatsOk(stats) by { NoneReceived(MESSAGE_IDS); }
    }

    method HasAcceptableEpoch(view: BurnchainView, remote: bv32) returns (ok: bool)
      ensures ok <==> AcceptableEpoch(w, setup, view, remote)
    {
      var myEpoch, remoteEpoch := setup.version & 0xff, remote & 0xff;
      if myEpoch <= remoteEpoch {
        return true;
      }
      var curEpoch := w.networkEpoch(view.height);
      return curEpoch <= remoteEpoch;
    }

    /** Is the sender on our network, with our rules and on our fork? */
    method IsPreambleValid(p: Preamble, view: BurnchainView) returns (ok: bool)
      ensures ok <==> PreambleValid(w, setup, p, view)
    {
      hide AcceptableEpoch;
      if p.networkId != setup.networkId {
        return false;
      }
      if (p.version & 0xff00_0000) != (setup.version & 0xff00_0000) {
        return false;
      }
      var current := HasAcceptableEpoch(view, p.version);
      if !current {
        return false;
      }
      if p.stableHeight + setup.stableConfirmations != p.height {
        return false;
      }
      return if p.stableHeight in view.hashes then p.stableHash == view.hashes[p.stableHeight] else true;
    }

    method ValidateHandshake(local: LocalPeer, view: BurnchainView, m: Message) returns (r: HandshakeCheck)
      requires m.payload.Handshake?
      ensures r.Accepted? <==> Acceptable(w, setup, local, view, identity.key, m)
      ensures r.InvalidMessage? <==>
        || (identity.key.None? && !w.signedWith(m, m.payload.data.nodeKey))
        || (HonestAddress(w, setup, identity.key, m.payload.data) && w.decode(m.payload.data.nodeKey).None?)
    {
      var d := m.payload.data;
      match identity.key {
        case None =>
          if !w.signedWith(m, d.nodeKey) {
            return InvalidMessage;
          }
        case Some(_) =>
          if setup.outbound && !w.isAnyNet(d.addrbytes) && (setup.peerAddr != d.addrbytes || setup.peerPort != d.port) {
            return InvalidHandshake;
          }
      }
      if w.decode(d.nodeKey).None? {
        return InvalidMessage;
      }
      if d.expire <= view.height {
        return InvalidHandshake;
      }
      if d.nodeKey == local.ownKey {
        return InvalidHandshake;
      }
      return Accepted;
    }

    /** Take over what a handshake says about the peer. */
    method UpdateFromHandshakeData(p: Preamble, d: HandshakeData) returns (ok: bool, updated: bool)
      modifies this`identity
      ensures ok <==> w.decode(d.nodeKey).Some?
      ensures identity == if ok then Introduced(w, p, d) else old(identity)
      ensures updated <==> ok && old(identity).key.Some? && old(identity).key != identity.key
    {
      var key := w.decode(d.nodeKey);
      if key.None? {
        return false, false;
      }
      updated := identity.key.Some? && identity.key != key;
      identity := Identity(key, p.version, p.networkId, d.services, d.expire, d.addrbytes, d.port, d.dataUrl);
      ok := true;
    }

    /** A handshake request. A rejected one changes nothing. */
    method HandleHandshake(local: LocalPeer, view: BurnchainView, m: Message, authenticated: bool) returns (c: Control)
      requires m.payload.Handshake? && authenticated == identity.key.Some?
      modifies this`identity, this`peerHeartbeat
      ensures LawfulControl(w, setup, local, view, m, false, old(identity), identity)
      ensures Reaction(c, identity, peerHeartbeat) == ReactToHandshake(w, setup, local, view, m, old(identity), old(peerHeartbeat))
    {
      if !authenticated && local.noInboundHandshakes {
        return Done(None, true);
      }
      var check := ValidateHandshake(local, view, m);
      if check.InvalidHandshake? {
        return Done(Some(HandshakeReject), true);
      }
      if check.InvalidMessage? {
        return Fail;
      }
      var ok, updated := UpdateFromHandshakeData(m.preamble, m.payload.data);
      if updated && !w.savesPeer(m) {
        return Fail;
      }
      peerHeartbeat := local.heartbeat;
      return Done(Some(HandshakeAccept(HandshakeData(0, 0, 0, local.ownKey, 0, ""), local.heartbeat)), false);
    }

    method HandleHandshakeAccept(m: Message) returns (ok: bool)
      requires m.payload.HandshakeAccept?
      modifies this`identity, this`peerHeartbeat
      ensures ok <==> w.decode(m.payload.accepted.nodeKey).Some?
      ensures identity == if ok then Introduced(w, m.preamble, m.payload.accepted) else old(identity)
      ensures ok ==> peerHeartbeat == Min(m.payload.heartbeat, 21_600)
      ensures !ok ==> unchanged(this)
    {
      var updated;
      ok, updated := UpdateFromHandshakeData(m.preamble, m.payload.accepted);
      if ok {
        peerHeartbeat := if m.payload.heartbeat > MAX_PEER_HEARTBEAT_INTERVAL then MAX_PEER_HEARTBEAT_INTERVAL else m.payload.heartbeat;
      }
    }

    method HandleAuthenticated(local: LocalPeer, view: BurnchainView, m: Message, ghost solicited: bool) returns (c: Control)
      requires identity.key.Some?
      modifies this`identity, this`peerHeartbeat
      ensures LawfulControl(w, setup, local, view, m, solicited, old(identity), identity)
      ensures m.payload.IsDataPlane() ==> c == Done(None, false)
      ensures m.payload.Ping? ==> c == Done(Some(Pong(m.payload.nonce)), true)
      ensures m.payload.NatPunchRequest? ==> c == Done(Some(NatPunchReply(setup.peerAddr, setup.peerPort, m.payload.nonce)), true)
      ensures Reaction(c, identity, peerHeartbeat) == React(w, setup, local, view, m, solicited, old(identity), old(peerHeartbeat))
      ensures m.payload.HandshakeAccept? ==>
        c == if w.decode(m.payload.accepted.nodeKey).Some? then Done(None, false) else Fail
      ensures m.payload.HandshakeAccept? && c.Done? ==> identity == Introduced(w, m.preamble, m.payload.accepted)
      ensures m.payload.Pong? || m.payload.NatPunchReply? || m.payload.Nack? || m.payload.HandshakeReject? ==> c == Done(None, false)
      ensures !m.payload.Handshake? && !m.payload.HandshakeAccept? ==> unchanged(this)
    {
      match m.payload
      case Handshake(_) =>
        c := HandleHandshake(local, view, m, true);
      case HandshakeAccept(_, _) =>
        var ok := HandleHandshakeAccept(m);
        c := if ok then Done(None, false) else Fail;
      case Ping(nonce) => c := Done(Some(Pong(nonce)), true);
      case NatPunchRequest(nonce) => c := Done(Some(NatPunchReply(setup.peerAddr, setup.peerPort, nonce)), true);
      case _ => c := Done(None, false);
    }

    /** Without a key, only handshakes, their answers, nacks and hole punches get anywhere. */
    method HandleUnauthenticated(local: LocalPeer, view: BurnchainView, m: Message, solicited: bool) returns (c: Control)
      requires identity.key.None?
      modifies this`identity, this`peerHeartbeat
      ensures LawfulControl(w, setup, local, view, m, solicited, old(identity), identity)
      ensures m.payload.IsDataPlane() ==> c == Done(Some(Nack(HANDSHAKE_REQUIRED)), true)
      ensures m.payload.NatPunchRequest? ==> c == Done(Some(NatPunchReply(setup.peerAddr, setup.peerPort, m.payload.nonce)), true)
      ensures Reaction(c, identity, peerHeartbeat) == React(w, setup, local, view, m, solicited, old(identity), old(peerHeartbeat))
      ensures m.payload.HandshakeAccept? && !solicited ==> c == Done(None, true)
      ensures m.payload.HandshakeAccept? && solicited ==>
        if w.decode(m.payload.accepted.nodeKey).Some?
        then c == Done(None, false) && identity == Introduced(w, m.preamble, m.payload.accepted) && peerHeartbeat <= 21_600
        else c == Fail && identity == old(identity) && peerHeartbeat == old(peerHeartbeat)
      ensures !m.payload.Handshake? && !(m.payload.HandshakeAccept? && solicited) ==> unchanged(this)
    {
      match m.payload
      case Handshake(_) =>
        c := HandleHandshake(local, view, m, false);
      case HandshakeAccept(_, _) =>
        if solicited {
          var ok := HandleHandshakeAccept(m);
          c := if ok then Done(None, false) else Fail;
        } else {
          c := Done(None, true);
        }
      case HandshakeReject => c := Done(None, false);
      case Nack(_) => c := Done(None, false);
      case NatPunchRequest(nonce) => c := Done(Some(NatPunchReply(setup.peerAddr, setup.peerPort, nonce)), true);
      case NatPunchReply(_, _, _) => c := Done(None, false);
      case _ => c := Done(Some(Nack(HANDSHAKE_REQUIRED)), true);
    }

    /** Liveness and chain view, for a message that counts. */
    method CountMessage(m: Message, view: BurnchainView)
      requires ChainViewOk(setup, chain) && StatsOk(stats) && PreambleValid(w, setup, m.preamble, view)
      modifies this`chain, this`stats
      ensures ChainViewOk(setup, chain) && StatsOk(stats)
      ensures chain == SeePreamble(old(chain), m.preamble)
      ensures chain.tipHeight >= old(chain).tipHeight && chain.stableHeight >= old(chain).stableHeight
      ensures stats.msgsRx == old(stats).msgsRx + 1
      ensures stats.counts == old(stats).counts[m.payload.Id() := Received(old(stats).counts, m.payload.Id()) + 1]
      ensures stats.healthpoints != [] && stats.healthpoints[|stats.healthpoints| - 1]
      ensures stats.errors == old(stats).errors && stats.unsolicited == old(stats).unsolicited && stats.relayed == old(stats).relayed
    {
      var id := m.payload.Id();
      OneMoreReceived(stats.counts, id, MESSAGE_IDS);
      var points := AddHealthpoint(stats.healthpoints, true);
      stats := stats.(counts := stats.counts[id := Received(stats.counts, id) + 1], msgsRx := stats.msgsRx + 1, healthpoints := points);
      ChainViewStaysOk(w, setup, view, chain, m.preamble);
      if m.preamble.height > chain.tipHeight {
        chain := chain.(tipHeight := m.preamble.height, tipHash := m.preamble.hash);
      }
      if m.preamble.stableHeight > chain.stableHeight {
        chain := chain.(stableHeight := m.preamble.stableHeight, stableHash := m.preamble.stableHash);
      }
    }

    /** Is someone waiting for this message? Then it is theirs. */
    method FulfillRequest(m: Message) returns (taken: bool)
      modifies this`inflight
      ensures taken <==> m.preamble.seqno in old(inflight)
      ensures !taken ==> inflight == old(inflight)
      ensures taken ==> multiset(inflight) == multiset(old(inflight)) - multiset{m.preamble.seqno}
    {
      for i := 0 to |inflight|
        invariant inflight == old(inflight)
        invariant forall j :: 0 <= j < i ==> inflight[j] != m.preamble.seqno
      {
        if inflight[i] == m.preamble.seqno {
          assert inflight == inflight[..i] + [inflight[i]] + inflight[i + 1..];
          inflight := inflight[..i] + inflight[i + 1..];
          return true;
        }
      }
      return false;
    }

    /** The data plane. A push whose relayers do not check out breaks the conversation off. */
    method HandleDataMessage(local: LocalPeer, m: Message) returns (r: DataResult)
      requires StatsOk(stats) && (m.payload.IsDataPlane() ==> identity.key.Some?)
      modifies this`stats, this`replies, this`handled
      ensures StatsOk(stats) && handled == old(handled) + [m]
      ensures m.payload.IsPush() && !Passes(local.ownHash, m.relayers) ==> r.Broken?
      ensures r.Forward? && m.payload.IsPush() ==> Passes(local.ownHash, m.relayers)
      ensures !m.payload.IsPush() ==> !r.Broken? && unchanged(`stats)
      ensures !m.payload.IsPush() ==> (r.Handled? <==> (m.payload.GetNeighbors? || m.payload.GetBlocksInv?) && w.answers(m).Some?)
      ensures !m.payload.IsPush() && r.Handled? ==> replies == old(replies) + [w.answers(m).value]
      ensures m.payload.IsPush() && r.Handled? ==> w.throttled(m) && replies == old(replies) + [Nack(THROTTLED)]
      ensures m.payload.IsPush() ==> (r.Forward? <==> Passes(local.ownHash, m.relayers) && !w.throttled(m))
      ensures r.Broken? <==> DataBreaks(w, local, m)
      ensures r.Handled? <==> DataReply(w, local, m).Some?
      ensures replies == old(replies) + Sent(DataReply(w, local, m))
      ensures stats.msgsRx == old(stats).msgsRx && stats.counts == old(stats).counts && stats.unsolicited == old(stats).unsolicited
      ensures m.payload.IsPush() && Passes(local.ownHash, m.relayers) ==>
        Counted(old(stats).relayed, stats.relayed, Peers(m.relayers), if m.preamble.payloadLen > 0 then m.preamble.payloadLen - 1 else 0)
    {
      handled := handled + [m];
      if m.payload.IsPush() {
        var bytes := if m.preamble.payloadLen > 0 then m.preamble.payloadLen - 1 else 0;
        var ok, relayed := ProcessRelayers(local.ownHash, m.relayers, bytes, stats.relayed);
        if !ok {
          stats := stats.(errors := stats.errors + 1);
          return Broken;
        }
        stats := stats.(relayed := relayed);
        if w.throttled(m) {
          if !w.sends(m) {
            return Broken;
          }
          replies := replies + [Nack(THROTTLED)];
          return Handled;
        }
        return Forward;
      }
      if (m.payload.GetNeighbors? || m.payload.GetBlocksInv?) && w.answers(m).Some? {
        replies := replies + [w.answers(m).value];
        return Handled;
      }
      return Forward;
    }

    method HandleControl(local: LocalPeer, view: BurnchainView, m: Message, solicited: bool) returns (c: Control)
      modifies this`identity, this`peerHeartbeat
      ensures LawfulControl(w, setup, local, view, m, solicited, old(identity), identity)
      ensures old(identity).key.None? && m.payload.IsDataPlane() ==> c == Done(Some(Nack(HANDSHAKE_REQUIRED)), true)
      ensures m.payload.IsDataPlane() ==> identity == old(identity)
      ensures Reaction(c, identity, peerHeartbeat) == React(w, setup, local, view, m, solicited, old(identity), old(peerHeartbeat))
    {
      hide LawfulControl, React;
      if identity.key.Some? {
        c := HandleAuthenticated(local, view, m, solicited);
      } else {
        c := HandleUnauthenticated(local, view, m, solicited);
      }
    }

    /** The second half of a message: the statistics, then whoever waits for it, then the data plane. */
    method PassOn(local: LocalPeer, view: BurnchainView, m: Message, solicited: bool, counts: bool, consumed: bool, ghost before: Identity)
      returns (o: Outcome, ghost r: Record)
      requires ChainViewOk(setup, chain) && StatsOk(stats) && LawfulRun(w, setup, run, Unknown(), before)
      requires PreambleValid(w, setup, m.preamble, view) && solicited == (m.preamble.seqno in inflight)
      requires LawfulControl(w, setup, local, view, m, solicited, before, identity)
      requires before.key.None? && m.payload.IsDataPlane() ==> consumed
      requires m.payload.IsDataPlane() ==> identity == before
      requires handled == Delivered(run)
      modifies this`chain, this`stats, this`inflight, this`replies, this`run, this`handled
      ensures Valid() && run == old(run) + [r]
      ensures r.msg == m && r.view == view && r.local == local && r.solicited == solicited
      ensures r.before == before && r.after == identity && r.claimed == solicited
      ensures r.delivered == (!solicited && !consumed)
      ensures if r.claimed then multiset(inflight) == multiset(old(inflight)) - multiset{m.preamble.seqno} else inflight == old(inflight)
      ensures handled == old(handled) + if r.delivered then [m] else []
      ensures o.Abort? <==> r.delivered && DataBreaks(w, local, m)
      ensures r.returned <==> r.delivered && DataReply(w, local, m).None? && !DataBreaks(w, local, m)
      ensures replies == old(replies) + if r.delivered then Sent(DataReply(w, local, m)) else []
      ensures stats.msgsRx == old(stats).msgsRx + if counts then 1 else 0
      ensures stats.unsolicited == old(stats).unsolicited + if counts then 0 else 1
      ensures o == if r.ended then Abort else Next(if r.returned then Some(m) else None)
      ensures o.Next? && r.returned && m.payload.IsPush() ==> Passes(local.ownHash, m.relayers)
      ensures chain == if counts then SeePreamble(old(chain), m.preamble) else old(chain)
      ensures chain.tipHeight >= old(chain).tipHeight && chain.stableHeight >= old(chain).stableHeight
    {
      hide LawfulRun, LawfulControl, Lawful, StatsOk, ChainViewOk, Passes, PreambleValid, SeePreamble, Delivered, Counted, DataBreaks, DataReply;
      if counts {
        CountMessage(m, view);
      } else {
        CountUnsolicited();
      }
      var taken := FulfillRequest(m);
      if taken || consumed {
        r := Note(local, view, m, solicited, before, taken, false, false, false);
        return Next(None), r;
      }
      var d := HandleDataMessage(local, m);
      r := Note(local, view, m, solicited, before, false, true, d.Forward?, d.Broken?);
      o := if d.Broken? then Abort else Next(if d.Forward? then Some(m) else None);
    }

    /** A message whose preamble is valid: the control plane, its reply, and then the rest. */
    method ProcessValid(local: LocalPeer, view: BurnchainView, m: Message, solicited: bool) returns (o: Outcome, ghost r: Record)
      requires Valid() && PreambleValid(w, setup, m.preamble, view) && solicited == (m.preamble.seqno in inflight)
      modifies this
      ensures Valid() && run == old(run) + [r]
      ensures r.msg == m && r.view == view && r.local == local && r.solicited == solicited
      ensures r.before == old(identity) && r.after == identity
      ensures Processed(w, local, m, React(w, setup, local, view, m, solicited, old(identity), old(peerHeartbeat)), r, o, old(replies), replies)
      ensures peerHeartbeat == React(w, setup, local, view, m, solicited, old(identity), old(peerHeartbeat)).heartbeat
      ensures o == if r.ended then Abort else Next(if r.returned then Some(m) else None)
      ensures o.Next? && r.returned && m.payload.IsPush() ==> Passes(local.ownHash, m.relayers)
      ensures if r.claimed then multiset(inflight) == multiset(old(inflight)) - multiset{m.preamble.seqno} else inflight == old(inflight)
      ensures handled == old(handled) + if r.delivered then [m] else []
      ensures o.Next? ==> chain == if old(identity).key.Some? || solicited then SeePreamble(old(chain), m.preamble) else old(chain)
      ensures chain.tipHeight >= old(chain).tipHeight && chain.stableHeight >= old(chain).stableHeight
      ensures o.Next? ==> stats.msgsRx == old(stats).msgsRx + if old(identity).key.Some? || solicited then 1 else 0
      ensures o.Next? ==> stats.unsolicited == old(stats).unsolicited + if old(identity).key.Some? || solicited then 0 else 1
    {
      hide LawfulRun, LawfulControl, Lawful, StatsOk, ChainViewOk, Passes, PreambleValid, SeePreamble, Delivered, DataBreaks, DataReply, React;
      ghost var before := identity;
      var counts := identity.key.Some? || solicited;
      var c := HandleControl(local, view, m, solicited);
      if c.Fail? || (c.reply.Some? && !w.sends(m)) {
        r := Note(local, view, m, solicited, before, false, false, false, true);
        return Abort, r;
      }
      if c.reply.Some? {
        replies := replies + [c.reply.value];
      }
      o, r := PassOn(local, view, m, solicited, counts, c.consumed, before);
    }

    /** One inbound message. */
    method ProcessMessage(local: LocalPeer, view: BurnchainView, m: Message) returns (o: Outcome, ghost r: Record)
      requires Valid()
      modifies this
      ensures Valid() && run == old(run) + [r]
      ensures r.msg == m && r.view == view && r.local == local && r.solicited == (m.preamble.seqno in old(inflight))
      ensures r.before == old(identity) && r.after == identity
      ensures PreambleValid(w, setup, m.preamble, view) ==>
        var reaction := React(w, setup, local, view, m, r.solicited, old(identity), old(peerHeartbeat));
        Processed(w, local, m, reaction, r, o, old(replies), replies) && peerHeartbeat == reaction.heartbeat
      ensures !PreambleValid(w, setup, m.preamble, view) ==>
        o.Abort? && unchanged(`identity, `chain, `inflight, `replies, `peerHeartbeat) && !r.claimed && !r.delivered
      // a peer that accepts our handshake is known from then on
      ensures PreambleValid(w, setup, m.preamble, view) && m.payload.HandshakeAccept? && r.solicited && w.decode(m.payload.accepted.nodeKey).Some? ==>
        o.Next? && r.claimed && r.after == Introduced(w, m.preamble, m.payload.accepted)
      // one that has not introduced itself is told to
      ensures PreambleValid(w, setup, m.preamble, view) && old(identity).key.None? && m.payload.IsDataPlane() && w.sends(m) ==> o.Next?
      ensures o.Next? && old(identity).key.None? && m.payload.IsDataPlane() ==> !r.delivered && replies == old(replies) + [Nack(HANDSHAKE_REQUIRED)]
      ensures o == if r.ended then Abort else Next(if r.returned then Some(m) else None)
      ensures o.Next? ==> r.claimed == r.solicited && !(r.claimed && r.delivered)
      ensures o.Next? && r.returned && m.payload.IsPush() ==> Passes(local.ownHash, m.relayers)
      ensures if r.claimed then multiset(inflight) == multiset(old(inflight)) - multiset{m.preamble.seqno} else inflight == old(inflight)
      ensures handled == old(handled) + if r.delivered then [m] else []
      ensures o.Next? ==> chain == if old(identity).key.Some? || r.solicited then SeePreamble(old(chain), m.preamble) else old(chain)
      ensures chain.tipHeight >= old(chain).tipHeight && chain.stableHeight >= old(chain).stableHeight
      ensures o.Next? ==> stats.msgsRx + stats.unsolicited == old(stats).msgsRx + old(stats).unsolicited + 1
    {
      hide LawfulRun, LawfulControl, Lawful, StatsOk, ChainViewOk, Passes, PreambleValid, SeePreamble, Delivered, React, Introduced, Processed;
      ghost var before, replied, heartbeat := identity, replies, peerHeartbeat;
      var solicited := m.preamble.seqno in inflight;
      var valid := IsPreambleValid(m.preamble, view);
      if !valid {
        CountError();
        NothingLearned(w, setup, local, view, m, solicited, identity);
        r := Note(local, view, m, solicited, before, false, false, false, true);
        return Abort, r;
      }
      o, r := ProcessValid(local, view, m, solicited);
      PeersGetKnown(w, setup, local, view, m, before, heartbeat, r, o, replied, replies);
      StrangersAreNacked(w, setup, local, view, m, before, heartbeat, r, o, replied, replies);
    }

    method CountError()
      requires StatsOk(stats)
      modifies this`stats
      ensures StatsOk(stats) && stats.errors == old(stats).errors + 1 && stats.msgsRx == old(stats).msgsRx
      ensures stats.healthpoints != [] && !stats.healthpoints[|stats.healthpoints| - 1]
    {
      var points := AddHealthpoint(stats.healthpoints, false);
      stats := stats.(errors := stats.errors + 1, healthpoints := points);
    }

    method CountUnsolicited()
      requires StatsOk(stats)
      modifies this`stats
      ensures StatsOk(stats) && stats == old(stats).(unsolicited := old(stats).unsolicited + 1)
    {
      stats := stats.(unsolicited := stats.unsolicited + 1);
    }

    /** Write down what happened to a message. */
    ghost method Note(local: LocalPeer, view: BurnchainView, m: Message, solicited: bool, before: Identity,
                      claimed: bool, delivered: bool, returned: bool, ended: bool) returns (r: Record)
      requires LawfulRun(w, setup, run, Unknown(), before)
      requires LawfulControl(w, setup, local, view, m, solicited, before, identity)
      requires delivered && m.payload.IsDataPlane() ==> before.key.Some?
      requires claimed ==> solicited && !delivered
      requires returned ==> delivered
      modifies this`run
      ensures r == Record(view, local, m, solicited, before, identity, claimed, delivered, returned, ended)
      ensures run == old(run) + [r] && LawfulRun(w, setup, run, Unknown(), identity)
      ensures Delivered(run) == Delivered(old(run)) + if delivered then [m] else []
    {
      hide LawfulRun;
      r := Record(view, local, m, solicited, before, identity, claimed, delivered, returned, ended);
      RunGrows(w, setup, run, Unknown(), before, r);
      assert (run + [r])[..|run|] == run;
      run := run + [r];
    }

    /** At any time: a data-plane message that the handler was ever called with came after a proper introduction. */
    lemma HandledAfterIntroduction(m: Message) returns (k: nat, i: nat)
      requires Valid() && m in handled && m.payload.IsDataPlane()
      ensures k < i < |run| && run[i].msg == m && Introduces(w, run[k]) && run[k].before.key.None?
    {
      hide LawfulRun, Introduces;
      i := DeliveredFrom(run, m);
      k := DeliveredAfterIntroduction(w, setup, run, Unknown(), identity, i);
    }

    /** Carry on the conversation: every message of the inbox in turn, until one breaks it off. What
        comes back is what the run recorded as returned, in the order it arrived. */
    method Chat(local: LocalPeer, view: BurnchainView, inbox: seq<Message>) returns (r: Result<seq<Message>>, ghost done: seq<Record>)
      requires Valid()
      modifies this
      ensures Valid() && run == old(run) + done
      ensures Follows(done, inbox, old(identity), identity) && (r.Success? ==> |done| == |inbox|)
      ensures r == if Ended(done) then Failure else Success(Returned(done))
      ensures forall i :: 0 <= i < |done| - 1 ==> !done[i].ended
      ensures handled == old(handled) + Delivered(done)
      ensures old(identity).key.Some? ==> identity.key.Some?
      ensures chain.tipHeight >= old(chain).tipHeight && chain.stableHeight >= old(chain).stableHeight
    {
      hide LawfulRun, StatsOk, ChainViewOk, Follows, Returned, Delivered, PreambleValid, Passes, React, Processed, SeePreamble, Introduced;
      var unsolicited: seq<Message> := [];
      done := [];
      StartsEmpty(inbox, identity);
      for n := 0 to |inbox|
        invariant Valid() && run == old(run) + done && |done| == n
        invariant Follows(done, inbox, old(identity), identity) && unsolicited == Returned(done)
        invariant forall i :: 0 <= i < |done| ==> !done[i].ended
        invariant handled == old(handled) + Delivered(done)
        invariant chain.tipHeight >= old(chain).tipHeight && chain.stableHeight >= old(chain).stableHeight
      {
        ghost var before := identity;
        var o, step := ProcessMessage(local, view, inbox[n]);
        FollowsOn(done, inbox, old(identity), before, step);
        done := done + [step];
        if o.Abort? {
          KeyStays(w, setup, run, done, inbox, old(identity), identity);
          return Failure, done;
        }
        if o.passedOn.Some? {
          unsolicited := unsolicited + [o.passedOn.value];
        }
      }
      KeyStays(w, setup, run, done, inbox, old(identity), identity);
      return Success(unsolicited), done;
    }
  }

  ghost predicate Ended(run: seq<Record>) {
    run != [] && run[|run| - 1].ended
  }

  /** The messages that were returned, in order. */
  ghost function Returned(run: seq<Record>): seq<Message> {
    if run == [] then [] else
      var last := run[|run| - 1];
      Returned(run[..|run| - 1]) + if last.returned then [last.msg] else []
  }

  /** The records are about the first messages of the inbox, one each, and lead from start to end. */
  ghost predicate Follows(run: seq<Record>, inbox: seq<Message>, start: Identity, end: Identity) {
    && |run| <= |inbox|
    && (forall i :: 0 <= i < |run| ==> run[i].msg == inbox[i])
    && (forall i, j :: 0 <= i < j < |run| && j == i + 1 ==> run[j].before == run[i].after)
    && (if run == [] then end == start else run[0].before == start && run[|run| - 1].after == end)
  }

  lemma StartsEmpty(inbox: seq<Message>, start: Identity)
    ensures Follows([], inbox, start, start) && Returned([]) == [] && Delivered([]) == []
  {
  }

  lemma FollowsOn(run: seq<Record>, inbox: seq<Message>, start: Identity, mid: Identity, r: Record)
    requires Follows(run, inbox, start, mid) && |run| < |inbox| && r.msg == inbox[|run|] && r.before == mid
    ensures Follows(run + [r], inbox, start, r.after)
    ensures Returned(run + [r]) == Returned(run) + if r.returned then [r.msg] else []
    ensures Delivered(run + [r]) == Delivered(run) + if r.delivered then [r.msg] else []
  {
    hide Returned, Delivered;
    OneMoreRecord(run, r);
    var more := run + [r];
    assert more[|run|] == r && forall i :: 0 <= i < |run| ==> more[i] == run[i];
    forall i, j | 0 <= i < j < |more| && j == i + 1
      ensures more[j].before == more[i].after
    {
      if j == |run| {
        assert more[i] == run[|run| - 1];
      }
    }
  }

  lemma OneMoreRecord(run: seq<Record>, r: Record)
    ensures Returned(run + [r]) == Returned(run) + if r.returned then [r.msg] else []
    ensures Delivered(run + [r]) == Delivered(run) + if r.delivered then [r.msg] else []
  {
    assert (run + [r])[..|run|] == run;
  }

  /** A key, once there, is never removed. */
  lemma {:induction false} KeyStays(w: World, s: Setup, whole: seq<Record>, run: seq<Record>, inbox: seq<Message>, start: Identity, end: Identity)
    requires LawfulRun(w, s, whole, Unknown(), end) && |run| <= |whole| && run == whole[|whole| - |run|..]
    requires Follows(run, inbox, start, end)
    ensures start.key.Some? ==> end.key.Some?
  {
    for i := 0 to |run|
      invariant i < |run| && start.key.Some? ==> run[i].before.key.Some?
      invariant i == |run| && start.key.Some? ==> end.key.Some?
    {
      assert Lawful(w, s, whole[|whole| - |run| + i]);
    }
  }

  lemma {:induction false} NoneReceived(n: nat)
    ensures TotalReceived(map[], n) == 0
  {
    if n > 0 {
      NoneReceived(n - 1);
    }
  }

  /** A world in which every message can be sent, and nothing is signed. */
  function Smooth(): World {
    World((b: KeyBuffer) => None, (m: Message, b: KeyBuffer) => false, (h: nat) => 0 as bv32, (a: PeerAddress) => false,
          (m: Message) => true, (m: Message) => true, (m: Message) => None, (m: Message) => false)
  }

  /** A push from a peer without a key, under a sequence number that some request of ours waits for: it
      is nacked and never gets to the data plane, and the requester is handed it all the same. */
  method NackedButClaimed() returns (c: ConversationP2P, push: Message, ghost r: Record)
    ensures c.Valid() && c.run == [r] && r.msg == push && push.payload.IsPush()
    ensures r.before.key.None? && r.claimed && !r.delivered && c.handled == [] && c.replies == [Nack(HANDSHAKE_REQUIRED)]
  {
    hide LawfulRun, StatsOk, ChainViewOk, Lawful, React, Processed, Introduced, PreambleValid, SeePreamble, Passes;
    c := new ConversationP2P(Smooth(), Setup(1, 0, 0, true, 0, 0));
    c.inflight := [9];
    push := Message(Preamble(0, 1, 9, 5, 0, 5, 0, 7), [], Blocks);
    var view := BurnchainView(5, map[]);
    SameRulesAreValid(c.w, c.setup, view, push.preamble);
    var o;
    o, r := c.ProcessMessage(LocalPeer(2, 2, 60, false), view, push);
  }
}
