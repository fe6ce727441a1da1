/** Relayed messages: the checks a node makes before it relays one, and why relaying never loops. */
module Relaying {
  import opened Wrappers

  const MAX_RELAYERS_LEN: nat := 16

  /** Relayers are identified by the hash of their public key. */
  type KeyHash = nat

  datatype NeighborAddress = NeighborAddress(addrbytes: nat, port: nat, keyHash: KeyHash)

  datatype RelayData = RelayData(peer: NeighborAddress, seqno: nat)

  function Hashes(relayers: seq<RelayData>): (r: seq<KeyHash>)
    ensures |r| == |relayers| && forall i :: 0 <= i < |relayers| ==> r[i] == relayers[i].peer.keyHash
  {
    seq(|relayers|, i requires 0 <= i < |relayers| => relayers[i].peer.keyHash)
  }

  ghost predicate Distinct(s: seq<KeyHash>) {
    forall i, j :: 0 <= i < j < |s| ==> s[i] != s[j]
  }

  /** No relayer occurs twice. */
  method CheckRelayerCycles(relayers: seq<RelayData>) returns (ok: bool)
    ensures ok <==> Distinct(Hashes(relayers))
  {
    var addrs: set<KeyHash> := {};
    for i := 0 to |relayers|
      invariant forall h :: h in addrs <==> exists j :: 0 <= j < i && relayers[j].peer.keyHash == h
      invariant forall j, k :: 0 <= j < k < i ==> relayers[j].peer.keyHash != relayers[k].peer.keyHash
    {
      if relayers[i].peer.keyHash in addrs {
        var j :| 0 <= j < i && relayers[j].peer.keyHash == relayers[i].peer.keyHash;
        assert Hashes(relayers)[j] == Hashes(relayers)[i];
        return false;
      }
      addrs := addrs + {relayers[i].peer.keyHash};
    }
    return true;
  }

  /** We are not among the relayers. */
  method CheckRelayersRemote(own: KeyHash, relayers: seq<RelayData>) returns (ok: bool)
    ensures ok <==> own !in Hashes(relayers)
  {
    for i := 0 to |relayers|
      invariant forall j :: 0 <= j < i ==> relayers[j].peer.keyHash != own
    {
      if relayers[i].peer.keyHash == own {
        assert Hashes(relayers)[i] == own;
        return false;
      }
    }
    return true;
  }

  ghost predicate Passes(own: KeyHash, relayers: seq<RelayData>) {
    Distinct(Hashes(relayers)) && own !in Hashes(relayers)
  }

  /** How often each relayer was seen, and with how many bytes. */
  datatype RelayStats = RelayStats(messages: nat, bytes: nat)

  type Relayed = map<NeighborAddress, RelayStats>

  function AddRelayer(stats: Relayed, a: NeighborAddress, bytes: nat): Relayed {
    stats[a := if a in stats then RelayStats(stats[a].messages + 1, stats[a].bytes + bytes) else RelayStats(1, bytes)]
  }

  function Peers(relayers: seq<RelayData>): (r: seq<NeighborAddress>)
    ensures |r| == |relayers| && forall i :: 0 <= i < |relayers| ==> r[i] == relayers[i].peer
  {
    seq(|relayers|, i requires 0 <= i < |relayers| => relayers[i].peer)
  }

  /** The statistics count every relayer of a message that passes, once, and nothing else. */
  ghost predicate Counted(stats: Relayed, stats': Relayed, peers: seq<NeighborAddress>, bytes: nat) {
    && stats'.Keys == stats.Keys + (set a | a in peers)
    && (forall a :: a in stats && a !in peers ==> stats'[a] == stats[a])
    && (forall a :: a in peers && a in stats ==> stats'[a] == RelayStats(stats[a].messages + 1, stats[a].bytes + bytes))
    && (forall a :: a in peers && a !in stats ==> stats'[a] == RelayStats(1, bytes))
  }

  lemma NothingCounted(stats: Relayed, bytes: nat)
    ensures Counted(stats, stats, [], bytes)
  {
  }

  lemma CountOneMore(stats: Relayed, stats': Relayed, peers: seq<NeighborAddress>, a: NeighborAddress, bytes: nat)
    requires Counted(stats, stats', peers, bytes) && a !in peers
    ensures Counted(stats, AddRelayer(stats', a, bytes), peers + [a], bytes)
  {
  }

  /** Relayers with different key hashes have different addresses. */
  lemma PeersAreDistinct(relayers: seq<RelayData>, i: nat)
    requires Distinct(Hashes(relayers)) && i < |relayers|
    ensures relayers[i].peer !in Peers(relayers)[..i]
  {
    forall j | 0 <= j < i
      ensures Peers(relayers)[..i][j] != relayers[i].peer
    {
      assert Hashes(relayers)[j] != Hashes(relayers)[i];
    }
  }

  method ProcessRelayers(own: KeyHash, relayers: seq<RelayData>, bytes: nat, stats: Relayed) returns (ok: bool, stats': Relayed)
    ensures ok <==> Passes(own, relayers)
    ensures ok ==> Counted(stats, stats', Peers(relayers), bytes)
    ensures !ok ==> stats' == stats
  {
    hide Counted, AddRelayer;
    stats' := stats;
    ok := CheckRelayerCycles(relayers);
    if !ok {
      return;
    }
    ok := CheckRelayersRemote(own, relayers);
    if !ok {
      return;
    }
    ghost var peers := Peers(relayers);
    NothingCounted(stats, bytes);
    for i := 0 to |relayers|
      invariant Counted(stats, stats', peers[..i], bytes)
    {
      var a := relayers[i].peer;
      assert peers[..i + 1] == peers[..i] + [a];
      PeersAreDistinct(relayers, i);
      CountOneMore(stats, stats', peers[..i], a, bytes);
      stats' := AddRelayer(stats', a, bytes);
    }
    assert peers[..|peers|] == peers;
  }

  /** Sign a message on and append ourselves as its latest relayer. */
  function SignRelay(own: NeighborAddress, seqno: nat, relayers: seq<RelayData>): (r: Result<seq<RelayData>>)
    ensures r.Success? <==> |relayers| < 16 && own.keyHash !in Hashes(relayers)
    ensures r.Success? ==> Hashes(r.value) == Hashes(relayers) + [own.keyHash]
  {
    if |relayers| >= MAX_RELAYERS_LEN || own.keyHash in Hashes(relayers) then Failure else Success(relayers + [RelayData(own, seqno)])
  }

  // ---------- Paths through the network ----------

  /** A path: each node in turn receives the message, lets it pass, and signs it on. `lists[i]` is what node i receives. */
  ghost predicate IsPath(nodes: seq<KeyHash>, lists: seq<seq<RelayData>>) {
    && |lists| == |nodes| + 1
    && forall i :: 0 <= i < |nodes| ==>
      && Passes(nodes[i], lists[i])
      && exists own: NeighborAddress, seqno: nat :: own.keyHash == nodes[i] && SignRelay(own, seqno, lists[i]) == Success(lists[i + 1])
  }

  lemma HopAppends(nodes: seq<KeyHash>, lists: seq<seq<RelayData>>, i: nat)
    requires IsPath(nodes, lists) && i < |nodes|
    ensures Hashes(lists[i + 1]) == Hashes(lists[i]) + [nodes[i]] && |lists[i]| < MAX_RELAYERS_LEN
  {
    assert Passes(nodes[i], lists[i]);
    var own: NeighborAddress, seqno: nat :| own.keyHash == nodes[i] && SignRelay(own, seqno, lists[i]) == Success(lists[i + 1]);
    var r := SignRelay(own, seqno, lists[i]);
    assert r.value == lists[i + 1];
  }

  /** The list grows by exactly the nodes on the path. */
  lemma {:induction false} PathIsRecorded(nodes: seq<KeyHash>, lists: seq<seq<RelayData>>, i: nat)
    requires IsPath(nodes, lists) && i <= |nodes|
    ensures Hashes(lists[i]) == Hashes(lists[0]) + nodes[..i]
  {
    if i > 0 {
      PathIsRecorded(nodes, lists, i - 1);
      HopAppends(nodes, lists, i - 1);
      assert nodes[..i] == nodes[..i - 1] + [nodes[i - 1]];
    } else {
      assert nodes[..0] == [];
    }
  }

  /** No node relays a message twice, nor one that already claims to have been relayed by it. */
  lemma NoNodeTwice(nodes: seq<KeyHash>, lists: seq<seq<RelayData>>)
    requires IsPath(nodes, lists)
    ensures Distinct(nodes)
    ensures forall i :: 0 <= i < |nodes| ==> nodes[i] !in Hashes(lists[0])
  {
    forall j | 0 <= j < |nodes|
      ensures nodes[j] !in Hashes(lists[0]) && forall i :: 0 <= i < j ==> nodes[i] != nodes[j]
    {
      PathIsRecorded(nodes, lists, j);
      assert nodes[j] !in Hashes(lists[0]) + nodes[..j];
      forall i | 0 <= i < j
        ensures nodes[i] != nodes[j]
      {
        assert nodes[..j][i] == nodes[i];
        assert nodes[i] in Hashes(lists[0]) + nodes[..j];
      }
    }
  }

  lemma {:induction false} Pigeonhole(s: seq<KeyHash>, universe: set<KeyHash>)
    requires Distinct(s) && forall i :: 0 <= i < |s| ==> s[i] in universe
    ensures |s| <= |universe|
  {
    if s != [] {
      var n := |s| - 1;
      Pigeonhole(s[..n], universe - {s[n]});
    }
  }

  /** In a network of N nodes every path has at most N relays, and never more than fit in a message. */
  lemma PathsAreShort(nodes: seq<KeyHash>, lists: seq<seq<RelayData>>, network: set<KeyHash>)
    requires IsPath(nodes, lists) && forall i :: 0 <= i < |nodes| ==> nodes[i] in network
    ensures |nodes| <= |network|
    ensures |lists[0]| <= MAX_RELAYERS_LEN ==> |lists[0]| + |nodes| <= MAX_RELAYERS_LEN
  {
    NoNodeTwice(nodes, lists);
    Pigeonhole(nodes, network);
    PathIsRecorded(nodes, lists, |nodes|);
    assert nodes[..|nodes|] == nodes;
    if |nodes| > 0 {
      PathIsRecorded(nodes, lists, |nodes| - 1);
      HopAppends(nodes, lists, |nodes| - 1);
    }
  }
}
