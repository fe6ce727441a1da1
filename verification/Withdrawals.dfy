/** Withdrawal ids and the keys of the withdrawal Merkle tree. */
module Withdrawals {
  import opened Wrappers

  const U32_SIZE: nat := 0x1_0000_0000

  type Principal = nat

  datatype Asset = Asset(contract: Principal, name: string)

  datatype Event =
    | StxWithdraw(sender: Principal, amount: nat, id: Option<nat>)
    | FtWithdraw(asset: Asset, sender: Principal, amount: nat, id: Option<nat>)
    | NftWithdraw(asset: Asset, sender: Principal, tokenId: nat, id: Option<nat>)
    | OtherEvent(data: nat)
  {
    predicate IsWithdrawal() { !OtherEvent? }
  }

  /** A transaction receipt; `rest` stands for the fields that are not events. */
  datatype Receipt = Receipt(rest: nat, events: seq<Event>)

  // ---------- Keys ----------

  /** The Clarity values that make up a withdrawal key. */
  datatype Value = Ascii(text: string) | UInt(n: nat) | PrincipalValue(p: Principal) | Tuple(fields: map<string, Value>)

  function KeyOf(e: Event, id: nat, height: nat): Value
    requires e.IsWithdrawal()
  {
    match e
    case StxWithdraw(sender, amount, _) =>
      Tuple(map["type" := Ascii("stx"), "height" := UInt(height), "withdrawal-id" := UInt(id),
                "recipient" := PrincipalValue(sender), "amount" := UInt(amount)])
    case FtWithdraw(asset, sender, amount, _) =>
      Tuple(map["type" := Ascii("ft"), "asset-contract" := PrincipalValue(asset.contract), "height" := UInt(height),
                "withdrawal-id" := UInt(id), "recipient" := PrincipalValue(sender), "amount" := UInt(amount)])
    case NftWithdraw(asset, sender, tokenId, _) =>
      Tuple(map["type" := Ascii("nft"), "asset-contract" := PrincipalValue(asset.contract), "height" := UInt(height),
                "withdrawal-id" := UInt(id), "recipient" := PrincipalValue(sender), "nft-id" := UInt(tokenId)])
  }

  /** The same kind and amount of the same contract's asset, withdrawn by the same principal. Neither
      an asset's name nor the id that an event carries makes a difference. */
  predicate SameSubject(e: Event, f: Event)
    requires e.IsWithdrawal() && f.IsWithdrawal()
  {
    && e.sender == f.sender
    && match e
       case StxWithdraw(_, amount, _) => f.StxWithdraw? && amount == f.amount
       case FtWithdraw(asset, _, amount, _) => f.FtWithdraw? && amount == f.amount && asset.contract == f.asset.contract
       case NftWithdraw(asset, _, tokenId, _) => f.NftWithdraw? && tokenId == f.tokenId && asset.contract == f.asset.contract
  }

  /** A key tells the id, the height, and what is withdrawn by whom, and nothing else. */
  lemma KeyTells(e: Event, id: nat, height: nat, f: Event, id': nat, height': nat)
    requires e.IsWithdrawal() && f.IsWithdrawal()
    ensures KeyOf(e, id, height) == KeyOf(f, id', height') <==> id == id' && height == height' && SameSubject(e, f)
  {
    hide Read;
    if KeyOf(e, id, height) == KeyOf(f, id', height') {
      KeyReadsBack(e, id, height);
      KeyReadsBack(f, id', height');
    }
  }

  lemma TypesDiffer()
    ensures "stx" != "ft" && "stx" != "nft" && "ft" != "nft"
  {
    assert |"stx"| == 3 && |"ft"| == 2 && |"nft"| == 3 && "stx"[0] == 's' && "nft"[0] == 'n';
  }

  function WithId(e: Event, id: nat): Event
    requires e.IsWithdrawal()
  {
    match e
    case StxWithdraw(s, a, _) => StxWithdraw(s, a, Some(id))
    case FtWithdraw(x, s, a, _) => FtWithdraw(x, s, a, Some(id))
    case NftWithdraw(x, s, t, _) => NftWithdraw(x, s, t, Some(id))
  }

  /** The k-th withdrawal of a block gets id k, in 32 bits. */
  function Label(e: Event, k: nat): Event {
    if e.IsWithdrawal() then WithId(e, k % U32_SIZE) else e
  }

  // ---------- Blocks ----------

  function Count(events: seq<Event>): nat {
    if events == [] then 0 else Count(events[..|events| - 1]) + if events[|events| - 1].IsWithdrawal() then 1 else 0
  }

  function Labelled(events: seq<Event>, start: nat): (r: seq<Event>)
    ensures |r| == |events|
  {
    if events == [] then []
    else
      var n := |events| - 1;
      Labelled(events[..n], start) + [Label(events[n], start + Count(events[..n]))]
  }

  function KeysOf(events: seq<Event>, start: nat, height: nat): (r: seq<Value>)
    ensures |r| == Count(events)
  {
    if events == [] then []
    else
      var n := |events| - 1;
      KeysOf(events[..n], start, height)
      + if events[n].IsWithdrawal() then [KeyOf(events[n], (start + Count(events[..n])) % U32_SIZE, height)] else []
  }

  function AllEvents(rs: seq<Receipt>): seq<Event> {
    if rs == [] then [] else AllEvents(rs[..|rs| - 1]) + rs[|rs| - 1].events
  }

  function LabelledReceipts(rs: seq<Receipt>): (r: seq<Receipt>)
    ensures |r| == |rs|
  {
    if rs == [] then []
    else
      var n := |rs| - 1;
      LabelledReceipts(rs[..n]) + [rs[n].(events := Labelled(rs[n].events, Count(AllEvents(rs[..n]))))]
  }

  // ---------- What the labelling means ----------

  lemma {:induction false} CountSplits(a: seq<Event>, b: seq<Event>)
    ensures Count(a + b) == Count(a) + Count(b)
  {
    if b == [] {
      assert a + b == a;
    } else {
      assert (a + b)[..|a + b| - 1] == a + b[..|b| - 1];
      CountSplits(a, b[..|b| - 1]);
    }
  }

  lemma {:induction false} LabelledSplits(a: seq<Event>, b: seq<Event>, start: nat)
    ensures Labelled(a + b, start) == Labelled(a, start) + Labelled(b, start + Count(a))
  {
    if b == [] {
      assert a + b == a;
    } else {
      var n := |b| - 1;
      assert (a + b)[..|a + b| - 1] == a + b[..n];
      LabelledSplits(a, b[..n], start);
      CountSplits(a, b[..n]);
    }
  }

  /** Labelling receipt by receipt is labelling all events of the block in one go. */
  lemma {:induction false} ReceiptsAreLabelledThrough(rs: seq<Receipt>)
    ensures AllEvents(LabelledReceipts(rs)) == Labelled(AllEvents(rs), 0)
  {
    hide Labelled, Count;
    if rs == [] {
      LabelledNothing();
    } else {
      var n := |rs| - 1;
      ReceiptsAreLabelledThrough(rs[..n]);
      LabelledSplits(AllEvents(rs[..n]), rs[n].events, 0);
      var last := rs[n].(events := Labelled(rs[n].events, Count(AllEvents(rs[..n]))));
      assert LabelledReceipts(rs) == LabelledReceipts(rs[..n]) + [last];
      AllEventsAppend(LabelledReceipts(rs[..n]), last);
    }
  }

  lemma AllEventsAppend(rs: seq<Receipt>, r: Receipt)
    ensures AllEvents(rs + [r]) == AllEvents(rs) + r.events
  {
    assert (rs + [r])[..|rs|] == rs;
  }

  lemma LabelledNothing()
    ensures Labelled([], 0) == []
  {
  }

  /** Every event keeps its place; a withdrawal gets as its id the number of withdrawals before it. */
  lemma {:induction false} LabelAt(events: seq<Event>, start: nat, i: nat)
    requires i < |events|
    ensures Labelled(events, start)[i] == Label(events[i], start + Count(events[..i]))
  {
    var n := |events| - 1;
    if i < n {
      LabelAt(events[..n], start, i);
      assert events[..n][..i] == events[..i];
    }
  }

  /** Forget the ids. */
  function Unlabelled(e: Event): Event {
    match e
    case StxWithdraw(s, a, _) => StxWithdraw(s, a, None)
    case FtWithdraw(x, s, a, _) => FtWithdraw(x, s, a, None)
    case NftWithdraw(x, s, t, _) => NftWithdraw(x, s, t, None)
    case OtherEvent(d) => OtherEvent(d)
  }

  /** Two event lists that agree up to the ids are labelled alike and give the same keys. */
  lemma {:induction false} IdsDoNotMatter(a: seq<Event>, b: seq<Event>, start: nat, height: nat)
    requires |a| == |b| && forall i :: 0 <= i < |a| ==> Unlabelled(a[i]) == Unlabelled(b[i])
    ensures Count(a) == Count(b) && Labelled(a, start) == Labelled(b, start) && KeysOf(a, start, height) == KeysOf(b, start, height)
  {
    if a != [] {
      var n := |a| - 1;
      IdsDoNotMatter(a[..n], b[..n], start, height);
      assert Unlabelled(a[n]) == Unlabelled(b[n]);
    }
  }

  lemma LabelledKeepsTheRest(events: seq<Event>, start: nat)
    ensures forall i :: 0 <= i < |events| ==> Unlabelled(Labelled(events, start)[i]) == Unlabelled(events[i])
  {
    forall i | 0 <= i < |events|
      ensures Unlabelled(Labelled(events, start)[i]) == Unlabelled(events[i])
    {
      LabelAt(events, start, i);
    }
  }

  /** Only withdrawal ids change, and a second run changes nothing and gives the same keys. */
  lemma {:induction false} SecondRunIsSame(rs: seq<Receipt>, height: nat)
    ensures LabelledReceipts(LabelledReceipts(rs)) == LabelledReceipts(rs)
    ensures KeysOf(AllEvents(LabelledReceipts(rs)), 0, height) == KeysOf(AllEvents(rs), 0, height)
  {
    var events := AllEvents(rs);
    ReceiptsAreLabelledThrough(rs);
    LabelledKeepsTheRest(events, 0);
    IdsDoNotMatter(Labelled(events, 0), events, 0, height);
    if rs != [] {
      var n := |rs| - 1;
      SecondRunIsSame(rs[..n], height);
      var once := LabelledReceipts(rs);
      assert once[..n] == LabelledReceipts(rs[..n]);
      SameOffset(rs[..n]);
      var start := Count(AllEvents(rs[..n]));
      LabelledKeepsTheRest(rs[n].events, start);
      IdsDoNotMatter(Labelled(rs[n].events, start), rs[n].events, start, height);
    }
  }

  lemma SameOffset(rs: seq<Receipt>)
    ensures Count(AllEvents(LabelledReceipts(rs))) == Count(AllEvents(rs))
  {
    ReceiptsAreLabelledThrough(rs);
    LabelledKeepsTheRest(AllEvents(rs), 0);
    IdsDoNotMatter(Labelled(AllEvents(rs), 0), AllEvents(rs), 0, 0);
  }

  lemma {:induction false} ReceiptsKeepTheRest(rs: seq<Receipt>, i: nat, j: nat)
    requires i < |rs| && j < |rs[i].events|
    ensures var r := LabelledReceipts(rs)[i];
            r.rest == rs[i].rest && |r.events| == |rs[i].events| && Unlabelled(r.events[j]) == Unlabelled(rs[i].events[j])
  {
    var n := |rs| - 1;
    if i < n {
      ReceiptsKeepTheRest(rs[..n], i, j);
    } else {
      LabelledKeepsTheRest(rs[n].events, Count(AllEvents(rs[..n])));
    }
  }

  // ---------- Distinct keys ----------

  /** The withdrawals among some events. */
  function Withdrawn(events: seq<Event>): (r: seq<Event>)
    ensures |r| == Count(events) && forall k :: 0 <= k < |r| ==> r[k].IsWithdrawal()
  {
    if events == [] then []
    else
      var n := |events| - 1;
      Withdrawn(events[..n]) + if events[n].IsWithdrawal() then [events[n]] else []
  }

  /** The k-th key is that of the k-th withdrawal and carries k. */
  lemma {:induction false} KeyAt(events: seq<Event>, start: nat, height: nat, k: nat)
    requires k < Count(events)
    ensures KeysOf(events, start, height)[k] == KeyOf(Withdrawn(events)[k], (start + k) % U32_SIZE, height)
  {
    hide KeyOf;
    var n := |events| - 1;
    if k < Count(events[..n]) {
      KeyAt(events[..n], start, height, k);
    }
  }

  /** Two keys, of one block or of two, coincide exactly when the heights agree, the ids agree in 32
      bits, and the same is withdrawn. */
  lemma KeysCoincideExactly(a: seq<Event>, height: nat, i: nat, b: seq<Event>, height': nat, j: nat)
    requires i < Count(a) && j < Count(b)
    ensures KeysOf(a, 0, height)[i] == KeysOf(b, 0, height')[j]
            <==> height == height' && i % U32_SIZE == j % U32_SIZE && SameSubject(Withdrawn(a)[i], Withdrawn(b)[j])
  {
    hide KeyOf, SameSubject;
    KeyAt(a, 0, height, i);
    KeyAt(b, 0, height', j);
    KeyTells(Withdrawn(a)[i], i % U32_SIZE, height, Withdrawn(b)[j], j % U32_SIZE, height');
  }

  /** The keys of one block are pairwise distinct, as long as 32 bits are enough for the ids. */
  lemma KeysAreDistinct(events: seq<Event>, height: nat, i: nat, j: nat)
    requires i < j < Count(events) <= U32_SIZE
    ensures KeysOf(events, 0, height)[i] != KeysOf(events, 0, height)[j]
  {
    hide KeysOf, SameSubject;
    KeysCoincideExactly(events, height, i, events, height, j);
  }

  /** Keys of blocks at different heights never coincide. */
  lemma HeightsAreDistinct(a: seq<Event>, b: seq<Event>, height: nat, height': nat, i: nat, j: nat)
    requires i < Count(a) && j < Count(b) && height != height'
    ensures KeysOf(a, 0, height)[i] != KeysOf(b, 0, height')[j]
  {
    hide KeysOf, SameSubject;
    KeysCoincideExactly(a, height, i, b, height', j);
  }

  /** Past 32 bits the ids start over, and two equal withdrawals that far apart share a key. */
  lemma KeysRepeat(events: seq<Event>, height: nat, e: Event, k: nat)
    requires e.IsWithdrawal() && k + U32_SIZE < |events| && forall i :: 0 <= i < |events| ==> events[i] == e
    ensures Count(events) == |events|
    ensures KeysOf(events, 0, height)[k] == KeysOf(events, 0, height)[k + U32_SIZE]
  {
    hide KeysOf, Count;
    AllCount(events, e);
    KeysCoincideExactly(events, height, k, events, height, k + U32_SIZE);
    assert (k + U32_SIZE) % U32_SIZE == k % U32_SIZE;
    AllWithdrawn(events, e, k);
    AllWithdrawn(events, e, k + U32_SIZE);
  }

  lemma {:induction false} AllWithdrawn(events: seq<Event>, e: Event, k: nat)
    requires k < Count(events) && forall i :: 0 <= i < |events| ==> events[i] == e
    ensures Withdrawn(events)[k] == e
  {
    var n := |events| - 1;
    if k < Count(events[..n]) {
      AllWithdrawn(events[..n], e, k);
    }
  }

  lemma {:induction false} AllCount(events: seq<Event>, e: Event)
    requires e.IsWithdrawal() && forall i :: 0 <= i < |events| ==> events[i] == e
    ensures Count(events) == |events|
  {
    if events != [] {
      AllCount(events[..|events| - 1], e);
    }
  }

  // ---------- Reading keys ----------

  /** What a key claims: what is withdrawn, to whom, as which withdrawal of which block. */
  datatype Claim =
    | StxClaim(recipient: Principal, amount: nat, id: nat, height: nat)
    | FtClaim(contract: Principal, recipient: Principal, amount: nat, id: nat, height: nat)
    | NftClaim(contract: Principal, recipient: Principal, tokenId: nat, id: nat, height: nat)

  function UIntAt(v: Value, name: string): Option<nat> {
    if v.Tuple? && name in v.fields && v.fields[name].UInt? then Some(v.fields[name].n) else None
  }

  function PrincipalAt(v: Value, name: string): Option<Principal> {
    if v.Tuple? && name in v.fields && v.fields[name].PrincipalValue? then Some(v.fields[name].p) else None
  }

  predicate HasType(v: Value, kind: string) {
    v.Tuple? && "type" in v.fields && v.fields["type"] == Ascii(kind)
  }

  /** A reader of keys that knows the three tuple layouts. */
  function Read(v: Value): Option<Claim> {
    var height, id, recipient := UIntAt(v, "height"), UIntAt(v, "withdrawal-id"), PrincipalAt(v, "recipient");
    var contract, amount, token := PrincipalAt(v, "asset-contract"), UIntAt(v, "amount"), UIntAt(v, "nft-id");
    if height.None? || id.None? || recipient.None? then None
    else if HasType(v, "stx") && amount.Some? then Some(StxClaim(recipient.value, amount.value, id.value, height.value))
    else if HasType(v, "ft") && contract.Some? && amount.Some? then Some(FtClaim(contract.value, recipient.value, amount.value, id.value, height.value))
    else if HasType(v, "nft") && contract.Some? && token.Some? then Some(NftClaim(contract.value, recipient.value, token.value, id.value, height.value))
    else None
  }

  function ClaimOf(e: Event, id: nat, height: nat): Claim
    requires e.IsWithdrawal()
  {
    match e
    case StxWithdraw(sender, amount, _) => StxClaim(sender, amount, id, height)
    case FtWithdraw(asset, sender, amount, _) => FtClaim(asset.contract, sender, amount, id, height)
    case NftWithdraw(asset, sender, tokenId, _) => NftClaim(asset.contract, sender, tokenId, id, height)
  }

  /** The round trip of one key, and the exact layout of its tuple. */
  lemma KeyReadsBack(e: Event, id: nat, height: nat)
    requires e.IsWithdrawal()
    ensures Read(KeyOf(e, id, height)) == Some(ClaimOf(e, id, height))
    ensures KeyOf(e, id, height).fields.Keys ==
      {"type", "height", "withdrawal-id", "recipient"} + match e
        case StxWithdraw(_, _, _) => {"amount"}
        case FtWithdraw(_, _, _, _) => {"asset-contract", "amount"}
        case NftWithdraw(_, _, _, _) => {"asset-contract", "nft-id"}
  {
    TypesDiffer();
  }

  /** The round trip of a block: the k-th key, read back, is the k-th withdrawal with id k at this height. */
  lemma BlockReadsBack(events: seq<Event>, height: nat, k: nat)
    requires k < Count(events)
    ensures Read(KeysOf(events, 0, height)[k]) == Some(ClaimOf(Withdrawn(events)[k], k % 0x1_0000_0000, height))
  {
    hide KeysOf, KeyOf, Read, ClaimOf;
    KeyAt(events, 0, height, k);
    KeyReadsBack(Withdrawn(events)[k], k % U32_SIZE, height);
  }

  /** The withdrawals of a block are its withdrawal events, each at the position that its id says. */
  lemma {:induction false} WithdrawnAt(events: seq<Event>, i: nat)
    requires i < |events| && events[i].IsWithdrawal()
    ensures Count(events[..i]) < Count(events) && Withdrawn(events)[Count(events[..i])] == events[i]
  {
    var n := |events| - 1;
    if i < n {
      WithdrawnAt(events[..n], i);
      assert events[..n][..i] == events[..i];
    }
  }

  // ---------- The loops ----------

  method GenerateKeyFromEvent(e: Event, id: nat, height: nat) returns (e': Event, key: Option<Value>)
    ensures e.IsWithdrawal() ==> e' == WithId(e, id) && key == Some(KeyOf(e, id, height))
    ensures !e.IsWithdrawal() ==> e' == e && key.None?
    ensures e.StxWithdraw? ==> e' == StxWithdraw(e.sender, e.amount, Some(id)) && Read(key.value) == Some(StxClaim(e.sender, e.amount, id, height))
    ensures e.FtWithdraw? ==> e' == FtWithdraw(e.asset, e.sender, e.amount, Some(id)) && Read(key.value) == Some(FtClaim(e.asset.contract, e.sender, e.amount, id, height))
    ensures e.NftWithdraw? ==> e' == NftWithdraw(e.asset, e.sender, e.tokenId, Some(id)) && Read(key.value) == Some(NftClaim(e.asset.contract, e.sender, e.tokenId, id, height))
    ensures e.OtherEvent? ==> e' == e && key.None?
  {
    hide Read, KeyOf;
    if e.IsWithdrawal() {
      KeyReadsBack(e, id, height);
      KeyReadsBack(WithId(e, id), id, height);
      KeyTells(e, id, height, WithId(e, id), id, height);
    }
    match e {
      case StxWithdraw(sender, amount, _) =>
        e' := StxWithdraw(sender, amount, Some(id));
        key := Some(KeyOf(e', e'.id.value, height));
      case FtWithdraw(asset, sender, amount, _) =>
        e' := FtWithdraw(asset, sender, amount, Some(id));
        key := Some(KeyOf(e', e'.id.value, height));
      case NftWithdraw(asset, sender, tokenId, _) =>
        e' := NftWithdraw(asset, sender, tokenId, Some(id));
        key := Some(KeyOf(e', e'.id.value, height));
      case OtherEvent(_) =>
        e', key := e, None;
    }
  }

  function Serialized(keys: seq<Value>, ser: Value -> seq<Byte>): (r: seq<seq<Byte>>)
    ensures |r| == |keys| && forall i :: 0 <= i < |keys| ==> r[i] == ser(keys[i])
  {
    seq(|keys|, i requires 0 <= i < |keys| => ser(keys[i]))
  }

  lemma {:induction false} KeysSplit(a: seq<Event>, b: seq<Event>, start: nat, height: nat)
    ensures KeysOf(a + b, start, height) == KeysOf(a, start, height) + KeysOf(b, start + Count(a), height)
  {
    hide KeyOf;
    if b == [] {
      assert a + b == a;
    } else {
      var n := |b| - 1;
      assert (a + b)[..|a + b| - 1] == a + b[..n];
      KeysSplit(a, b[..n], start, height);
      CountSplits(a, b[..n]);
    }
  }

  /** The inner loop: the events of one receipt, starting from the current id. */
  method LabelEvents(events: seq<Event>, ghost start: nat, id0: nat, height: nat, ser: Value -> seq<Byte>, items0: seq<seq<Byte>>)
    returns (events': seq<Event>, id: nat, items: seq<seq<Byte>>)
    requires id0 == start % U32_SIZE
    ensures events' == Labelled(events, start)
    ensures id == (start + Count(events)) % U32_SIZE
    ensures items == items0 + Serialized(KeysOf(events, start, height), ser)
  {
    hide KeyOf, Labelled, Count, KeysOf, Label, WithId, Read;
    events', id, items := events, id0, items0;
    LabelledFrom(start);
    Nothing(start, height);
    for j := 0 to |events|
      invariant |events'| == |events| && events'[..j] == Labelled(events[..j], start) && events'[j..] == events[j..]
      invariant id == (start + Count(events[..j])) % U32_SIZE
      invariant items == items0 + Serialized(KeysOf(events[..j], start, height), ser)
    {
      LabelStep(events, start, height, j);
      assert events'[j] == events'[j..][0];
      var e', key := GenerateKeyFromEvent(events'[j], id, height);
      Relabel(events', j, e');
      events' := events'[j := e'];
      if key.Some? {
        NextId(start + Count(events[..j]));
        id := (id + 1) % U32_SIZE;
        items := items + [ser(key.value)];
      }
    }
    assert events[..|events|] == events && events'[..|events|] == events';
  }

  lemma LabelledFrom(start: nat)
    ensures Labelled([], start) == []
  {
  }

  lemma Relabel(s: seq<Event>, j: nat, e: Event)
    requires j < |s|
    ensures s[j := e][..j + 1] == s[..j] + [e] && s[j := e][j + 1..] == s[j..][1..]
  {
  }

  lemma LabelStep(events: seq<Event>, start: nat, height: nat, j: nat)
    requires j < |events|
    ensures var c, e := Count(events[..j]), events[j];
            if e.IsWithdrawal() then
              && Count(events[..j + 1]) == c + 1
              && Labelled(events[..j + 1], start) == Labelled(events[..j], start) + [WithId(e, (start + c) % U32_SIZE)]
              && KeysOf(events[..j + 1], start, height) == KeysOf(events[..j], start, height) + [KeyOf(e, (start + c) % U32_SIZE, height)]
            else
              && Count(events[..j + 1]) == c
              && Labelled(events[..j + 1], start) == Labelled(events[..j], start) + [e]
              && KeysOf(events[..j + 1], start, height) == KeysOf(events[..j], start, height)
  {
    hide KeyOf;
    assert events[..j + 1][..j] == events[..j];
  }

  lemma NextId(c: nat)
    ensures (c % U32_SIZE + 1) % U32_SIZE == (c + 1) % U32_SIZE
  {
  }

  /** Ids are assigned in the order of receipts and events, in place; the keys come out in the same order. */
  method GenerateWithdrawalKeys(receipts: array<Receipt>, height: nat, ser: Value -> seq<Byte>) returns (items: seq<seq<Byte>>)
    modifies receipts
    ensures receipts[..] == LabelledReceipts(old(receipts[..]))
    ensures items == Serialized(KeysOf(AllEvents(old(receipts[..])), 0, height), ser)
  {
    hide KeysOf, Labelled, Count, AllEvents, LabelledReceipts;
    ghost var rs := receipts[..];
    items := [];
    var id := 0;
    NoReceipts(height);
    for i := 0 to receipts.Length
      invariant receipts[..i] == LabelledReceipts(rs[..i])
      invariant forall k :: i <= k < receipts.Length ==> receipts[k] == rs[k]
      invariant id == Count(AllEvents(rs[..i])) % U32_SIZE
      invariant items == Serialized(KeysOf(AllEvents(rs[..i]), 0, height), ser)
    {
      BlockStep(rs, height, i);
      ghost var done := receipts[..i];
      var events';
      events', id, items := LabelEvents(receipts[i].events, Count(AllEvents(rs[..i])), id, height, ser, items);
      receipts[i] := receipts[i].(events := events');
      assert receipts[..i + 1] == done + [receipts[i]];
    }
    assert rs[..|rs|] == rs && receipts[..receipts.Length] == receipts[..];
  }

  lemma NoReceipts(height: nat)
    ensures AllEvents([]) == [] && LabelledReceipts([]) == [] && Count([]) == 0 && KeysOf([], 0, height) == []
  {
  }

  lemma BlockStep(rs: seq<Receipt>, height: nat, i: nat)
    requires i < |rs|
    ensures var start := Count(AllEvents(rs[..i]));
            && LabelledReceipts(rs[..i + 1]) == LabelledReceipts(rs[..i]) + [rs[i].(events := Labelled(rs[i].events, start))]
            && Count(AllEvents(rs[..i + 1])) == start + Count(rs[i].events)
            && KeysOf(AllEvents(rs[..i + 1]), 0, height) == KeysOf(AllEvents(rs[..i]), 0, height) + KeysOf(rs[i].events, start, height)
  {
    hide KeysOf, Labelled, Count;
    assert rs[..i + 1][..i] == rs[..i];
    KeysSplit(AllEvents(rs[..i]), rs[i].events, 0, height);
    CountSplits(AllEvents(rs[..i]), rs[i].events);
  }

  lemma Nothing(start: nat, height: nat)
    ensures Count([]) == 0 && KeysOf([], start, height) == []
  {
  }

  /** With an injective serialization, two items of the trees of any two blocks coincide exactly when
      the keys do: never across heights, and in one block only 2^32 withdrawals apart. */
  lemma ItemsCoincideExactly(a: seq<Event>, height: nat, i: nat, b: seq<Event>, height': nat, j: nat, ser: Value -> seq<Byte>)
    requires forall x, y :: ser(x) == ser(y) ==> x == y
    requires i < Count(a) && j < Count(b)
    ensures Serialized(KeysOf(a, 0, height), ser)[i] == Serialized(KeysOf(b, 0, height'), ser)[j]
            <==> height == height' && i % U32_SIZE == j % U32_SIZE && SameSubject(Withdrawn(a)[i], Withdrawn(b)[j])
  {
    hide KeysOf, SameSubject;
    KeysCoincideExactly(a, height, i, b, height', j);
  }

  /** So the items of a tree are pairwise distinct, up to 2^32 of them. */
  lemma ItemsAreDistinct(events: seq<Event>, height: nat, ser: Value -> seq<Byte>, i: nat, j: nat)
    requires forall x, y :: ser(x) == ser(y) ==> x == y
    requires i < j < Count(events) <= U32_SIZE
    ensures Serialized(KeysOf(events, 0, height), ser)[i] != Serialized(KeysOf(events, 0, height), ser)[j]
  {
    hide KeysOf, SameSubject;
    ItemsCoincideExactly(events, height, i, events, height, j, ser);
  }
}
