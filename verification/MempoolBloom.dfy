/** What the mempool asks of its bloom counter. */
module MempoolBloom {
  import opened Wrappers
  import opened MempoolSchema
  import opened MempoolTables
  import B = BloomCounters

  /** The items that a history of insertions and removals leaves in the counter. */
  ghost predicate Holds(history: seq<B.Change>, bloom: multiset<Txid>) {
    multiset(B.ItemsAfter(history)) == bloom
  }

  lemma InsertOne(history: seq<B.Change>, bloom: multiset<Txid>, x: Txid)
    requires Holds(history, bloom)
    ensures Holds(history + [B.Inserted(x)], bloom + multiset{x})
  {
    assert (history + [B.Inserted(x)])[..|history|] == history;
  }

  lemma TakeOne(history: seq<B.Change>, bloom: multiset<Txid>, x: Txid)
    requires Holds(history, bloom)
    ensures Holds(history + [B.Taken(x)], bloom - multiset{x})
  {
    assert (history + [B.Taken(x)])[..|history|] == history;
  }

  /** The changes take the members of a set out, each once, in any order. */
  ghost predicate Empties(changes: seq<B.Change>, s: set<Txid>) {
    && |changes| == |s| && (forall i :: 0 <= i < |changes| ==> changes[i].Taken? && changes[i].x in s)
    && (forall i, j :: 0 <= i < j < |changes| ==> changes[i].x != changes[j].x)
  }

  lemma EmptiesFront(changes: seq<B.Change>, s: set<Txid>)
    requires Empties(changes, s) && changes != []
    ensures Empties(changes[..|changes| - 1], s - {changes[|changes| - 1].x})
  {
  }

  lemma {:induction false} TakenInAnyOrder(history: seq<B.Change>, bloom: multiset<Txid>, changes: seq<B.Change>, s: set<Txid>)
    requires Holds(history, bloom) && Empties(changes, s)
    ensures Holds(history + changes, bloom - multiset(s))
    decreases |changes|
  {
    hide Holds;
    if changes == [] {
      assert s == {} && history + changes == history && bloom - multiset(s) == bloom;
    } else {
      var n := |changes| - 1;
      var x, front := changes[n].x, changes[..n];
      EmptiesFront(changes, s);
      TakenInAnyOrder(history, bloom, front, s - {x});
      TakeOne(history + front, bloom - multiset(s - {x}), x);
      assert history + changes == history + front + [B.Taken(x)];
      RemoveOneMore(bloom, s - {x}, x);
      assert s - {x} + {x} == s;
    }
  }

  lemma {:induction false} SomeOrder(s: set<Txid>) returns (changes: seq<B.Change>)
    ensures Empties(changes, s)
    decreases |s|
  {
    if s == {} {
      changes := [];
    } else {
      var x :| x in s;
      changes := SomeOrder(s - {x});
      changes := changes + [B.Taken(x)];
    }
  }

  // ---------- What one submission asks for ----------

  /** The rows that a submission finds to have left the window. */
  function Expired(t: Tables, height: nat): set<Txid> {
    if MovesWindow(t.mempool, height) then AtHeight(t, height - BLOOM_COUNTER_DEPTH) else {}
  }

  function AfterPruning(t: Tables, height: nat): Tables {
    if MovesWindow(t.mempool, height) then Prune(t, height - BLOOM_COUNTER_DEPTH) else t
  }

  function Victim(t: Tables, height: nat): Option<Txid> {
    if NumRecent(t.mempool) >= MAX_BLOOM_COUNTER_TXS && Unremoved(t, Floor(height)) != {}
    then Some(Cheapest(t.mempool, Unremoved(t, Floor(height)))) else None
  }

  /** The expired rows are those two blocks older than a submission that is the first at its height. */
  lemma ExpiredExactly(t: Tables, height: nat, u: Txid)
    ensures u in Expired(t, height) <==>
      && u in t.mempool && u !in t.removed && t.mempool[u].height > 0 && t.mempool[u].height + 2 == height
      && forall v :: v in t.mempool ==> t.mempool[v].height != height
  {
  }

  /** A candidate for eviction: less than two blocks older than the submission and not yet removed. */
  predicate IsCandidate(t: Tables, height: nat, u: Txid) {
    u in t.mempool && u !in t.removed && t.mempool[u].height > 0 && t.mempool[u].height + 2 > height
  }

  /** The victim is the cheapest candidate, and there is one if there are candidates and the newest two
      blocks have 8192 rows or more. */
  lemma VictimExactly(t: Tables, height: nat)
    ensures var victim := Victim(AfterPruning(t, height), height);
            && (victim.Some? <==> |set u | u in t.mempool && IsRecent(t.mempool, u)| >= 8192 && exists u :: IsCandidate(t, height, u))
            && (victim.Some? ==> IsCandidate(t, height, victim.value)
                                 && forall u :: IsCandidate(t, height, u) ==> t.mempool[victim.value].fee <= t.mempool[u].fee)
  {
    hide Cheapest, NumRecent, IsRecent, Prune;
    NumRecentCounts(t.mempool);
    var t1 := AfterPruning(t, height);
    SameCandidates(t, height);
    forall u
      ensures u in Unremoved(t1, Floor(height)) <==> IsCandidate(t, height, u)
    {
    }
  }

  lemma SameCandidates(t: Tables, height: nat)
    ensures AfterPruning(t, height).mempool == t.mempool
    ensures Unremoved(AfterPruning(t, height), Floor(height)) == Unremoved(t, Floor(height))
  {
  }

  /** What is recorded as removed: the expired rows and the victim. */
  lemma RemovedByUpdate(t: Tables, id: Txid, height: nat, prior: Option<Txid>)
    ensures var victim := Victim(AfterPruning(t, height), height);
            UpdateBloom(t, id, height, prior).removed == t.removed + Expired(t, height) + if victim.Some? then {victim.value} else {}
  {
    hide Victim, Expired, MovesWindow, Evict;
    var t1 := AfterPruning(t, height);
    EvictedRemoved(t1, Less(t1.bloom, prior), height);
    PrunedRemoved(t, height);
    assert t1.(bloom := t1.bloom) == t1;
  }

  lemma PrunedRemoved(t: Tables, height: nat)
    ensures AfterPruning(t, height).removed == t.removed + Expired(t, height)
  {
  }

  lemma EvictedRemoved(t: Tables, bloom: multiset<Txid>, height: nat)
    ensures Evict(t.(bloom := bloom), height).removed == t.removed + if Victim(t, height).Some? then {Victim(t, height).value} else {}
  {
    hide NumRecent, Cheapest, Unremoved;
    SameUnremoved(t, t.(bloom := bloom), Floor(height));
  }

  function Take(u: Option<Txid>): seq<B.Change> {
    if u.Some? then [B.Taken(u.value)] else []
  }

  function Less(bloom: multiset<Txid>, u: Option<Txid>): multiset<Txid> {
    if u.Some? then bloom - multiset{u.value} else bloom
  }

  /** First the expired rows, in any order; then the replaced transaction, at most one victim, and the new one. */
  ghost predicate Asked(t: Tables, id: Txid, height: nat, prior: Option<Txid>, changes: seq<B.Change>) {
    var n := |Expired(t, height)|;
    && n <= |changes| && Empties(changes[..n], Expired(t, height))
    && changes[n..] == Take(prior) + Take(Victim(AfterPruning(t, height), height)) + [B.Inserted(id)]
  }

  lemma TakeMaybe(history: seq<B.Change>, bloom: multiset<Txid>, u: Option<Txid>)
    requires Holds(history, bloom)
    ensures Holds(history + Take(u), Less(bloom, u))
  {
    hide Holds;
    if u.Some? {
      TakeOne(history, bloom, u.value);
    } else {
      assert history + Take(u) == history;
    }
  }

  lemma EvictedBloom(t: Tables, bloom: multiset<Txid>, height: nat)
    ensures Evict(t.(bloom := bloom), height).bloom == Less(bloom, Victim(t, height))
  {
    hide NumRecent, Cheapest, Unremoved;
    SameUnremoved(t, t.(bloom := bloom), Floor(height));
  }

  lemma BloomOfUpdate(t: Tables, id: Txid, height: nat, prior: Option<Txid>)
    ensures UpdateBloom(t, id, height, prior).bloom
            == Less(Less(t.bloom - multiset(Expired(t, height)), prior), Victim(AfterPruning(t, height), height)) + multiset{id}
  {
    hide Evict, Victim, AtHeight, MovesWindow;
    var t1 := AfterPruning(t, height);
    PrunedBloom(t, height);
    EvictedBloom(t1, Less(t1.bloom, prior), height);
    assert t1.(bloom := t1.bloom) == t1;
  }

  lemma PrunedBloom(t: Tables, height: nat)
    ensures AfterPruning(t, height).bloom == t.bloom - multiset(Expired(t, height))
  {
  }

  /** Carrying out what a submission asks for leaves the counter with the bloom set of the tables. */
  lemma AskedHolds(history: seq<B.Change>, t: Tables, id: Txid, height: nat, prior: Option<Txid>, changes: seq<B.Change>)
    requires Holds(history, t.bloom) && Asked(t, id, height, prior, changes)
    ensures Holds(history + changes, UpdateBloom(t, id, height, prior).bloom)
  {
    hide Holds, Empties, Expired, Victim, AfterPruning, UpdateBloom, Take, Less;
    var n, victim := |Expired(t, height)|, Victim(AfterPruning(t, height), height);
    var h1 := history + changes[..n];
    TakenInAnyOrder(history, t.bloom, changes[..n], Expired(t, height));
    var b1 := t.bloom - multiset(Expired(t, height));
    TakeMaybe(h1, b1, prior);
    TakeMaybe(h1 + Take(prior), Less(b1, prior), victim);
    InsertOne(h1 + Take(prior) + Take(victim), Less(Less(b1, prior), victim), id);
    assert history + changes == h1 + changes[n..];
    assert h1 + (Take(prior) + Take(victim) + [B.Inserted(id)]) == h1 + Take(prior) + Take(victim) + [B.Inserted(id)];
    BloomOfUpdate(t, id, height, prior);
  }

  lemma SomethingAsked(t: Tables, id: Txid, height: nat, prior: Option<Txid>) returns (changes: seq<B.Change>)
    ensures Asked(t, id, height, prior, changes)
  {
    hide Empties, Expired, Victim, AfterPruning, Take;
    var first := SomeOrder(Expired(t, height));
    assert |first| == |Expired(t, height)| by { EmptiesSize(first, Expired(t, height)); }
    var rest := Take(prior) + Take(Victim(AfterPruning(t, height), height)) + [B.Inserted(id)];
    changes := first + rest;
    assert changes[..|first|] == first && changes[|first|..] == rest;
  }

  lemma EmptiesSize(changes: seq<B.Change>, s: set<Txid>)
    requires Empties(changes, s)
    ensures |changes| == |s|
  {
  }

  // ---------- Whole runs, down to the bins ----------

  /** What one operation asks of the counter. */
  ghost predicate AsksFor(w: World, t: Tables, op: Op, changes: seq<B.Change>)
    requires UniqueSlots(t.mempool)
  {
    if op.Submission? && Admits(t.mempool, op.tx, w.sameFork)
    then Asked(t, op.id, op.tx.height, Prior(t.mempool, op.tx), changes)
    else changes == []
  }

  function Concat(parts: seq<seq<B.Change>>): seq<B.Change> {
    if parts == [] then [] else Concat(parts[..|parts| - 1]) + parts[|parts| - 1]
  }

  /** What the operations of a run ask for, one part each. */
  ghost predicate Drives(w: World, ops: seq<Op>, parts: seq<seq<B.Change>>) {
    |parts| == |ops| && forall i :: 0 <= i < |ops| ==> AsksFor(w, After(w, ops[..i]), ops[i], parts[i])
  }

  lemma DrivesFront(w: World, ops: seq<Op>, parts: seq<seq<B.Change>>)
    requires Drives(w, ops, parts) && ops != []
    ensures Drives(w, ops[..|ops| - 1], parts[..|ops| - 1])
    ensures AsksFor(w, After(w, ops[..|ops| - 1]), ops[|ops| - 1], parts[|ops| - 1])
  {
    hide AsksFor, After;
    var front := ops[..|ops| - 1];
    forall i | 0 <= i < |front|
      ensures AsksFor(w, After(w, front[..i]), front[i], parts[i])
    {
      assert front[..i] == ops[..i];
    }
  }

  lemma ApplyBloom(w: World, t: Tables, op: Op)
    requires UniqueSlots(t.mempool)
    ensures Apply(w, t, op).bloom
            == if op.Submission? && Admits(t.mempool, op.tx, w.sameFork)
               then UpdateBloom(t, op.id, op.tx.height, Prior(t.mempool, op.tx)).bloom else t.bloom
  {
    hide UpdateBloom, UniqueSlots, Admits, Prior, Colliding;
  }

  /** After every run, the items that the counter was asked to hold are the bloom set of the tables. */
  lemma {:induction false} RunHolds(w: World, ops: seq<Op>, parts: seq<seq<B.Change>>)
    requires Drives(w, ops, parts)
    ensures Holds(Concat(parts), After(w, ops).bloom)
  {
    hide Drives, Consistent, Asked, UpdateBloom, Apply, Holds, Admits, Prior;
    if ops == [] {
      assert parts == [] by { DrivesLength(w, ops, parts); }
      assert Holds([], multiset{}) by { HoldsNothing(); }
    } else {
      var n := |ops| - 1;
      DrivesLength(w, ops, parts);
      var front, t := ops[..n], After(w, ops[..n]);
      DrivesFront(w, ops, parts);
      RunHolds(w, front, parts[..n]);
      ConsistentSlots(w.hashOf, t);
      ApplyBloom(w, t, ops[n]);
      if ops[n].Submission? && Admits(t.mempool, ops[n].tx, w.sameFork) {
        AskedHolds(Concat(parts[..n]), t, ops[n].id, ops[n].tx.height, Prior(t.mempool, ops[n].tx), parts[n]);
      } else {
        assert Concat(parts[..n]) + [] == Concat(parts[..n]);
      }
    }
  }

  lemma DrivesLength(w: World, ops: seq<Op>, parts: seq<seq<B.Change>>)
    requires Drives(w, ops, parts)
    ensures |parts| == |ops|
  {
    hide AsksFor, After;
  }

  lemma HoldsNothing()
    ensures Holds([], multiset{})
  {
  }

  /** After every run that drives real bins, as long as every change was careful: the filter taken from
      the bins shows every row that is not recorded as removed. */
  lemma RowsAreShown(w: World, ops: seq<Op>, parts: seq<seq<B.Change>>, slotsOf: Txid -> seq<nat>, states: seq<seq<nat>>, bits: seq<bool>, u: Txid)
    requires Drives(w, ops, parts) && B.IsHistory(slotsOf, states, Concat(parts))
    requires forall x, i :: 0 <= i < |slotsOf(x)| ==> slotsOf(x)[i] < |states[0]|
    requires slotsOf(u) != []
    requires forall k :: 0 <= k < |Concat(parts)| ==>
      B.Careful(slotsOf, states[k], B.ItemsAfter(Concat(parts)[..k]), Concat(parts)[k])
    requires B.IsFilterOf(bits, states[|Concat(parts)|])
    requires u in After(w, ops).mempool && u !in After(w, ops).removed
    ensures B.Shows(bits, slotsOf(u))
  {
    hide Drives, After, Concat, B.Careful, B.Step, B.ItemsAfter, B.Tracks, B.Least, B.IsFilterOf, B.Shows, B.InBounds, B.SlotsOk;
    var history := Concat(parts);
    var n := |history|;
    RunHolds(w, ops, parts);
    B.HistoriesTrackExactly(slotsOf, states, history, n);
    assert history[..n] == history;
    B.StatesInBounds(slotsOf, states, history, n, u);
    RowIsMember(w, ops, u);
    B.MembersAreSeen(slotsOf, states[n], B.ItemsAfter(history), u);
    B.ShownExactly(bits, states[n], slotsOf(u));
  }

  lemma RowIsMember(w: World, ops: seq<Op>, u: Txid)
    requires u in After(w, ops).mempool && u !in After(w, ops).removed
    ensures After(w, ops).bloom[u] > 0
  {
    hide After;
  }

  /** Every run asks for something. */
  lemma {:induction false} RunHasParts(w: World, ops: seq<Op>) returns (parts: seq<seq<B.Change>>)
    ensures Drives(w, ops, parts)
  {
    hide After, Consistent, Asked, Admits, Prior;
    if ops == [] {
      parts := [];
    } else {
      var n := |ops| - 1;
      var front, op, t := ops[..n], ops[n], After(w, ops[..n]);
      parts := RunHasParts(w, front);
      ConsistentSlots(w.hashOf, t);
      var part := [];
      if op.Submission? && Admits(t.mempool, op.tx, w.sameFork) {
        part := SomethingAsked(t, op.id, op.tx.height, Prior(t.mempool, op.tx));
      }
      DrivesExtends(w, front, parts, op, part);
      assert front + [op] == ops;
      parts := parts + [part];
    }
  }

  lemma DrivesExtends(w: World, ops: seq<Op>, parts: seq<seq<B.Change>>, op: Op, part: seq<B.Change>)
    requires Drives(w, ops, parts) && UniqueSlots(After(w, ops).mempool) && AsksFor(w, After(w, ops), op, part)
    ensures Drives(w, ops + [op], parts + [part])
  {
    hide AsksFor, After;
    var more := ops + [op];
    forall i | 0 <= i < |more|
      ensures AsksFor(w, After(w, more[..i]), more[i], (parts + [part])[i])
    {
      assert more[..i] == ops[..i];
      assert ops[..|ops|] == ops;
    }
  }

  // ---------- Runs that only take out what is there ----------

  /** A submission whose removals are all of members: the replaced transaction has not been recorded as
      removed, also not by the pruning just before, and the eviction does not pick it once more. */
  ghost predicate Tame(w: World, t: Tables, op: Op)
    requires UniqueSlots(t.mempool)
  {
    op.Submission? && Admits(t.mempool, op.tx, w.sameFork) ==>
      var pruned, prior := AfterPruning(t, op.tx.height), Prior(t.mempool, op.tx);
      prior.Some? ==> prior.value !in pruned.removed && Victim(pruned, op.tx.height) != prior
  }

  ghost predicate TameRun(w: World, ops: seq<Op>) {
    forall i :: 0 <= i < |ops| ==> Tame(w, After(w, ops[..i]), ops[i])
  }

  /** Every removal among the changes is of an item that is there at the time. */
  ghost predicate AllMembers(history: seq<B.Change>, changes: seq<B.Change>) {
    forall k :: 0 <= k < |changes| && changes[k].Taken? ==> changes[k].x in B.ItemsAfter(history + changes[..k])
  }

  lemma AllMembersJoin(history: seq<B.Change>, a: seq<B.Change>, b: seq<B.Change>)
    requires AllMembers(history, a) && AllMembers(history + a, b)
    ensures AllMembers(history, a + b)
  {
    hide B.ItemsAfter;
    var all := a + b;
    forall k | 0 <= k < |all| && all[k].Taken?
      ensures all[k].x in B.ItemsAfter(history + all[..k])
    {
      if k < |a| {
        assert all[..k] == a[..k];
      } else {
        assert all[k] == b[k - |a|];
        assert history + all[..k] == history + a + b[..k - |a|];
      }
    }
  }

  lemma HoldsMember(history: seq<B.Change>, bloom: multiset<Txid>, x: Txid)
    requires Holds(history, bloom) && x in bloom
    ensures x in B.ItemsAfter(history)
  {
    hide B.ItemsAfter;
    assert x in multiset(B.ItemsAfter(history));
  }

  lemma {:induction false} EmptiedAreMembers(history: seq<B.Change>, bloom: multiset<Txid>, changes: seq<B.Change>, s: set<Txid>)
    requires Holds(history, bloom) && Empties(changes, s) && forall x :: x in s ==> x in bloom
    ensures AllMembers(history, changes)
    decreases |changes|
  {
    hide Holds, B.ItemsAfter;
    if changes != [] {
      var n := |changes| - 1;
      var x, front := changes[n].x, changes[..n];
      EmptiesFront(changes, s);
      EmptiedAreMembers(history, bloom, front, s - {x});
      TakenInAnyOrder(history, bloom, front, s - {x});
      HoldsMember(history + front, bloom - multiset(s - {x}), x);
      assert history + front + [changes[n]][..0] == history + front;
      assert AllMembers(history + front, [changes[n]]);
      AllMembersJoin(history, front, [changes[n]]);
      assert front + [changes[n]] == changes;
    }
  }

  lemma TakenIsMember(history: seq<B.Change>, bloom: multiset<Txid>, u: Option<Txid>)
    requires Holds(history, bloom) && (u.Some? ==> u.value in bloom)
    ensures AllMembers(history, Take(u))
  {
    hide Holds, B.ItemsAfter;
    if u.Some? {
      HoldsMember(history, bloom, u.value);
      assert history + Take(u)[..0] == history;
    }
  }

  lemma InsertedIsFine(history: seq<B.Change>, id: Txid)
    ensures AllMembers(history, [B.Inserted(id)])
  {
  }

  /** The expired rows are in the bloom set, and an unremoved row stays in it. */
  lemma WhoIsThere(t: Tables, height: nat, u: Txid)
    requires Represented(t, None) && u in t.mempool && u !in AfterPruning(t, height).removed
    ensures u in t.bloom - multiset(Expired(t, height))
  {
    hide MovesWindow, AtHeight;
  }

  lemma ExpiredAreThere(t: Tables, height: nat)
    requires Represented(t, None)
    ensures forall x :: x in Expired(t, height) ==> x in t.bloom
  {
  }

  lemma VictimIsThere(t: Tables, height: nat)
    ensures Victim(t, height).Some? ==> Victim(t, height).value in t.mempool && Victim(t, height).value !in t.removed
  {
    hide NumRecent;
  }

  lemma LessKeepsOthers(bloom: multiset<Txid>, u: Option<Txid>, v: Txid)
    requires v in bloom && u != Some(v)
    ensures v in Less(bloom, u)
  {
  }

  lemma PruningKeepsRows(t: Tables, height: nat)
    ensures AfterPruning(t, height).mempool == t.mempool
  {
  }

  lemma AskedAreMembers(history: seq<B.Change>, t: Tables, id: Txid, height: nat, prior: Option<Txid>, changes: seq<B.Change>)
    requires Holds(history, t.bloom) && Asked(t, id, height, prior, changes) && Represented(t, None)
    requires prior.Some? ==> prior.value in t.mempool && prior.value !in AfterPruning(t, height).removed
    requires prior.Some? ==> Victim(AfterPruning(t, height), height) != prior
    ensures AllMembers(history, changes)
  {
    hide Holds, Empties, Expired, Victim, AfterPruning, Take, Less, Represented, AllMembers;
    var n, t1 := |Expired(t, height)|, AfterPruning(t, height);
    var victim, first, b1 := Victim(t1, height), changes[..n], t.bloom - multiset(Expired(t, height));
    ExpiredAreThere(t, height);
    EmptiedAreMembers(history, t.bloom, first, Expired(t, height));
    TakenInAnyOrder(history, t.bloom, first, Expired(t, height));
    var h1 := history + first;
    if prior.Some? {
      WhoIsThere(t, height, prior.value);
    }
    TakenIsMember(h1, b1, prior);
    TakeMaybe(h1, b1, prior);
    VictimIsThere(t1, height);
    PruningKeepsRows(t, height);
    if victim.Some? {
      WhoIsThere(t, height, victim.value);
      LessKeepsOthers(b1, prior, victim.value);
    }
    TakenIsMember(h1 + Take(prior), Less(b1, prior), victim);
    InsertedIsFine(h1 + Take(prior) + Take(victim), id);
    AllMembersJoin(h1 + Take(prior), Take(victim), [B.Inserted(id)]);
    AllMembersJoin(h1, Take(prior), Take(victim) + [B.Inserted(id)]);
    assert Take(prior) + (Take(victim) + [B.Inserted(id)]) == changes[n..];
    AllMembersJoin(history, first, changes[n..]);
    assert first + changes[n..] == changes;
  }

  lemma TameFront(w: World, ops: seq<Op>)
    requires TameRun(w, ops) && ops != []
    ensures TameRun(w, ops[..|ops| - 1]) && Tame(w, After(w, ops[..|ops| - 1]), ops[|ops| - 1])
  {
    hide Tame, After;
    var front := ops[..|ops| - 1];
    forall i | 0 <= i < |front|
      ensures Tame(w, After(w, front[..i]), front[i])
    {
      assert front[..i] == ops[..i];
    }
  }

  lemma ConsistentIsRepresented(hashOf: Txid -> nat, t: Tables)
    requires Consistent(hashOf, t)
    ensures Represented(t, None)
  {
  }

  /** A tame run never asks for the removal of something that is not there. */
  lemma {:induction false} TameRunRemovesMembers(w: World, ops: seq<Op>, parts: seq<seq<B.Change>>)
    requires Drives(w, ops, parts) && TameRun(w, ops)
    ensures AllMembers([], Concat(parts)) && B.Insertions(Concat(parts)) <= |ops|
  {
    hide Drives, TameRun, After, Consistent, Asked, Holds, Admits, Prior, AllMembers, Represented, Victim, AfterPruning;
    DrivesLength(w, ops, parts);
    if ops == [] {
      assert AllMembers([], []) by { NothingRemoved(); }
    } else {
      var n := |ops| - 1;
      var front, op, t := ops[..n], ops[n], After(w, ops[..n]);
      DrivesFront(w, ops, parts);
      TameFront(w, ops);
      TameRunRemovesMembers(w, front, parts[..n]);
      RunHolds(w, front, parts[..n]);
      ConsistentSlots(w.hashOf, t);
      ConsistentIsRepresented(w.hashOf, t);
      var before := Concat(parts[..n]);
      assert [] + before == before;
      if op.Submission? && Admits(t.mempool, op.tx, w.sameFork) {
        AskedAreMembers(before, t, op.id, op.tx.height, Prior(t.mempool, op.tx), parts[n]);
        AllMembersJoin([], before, parts[n]);
        OneInsertion(t, op.id, op.tx.height, Prior(t.mempool, op.tx), parts[n]);
      } else {
        assert before + [] == before;
      }
      InsertionsJoin(before, parts[n]);
    }
  }

  lemma NothingRemoved()
    ensures AllMembers([], [])
  {
  }

  lemma {:induction false} InsertionsJoin(a: seq<B.Change>, b: seq<B.Change>)
    ensures B.Insertions(a + b) == B.Insertions(a) + B.Insertions(b)
    decreases |b|
  {
    if b == [] {
      assert a + b == a;
    } else {
      var n := |b| - 1;
      InsertionsJoin(a, b[..n]);
      assert (a + b)[..|a| + n] == a + b[..n];
    }
  }

  lemma {:induction false} NoInsertions(changes: seq<B.Change>)
    requires forall i :: 0 <= i < |changes| ==> changes[i].Taken?
    ensures B.Insertions(changes) == 0
  {
    if changes != [] {
      NoInsertions(changes[..|changes| - 1]);
    }
  }

  lemma OneInsertion(t: Tables, id: Txid, height: nat, prior: Option<Txid>, changes: seq<B.Change>)
    requires Asked(t, id, height, prior, changes)
    ensures B.Insertions(changes) == 1
  {
    hide Expired, Victim, AfterPruning;
    var n := |changes| - 1;
    assert changes == changes[..|Expired(t, height)|] + changes[|Expired(t, height)|..];
    assert changes[n] == B.Inserted(id);
    NoInsertions(changes[..n]);
  }

  /** The filter of a tame run with room in the bins shows every row that is not recorded as removed. */
  lemma TameRunsAreShown(w: World, ops: seq<Op>, parts: seq<seq<B.Change>>, slotsOf: Txid -> seq<nat>, hashes: nat,
                         states: seq<seq<nat>>, bits: seq<bool>, u: Txid)
    requires Drives(w, ops, parts) && TameRun(w, ops) && B.IsHistory(slotsOf, states, Concat(parts))
    requires forall x, i :: 0 <= i < |slotsOf(x)| ==> slotsOf(x)[i] < |states[0]|
    requires (forall x :: 0 < |slotsOf(x)| <= hashes) && |ops| * hashes <= B.U32_MAX
    requires B.IsFilterOf(bits, states[|Concat(parts)|])
    requires u in After(w, ops).mempool && u !in After(w, ops).removed
    ensures B.Shows(bits, slotsOf(u))
  {
    hide Drives, TameRun, After, Concat, B.IsHistory, B.IsFilterOf, B.Shows, B.Careful, B.ItemsAfter;
    TameRunRemovesMembers(w, ops, parts);
    RemovesMembersOf(Concat(parts));
    B.Product(B.Insertions(Concat(parts)), |ops|, hashes);
    HistoryLength(slotsOf, states, Concat(parts));
    B.MembersMakeCareful(slotsOf, hashes, states, Concat(parts), |Concat(parts)|);
    RowsAreShown(w, ops, parts, slotsOf, states, bits, u);
  }

  lemma HistoryLength(slotsOf: Txid -> seq<nat>, states: seq<seq<nat>>, history: seq<B.Change>)
    requires B.IsHistory(slotsOf, states, history)
    ensures |states| == |history| + 1
    ensures forall k :: 0 <= k < |history| ==> B.SlotsOk(slotsOf, states[k], history[k])
  {
  }

  lemma RemovesMembersOf(history: seq<B.Change>)
    requires AllMembers([], history)
    ensures B.RemovesMembers(history)
  {
    hide B.ItemsAfter;
    forall k | 0 <= k < |history| && history[k].Taken?
      ensures history[k].x in B.ItemsAfter(history[..k])
    {
      assert [] + history[..k] == history[..k];
    }
  }

  /** And there always are bins to drive: the counter does not panic. */
  lemma TameRunsCanBeDriven(w: World, ops: seq<Op>, slotsOf: Txid -> seq<nat>, hashes: nat, numBins: nat)
    returns (parts: seq<seq<B.Change>>, states: seq<seq<nat>>)
    requires TameRun(w, ops) && forall x, i :: 0 <= i < |slotsOf(x)| ==> slotsOf(x)[i] < numBins
    requires (forall x :: 0 < |slotsOf(x)| <= hashes) && |ops| * hashes <= B.U32_MAX
    ensures Drives(w, ops, parts) && B.IsHistory(slotsOf, states, Concat(parts)) && |states[0]| == numBins
  {
    hide Drives, TameRun, Concat, B.IsHistory, B.ItemsAfter;
    parts := RunHasParts(w, ops);
    TameRunRemovesMembers(w, ops, parts);
    RemovesMembersOf(Concat(parts));
    B.Product(B.Insertions(Concat(parts)), |ops|, hashes);
    states := B.BinsExist(slotsOf, hashes, numBins, Concat(parts));
    HistoryLength(slotsOf, states, Concat(parts));
  }

  // ---------- Removing what is not there ----------

  function FirstRow(): Mempool {
    map[1 := Small(1, 3)]
  }

  /** The first row has left the window of the second one. */
  function SecondState(w: World): Tables {
    Tables(map[1 := Small(1, 3), 2 := Small(2, 5)], {1}, map[1 := w.hashOf(1), 2 := w.hashOf(2)], map[1 := None, 2 := None], multiset{2})
  }

  lemma FirstSubmission(w: World)
    ensures Apply(w, Empty(), Submission(1, Small(1, 3), None)) == Full(w, FirstRow())
  {
    hide Apply, NumRecent;
    assert Full(w, map[]) == Empty();
    FewRecent(map[]);
    QuietSubmission(w, map[], 1, Small(1, 3));
  }

  lemma SecondUpdate(w: World)
    ensures UpdateBloom(Full(w, FirstRow()), 2, 5, None) == Full(w, FirstRow()).(removed := {1}, bloom := multiset{2})
  {
    hide NumRecent;
    var t := Full(w, FirstRow());
    FewRecent(t.mempool);
    assert MovesWindow(t.mempool, 5) && AtHeight(t, 3) == {1};
    assert Prune(t, 3) == t.(removed := {1}, bloom := multiset{});
  }

  lemma SecondSubmission(w: World)
    ensures UniqueSlots(FirstRow()) && Apply(w, Full(w, FirstRow()), Submission(2, Small(2, 5), None)) == SecondState(w)
  {
    hide UpdateBloom, Prior, Admits, Colliding, Delete, Insert;
    SecondUpdate(w);
    FreeIsAdmitted(w, FirstRow(), 2, Small(2, 5));
    SecondInsert(w);
  }

  lemma SecondInsert(w: World)
    requires Colliding(FirstRow(), 2, Small(2, 5)) == {}
    ensures Insert(Full(w, FirstRow()).(removed := {1}, bloom := multiset{2}), 2, Small(2, 5), w.hashOf(2), None) == SecondState(w)
  {
    hide Colliding, Delete;
    DeleteNothing(Full(w, FirstRow()).(removed := {1}, bloom := multiset{2}));
  }

  lemma GoneButCompared(w: World)
    ensures var t, tx := SecondState(w), Small(1, 3).(fee := 20);
            UniqueSlots(t.mempool) && Admits(t.mempool, tx, w.sameFork) && Prior(t.mempool, tx) == Some(1) && 1 !in t.bloom
  {
    var m := SecondState(w).mempool;
    assert 1 in m && m[1].origin == Slot(1, 0);
    assert OriginHolder(m, Slot(1, 0)) == Some(1);
  }

  /** The transaction being replaced may have left the counter already. The counter is then asked to
      take out an item that it does not hold, which is harmless only while the item does not seem to
      be there. */
  lemma ReplacedMayBeGone(w: World) returns (ops: seq<Op>, tx: Tx)
    ensures Admits(After(w, ops).mempool, tx, w.sameFork) && Prior(After(w, ops).mempool, tx) == Some(1) && 1 !in After(w, ops).bloom
  {
    hide Apply, Consistent, UniqueSlots, Admits, Prior, SecondState, Full, Small;
    FirstSubmission(w);
    SecondSubmission(w);
    GoneButCompared(w);
    ops, tx := [Submission(1, Small(1, 3), None)], Small(1, 3).(fee := 20);
    assert After(w, []) == Empty();
    assert ops == [] + ops;
    AfterOneMore(w, [], ops[0]);
    AfterOneMore(w, ops, Submission(2, Small(2, 5), None));
    ops := ops + [Submission(2, Small(2, 5), None)];
  }

  // ---------- Evicting what has just been replaced ----------

  function LevelRow(i: nat): Tx {
    Small(i, 3).(fee := if i == 0 then 1 else 2)
  }

  /** Rows at one height, the first of them the cheapest. */
  function Level(n: nat): Mempool {
    map i | i in Numbers(n) :: LevelRow(i)
  }

  lemma LevelRecent(n: nat)
    ensures NumRecent(Level(n)) == n
  {
    hide Numbers;
    var m := Level(n);
    if n > 0 {
      assert m[0].height == 3;
      assert Recent(m, 3) == Numbers(n);
    }
  }

  lemma LevelGrows(n: nat)
    ensures Level(n)[n := LevelRow(n)] == Level(n + 1)
  {
  }

  lemma LevelIsFree(n: nat)
    requires n < MAX_BLOOM_COUNTER_TXS
    ensures UniqueSlots(Level(n)) && Free(Level(n), n, LevelRow(n)) && Quiet(Level(n), 3)
  {
    hide Numbers, NumRecent;
    LevelRecent(n);
  }

  lemma {:induction false} LevelRun(w: World, n: nat) returns (ops: seq<Op>)
    requires n <= MAX_BLOOM_COUNTER_TXS
    ensures After(w, ops) == Full(w, Level(n))
  {
    hide Apply, Consistent, UniqueSlots, Quiet, Free, Level, Full, LevelRow;
    if n == 0 {
      ops := [];
      LevelStarts(w);
    } else {
      var k := n - 1;
      ops := LevelRun(w, k);
      var op := Submission(k, LevelRow(k), None);
      LevelIsFree(k);
      assert LevelRow(k).height == 3 by { LevelHeight(k); }
      QuietSubmission(w, Level(k), k, LevelRow(k));
      LevelGrows(k);
      AfterOneMore(w, ops, op);
      ops := ops + [op];
    }
  }

  lemma LevelHeight(i: nat)
    ensures LevelRow(i).height == 3
  {
  }

  lemma LevelStarts(w: World)
    ensures Full(w, Level(0)) == Empty()
  {
    assert Level(0) == map[];
  }

  lemma FullLevelEvictsFirst(w: World)
    ensures var t := Full(w, Level(MAX_BLOOM_COUNTER_TXS));
            AfterPruning(t, 3) == t && Victim(t, 3) == Some(0)
  {
    hide Numbers, NumRecent, Cheapest;
    var m := Level(MAX_BLOOM_COUNTER_TXS);
    var t := Full(w, m);
    LevelRecent(MAX_BLOOM_COUNTER_TXS);
    assert m[0].height == 3 && m[0].fee == 1;
    assert 0 in Unremoved(t, Floor(3));
    var victim := Cheapest(m, Unremoved(t, Floor(3)));
    assert m[victim].fee <= m[0].fee;
  }

  lemma FirstOfLevel(w: World)
    ensures var m, tx := Level(MAX_BLOOM_COUNTER_TXS), LevelRow(0).(fee := 20);
            UniqueSlots(m) && Prior(m, tx) == Some(0) && Admits(m, tx, w.sameFork)
  {
    hide Numbers;
    var m := Level(MAX_BLOOM_COUNTER_TXS);
    assert m[0].origin == Slot(0, 0);
  }

  /** The eviction may pick the transaction that has just been replaced and taken out: it is still in the
      table, unremoved, and here it is the cheapest. It is then taken out twice. */
  lemma ReplacedMayBeEvicted(w: World) returns (ops: seq<Op>, tx: Tx)
    ensures var t := After(w, ops);
            && Admits(t.mempool, tx, w.sameFork) && Prior(t.mempool, tx) == Some(0)
            && 0 !in AfterPruning(t, tx.height).removed && Victim(AfterPruning(t, tx.height), tx.height) == Some(0)
            && !Tame(w, t, Submission(MAX_BLOOM_COUNTER_TXS, tx, None))
  {
    hide After, UniqueSlots, Admits, Prior, Level, AfterPruning, Victim, MovesWindow;
    ops := LevelRun(w, MAX_BLOOM_COUNTER_TXS);
    tx := LevelRow(0).(fee := 20);
    FirstOfLevel(w);
    FullLevelEvictsFirst(w);
  }
}
