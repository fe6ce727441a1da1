/** The counting bloom filter behind the mempool's bloom set: bins of saturating 32-bit counters that
    stand in for a multiset of items. */
module BloomCounters {
  import opened Wrappers

  const U32_MAX: nat := 0xffff_ffff

  type Item = nat

  // ---------- Bins ----------

  function Saturate(n: nat): nat {
    if n > U32_MAX then U32_MAX else n
  }

  predicate InBounds(bins: seq<nat>, slots: seq<nat>) {
    && (forall i :: 0 <= i < |slots| ==> slots[i] < |bins|)
    && (forall j :: 0 <= j < |bins| ==> bins[j] <= U32_MAX)
  }

  /** How often an item draws a slot. */
  function Hits(slots: seq<nat>, j: nat): nat {
    multiset(slots)[j]
  }

  /** The least of the bins an item draws; the largest counter value if it draws none. */
  function Least(bins: seq<nat>, slots: seq<nat>): (r: nat)
    requires InBounds(bins, slots)
    ensures r <= U32_MAX && forall i :: 0 <= i < |slots| ==> r <= bins[slots[i]]
    ensures slots != [] ==> exists i :: 0 <= i < |slots| && bins[slots[i]] == r
  {
    if slots == [] then U32_MAX else
      var n := |slots| - 1;
      var rest := Least(bins, slots[..n]);
      if bins[slots[n]] <= rest then bins[slots[n]] else rest
  }

  lemma LeastOfOneMore(bins: seq<nat>, slots: seq<nat>, i: nat)
    requires InBounds(bins, slots) && i < |slots|
    ensures InBounds(bins, slots[..i]) && InBounds(bins, slots[..i + 1])
    ensures Least(bins, slots[..i + 1]) == if bins[slots[i]] <= Least(bins, slots[..i]) then bins[slots[i]] else Least(bins, slots[..i])
  {
    assert slots[..i + 1][..i] == slots[..i];
  }

  /** The bins after every slot has been counted up, in turn. */
  function Bump(bins: seq<nat>, slots: seq<nat>): (r: seq<nat>)
    requires InBounds(bins, slots)
    ensures |r| == |bins| && InBounds(r, slots)
  {
    seq(|bins|, j requires 0 <= j < |bins| => Saturate(bins[j] + Hits(slots, j)))
  }

  /** The bins after every slot has been counted down. */
  function Drop(bins: seq<nat>, slots: seq<nat>): (r: seq<nat>)
    requires Covers(bins, slots)
    ensures |r| == |bins|
  {
    seq(|bins|, j requires 0 <= j < |bins| => bins[j] - Hits(slots, j))
  }

  /** No bin holds less than an item takes out of it. */
  predicate Covers(bins: seq<nat>, slots: seq<nat>) {
    forall j :: 0 <= j < |bins| ==> Hits(slots, j) <= bins[j]
  }

  lemma OneMoreHit(slots: seq<nat>, i: nat, j: nat)
    requires i < |slots|
    ensures Hits(slots[..i + 1], j) == Hits(slots[..i], j) + if slots[i] == j then 1 else 0
    ensures Hits(slots[..i], j) <= Hits(slots, j)
  {
    assert slots[..i + 1] == slots[..i] + [slots[i]];
    assert slots == slots[..i] + slots[i..];
  }

  lemma FirstDraw(slots: seq<nat>, i: nat)
    requires i < |slots|
    ensures Hits(slots[..i], slots[i]) == 0 || exists k :: 0 <= k < i && slots[k] == slots[i]
  {
    if Hits(slots[..i], slots[i]) > 0 {
      assert slots[i] in slots[..i];
    }
  }

  lemma NotCovered(bins: seq<nat>, slots: seq<nat>, i: nat)
    requires i < |slots| && slots[i] < |bins| && Hits(slots[..i], slots[i]) >= bins[slots[i]]
    ensures !Covers(bins, slots)
  {
    OneMoreHit(slots, i, slots[i]);
    if i + 1 < |slots| {
      OneMoreHit(slots, i + 1, slots[i]);
    } else {
      assert slots[..i + 1] == slots;
    }
  }

  lemma LeastIs(bins: seq<nat>, slots: seq<nat>, r: nat)
    requires InBounds(bins, slots) && (forall i :: 0 <= i < |slots| ==> r <= bins[slots[i]])
    requires exists i :: 0 <= i < |slots| && bins[slots[i]] == r
    ensures Least(bins, slots) == r
  {
  }

  lemma LeastAfterDrop(bins: seq<nat>, after: seq<nat>, slots: seq<nat>, i: nat)
    requires i < |slots| && InBounds(bins, slots) && bins[slots[i]] > 0 && after == bins[slots[i] := bins[slots[i]] - 1]
    ensures InBounds(bins, slots[..i]) && InBounds(after, slots[..i + 1])
    ensures Least(after, slots[..i + 1]) == if after[slots[i]] < Least(bins, slots[..i]) then after[slots[i]] else Least(bins, slots[..i])
  {
    var s, front, more := slots[i], slots[..i], slots[..i + 1];
    var least := Least(bins, front);
    if after[s] < least || front == [] {
      assert after[more[i]] == after[s];
      LeastIs(after, more, after[s]);
    } else {
      var k :| 0 <= k < |front| && bins[front[k]] == least;
      assert after[more[k]] == least;
      LeastIs(after, more, least);
    }
  }

  ghost function LeastOfFirst(bins: seq<nat>, slots: seq<nat>, i: nat): nat
    requires InBounds(bins, slots) && i <= |slots|
  {
    Least(bins, slots[..i])
  }

  lemma InsertStarts(bins: seq<nat>, slots: seq<nat>)
    requires InBounds(bins, slots)
    ensures InBounds(bins, slots[..0]) && Least(bins, slots[..0]) == U32_MAX && Bump(bins, slots[..0]) == bins
  {
  }

  lemma BumpOneMore(bins: seq<nat>, slots: seq<nat>, i: nat)
    requires i < |slots| && InBounds(bins, slots) && InBounds(bins, slots[..i]) && InBounds(bins, slots[..i + 1])
    ensures var s, mid := slots[i], Bump(bins, slots[..i]);
            Bump(bins, slots[..i + 1]) == mid[s := if mid[s] < U32_MAX then mid[s] + 1 else mid[s]]
  {
    hide Hits;
    var s, mid, after := slots[i], Bump(bins, slots[..i]), Bump(bins, slots[..i + 1]);
    forall j | 0 <= j < |bins| ensures after[j] == if j != s || mid[j] == U32_MAX then mid[j] else mid[j] + 1 {
      OneMoreHit(slots, i, j);
    }
  }

  lemma BumpAt(bins: seq<nat>, slots: seq<nat>, j: nat)
    requires InBounds(bins, slots) && j < |bins|
    ensures Bump(bins, slots)[j] == Saturate(bins[j] + Hits(slots, j))
  {
  }

  lemma LeastAtMost(bins: seq<nat>, slots: seq<nat>, k: nat)
    requires InBounds(bins, slots) && k < |slots|
    ensures Least(bins, slots) <= bins[slots[k]]
  {
  }

  /** A slot that has been drawn before does not lower the count any more. */
  lemma LeastWhileBumping(bins: seq<nat>, slots: seq<nat>, i: nat)
    requires i < |slots| && InBounds(bins, slots) && InBounds(bins, slots[..i]) && InBounds(bins, slots[..i + 1])
    ensures var seen, least := Bump(bins, slots[..i])[slots[i]], Least(bins, slots[..i]);
            Least(bins, slots[..i + 1]) == if seen < least then seen else least
  {
    hide Hits, Bump, Least;
    LeastOfOneMore(bins, slots, i);
    BumpAt(bins, slots[..i], slots[i]);
    FirstDraw(slots, i);
    if Hits(slots[..i], slots[i]) > 0 {
      var k :| 0 <= k < i && slots[k] == slots[i];
      LeastAtMost(bins, slots[..i], k);
    }
  }

  lemma InBoundsPrefix(bins: seq<nat>, slots: seq<nat>, i: nat)
    requires InBounds(bins, slots) && i <= |slots|
    ensures InBounds(bins, slots[..i])
    ensures i < |slots| ==> slots[i] < |bins|
  {
  }

  /** One slot of an insertion. */
  lemma InsertStep(bins: seq<nat>, slots: seq<nat>, i: nat, mid: seq<nat>)
    requires i < |slots| && InBounds(bins, slots) && InBounds(bins, slots[..i]) && mid == Bump(bins, slots[..i])
    ensures InBounds(bins, slots[..i + 1])
    ensures mid[slots[i] := if mid[slots[i]] < U32_MAX then mid[slots[i]] + 1 else mid[slots[i]]] == Bump(bins, slots[..i + 1])
    ensures Least(bins, slots[..i + 1]) == if mid[slots[i]] < Least(bins, slots[..i]) then mid[slots[i]] else Least(bins, slots[..i])
  {
    hide Bump, Least, InBounds, Hits;
    InBoundsPrefix(bins, slots, i);
    InBoundsPrefix(bins, slots, i + 1);
    BumpOneMore(bins, slots, i);
    LeastWhileBumping(bins, slots, i);
  }

  lemma RemoveStarts(bins: seq<nat>, slots: seq<nat>)
    requires InBounds(bins, slots)
    ensures Covers(bins, slots[..0]) && Drop(bins, slots[..0]) == bins && LeastOfFirst(bins, slots, 0) == U32_MAX
  {
  }

  lemma DropOneMore(bins: seq<nat>, slots: seq<nat>, i: nat)
    requires i < |slots| && InBounds(bins, slots) && Covers(bins, slots[..i]) && Drop(bins, slots[..i])[slots[i]] > 0
    ensures Covers(bins, slots[..i + 1])
    ensures var s, mid := slots[i], Drop(bins, slots[..i]);
            Drop(bins, slots[..i + 1]) == mid[s := mid[s] - 1]
  {
    hide Hits;
    var s, mid := slots[i], Drop(bins, slots[..i]);
    forall j | 0 <= j < |bins| ensures Hits(slots[..i + 1], j) == Hits(slots[..i], j) + if s == j then 1 else 0 {
      OneMoreHit(slots, i, j);
    }
  }

  /** One slot of a removal. */
  lemma RemoveStep(bins: seq<nat>, slots: seq<nat>, i: nat, mid: seq<nat>)
    requires i < |slots| && InBounds(bins, slots) && Covers(bins, slots[..i]) && mid == Drop(bins, slots[..i]) && InBounds(mid, slots)
    ensures mid[slots[i]] == 0 ==> !Covers(bins, slots)
    ensures mid[slots[i]] > 0 ==>
      var after := mid[slots[i] := mid[slots[i]] - 1];
      && Covers(bins, slots[..i + 1]) && after == Drop(bins, slots[..i + 1]) && InBounds(after, slots)
      && LeastOfFirst(after, slots, i + 1)
         == if after[slots[i]] < LeastOfFirst(mid, slots, i) then after[slots[i]] else LeastOfFirst(mid, slots, i)
  {
    hide Hits, Covers, Least;
    var s := slots[i];
    if mid[s] == 0 {
      NotCovered(bins, slots, i);
    } else {
      DropOneMore(bins, slots, i);
      LeastAfterDrop(mid, mid[s := mid[s] - 1], slots, i);
    }
  }

  /** Taking an item out again restores the bins exactly when none of them reached its ceiling. */
  lemma RemoveInvertsInsertExactly(bins: seq<nat>, slots: seq<nat>)
    requires InBounds(bins, slots)
    ensures var up := Bump(bins, slots);
            (Covers(up, slots) && Drop(up, slots) == bins) <==> forall j :: 0 <= j < |bins| ==> bins[j] + Hits(slots, j) <= U32_MAX
  {
    var up := Bump(bins, slots);
    if Covers(up, slots) && Drop(up, slots) == bins {
      forall j | 0 <= j < |bins| ensures bins[j] + Hits(slots, j) <= U32_MAX {
        assert Drop(up, slots)[j] == bins[j];
      }
    }
  }

  // ---------- The counter ----------

  class BloomCounter {
    /** pick_bin for each of the hashes. */
    const slotsOf: Item -> seq<nat>
    const counts: array<nat>

    predicate Valid()
      reads counts
    {
      forall j :: 0 <= j < counts.Length ==> counts[j] <= U32_MAX
    }

    constructor (slotsOf: Item -> seq<nat>, numBins: nat)
      ensures Valid() && fresh(counts) && this.slotsOf == slotsOf && counts.Length == numBins
      ensures forall j :: 0 <= j < numBins ==> counts[j] == 0
    {
      this.slotsOf := slotsOf;
      counts := new nat[numBins](_ => 0);
    }

    /** Count an item in. The answer bounds how often it was there before. */
    method InsertRaw(x: Item) returns (count: nat)
      requires Valid() && InBounds(counts[..], slotsOf(x))
      modifies counts
      ensures Valid() && counts[..] == Bump(old(counts[..]), slotsOf(x))
      ensures count == Least(old(counts[..]), slotsOf(x))
    {
      hide Hits, Bump, Least;
      count := U32_MAX;
      var slots := slotsOf(x);
      ghost var before := counts[..];
      InsertStarts(before, slots);
      for i := 0 to |slots|
        invariant InBounds(before, slots[..i]) && count == Least(before, slots[..i]) && counts[..] == Bump(before, slots[..i])
      {
        InsertStep(before, slots, i, counts[..]);
        ghost var mid := counts[..];
        var bin := counts[slots[i]];
        count := if bin < count then bin else count;
        var more: nat := if bin < U32_MAX then bin + 1 else bin;
        counts[slots[i]] := more;
        assert counts[..] == mid[slots[i] := more];
      }
      assert slots[..|slots|] == slots;
    }

    method CountRaw(x: Item) returns (count: nat)
      requires Valid() && InBounds(counts[..], slotsOf(x))
      ensures count == Least(counts[..], slotsOf(x))
    {
      count := U32_MAX;
      var slots := slotsOf(x);
      for i := 0 to |slots|
        invariant InBounds(counts[..], slots[..i]) && count == Least(counts[..], slots[..i])
      {
        LeastOfOneMore(counts[..], slots, i);
        var bin := counts[slots[i]];
        if bin == 0 {
          return 0;
        }
        count := if bin < count then bin else count;
      }
      assert slots[..|slots|] == slots;
    }

    /** Count an item out, if it seems to be there. It fails where the source panics: the item draws
        some slot more often than that bin has counts. */
    method RemoveRaw(x: Item) returns (r: Option<nat>)
      requires Valid() && InBounds(counts[..], slotsOf(x))
      modifies counts
      ensures r.Some? <==> Least(old(counts[..]), slotsOf(x)) == 0 || Covers(old(counts[..]), slotsOf(x))
      ensures Least(old(counts[..]), slotsOf(x)) == 0 ==> counts[..] == old(counts[..]) && r == Some(0)
      ensures r.Some? && Least(old(counts[..]), slotsOf(x)) > 0 ==>
        counts[..] == Drop(old(counts[..]), slotsOf(x)) && Valid() && r.value == Least(counts[..], slotsOf(x))
    {
      hide Hits, Drop, Least, Covers;
      var there := CountRaw(x);
      if there == 0 {
        return Some(0);
      }
      var count := U32_MAX;
      var slots := slotsOf(x);
      ghost var before := counts[..];
      RemoveStarts(before, slots);
      for i := 0 to |slots|
        invariant Covers(before, slots[..i]) && counts[..] == Drop(before, slots[..i])
        invariant InBounds(counts[..], slots) && count == LeastOfFirst(counts[..], slots, i)
      {
        RemoveStep(before, slots, i, counts[..]);
        ghost var mid := counts[..];
        var bin := counts[slots[i]];
        if bin == 0 {
          return None;
        }
        counts[slots[i]] := bin - 1;
        assert counts[..] == mid[slots[i] := bin - 1];
        count := if bin - 1 < count then bin - 1 else count;
      }
      assert slots[..|slots|] == slots;
      r := Some(count);
    }

    /** A 1-bit for every positive counter. */
    method ToBloomFilter() returns (bits: seq<bool>)
      ensures IsFilterOf(bits, counts[..])
    {
      bits := [];
      for i := 0 to counts.Length
        invariant |bits| == i && forall j :: 0 <= j < i ==> (bits[j] <==> counts[j] > 0)
      {
        bits := bits + [counts[i] > 0];
      }
    }
  }

  // ---------- The bins stand in for a multiset of items ----------

  /** How much a collection of items puts into a bin. */
  function Load(slotsOf: Item -> seq<nat>, items: seq<Item>, j: nat): nat {
    if items == [] then 0 else Hits(slotsOf(items[0]), j) + Load(slotsOf, items[1..], j)
  }

  ghost predicate Tracks(slotsOf: Item -> seq<nat>, bins: seq<nat>, items: seq<Item>) {
    forall j :: 0 <= j < |bins| ==> bins[j] == Load(slotsOf, items, j)
  }

  /** The items without one occurrence of x, if there is one. */
  function Without(items: seq<Item>, x: Item): (r: seq<Item>)
    ensures multiset(r) == multiset(items) - multiset{x}
  {
    if items == [] then []
    else
      assert items == [items[0]] + items[1..];
      if items[0] == x then items[1..] else [items[0]] + Without(items[1..], x)
  }

  lemma {:induction false} LoadWithout(slotsOf: Item -> seq<nat>, items: seq<Item>, x: Item, j: nat)
    ensures Load(slotsOf, items, j) == Load(slotsOf, Without(items, x), j) + if x in items then Hits(slotsOf(x), j) else 0
  {
    if items != [] && items[0] != x {
      LoadWithout(slotsOf, items[1..], x, j);
      assert Without(items, x)[1..] == Without(items[1..], x);
    }
  }

  lemma {:induction false} LoadCoversMembers(slotsOf: Item -> seq<nat>, items: seq<Item>, x: Item, j: nat)
    requires Hits(slotsOf(x), j) > 0
    ensures multiset(items)[x] <= Load(slotsOf, items, j)
  {
    hide Hits;
    if items != [] {
      assert items == [items[0]] + items[1..];
      LoadCoversMembers(slotsOf, items[1..], x, j);
    }
  }

  /** Inserting keeps the bins exact, exactly when no bin overflows. */
  lemma InsertTracksExactly(slotsOf: Item -> seq<nat>, bins: seq<nat>, items: seq<Item>, x: Item)
    requires InBounds(bins, slotsOf(x)) && Tracks(slotsOf, bins, items)
    ensures Tracks(slotsOf, Bump(bins, slotsOf(x)), [x] + items)
            <==> forall j :: 0 <= j < |bins| ==> bins[j] + Hits(slotsOf(x), j) <= U32_MAX
  {
    assert ([x] + items)[1..] == items;
    var up := Bump(bins, slotsOf(x));
    forall j | 0 <= j < |bins| ensures Load(slotsOf, [x] + items, j) == bins[j] + Hits(slotsOf(x), j) {
    }
    assert forall j :: 0 <= j < |bins| ==> up[j] == Saturate(bins[j] + Hits(slotsOf(x), j));
  }

  /** What remove_raw leaves behind, where it does not panic. */
  function Removed(bins: seq<nat>, slots: seq<nat>): Option<seq<nat>>
    requires InBounds(bins, slots)
  {
    if Least(bins, slots) == 0 then Some(bins)
    else if Covers(bins, slots) then Some(Drop(bins, slots))
    else None
  }

  /** Removing acts on the bins as on the items - with nothing done for an item that is not there -
      exactly when the item is there or does not seem to be. */
  lemma RemoveTracksExactly(slotsOf: Item -> seq<nat>, bins: seq<nat>, items: seq<Item>, x: Item)
    requires InBounds(bins, slotsOf(x)) && Tracks(slotsOf, bins, items) && slotsOf(x) != []
    ensures (Removed(bins, slotsOf(x)).Some? && Tracks(slotsOf, Removed(bins, slotsOf(x)).value, Without(items, x)))
            <==> (x in items || Least(bins, slotsOf(x)) == 0)
  {
    hide Hits;
    var slots := slotsOf(x);
    forall j | 0 <= j < |bins|
      ensures bins[j] == Load(slotsOf, Without(items, x), j) + if x in items then Hits(slots, j) else 0
    {
      LoadWithout(slotsOf, items, x, j);
    }
    if x in items {
      assert Covers(bins, slots);
      if Least(bins, slots) == 0 {
        MembersAreSeen(slotsOf, bins, items, x);
      }
    } else if Least(bins, slots) > 0 && Covers(bins, slots) {
      DrawnIsHit(slots, 0);
      assert Drop(bins, slots)[slots[0]] != bins[slots[0]];
    }
  }

  lemma DrawnIsHit(slots: seq<nat>, i: nat)
    requires i < |slots|
    ensures Hits(slots, slots[i]) > 0
  {
    assert slots[i] in multiset(slots);
  }

  /** No false negatives: the count of an item is never less than how often it is there. */
  lemma MembersAreSeen(slotsOf: Item -> seq<nat>, bins: seq<nat>, items: seq<Item>, x: Item)
    requires InBounds(bins, slotsOf(x)) && Tracks(slotsOf, bins, items) && slotsOf(x) != []
    ensures Least(bins, slotsOf(x)) >= multiset(items)[x]
  {
    hide Hits;
    var i :| 0 <= i < |slotsOf(x)| && bins[slotsOf(x)[i]] == Least(bins, slotsOf(x));
    var s := slotsOf(x)[i];
    DrawnIsHit(slotsOf(x), i);
    LoadCoversMembers(slotsOf, items, x, s);
  }

  /** The filter that to_bloom_filter extracts from the bins. */
  ghost predicate IsFilterOf(bits: seq<bool>, bins: seq<nat>) {
    |bits| == |bins| && forall j :: 0 <= j < |bits| ==> (bits[j] <==> bins[j] > 0)
  }

  /** contains_raw: all the bits that an item draws are set. */
  method ContainsRaw(bits: seq<bool>, slots: seq<nat>) returns (r: bool)
    requires forall i :: 0 <= i < |slots| ==> slots[i] < |bits|
    ensures r <==> Shows(bits, slots)
  {
    for i := 0 to |slots|
      invariant forall k :: 0 <= k < i ==> bits[slots[k]]
    {
      if !bits[slots[i]] {
        return false;
      }
    }
    return true;
  }

  ghost predicate Shows(bits: seq<bool>, slots: seq<nat>) {
    forall i :: 0 <= i < |slots| ==> slots[i] < |bits| && bits[slots[i]]
  }

  /** The filter shows an item exactly when the counter counts it. */
  lemma ShownExactly(bits: seq<bool>, bins: seq<nat>, slots: seq<nat>)
    requires InBounds(bins, slots) && IsFilterOf(bits, bins)
    ensures Shows(bits, slots) <==> Least(bins, slots) > 0
  {
  }

  // ---------- Whole histories ----------

  datatype Change = Inserted(x: Item) | Taken(x: Item)

  function ItemsAfter(history: seq<Change>): seq<Item> {
    if history == [] then [] else
      var n := |history| - 1;
      var items := ItemsAfter(history[..n]);
      match history[n]
      case Inserted(x) => [x] + items
      case Taken(x) => Without(items, x)
  }

  predicate SlotsOk(slotsOf: Item -> seq<nat>, bins: seq<nat>, c: Change) {
    InBounds(bins, slotsOf(c.x)) && slotsOf(c.x) != []
  }

  /** One change, made to the bins. */
  ghost predicate Step(slotsOf: Item -> seq<nat>, bins: seq<nat>, c: Change, bins': seq<nat>)
    requires SlotsOk(slotsOf, bins, c)
  {
    match c
    case Inserted(x) => bins' == Bump(bins, slotsOf(x))
    case Taken(x) => Removed(bins, slotsOf(x)) == Some(bins')
  }

  /** The change does not overflow a bin, and does not take out an item that only seems to be there. */
  ghost predicate Careful(slotsOf: Item -> seq<nat>, bins: seq<nat>, items: seq<Item>, c: Change)
    requires SlotsOk(slotsOf, bins, c)
  {
    match c
    case Inserted(x) => forall j :: 0 <= j < |bins| ==> bins[j] + Hits(slotsOf(x), j) <= U32_MAX
    case Taken(x) => x in items || Least(bins, slotsOf(x)) == 0
  }

  ghost predicate IsHistory(slotsOf: Item -> seq<nat>, states: seq<seq<nat>>, history: seq<Change>) {
    && |states| == |history| + 1
    && (forall j :: 0 <= j < |states[0]| ==> states[0][j] == 0)
    && (forall i :: 0 <= i < |history| ==> SlotsOk(slotsOf, states[i], history[i]) && Step(slotsOf, states[i], history[i], states[i + 1]))
  }

  /** Over every history, the bins stay exact for as long as every change is careful, and not longer. */
  lemma {:induction false} HistoriesTrackExactly(slotsOf: Item -> seq<nat>, states: seq<seq<nat>>, history: seq<Change>, n: nat)
    requires IsHistory(slotsOf, states, history) && n <= |history|
    ensures (forall k :: 0 <= k <= n ==> Tracks(slotsOf, states[k], ItemsAfter(history[..k])))
            <==> forall k :: 0 <= k < n ==> Careful(slotsOf, states[k], ItemsAfter(history[..k]), history[k])
  {
    hide Tracks, Careful, Step, ItemsAfter;
    if n == 0 {
      assert history[..0] == [];
      NothingTracked(slotsOf, states[0]);
    } else {
      var i := n - 1;
      HistoriesTrackExactly(slotsOf, states, history, i);
      if Tracks(slotsOf, states[i], ItemsAfter(history[..i])) {
        StepTracksExactly(slotsOf, states[i], history, i, states[n]);
      }
    }
  }

  /** The bins keep their number and stay within 32 bits. */
  lemma {:induction false} StatesInBounds(slotsOf: Item -> seq<nat>, states: seq<seq<nat>>, history: seq<Change>, n: nat, x: Item)
    requires IsHistory(slotsOf, states, history) && n <= |history|
    requires forall i :: 0 <= i < |slotsOf(x)| ==> slotsOf(x)[i] < |states[0]|
    ensures |states[n]| == |states[0]| && InBounds(states[n], slotsOf(x))
  {
    if n > 0 {
      StatesInBounds(slotsOf, states, history, n - 1, x);
      assert Step(slotsOf, states[n - 1], history[n - 1], states[n]);
      assert SlotsOk(slotsOf, states[n - 1], history[n - 1]);
      match history[n - 1]
      case Inserted(y) =>
      case Taken(y) =>
    }
  }

  lemma NothingTracked(slotsOf: Item -> seq<nat>, bins: seq<nat>)
    requires forall j :: 0 <= j < |bins| ==> bins[j] == 0
    ensures Tracks(slotsOf, bins, ItemsAfter([]))
  {
  }

  lemma StepTracksExactly(slotsOf: Item -> seq<nat>, bins: seq<nat>, history: seq<Change>, i: nat, bins': seq<nat>)
    requires i < |history| && SlotsOk(slotsOf, bins, history[i]) && Step(slotsOf, bins, history[i], bins')
    requires Tracks(slotsOf, bins, ItemsAfter(history[..i]))
    ensures Tracks(slotsOf, bins', ItemsAfter(history[..i + 1])) <==> Careful(slotsOf, bins, ItemsAfter(history[..i]), history[i])
  {
    hide Tracks;
    assert history[..i + 1][..i] == history[..i];
    match history[i]
    case Inserted(x) => InsertTracksExactly(slotsOf, bins, ItemsAfter(history[..i]), x);
    case Taken(x) => RemoveTracksExactly(slotsOf, bins, ItemsAfter(history[..i]), x);
  }

  // ---------- Histories that only take out what is there ----------

  ghost predicate RemovesMembers(history: seq<Change>) {
    forall k :: 0 <= k < |history| && history[k].Taken? ==> history[k].x in ItemsAfter(history[..k])
  }

  function Insertions(history: seq<Change>): nat {
    if history == [] then 0
    else Insertions(history[..|history| - 1]) + if history[|history| - 1].Inserted? then 1 else 0
  }

  lemma {:induction false} WithoutIsNoLonger(items: seq<Item>, x: Item)
    ensures |Without(items, x)| <= |items|
  {
    if items != [] && items[0] != x {
      WithoutIsNoLonger(items[1..], x);
    }
  }

  lemma {:induction false} ItemsAtMost(history: seq<Change>)
    ensures |ItemsAfter(history)| <= Insertions(history)
  {
    if history != [] {
      var n := |history| - 1;
      ItemsAtMost(history[..n]);
      if history[n].Taken? {
        WithoutIsNoLonger(ItemsAfter(history[..n]), history[n].x);
      }
    }
  }

  lemma {:induction false} FewerInsertionsBefore(history: seq<Change>, n: nat)
    requires n <= |history|
    ensures Insertions(history[..n]) <= Insertions(history)
    decreases |history| - n
  {
    if n < |history| {
      FewerInsertionsBefore(history, n + 1);
      assert history[..n + 1][..n] == history[..n];
    } else {
      assert history[..n] == history;
    }
  }

  lemma HitsAtMost(slots: seq<nat>, j: nat)
    ensures Hits(slots, j) <= |slots|
  {
    assert multiset(slots)[j] <= |multiset(slots)|;
  }

  lemma {:induction false} LoadAtMost(slotsOf: Item -> seq<nat>, hashes: nat, items: seq<Item>, j: nat)
    requires forall x :: |slotsOf(x)| <= hashes
    ensures Load(slotsOf, items, j) <= |items| * hashes
  {
    hide Hits;
    if items != [] {
      LoadAtMost(slotsOf, hashes, items[1..], j);
      HitsAtMost(slotsOf(items[0]), j);
      assert |items| * hashes == |items[1..]| * hashes + hashes;
    }
  }

  /** Room for every insertion in one bin: none can overflow. */
  ghost predicate Roomy(slotsOf: Item -> seq<nat>, hashes: nat, history: seq<Change>) {
    (forall x :: 0 < |slotsOf(x)| <= hashes) && Insertions(history) * hashes <= U32_MAX
  }

  lemma RoomForOneMore(slotsOf: Item -> seq<nat>, hashes: nat, bins: seq<nat>, history: seq<Change>, k: nat)
    requires Roomy(slotsOf, hashes, history) && k < |history| && history[k].Inserted?
    requires Tracks(slotsOf, bins, ItemsAfter(history[..k]))
    ensures forall j :: 0 <= j < |bins| ==> bins[j] + Hits(slotsOf(history[k].x), j) <= U32_MAX
  {
    hide Hits, Load, ItemsAfter;
    var items := ItemsAfter(history[..k]);
    ItemsAtMost(history[..k]);
    FewerInsertionsBefore(history, k + 1);
    assert history[..k + 1][..k] == history[..k];
    var n, m := |items|, Insertions(history);
    assert n + 1 <= m;
    Product(n + 1, m, hashes);
    forall j | 0 <= j < |bins|
      ensures bins[j] + Hits(slotsOf(history[k].x), j) <= U32_MAX
    {
      LoadAtMost(slotsOf, hashes, items, j);
      HitsAtMost(slotsOf(history[k].x), j);
      assert (n + 1) * hashes == n * hashes + hashes;
    }
  }

  lemma Product(a: nat, b: nat, c: nat)
    requires a <= b
    ensures a * c <= b * c
  {
  }

  /** With room in the bins and only members taken out, every change is careful. */
  lemma {:induction false} MembersMakeCareful(slotsOf: Item -> seq<nat>, hashes: nat, states: seq<seq<nat>>, history: seq<Change>, n: nat)
    requires IsHistory(slotsOf, states, history) && RemovesMembers(history) && Roomy(slotsOf, hashes, history) && n <= |history|
    ensures forall k :: 0 <= k < n ==> Careful(slotsOf, states[k], ItemsAfter(history[..k]), history[k])
  {
    hide Roomy, Tracks, ItemsAfter, Step, Hits, Least;
    if n > 0 {
      var k := n - 1;
      MembersMakeCareful(slotsOf, hashes, states, history, k);
      HistoriesTrackExactly(slotsOf, states, history, k);
      if history[k].Inserted? {
        RoomForOneMore(slotsOf, hashes, states[k], history, k);
      }
    }
  }

  /** Such a history never panics: there are bins for all of it. */
  lemma {:induction false} BinsExist(slotsOf: Item -> seq<nat>, hashes: nat, numBins: nat, history: seq<Change>) returns (states: seq<seq<nat>>)
    requires RemovesMembers(history) && Roomy(slotsOf, hashes, history)
    requires forall x, i :: 0 <= i < |slotsOf(x)| ==> slotsOf(x)[i] < numBins
    ensures IsHistory(slotsOf, states, history) && |states[0]| == numBins
  {
    hide Tracks, ItemsAfter, Least, Hits, Bump, Removed, Careful, InBounds;
    if history == [] {
      states := [seq(numBins, i => 0)];
    } else {
      var n := |history| - 1;
      var front, c := history[..n], history[n];
      RoomyFront(slotsOf, hashes, history);
      MembersFront(history);
      states := BinsExist(slotsOf, hashes, numBins, front);
      MembersMakeCareful(slotsOf, hashes, states, front, n);
      HistoriesTrackExactly(slotsOf, states, front, n);
      assert front[..n] == front;
      StatesInBounds(slotsOf, states, front, n, c.x);
      var next := NextBins(slotsOf, states[n], front, c);
      IsHistoryExtends(slotsOf, states, front, c, next);
      assert front + [c] == history;
      states := states + [next];
    }
  }

  lemma RoomyFront(slotsOf: Item -> seq<nat>, hashes: nat, history: seq<Change>)
    requires Roomy(slotsOf, hashes, history) && history != []
    ensures Roomy(slotsOf, hashes, history[..|history| - 1])
  {
    Product(Insertions(history[..|history| - 1]), Insertions(history), hashes);
  }

  lemma MembersFront(history: seq<Change>)
    requires RemovesMembers(history) && history != []
    ensures RemovesMembers(history[..|history| - 1])
    ensures history[|history| - 1].Taken? ==> history[|history| - 1].x in ItemsAfter(history[..|history| - 1])
  {
    hide ItemsAfter;
    var front := history[..|history| - 1];
    forall k | 0 <= k < |front| && front[k].Taken?
      ensures front[k].x in ItemsAfter(front[..k])
    {
      assert front[..k] == history[..k];
    }
  }

  lemma NextBins(slotsOf: Item -> seq<nat>, bins: seq<nat>, history: seq<Change>, c: Change) returns (next: seq<nat>)
    requires InBounds(bins, slotsOf(c.x)) && slotsOf(c.x) != [] && Tracks(slotsOf, bins, ItemsAfter(history))
    requires c.Taken? ==> c.x in ItemsAfter(history)
    ensures SlotsOk(slotsOf, bins, c) && Step(slotsOf, bins, c, next)
  {
    hide Tracks, ItemsAfter, Bump, Removed;
    match c
    case Inserted(x) => next := Bump(bins, slotsOf(x));
    case Taken(x) =>
      RemoveTracksExactly(slotsOf, bins, ItemsAfter(history), x);
      next := Removed(bins, slotsOf(x)).value;
  }

  lemma IsHistoryExtends(slotsOf: Item -> seq<nat>, states: seq<seq<nat>>, history: seq<Change>, c: Change, next: seq<nat>)
    requires IsHistory(slotsOf, states, history)
    requires SlotsOk(slotsOf, states[|history|], c) && Step(slotsOf, states[|history|], c, next)
    ensures IsHistory(slotsOf, states + [next], history + [c])
  {
    hide SlotsOk, Step;
  }

  /** Taking out an item that was never put in can make another one disappear. */
  lemma FalsePositiveErasesMember()
    ensures var slotsOf := (x: Item) => [0];
            && Tracks(slotsOf, [1], [7])
            && Removed([1], slotsOf(8)) == Some([0])
            && Least([0], slotsOf(7)) == 0
  {
    var slotsOf := (x: Item) => [0];
    assert Load(slotsOf, [7], 0) == 1 + Load(slotsOf, [7][1..], 0);
    assert Covers([1], [0]);
    assert Drop([1], [0]) == [0];
  }
}
