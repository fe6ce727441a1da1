/** The pessimistic cost estimator: for every operation and cost dimension, the mean of the ten
    highest costs seen. Sums and means are exact. */
module Pessimistic {
  import opened Wrappers

  const SAMPLE_SIZE: nat := 10

  // ---------- The largest samples of a history ----------

  ghost predicate Descending(s: seq<nat>) {
    forall i, j :: 0 <= i < j < |s| ==> s[i] >= s[j]
  }

  function InsertDesc(x: nat, s: seq<nat>): (r: seq<nat>)
    ensures |r| == |s| + 1
  {
    if s == [] || x >= s[0] then [x] + s else [s[0]] + InsertDesc(x, s[1..])
  }

  function Desc(h: seq<nat>): (r: seq<nat>)
    ensures |r| == |h|
  {
    if h == [] then [] else InsertDesc(h[|h| - 1], Desc(h[..|h| - 1]))
  }

  /** The SAMPLE_SIZE largest samples, or all of them. */
  function Top(h: seq<nat>): (r: seq<nat>)
    ensures |r| == Min(|h|, 10)
  {
    Desc(h)[..Min(|h|, SAMPLE_SIZE)]
  }

  lemma {:induction false} InsertKeepsUpperBound(x: nat, s: seq<nat>, high: nat)
    requires x <= high && forall i :: 0 <= i < |s| ==> s[i] <= high
    ensures forall i :: 0 <= i < |InsertDesc(x, s)| ==> InsertDesc(x, s)[i] <= high
  {
    if s != [] && x < s[0] {
      InsertKeepsUpperBound(x, s[1..], high);
    }
  }

  lemma {:induction false} InsertDescends(x: nat, s: seq<nat>)
    requires Descending(s)
    ensures Descending(InsertDesc(x, s))
  {
    if s != [] && x < s[0] {
      InsertDescends(x, s[1..]);
      InsertKeepsUpperBound(x, s[1..], s[0]);
    }
  }

  lemma {:induction false} InsertAdds(x: nat, s: seq<nat>)
    ensures multiset(InsertDesc(x, s)) == multiset{x} + multiset(s)
  {
    if s != [] && x < s[0] {
      InsertAdds(x, s[1..]);
      assert s == [s[0]] + s[1..];
    }
  }

  lemma {:induction false} DescSorts(h: seq<nat>)
    ensures Descending(Desc(h)) && multiset(Desc(h)) == multiset(h)
  {
    if h != [] {
      var n := |h| - 1;
      DescSorts(h[..n]);
      InsertDescends(h[n], Desc(h[..n]));
      InsertAdds(h[n], Desc(h[..n]));
      assert h == h[..n] + [h[n]];
    }
  }

  /** What "the largest" means: a part of the history of the right size, with nothing larger left out. */
  lemma TopIsLargest(h: seq<nat>)
    ensures multiset(Top(h)) <= multiset(h)
    ensures forall x, y :: x in multiset(h) - multiset(Top(h)) && y in Top(h) ==> x <= y
  {
    hide Desc, InsertDesc, Descending;
    DescSorts(h);
    PrefixIsLargest(Desc(h), Min(|h|, SAMPLE_SIZE));
  }

  lemma PrefixIsLargest(d: seq<nat>, k: nat)
    requires Descending(d) && k <= |d|
    ensures multiset(d[..k]) <= multiset(d)
    ensures forall x, y :: x in multiset(d) - multiset(d[..k]) && y in d[..k] ==> x <= y
  {
    assert d == d[..k] + d[k..];
    assert multiset(d) - multiset(d[..k]) == multiset(d[k..]);
    forall x, y | x in multiset(d[k..]) && y in d[..k]
      ensures x <= y
    {
      assert x in d[k..];
      var i :| k <= i < |d| && d[i] == x;
      var j :| 0 <= j < k && d[j] == y;
    }
  }

  /** Inserting into a long descending list changes its first n elements only if it beats the last of them. */
  lemma {:induction false} InsertIntoPrefix(x: nat, s: seq<nat>, n: nat)
    requires Descending(s) && 0 < n <= |s|
    ensures InsertDesc(x, s)[..n] == if x >= s[n - 1] then InsertDesc(x, s[..n - 1]) else s[..n]
  {
    hide InsertDesc;
    InsertUnfolds(x, s);
    InsertUnfolds(x, s[..n - 1]);
    if x >= s[0] {
      assert s[0] >= s[n - 1];
      assert n > 1 ==> s[..n - 1][0] == s[0];
      assert ([x] + s)[..n] == [x] + s[..n - 1];
    } else {
      var rest := InsertDesc(x, s[1..]);
      assert ([s[0]] + rest)[..n] == [s[0]] + rest[..n - 1];
      if n == 1 {
        assert s[..1] == [s[0]] + rest[..0];
      } else {
        DescendingTail(s);
        InsertIntoPrefix(x, s[1..], n - 1);
        assert s[..n - 1][0] == s[0] && s[1..][..n - 2] == s[..n - 1][1..];
        assert s[..n] == [s[0]] + s[1..][..n - 1];
      }
    }
  }

  lemma InsertUnfolds(x: nat, s: seq<nat>)
    ensures InsertDesc(x, s) == if s == [] || x >= s[0] then [x] + s else [s[0]] + InsertDesc(x, s[1..])
  {
  }

  lemma DescendingTail(s: seq<nat>)
    requires Descending(s) && s != []
    ensures Descending(s[1..])
  {
  }

  lemma DescAppend(h: seq<nat>, x: nat)
    ensures Desc(h + [x]) == InsertDesc(x, Desc(h))
  {
    assert (h + [x])[..|h|] == h;
  }

  /** How the largest samples change when one more arrives: while there is room ... */
  lemma TopGrows(h: seq<nat>, x: nat)
    requires |h| < SAMPLE_SIZE
    ensures multiset(Top(h + [x])) == multiset(Top(h)) + multiset{x}
  {
    hide Desc, InsertDesc;
    DescAppend(h, x);
    var d := Desc(h);
    InsertAdds(x, d);
    assert d[..|h|] == d;
    assert Top(h + [x]) == InsertDesc(x, d);
  }

  /** ... and when it has to displace the least of them. */
  lemma TopReplaces(h: seq<nat>, x: nat)
    requires |h| >= SAMPLE_SIZE
    ensures var least := Top(h)[SAMPLE_SIZE - 1];
            multiset(Top(h + [x])) == if x > least then multiset(Top(h)) - multiset{least} + multiset{x} else multiset(Top(h))
  {
    hide Desc, InsertDesc, Descending;
    DescAppend(h, x);
    DescSorts(h);
    PrefixAfterInsert(Desc(h), x);
  }

  lemma PrefixAfterInsert(d: seq<nat>, x: nat)
    requires Descending(d) && |d| >= SAMPLE_SIZE
    ensures var least := d[SAMPLE_SIZE - 1];
            multiset(InsertDesc(x, d)[..SAMPLE_SIZE])
            == if x > least then multiset(d[..SAMPLE_SIZE]) - multiset{least} + multiset{x} else multiset(d[..SAMPLE_SIZE])
  {
    hide InsertDesc, Descending;
    var kept, least := d[..SAMPLE_SIZE - 1], d[SAMPLE_SIZE - 1];
    InsertIntoPrefix(x, d, SAMPLE_SIZE);
    InsertAdds(x, kept);
    assert d[..SAMPLE_SIZE] == kept + [least];
  }

  lemma TopLast(h: seq<nat>)
    requires |h| >= SAMPLE_SIZE
    ensures forall y :: y in Top(h) ==> Top(h)[SAMPLE_SIZE - 1] <= y
  {
    DescSorts(h);
  }

  // ---------- Means ----------

  function Sum(s: seq<nat>): nat {
    if s == [] then 0 else Sum(s[..|s| - 1]) + s[|s| - 1]
  }

  function Mean(s: seq<nat>): nat {
    if s == [] then 0 else Sum(s) / |s|
  }

  /** The mean is the exact quotient, rounded down. */
  lemma MeanRoundsDown(s: seq<nat>)
    requires s != []
    ensures |s| * Mean(s) <= Sum(s) < |s| * (Mean(s) + 1)
  {
    hide Sum;
    var sum, n := Sum(s), |s|;
    assert sum == n * (sum / n) + sum % n;
  }

  lemma {:induction false} SumAppend(a: seq<nat>, b: seq<nat>)
    ensures Sum(a + b) == Sum(a) + Sum(b)
  {
    if b == [] {
      assert a + b == a;
    } else {
      assert (a + b)[..|a + b| - 1] == a + b[..|b| - 1];
      SumAppend(a, b[..|b| - 1]);
    }
  }

  lemma {:induction false} SumOfMultiset(a: seq<nat>, b: seq<nat>)
    requires multiset(a) == multiset(b)
    ensures Sum(a) == Sum(b) && |a| == |b|
  {
    assert |multiset(a)| == |a| && |multiset(b)| == |b|;
    if a != [] {
      var x := a[|a| - 1];
      assert x in multiset(b);
      var i :| 0 <= i < |b| && b[i] == x;
      assert a == a[..|a| - 1] + [x];
      assert b == b[..i] + [x] + b[i + 1..];
      assert multiset(a[..|a| - 1]) == multiset(a) - multiset{x};
      assert multiset(b[..i] + b[i + 1..]) == multiset(b) - multiset{x};
      SumOfMultiset(a[..|a| - 1], b[..i] + b[i + 1..]);
      SumAppend(b[..i], b[i + 1..]);
      SumAppend(b[..i] + [x], b[i + 1..]);
      SumAppend(b[..i], [x]);
      assert [x][..0] == [];
    }
  }

  lemma MeanOfMultiset(a: seq<nat>, b: seq<nat>)
    requires multiset(a) == multiset(b)
    ensures Mean(a) == Mean(b)
  {
    SumOfMultiset(a, b);
  }

  lemma TimesAscends(n: nat, x: int, y: int)
    requires x <= y
    ensures n * x <= n * y
  {
    assert n * y == n * x + n * (y - x);
  }

  lemma Cancel(n: nat, x: int, y: int)
    requires n > 0 && n * x <= n * y
    ensures x <= y
  {
    assert n * (y + 1) == n * y + n;
    if y + 1 <= x {
      TimesAscends(n, y + 1, x);
    }
  }

  lemma QuotientAtLeast(a: nat, n: nat, q: nat)
    requires n > 0 && n * q <= a
    ensures q <= a / n
  {
    var d := a / n;
    assert a == n * d + a % n;
    assert n * (d + 1) == n * d + n;
    if d + 1 <= q {
      TimesAscends(n, d + 1, q);
    }
  }

  lemma DivisionAscends(a: nat, b: nat, n: nat)
    requires a <= b && n > 0
    ensures a / n <= b / n
  {
    assert a == n * (a / n) + a % n;
    QuotientAtLeast(b, n, a / n);
  }

  /** Once the sample is full, another event never lowers the mean. */
  lemma MeanNeverDrops(h: seq<nat>, x: nat)
    requires |h| >= SAMPLE_SIZE
    ensures Mean(Top(h + [x])) >= Mean(Top(h))
  {
    TopReplaces(h, x);
    var t, least := Top(h), Top(h)[SAMPLE_SIZE - 1];
    if x > least {
      assert t == t[..SAMPLE_SIZE - 1] + [least];
      var replaced := t[..SAMPLE_SIZE - 1] + [x];
      assert multiset(replaced) == multiset(t) - multiset{least} + multiset{x};
      SumOfMultiset(Top(h + [x]), replaced);
      assert replaced[..SAMPLE_SIZE - 1] == t[..SAMPLE_SIZE - 1];
      DivisionAscends(Sum(t), Sum(replaced), SAMPLE_SIZE);
    } else {
      SumOfMultiset(Top(h + [x]), t);
    }
  }

  lemma {:induction false} SumBounds(s: seq<nat>, low: nat, high: nat)
    requires forall i :: 0 <= i < |s| ==> low <= s[i] <= high
    ensures low * |s| <= Sum(s) <= high * |s|
  {
    if s != [] {
      SumBounds(s[..|s| - 1], low, high);
      assert low * |s| == low * (|s| - 1) + low;
      assert high * |s| == high * (|s| - 1) + high;
    }
  }

  lemma {:induction false} SumAtLeast(s: seq<nat>, low: nat)
    requires forall i :: 0 <= i < |s| ==> low <= s[i]
    ensures low * |s| <= Sum(s)
  {
    if s != [] {
      SumAtLeast(s[..|s| - 1], low);
      assert low * |s| == low * (|s| - 1) + low;
    }
  }

  /** The arithmetic of comparing a mean with the mean of a part. */
  lemma PartMean(part: nat, rest: nat, k: nat, m: nat, t: nat)
    requires k > 0 && part >= k * t && rest <= m * t
    ensures part / k >= (part + rest) / (k + m)
  {
    var n, all := k + m, part + rest;
    var q := all / n;
    CrossMultiply(part, rest, k, m, t);
    QuotientTimes(all, n);
    PartAtLeast(part, all, k, n, q);
    QuotientAtLeast(part, k, q);
  }

  lemma QuotientTimes(a: nat, n: nat)
    requires n > 0
    ensures n * (a / n) <= a
  {
    assert a == n * (a / n) + a % n;
  }

  lemma PartAtLeast(part: nat, all: nat, k: nat, n: nat, q: nat)
    requires n > 0 && n * part >= k * all && n * q <= all
    ensures k * q <= part
  {
    TimesAscends(k, n * q, all);
    Rotate(k, n, q);
    Cancel(n, k * q, part);
  }

  lemma Rotate(k: nat, n: nat, q: nat)
    ensures k * (n * q) == n * (k * q)
  {
  }

  lemma CrossMultiply(part: nat, rest: nat, k: nat, m: nat, t: nat)
    requires part >= k * t && rest <= m * t
    ensures (k + m) * part >= k * (part + rest)
  {
    TimesAscends(m, k * t, part);
    TimesAscends(k, rest, m * t);
    assert m * (k * t) == k * (m * t);
    assert (k + m) * part == k * part + m * part;
    assert k * (part + rest) == k * part + k * rest;
  }

  /** The mean of the largest samples is never below the (floored) mean of the whole history. */
  lemma MeanIsPessimistic(h: seq<nat>)
    ensures Mean(Top(h)) >= Mean(h)
  {
    hide Desc, Sum;
    DescSorts(h);
    var d := Desc(h);
    SumOfMultiset(d, h);
    if |h| <= SAMPLE_SIZE {
      assert d[..|h|] == d;
    } else {
      var top, rest, t := d[..SAMPLE_SIZE], d[SAMPLE_SIZE..], d[SAMPLE_SIZE - 1];
      assert d == top + rest;
      SumAppend(top, rest);
      SumAtLeast(top, t);
      SumBounds(rest, 0, t);
      PartMean(Sum(top), Sum(rest), SAMPLE_SIZE, |rest|, t);
    }
  }

  // ---------- One set of samples ----------

  class Samples {
    var items: seq<nat>

    constructor (items: seq<nat>)
      ensures this.items == items
    {
      this.items := items;
    }

    /** The first of the least items. */
    method LeastIndex() returns (k: nat)
      requires items != []
      ensures k < |items| && (forall i :: 0 <= i < |items| ==> items[k] <= items[i])
      ensures forall i :: 0 <= i < k ==> items[k] < items[i]
    {
      k := 0;
      for i := 1 to |items|
        invariant k < i
        invariant forall j :: 0 <= j < i ==> items[k] <= items[j]
        invariant forall j :: 0 <= j < k ==> items[k] < items[j]
      {
        if items[i] < items[k] {
          k := i;
        }
      }
    }

    /** Whatever samples came before, the items stay the largest of them. */
    method UpdateWith(sample: nat, ghost history: seq<nat>) returns (included: bool)
      requires multiset(items) == multiset(Top(history))
      modifies this
      ensures multiset(items) == multiset(Top(history + [sample]))
      ensures included <==> |history| < SAMPLE_SIZE || sample > Top(history)[SAMPLE_SIZE - 1]
    {
      hide Top;
      assert |items| == |multiset(Top(history))|;
      if |items| < SAMPLE_SIZE {
        TopGrows(history, sample);
        items := items + [sample];
        return true;
      }
      var k := LeastIndex();
      LeastIsLast(history, items, k);
      TopReplaces(history, sample);
      if sample > items[k] {
        ReplaceInMultiset(items, k, sample);
        items := items[k := sample];
        return true;
      }
      return false;
    }

    method MeanOfItems() returns (mean: nat)
      ensures mean == Mean(items)
    {
      if items == [] {
        return 0;
      }
      var total := 0;
      for i := 0 to |items|
        invariant total == Sum(items[..i])
      {
        assert items[..i + 1][..i] == items[..i];
        total := total + items[i];
      }
      assert items[..|items|] == items;
      mean := total / |items|;
    }
  }

  lemma ReplaceInMultiset(s: seq<nat>, k: nat, x: nat)
    requires k < |s|
    ensures multiset(s[k := x]) == multiset(s) - multiset{s[k]} + multiset{x}
  {
  }

  /** The least item is the last of the largest. */
  lemma LeastIsLast(h: seq<nat>, items: seq<nat>, k: nat)
    requires |h| >= SAMPLE_SIZE && multiset(items) == multiset(Top(h))
    requires k < |items| && forall i :: 0 <= i < |items| ==> items[k] <= items[i]
    ensures items[k] == Top(h)[SAMPLE_SIZE - 1]
  {
    TopLast(h);
    var last := Top(h)[SAMPLE_SIZE - 1];
    assert last in multiset(items);
    assert items[k] in multiset(Top(h));
    assert last in items && items[k] in Top(h);
  }

  // ---------- Keys ----------

  datatype CostField = RuntimeCost | WriteLength | WriteCount | ReadLength | ReadCount {
    function Name(): string {
      match this
      case RuntimeCost => "runtime"
      case WriteLength => "write-length"
      case WriteCount => "write-count"
      case ReadLength => "read-length"
      case ReadCount => "read-count"
    }

    function Select(c: ExecutionCost): nat {
      match this
      case RuntimeCost => c.runtime
      case WriteLength => c.writeLength
      case WriteCount => c.writeCount
      case ReadLength => c.readLength
      case ReadCount => c.readCount
    }
  }

  const ALL_FIELDS: seq<CostField> := [RuntimeCost, WriteLength, WriteCount, ReadLength, ReadCount]

  datatype ExecutionCost = ExecutionCost(runtime: nat, writeLength: nat, writeCount: nat, readLength: nat, readCount: nat)

  datatype Payload = TokenTransfer | ContractCall(address: string, contract: string, fn: string) | SmartContract | PoisonMicroblock | Coinbase

  datatype Epoch = Epoch10 | Epoch20 | Epoch205

  function Descriptor(p: Payload, e: Epoch): string {
    match p
    case TokenTransfer => "stx-transfer"
    case ContractCall(address, contract, fn) =>
      "cc" + (if e.Epoch205? then ":2.05" else "") + ":" + address + ":" + contract + "." + fn
    case SmartContract => "contract-publish"
    case PoisonMicroblock => "poison-ublock"
    case Coinbase => "coinbase"
  }

  /** Addresses, contract names and function names have neither colons nor dots. */
  predicate WellNamed(p: Payload) {
    p.ContractCall? ==>
      && ':' !in p.address && '.' !in p.address && ':' !in p.contract && '.' !in p.contract && ':' !in p.fn && '.' !in p.fn
  }

  lemma SplitFirst(a: string, x: string, b: string, y: string, c: char)
    requires a + [c] + x == b + [c] + y && c !in a && c !in b
    ensures a == b && x == y
  {
    var s := a + [c] + x;
    assert s[|a|] == c && s[|b|] == c;
    assert |a| == |b|;
    assert a == s[..|a|] && b == s[..|b|] && x == s[|a| + 1..] && y == s[|b| + 1..];
  }

  function Marker(e: Epoch): string {
    if e.Epoch205? then "2.05:" else ""
  }

  lemma CallDescriptor(p: Payload, e: Epoch)
    requires p.ContractCall?
    ensures Descriptor(p, e) == "cc:" + (Marker(e) + (p.address + [':'] + (p.contract + ['.'] + p.fn)))
  {
    assert "cc" + ":2.05" + ":" == "cc:" + "2.05:" && "cc" + "" + ":" == "cc:" + "";
  }

  /** With or without an epoch marker: the address cannot be mistaken for the marker. */
  lemma CallsCoincide(p: Payload, e: Epoch, q: Payload, f: Epoch)
    requires p.ContractCall? && q.ContractCall? && WellNamed(p) && WellNamed(q) && Descriptor(p, e) == Descriptor(q, f)
    ensures p == q && (e.Epoch205? <==> f.Epoch205?)
  {
    hide Descriptor;
    CallDescriptor(p, e);
    CallDescriptor(q, f);
    var x, y := p.contract + ['.'] + p.fn, q.contract + ['.'] + q.fn;
    var s, t := Marker(e) + (p.address + [':'] + x), Marker(f) + (q.address + [':'] + y);
    assert s == Descriptor(p, e)[3..] && t == Descriptor(q, f)[3..];
    if e.Epoch205? && !f.Epoch205? {
      MarkerIsNoAddress(p.address + [':'] + x, q.address, y);
    } else if f.Epoch205? && !e.Epoch205? {
      MarkerIsNoAddress(q.address + [':'] + y, p.address, x);
    } else {
      assert p.address + [':'] + x == s[|Marker(e)|..] && q.address + [':'] + y == t[|Marker(f)|..];
      SplitFirst(p.address, x, q.address, y, ':');
      SplitFirst(p.contract, p.fn, q.contract, q.fn, '.');
    }
  }

  lemma MarkerIsNoAddress(rest: string, address: string, x: string)
    requires '.' !in address && ':' !in address
    ensures "2.05:" + rest != "" + (address + [':'] + x)
  {
    if "2.05:" + rest == "" + (address + [':'] + x) {
      assert "2.05:" + rest == "2.05" + [':'] + rest;
      assert "2.05"[1] == '.';
      SplitFirst("2.05", rest, address, x, ':');
    }
  }

  /** Two operations share a descriptor exactly if they are the same kind of operation, and for contract
      calls the same function in the same cost regime. */
  lemma DescriptorsCoincideExactly(p: Payload, e: Epoch, q: Payload, f: Epoch)
    requires WellNamed(p) && WellNamed(q)
    ensures Descriptor(p, e) == Descriptor(q, f) <==> p == q && (p.ContractCall? ==> (e.Epoch205? <==> f.Epoch205?))
  {
    if p.ContractCall? && q.ContractCall? {
      if Descriptor(p, e) == Descriptor(q, f) {
        CallsCoincide(p, e, q, f);
      }
    } else {
      KindsDiffer(p, e);
      KindsDiffer(q, f);
    }
  }

  lemma KindsDiffer(p: Payload, e: Epoch)
    ensures var d := Descriptor(p, e);
            && |d| > 2
            && (p.TokenTransfer? <==> d[0] == 's') && (p.PoisonMicroblock? <==> d[0] == 'p')
            && (p.ContractCall? <==> d[0] == 'c' && d[1] == 'c') && (p.SmartContract? <==> d[0] == 'c' && d[2] == 'n')
            && (p.Coinbase? <==> d[0] == 'c' && d[2] == 'i')
  {
    if p.ContractCall? {
      CallDescriptor(p, e);
    }
  }

  function Key(descriptor: string, f: CostField): string {
    descriptor + ":" + f.Name()
  }

  lemma NamesHaveNoColon(f: CostField)
    ensures ':' !in f.Name()
  {
  }

  lemma SplitEarlier(a: string, x: string, b: string, y: string)
    requires a + ":" + x == b + ":" + y && |a| < |b|
    ensures ':' in x
  {
    var s := a + ":" + x;
    assert s[|b|] == ':';
    assert s[|b|] == x[|b| - |a| - 1];
  }

  lemma NamesDiffer(f: CostField, g: CostField)
    requires f.Name() == g.Name()
    ensures f == g
  {
    assert |"runtime"| == 7 && |"write-length"| == 12 && |"write-count"| == 11 && |"read-length"| == 11 && |"read-count"| == 10;
    assert "write-count"[0] == 'w' && "read-length"[0] == 'r';
  }

  /** Different operations and dimensions never share a row. */
  lemma KeyIsInjective(d: string, f: CostField, e: string, g: CostField)
    requires Key(d, f) == Key(e, g)
    ensures d == e && f == g
  {
    NamesHaveNoColon(f);
    NamesHaveNoColon(g);
    if |d| < |e| {
      SplitEarlier(d, f.Name(), e, g.Name());
    } else if |e| < |d| {
      SplitEarlier(e, g.Name(), d, f.Name());
    } else {
      var s := d + ":" + f.Name();
      assert s[..|d|] == d && s[..|e|] == e;
      assert s[|d| + 1..] == f.Name() && s[|e| + 1..] == g.Name();
      NamesDiffer(f, g);
    }
  }

  // ---------- The estimator ----------

  datatype Stored = Stored(currentValue: nat, samples: seq<nat>)

  datatype Event = Event(descriptor: string, cost: ExecutionCost)

  /** The costs in one dimension of the events with a given descriptor. */
  function History(events: seq<Event>, d: string, f: CostField): seq<nat> {
    if events == [] then []
    else
      var last := events[|events| - 1];
      History(events[..|events| - 1], d, f) + if last.descriptor == d then [f.Select(last.cost)] else []
  }

  lemma HistoryAppend(events: seq<Event>, e: Event, d: string, f: CostField)
    ensures History(events + [e], d, f) == History(events, d, f) + if e.descriptor == d then [f.Select(e.cost)] else []
  {
    assert (events + [e])[..|events|] == events;
  }

  lemma {:induction false} HistoryNonEmpty(events: seq<Event>, d: string, f: CostField)
    ensures History(events, d, f) != [] <==> exists i :: 0 <= i < |events| && events[i].descriptor == d
  {
    if events != [] {
      var n := |events| - 1;
      HistoryNonEmpty(events[..n], d, f);
      if i :| 0 <= i < |events| && events[i].descriptor == d {
        assert i == n || events[..n][i].descriptor == d;
      }
    }
  }

  /** The value a row reports: the mean of the largest samples, capped to what the column can hold. */
  function Reported(h: seq<nat>): nat {
    Min(Mean(Top(h)), I64_MAX)
  }

  lemma {:induction false} SteadyHistory(events: seq<Event>, d: string, cost: ExecutionCost, f: CostField)
    requires forall i :: 0 <= i < |events| && events[i].descriptor == d ==> events[i].cost == cost
    ensures forall i :: 0 <= i < |History(events, d, f)| ==> History(events, d, f)[i] == f.Select(cost)
  {
    if events != [] {
      SteadyHistory(events[..|events| - 1], d, cost, f);
    }
  }

  lemma SteadyMean(h: seq<nat>, x: nat)
    requires h != [] && forall i :: 0 <= i < |h| ==> h[i] == x
    ensures Mean(Top(h)) == x
  {
    hide Mean, Top, Sum;
    var top := Top(h);
    TopComesFrom(h);
    assert forall i :: 0 <= i < |top| ==> top[i] in h;
    SumBounds(top, x, x);
    MeanRoundsDown(top);
    Between(|top|, x, Mean(top));
  }

  lemma Between(n: nat, x: nat, q: nat)
    requires n > 0 && n * q <= n * x < n * (q + 1)
    ensures x == q
  {
    if x < q {
      TimesAscends(n, x + 1, q);
    } else if x > q {
      TimesAscends(n, q + 1, x);
    }
  }

  lemma TopComesFrom(h: seq<nat>)
    requires h != []
    ensures Top(h) != [] && forall y :: y in Top(h) ==> y in h
  {
    DescSorts(h);
    forall y | y in Top(h)
      ensures y in h
    {
      assert y in multiset(Desc(h));
    }
  }

  /** An operation that always cost the same is reported to cost that, dimension by dimension. */
  lemma SteadyCostsAreReported(events: seq<Event>, d: string, cost: ExecutionCost)
    requires exists i :: 0 <= i < |events| && events[i].descriptor == d
    requires forall i :: 0 <= i < |events| && events[i].descriptor == d ==> events[i].cost == cost
    ensures Reported(History(events, d, RuntimeCost)) == Min(cost.runtime, I64_MAX)
    ensures Reported(History(events, d, WriteLength)) == Min(cost.writeLength, I64_MAX)
    ensures Reported(History(events, d, WriteCount)) == Min(cost.writeCount, I64_MAX)
    ensures Reported(History(events, d, ReadLength)) == Min(cost.readLength, I64_MAX)
    ensures Reported(History(events, d, ReadCount)) == Min(cost.readCount, I64_MAX)
  {
    hide History, Mean, Top;
    forall f: CostField
      ensures Reported(History(events, d, f)) == Min(f.Select(cost), I64_MAX)
    {
      HistoryNonEmpty(events, d, f);
      SteadyHistory(events, d, cost, f);
      SteadyMean(History(events, d, f), f.Select(cost));
    }
  }

  /** A row stands for a history. */
  ghost predicate RowFor(rows: map<string, Stored>, key: string, h: seq<nat>) {
    if h == [] then key !in rows
    else key in rows && multiset(rows[key].samples) == multiset(Top(h)) && rows[key].currentValue == Reported(h)
  }

  class PessimisticEstimator {
    var rows: map<string, Stored>
    ghost var events: seq<Event>

    ghost predicate Valid()
      reads this
    {
      forall d: string, f: CostField :: RowFor(rows, Key(d, f), History(events, d, f))
    }

    constructor ()
      ensures Valid() && events == []
    {
      rows, events := map[], [];
    }

    /** One dimension of one event. */
    method UpdateField(d: string, f: CostField, cost: nat, ghost h: seq<nat>)
      requires RowFor(rows, Key(d, f), h)
      modifies this`rows
      ensures RowFor(rows, Key(d, f), h + [cost])
      ensures forall k :: k != Key(d, f) ==> (k in rows <==> k in old(rows)) && (k in rows ==> rows[k] == old(rows)[k])
    {
      hide Top, Mean;
      var key := Key(d, f);
      assert Top([]) == [] by { TopOfNone(); }
      var samples := new Samples(if key in rows then rows[key].samples else []);
      var _ := samples.UpdateWith(cost, h);
      var mean := samples.MeanOfItems();
      MeanOfMultiset(samples.items, Top(h + [cost]));
      rows := rows[key := Stored(Min(mean, I64_MAX), samples.items)];
    }

    method NotifyEvent(p: Payload, e: Epoch, cost: ExecutionCost)
      requires Valid()
      modifies this
      ensures Valid() && events == old(events) + [Event(Descriptor(p, e), cost)]
    {
      hide RowFor, Key;
      var d := Descriptor(p, e);
      ghost var before, after := events, events + [Event(d, cost)];
      for i := 0 to |ALL_FIELDS|
        invariant events == before
        invariant forall c: string, g: CostField ::
          RowFor(rows, Key(c, g), History(if c == d && g in ALL_FIELDS[..i] then after else before, c, g))
      {
        var f := ALL_FIELDS[i];
        ghost var rows0 := rows;
        HistoryAppend(before, Event(d, cost), d, f);
        FieldsAreDistinct(i);
        UpdateField(d, f, f.Select(cost), History(before, d, f));
        forall c: string, g: CostField
          ensures RowFor(rows, Key(c, g), History(if c == d && g in ALL_FIELDS[..i + 1] then after else before, c, g))
        {
          if Key(c, g) == Key(d, f) {
            KeyIsInjective(c, g, d, f);
          } else {
            OtherRow(rows0, rows, Key(c, g), History(if c == d && g in ALL_FIELDS[..i] then after else before, c, g));
          }
        }
      }
      events := after;
      forall c: string, g: CostField
        ensures RowFor(rows, Key(c, g), History(after, c, g))
      {
        FieldsAreAll(g);
        HistoryAppend(before, Event(d, cost), c, g);
        assert RowFor(rows, Key(c, g), History(if c == d && g in ALL_FIELDS[..|ALL_FIELDS|] then after else before, c, g));
        if c != d {
          assert History(after, c, g) == History(before, c, g);
        }
      }
    }

    method Lookup(d: string, f: CostField) returns (r: Option<nat>)
      requires Valid()
      ensures r == if History(events, d, f) == [] then None else Some(Reported(History(events, d, f)))
    {
      var key := Key(d, f);
      assert RowFor(rows, key, History(events, d, f));
      r := if key in rows then Some(rows[key].currentValue) else None;
    }

    /** An estimate exists exactly when an event with the same descriptor was recorded; every
        dimension of it is the capped mean of the largest costs seen. */
    method EstimateCost(p: Payload, e: Epoch) returns (r: Result<ExecutionCost>)
      requires Valid()
      ensures r.Success? <==> exists i :: 0 <= i < |events| && events[i].descriptor == Descriptor(p, e)
      ensures r.Success? ==>
        && r.value.runtime == Reported(History(events, Descriptor(p, e), RuntimeCost))
        && r.value.writeLength == Reported(History(events, Descriptor(p, e), WriteLength))
        && r.value.writeCount == Reported(History(events, Descriptor(p, e), WriteCount))
        && r.value.readLength == Reported(History(events, Descriptor(p, e), ReadLength))
        && r.value.readCount == Reported(History(events, Descriptor(p, e), ReadCount))
    {
      hide RowFor, Reported, Descriptor, History, Key;
      var d := Descriptor(p, e);
      forall f: CostField {
        HistoryNonEmpty(events, d, f);
      }
      var runtime := Lookup(d, RuntimeCost);
      if runtime.None? { return Failure; }
      var readCount := Lookup(d, ReadCount);
      if readCount.None? { return Failure; }
      var readLength := Lookup(d, ReadLength);
      if readLength.None? { return Failure; }
      var writeCount := Lookup(d, WriteCount);
      if writeCount.None? { return Failure; }
      var writeLength := Lookup(d, WriteLength);
      if writeLength.None? { return Failure; }
      return Success(ExecutionCost(runtime.value, writeLength.value, writeCount.value, readLength.value, readCount.value));
    }
  }

  lemma TopOfNone()
    ensures Top([]) == []
  {
  }

  lemma FieldsAreDistinct(i: nat)
    requires i < |ALL_FIELDS|
    ensures ALL_FIELDS[i] !in ALL_FIELDS[..i]
    ensures forall g :: g in ALL_FIELDS[..i + 1] <==> g in ALL_FIELDS[..i] || g == ALL_FIELDS[i]
  {
    assert ALL_FIELDS[..i + 1] == ALL_FIELDS[..i] + [ALL_FIELDS[i]];
  }

  lemma FieldsAreAll(g: CostField)
    ensures g in ALL_FIELDS && ALL_FIELDS[..|ALL_FIELDS|] == ALL_FIELDS
  {
    assert ALL_FIELDS[0] == RuntimeCost && ALL_FIELDS[1] == WriteLength && ALL_FIELDS[2] == WriteCount
        && ALL_FIELDS[3] == ReadLength && ALL_FIELDS[4] == ReadCount;
  }

  lemma OtherRow(rows: map<string, Stored>, rows': map<string, Stored>, key: string, h: seq<nat>)
    requires RowFor(rows, key, h)
    requires (key in rows <==> key in rows') && (key in rows ==> rows'[key] == rows[key])
    ensures RowFor(rows', key, h)
  {
  }
}
