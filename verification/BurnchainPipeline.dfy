/** The burnchain sync pipeline: a feeder and three threads joined by channels of capacity one,
    as interleaved steps. The input headers are numbered from 0 in the order they were read;
    the i-th one has block height start + 1 + i. */
module BurnchainPipeline {
  import opened Wrappers

  /** What travels through a channel: Some(header) or the end marker None. */
  datatype Msg = Item(k: nat) | End

  datatype Feeder = Feeding(next: nat) | FedAll | FeedFailed(next: nat)

  /** The downloader and the parser. A failed stage takes the item it was holding down with it. */
  datatype Stage = Waiting | Holding(k: nat) | Closing | Exited | Failed(lost: Option<nat>) {
    predicate Gone() { Exited? || Failed? }

    function Items(): seq<nat> {
      if Holding? then [k] else if Failed? && lost.Some? then [lost.value] else []
    }
  }

  datatype DbStage = DbWaiting | DbHolding(k: nat) | DbExited | DbClosed | DbPanicked(k: nat) {
    predicate Gone() { DbExited? || DbClosed? || DbPanicked? }

    function Items(): seq<nat> {
      if DbHolding? || DbPanicked? then [k] else []
    }
  }

  type Chan = Option<Msg>

  function InChan(c: Chan): seq<nat> {
    if c.Some? && c.value.Item? then [c.value.k] else []
  }

  datatype State = State(feeder: Feeder, c1: Chan, down: Stage, c2: Chan, parse: Stage, c3: Chan, db: DbStage, processed: seq<nat>)

  function Init(): State {
    State(Feeding(0), None, Waiting, None, Waiting, None, DbWaiting, [])
  }

  // ---------- Steps ----------

  datatype Action =
    | Feed | FeedEnd | FeedError
    | DownRecv | DownSend | DownClose | DownSendError | DownFault
    | ParseRecv | ParseDisconnected | ParseSend | ParseClose | ParseSendError | ParseFault
    | DbRecv | DbDisconnected | DbProcess | DbAnnounceFault | DbPanic

  /** Faults come from outside the pipeline: a stop request, a failed download or parse, a failed
      insertion, a closed coordinator channel. Every other action is the pipeline's own. */
  predicate IsFault(a: Action) {
    a.DownFault? || a.ParseFault? || a.DbAnnounceFault? || a.DbPanic?
  }

  predicate Enabled(n: nat, s: State, a: Action) {
    match a
    case Feed => s.feeder.Feeding? && s.feeder.next < n && !s.down.Gone() && s.c1.None?
    case FeedEnd => s.feeder.Feeding? && s.feeder.next >= n && !s.down.Gone() && s.c1.None?
    case FeedError => s.feeder.Feeding? && s.down.Gone()
    case DownRecv => s.down.Waiting? && s.c1.Some?
    case DownSend => s.down.Holding? && !s.parse.Gone() && s.c2.None?
    case DownClose => s.down.Closing? && !s.parse.Gone() && s.c2.None?
    case DownSendError => (s.down.Holding? || s.down.Closing?) && s.parse.Gone()
    case DownFault => s.down.Holding?
    case ParseRecv => s.parse.Waiting? && s.c2.Some?
    case ParseDisconnected => s.parse.Waiting? && s.c2.None? && s.down.Gone()
    case ParseSend => s.parse.Holding? && !s.db.Gone() && s.c3.None?
    case ParseClose => s.parse.Closing? && !s.db.Gone() && s.c3.None?
    case ParseSendError => (s.parse.Holding? || s.parse.Closing?) && s.db.Gone()
    case ParseFault => s.parse.Holding?
    case DbRecv => s.db.DbWaiting? && s.c3.Some?
    case DbDisconnected => s.db.DbWaiting? && s.c3.None? && s.parse.Gone()
    case DbProcess => s.db.DbHolding?
    case DbAnnounceFault => s.db.DbHolding?
    case DbPanic => s.db.DbHolding?
  }

  /** Whoever holds an item may fail with it, whatever the others are doing. */
  lemma FaultsAreAlwaysPossible(n: nat, s: State)
    ensures s.down.Holding? <==> Enabled(n, s, DownFault)
    ensures s.parse.Holding? <==> Enabled(n, s, ParseFault)
    ensures s.db.DbHolding? <==> Enabled(n, s, DbPanic)
    ensures s.db.DbHolding? <==> Enabled(n, s, DbAnnounceFault)
  {
  }

  function Received(m: Msg): Stage {
    if m.Item? then Holding(m.k) else Closing
  }

  function Dropped(s: Stage): Stage {
    Failed(if s.Holding? then Some(s.k) else None)
  }

  function Do(n: nat, s: State, a: Action): State
    requires Enabled(n, s, a)
  {
    match a
    case Feed => s.(c1 := Some(Item(s.feeder.next)), feeder := Feeding(s.feeder.next + 1))
    case FeedEnd => s.(c1 := Some(End), feeder := FedAll)
    case FeedError => s.(feeder := FeedFailed(s.feeder.next))
    case DownRecv => s.(c1 := None, down := Received(s.c1.value))
    case DownSend => s.(c2 := Some(Item(s.down.k)), down := Waiting)
    case DownClose => s.(c2 := Some(End), down := Exited)
    case DownSendError => s.(down := Dropped(s.down))
    case DownFault => s.(down := Dropped(s.down))
    case ParseRecv => s.(c2 := None, parse := Received(s.c2.value))
    case ParseDisconnected => s.(parse := Closing)
    case ParseSend => s.(c3 := Some(Item(s.parse.k)), parse := Waiting)
    case ParseClose => s.(c3 := Some(End), parse := Exited)
    case ParseSendError => s.(parse := Dropped(s.parse))
    case ParseFault => s.(parse := Dropped(s.parse))
    case DbRecv => s.(c3 := None, db := if s.c3.value.Item? then DbHolding(s.c3.value.k) else DbExited)
    case DbDisconnected => s.(db := DbExited)
    case DbProcess => s.(processed := s.processed + [s.db.k], db := DbWaiting)
    case DbAnnounceFault => s.(processed := s.processed + [s.db.k], db := DbClosed)
    case DbPanic => s.(db := DbPanicked(s.db.k))
  }

  ghost predicate Legal(n: nat, s: State, run: seq<Action>)
    decreases |run|
  {
    run == [] || (Enabled(n, s, run[0]) && Legal(n, Do(n, s, run[0]), run[1..]))
  }

  ghost function After(n: nat, s: State, run: seq<Action>): State
    requires Legal(n, s, run)
    decreases |run|
  {
    if run == [] then s else After(n, Do(n, s, run[0]), run[1..])
  }

  // ---------- Invariants of every interleaving ----------

  function Range(lo: nat, hi: nat): (r: seq<nat>)
    requires lo <= hi
    ensures |r| == hi - lo
  {
    seq(hi - lo, i requires 0 <= i < hi - lo => lo + i)
  }

  function Fed(n: nat, s: State): nat {
    if s.feeder.FedAll? then n else s.feeder.next
  }

  /** Everything taken from the input that is still somewhere in the pipeline, the oldest first. */
  function InFlight(s: State): seq<nat> {
    s.db.Items() + InChan(s.c3) + s.parse.Items() + InChan(s.c2) + s.down.Items() + InChan(s.c1)
  }

  /** Nothing is lost, duplicated or reordered. */
  ghost predicate Conserved(n: nat, s: State) {
    Fed(n, s) <= n && s.processed + InFlight(s) == Range(0, Fed(n, s))
  }

  /** How end markers and disconnections propagate. */
  ghost predicate Protocol(s: State) {
    // the feeder's end marker
    && (s.c1 == Some(End) ==> s.feeder.FedAll?)
    && (s.feeder.FedAll? ==> InChan(s.c1) == [])
    && (s.feeder.FedAll? && s.c1.None? ==> s.down.Closing? || s.down.Gone())
    && (s.down.Closing? || s.down.Exited? ==> s.feeder.FedAll? && s.c1.None?)
    && (s.feeder.FeedFailed? ==> s.down.Gone())
    // the downloader's
    && (s.c2 == Some(End) ==> s.down.Exited?)
    && (s.parse.Closing? || s.parse.Exited? ==> s.down.Gone() && s.c2.None?)
    // the parser's
    && (s.c3 == Some(End) ==> s.parse.Exited?)
    && (s.db.DbExited? ==> s.parse.Gone() && s.c3.None?)
  }

  /** A place of the pipeline that holds nothing, or the item with the given number. */
  predicate Holds(place: seq<nat>, number: nat) {
    place == [] || place == [number]
  }

  /** The same as Conserved, place by place: each item's number is the number of items ahead of it. */
  ghost predicate Numbered(n: nat, s: State) {
    var a := |s.processed|;
    var b := a + |s.db.Items()|;
    var c := b + |InChan(s.c3)|;
    var d := c + |s.parse.Items()|;
    var e := d + |InChan(s.c2)|;
    var f := e + |s.down.Items()|;
    && s.processed == Range(0, a)
    && Holds(s.db.Items(), a) && Holds(InChan(s.c3), b) && Holds(s.parse.Items(), c)
    && Holds(InChan(s.c2), d) && Holds(s.down.Items(), e) && Holds(InChan(s.c1), f)
    && Fed(n, s) == f + |InChan(s.c1)| <= n
  }

  lemma RangeExtends(k: nat, place: seq<nat>)
    requires Holds(place, k)
    ensures Range(0, k) + place == Range(0, k + |place|)
  {
  }

  lemma NumberedIsConserved(n: nat, s: State)
    requires Numbered(n, s)
    ensures Conserved(n, s) && s.processed == Range(0, |s.processed|)
  {
    hide Range, Holds, InChan, Stage.Items, DbStage.Items;
    var a := |s.processed|;
    var b := a + |s.db.Items()|;
    var c := b + |InChan(s.c3)|;
    var d := c + |s.parse.Items()|;
    var e := d + |InChan(s.c2)|;
    var f := e + |s.down.Items()|;
    RangeExtends(a, s.db.Items());
    RangeExtends(b, InChan(s.c3));
    RangeExtends(c, s.parse.Items());
    RangeExtends(d, InChan(s.c2));
    RangeExtends(e, s.down.Items());
    RangeExtends(f, InChan(s.c1));
    Reassociate(s.processed, s.db.Items(), InChan(s.c3), s.parse.Items(), InChan(s.c2), s.down.Items(), InChan(s.c1));
  }

  lemma Reassociate(p: seq<nat>, a: seq<nat>, b: seq<nat>, c: seq<nat>, d: seq<nat>, e: seq<nat>, f: seq<nat>)
    ensures p + (a + b + c + d + e + f) == p + a + b + c + d + e + f
  {
  }

  lemma InitNumbered(n: nat)
    ensures Numbered(n, Init()) && Protocol(Init())
  {
  }

  lemma StepKeepsProtocol(n: nat, s: State, a: Action)
    requires Protocol(s) && Enabled(n, s, a)
    ensures Protocol(Do(n, s, a))
  {
  }

  predicate IsFeeder(a: Action) {
    a.Feed? || a.FeedEnd? || a.FeedError?
  }

  lemma FeederKeepsNumbers(n: nat, s: State, a: Action)
    requires Numbered(n, s) && Enabled(n, s, a) && IsFeeder(a)
    ensures Numbered(n, Do(n, s, a))
  {
    hide Range, Stage.Items, DbStage.Items;
  }

  predicate IsDownloader(a: Action) {
    a.DownRecv? || a.DownSend? || a.DownClose? || a.DownSendError? || a.DownFault?
  }

  lemma DownloaderKeepsNumbers(n: nat, s: State, a: Action)
    requires Numbered(n, s) && Enabled(n, s, a) && IsDownloader(a)
    ensures Numbered(n, Do(n, s, a))
  {
    hide Range, DbStage.Items;
  }

  predicate IsParser(a: Action) {
    a.ParseRecv? || a.ParseDisconnected? || a.ParseSend? || a.ParseClose? || a.ParseSendError? || a.ParseFault?
  }

  lemma ParserKeepsNumbers(n: nat, s: State, a: Action)
    requires Numbered(n, s) && Enabled(n, s, a) && IsParser(a)
    ensures Numbered(n, Do(n, s, a))
  {
    hide Range, DbStage.Items;
  }

  lemma DbKeepsNumbers(n: nat, s: State, a: Action)
    requires Numbered(n, s) && Enabled(n, s, a) && !IsFeeder(a) && !IsDownloader(a) && !IsParser(a)
    ensures Numbered(n, Do(n, s, a))
  {
    hide Range, Stage.Items;
    if a.DbProcess? || a.DbAnnounceFault? {
      RangeExtends(|s.processed|, s.db.Items());
    }
  }

  lemma StepKeepsNumbers(n: nat, s: State, a: Action)
    requires Numbered(n, s) && Enabled(n, s, a)
    ensures Numbered(n, Do(n, s, a))
  {
    hide Numbered, Do;
    if IsFeeder(a) {
      FeederKeepsNumbers(n, s, a);
    } else if IsDownloader(a) {
      DownloaderKeepsNumbers(n, s, a);
    } else if IsParser(a) {
      ParserKeepsNumbers(n, s, a);
    } else {
      DbKeepsNumbers(n, s, a);
    }
  }

  lemma {:induction false} AlwaysNumbered(n: nat, s: State, run: seq<Action>)
    requires Numbered(n, s) && Protocol(s) && Legal(n, s, run)
    ensures Numbered(n, After(n, s, run)) && Protocol(After(n, s, run))
    decreases |run|
  {
    hide Numbered, Protocol;
    if run != [] {
      StepKeepsNumbers(n, s, run[0]);
      StepKeepsProtocol(n, s, run[0]);
      AlwaysNumbered(n, Do(n, s, run[0]), run[1..]);
    }
  }

  /** In every interleaving, at every moment: processed ++ in flight ++ unfed == the input. */
  lemma EveryInterleavingConserves(n: nat, run: seq<Action>)
    requires Legal(n, Init(), run)
    ensures var s := After(n, Init(), run);
            && Fed(n, s) <= n
            && s.processed + InFlight(s) + Range(Fed(n, s), n) == Range(0, n)
            && s.processed == Range(0, |s.processed|)
  {
    hide Numbered, Protocol, InFlight;
    InitNumbered(n);
    AlwaysNumbered(n, Init(), run);
    var s := After(n, Init(), run);
    NumberedIsConserved(n, s);
    RangesJoin(Fed(n, s), n);
  }

  lemma RangesJoin(k: nat, n: nat)
    requires k <= n
    ensures Range(0, k) + Range(k, n) == Range(0, n)
  {
  }

  // ---------- Progress and termination ----------

  predicate AllGone(s: State) {
    !s.feeder.Feeding? && s.down.Gone() && s.parse.Gone() && s.db.Gone()
  }

  /** The pipeline never deadlocks: until everything has exited it can move without outside help. */
  lemma Progress(n: nat, s: State) returns (a: Action)
    requires Protocol(s) && !AllGone(s)
    ensures Enabled(n, s, a) && !IsFault(a)
  {
    if s.db.DbHolding? {
      a := DbProcess;
    } else if s.db.DbWaiting? && s.c3.Some? {
      a := DbRecv;
    } else if s.db.DbWaiting? && s.parse.Gone() {
      a := DbDisconnected;
    } else if s.parse.Holding? {
      a := if s.db.Gone() then ParseSendError else ParseSend;
    } else if s.parse.Closing? {
      a := if s.db.Gone() then ParseSendError else ParseClose;
    } else if s.parse.Waiting? && s.c2.Some? {
      a := ParseRecv;
    } else if s.parse.Waiting? && s.down.Gone() {
      a := ParseDisconnected;
    } else if s.down.Holding? {
      a := if s.parse.Gone() then DownSendError else DownSend;
    } else if s.down.Closing? {
      a := if s.parse.Gone() then DownSendError else DownClose;
    } else if s.down.Waiting? && s.c1.Some? {
      a := DownRecv;
    } else if s.down.Gone() {
      a := FeedError;
    } else if s.feeder.next < n {
      a := Feed;
    } else {
      a := FeedEnd;
    }
  }

  lemma Deadlock(n: nat, run: seq<Action>)
    requires Legal(n, Init(), run)
    requires forall a :: Enabled(n, After(n, Init(), run), a) ==> IsFault(a)
    ensures AllGone(After(n, Init(), run))
  {
    InitNumbered(n);
    AlwaysNumbered(n, Init(), run);
    if !AllGone(After(n, Init(), run)) {
      var a := Progress(n, After(n, Init(), run));
    }
  }

  function StageWeight(s: Stage, hold: nat): nat {
    match s
    case Waiting => 4
    case Holding(_) => 4 + hold
    case Closing => 3
    case _ => 0
  }

  function ChanWeight(c: Chan, item: nat): nat {
    match c
    case None => 0
    case Some(Item(_)) => item
    case Some(End) => 1
  }

  /** Every step brings some item or end marker further down the line, or ends a stage. */
  function Weight(n: nat, s: State): nat
    requires Fed(n, s) <= n
  {
    8 * (n - Fed(n, s)) + (if s.feeder.Feeding? then 2 else 0)
    + ChanWeight(s.c1, 7) + StageWeight(s.down, 6) + ChanWeight(s.c2, 5) + StageWeight(s.parse, 4) + ChanWeight(s.c3, 3)
    + (match s.db case DbWaiting => 1 case DbHolding(_) => 3 case _ => 0)
  }

  lemma StepsDescend(n: nat, s: State, a: Action)
    requires Fed(n, s) <= n && Enabled(n, s, a)
    ensures Fed(n, Do(n, s, a)) <= n && Weight(n, Do(n, s, a)) < Weight(n, s)
  {
  }

  /** No interleaving goes on forever. */
  lemma {:induction false} RunsAreFinite(n: nat, s: State, run: seq<Action>)
    requires Fed(n, s) <= n && Legal(n, s, run)
    ensures |run| <= Weight(n, s)
    decreases |run|
  {
    hide Weight;
    if run != [] {
      StepsDescend(n, s, run[0]);
      RunsAreFinite(n, Do(n, s, run[0]), run[1..]);
    }
  }

  lemma RunLength(n: nat, run: seq<Action>)
    requires Legal(n, Init(), run)
    ensures |run| <= 8 * n + 11
  {
    RunsAreFinite(n, Init(), run);
  }

  // ---------- The answer ----------

  datatype Outcome = Ok(height: nat) | TrySyncAgain | CoordinatorClosed | Panic

  /** The heights sync_with_indexer settled on before starting the threads. The headers read
      are those above `start`, at most up to `end`; `start` is at most the height of the stored tip. */
  datatype Plan = Plan(start: nat, end: nat, tip: nat, n: nat) {
    ghost predicate Valid() {
      start <= tip && n <= (if start <= end then end - start else 0)
    }
  }

  /** How the range is settled: the lower of the stored tip and the synced headers is where it
      starts; a target or a maximum number of blocks may lower its end. */
  function Settle(tip: nat, synced: nat, headers: nat, target: Option<nat>, maxBlocks: Option<nat>): (r: (nat, nat)) {
    var start := if tip < synced then tip else synced;
    var end := if target.Some? && start < target.value < headers then target.value else headers;
    (start, if maxBlocks.Some? && start + maxBlocks.value < end then start + maxBlocks.value else end)
  }

  /** The joins at the end, the height check, and only then the feeder's own error. */
  function Answer(p: Plan, s: State): Outcome
    requires AllGone(s)
  {
    match s.db
    case DbPanicked(_) => Panic
    case DbClosed => CoordinatorClosed
    case DbExited =>
      var last := if s.processed == [] then p.tip else p.start + 1 + s.processed[|s.processed| - 1];
      if last < p.end then TrySyncAgain
      else if s.feeder.FeedFailed? then TrySyncAgain
      else Ok(last)
  }

  /** The start is the lower of the two heights, and the end the least of the limits: the headers there
      are, a target above the start, and the maximum number of blocks from there. */
  lemma SettleIsLeast(tip: nat, synced: nat, headers: nat, target: Option<nat>, maxBlocks: Option<nat>)
    ensures var (start, end) := Settle(tip, synced, headers, target, maxBlocks);
            && start <= tip && start <= synced && (start == tip || start == synced)
            && end <= headers && (target.Some? && target.value > start ==> end <= target.value) && (maxBlocks.Some? ==> end <= start + maxBlocks.value)
            && (end == headers || (target.Some? && target.value > start && end == target.value) || (maxBlocks.Some? && end == start + maxBlocks.value))
  {
  }

  ghost predicate EndsIn(p: Plan, run: seq<Action>, s: State) {
    Legal(p.n, Init(), run) && After(p.n, Init(), run) == s && AllGone(s)
  }

  /** The condition that a caller can check beforehand: the stored tip is below the target, or
      the pipeline is too long for a failed stage to go unnoticed by the feeder. */
  predicate Trustworthy(p: Plan) {
    p.tip < p.end || p.n == 0 || p.n >= 4
  }

  /** Under that condition an Ok answer means that every header was processed, whichever stage fails. */
  lemma OkMeansComplete(p: Plan, run: seq<Action>, s: State)
    requires p.Valid() && Trustworthy(p) && EndsIn(p, run, s) && Answer(p, s).Ok?
    ensures s.processed == Range(0, p.n)
  {
    InitNumbered(p.n);
    AlwaysNumbered(p.n, Init(), run);
    if s.processed == [] {
      assert s.parse.Gone() && s.c3.None? && InChan(s.c1) == [];
      assert p.n == |s.parse.Items()| + |InChan(s.c2)| + |s.down.Items()|;
    } else {
      assert s.processed[|s.processed| - 1] == |s.processed| - 1;
    }
  }

  // What the actions of a run tell about its end.

  ghost function Times(run: seq<Action>, a: Action): nat {
    multiset(run)[a]
  }

  lemma {:induction false} ActionsTell(n: nat, s: State, run: seq<Action>)
    requires Legal(n, s, run)
    ensures var s' := After(n, s, run);
            && (s'.db.DbPanicked? <==> s.db.DbPanicked? || DbPanic in run)
            && (s'.db.DbClosed? <==> s.db.DbClosed? || DbAnnounceFault in run)
            && (s'.feeder.FeedFailed? <==> s.feeder.FeedFailed? || FeedError in run)
            && |s'.processed| == |s.processed| + Times(run, DbProcess) + Times(run, DbAnnounceFault)
    decreases |run|
  {
    if run != [] {
      ActionsTell(n, Do(n, s, run[0]), run[1..]);
      assert run == [run[0]] + run[1..];
    }
  }

  /** The answer, from the actions alone. A panic and a closed coordinator are reported as such.
      Otherwise the height reached is that of the last block processed, or of the stored tip if there
      was none, and the answer is Ok with it exactly if that is enough and the feeder did not fail. */
  lemma AnswerExactly(p: Plan, run: seq<Action>, s: State)
    requires EndsIn(p, run, s)
    ensures Answer(p, s).Panic? <==> DbPanic in run
    ensures Answer(p, s).CoordinatorClosed? <==> DbAnnounceFault in run
    ensures var k := Times(run, DbProcess);
            var reached := if k == 0 then p.tip else p.start + k;
            DbPanic !in run && DbAnnounceFault !in run ==>
              Answer(p, s) == if reached >= p.end && FeedError !in run then Ok(reached) else TrySyncAgain
  {
    hide Enabled, Do;
    ActionsTell(p.n, Init(), run);
    InitNumbered(p.n);
    AlwaysNumbered(p.n, Init(), run);
    NumberedIsConserved(p.n, s);
    if s.processed != [] {
      assert s.processed[|s.processed| - 1] == |s.processed| - 1;
    }
    if DbAnnounceFault !in run {
      assert Times(run, DbAnnounceFault) == 0;
    }
  }

  /** Nothing has failed, and the stages exit one after the other. */
  ghost predicate Healthy(s: State) {
    && !s.feeder.FeedFailed? && !s.down.Failed? && !s.parse.Failed? && !s.db.DbClosed? && !s.db.DbPanicked?
    && (s.parse.Closing? || s.parse.Exited? ==> s.down.Exited?) && (s.db.DbExited? ==> s.parse.Exited?)
  }

  lemma {:induction false} StaysHealthy(n: nat, s: State, run: seq<Action>)
    requires Healthy(s) && Protocol(s) && Legal(n, s, run) && forall i :: 0 <= i < |run| ==> !IsFault(run[i])
    ensures Healthy(After(n, s, run))
    decreases |run|
  {
    hide Protocol, Healthy;
    if run != [] {
      StepStaysHealthy(n, s, run[0]);
      StepKeepsProtocol(n, s, run[0]);
      StaysHealthy(n, Do(n, s, run[0]), run[1..]);
    }
  }

  lemma StepStaysHealthy(n: nat, s: State, a: Action)
    requires Healthy(s) && Protocol(s) && Enabled(n, s, a) && !IsFault(a)
    ensures Healthy(Do(n, s, a))
  {
  }

  /** A run without faults processes every header. If there are any, and as many as the range has,
      the answer is Ok with the height at the end of the range. */
  lemma GoodRunsAreOk(p: Plan, run: seq<Action>, s: State)
    requires EndsIn(p, run, s) && forall i :: 0 <= i < |run| ==> !IsFault(run[i])
    ensures s.processed == Range(0, p.n)
    ensures p.n > 0 && p.end == p.start + p.n ==> Answer(p, s) == Ok(p.end)
    ensures p.n == 0 && p.end <= p.tip ==> Answer(p, s) == Ok(p.tip)
  {
    hide Enabled, Do;
    InitNumbered(p.n);
    AlwaysNumbered(p.n, Init(), run);
    StaysHealthy(p.n, Init(), run);
    NumberedIsConserved(p.n, s);
    if p.n > 0 {
      assert s.processed[p.n - 1] == p.n - 1;
    }
  }

  /** An Ok answer below the target always means the whole range up to the target. */
  lemma OkReachesTarget(p: Plan, run: seq<Action>, s: State)
    requires p.Valid() && p.tip < p.end && EndsIn(p, run, s) && Answer(p, s).Ok?
    ensures p.n == p.end - p.start && s.processed == Range(0, p.n) && Answer(p, s).height == p.end
  {
    OkMeansComplete(p, run, s);
  }

  lemma {:induction false} LegalAppend(n: nat, s: State, run: seq<Action>, a: Action)
    requires Legal(n, s, run) && Enabled(n, After(n, s, run), a)
    ensures Legal(n, s, run + [a]) && After(n, s, run + [a]) == Do(n, After(n, s, run), a)
    decreases |run|
  {
    hide Enabled, Do;
    if run == [] {
      assert (run + [a])[1..] == [];
    } else {
      assert (run + [a])[1..] == run[1..] + [a];
      LegalAppend(n, Do(n, s, run[0]), run[1..], a);
    }
  }

  ghost predicate Reaches(n: nat, run: seq<Action>, s: State) {
    Legal(n, Init(), run) && After(n, Init(), run) == s
  }

  lemma Then(n: nat, run: seq<Action>, s: State, a: Action) returns (run': seq<Action>, s': State)
    requires Reaches(n, run, s) && Enabled(n, s, a)
    ensures Reaches(n, run', s') && s' == Do(n, s, a)
  {
    LegalAppend(n, Init(), run, a);
    run', s' := run + [a], Do(n, s, a);
  }

  lemma FirstBlockAtParser(n: nat) returns (run: seq<Action>, s: State)
    requires n >= 1
    ensures Reaches(n, run, s) && s == State(Feeding(1), None, Waiting, None, Holding(0), None, DbWaiting, [])
  {
    hide Reaches;
    NoSteps(n);
    run, s := Then(n, [], Init(), Feed);
    run, s := Then(n, run, s, DownRecv);
    run, s := Then(n, run, s, DownSend);
    run, s := Then(n, run, s, ParseRecv);
  }

  lemma AllHandedOver(n: nat) returns (run: seq<Action>, s: State)
    requires 1 <= n <= 3
    ensures Reaches(n, run, s) && s.feeder.FedAll? && s.parse == Holding(0) && s.c3.None? && s.db.DbWaiting? && s.processed == []
    ensures s.down.Holding? || s.down.Closing?
  {
    hide Reaches;
    run, s := FirstBlockAtParser(n);
    if n == 1 {
      run, s := Then(n, run, s, FeedEnd);
      run, s := Then(n, run, s, DownRecv);
    } else {
      run, s := Then(n, run, s, Feed);
      run, s := Then(n, run, s, DownRecv);
      if n == 3 {
        run, s := Then(n, run, s, DownSend);
        run, s := Then(n, run, s, Feed);
        run, s := Then(n, run, s, DownRecv);
      }
      run, s := Then(n, run, s, FeedEnd);
    }
  }

  /** The parser fails on the first of up to three blocks, after the feeder has already handed
      over everything: nothing is processed and, if the stored tip is at the target, nobody complains. */
  lemma FailureGoesUnnoticed(p: Plan) returns (run: seq<Action>, s: State)
    requires 1 <= p.n <= 3 && p.tip >= p.end
    ensures EndsIn(p, run, s) && Answer(p, s) == Ok(p.tip) && s.processed == []
  {
    hide Reaches, EndsIn;
    run, s := AllHandedOver(p.n);
    run, s := Then(p.n, run, s, ParseFault);
    run, s := Then(p.n, run, s, DownSendError);
    run, s := Then(p.n, run, s, DbDisconnected);
    Ends(p, run, s);
  }

  lemma NoSteps(n: nat)
    ensures Reaches(n, [], Init())
  {
  }

  lemma Ends(p: Plan, run: seq<Action>, s: State)
    requires Reaches(p.n, run, s) && AllGone(s)
    ensures EndsIn(p, run, s)
  {
  }

  /** Exactly when can an Ok answer be trusted? */
  lemma OkMeansCompleteExactly(p: Plan)
    requires p.Valid()
    ensures Trustworthy(p) <==>
      forall run, s :: EndsIn(p, run, s) && Answer(p, s).Ok? ==> s.processed == Range(0, p.n)
  {
    if Trustworthy(p) {
      forall run, s | EndsIn(p, run, s) && Answer(p, s).Ok?
        ensures s.processed == Range(0, p.n)
      {
        OkMeansComplete(p, run, s);
      }
    } else {
      var run, s := FailureGoesUnnoticed(p);
      assert s.processed != Range(0, p.n);
    }
  }

  /** The answer can only mislead when the synced headers are behind the stored tip, as after a reorg. */
  lemma MisleadingOnlyBehindTip(tip: nat, synced: nat, headers: nat, target: Option<nat>, maxBlocks: Option<nat>, n: nat)
    requires var (start, end) := Settle(tip, synced, headers, target, maxBlocks);
             Plan(start, end, tip, n).Valid() && !Trustworthy(Plan(start, end, tip, n))
    ensures synced < tip && Settle(tip, synced, headers, target, maxBlocks).0 == synced
  {
  }
}
