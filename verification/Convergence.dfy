/**
 A chain that settles. Once the client's answers stop changing, the poller reaches the tip within two ticks if and
 only if the fork point is within reach; then its records and the handler's view are the canonical chain.
 */
module Convergence {
  import opened Types
  import opened Environment
  import opened History
  import opened Channels
  import opened LogFetch
  import opened PollerSpec
  import opened Invariant
  import opened Reorg
  import opened Interleaved
  import opened Runs
  import Store

  // ---------------------------------------------------------------- a settled client

  /** From call t0 on the client describes one hash-linked chain that ends at `tip`. */
  ghost predicate Settles(env: Env, t0: nat, canon: uint64 -> Block, tip: uint64) {
    && tip < MAX_UINT64
    && (forall t: nat | t >= t0 :: env.latest(t) == Ok(tip))
    && (forall t: nat, n: uint64 | t >= t0 && n <= tip :: env.block(t, n) == Ok(canon(n)))
    && CanonChain(canon, tip)
  }

  /** The same, but only for the calls from t0 to t1 - 1. */
  ghost predicate Steady(env: Env, t0: nat, t1: int, canon: uint64 -> Block, tip: uint64) {
    && tip < MAX_UINT64
    && (forall t: nat | t0 <= t < t1 :: env.latest(t) == Ok(tip))
    && (forall t: nat, n: uint64 | t0 <= t < t1 && n <= tip :: env.block(t, n) == Ok(canon(n)))
    && CanonChain(canon, tip)
  }

  lemma SettledIsSteady(env: Env, t0: nat, canon: uint64 -> Block, tip: uint64, t: nat, t1: int)
    requires Settles(env, t0, canon, tip) && t >= t0
    ensures Steady(env, t, t1, canon, tip)
  {
  }

  ghost predicate CanonChain(canon: uint64 -> Block, tip: uint64) {
    && (forall n: uint64 | n <= tip :: canon(n).number == n)
    && (forall n: uint64 | 0 < n <= tip :: canon(n).parentHash == canon(n - 1).hash)
  }

  /** From call t0 on no log fetch panics and no log query, decoding or log handler call fails. */
  ghost predicate NoFailures(cfg: Config, env: Env, t0: nat) {
    && (forall t: nat | t >= t0 :: !FetchPanics(env, t, cfg))
    && (forall t: nat, addresses: seq<string>, n: uint64 | t >= t0 :: env.logs(t, addresses, n).Ok?)
    && (forall t: nat, log: Log | t >= t0 :: env.decode(t, log).Ok?)
    && (forall t: nat, b: Block, log: Log, d: Decoded | t >= t0 :: env.acceptsLog(t, b, log, d))
  }

  lemma {:induction false} AskedSucceed(cfg: Config, env: Env, t0: nat, t: nat, batches: seq<seq<string>>, n: uint64)
    requires NoFailures(cfg, env, t0) && t >= t0
    ensures !AnyFailed(Asked(env, t, batches, n))
    decreases |batches|
  {
    if batches != [] {
      AskedSucceed(cfg, env, t0, t + 1, batches[1..], n);
      FailedConcat([env.logs(t, batches[0], n)], Asked(env, t + 1, batches[1..], n));
    }
  }

  lemma FetchSucceeds(env: Env, t0: nat, t: nat, cfg: Config, n: uint64)
    requires NoFailures(cfg, env, t0) && t >= t0
    ensures FetchLogs(env, t, cfg, n).Ok?
  {
    var batches := BatchesFor(env, t, cfg);
    AskedSucceed(cfg, env, t0, t, batches, n);
    ScheduleIrrelevant(Asked(env, t, batches, n), env.pick, t);
  }

  lemma {:induction false} OffersSucceed(cfg: Config, env: Env, t0: nat, w: World, b: Block, logs: seq<Log>)
    requires NoFailures(cfg, env, t0) && w.clock >= t0
    ensures OfferLogs(env, w, b, logs).ok && OfferLogs(env, w, b, logs).world.clock >= t0
    decreases |logs|
  {
    if logs != [] {
      var d := env.decode(w.clock, logs[0]).value;
      OffersSucceed(cfg, env, t0, Note(Tock(Tock(w)), LogOffered(b, logs[0], d, true, w.clock + 2)), b, logs[1..]);
    }
  }

  lemma ProcessSucceeds(cfg: Config, env: Env, t0: nat, w: World, b: Block)
    requires NoFailures(cfg, env, t0) && w.clock >= t0
    ensures ProcessBlock(cfg, env, w, b).reply.Ok? && ProcessBlock(cfg, env, w, b).world.clock >= t0
  {
    FetchSucceeds(env, t0, w.clock, cfg, b.number);
    var w1 := w.(clock := FetchEnd(env, w.clock, cfg));
    OffersSucceed(cfg, env, t0, w1, b.(chainId := cfg.chainId), FetchLogs(env, w.clock, cfg, b.number).value);
  }

  // ---------------------------------------------------------------- walking to the tip

  /** c is `start` followed by the canonical records up to `tip`. */
  ghost predicate Extends(c: seq<Record>, start: seq<Record>, id: ChainId, canon: uint64 -> Block, tip: uint64) {
    && start != [] && start <= c
    && Last(c).number == tip
    && forall i :: |start| <= i < |c| ==> c[i] == RecordFor(id, canon(c[i].number))
  }

  /** One canonical block: it links, it is processed, it is committed. */
  lemma WalkOne(cfg: Config, env: Env, t0: nat, canon: uint64 -> Block, w: World, last: Record, n: uint64, tip: uint64)
    returns (next: World)
    requires Healthy(cfg, env, w) && Honest(env, cfg.chainId) && w.clock >= t0
    requires Settles(env, t0, canon, tip) && NoFailures(cfg, env, t0)
    requires last == Last(Chain(w.history)) && n == last.number + 1 <= tip
    requires canon(n).parentHash == last.hash
    ensures Healthy(cfg, env, next) && next.clock >= t0
    ensures Chain(next.history) == Chain(w.history) + [RecordFor(cfg.chainId, canon(n))]
    ensures Forward(cfg, env, w, last, n, tip) == Forward(cfg, env, next, RecordFor(cfg.chainId, canon(n)), n + 1, tip)
  {
    hide Healthy, ProcessBlock, NoFailures, CommitTo;
    var b := canon(n);
    HealthyChain(cfg, env, w);
    assert env.block(w.clock, n) == Ok(b);
    assert b.hash != "";
    TimePasses(cfg, env, w, w.clock + 2);
    ProcessKeeps(cfg, env, Tock(Tock(w)), b);
    ProcessSucceeds(cfg, env, t0, Note(Tock(Tock(w)), Delivered(b, w.clock + 2)), b);
    next := ProcessBlock(cfg, env, Note(Tock(Tock(w)), Delivered(b, w.clock + 2)), b).world;
  }

  lemma ExtendsStep(c: seq<Record>, start: seq<Record>, r: Record, id: ChainId, canon: uint64 -> Block, tip: uint64)
    requires start != [] && r == RecordFor(id, canon(r.number))
    requires Extends(c, start + [r], id, canon, tip)
    ensures Extends(c, start, id, canon, tip)
  {
    assert c[|start|] == (start + [r])[|start|];
    assert start <= start + [r];
  }

  lemma {:induction false} WalkToTip(
    cfg: Config, env: Env, t0: nat, canon: uint64 -> Block, w: World, last: Record, n: uint64, tip: uint64)
    requires Healthy(cfg, env, w) && Honest(env, cfg.chainId) && w.clock >= t0
    requires Settles(env, t0, canon, tip) && NoFailures(cfg, env, t0)
    requires last == Last(Chain(w.history)) && n == last.number + 1 <= tip + 1
    requires n <= tip ==> canon(n).parentHash == last.hash
    ensures var f := Forward(cfg, env, w, last, n, tip);
            && f.end.CaughtUp?
            && Healthy(cfg, env, f.world)
            && f.world.clock >= t0
            && Extends(Chain(f.world.history), Chain(w.history), cfg.chainId, canon, tip)
    decreases tip + 1 - n
  {
    if n <= tip {
      var next := WalkOne(cfg, env, t0, canon, w, last, n, tip);
      var r := RecordFor(cfg.chainId, canon(n));
      WalkToTip(cfg, env, t0, canon, next, r, n + 1, tip);
      ExtendsStep(Chain(Forward(cfg, env, w, last, n, tip).world.history), Chain(w.history), r, cfg.chainId, canon, tip);
    }
  }

  /** A cursor that the canonical chain builds on reaches the tip in one tick. */
  lemma LinkedTick(cfg: Config, env: Env, t0: nat, canon: uint64 -> Block, w: World, tip: uint64)
    requires Healthy(cfg, env, w) && Honest(env, cfg.chainId) && w.clock >= t0
    requires Settles(env, t0, canon, tip) && NoFailures(cfg, env, t0)
    requires Last(Chain(w.history)).number < tip
    requires canon(Last(Chain(w.history)).number + 1).parentHash == Last(Chain(w.history)).hash
    ensures var f := Tick(cfg, env, w);
            && Healthy(cfg, env, f.world)
            && f.world.clock >= t0
            && Extends(Chain(f.world.history), Chain(w.history), cfg.chainId, canon, tip)
  {
    hide Healthy, Forward, NoFailures;
    CursorResolves(cfg, env, w);
    TimePasses(cfg, env, w, w.clock + 1);
    var last := Last(Chain(w.history));
    WalkToTip(cfg, env, t0, canon, Tock(w), last, last.number + 1, tip);
  }

  // ---------------------------------------------------------------- canonical chains

  /** A hash of the committed chain that is canonical belongs to the canonical block: hashes do not collide. */
  ghost predicate HashIdentifies(c: seq<Record>, id: ChainId, canon: uint64 -> Block) {
    forall i :: 0 <= i < |c| ==> c[i].hash == canon(c[i].number).hash ==> c[i] == RecordFor(id, canon(c[i].number))
  }

  ghost predicate Canonical(c: seq<Record>, id: ChainId, canon: uint64 -> Block) {
    forall i :: 0 <= i < |c| ==> c[i] == RecordFor(id, canon(c[i].number))
  }

  /** A hash of the committed chain that is canonical comes with the canonical parent hash. */
  ghost predicate PinsParents(c: seq<Record>, canon: uint64 -> Block) {
    forall i :: 0 <= i < |c| ==>
      c[i].hash == canon(c[i].number).hash ==> c[i].parentHash == canon(c[i].number).parentHash
  }

  ghost predicate HashesAgree(c: seq<Record>, canon: uint64 -> Block) {
    forall i :: 0 <= i < |c| ==> c[i].hash == canon(c[i].number).hash
  }

  /** A hash-linked chain whose last hash is canonical has canonical hashes all the way down. */
  lemma {:induction false} AgreesDown(c: seq<Record>, id: ChainId, canon: uint64 -> Block, tip: uint64)
    requires Linked(c, id) && c != [] && Last(c).number <= tip && CanonChain(canon, tip)
    requires PinsParents(c, canon) && Last(c).hash == canon(Last(c).number).hash
    ensures HashesAgree(c, canon)
    decreases |c|
  {
    var init := c[..|c| - 1];
    if init != [] {
      assert Last(c).parentHash == Last(init).hash;
      AgreesDown(init, id, canon, tip);
    }
  }

  lemma CanonicalDown(c: seq<Record>, id: ChainId, canon: uint64 -> Block, tip: uint64)
    requires Linked(c, id) && c != [] && Last(c).number <= tip && CanonChain(canon, tip)
    requires HashIdentifies(c, id, canon) && Last(c).hash == canon(Last(c).number).hash
    ensures Canonical(c, id, canon)
  {
    AgreesDown(c, id, canon, tip);
  }

  // ---------------------------------------------------------------- finding the fork point

  /** A number from which the poller can go on: stored and canonical, or lost right below everything stored. */
  ghost predicate ForkPoint(cfg: Config, w: World, k: uint64, canon: uint64 -> Block, f: uint64) {
    && 1 <= f <= k
    && k + 1 - f <= AsUint64(cfg.maxReorgDepth)
    && if Store.Has(w.store, cfg.chainId, f) then Store.At(w.store, cfg.chainId, f).hash == canon(f).hash
       else canon(f).chainId == cfg.chainId && forall n: uint64 | f < n <= k :: Store.Has(w.store, cfg.chainId, n)
  }

  ghost predicate Recoverable(cfg: Config, w: World, k: uint64, canon: uint64 -> Block) {
    exists f :: ForkPoint(cfg, w, k, canon, f)
  }

  /** The search of a settled chain, from a world whose cursor is k. */
  lemma SettledSearch(cfg: Config, env: Env, canon: uint64 -> Block, w: World, k: uint64, tip: uint64, s: Search)
    requires Steady(env, w.clock, w.clock + k + 1, canon, tip) && k < tip && !w.store.closed
    requires Shape(cfg, env, w, k + 1, k, [], s)
    ensures !s.end.Failed?
    ensures forall n: uint64 | s.stop < n <= k ::
              Store.Has(w.store, cfg.chainId, n) && Store.At(w.store, cfg.chainId, n).hash != canon(n).hash
    ensures s.end.Matched? ==> s.reply == Ok(()) && Store.Has(w.store, cfg.chainId, s.stop) && s.stop >= 1
                               && Store.At(w.store, cfg.chainId, s.stop).hash == canon(s.stop).hash
    ensures s.end.Repaired? ==> !Store.Has(w.store, cfg.chainId, s.stop) && s.stop >= 1
                                && s.end.record == RecordFor(canon(s.stop).chainId, canon(s.stop))
    ensures s.end.Exhausted? <==> !(k + 1 - s.stop <= AsUint64(cfg.maxReorgDepth) && s.stop > 0)
  {
    DepthIsPlain(cfg, k + 1, s.stop);
    forall n: uint64 | n <= k ensures env.block(w.clock + k - n, n) == Ok(canon(n)) {
    }
    forall n: uint64 | s.stop < n <= k
      ensures Store.Has(w.store, cfg.chainId, n) && Store.At(w.store, cfg.chainId, n).hash != canon(n).hash
    {
      assert AskedAt(w, k, n) == w.clock + k - n;
    }
  }

  lemma ForkPointStops(
    cfg: Config, env: Env, canon: uint64 -> Block, w: World, k: uint64, tip: uint64, s: Search, f: uint64)
    requires Healthy(cfg, env, w) && k == Last(Chain(w.history)).number
    requires Steady(env, w.clock, w.clock + k + 1, canon, tip) && k < tip
    requires Shape(cfg, env, w, k + 1, k, [], s)
    requires ForkPoint(cfg, w, k, canon, f)
    ensures Ancestor(cfg, env, w, k + 1, s.stop)
    ensures Store.Has(w.store, cfg.chainId, f) ==> s.end.Matched?
  {
    hide HistoryOk, HoldsChain, Agrees;
    SettledSearch(cfg, env, canon, w, k, tip, s);
    assert f <= s.stop;
    assert env.block(w.clock + k - s.stop, s.stop) == Ok(canon(s.stop));
    assert Store.Has(w.store, cfg.chainId, f) ==> Store.Has(w.store, cfg.chainId, s.stop);
  }

  /** The search ends on a usable ancestor exactly when there is a fork point within reach. */
  lemma RecoverableIff(cfg: Config, env: Env, canon: uint64 -> Block, w: World, k: uint64, tip: uint64, s: Search)
    requires Healthy(cfg, env, w) && k == Last(Chain(w.history)).number
    requires Steady(env, w.clock, w.clock + k + 1, canon, tip) && k < tip
    requires Shape(cfg, env, w, k + 1, k, [], s)
    ensures Recoverable(cfg, w, k, canon) <==> Ancestor(cfg, env, w, k + 1, s.stop)
  {
    SettledSearch(cfg, env, canon, w, k, tip, s);
    assert env.block(w.clock + k - s.stop, s.stop) == Ok(canon(s.stop));
    if Ancestor(cfg, env, w, k + 1, s.stop) {
      DepthIsPlain(cfg, k + 1, s.stop);
      assert ForkPoint(cfg, w, k, canon, s.stop);
    }
    if Recoverable(cfg, w, k, canon) {
      var f: uint64 :| ForkPoint(cfg, w, k, canon, f);
      ForkPointStops(cfg, env, canon, w, k, tip, s, f);
    }
  }

  /**
   Stopping at the first match is sound and complete: with a stored fork point within depth, the search returns
   exactly the stored records above block 0 that disagree with the canonical chain, highest first.
   */
  lemma SearchIsExact(cfg: Config, env: Env, canon: uint64 -> Block, w: World, tip: uint64, f: uint64)
    requires Healthy(cfg, env, w) && Last(Chain(w.history)).number < tip
    requires Steady(env, w.clock, w.clock + Last(Chain(w.history)).number + 1, canon, tip)
    requires PinsParents(Chain(w.history), canon)
    requires ForkPoint(cfg, w, Last(Chain(w.history)).number, canon, f) && Store.Has(w.store, cfg.chainId, f)
    ensures var k := Last(Chain(w.history)).number;
            var s := FindOrphans(cfg, env, w, k + 1);
            && s.reply == Ok(())
            && Descending(s.orphans, cfg.chainId, k, s.stop)
            && (forall r :: r in s.orphans <==>
                  exists n: uint64 :: n >= 1 && Store.Has(w.store, cfg.chainId, n)
                                      && r == Store.At(w.store, cfg.chainId, n) && r.hash != canon(n).hash)
  {
    hide Healthy, Shape, ForkPoint, PinsParents, Descending, CanonChain;
    HealthyChain(cfg, env, w);
    var k := Last(Chain(w.history)).number;
    var s := FindOrphans(cfg, env, w, k + 1);
    SearchShape(cfg, env, w, k + 1, k, []);
    SettledSearch(cfg, env, canon, w, k, tip, s);
    OrphanList(cfg, env, w, k + 1, k, s);
    assert CanonChain(canon, tip);
    ForkPointStops(cfg, env, canon, w, k, tip, s, f);
    BelowMatchAgrees(cfg, env, canon, w, tip, s.stop);
    OrphanMembers(w.store, cfg.chainId, k, s.stop);
    OrphansDisagree(cfg, canon, w.store, k, s.stop);
  }

  /** Below a stored record that is canonical, everything stored is. */
  lemma BelowMatchAgrees(cfg: Config, env: Env, canon: uint64 -> Block, w: World, tip: uint64, q: uint64)
    requires Healthy(cfg, env, w) && CanonChain(canon, tip) && Last(Chain(w.history)).number <= tip
    requires PinsParents(Chain(w.history), canon)
    requires q >= 1 && Store.Has(w.store, cfg.chainId, q) && Store.At(w.store, cfg.chainId, q).hash == canon(q).hash
    ensures forall n: uint64 | 1 <= n <= q && Store.Has(w.store, cfg.chainId, n) ::
              Store.At(w.store, cfg.chainId, n).hash == canon(n).hash
    ensures forall n: uint64 | n >= 1 && Store.Has(w.store, cfg.chainId, n) :: n <= Last(Chain(w.history)).number
  {
    var c := Chain(w.history);
    StoreHasInRange(cfg, env, w, q);
    AgreesDown(Prefix(c, q), cfg.chainId, canon, tip);
    forall n: uint64 | 1 <= n <= q && Store.Has(w.store, cfg.chainId, n)
      ensures Store.At(w.store, cfg.chainId, n).hash == canon(n).hash
    {
      assert Prefix(c, q)[n - c[0].number] == c[n - c[0].number];
    }
  }

  /** The numbers above the stop are the numbers that disagree. */
  lemma OrphansDisagree(cfg: Config, canon: uint64 -> Block, st: Store.State, k: uint64, stop: uint64)
    requires stop <= k
    requires forall n: uint64 | stop < n <= k ::
               Store.Has(st, cfg.chainId, n) && Store.At(st, cfg.chainId, n).hash != canon(n).hash
    requires forall n: uint64 | 1 <= n <= stop && Store.Has(st, cfg.chainId, n) ::
               Store.At(st, cfg.chainId, n).hash == canon(n).hash
    requires forall n: uint64 | n >= 1 && Store.Has(st, cfg.chainId, n) :: n <= k
    ensures forall r: Record ::
              (exists n: uint64 :: stop < n <= k && r == Store.At(st, cfg.chainId, n)) <==>
              (exists n: uint64 :: n >= 1 && Store.Has(st, cfg.chainId, n)
                                   && r == Store.At(st, cfg.chainId, n) && r.hash != canon(n).hash)
  {
    forall r: Record, n: uint64 | n >= 1 && Store.Has(st, cfg.chainId, n)
                                  && r == Store.At(st, cfg.chainId, n) && r.hash != canon(n).hash
      ensures stop < n <= k
    {
    }
  }

  lemma {:induction false} OrphanMembers(s: Store.State, id: ChainId, hi: uint64, lo: uint64)
    requires lo <= hi && forall n: uint64 | lo < n <= hi :: Store.Has(s, id, n)
    ensures forall r :: r in Down(s, id, hi, lo) <==> exists n: uint64 :: lo < n <= hi && r == Store.At(s, id, n)
    decreases hi
  {
    if hi > lo {
      OrphanMembers(s, id, hi - 1, lo);
    }
  }

  // ---------------------------------------------------------------- one tick that meets a reorg

  lemma {:induction false} RetractClock(w: World, os: seq<Record>)
    ensures w.clock <= RetractAll(w, os).world.clock
    decreases |os|
  {
    if os != [] && !w.store.closed {
      RetractClock(Note(Tock(w), Retracted(os[0].number)).(store := Store.Deleted(w.store, os[0].chainId, os[0].number)), os[1..]);
    }
  }

  lemma ReconcileClock(cfg: Config, env: Env, w: World, start: uint64)
    requires start >= 1 && !w.store.closed
    ensures w.clock <= Reconcile(cfg, env, w, start).world.clock
  {
    SearchIsBounded(cfg, env, w, start);
    var s := FindOrphans(cfg, env, w, start);
    RetractClock(s.world, s.orphans);
  }

  /** The world a tick hands to the reorg search: the tip and one block have been asked for. */
  function AtReorg(w: World): World {
    Tock(Tock(w))
  }

  lemma ReorgTick(cfg: Config, env: Env, canon: uint64 -> Block, w: World, k: uint64, tip: uint64)
    requires Healthy(cfg, env, w) && k == Last(Chain(w.history)).number < tip
    requires Steady(env, w.clock, w.clock + k + 3, canon, tip)
    requires canon(k + 1).parentHash != Last(Chain(w.history)).hash
    ensures var r := Reconcile(cfg, env, AtReorg(w), k + 1);
            Tick(cfg, env, w) == Ticked(r.world, Reorged(AtReorg(w), k + 1, r.reply))
    ensures Tick(cfg, env, w).world.clock >= w.clock
    ensures Healthy(cfg, env, AtReorg(w))
    ensures Steady(env, AtReorg(w).clock, AtReorg(w).clock + k + 1, canon, tip)
  {
    hide Healthy, Reconcile;
    HealthyChain(cfg, env, w);
    CursorResolves(cfg, env, w);
    TimePasses(cfg, env, w, w.clock + 2);
    assert env.latest(w.clock) == Ok(tip) && env.block(w.clock + 1, k + 1) == Ok(canon(k + 1));
    ReconcileClock(cfg, env, AtReorg(w), k + 1);
  }

  /** If the canonical chain does not build on the cursor, the cursor's record is the first orphan. */
  lemma MismatchFindsCursor(cfg: Config, env: Env, canon: uint64 -> Block, w: World, k: uint64, tip: uint64, s: Search)
    requires Healthy(cfg, env, w) && Steady(env, w.clock, w.clock + k + 1, canon, tip)
    requires 1 <= k == Last(Chain(w.history)).number < tip && AsUint64(cfg.maxReorgDepth) >= 1
    requires canon(k + 1).parentHash != Last(Chain(w.history)).hash
    requires Shape(cfg, env, w, k + 1, k, [], s)
    ensures s.stop < k && s.reply == Ok(()) && !s.world.store.closed
    ensures s.orphans != [] && s.orphans[0] == Last(Chain(w.history))
  {
    CursorResolves(cfg, env, w);
    SettledSearch(cfg, env, canon, w, k, tip, s);
    assert canon(k).hash == canon(k + 1).parentHash;
  }

  /**
   Detecting a reorg implies finding one: on a hash-linked chain that does not change during the tick, with a cursor
   above block 0 and a depth of at least one, the orphan list is not empty and begins with the cursor's record,
   so the tick never ends with "no orphaned blocks found".
   */
  lemma DetectionFindsOrphans(cfg: Config, env: Env, canon: uint64 -> Block, w: World, tip: uint64)
    requires Healthy(cfg, env, w)
    requires Steady(env, w.clock, w.clock + Last(Chain(w.history)).number + 3, canon, tip)
    requires 1 <= Last(Chain(w.history)).number < tip && AsUint64(cfg.maxReorgDepth) >= 1
    requires canon(Last(Chain(w.history)).number + 1).parentHash != Last(Chain(w.history)).hash
    ensures var k := Last(Chain(w.history)).number;
            var s := FindOrphans(cfg, env, AtReorg(w), k + 1);
            && Tick(cfg, env, w).end == Reorged(AtReorg(w), k + 1, Ok(()))
            && s.reply == Ok(())
            && s.orphans != [] && s.orphans[0] == Last(Chain(w.history))
  {
    hide Healthy, Tick, Down, EndShape;
    HealthyChain(cfg, env, w);
    var k := Last(Chain(w.history)).number;
    ReorgTick(cfg, env, canon, w, k, tip);
    var wr := AtReorg(w);
    SearchShape(cfg, env, wr, k + 1, k, []);
    var s := FindOrphans(cfg, env, wr, k + 1);
    MismatchFindsCursor(cfg, env, canon, wr, k, tip, s);
    OrphanList(cfg, env, wr, k + 1, k, s);
    RetractAllStore(s.world, s.orphans, cfg.chainId, k, s.stop);
  }

  /** A chain cut back, or started over, at the canonical number f. */
  ghost predicate CutBack(id: ChainId, c: seq<Record>, c': seq<Record>, canon: uint64 -> Block, f: uint64) {
    && c' != []
    && Last(c').number == f
    && Last(c').hash == canon(f).hash
    && (c' <= c || c' == [RecordFor(id, canon(f))])
  }

  lemma RecoveringReorg(
    cfg: Config, env: Env, canon: uint64 -> Block, w: World, k: uint64, tip: uint64, s: Search, g: uint64)
    requires Healthy(cfg, env, w) && Honest(env, cfg.chainId) && Steady(env, w.clock, w.clock + k + 1, canon, tip)
    requires 1 <= k == Last(Chain(w.history)).number < tip && AsUint64(cfg.maxReorgDepth) >= 1
    requires canon(k + 1).parentHash != Last(Chain(w.history)).hash
    requires Shape(cfg, env, w, k + 1, k, [], s)
    requires ForkPoint(cfg, w, k, canon, g)
    ensures s.stop < tip
    ensures Healthy(cfg, env, Finish(s).world)
    ensures CutBack(cfg.chainId, Chain(w.history), Chain(Finish(s).world.history), canon, s.stop)
  {
    hide HistoryOk, HoldsChain, StoreOk;
    MismatchFindsCursor(cfg, env, canon, w, k, tip, s);
    ForkPointStops(cfg, env, canon, w, k, tip, s, g);
    OrphansDecide(cfg, env, w, k + 1, k, s);
    SettledSearch(cfg, env, canon, w, k, tip, s);
    assert env.block(w.clock + k - s.stop, s.stop) == Ok(canon(s.stop));
    if Store.Has(w.store, cfg.chainId, s.stop) {
      StoreHasInRange(cfg, env, w, s.stop);
    }
  }

  /** A tick that finds a fork point cuts back to it; the next canonical block links to what is left. */
  lemma RecoveringTick(cfg: Config, env: Env, t0: nat, canon: uint64 -> Block, w: World, k: uint64, tip: uint64)
    returns (f: uint64)
    requires Healthy(cfg, env, w) && Honest(env, cfg.chainId) && w.clock >= t0
    requires Settles(env, t0, canon, tip) && k == Last(Chain(w.history)).number < tip
    requires canon(k + 1).parentHash != Last(Chain(w.history)).hash
    requires Recoverable(cfg, w, k, canon)
    ensures f < tip
    ensures Healthy(cfg, env, Tick(cfg, env, w).world) && Tick(cfg, env, w).world.clock >= t0
    ensures CutBack(cfg.chainId, Chain(w.history), Chain(Tick(cfg, env, w).world.history), canon, f)
  {
    hide Healthy, Shape;
    SettledIsSteady(env, t0, canon, tip, w.clock, w.clock + k + 3);
    ReorgTick(cfg, env, canon, w, k, tip);
    var wr := AtReorg(w);
    SearchShape(cfg, env, wr, k + 1, k, []);
    var s := FindOrphans(cfg, env, wr, k + 1);
    var g: uint64 :| ForkPoint(cfg, w, k, canon, g);
    assert ForkPoint(cfg, wr, k, canon, g);
    RecoveringReorg(cfg, env, canon, wr, k, tip, s, g);
    f := s.stop;
  }

  lemma HopelessReorg(cfg: Config, env: Env, canon: uint64 -> Block, w: World, k: uint64, tip: uint64, s: Search)
    requires Healthy(cfg, env, w) && Honest(env, cfg.chainId) && Steady(env, w.clock, w.clock + k + 1, canon, tip)
    requires k == Last(Chain(w.history)).number < tip && !Recoverable(cfg, w, k, canon)
    requires Shape(cfg, env, w, k + 1, k, [], s)
    ensures Stranded(cfg, env, Finish(s).world) || (Healthy(cfg, env, Finish(s).world) && Finish(s).world.store == w.store)
  {
    hide Healthy, Stranded, Shape, Recoverable, Ancestor;
    RecoverableIff(cfg, env, canon, w, k, tip, s);
    if s.reply.Err? || s.orphans == [] {
      NothingToRetract(cfg, env, w, k + 1, k, s);
    } else {
      OrphansDecide(cfg, env, w, k + 1, k, s);
    }
  }

  /** A tick that finds no fork point strands the poller or leaves the store exactly as it was. */
  lemma HopelessTick(cfg: Config, env: Env, t0: nat, canon: uint64 -> Block, w: World, k: uint64, tip: uint64)
    requires Healthy(cfg, env, w) && Honest(env, cfg.chainId) && w.clock >= t0
    requires Settles(env, t0, canon, tip) && k == Last(Chain(w.history)).number < tip
    requires canon(k + 1).parentHash != Last(Chain(w.history)).hash
    requires !Recoverable(cfg, w, k, canon)
    ensures var w' := Tick(cfg, env, w).world;
            && w'.clock >= t0
            && (Stranded(cfg, env, w') || (Healthy(cfg, env, w') && w'.store == w.store))
  {
    hide Healthy, Stranded, Shape;
    SettledIsSteady(env, t0, canon, tip, w.clock, w.clock + k + 3);
    ReorgTick(cfg, env, canon, w, k, tip);
    var wr := AtReorg(w);
    SearchShape(cfg, env, wr, k + 1, k, []);
    assert forall f: uint64 :: ForkPoint(cfg, wr, k, canon, f) ==> ForkPoint(cfg, w, k, canon, f);
    HopelessReorg(cfg, env, canon, wr, k, tip, FindOrphans(cfg, env, wr, k + 1));
  }

  // ---------------------------------------------------------------- convergence

  /** The poller can get from w to the canonical tip. */
  ghost predicate WithinReach(cfg: Config, w: World, k: uint64, last: Record, canon: uint64 -> Block)
    requires k < MAX_UINT64
  {
    canon(k + 1).parentHash == last.hash || Recoverable(cfg, w, k, canon)
  }

  /** At the tip there is nothing to do. */
  lemma {:induction false} StaysAtTip(cfg: Config, env: Env, t0: nat, canon: uint64 -> Block, w: World, tip: uint64, m: nat)
    requires Healthy(cfg, env, w) && w.clock >= t0
    requires Settles(env, t0, canon, tip) && Last(Chain(w.history)).number == tip
    ensures var w' := Ticks(cfg, env, w, m);
            Healthy(cfg, env, w') && w'.store == w.store && w'.history == w.history
    decreases m
  {
    hide Healthy;
    if m > 0 {
      CursorResolves(cfg, env, w);
      TimePasses(cfg, env, w, w.clock + 1);
      assert Tick(cfg, env, w).world == Tock(w);
      StaysAtTip(cfg, env, t0, canon, Tock(w), tip, m - 1);
    }
  }

  /** A chain that ends canonically and is extended canonically is canonical throughout. */
  lemma ExtendsCanonical(c: seq<Record>, start: seq<Record>, id: ChainId, canon: uint64 -> Block, tip: uint64)
    requires Extends(c, start, id, canon, tip) && Canonical(start, id, canon)
    ensures Canonical(c, id, canon)
  {
    forall i | 0 <= i < |c| ensures c[i] == RecordFor(id, canon(c[i].number)) {
      if i < |start| {
        assert c[i] == start[i];
      }
    }
  }

  /** Cutting back keeps what is left canonical. */
  lemma CutBackCanonical(id: ChainId, c: seq<Record>, c': seq<Record>, canon: uint64 -> Block, f: uint64, tip: uint64)
    requires CutBack(id, c, c', canon, f) && f <= tip && CanonChain(canon, tip)
    requires Linked(c', id) && HashIdentifies(c, id, canon)
    ensures Canonical(c', id, canon)
  {
    if c' <= c {
      assert HashIdentifies(c', id, canon);
      CanonicalDown(c', id, canon, tip);
    }
  }

  /** What it means to have caught up with the canonical chain. */
  ghost predicate CaughtUpWith(cfg: Config, env: Env, w: World, canon: uint64 -> Block, tip: uint64) {
    && Healthy(cfg, env, w)
    && Last(Chain(w.history)).number == tip
    && Canonical(Chain(w.history), cfg.chainId, canon)
  }

  /** One tick of a linked, canonical cursor catches up. */
  lemma LinkedCatchesUp(cfg: Config, env: Env, t0: nat, canon: uint64 -> Block, w: World, tip: uint64)
    requires Healthy(cfg, env, w) && Honest(env, cfg.chainId) && w.clock >= t0
    requires Settles(env, t0, canon, tip) && NoFailures(cfg, env, t0)
    requires Last(Chain(w.history)).number < tip && Canonical(Chain(w.history), cfg.chainId, canon)
    ensures CaughtUpWith(cfg, env, Tick(cfg, env, w).world, canon, tip) && Tick(cfg, env, w).world.clock >= t0
  {
    var c := Chain(w.history);
    var k := Last(c).number;
    assert Last(c) == RecordFor(cfg.chainId, canon(k));
    assert canon(k + 1).parentHash == canon(k).hash;
    LinkedTick(cfg, env, t0, canon, w, tip);
    ExtendsCanonical(Chain(Tick(cfg, env, w).world.history), c, cfg.chainId, canon, tip);
  }

  /** Within reach: two ticks catch up, and later ones change nothing. */
  lemma TwoTicksSuffice(cfg: Config, env: Env, t0: nat, canon: uint64 -> Block, w: World, tip: uint64, m: nat)
    requires Healthy(cfg, env, w) && Honest(env, cfg.chainId) && w.clock >= t0
    requires Settles(env, t0, canon, tip) && NoFailures(cfg, env, t0)
    requires Last(Chain(w.history)).number < tip && HashIdentifies(Chain(w.history), cfg.chainId, canon)
    requires WithinReach(cfg, w, Last(Chain(w.history)).number, Last(Chain(w.history)), canon)
    requires m >= 2
    ensures CaughtUpWith(cfg, env, Ticks(cfg, env, w, m), canon, tip)
  {
    hide Healthy, Tick, Recoverable, NoFailures, Canonical, HashIdentifies, CutBack, Linked;
    HealthyChain(cfg, env, w);
    var c := Chain(w.history);
    var k := Last(c).number;
    var w1 := Tick(cfg, env, w).world;
    if canon(k + 1).parentHash == Last(c).hash {
      CanonicalDown(c, cfg.chainId, canon, tip);
      CatchesUpForGood(cfg, env, t0, canon, w, tip, m - 1);
    } else {
      var f := RecoveringTick(cfg, env, t0, canon, w, k, tip);
      HealthyChain(cfg, env, w1);
      CutBackCanonical(cfg.chainId, c, Chain(w1.history), canon, f, tip);
      CutBackEnds(cfg.chainId, c, Chain(w1.history), canon, f);
      CatchesUpForGood(cfg, env, t0, canon, w1, tip, m - 2);
    }
  }

  lemma CutBackEnds(id: ChainId, c: seq<Record>, c': seq<Record>, canon: uint64 -> Block, f: uint64)
    requires CutBack(id, c, c', canon, f)
    ensures c' != [] && Last(c').number == f
  {
  }

  /** A canonical cursor below the tip is at the tip after one tick, and stays there. */
  lemma CatchesUpForGood(cfg: Config, env: Env, t0: nat, canon: uint64 -> Block, w: World, tip: uint64, m: nat)
    requires Healthy(cfg, env, w) && Honest(env, cfg.chainId) && w.clock >= t0
    requires Settles(env, t0, canon, tip) && NoFailures(cfg, env, t0)
    requires Last(Chain(w.history)).number < tip && Canonical(Chain(w.history), cfg.chainId, canon)
    ensures CaughtUpWith(cfg, env, Ticks(cfg, env, w, m + 1), canon, tip)
  {
    hide Healthy, Tick, NoFailures, Canonical, Settles;
    LinkedCatchesUp(cfg, env, t0, canon, w, tip);
    StaysAtTip(cfg, env, t0, canon, Tick(cfg, env, w).world, tip, m);
  }

  /** Reach depends on the store alone. */
  lemma SameStoreSameReach(cfg: Config, env: Env, canon: uint64 -> Block, w: World, w': World, tip: uint64)
    requires Healthy(cfg, env, w) && Healthy(cfg, env, w') && w'.store == w.store
    requires Last(Chain(w.history)).number < tip
    ensures var last := Last(Chain(w.history));
            && Last(Chain(w'.history)) == last
            && (WithinReach(cfg, w', last.number, last, canon) <==> WithinReach(cfg, w, last.number, last, canon))
  {
    CursorResolves(cfg, env, w);
    CursorResolves(cfg, env, w');
    var k := Last(Chain(w.history)).number;
    forall f: uint64 ensures ForkPoint(cfg, w', k, canon, f) <==> ForkPoint(cfg, w, k, canon, f) {
    }
  }

  /** Healthy, below the tip and out of reach. */
  ghost predicate Behind(cfg: Config, env: Env, w: World, canon: uint64 -> Block, tip: uint64) {
    && Healthy(cfg, env, w)
    && Last(Chain(w.history)).number < tip
    && !WithinReach(cfg, w, Last(Chain(w.history)).number, Last(Chain(w.history)), canon)
  }

  /** Stranded, or behind for good. */
  ghost predicate Left(cfg: Config, env: Env, w: World, canon: uint64 -> Block, tip: uint64) {
    Stranded(cfg, env, w) || Behind(cfg, env, w, canon, tip)
  }

  lemma BehindStays(cfg: Config, env: Env, t0: nat, canon: uint64 -> Block, w: World, tip: uint64)
    requires Behind(cfg, env, w, canon, tip) && Honest(env, cfg.chainId) && w.clock >= t0
    requires Settles(env, t0, canon, tip)
    ensures var w' := Tick(cfg, env, w).world;
            w'.clock >= t0 && Left(cfg, env, w', canon, tip)
  {
    HopelessTick(cfg, env, t0, canon, w, Last(Chain(w.history)).number, tip);
    var w' := Tick(cfg, env, w).world;
    if !Stranded(cfg, env, w') {
      SameStoreSameReach(cfg, env, canon, w, w', tip);
    }
  }

  lemma LeftStays(cfg: Config, env: Env, t0: nat, canon: uint64 -> Block, w: World, tip: uint64)
    requires Left(cfg, env, w, canon, tip) && Honest(env, cfg.chainId) && w.clock >= t0
    requires Settles(env, t0, canon, tip)
    ensures Tick(cfg, env, w).world.clock >= t0
    ensures Left(cfg, env, Tick(cfg, env, w).world, canon, tip)
  {
    if Stranded(cfg, env, w) {
      StrandedIsAbsorbing(cfg, env, w);
    } else {
      BehindStays(cfg, env, t0, canon, w, tip);
    }
  }

  /** Out of reach: no number of ticks ever brings the cursor to the tip. */
  lemma {:induction false} NoTicksSuffice(
    cfg: Config, env: Env, t0: nat, canon: uint64 -> Block, w: World, tip: uint64, m: nat)
    requires Left(cfg, env, w, canon, tip) && Honest(env, cfg.chainId) && w.clock >= t0
    requires Settles(env, t0, canon, tip)
    ensures Left(cfg, env, Ticks(cfg, env, w, m), canon, tip)
    decreases m
  {
    if m > 0 {
      LeftStays(cfg, env, t0, canon, w, tip);
      NoTicksSuffice(cfg, env, t0, canon, Tick(cfg, env, w).world, tip, m - 1);
    }
  }

  /**
   Convergence, exactly. On a settled chain whose tip is above the cursor, with no failures, the poller is caught
   up after two ticks, and after any larger number of ticks, if and only if the canonical chain builds on the
   cursor or a fork point is within reach.
   */
  lemma ConvergesIff(cfg: Config, env: Env, t0: nat, canon: uint64 -> Block, w: World, tip: uint64, m: nat)
    requires Healthy(cfg, env, w) && Honest(env, cfg.chainId) && w.clock >= t0
    requires Settles(env, t0, canon, tip) && NoFailures(cfg, env, t0)
    requires Last(Chain(w.history)).number < tip && HashIdentifies(Chain(w.history), cfg.chainId, canon)
    requires m >= 2
    ensures CaughtUpWith(cfg, env, Ticks(cfg, env, w, m), canon, tip) <==>
            WithinReach(cfg, w, Last(Chain(w.history)).number, Last(Chain(w.history)), canon)
  {
    if WithinReach(cfg, w, Last(Chain(w.history)).number, Last(Chain(w.history)), canon) {
      TwoTicksSuffice(cfg, env, t0, canon, w, tip, m);
    } else {
      NoTicksSuffice(cfg, env, t0, canon, w, tip, m);
      NeverBoth(cfg, env, Ticks(cfg, env, w, m));
    }
  }

  lemma AlikeCaughtUp(cfg: Config, env: Env, w: World, w': World, canon: uint64 -> Block, tip: uint64)
    requires Alike(w, w', cfg.chainId)
    ensures CaughtUpWith(cfg, env, w, canon, tip) <==> CaughtUpWith(cfg, env, w', canon, tip)
  {
    hide Healthy, Canonical, Store.SameView;
    AlikeBack(w, w', cfg.chainId);
    AlikeKeeps(cfg, env, w, w');
    AlikeKeeps(cfg, env, w', w);
  }

  /**
   The same in every run: with whatever other chains' pollers do to the shared store in between, a run with two or more
   ticks catches up if and only if the canonical chain was within reach at its beginning.
   */
  lemma RunConvergesIff(cfg: Config, env: Env, t0: nat, canon: uint64 -> Block, w: World, tip: uint64, acts: seq<Action>)
    requires Healthy(cfg, env, w) && Honest(env, cfg.chainId) && w.clock >= t0
    requires Settles(env, t0, canon, tip) && NoFailures(cfg, env, t0)
    requires Last(Chain(w.history)).number < tip && HashIdentifies(Chain(w.history), cfg.chainId, canon)
    requires OthersElsewhere(cfg, acts) && TickCount(acts) >= 2
    ensures CaughtUpWith(cfg, env, Run(cfg, env, w, acts), canon, tip) <==>
            WithinReach(cfg, w, Last(Chain(w.history)).number, Last(Chain(w.history)), canon)
  {
    hide Healthy, Settles, NoFailures, WithinReach, CaughtUpWith, HashIdentifies, OthersElsewhere;
    HealthyChain(cfg, env, w);
    ConvergesIff(cfg, env, t0, canon, w, tip, TickCount(acts));
    RunIsItsTicks(cfg, env, w, w, acts);
    AlikeCaughtUp(cfg, env, Ticks(cfg, env, w, TickCount(acts)), Run(cfg, env, w, acts), canon, tip);
  }

  /**
   What a caught-up poller means to its users: the cursor's record is the canonical tip, every stored record from block 1
   up has the content of the canonical block, and the handler holds the content of the canonical block of every number
   above the baseline.
   */
  lemma CaughtUpMeans(cfg: Config, env: Env, w: World, canon: uint64 -> Block, tip: uint64)
    requires CaughtUpWith(cfg, env, w, canon, tip) && CanonChain(canon, tip)
    ensures var last := Store.GetLast(w.store, cfg.chainId);
            last.Ok? && SameContent(last.value, canon(tip), cfg.chainId)
    ensures forall n: uint64 | n >= 1 && Store.Has(w.store, cfg.chainId, n) ::
              n <= tip && SameContent(Store.At(w.store, cfg.chainId, n), canon(n), cfg.chainId)
    ensures forall n: uint64 | Chain(w.history)[0].number < n <= tip ::
              n in Replay(w.history) && Replay(w.history)[n].(chainId := 0) == canon(n).(chainId := 0)
  {
    var c := Chain(w.history);
    CursorResolves(cfg, env, w);
    forall n: uint64 | c[0].number < n <= tip
      ensures n in Replay(w.history) && Replay(w.history)[n].(chainId := 0) == canon(n).(chainId := 0)
    {
      assert c[n - c[0].number].number == n;
    }
  }
}
