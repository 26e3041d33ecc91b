/**
 Whole runs. Whatever the client, the parser and the handler answer, and whatever pollers of other chains do to
 the shared store in between, a run stays healthy until a reorg search loses its ancestor; from then on the
 poller is stranded and does nothing any more.
 */
module Runs {
  import opened Types
  import opened Environment
  import opened History
  import opened PollerSpec
  import opened Invariant
  import opened Reorg
  import opened Interleaved
  import Store

  // ---------------------------------------------------------------- one reorg

  /** Number q is a usable ancestor: the search meets it, and it is stored or filed under this chain. */
  ghost predicate Ancestor(cfg: Config, env: Env, w: World, start: uint64, q: uint64) {
    && start >= 1
    && Meets(cfg, env, w, start, start - 1, q)
    && (Store.Has(w.store, cfg.chainId, q)
        || env.block(AskedAt(w, start - 1, q), q).value.chainId == cfg.chainId)
  }

  ghost predicate Safe(cfg: Config, env: Env, w: World) {
    Healthy(cfg, env, w) || Stranded(cfg, env, w)
  }

  lemma NeverBoth(cfg: Config, env: Env, w: World)
    ensures !(Healthy(cfg, env, w) && Stranded(cfg, env, w))
  {
    if Healthy(cfg, env, w) {
      CursorResolves(cfg, env, w);
    }
  }

  /** What `Reconcile` makes of a finished search. */
  function Finish(s: Search): Reconciled {
    if s.reply.Err? then Reconciled(s.world, s.reply)
    else if s.orphans == [] then Reconciled(s.world, Err(NoOrphans))
    else RetractAll(s.world, s.orphans)
  }

  /** The search's orphans are the records above its stop, and all of them are stored. */
  lemma OrphanList(cfg: Config, env: Env, w: World, start: uint64, k: uint64, s: Search)
    requires Store.Filed(w.store, cfg.chainId) && Shape(cfg, env, w, start, k, [], s)
    ensures s.stop <= k && forall n: uint64 | s.stop < n <= k :: Store.Has(w.store, cfg.chainId, n)
    ensures s.orphans == Down(w.store, cfg.chainId, k, s.stop)
    ensures Descending(s.orphans, cfg.chainId, k, s.stop)
  {
    DownDescends(w.store, cfg.chainId, k, s.stop);
    assert s.orphans == Down(w.store, cfg.chainId, k, s.stop);
  }

  lemma SavingAgain(s: Store.State, id: ChainId, n: uint64)
    requires !s.closed && Store.Filed(s, id) && Store.Has(s, id, n) && id in s.cursors && s.cursors[id] == n
    ensures Store.Saved(s, Store.At(s, id, n)) == s
  {
    var r := Store.At(s, id, n);
    assert s.blocks[Store.BlockKey(id, n) := r] == s.blocks;
    assert s.cursors[id := n] == s.cursors;
  }

  /** A search that found no orphan changes nothing the handler or the store can tell. */
  lemma NothingToRetract(cfg: Config, env: Env, w: World, start: uint64, k: uint64, s: Search)
    requires Healthy(cfg, env, w)
    requires k == Last(Chain(w.history)).number && start == k + 1
    requires Shape(cfg, env, w, start, k, [], s) && (s.reply.Err? || s.orphans == [])
    ensures var r := Finish(s);
            && r.reply.Err?
            && Healthy(cfg, env, r.world)
            && r.world.store == w.store
  {
    CursorResolves(cfg, env, w);
    OrphanList(cfg, env, w, start, k, s);
    if s.end.Matched? {
      RewindKeeps(cfg, env, w, k, [], s.world.clock);
      SavingAgain(w.store, cfg.chainId, k);
    } else {
      TimePasses(cfg, env, w, s.world.clock);
    }
  }

  /** What a successful reorg from w that stopped at q leaves behind. */
  ghost predicate Settled(cfg: Config, env: Env, w: World, start: uint64, q: uint64, r: Reconciled) {
    && r.reply == Ok(())
    && if Ancestor(cfg, env, w, start, q) then
         && Healthy(cfg, env, r.world)
         && Chain(r.world.history) ==
            (if Store.Has(w.store, cfg.chainId, q) then Prefix(Chain(w.history), q)
             else [RecordFor(cfg.chainId, env.block(AskedAt(w, start - 1, q), q).value)])
       else Stranded(cfg, env, r.world)
  }

  /** A search that ended on a stored record, in closed form. */
  lemma MatchedMeans(cfg: Config, env: Env, w: World, start: uint64, k: uint64, s: Search)
    requires Shape(cfg, env, w, start, k, [], s) && s.end.Matched?
    ensures 1 <= s.stop <= k && Meets(cfg, env, w, start, k, s.stop) && Store.Has(w.store, cfg.chainId, s.stop)
    ensures var r := Store.At(w.store, cfg.chainId, s.stop);
            s.world == SettleOn(cfg, w.(clock := s.world.clock), r, Rewound(r))
    ensures s.reply == Ok(())
  {
  }

  lemma MatchedSettles(cfg: Config, env: Env, w: World, start: uint64, k: uint64, s: Search)
    requires Healthy(cfg, env, w)
    requires k == Last(Chain(w.history)).number && start == k + 1
    requires Shape(cfg, env, w, start, k, [], s) && s.end.Matched? && s.orphans != []
    ensures Settled(cfg, env, w, start, s.stop, Finish(s))
  {
    hide Healthy, Stranded, Shape, Meets, Descending, SettleOn, RetractAll;
    MatchedMeans(cfg, env, w, start, k, s);
    HealthyChain(cfg, env, w);
    OrphanList(cfg, env, w, start, k, s);
    RewindKeeps(cfg, env, w, s.stop, s.orphans, s.world.clock);
  }

  /** A fetched block that carries this chain's id is the one that was asked for. */
  lemma HonestRecord(cfg: Config, env: Env, t: nat, n: uint64)
    requires Honest(env, cfg.chainId) && env.block(t, n).Ok?
    ensures var b := env.block(t, n).value;
            b.chainId == cfg.chainId ==> b.number == n < MAX_UINT64 && b.hash != ""
  {
  }

  /** A search that ended on a missing block, in closed form. */
  lemma RepairedMeans(cfg: Config, env: Env, w: World, start: uint64, k: uint64, s: Search)
    requires Shape(cfg, env, w, start, k, [], s) && s.end.Repaired?
    ensures s.stop <= k && Meets(cfg, env, w, start, k, s.stop) && !Store.Has(w.store, cfg.chainId, s.stop)
    ensures s.stop >= 1 && env.block(AskedAt(w, k, s.stop), s.stop).Ok?
    ensures var b := env.block(AskedAt(w, k, s.stop), s.stop).value;
            s.end.record == RecordFor(b.chainId, b)
    ensures s.world == SettleOn(cfg, w.(clock := s.world.clock), s.end.record, Baselined(s.end.record))
    ensures s.reply == Ok(())
  {
  }

  lemma RepairedHere(cfg: Config, env: Env, w: World, start: uint64, k: uint64, s: Search)
    requires Healthy(cfg, env, w) && Honest(env, cfg.chainId)
    requires k == Last(Chain(w.history)).number && start == k + 1
    requires Shape(cfg, env, w, start, k, [], s) && s.end.Repaired? && s.orphans != []
    requires s.end.record.chainId == cfg.chainId
    ensures Settled(cfg, env, w, start, s.stop, Finish(s))
  {
    hide Healthy, Stranded, Shape, Meets, Descending, Honest, SettleOn, RetractAll;
    RepairedMeans(cfg, env, w, start, k, s);
    HealthyChain(cfg, env, w);
    OrphanList(cfg, env, w, start, k, s);
    HonestRecord(cfg, env, AskedAt(w, k, s.stop), s.stop);
    assert WasFetched(env, s.end.record, cfg.chainId, AskedAt(w, k, s.stop), s.stop);
    RepairKeeps(cfg, env, w, s.end.record, s.orphans, s.world.clock);
  }

  lemma RepairedElsewhere(cfg: Config, env: Env, w: World, start: uint64, k: uint64, s: Search)
    requires Healthy(cfg, env, w)
    requires k == Last(Chain(w.history)).number && start == k + 1
    requires Shape(cfg, env, w, start, k, [], s) && s.end.Repaired? && s.orphans != []
    requires s.end.record.chainId != cfg.chainId
    ensures Settled(cfg, env, w, start, s.stop, Finish(s))
  {
    hide Healthy, Stranded, Shape, Meets, Honest, RetractAll;
    RepairedMeans(cfg, env, w, start, k, s);
    HealthyChain(cfg, env, w);
    CursorResolves(cfg, env, w);
    OrphanList(cfg, env, w, start, k, s);
    Store.SavedFiled(w.store, s.end.record, cfg.chainId);
    LossStrands(cfg, env, w, s.world, Misfiled(s.end.record), s.orphans, s.stop);
  }

  lemma RepairedSettles(cfg: Config, env: Env, w: World, start: uint64, k: uint64, s: Search)
    requires Healthy(cfg, env, w) && Honest(env, cfg.chainId)
    requires k == Last(Chain(w.history)).number && start == k + 1
    requires Shape(cfg, env, w, start, k, [], s) && s.end.Repaired? && s.orphans != []
    ensures Settled(cfg, env, w, start, s.stop, Finish(s))
  {
    hide Healthy, Shape, Settled, Honest, Finish;
    if s.end.record.chainId == cfg.chainId {
      RepairedHere(cfg, env, w, start, k, s);
    } else {
      RepairedElsewhere(cfg, env, w, start, k, s);
    }
  }

  lemma ExhaustedSettles(cfg: Config, env: Env, w: World, start: uint64, k: uint64, s: Search)
    requires Healthy(cfg, env, w)
    requires k == Last(Chain(w.history)).number && start == k + 1
    requires Shape(cfg, env, w, start, k, [], s) && s.end.Exhausted? && s.orphans != []
    ensures Settled(cfg, env, w, start, s.stop, Finish(s))
  {
    hide Healthy, Stranded, Down, Scanned;
    HealthyChain(cfg, env, w);
    OrphanList(cfg, env, w, start, k, s);
    var r := Last(s.orphans);
    assert r.number == s.stop + 1 && r.chainId == cfg.chainId;
    Store.SavedFiled(w.store, r, cfg.chainId);
    LossStrands(cfg, env, w, s.world, Abandoned(r), s.orphans, s.stop);
  }

  /** A search that found orphans decides between a healthy and a stranded poller. */
  lemma OrphansDecide(cfg: Config, env: Env, w: World, start: uint64, k: uint64, s: Search)
    requires Healthy(cfg, env, w) && Honest(env, cfg.chainId)
    requires k == Last(Chain(w.history)).number && start == k + 1
    requires Shape(cfg, env, w, start, k, [], s) && s.reply.Ok? && s.orphans != []
    ensures Settled(cfg, env, w, start, s.stop, Finish(s))
  {
    match s.end {
      case Matched => MatchedSettles(cfg, env, w, start, k, s);
      case Repaired(_) => RepairedSettles(cfg, env, w, start, k, s);
      case Exhausted => ExhaustedSettles(cfg, env, w, start, k, s);
    }
  }

  lemma StoreHasInRange(cfg: Config, env: Env, w: World, q: uint64)
    requires Healthy(cfg, env, w) && q >= 1 && Store.Has(w.store, cfg.chainId, q)
    ensures var c := Chain(w.history);
            && c[0].number <= q <= Last(c).number
            && Prefix(c, q) == c[..q - c[0].number + 1]
            && Last(Prefix(c, q)).number == q
            && Last(Prefix(c, q)) == Store.At(w.store, cfg.chainId, q)
  {
    var c := Chain(w.history);
    assert c[q - c[0].number].number == q;
  }

  /**
   A reorg that reports no error leaves a cursor that resolves if and only if the search met, above block 0
   and within the configured depth, a number whose stored record agrees with the client or one that is
   missing here and comes back with this chain's id. Otherwise the cursor names no record.
   */
  lemma ReconcileResolvesIff(cfg: Config, env: Env, w: World, start: uint64)
    requires Healthy(cfg, env, w) && Honest(env, cfg.chainId)
    requires start == Last(Chain(w.history)).number + 1
    ensures var r := Reconcile(cfg, env, w, start);
            && Safe(cfg, env, r.world)
            && (r.reply.Err? ==> Healthy(cfg, env, r.world) && r.world.store == w.store)
            && (r.reply.Ok? ==>
                  (Store.GetLast(r.world.store, cfg.chainId).Ok? <==> exists q :: Ancestor(cfg, env, w, start, q)))
  {
    var k: uint64 := start - 1;
    SearchShape(cfg, env, w, start, k, []);
    var s := FindOrphans(cfg, env, w, start);
    var r := Finish(s);
    assert r == Reconcile(cfg, env, w, start);
    if s.reply.Err? || s.orphans == [] {
      NothingToRetract(cfg, env, w, start, k, s);
    } else {
      OrphansDecide(cfg, env, w, start, k, s);
      OnlyAncestor(cfg, env, w, start);
      if Ancestor(cfg, env, w, start, s.stop) {
        CursorResolves(cfg, env, r.world);
      }
    }
  }

  /** A search has at most one ancestor to end on, and that is where it stops. */
  lemma OnlyAncestor(cfg: Config, env: Env, w: World, start: uint64)
    requires start >= 1 && !w.store.closed
    ensures (exists q :: Ancestor(cfg, env, w, start, q)) <==>
            Ancestor(cfg, env, w, start, FindOrphans(cfg, env, w, start).stop)
  {
    forall q | Ancestor(cfg, env, w, start, q) ensures q == FindOrphans(cfg, env, w, start).stop {
      SearchMeetsIff(cfg, env, w, start, q);
    }
  }

  // ---------------------------------------------------------------- one tick

  /** What a forward walk from a healthy world leaves behind. */
  ghost predicate WalkOk(cfg: Config, env: Env, tip: uint64, f: Ticked) {
    && Safe(cfg, env, f.world)
    && (match f.end
        case Reorged(from, start, reply) =>
          && Healthy(cfg, env, from)
          && (start == Last(Chain(from.history)).number + 1 || (start == 0 && Healthy(cfg, env, f.world)))
          && f.world == Reconcile(cfg, env, from, start).world
          && reply == Reconcile(cfg, env, from, start).reply
        case FetchFailed(m) => Healthy(cfg, env, f.world) && m == Last(Chain(f.world.history)).number + 1 <= tip
        case BlockFailed(m) => Healthy(cfg, env, f.world) && m == Last(Chain(f.world.history)).number + 1 <= tip
        case CaughtUp => Healthy(cfg, env, f.world) && Last(Chain(f.world.history)).number == tip
        case _ => Healthy(cfg, env, f.world))
  }

  lemma {:induction false} ForwardKeeps(cfg: Config, env: Env, w: World, last: Record, n: uint64, tip: uint64)
    requires Healthy(cfg, env, w) && Honest(env, cfg.chainId)
    requires last == Last(Chain(w.history)) && n == last.number + 1 <= tip + 1 && tip < MAX_UINT64
    ensures WalkOk(cfg, env, tip, Forward(cfg, env, w, last, n, tip))
    decreases tip + 1 - n
  {
    hide Healthy, Stranded, ProcessBlock, Reconcile;
    if n > tip || env.block(w.clock, n).Err? {
      ForwardStops(cfg, env, w, last, n, tip);
    } else {
      var b := env.block(w.clock, n).value;
      if b.parentHash != last.hash {
        ForwardReorgs(cfg, env, w, last, n, tip, b);
      } else {
        var more, next, r := ForwardProcesses(cfg, env, w, last, n, tip, b);
        if more {
          ForwardKeeps(cfg, env, next, r, n + 1, tip);
        }
      }
    }
  }

  lemma ForwardStops(cfg: Config, env: Env, w: World, last: Record, n: uint64, tip: uint64)
    requires Healthy(cfg, env, w)
    requires last == Last(Chain(w.history)) && n == last.number + 1 <= tip + 1 && tip < MAX_UINT64
    requires n > tip || env.block(w.clock, n).Err?
    ensures WalkOk(cfg, env, tip, Forward(cfg, env, w, last, n, tip))
  {
    TimePasses(cfg, env, w, w.clock + 1);
  }

  lemma ForwardReorgs(cfg: Config, env: Env, w: World, last: Record, n: uint64, tip: uint64, b: Block)
    requires Healthy(cfg, env, w) && Honest(env, cfg.chainId)
    requires last == Last(Chain(w.history)) && n == last.number + 1 <= tip < MAX_UINT64
    requires env.block(w.clock, n) == Ok(b) && b.parentHash != last.hash
    ensures WalkOk(cfg, env, tip, Forward(cfg, env, w, last, n, tip))
  {
    hide Healthy, Stranded, Reconcile;
    TimePasses(cfg, env, w, w.clock + 1);
    if b.number == n {
      ReconcileResolvesIff(cfg, env, Tock(w), n);
    } else {
      NullAnswerIsHarmless(cfg, env, Tock(w));
    }
    var r := Reconcile(cfg, env, Tock(w), b.number);
    assert Forward(cfg, env, w, last, n, tip) == Ticked(r.world, Reorged(Tock(w), b.number, r.reply));
  }

  /** A note about another chain changes nothing the invariant speaks of. */
  lemma MisfilingKeeps(cfg: Config, env: Env, w: World, r: Record)
    requires Healthy(cfg, env, w) && r.chainId != cfg.chainId
    ensures Healthy(cfg, env, SettleOn(cfg, w, r, Baselined(r)))
  {
    hide StoreOk, HoldsChain, OwnedOk, HistoryOk, Stranded;
    HealthyChain(cfg, env, w);
    OtherKeeps(cfg, env, w, Store.SaveOp(r));
    var h' := w.history + [Misfiled(r)];
    Append(w.history, Misfiled(r));
    HistoryOkAppend(cfg, env, w.history, Misfiled(r));
  }

  /**
   A null answer in the forward walk looks like a reorg at block 0: the search wraps around to the largest number,
   finds nothing there, files at most a zero record under chain 0 and gives up. This chain is not affected.
   */
  lemma NullAnswerIsHarmless(cfg: Config, env: Env, w: World)
    requires Healthy(cfg, env, w) && Honest(env, cfg.chainId)
    ensures Reconcile(cfg, env, w, 0).reply.Err?
    ensures Healthy(cfg, env, Reconcile(cfg, env, w, 0).world)
  {
    hide HistoryOk, HoldsChain, Agrees;
    HealthyChain(cfg, env, w);
    var c := Chain(w.history);
    assert !Store.Has(w.store, cfg.chainId, MAX_UINT64);
    TimePasses(cfg, env, w, w.clock + 1);
    var r := RecordFor(NULL_BLOCK.chainId, NULL_BLOCK);
    MisfilingKeeps(cfg, env, Tock(w), r);
    assert Sub64(0, 1) == MAX_UINT64;
    if InDepth(cfg, 0, MAX_UINT64) && env.block(w.clock, MAX_UINT64).Ok? {
      assert FindOrphans(cfg, env, w, 0) ==
             Search(SettleOn(cfg, Tock(w), r, Baselined(r)), [], MAX_UINT64, Repaired(r), Ok(()));
    }
  }

  /** A block that links to the cursor is processed; if it is committed the walk goes on from there. */
  lemma ForwardProcesses(cfg: Config, env: Env, w: World, last: Record, n: uint64, tip: uint64, b: Block)
    returns (more: bool, next: World, r: Record)
    requires Healthy(cfg, env, w) && Honest(env, cfg.chainId)
    requires last == Last(Chain(w.history)) && n == last.number + 1 <= tip < MAX_UINT64
    requires env.block(w.clock, n) == Ok(b) && b.parentHash == last.hash
    ensures var p := ProcessBlock(cfg, env, Note(Tock(Tock(w)), Delivered(b, w.clock + 2)), b);
            next == p.world && (more <==> p.reply.Ok?) && (more ==> p.reply.value == r) && b.number == n
    ensures !more ==> WalkOk(cfg, env, tip, Forward(cfg, env, w, last, n, tip))
    ensures !more ==> Forward(cfg, env, w, last, n, tip).world == next && next.store == w.store
    ensures w.history + [Delivered(b, w.clock + 2)] <= next.history
    ensures more ==> r.chainId == cfg.chainId && next.store == CommitTo(cfg, w.store, r)
    ensures more ==> Healthy(cfg, env, next) && r == Last(Chain(next.history)) && r.number == n
    ensures more ==> Forward(cfg, env, w, last, n, tip) == Forward(cfg, env, next, r, n + 1, tip)
  {
    hide Healthy, Stranded, ProcessBlock, Reconcile, CommitTo;
    HealthyChain(cfg, env, w);
    assert b.number == n && b.hash != "";
    TimePasses(cfg, env, w, w.clock + 2);
    ProcessKeeps(cfg, env, Tock(Tock(w)), b);
    var p := ProcessBlock(cfg, env, Note(Tock(Tock(w)), Delivered(b, w.clock + 2)), b);
    more, next := p.reply.Ok?, p.world;
    r := if more then p.reply.value else last;
  }

  /** One tick keeps a healthy poller safe; only a reorg can strand it. */
  lemma TickKeeps(cfg: Config, env: Env, w: World)
    requires Healthy(cfg, env, w) && Honest(env, cfg.chainId)
    ensures var t := Tick(cfg, env, w);
            && Safe(cfg, env, t.world)
            && (t.end.Reorged? || Healthy(cfg, env, t.world))
            && (t.end.Reorged? ==>
                  && Healthy(cfg, env, t.end.from)
                  && (t.end.start == Last(Chain(t.end.from.history)).number + 1
                      || (t.end.start == 0 && Healthy(cfg, env, t.world)))
                  && t.world == Reconcile(cfg, env, t.end.from, t.end.start).world
                  && t.end.reply == Reconcile(cfg, env, t.end.from, t.end.start).reply)
  {
    hide Healthy, Stranded, Reconcile, Forward;
    CursorResolves(cfg, env, w);
    TimePasses(cfg, env, w, w.clock + 1);
    if env.latest(w.clock).Ok? {
      var tip := env.latest(w.clock).value;
      var last := Last(Chain(w.history));
      if last.number < tip < MAX_UINT64 {
        ForwardKeeps(cfg, env, Tock(w), last, last.number + 1, tip);
      }
    }
  }

  /** A tick of a poller whose cursor does not resolve changes nothing at all, and asks nobody. */
  lemma NoCursorNoTick(cfg: Config, env: Env, w: World)
    requires Store.GetLast(w.store, cfg.chainId).Err?
    ensures Tick(cfg, env, w) == Ticked(w, NoCursor)
  {
  }

  /** In particular a stranded poller, and a poller on a closed store, stay as they are. */
  lemma StrandedIsAbsorbing(cfg: Config, env: Env, w: World)
    requires Stranded(cfg, env, w) || w.store.closed
    ensures Tick(cfg, env, w) == Ticked(w, NoCursor)
  {
    NoCursorNoTick(cfg, env, w);
  }

  // ---------------------------------------------------------------- runs

  /**
   A run interleaves ticks of this poller with operations of other chains' pollers on the shared store, between the
   ticks and between the operations of a tick.
   */
  datatype Action = PollTick(others: Others) | Other(op: Store.Op)

  function Act(cfg: Config, env: Env, w: World, a: Action): World {
    match a
    case PollTick(others) => TickAmid(cfg, env, others, w)
    case Other(op) => w.(store := Store.Apply(w.store, op))
  }

  function Run(cfg: Config, env: Env, w: World, acts: seq<Action>): World
    decreases |acts|
  {
    if |acts| == 0 then w else Run(cfg, env, Act(cfg, env, w, acts[0]), acts[1..])
  }

  ghost predicate OthersElsewhere(cfg: Config, acts: seq<Action>) {
    forall i :: 0 <= i < |acts| ==>
      match acts[i]
      case PollTick(others) => Elsewhere(others, cfg.chainId)
      case Other(op) => Store.OpChain(op) != cfg.chainId
  }

  /** Nobody has used the store for this chain yet. */
  ghost predicate Fresh(cfg: Config, w: World) {
    && !w.store.closed
    && Store.Filed(w.store, cfg.chainId)
    && cfg.chainId !in w.store.cursors
    && (forall n: uint64 :: !Store.Has(w.store, cfg.chainId, n))
    && w.history == []
  }

  /** The number Start begins after: the configured genesis block, or the latest one. */
  function StartNumber(cfg: Config, env: Env, w: World): Reply<uint64> {
    if cfg.genesis > 0 then Ok(cfg.genesis) else env.latest(w.clock)
  }

  /** The block Start begins after. */
  function StartBlock(cfg: Config, env: Env, w: World): Reply<Block> {
    var t := if cfg.genesis > 0 then w.clock else w.clock + 1;
    match StartNumber(cfg, env, w)
    case Err(e) => Err(e)
    case Ok(n) => env.block(t, n)
  }

  /** The client had no block to start after. */
  predicate StartsOnNull(cfg: Config, env: Env, w: World) {
    StartBlock(cfg, env, w) == Ok(NULL_BLOCK)
  }

  /** Nothing of an earlier chain is in the way of a new baseline m: no other record, nothing owned above. */
  ghost predicate NoLeftovers(cfg: Config, w: World, m: uint64) {
    && (forall n: uint64 | n >= 1 && Store.Has(w.store, cfg.chainId, n) :: n == m)
    && (forall n | n in Owned(w.history) :: n <= m)
  }

  /** A chain without a resolving cursor, whatever else the store and the history hold. */
  ghost predicate Startable(cfg: Config, env: Env, w: World) {
    && !w.store.closed
    && Store.Filed(w.store, cfg.chainId)
    && Store.GetLast(w.store, cfg.chainId).Err?
    && HistoryOk(cfg, env, w.history)
  }

  /**
   A successful start of a chain that has no resolving cursor, exactly. The cursor is the start block, filed under the
   configured chain id whatever id the client gave it, and the handler is told nothing; and the poller is healthy if
   and only if the start block is not the null block and nothing of an earlier chain is in its way.
   */
  lemma StartIsHealthyIff(cfg: Config, env: Env, w: World)
    requires Startable(cfg, env, w) && Honest(env, cfg.chainId) && Start(cfg, env, w).reply.Ok?
    ensures StartBlock(cfg, env, w).Ok?
    ensures var w', r := Start(cfg, env, w).world, RecordFor(cfg.chainId, StartBlock(cfg, env, w).value);
            && w'.history == w.history + [Baselined(r)]
            && Chain(w'.history) == [r]
            && Store.GetLast(w'.store, cfg.chainId) == Ok(r)
            && SameContent(r, StartBlock(cfg, env, w).value, cfg.chainId)
            && (Healthy(cfg, env, w') <==> !StartsOnNull(cfg, env, w) && NoLeftovers(cfg, w, r.number))
  {
    hide HistoryOk;
    var t := if cfg.genesis > 0 then w.clock else w.clock + 1;
    var b := StartBlock(cfg, env, w).value;
    var r := RecordFor(cfg.chainId, b);
    assert Start(cfg, env, w) == Baseline(cfg, w.(clock := t + 1), b);
    var w' := Start(cfg, env, w).world;
    Append(w.history, Baselined(r));
    assert WasFetched(env, r, cfg.chainId, t, StartNumber(cfg, env, w).value);
    HistoryOkAppend(cfg, env, w.history, Baselined(r));
    BaselineStoreIff(cfg, w.store, r);
  }

  /**
   Start, exactly. With a cursor that resolves it does nothing and asks nobody. Otherwise it asks for the start number,
   if none is configured, and for its block; it reports what they report, or that the store is closed; and unless it
   succeeds it leaves store and history as they were.
   */
  lemma StartIs(cfg: Config, env: Env, w: World)
    ensures Store.GetLast(w.store, cfg.chainId).Ok? ==> Start(cfg, env, w) == Started(w, Ok(()))
    ensures Store.GetLast(w.store, cfg.chainId).Err? ==>
              var s := Start(cfg, env, w);
              && s.reply == (match StartBlock(cfg, env, w)
                             case Err(e) => Err(e)
                             case Ok(_) => if w.store.closed then Err(StoreClosed) else Ok(()))
              && s.world.clock == w.clock + (if cfg.genesis > 0 || env.latest(w.clock).Err? then 1 else 2)
              && (s.reply.Err? ==> s.world.store == w.store && s.world.history == w.history)
  {
  }

  /** A healthy poller is not disturbed by being started again. */
  lemma RestartKeepsHealthy(cfg: Config, env: Env, w: World)
    requires Healthy(cfg, env, w)
    ensures Start(cfg, env, w) == Started(w, Ok(()))
  {
    hide Healthy;
    CursorResolves(cfg, env, w);
    StartIs(cfg, env, w);
  }

  /** Which stores a new baseline makes into a one-block chain. */
  lemma BaselineStoreIff(cfg: Config, s: Store.State, r: Record)
    requires !s.closed && Store.Filed(s, cfg.chainId) && r.chainId == cfg.chainId
    ensures StoreOk(cfg, Store.Saved(s, r), [r], r.number) <==>
            r.hash != "" && r.number < MAX_UINT64 && forall n: uint64 | n >= 1 && Store.Has(s, cfg.chainId, n) :: n == r.number
  {
    var s' := Store.Saved(s, r);
    Store.SavedFiled(s, r, cfg.chainId);
    forall n: uint64 ensures Store.Has(s', cfg.chainId, n) <==> n == r.number || Store.Has(s, cfg.chainId, n) {
    }
    assert Low(cfg, r.number, r.number) == r.number;
  }

  lemma FreshIsStartable(cfg: Config, env: Env, w: World)
    requires Fresh(cfg, w)
    ensures Startable(cfg, env, w) && w.history == [] && forall m :: NoLeftovers(cfg, w, m)
  {
    assert Owned(w.history) == {};
  }

  /** On a store this chain has not used, a start is healthy if and only if it is not on the null block. */
  lemma StartIsHealthy(cfg: Config, env: Env, w: World)
    requires Fresh(cfg, w) && Honest(env, cfg.chainId) && Start(cfg, env, w).reply.Ok?
    ensures StartBlock(cfg, env, w).Ok?
    ensures var w', r := Start(cfg, env, w).world, RecordFor(cfg.chainId, StartBlock(cfg, env, w).value);
            && (Healthy(cfg, env, w') <==> !StartsOnNull(cfg, env, w))
            && w'.history == [Baselined(r)]
  {
    hide Healthy, Start, StartBlock, Startable, NoLeftovers, Fresh, Chain, Store.GetLast, Honest;
    FreshIsStartable(cfg, env, w);
    StartIsHealthyIff(cfg, env, w);
    var r := RecordFor(cfg.chainId, StartBlock(cfg, env, w).value);
    assert NoLeftovers(cfg, w, r.number);
    assert [] + [Baselined(r)] == [Baselined(r)];
  }

  lemma OtherKeeps(cfg: Config, env: Env, w: World, op: Store.Op)
    requires Store.OpChain(op) != cfg.chainId
    ensures var w' := Act(cfg, env, w, Other(op));
            && (Healthy(cfg, env, w) ==> Healthy(cfg, env, w'))
            && (Stranded(cfg, env, w) ==> Stranded(cfg, env, w'))
  {
    Store.OtherChainUnseen(w.store, op, cfg.chainId);
    AlikeKeeps(cfg, env, w, Act(cfg, env, w, Other(op)));
  }

  /** The invariant speaks of this chain and the handler only. */
  lemma AlikeKeeps(cfg: Config, env: Env, w: World, w': World)
    requires Alike(w, w', cfg.chainId)
    ensures Healthy(cfg, env, w) ==> Healthy(cfg, env, w')
    ensures Stranded(cfg, env, w) ==> Stranded(cfg, env, w')
  {
    hide HistoryOk, HoldsChain;
  }

  /** A tick amid others keeps the poller safe, and does nothing when it is stranded. */
  lemma TickAmidKeeps(cfg: Config, env: Env, others: Others, w: World)
    requires Safe(cfg, env, w) && Honest(env, cfg.chainId) && Elsewhere(others, cfg.chainId)
    ensures Safe(cfg, env, TickAmid(cfg, env, others, w))
    ensures Stranded(cfg, env, w) ==>
              Stranded(cfg, env, TickAmid(cfg, env, others, w)) && TickAmid(cfg, env, others, w).history == w.history
  {
    hide Healthy, Stranded, Tick, TickAmid, Elsewhere;
    TickAlike(cfg, env, others, w, w);
    AlikeKeeps(cfg, env, Tick(cfg, env, w).world, TickAmid(cfg, env, others, w));
    NeverBoth(cfg, env, w);
    if Healthy(cfg, env, w) {
      TickKeeps(cfg, env, w);
    } else {
      StrandedIsAbsorbing(cfg, env, w);
    }
  }

  /**
   Every run from a healthy state is safe at its end, and every prefix of a run is a run: at each moment the
   poller is healthy, or it is stranded and will stay so.
   */
  lemma {:induction false} RunIsSafe(cfg: Config, env: Env, w: World, acts: seq<Action>)
    requires Safe(cfg, env, w) && Honest(env, cfg.chainId) && OthersElsewhere(cfg, acts)
    ensures Safe(cfg, env, Run(cfg, env, w, acts))
    ensures Stranded(cfg, env, w) ==>
              Stranded(cfg, env, Run(cfg, env, w, acts)) && Run(cfg, env, w, acts).history == w.history
    decreases |acts|
  {
    hide Healthy, Stranded, Elsewhere, TickAmid;
    if |acts| > 0 {
      if acts[0].PollTick? {
        TickAmidKeeps(cfg, env, acts[0].others, w);
      } else {
        OtherKeeps(cfg, env, w, acts[0].op);
      }
      RunIsSafe(cfg, env, Act(cfg, env, w, acts[0]), acts[1..]);
    }
  }

  // ---------------------------------------------------------------- a run is its ticks

  function Ticks(cfg: Config, env: Env, w: World, m: nat): World
    decreases m
  {
    if m == 0 then w else Ticks(cfg, env, Tick(cfg, env, w).world, m - 1)
  }

  function TickCount(acts: seq<Action>): nat {
    if |acts| == 0 then 0 else (if acts[0].PollTick? then 1 else 0) + TickCount(acts[1..])
  }

  lemma AlikeBack(w: World, w': World, id: ChainId)
    requires Alike(w, w', id)
    ensures Alike(w', w, id)
  {
  }

  /**
   To its own chain and its handler a run is nothing but its ticks, one after the other, as if nobody else used the
   store: the same calls to client and handler, the same cursor, the same records.
   */
  lemma {:induction false} RunIsItsTicks(cfg: Config, env: Env, w: World, w': World, acts: seq<Action>)
    requires Alike(w, w', cfg.chainId) && OthersElsewhere(cfg, acts)
    ensures Alike(Ticks(cfg, env, w, TickCount(acts)), Run(cfg, env, w', acts), cfg.chainId)
    decreases |acts|
  {
    hide Elsewhere, Tick, TickAmid, Store.SameView;
    if |acts| > 0 {
      match acts[0] {
        case PollTick(others) =>
          TickAlike(cfg, env, others, w, w');
          RunIsItsTicks(cfg, env, Tick(cfg, env, w).world, TickAmid(cfg, env, others, w'), acts[1..]);
        case Other(op) =>
          Store.OtherChainUnseen(w'.store, op, cfg.chainId);
          Store.SameViewTrans(w.store, w'.store, Store.Apply(w'.store, op), cfg.chainId);
          RunIsItsTicks(cfg, env, w, Act(cfg, env, w', acts[0]), acts[1..]);
      }
    }
  }
}
