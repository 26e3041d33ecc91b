/** Small runs in which a promise one might expect is broken, and what a start on the null block leads to. */
module Failures {
  import opened Types
  import opened Environment
  import opened History
  import opened LogFetch
  import opened PollerSpec
  import opened Offers
  import opened Invariant
  import opened Reorg
  import opened Runs
  import opened Guarantees
  import Interleaved
  import Store

  // ---------------------------------------------------------------- a reorg right after the start

  /** A client whose blocks all change their hash after the first call; it never sets a chain id. */
  const FICKLE: Env := Env(
    _ => Ok(6),
    (t: nat, n: uint64) =>
      if n == MAX_UINT64 then Err(CallFailed) else Ok(Block(n, if t == 0 then "old" else "new", "parent", 0, 0)),
    (_, _, _) => Ok([]),
    _ => [],
    _ => 0,
    (_, _) => Ok(""),
    (_, _) => true,
    (_, _, _, _) => true)

  /** Chain 1 from block 5 on, with the given search depth. */
  function ConfigWith(depth: int64): Config {
    Config(1, [], 5, depth, 100, 1000)
  }

  const UNUSED: World := World(Store.EMPTY, [], 0)
  const ALONE: Interleaved.Others := (_, _) => []
  const BASE: Record := Record(5, "old", "parent", 0, 1)
  const STRAY: Record := Record(4, "new", "parent", 0, 0)

  lemma FickleStarts(depth: int64)
    ensures var s := Start(ConfigWith(depth), FICKLE, UNUSED);
            && s.reply == Ok(())
            && s.world == World(Store.Saved(Store.EMPTY, BASE), [Baselined(BASE)], 1)
            && !StartsOnNull(ConfigWith(depth), FICKLE, UNUSED)
  {
    assert FICKLE.block(0, 5) == Ok(Block(5, "old", "parent", 0, 0));
    assert [] + [Baselined(BASE)] == [Baselined(BASE)];
  }

  /** After the start, one tick with nobody else around. */
  function FickleRun(depth: int64): World {
    Run(ConfigWith(depth), FICKLE, Start(ConfigWith(depth), FICKLE, UNUSED).world, [PollTick(ALONE)])
  }

  lemma FickleReached(depth: int64)
    ensures Reached(ConfigWith(depth), FICKLE, UNUSED, [PollTick(ALONE)], FickleRun(depth))
  {
    hide Start, Run;
    FickleStarts(depth);
    assert forall t: nat, n: uint64 :: FICKLE.block(t, n).Ok? ==>
      FICKLE.block(t, n).value.number == n < MAX_UINT64 && FICKLE.block(t, n).value.hash != "";
    assert Interleaved.Elsewhere(ALONE, 1);
  }

  lemma RunOne(cfg: Config, env: Env, w: World, a: Action)
    ensures Run(cfg, env, w, [a]) == Act(cfg, env, w, a)
  {
    var w1 := Act(cfg, env, w, a);
    assert [a][0] == a && [a][1..] == [];
    assert Run(cfg, env, w1, []) == w1;
  }

  lemma NobodyAround(w: World, site: Interleaved.Site)
    ensures Interleaved.Meanwhile(ALONE, w, site) == w
  {
    assert ALONE(w.clock, site) == [];
  }

  /** The start block, the tip and the changed blocks; the search has one orphan, the baseline. */
  lemma FickleTick(depth: int64)
    ensures var cfg, w := ConfigWith(depth), World(Store.Saved(Store.EMPTY, BASE), [Baselined(BASE)], 1);
            && Start(cfg, FICKLE, UNUSED).world == w
            && FickleRun(depth) == Interleaved.ReconcileAmid(cfg, FICKLE, ALONE, w.(clock := 3), 6)
  {
    hide Interleaved.ReconcileAmid;
    FickleStarts(depth);
    var cfg, w := ConfigWith(depth), World(Store.Saved(Store.EMPTY, BASE), [Baselined(BASE)], 1);
    RunOne(cfg, FICKLE, w, PollTick(ALONE));
    NobodyAround(w, Interleaved.Reading);
    assert FickleRun(depth) == Interleaved.TickAmid(cfg, FICKLE, ALONE, w);
    assert Store.GetLast(w.store, 1) == Ok(BASE) && FICKLE.latest(1) == Ok(6);
    assert FICKLE.block(2, 6) == Ok(Block(6, "new", "parent", 0, 0));
    assert "parent" != "old" by { assert |"parent"| != |"old"|; }
    assert FickleRun(depth) == Interleaved.ForwardAmid(cfg, FICKLE, ALONE, Tock(w), BASE, 6, 6);
  }

  /** The search from block 6 finds the baseline contradicted and goes on below it. */
  lemma FickleSearch(cfg: Config, w: World)
    requires cfg.chainId == 1 && AsUint64(cfg.maxReorgDepth) >= 1 && w.clock >= 1
    requires !w.store.closed && Store.Has(w.store, 1, 5) && Store.At(w.store, 1, 5) == BASE
    ensures Interleaved.SearchAmid(cfg, FICKLE, ALONE, w, 6, 5, []) ==
            Interleaved.SearchAmid(cfg, FICKLE, ALONE, Tock(w), 6, 4, [BASE])
  {
    NobodyAround(Tock(w), Interleaved.Reading);
    assert FICKLE.block(w.clock, 5) == Ok(Block(5, "new", "parent", 0, 0));
    assert "new" != "old" by { assert "new"[0] != "old"[0]; }
    assert [] + [BASE] == [BASE];
  }

  lemma RetractBase(w: World)
    requires !w.store.closed
    ensures Interleaved.RetractAmid(ALONE, w, [BASE]) ==
            World(Store.Deleted(w.store, 1, 5), w.history + [Retracted(5)], w.clock + 1)
  {
    var told := Note(Tock(w), Retracted(5));
    NobodyAround(told, Interleaved.Deleting);
    assert [BASE][1..] == [];
    var gone := told.(store := Store.Deleted(told.store, 1, 5));
    assert Interleaved.RetractAmid(ALONE, gone, []) == gone;
  }

  /**
   With a depth of one the search runs out after the baseline: the reorg retracts block 5, which was never delivered,
   reports no error, and leaves a cursor that names no record.
   */
  lemma BaselineRetractedAndCursorLost()
    ensures Reached(ConfigWith(1), FICKLE, UNUSED, [PollTick(ALONE)], FickleRun(1))
    ensures FickleRun(1).history == [Baselined(BASE), Abandoned(BASE), Retracted(5)]
    ensures FickleRun(1).store.cursors == map[1 := 5] && FickleRun(1).store.blocks == map[]
    ensures Stranded(ConfigWith(1), FICKLE, FickleRun(1))
  {
    hide Reached, Healthy, HistoryOk, Interleaved.RetractAmid;
    var cfg, w := ConfigWith(1), World(Store.Saved(Store.EMPTY, BASE), [Baselined(BASE)], 3);
    FickleReached(1);
    FickleTick(1);
    FickleSearch(cfg, w);
    NobodyAround(Tock(w), Interleaved.Saving);
    var settled := SettleOn(cfg, Tock(w), BASE, Abandoned(BASE));
    assert Interleaved.SearchAmid(cfg, FICKLE, ALONE, w, 6, 5, []) == Search(settled, [BASE], 4, Exhausted, Ok(()));
    RetractBase(settled);
    CursorTells(cfg, FICKLE, UNUSED, [PollTick(ALONE)], FickleRun(1));
  }

  /**
   With a depth of two the search goes on to block 4, which is missing here and has no chain id: it becomes the cursor
   of chain 0, and chain 1 has lost its own.
   */
  lemma RepairIsMisfiled()
    ensures Reached(ConfigWith(2), FICKLE, UNUSED, [PollTick(ALONE)], FickleRun(2))
    ensures FickleRun(2).history == [Baselined(BASE), Misfiled(STRAY), Retracted(5)]
    ensures Store.GetLast(FickleRun(2).store, 0) == Ok(STRAY)
    ensures Stranded(ConfigWith(2), FICKLE, FickleRun(2))
  {
    hide Reached, Healthy, HistoryOk, Interleaved.RetractAmid;
    var cfg, w := ConfigWith(2), World(Store.Saved(Store.EMPTY, BASE), [Baselined(BASE)], 3);
    FickleReached(2);
    FickleTick(2);
    FickleSearch(cfg, w);
    var w1 := Tock(Tock(w));
    NobodyAround(w1, Interleaved.Reading);
    NobodyAround(w1, Interleaved.Repairing);
    var put := w1.(store := Store.Saved(w1.store, STRAY));
    NobodyAround(put, Interleaved.Saving);
    assert FICKLE.block(4, 4) == Ok(Block(4, "new", "parent", 0, 0));
    Store.SavedTwice(w1.store, STRAY);
    var settled := SettleOn(cfg, w1, STRAY, Baselined(STRAY));
    assert Interleaved.SearchAmid(cfg, FICKLE, ALONE, w, 6, 5, []) ==
           Search(settled, [BASE], 4, Repaired(STRAY), Ok(()));
    RetractBase(settled);
    CursorTells(cfg, FICKLE, UNUSED, [PollTick(ALONE)], FickleRun(2));
  }

  // ---------------------------------------------------------------- starting on the null block

  /** The cursor is the record of the null block, and nothing else of the chain is stored from block 1 up. */
  ghost predicate OnNull(cfg: Config, w: World) {
    && Store.GetLast(w.store, cfg.chainId) == Ok(RecordFor(cfg.chainId, NULL_BLOCK))
    && forall n: uint64 | n >= 1 :: !Store.Has(w.store, cfg.chainId, n)
  }

  lemma SavedAtZero(s: Store.State, id: ChainId)
    requires !s.closed && forall n: uint64 | n >= 1 :: !Store.Has(s, id, n)
    ensures forall n: uint64 | n >= 1 :: !Store.Has(Store.Saved(s, RecordFor(id, NULL_BLOCK)), id, n)
  {
    forall n: uint64 | n >= 1 ensures !Store.Has(Store.Saved(s, RecordFor(id, NULL_BLOCK)), id, n) {
      assert !Store.Has(s, id, n);
    }
  }

  lemma NullStart(cfg: Config, env: Env, w: World)
    requires Fresh(cfg, w) && Honest(env, cfg.chainId) && Start(cfg, env, w).reply.Ok? && StartsOnNull(cfg, env, w)
    ensures OnNull(cfg, Start(cfg, env, w).world)
    ensures !Healthy(cfg, env, Start(cfg, env, w).world)
  {
    StartIsHealthy(cfg, env, w);
    SavedAtZero(w.store, cfg.chainId);
  }

  /**
   A poller that started on the null block never moves while the client answers block 1 with an error or a block that
   has a parent: the parent hash cannot match, and the search below block 1 finds nothing to save.
   */
  lemma NullStartIsStuck(cfg: Config, env: Env, w: World)
    requires OnNull(cfg, w) && Honest(env, cfg.chainId)
    requires env.block(w.clock + 1, 1).Ok? ==> env.block(w.clock + 1, 1).value.parentHash != ""
    ensures Tick(cfg, env, w).world.store == w.store && Tick(cfg, env, w).world.history == w.history
  {
  }

  /**
   If the client has no block 1 either, the null answer links, because both hashes are empty: it is delivered, and if
   nothing fails it is committed as block 0 again, so the cursor stays where it is while the walk goes on.
   */
  lemma NullFollowsNull(cfg: Config, env: Env, w: World, n: uint64, tip: uint64) returns (next: World)
    requires OnNull(cfg, w) && n <= tip < MAX_UINT64 && env.block(w.clock, n) == Ok(NULL_BLOCK)
    ensures OnNull(cfg, next) && w.history + [Delivered(NULL_BLOCK, w.clock + 2)] <= next.history
    ensures var zero := RecordFor(cfg.chainId, NULL_BLOCK);
            var f := Forward(cfg, env, w, zero, n, tip);
            f == Ticked(next, BlockFailed(n)) || f == Forward(cfg, env, next, zero, n + 1, tip)
  {
    var wd := Note(Tock(Tock(w)), Delivered(NULL_BLOCK, w.clock + 2));
    var p := ProcessBlock(cfg, env, wd, NULL_BLOCK);
    next := p.world;
    var fetched := FetchLogs(env, wd.clock, cfg, 0);
    if fetched.Ok? {
      var w1 := wd.(clock := FetchEnd(env, wd.clock, cfg));
      var es := OffersAre(env, w1, NULL_BLOCK.(chainId := cfg.chainId), fetched.value);
      SavedAtZero(w.store, cfg.chainId);
    }
  }
}
