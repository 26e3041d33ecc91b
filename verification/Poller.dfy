/** EVMChainPoller: the loops of the program, each proved to compute what PollerSpec says. */
module Poller {
  import opened Types
  import opened Environment
  import opened History
  import opened LogFetch
  import opened PollerSpec
  import opened StoreImpl
  import Store

  /** The client, the parser, the handler, the registry and the scheduler, behind one call counter. */
  class Outside {
    const env: Env
    var clock: nat
    ghost var history: History

    constructor (env: Env)
      ensures this.env == env && clock == 0 && history == []
    {
      this.env := env;
      clock := 0;
      history := [];
    }

    method GetLatestBlock() returns (r: Reply<uint64>)
      modifies this
      ensures r == env.latest(old(clock)) && clock == old(clock) + 1 && history == old(history)
    {
      r := env.latest(clock);
      clock := clock + 1;
    }

    method GetBlockByNumber(n: uint64) returns (r: Reply<Block>)
      modifies this
      ensures r == env.block(old(clock), n) && clock == old(clock) + 1 && history == old(history)
    {
      r := env.block(clock, n);
      clock := clock + 1;
    }

    method DecodeLog(log: Log) returns (r: Reply<Decoded>)
      modifies this
      ensures r == env.decode(old(clock), log) && clock == old(clock) + 1 && history == old(history)
    {
      r := env.decode(clock, log);
      clock := clock + 1;
    }

    method HandleBlock(b: Block) returns (ok: bool)
      modifies this
      ensures ok == env.acceptsBlock(old(clock), b) && clock == old(clock) + 1
      ensures history == old(history) + [Delivered(b, clock)]
    {
      ok := env.acceptsBlock(clock, b);
      clock := clock + 1;
      history := history + [Delivered(b, clock)];
    }

    method HandleLog(b: Block, log: Log, d: Decoded) returns (ok: bool)
      modifies this
      ensures ok == env.acceptsLog(old(clock), b, log, d) && clock == old(clock) + 1
      ensures history == old(history) + [LogOffered(b, log, d, ok, clock)]
    {
      ok := env.acceptsLog(clock, b, log, d);
      clock := clock + 1;
      history := history + [LogOffered(b, log, d, ok, clock)];
    }

    method HandleReorgBlock(n: uint64)
      modifies this
      ensures clock == old(clock) + 1 && history == old(history) + [Retracted(n)]
    {
      clock := clock + 1;
      history := history + [Retracted(n)];
    }

    /** Record how the poller's chain moved. */
    ghost method Record(e: Event)
      modifies this`history
      ensures history == old(history) + [e]
    {
      history := history + [e];
    }
  }

  lemma WalkStopsShort(cfg: Config, env: Env, w: World, last: Types.Record, n: uint64, tip: uint64)
    requires n <= tip < MAX_UINT64 && env.block(w.clock, n).Err?
    ensures Forward(cfg, env, w, last, n, tip) == Ticked(Tock(w), FetchFailed(n))
  {
  }

  /** One step of the walk, once the block is there. */
  lemma WalkUnfolds(cfg: Config, env: Env, w: World, last: Types.Record, n: uint64, tip: uint64, b: Block)
    requires n <= tip < MAX_UINT64 && env.block(w.clock, n) == Ok(b)
    ensures b.parentHash != last.hash ==>
              Forward(cfg, env, w, last, n, tip).world == Reconcile(cfg, env, Tock(w), b.number).world
    ensures b.parentHash == last.hash ==>
              var p := ProcessBlock(cfg, env, Note(Tock(Tock(w)), Delivered(b, w.clock + 2)), b);
              Forward(cfg, env, w, last, n, tip) ==
              if p.reply.Err? then Ticked(p.world, BlockFailed(n)) else Forward(cfg, env, p.world, p.reply.value, n + 1, tip)
  {
  }

  class EVMChainPoller {
    const config: Config
    const store: InMemoryStore
    const outside: Outside

    ghost predicate Valid()
      reads this, store
    {
      store.Valid()
    }

    ghost function Now(): World
      reads this, store, outside
    {
      World(store.model, outside.history, outside.clock)
    }

    constructor (config: Config, store: InMemoryStore, outside: Outside)
      requires store.Valid()
      ensures this.config == WithDefaults(config) && this.store == store && this.outside == outside && Valid()
    {
      this.config := WithDefaults(config);
      this.store := store;
      this.outside := outside;
    }

    method Start() returns (r: Reply<()>)
      requires Valid()
      modifies store, outside
      ensures Valid()
      ensures Now() == PollerSpec.Start(config, outside.env, old(Now())).world
      ensures r == PollerSpec.Start(config, outside.env, old(Now())).reply
    {
      hide InMemoryStore.Valid;
      var last := store.GetLastProcessedBlock(config.chainId);
      if last.Err? {
        var startBlockNum := config.genesis;
        if !(config.genesis > 0) {
          var latest := outside.GetLatestBlock();
          if latest.Err? {
            return Err(latest.error);
          }
          startBlockNum := latest.value;
        }
        var lastCanonBlock := outside.GetBlockByNumber(startBlockNum);
        if lastCanonBlock.Err? {
          return Err(lastCanonBlock.error);
        }
        var record := RecordFor(config.chainId, lastCanonBlock.value);
        var saved := store.SaveBlock(Some(record));
        if saved.Err? {
          return saved;
        }
        outside.Record(Baselined(record));
      }
      return Ok(());
    }

    /** The logs of block n; the call counter moves past the registry read and one query per batch. */
    method FetchLogsForBlock(n: uint64) returns (r: Reply<seq<Log>>)
      modifies outside`clock
      ensures r == FetchLogs(outside.env, old(outside.clock), config, n)
      ensures outside.clock == FetchEnd(outside.env, old(outside.clock), config)
    {
      r := FetchLogsForInterestingContracts(outside.env, outside.clock, config, n);
      outside.clock := FetchEnd(outside.env, outside.clock, config);
    }

    method ProcessBlockLogs(b: Block) returns (r: Reply<Types.Record>)
      requires Valid()
      modifies store, outside
      ensures Valid()
      ensures Now() == ProcessBlock(config, outside.env, old(Now()), b).world
      ensures r == ProcessBlock(config, outside.env, old(Now()), b).reply
    {
      hide InMemoryStore.Valid, FetchLogs, OfferLogs, Commit;
      var logs := FetchLogsForBlock(b.number);
      if logs.Err? {
        return Err(logs.error);
      }
      ghost var w := Now();
      assert w == old(Now()).(clock := FetchEnd(outside.env, old(outside.clock), config));
      var ok := HandleLogs(b.(chainId := config.chainId), logs.value);
      if !ok {
        return Err(CallFailed);
      }
      var blockRecord := RecordFor(config.chainId, b);
      SaveAndPrune(blockRecord);
      return Ok(blockRecord);
    }

    /** The loop over the logs. */
    method HandleLogs(block: Block, logs: seq<Log>) returns (ok: bool)
      requires Valid()
      modifies outside
      ensures Valid()
      ensures Now() == OfferLogs(outside.env, old(Now()), block, logs).world
      ensures ok == OfferLogs(outside.env, old(Now()), block, logs).ok
    {
      hide InMemoryStore.Valid;
      ghost var target := OfferLogs(outside.env, Now(), block, logs);
      for i := 0 to |logs|
        invariant Valid() && store.model == old(store.model)
        invariant OfferLogs(outside.env, Now(), block, logs[i..]) == target
      {
        assert logs[i..][0] == logs[i] && logs[i..][1..] == logs[i + 1..];
        ghost var w := Now();
        var decoded := outside.DecodeLog(logs[i]);
        assert Now() == Tock(w);
        if decoded.Err? {
          return false;
        }
        var accepted := outside.HandleLog(block, logs[i], decoded.value);
        assert Now() == Note(Tock(Tock(w)), LogOffered(block, logs[i], decoded.value, accepted, w.clock + 2));
        if !accepted {
          return false;
        }
      }
      assert logs[|logs|..] == [];
      return true;
    }

    /** A save error is ignored, and so is a failure to prune. */
    method SaveAndPrune(blockRecord: Types.Record)
      requires Valid()
      modifies store, outside`history
      ensures Valid()
      ensures Now() == Commit(config, old(Now()), blockRecord)
    {
      hide InMemoryStore.Valid;
      var saved := store.SaveBlock(Some(blockRecord));
      if saved.Ok? {
        outside.Record(Committed(blockRecord));
      }
      if config.historySize > 0 && blockRecord.number > config.historySize {
        var _ := store.DeleteBlock(config.chainId, blockRecord.number - config.historySize);
      }
    }

    method FindOrphanedBlocks(startBlockNumber: uint64) returns (r: Reply<seq<Types.Record>>)
      requires Valid()
      modifies store, outside
      ensures Valid()
      ensures var s := FindOrphans(config, outside.env, old(Now()), startBlockNumber);
              && Now() == s.world
              && r == if s.reply.Ok? then Ok(s.orphans) else Err(s.reply.error)
    {
      hide InMemoryStore.Valid;
      var parentBlockRecord: Option<Types.Record> := None;
      var orphanedBlocks: seq<Types.Record> := [];
      var parentBlockNum := Sub64(startBlockNumber, 1);
      while Sub64(startBlockNumber, parentBlockNum) <= AsUint64(config.maxReorgDepth) && parentBlockNum > 0
        invariant Valid() && store.model == old(store.model)
        invariant parentBlockRecord == if orphanedBlocks == [] then None else Some(Last(orphanedBlocks))
        invariant SearchFrom(config, outside.env, Now(), startBlockNumber, parentBlockNum, orphanedBlocks) ==
                  FindOrphans(config, outside.env, old(Now()), startBlockNumber)
        decreases parentBlockNum
      {
        ghost var w := Now();
        var canon := outside.GetBlockByNumber(parentBlockNum);
        assert Now() == Tock(w);
        if canon.Err? {
          return Err(canon.error);
        }
        var stored := store.GetBlock(config.chainId, parentBlockNum);
        ghost var missing := false;
        if stored.Err? {
          if stored.error != NotFound {
            return Err(stored.error);
          }
          missing := true;
          parentBlockRecord := Some(RecordFor(canon.value.chainId, canon.value));
          var _ := store.SaveBlock(parentBlockRecord);
        } else {
          parentBlockRecord := Some(stored.value);
        }
        if canon.value.hash != parentBlockRecord.value.hash {
          orphanedBlocks := orphanedBlocks + [parentBlockRecord.value];
          parentBlockNum := parentBlockNum - 1;
          continue;
        }
        var saved := store.SaveBlock(parentBlockRecord);
        ghost var settled := parentBlockRecord.value;
        outside.Record(if settled.chainId != config.chainId then Misfiled(settled)
                       else if missing then Baselined(settled) else Rewound(settled));
        Store.SavedTwice(w.store, settled);
        assert Now() == SettleOn(config, Tock(w), settled, if missing then Baselined(settled) else Rewound(settled));
        return match saved case Ok(_) => Ok(orphanedBlocks) case Err(e) => Err(e);
      }
      ghost var w := Now();
      assert FindOrphans(config, outside.env, old(Now()), startBlockNumber) == Exhaust(config, w, orphanedBlocks, parentBlockNum);
      var saved := store.SaveBlock(parentBlockRecord);
      if saved.Err? {
        assert Now() == w;
        return Err(saved.error);
      }
      ghost var deepest := parentBlockRecord.value;
      outside.Record(if deepest.chainId == config.chainId then Abandoned(deepest) else Misfiled(deepest));
      assert Now() == SettleOn(config, w, deepest, Abandoned(deepest));
      return Ok(orphanedBlocks);
    }

    method ReconcileReorg(start: uint64) returns (r: Reply<()>)
      requires Valid()
      modifies store, outside
      ensures Valid()
      ensures Now() == Reconcile(config, outside.env, old(Now()), start).world
      ensures r == Reconcile(config, outside.env, old(Now()), start).reply
    {
      var orphanedBlocks := FindOrphanedBlocks(start);
      if orphanedBlocks.Err? {
        return Err(orphanedBlocks.error);
      }
      var orphans := orphanedBlocks.value;
      if |orphans| == 0 {
        return Err(NoOrphans);
      }
      r := RetractOrphans(orphans);
    }

    /** The loop over the orphans: tell the handler, then delete the record. */
    method RetractOrphans(orphans: seq<Types.Record>) returns (r: Reply<()>)
      requires Valid()
      modifies store, outside
      ensures Valid()
      ensures Now() == RetractAll(old(Now()), orphans).world
      ensures r == RetractAll(old(Now()), orphans).reply
    {
      ghost var target := RetractAll(Now(), orphans);
      for i := 0 to |orphans|
        invariant Valid()
        invariant RetractAll(Now(), orphans[i..]) == target
      {
        assert orphans[i..][0] == orphans[i] && orphans[i..][1..] == orphans[i + 1..];
        ghost var w := Now();
        outside.HandleReorgBlock(orphans[i].number);
        assert Now() == Note(Tock(w), Retracted(orphans[i].number));
        var deleted := store.DeleteBlock(orphans[i].chainId, orphans[i].number);
        if deleted.Err? && deleted.error != NotFound {
          return Err(deleted.error);
        }
        assert Now() == Note(Tock(w), Retracted(orphans[i].number)).(store :=
            Store.Deleted(w.store, orphans[i].chainId, orphans[i].number));
      }
      assert orphans[|orphans|..] == [];
      return Ok(());
    }

    /** The numbers to fetch; the loop that lists them ends for every tip below the largest number. */
    method BlocksToFetch(from: uint64, tip: uint64) returns (ns: seq<uint64>)
      requires from < tip < MAX_UINT64
      ensures ns == seq(tip - from, i requires 0 <= i < tip - from => from + 1 + i)
    {
      ns := [];
      var i: uint64 := from + 1;
      while i <= tip
        invariant from + 1 <= i <= tip + 1
        invariant |ns| == i - (from + 1) && forall j :: 0 <= j < |ns| ==> ns[j] == from + 1 + j
        decreases tip + 1 - i
      {
        ns := ns + [i];
        i := i + 1;
      }
    }

    method ProcessNextBlock()
      requires Valid()
      modifies store, outside
      ensures Valid()
      ensures Now() == Tick(config, outside.env, old(Now())).world
    {
      hide ProcessBlock, Reconcile, InMemoryStore.Valid;
      ghost var w := Now();
      var last := store.GetLastProcessedBlock(config.chainId);
      if last.Err? {
        return;
      }
      var latestBlockRecord := last.value;
      var latest := outside.GetLatestBlock();
      assert Now() == Tock(w);
      if latest.Err? {
        assert Tick(config, outside.env, w) == Ticked(Tock(w), NoTip);
        return;
      }
      var tip := latest.value;
      if tip <= latestBlockRecord.number {
        assert Tick(config, outside.env, w) == Ticked(Tock(w), Idle);
        return;
      }
      if tip == MAX_UINT64 {
        // the range loop never ends: nothing further happens
        assert Tick(config, outside.env, w) == Ticked(Tock(w), Hung);
        return;
      }
      assert Tick(config, outside.env, w) ==
             Forward(config, outside.env, Tock(w), latestBlockRecord, latestBlockRecord.number + 1, tip);
      FetchRange(latestBlockRecord, tip);
    }

    /** The loop over the block numbers above `first`. */
    method FetchRange(first: Types.Record, tip: uint64)
      requires Valid() && first.number < tip < MAX_UINT64
      modifies store, outside
      ensures Valid()
      ensures Now() == Forward(config, outside.env, old(Now()), first, first.number + 1, tip).world
    {
      hide ProcessBlock, Reconcile, InMemoryStore.Valid;
      var blocksToFetch := BlocksToFetch(first.number, tip);
      var latestBlockRecord := first;
      ghost var target := Forward(config, outside.env, Now(), first, first.number + 1, tip);
      for i := 0 to |blocksToFetch|
        invariant Valid()
        invariant Forward(config, outside.env, Now(), latestBlockRecord, first.number + 1 + i, tip) == target
      {
        var next := ProcessOne(latestBlockRecord, blocksToFetch[i], tip);
        if next.None? {
          return;
        }
        latestBlockRecord := next.value;
      }
    }

    /** The body of the loop over block numbers: None means the tick is over. */
    method ProcessOne(latestBlockRecord: Types.Record, blockNum: uint64, ghost tip: uint64)
      returns (next: Option<Types.Record>)
      requires Valid() && blockNum <= tip < MAX_UINT64
      modifies store, outside
      ensures Valid()
      ensures next.None? ==>
                Now() == Forward(config, outside.env, old(Now()), latestBlockRecord, blockNum, tip).world
      ensures next.Some? ==>
                Forward(config, outside.env, Now(), next.value, blockNum + 1, tip) ==
                Forward(config, outside.env, old(Now()), latestBlockRecord, blockNum, tip)
    {
      hide Forward, ProcessBlock, Reconcile, InMemoryStore.Valid;
      ghost var w := Now();
      var newCanonBlock := outside.GetBlockByNumber(blockNum);
      if newCanonBlock.Err? {
        WalkStopsShort(config, outside.env, w, latestBlockRecord, blockNum, tip);
        return None;
      }
      var b := newCanonBlock.value;
      ghost var fetched := Now();
      assert fetched == Tock(w);
      if b.parentHash != latestBlockRecord.hash {
        var _ := ReconcileReorg(b.number);
        WalkUnfolds(config, outside.env, w, latestBlockRecord, blockNum, tip, b);
        return None;
      }
      var _ := outside.HandleBlock(b);
      ghost var delivered := Now();
      assert delivered == Note(Tock(Tock(w)), Delivered(b, w.clock + 2));
      var processed := ProcessBlockLogs(b);
      WalkUnfolds(config, outside.env, w, latestBlockRecord, blockNum, tip, b);
      if processed.Err? {
        return None;
      }
      return Some(processed.value);
    }
  }
}
