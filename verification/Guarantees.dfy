/** What every run promises, said without reference to the invariant. */
module Guarantees {
  import opened Types
  import opened Environment
  import opened History
  import opened LogFetch
  import opened PollerSpec
  import opened Offers
  import opened Invariant
  import opened Reorg
  import opened Runs
  import Store

  /** w is the state after a successful Start on a store this chain has not used, followed by the actions. */
  ghost predicate Reached(cfg: Config, env: Env, w0: World, acts: seq<Action>, w: World) {
    && Fresh(cfg, w0)
    && Honest(env, cfg.chainId)
    && Start(cfg, env, w0).reply.Ok? && !StartsOnNull(cfg, env, w0)
    && OthersElsewhere(cfg, acts)
    && w == Run(cfg, env, Start(cfg, env, w0).world, acts)
  }

  /** In every reachable state the poller is healthy if its cursor resolves, and stranded if not. */
  lemma CursorTells(cfg: Config, env: Env, w0: World, acts: seq<Action>, w: World)
    requires Reached(cfg, env, w0, acts, w)
    ensures if Store.GetLast(w.store, cfg.chainId).Ok? then Healthy(cfg, env, w) else Stranded(cfg, env, w)
  {
    hide Start, Run;
    StartIsHealthy(cfg, env, w0);
    RunIsSafe(cfg, env, Start(cfg, env, w0).world, acts);
    if Healthy(cfg, env, w) {
      CursorResolves(cfg, env, w);
    }
  }

  /**
   The store in every reachable state whose cursor resolves: above block 0 the stored numbers are exactly those
   from max(baseline, highest - historySize + 1) to the cursor (from the baseline on when pruning is off), and
   each stored record points back to the stored record before it. A baseline 0 is never pruned.
   */
  lemma StoreIsOneChain(cfg: Config, env: Env, w0: World, acts: seq<Action>, w: World)
    requires Reached(cfg, env, w0, acts, w)
    requires Store.GetLast(w.store, cfg.chainId).Ok?
    ensures Chain(w.history) != []
    ensures var base := Chain(w.history)[0].number;
            var low := if cfg.historySize > 0 && High(w.history) - cfg.historySize + 1 > base
                       then High(w.history) - cfg.historySize + 1 else base;
            var cursor := Store.GetLast(w.store, cfg.chainId).value.number;
            && base <= low <= cursor <= High(w.history)
            && (forall n: uint64 | n >= 1 :: Store.Has(w.store, cfg.chainId, n) <==> low <= n <= cursor)
            && (forall n: uint64 | n >= 2 && Store.Has(w.store, cfg.chainId, n) && Store.Has(w.store, cfg.chainId, n - 1) ::
                  Store.At(w.store, cfg.chainId, n).number == n
                  && Store.At(w.store, cfg.chainId, n).parentHash == Store.At(w.store, cfg.chainId, n - 1).hash)
            && (base == 0 ==> Store.Has(w.store, cfg.chainId, 0) && Store.At(w.store, cfg.chainId, 0) == Chain(w.history)[0])
  {
    hide Reached;
    CursorTells(cfg, env, w0, acts, w);
    CursorResolves(cfg, env, w);
    var c := Chain(w.history);
    forall n: uint64 | n >= 2 && Store.Has(w.store, cfg.chainId, n) && Store.Has(w.store, cfg.chainId, n - 1)
      ensures Store.At(w.store, cfg.chainId, n).number == n
      ensures Store.At(w.store, cfg.chainId, n).parentHash == Store.At(w.store, cfg.chainId, n - 1).hash
    {
      var i := n - c[0].number;
      assert c[i].number == n && c[i].parentHash == c[i - 1].hash;
    }
  }

  /**
   The handler in every reachable state whose cursor resolves: replaying its calls, with HandleBlock as overwrite
   and HandleReorgBlock as erase, gives between the baseline and the cursor exactly the committed chain, which is
   hash-linked and ends at the cursor; and every number above the cursor that was ever committed has been
   retracted since its last commit.
   */
  lemma HandlerHoldsCommittedChain(cfg: Config, env: Env, w0: World, acts: seq<Action>, w: World)
    requires Reached(cfg, env, w0, acts, w)
    requires Store.GetLast(w.store, cfg.chainId).Ok?
    ensures Chain(w.history) != [] && Linked(Chain(w.history), cfg.chainId)
    ensures Last(Chain(w.history)) == Store.GetLast(w.store, cfg.chainId).value
    ensures HoldsChain(cfg.chainId, Chain(w.history), Replay(w.history))
    ensures forall n :: n in Owned(w.history) ==> n <= Last(Chain(w.history)).number
  {
    hide Reached, Healthy, Stranded, HoldsChain, Linked;
    CursorTells(cfg, env, w0, acts, w);
    CursorResolves(cfg, env, w);
    HealthyChain(cfg, env, w);
    HealthyView(cfg, env, w);
  }

  /**
   Over every run, at every call: a block is delivered only as the client returned it right before, and only as the
   successor of the committed chain's last record, by number and by hash; and a number is retracted only while the handler holds it, unless it is a baseline
   given up in a reorg that found no stored ancestor.
   */
  lemma DeliveriesAndRetractionsAreRight(cfg: Config, env: Env, w0: World, acts: seq<Action>, w: World, i: nat)
    requires Reached(cfg, env, w0, acts, w) && i < |w.history|
    ensures w.history[i].Delivered? ==>
              && w.history[i].at >= 2
              && env.block(w.history[i].at - 2, w.history[i].block.number) == Ok(w.history[i].block)
              && Chain(w.history[..i]) != []
              && w.history[i].block.number == Last(Chain(w.history[..i])).number + 1
              && w.history[i].block.parentHash == Last(Chain(w.history[..i])).hash
    ensures w.history[i].Retracted? ==>
              || w.history[i].number in Replay(w.history[..i])
              || GivenUp(w.history[..i]) == Some(w.history[i].number)
  {
    hide Reached;
    CursorTells(cfg, env, w0, acts, w);
    assert EventOk(cfg, env, w.history[..i], w.history[i]);
  }

  // ---------------------------------------------------------------- retracting what was never delivered

  /**
   Every record down to the baseline, which the handler does not hold, is within depth, stored and contradicted; and
   the client answers for the number below, if the search still gets there.
   */
  ghost predicate LosesBaseline(cfg: Config, env: Env, w: World, start: uint64)
    requires Chain(w.history) != [] && Chain(w.history)[0].number < start
  {
    var base := Chain(w.history)[0].number;
    && base >= 1
    && base !in Replay(w.history)
    && Scanned(cfg, env, w, start, start - 1, base - 1)
    && (InDepth(cfg, start, base - 1) ==> env.block(AskedAt(w, start - 1, base - 1), base - 1).Ok?)
  }

  lemma {:induction false} RetractionsMembers(os: seq<Record>, id: ChainId, hi: uint64, lo: uint64, n: uint64)
    requires Descending(os, id, hi, lo)
    ensures Retracted(n) in Retractions(os) <==> lo < n <= hi
    decreases |os|
  {
    if os != [] {
      RetractionsMembers(os[1..], id, hi - 1, lo, n);
    }
  }

  /** A search that goes down to the baseline ends right below it. */
  lemma StopsBelowBaseline(cfg: Config, env: Env, w: World, start: uint64, k: uint64, s: Search, base: uint64)
    requires Healthy(cfg, env, w) && k == Last(Chain(w.history)).number && start == k + 1
    requires Shape(cfg, env, w, start, k, [], s) && 1 <= base == Chain(w.history)[0].number
    ensures s.stop < base <==> Scanned(cfg, env, w, start, k, base - 1)
    ensures s.stop < base ==> s.stop == base - 1
  {
    hide HistoryOk, HoldsChain;
    assert base > 1 ==> !Store.Has(w.store, cfg.chainId, base - 1);
  }

  lemma FailsIff(cfg: Config, env: Env, w: World, start: uint64, k: uint64, s: Search)
    requires Shape(cfg, env, w, start, k, [], s)
    ensures s.stop <= k
    ensures s.end.Failed? <==> InDepth(cfg, start, s.stop) && env.block(AskedAt(w, k, s.stop), s.stop).Err?
  {
  }

  /** What a search itself adds to the history: at most one move, and no retraction. */
  lemma SearchMoves(cfg: Config, env: Env, w: World, start: uint64, k: uint64, s: Search) returns (moves: History)
    requires !w.store.closed && Shape(cfg, env, w, start, k, [], s)
    ensures s.world.history == w.history + moves && !s.world.store.closed
    ensures forall e :: e in moves ==> !e.Retracted?
    ensures s.orphans != [] ==> (s.reply.Ok? <==> !s.end.Failed?)
  {
    hide Down, Scanned;
    moves := s.world.history[|w.history|..];
  }

  /** The numbers a reorg retracts are those above the search's stop, if it got that far. */
  lemma RetractedNumbers(cfg: Config, env: Env, w: World, start: uint64, k: uint64, s: Search, n: uint64)
    requires Healthy(cfg, env, w) && k == Last(Chain(w.history)).number && start == k + 1
    requires Shape(cfg, env, w, start, k, [], s)
    ensures w.history <= Finish(s).world.history
    ensures Retracted(n) in Finish(s).world.history[|w.history|..] <==> !s.end.Failed? && s.stop < n <= k
  {
    hide Healthy, Shape, Descending, FindOrphans, RetractAll, Retractions;
    HealthyChain(cfg, env, w);
    OrphanList(cfg, env, w, start, k, s);
    DescendingLength(s.orphans, cfg.chainId, k, s.stop);
    var moves := SearchMoves(cfg, env, w, start, k, s);
    if s.reply.Ok? && s.orphans != [] {
      RetractAllStore(s.world, s.orphans, cfg.chainId, k, s.stop);
      RetractionsMembers(s.orphans, cfg.chainId, k, s.stop, n);
      assert Finish(s).world.history[|w.history|..] == moves + Retractions(s.orphans);
    }
  }

  /**
   A reorg retracts a number the handler does not hold if and only if it loses the baseline; that number is then the
   baseline and no other.
   */
  lemma UndeliveredIsRetractedIff(cfg: Config, env: Env, w: World, start: uint64)
    requires Healthy(cfg, env, w) && start == Last(Chain(w.history)).number + 1
    ensures Chain(w.history)[0].number < start
    ensures var r, base := Reconcile(cfg, env, w, start), Chain(w.history)[0].number;
            && w.history <= r.world.history
            && (forall n | Retracted(n) in r.world.history[|w.history|..] && n !in Replay(w.history) :: n == base)
            && (Retracted(base) in r.world.history[|w.history|..] && base !in Replay(w.history) <==>
                LosesBaseline(cfg, env, w, start))
  {
    hide Healthy, Shape, Scanned;
    HealthyChain(cfg, env, w);
    var k: uint64, base := start - 1, Chain(w.history)[0].number;
    SearchShape(cfg, env, w, start, k, []);
    var s := FindOrphans(cfg, env, w, start);
    var r := Finish(s);
    assert r == Reconcile(cfg, env, w, start);
    RetractedNumbers(cfg, env, w, start, k, s, base);
    forall n: uint64 | Retracted(n) in r.world.history[|w.history|..] && n !in Replay(w.history) ensures n == base {
      RetractedNumbers(cfg, env, w, start, k, s, n);
      OrphanList(cfg, env, w, start, k, s);
      StoredWasDelivered(cfg, env, w, n);
    }
    if base >= 1 {
      StopsBelowBaseline(cfg, env, w, start, k, s, base);
      FailsIff(cfg, env, w, start, k, s);
    }
  }

  function OfferedLogs(es: History): seq<Log> {
    if es == [] then [] else (if es[0].LogOffered? then [es[0].log] else []) + OfferedLogs(es[1..])
  }

  lemma {:induction false} AcceptedLogs(es: History, logs: seq<Log>)
    requires |es| == |logs| && forall i :: 0 <= i < |es| ==> es[i].LogOffered? && es[i].log == logs[i]
    ensures OfferedLogs(es) == logs
  {
    if es != [] {
      AcceptedLogs(es[1..], logs[1..]);
    }
  }

  /** The log at position `log` was handed over for the block delivered at position `at`, as it was decoded. */
  ghost predicate RightOffer(cfg: Config, env: Env, h: History, at: nat, log: nat) {
    && at < log < |h| && h[at].Delivered? && h[log].LogOffered?
    && FetchLogs(env, h[at].at, cfg, h[at].block.number).Ok?
    && var logs, j := FetchLogs(env, h[at].at, cfg, h[at].block.number).value, log - at - 1;
       && j < |logs| && h[log].log == logs[j]
       && h[log].block == h[at].block.(chainId := cfg.chainId)
       && h[log].at == FetchEnd(env, h[at].at, cfg) + 2 * j + 2
       && env.decode(h[log].at - 2, h[log].log) == Ok(h[log].decoded)
       && h[log].accepted == env.acceptsLog(h[log].at - 1, h[log].block, h[log].log, h[log].decoded)
  }

  /**
   Every log handed over, in every run, is the next one of those fetched for the block delivered last, comes with that
   block under the configured chain id and with what the parser made of that very log right before, and all logs before
   it were accepted.
   */
  lemma OffersAreRight(cfg: Config, env: Env, w0: World, acts: seq<Action>, w: World, i: nat) returns (at: nat)
    requires Reached(cfg, env, w0, acts, w) && i < |w.history| && w.history[i].LogOffered?
    ensures RightOffer(cfg, env, w.history, at, i)
    ensures forall j :: at < j < i ==> w.history[j].LogOffered? && w.history[j].accepted
  {
    hide Reached, FetchLogs, RightOffer, OffersFrom, HistoryOk, StoreOk, HoldsChain;
    CursorTells(cfg, env, w0, acts, w);
    at := OfferOrigin(cfg, env, w.history, i);
  }

  /** Offers for the block delivered at `at` are right offers, and all before the last are accepted. */
  lemma OffersBecomeRight(cfg: Config, env: Env, h: History, at: nat, es: History)
    requires at < |h| && h[at].Delivered? && at + |es| < |h| && h[at + 1..at + 1 + |es|] == es
    requires FetchLogs(env, h[at].at, cfg, h[at].block.number).Ok?
    requires OffersFrom(env, FetchEnd(env, h[at].at, cfg), h[at].block.(chainId := cfg.chainId),
                        FetchLogs(env, h[at].at, cfg, h[at].block.number).value, es)
    ensures forall j :: at < j <= at + |es| ==> RightOffer(cfg, env, h, at, j)
    ensures forall j :: at < j < at + |es| ==> h[j].LogOffered? && h[j].accepted
  {
    hide FetchLogs, FetchEnd;
    var logs := FetchLogs(env, h[at].at, cfg, h[at].block.number).value;
    forall j | at < j <= at + |es| ensures RightOffer(cfg, env, h, at, j) && h[j] == es[j - at - 1] {
      assert h[j] == h[at + 1..at + 1 + |es|][j - at - 1];
      assert OfferAt(env, FetchEnd(env, h[at].at, cfg), h[at].block.(chainId := cfg.chainId), logs, j - at - 1, es[j - at - 1]);
    }
  }

  lemma OfferOrigin(cfg: Config, env: Env, h: History, i: nat) returns (at: nat)
    requires HistoryOk(cfg, env, h) && i < |h| && h[i].LogOffered?
    ensures RightOffer(cfg, env, h, at, i)
    ensures forall j :: at < j < i ==> h[j].LogOffered? && h[j].accepted
  {
    hide FetchLogs, FetchEnd, OffersFrom, RightOffer, Chain, Replay, GivenUp, Offers.AllAccepted;
    assert EventOk(cfg, env, h[..i], h[i]);
    var b, t;
    at, b, t :| JustOffered(cfg, env, h[..i], h[i], at, b, t);
    var es := h[..i][at + 1..] + [h[i]];
    assert h[at + 1..at + 1 + |es|] == es;
    OffersBecomeRight(cfg, env, h, at, es);
  }

  lemma CommitOrigin(cfg: Config, env: Env, h: History, i: nat) returns (at: nat)
    requires HistoryOk(cfg, env, h) && i < |h| && h[i].Committed?
    ensures at < i && h[at].Delivered? && SameContent(h[i].record, h[at].block, cfg.chainId)
    ensures forall j :: at < j < i ==> RightOffer(cfg, env, h, at, j) && h[j].LogOffered? && h[j].accepted
    ensures FetchLogs(env, h[at].at, cfg, h[i].record.number) == Ok(OfferedLogs(h[at + 1..i]))
  {
    hide FetchLogs, FetchEnd, RightOffer;
    assert EventOk(cfg, env, h[..i], h[i]);
    var b, t;
    at, b, t :| JustProcessed(cfg, env, h[..i], h[i].record, at, b, t);
    var es := h[..i][at + 1..];
    assert h[at + 1..at + 1 + |es|] == es == h[at + 1..i];
    OffersBecomeRight(cfg, env, h, at, es);
    AcceptedLogs(es, FetchLogs(env, t, cfg, h[i].record.number).value);
    forall j | at < j < i ensures h[j].LogOffered? && h[j].accepted {
      assert h[j] == es[j - at - 1];
    }
  }

  /**
   Every commit, in every run, follows the delivery of that very block, then a log fetch that succeeded, then the
   acceptance of all it returned, each as the parser decoded it, in order and with nothing in between: a block with a
   log that cannot be decoded or is refused is not committed. Whatever logs the block had during that one fetch, the
   accepted ones are, as a multiset, those from the contracts listed then, each once; before and after, the client may
   have said anything else.
   */
  lemma CommitsAreComplete(cfg: Config, env: Env, w0: World, acts: seq<Action>, w: World, i: nat) returns (at: nat)
    requires Reached(cfg, env, w0, acts, w) && i < |w.history| && w.history[i].Committed?
    ensures at < i
    ensures w.history[at].Delivered? && SameContent(w.history[i].record, w.history[at].block, cfg.chainId)
    ensures forall j :: at < j < i ==> RightOffer(cfg, env, w.history, at, j) && w.history[j].accepted
    ensures FetchLogs(env, w.history[at].at, cfg, w.history[i].record.number) == Ok(OfferedLogs(w.history[at + 1..i]))
    ensures var t, n := w.history[at].at, w.history[i].record.number;
            forall blockLogs | LogsHonest(env, t, |BatchesFor(env, t, cfg)|, n, blockLogs) && AllLower(env.registry(t)) ::
              multiset(OfferedLogs(w.history[at + 1..i])) ==
              multiset(Wanted(blockLogs, Interesting(cfg.contracts, env.registry(t))))
  {
    hide Reached, FetchLogs, Wanted, Interesting, LogsHonest, RightOffer, HistoryOk, StoreOk, HoldsChain, OfferedLogs;
    CursorTells(cfg, env, w0, acts, w);
    at := CommitOrigin(cfg, env, w.history, i);
    var t, n := w.history[at].at, w.history[i].record.number;
    forall blockLogs | LogsHonest(env, t, |BatchesFor(env, t, cfg)|, n, blockLogs) && AllLower(env.registry(t))
      ensures multiset(OfferedLogs(w.history[at + 1..i])) ==
              multiset(Wanted(blockLogs, Interesting(cfg.contracts, env.registry(t))))
    {
      FetchRefinesOneQuery(env, t, cfg, n, blockLogs);
    }
  }

  // ---------------------------------------------------------------- what the records contain

  /** Every record of the committed chain was a baseline or was committed. */
  lemma {:induction false} ChainOrigin(h: History, j: nat) returns (i: nat)
    requires j < |Chain(h)|
    ensures i < |h| && (h[i] == Baselined(Chain(h)[j]) || h[i] == Committed(Chain(h)[j]))
    decreases |h|
  {
    var init, e := h[..|h| - 1], Last(h);
    i := |h| - 1;
    if !((e.Baselined? || e.Committed?) && j == |Chain(h)| - 1) {
      i := ChainOrigin(init, j);
    }
  }

  /** A record of the chain has the content of a block the client returned. */
  lemma RecordsWereFetched(cfg: Config, env: Env, h: History, j: nat) returns (t: nat, n: uint64)
    requires HistoryOk(cfg, env, h) && j < |Chain(h)|
    ensures WasFetched(env, Chain(h)[j], cfg.chainId, t, n)
  {
    hide HistoryOk, Chain, FetchLogs, RightOffer;
    var i := ChainOrigin(h, j);
    if h[i].Baselined? {
      t, n := BaselineWasFetched(cfg, env, h, i);
    } else {
      var at := CommitOrigin(cfg, env, h, i);
      DeliveryWasFetched(cfg, env, h, at);
      t, n := h[at].at - 2, h[at].block.number;
    }
  }

  lemma BaselineWasFetched(cfg: Config, env: Env, h: History, i: nat) returns (t: nat, n: uint64)
    requires HistoryOk(cfg, env, h) && i < |h| && h[i].Baselined?
    ensures WasFetched(env, h[i].record, cfg.chainId, t, n)
  {
    assert EventOk(cfg, env, h[..i], h[i]);
    t, n :| WasFetched(env, h[i].record, cfg.chainId, t, n);
  }

  lemma DeliveryWasFetched(cfg: Config, env: Env, h: History, i: nat)
    requires HistoryOk(cfg, env, h) && i < |h| && h[i].Delivered?
    ensures h[i].at >= 2 && env.block(h[i].at - 2, h[i].block.number) == Ok(h[i].block)
  {
    assert EventOk(cfg, env, h[..i], h[i]);
  }

  /**
   What the store holds, field by field, in every reachable state whose cursor resolves: a record from block 1 up has the
   number, hash, parent hash and timestamp of a block the client returned for its number, and the configured chain id;
   above the baseline it is also the block the handler holds.
   */
  lemma RecordsAreBlocks(cfg: Config, env: Env, w0: World, acts: seq<Action>, w: World, n: uint64) returns (t: nat)
    requires Reached(cfg, env, w0, acts, w) && Store.GetLast(w.store, cfg.chainId).Ok?
    requires n >= 1 && Store.Has(w.store, cfg.chainId, n)
    ensures env.block(t, n).Ok? && SameContent(Store.At(w.store, cfg.chainId, n), env.block(t, n).value, cfg.chainId)
    ensures Chain(w.history) != []
    ensures n > Chain(w.history)[0].number ==>
              && n in Replay(w.history)
              && SameContent(Store.At(w.store, cfg.chainId, n), Replay(w.history)[n], cfg.chainId)
  {
    hide Reached, HistoryOk;
    CursorTells(cfg, env, w0, acts, w);
    CursorResolves(cfg, env, w);
    var c := Chain(w.history);
    var j := n - c[0].number;
    assert c[j].number == n;
    var m;
    t, m := RecordsWereFetched(cfg, env, w.history, j);
    ReachedHonest(cfg, env, w0, acts, w);
  }

  lemma ReachedHonest(cfg: Config, env: Env, w0: World, acts: seq<Action>, w: World)
    requires Reached(cfg, env, w0, acts, w)
    ensures Honest(env, cfg.chainId)
  {
  }

  /**
   A stranded poller does nothing until it is started again. Then its cursor resolves, to the new baseline, and it is
   healthy if and only if that is a real block, no other record of the chain is left from block 1 up, and nothing
   committed above it is still owned.
   */
  lemma RestartHealsIff(cfg: Config, env: Env, w: World)
    requires Stranded(cfg, env, w) && Honest(env, cfg.chainId) && Start(cfg, env, w).reply.Ok?
    ensures StartBlock(cfg, env, w).Ok?
    ensures var w', r := Start(cfg, env, w).world, RecordFor(cfg.chainId, StartBlock(cfg, env, w).value);
            && Store.GetLast(w'.store, cfg.chainId) == Ok(r)
            && (Healthy(cfg, env, w') <==> !StartsOnNull(cfg, env, w) && NoLeftovers(cfg, w, r.number))
  {
    hide Healthy, Start, HistoryOk, NoLeftovers;
    StartIsHealthyIff(cfg, env, w);
  }

  // ---------------------------------------------------------------- retrying

  /**
   A block that could not be fetched or processed is the next one tried: the cursor stays just below it, and when
   the next tick gets a tip and a block that links, that block is delivered before anything else happens.
   */
  lemma FailedBlockIsRetried(cfg: Config, env: Env, w: World, n: uint64, tip: uint64, b: Block)
    requires Healthy(cfg, env, w) && Honest(env, cfg.chainId)
    requires Tick(cfg, env, w).end == BlockFailed(n) || Tick(cfg, env, w).end == FetchFailed(n)
    requires var w' := Tick(cfg, env, w).world;
             && env.latest(w'.clock) == Ok(tip) && n <= tip < MAX_UINT64
             && env.block(w'.clock + 1, n) == Ok(b)
             && Store.GetLast(w'.store, cfg.chainId).Ok?
             && b.parentHash == Store.GetLast(w'.store, cfg.chainId).value.hash
    ensures var w' := Tick(cfg, env, w).world;
            && Store.GetLast(w'.store, cfg.chainId).value.number == n - 1
            && w'.history + [Delivered(b, w'.clock + 3)] <= Tick(cfg, env, w').world.history
  {
    hide Healthy, Tick;
    FailedTick(cfg, env, w, n);
    NextTickDelivers(cfg, env, Tick(cfg, env, w).world, n, tip, b);
  }

  lemma NextTickDelivers(cfg: Config, env: Env, w: World, n: uint64, tip: uint64, b: Block)
    requires Healthy(cfg, env, w) && Honest(env, cfg.chainId)
    requires n == Last(Chain(w.history)).number + 1 <= tip < MAX_UINT64
    requires env.latest(w.clock) == Ok(tip) && env.block(w.clock + 1, n) == Ok(b)
    requires Store.GetLast(w.store, cfg.chainId).Ok?
    requires b.parentHash == Store.GetLast(w.store, cfg.chainId).value.hash
    ensures Store.GetLast(w.store, cfg.chainId).value.number == n - 1
    ensures w.history + [Delivered(b, w.clock + 3)] <= Tick(cfg, env, w).world.history
  {
    hide Healthy, Forward;
    CursorResolves(cfg, env, w);
    TimePasses(cfg, env, w, w.clock + 1);
    var last := Last(Chain(w.history));
    assert Tick(cfg, env, w) == Forward(cfg, env, Tock(w), last, n, tip);
    DeliversFirst(cfg, env, Tock(w), last, n, tip, b);
  }

  lemma FailedTick(cfg: Config, env: Env, w: World, n: uint64)
    requires Healthy(cfg, env, w) && Honest(env, cfg.chainId)
    requires Tick(cfg, env, w).end == BlockFailed(n) || Tick(cfg, env, w).end == FetchFailed(n)
    ensures Healthy(cfg, env, Tick(cfg, env, w).world)
    ensures n == Last(Chain(Tick(cfg, env, w).world.history)).number + 1
  {
    hide Healthy, Stranded, ProcessBlock, Reconcile;
    CursorResolves(cfg, env, w);
    TimePasses(cfg, env, w, w.clock + 1);
    var last := Last(Chain(w.history));
    var tip := env.latest(w.clock).value;
    ForwardKeeps(cfg, env, Tock(w), last, last.number + 1, tip);
  }

  lemma DeliversFirst(cfg: Config, env: Env, w: World, last: Record, n: uint64, tip: uint64, b: Block)
    requires Healthy(cfg, env, w) && Honest(env, cfg.chainId)
    requires last == Last(Chain(w.history)) && n == last.number + 1 <= tip < MAX_UINT64
    requires env.block(w.clock, n) == Ok(b) && b.parentHash == last.hash
    ensures w.history + [Delivered(b, w.clock + 2)] <= Forward(cfg, env, w, last, n, tip).world.history
  {
    hide Healthy, Forward;
    var more, next, r := ForwardProcesses(cfg, env, w, last, n, tip, b);
    if more {
      HistoryGrows(cfg, env, next, r, n + 1, tip);
    }
  }

  lemma {:induction false} RetractGrows(w: World, os: seq<Record>)
    ensures w.history <= RetractAll(w, os).world.history
    decreases |os|
  {
    if os != [] && !w.store.closed {
      RetractGrows(Note(Tock(w), Retracted(os[0].number)).(store := Store.Deleted(w.store, os[0].chainId, os[0].number)), os[1..]);
    }
  }

  lemma ReconcileGrows(cfg: Config, env: Env, w: World, start: uint64)
    requires !w.store.closed
    ensures w.history <= Reconcile(cfg, env, w, start).world.history
  {
    SearchShape(cfg, env, w, start, Sub64(start, 1), []);
    var s := FindOrphans(cfg, env, w, start);
    assert w.history <= s.world.history;
    RetractGrows(s.world, s.orphans);
  }

  lemma {:induction false} HistoryGrows(cfg: Config, env: Env, w: World, last: Record, n: uint64, tip: uint64)
    requires Healthy(cfg, env, w) && Honest(env, cfg.chainId)
    requires last == Last(Chain(w.history)) && n == last.number + 1 <= tip + 1 && tip < MAX_UINT64
    ensures w.history <= Forward(cfg, env, w, last, n, tip).world.history
    decreases tip + 1 - n
  {
    hide Healthy, ProcessBlock, Reconcile, WalkOk;
    HealthyChain(cfg, env, w);
    if n <= tip && env.block(w.clock, n).Ok? {
      var b := env.block(w.clock, n).value;
      if b.parentHash != last.hash {
        ReconcileGrows(cfg, env, Tock(w), b.number);
      } else {
        var more, next, r := ForwardProcesses(cfg, env, w, last, n, tip, b);
        if more {
          HistoryGrows(cfg, env, next, r, n + 1, tip);
        }
      }
    }
  }

  // ---------------------------------------------------------------- other chains

  lemma CommitUnseen(cfg: Config, s: Store.State, r: Record, d: ChainId)
    requires r.chainId == cfg.chainId != d
    ensures Store.SameView(s, CommitTo(cfg, s, r), d)
  {
    var saved := Store.Saved(s, r);
    Store.OtherChainUnseen(s, Store.SaveOp(r), d);
    if Prunes(cfg, r.number) {
      Store.OtherChainUnseen(saved, Store.DeleteOp(cfg.chainId, r.number - cfg.historySize), d);
      Store.SameViewTrans(s, saved, CommitTo(cfg, s, r), d);
    }
  }

  lemma DroppedUnseen(s: Store.State, s': Store.State, id: ChainId, hi: int, lo: int, d: ChainId)
    requires Dropped(s, s', id, hi, lo) && d != id
    ensures Store.SameView(s, s', d)
  {
    forall n: uint64
      ensures Store.Has(s, d, n) <==> Store.Has(s', d, n)
      ensures Store.Has(s, d, n) ==> Store.At(s, d, n) == Store.At(s', d, n)
    {
      assert Store.BlockKey(d, n) in s'.blocks <==> Store.BlockKey(d, n) in s.blocks;
    }
  }

  /** The search settles on a missing block of chain d. */
  predicate RepairsFor(s: Search, d: ChainId) {
    s.end.Repaired? && s.end.record.chainId == d
  }

  /** Chain d sees nothing of a search, unless the search saves a missing block that carries d. */
  lemma SearchSeen(cfg: Config, env: Env, w: World, start: uint64, k: uint64, s: Search, d: ChainId)
    requires !w.store.closed && Store.Filed(w.store, cfg.chainId) && d != cfg.chainId
    requires Shape(cfg, env, w, start, k, [], s)
    ensures !s.world.store.closed
    ensures Store.SameView(if RepairsFor(s, d) then Store.Saved(w.store, s.end.record) else w.store, s.world.store, d)
  {
    OrphanList(cfg, env, w, start, k, s);
    if s.end.Matched? {
      Store.OtherChainUnseen(w.store, Store.SaveOp(Store.At(w.store, cfg.chainId, s.stop)), d);
    } else if s.end.Repaired? && s.end.record.chainId != d {
      Store.OtherChainUnseen(w.store, Store.SaveOp(s.end.record), d);
    } else if s.end.Exhausted? && s.orphans != [] {
      Store.OtherChainUnseen(w.store, Store.SaveOp(Last(s.orphans)), d);
    }
  }

  /** The same for the whole reorg: retracting orphans is not visible to other chains. */
  lemma FinishSeen(cfg: Config, env: Env, w: World, start: uint64, k: uint64, s: Search, d: ChainId)
    requires !w.store.closed && Store.Filed(w.store, cfg.chainId) && d != cfg.chainId
    requires Shape(cfg, env, w, start, k, [], s)
    ensures Store.SameView(
              if RepairsFor(s, d) then Store.Saved(w.store, s.end.record) else w.store, Finish(s).world.store, d)
  {
    hide Store.SameView, Shape;
    SearchSeen(cfg, env, w, start, k, s, d);
    if s.reply.Ok? && s.orphans != [] {
      OrphanList(cfg, env, w, start, k, s);
      RetractAllStore(s.world, s.orphans, cfg.chainId, k, s.stop);
      var before := if RepairsFor(s, d) then Store.Saved(w.store, s.end.record) else w.store;
      DroppedUnseen(s.world.store, Finish(s).world.store, cfg.chainId, k, s.stop, d);
      Store.SameViewTrans(before, s.world.store, Finish(s).world.store, d);
    }
  }

  /** Before the reorg: the search will meet number q, which is missing here and comes back with the id d. */
  ghost predicate Misfiles(cfg: Config, env: Env, w: World, start: uint64, q: uint64, d: ChainId) {
    && start >= 1
    && Meets(cfg, env, w, start, start - 1, q)
    && !Store.Has(w.store, cfg.chainId, q)
    && env.block(AskedAt(w, start - 1, q), q).value.chainId == d
  }

  lemma MisfilesIff(cfg: Config, env: Env, w: World, start: uint64, q: uint64, d: ChainId)
    requires start >= 1 && !w.store.closed
    ensures var s := FindOrphans(cfg, env, w, start);
            && (Misfiles(cfg, env, w, start, q, d) <==> RepairsFor(s, d) && s.stop == q)
            && (Misfiles(cfg, env, w, start, q, d) ==>
                  s.end.record == RecordFor(d, env.block(AskedAt(w, start - 1, q), q).value))
  {
    hide Scanned, Down;
    SearchShape(cfg, env, w, start, start - 1, []);
    SearchMeetsIff(cfg, env, w, start, q);
  }

  /**
   What another chain d sees of a reorg, exactly. If the search will meet a number that is missing here and comes back
   with the id d, then d sees that block saved as its own, cursor and all; if not, d sees nothing.
   */
  lemma ReconcileSeenElsewhere(cfg: Config, env: Env, w: World, start: uint64, d: ChainId)
    requires start >= 1 && !w.store.closed && Store.Filed(w.store, cfg.chainId) && d != cfg.chainId
    ensures forall q | Misfiles(cfg, env, w, start, q, d) ::
              Store.SameView(Store.Saved(w.store, RecordFor(d, env.block(AskedAt(w, start - 1, q), q).value)),
                             Reconcile(cfg, env, w, start).world.store, d)
    ensures (forall q :: !Misfiles(cfg, env, w, start, q, d)) ==>
              Store.SameView(w.store, Reconcile(cfg, env, w, start).world.store, d)
  {
    hide Store.SameView, Shape, Scanned;
    var s := FindOrphans(cfg, env, w, start);
    SearchShape(cfg, env, w, start, start - 1, []);
    FinishSeen(cfg, env, w, start, start - 1, s, d);
    assert Finish(s) == Reconcile(cfg, env, w, start);
    MisfilesIff(cfg, env, w, start, s.stop, d);
    forall q | Misfiles(cfg, env, w, start, q, d) ensures q == s.stop {
      MisfilesIff(cfg, env, w, start, q, d);
    }
  }

  /** No returned block carries the id d. The program's RPC client never sets an id, so for it this is every d but 0. */
  ghost predicate NeverCarries(env: Env, d: ChainId) {
    forall t: nat, n: uint64 :: env.block(t, n).Ok? ==> env.block(t, n).value.chainId != d
  }

  lemma ReconcileUnseen(cfg: Config, env: Env, w: World, start: uint64, d: ChainId)
    requires !w.store.closed && Store.Filed(w.store, cfg.chainId) && NeverCarries(env, d) && d != cfg.chainId
    ensures Store.SameView(w.store, Reconcile(cfg, env, w, start).world.store, d)
  {
    hide Store.SameView, Scanned, Down;
    var k := Sub64(start, 1);
    SearchShape(cfg, env, w, start, k, []);
    FinishSeen(cfg, env, w, start, k, FindOrphans(cfg, env, w, start), d);
  }

  lemma {:induction false} ForwardUnseen(
    cfg: Config, env: Env, w: World, last: Record, n: uint64, tip: uint64, d: ChainId)
    requires Healthy(cfg, env, w) && Honest(env, cfg.chainId) && NeverCarries(env, d) && d != cfg.chainId
    requires last == Last(Chain(w.history)) && n == last.number + 1 <= tip + 1 && tip < MAX_UINT64
    ensures Store.SameView(w.store, Forward(cfg, env, w, last, n, tip).world.store, d)
    decreases tip + 1 - n
  {
    hide Healthy, ProcessBlock, Reconcile, WalkOk;
    HealthyChain(cfg, env, w);
    if n <= tip && env.block(w.clock, n).Ok? {
      var b := env.block(w.clock, n).value;
      if b.parentHash != last.hash {
        ReconcileUnseen(cfg, env, Tock(w), b.number, d);
      } else {
        var more, next, r := ForwardProcesses(cfg, env, w, last, n, tip, b);
        if more {
          CommitUnseen(cfg, w.store, r, d);
          ForwardUnseen(cfg, env, next, r, n + 1, tip, d);
          Store.SameViewTrans(w.store, next.store, Forward(cfg, env, w, last, n, tip).world.store, d);
        }
      }
    }
  }

  /** A tick, with or without a reorg, changes nothing that chain d can observe, unless some block comes back with the id d. */
  lemma TickUnseenElsewhere(cfg: Config, env: Env, w: World, d: ChainId)
    requires Healthy(cfg, env, w) && Honest(env, cfg.chainId) && NeverCarries(env, d) && d != cfg.chainId
    ensures Store.SameView(w.store, Tick(cfg, env, w).world.store, d)
  {
    hide Healthy, NeverCarries, Forward;
    CursorResolves(cfg, env, w);
    TimePasses(cfg, env, w, w.clock + 1);
    if env.latest(w.clock).Ok? {
      var tip := env.latest(w.clock).value;
      var last := Last(Chain(w.history));
      if last.number < tip < MAX_UINT64 {
        ForwardUnseen(cfg, env, Tock(w), last, last.number + 1, tip, d);
      }
    }
  }

  /** A reorg that misfiles a block makes it the other chain's cursor, and strands this poller. */
  lemma MisfiledBlockHitsOtherChain(cfg: Config, env: Env, w: World, start: uint64, q: uint64, d: ChainId)
    requires Healthy(cfg, env, w) && Honest(env, cfg.chainId) && d != cfg.chainId
    requires start == Last(Chain(w.history)).number + 1 && Misfiles(cfg, env, w, start, q, d)
    ensures var end := Reconcile(cfg, env, w, start);
            && Store.GetLast(end.world.store, d).Ok?
            && SameContent(Store.GetLast(end.world.store, d).value, env.block(AskedAt(w, start - 1, q), q).value, d)
            && Stranded(cfg, env, end.world)
  {
    hide Healthy, Stranded, Shape, Scanned;
    var r := RecordFor(d, env.block(AskedAt(w, start - 1, q), q).value);
    var s := FindOrphans(cfg, env, w, start);
    HealthyChain(cfg, env, w);
    ReconcileSeenElsewhere(cfg, env, w, start, d);
    assert Store.GetLast(Store.Saved(w.store, r), d) == Ok(r);
    assert Store.Has(Store.Saved(w.store, r), d, r.number);
    MisfilesIff(cfg, env, w, start, q, d);
    SearchShape(cfg, env, w, start, start - 1, []);
    CursorResolves(cfg, env, w);
    MisfiledLoses(cfg, env, w, start, s);
  }

  lemma MisfiledLoses(cfg: Config, env: Env, w: World, start: uint64, s: Search)
    requires Healthy(cfg, env, w) && Honest(env, cfg.chainId) && start == Last(Chain(w.history)).number + 1
    requires Shape(cfg, env, w, start, start - 1, [], s) && s.end.Repaired? && s.end.record.chainId != cfg.chainId
    ensures Stranded(cfg, env, Finish(s).world)
  {
    hide Healthy, Stranded, Descending, Down, Scanned;
    var k: uint64 := start - 1;
    CursorResolves(cfg, env, w);
    HealthyChain(cfg, env, w);
    OrphanList(cfg, env, w, start, k, s);
    DescendingLength(s.orphans, cfg.chainId, k, s.stop);
    OrphansDecide(cfg, env, w, start, k, s);
  }

  // ---------------------------------------------------------------- the range loop

  /** i++ on uint64. */
  function Inc64(i: uint64): uint64 {
    if i == MAX_UINT64 then 0 else i + 1
  }

  /** The loop variable of the range loop after k iterations. */
  function Counter(from: uint64, k: nat): uint64 {
    if k == 0 then Inc64(from) else Inc64(Counter(from, k - 1))
  }

  lemma {:induction false} CounterCounts(from: uint64, k: nat)
    requires from + 1 + k <= MAX_UINT64
    ensures Counter(from, k) == from + 1 + k
  {
    if k > 0 {
      CounterCounts(from, k - 1);
    }
  }

  /** The loop that lists the numbers up to the tip ends exactly when the tip is below the largest number. */
  lemma RangeLoopEndsIff(from: uint64, tip: uint64)
    requires from < tip
    ensures (exists k: nat :: Counter(from, k) > tip) <==> tip < MAX_UINT64
  {
    if tip < MAX_UINT64 {
      CounterCounts(from, tip - from);
      assert Counter(from, tip - from) > tip;
    }
  }
}
