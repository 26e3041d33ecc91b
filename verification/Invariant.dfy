/** The invariant of every run, and the steps that keep it. */
module Invariant {
  import opened Types
  import opened Environment
  import opened History
  import opened LogFetch
  import opened PollerSpec
  import opened Offers
  import Store

  // ---------------------------------------------------------------- the committed chain

  /** Consecutive numbers of one chain, each record with a hash and pointing back to the one before. */
  ghost predicate Linked(c: seq<Record>, id: ChainId) {
    && (forall i :: 0 <= i < |c| ==> c[i].chainId == id && c[i].number == c[0].number + i)
    && (forall i :: 0 <= i < |c| ==> c[i].hash != "" && c[i].number < MAX_UINT64)
    && (forall i :: 0 < i < |c| ==> c[i].parentHash == c[i - 1].hash)
  }

  /** The lowest number the retention window still covers. */
  function Low(cfg: Config, base: int, high: int): int {
    if cfg.historySize > 0 && base < high - cfg.historySize + 1 then high - cfg.historySize + 1 else base
  }

  /** Above block 0, the store holds exactly the numbers lo to hi of chain id. */
  ghost predicate Holds(s: Store.State, id: ChainId, lo: int, hi: int) {
    forall n: uint64 | n >= 1 :: Store.Has(s, id, n) <==> lo <= n <= hi
  }

  /** Above block 0, and at a baseline 0, what the store holds of chain id are the records of c. */
  ghost predicate Agrees(s: Store.State, id: ChainId, c: seq<Record>)
    requires c != []
  {
    && (forall n: uint64 | n >= 1 && Store.Has(s, id, n) ::
          c[0].number <= n < c[0].number + |c| && Store.At(s, id, n) == c[n - c[0].number])
    && (c[0].number == 0 ==> Store.Has(s, id, 0) && Store.At(s, id, 0) == c[0])
  }

  /**
   The store holds, above block 0, exactly the records of chain c in the retention window, and the cursor is
   the last record of c.
   */
  ghost predicate StoreOk(cfg: Config, s: Store.State, c: seq<Record>, high: int) {
    && !s.closed
    && Store.Filed(s, cfg.chainId)
    && c != []
    && Linked(c, cfg.chainId)
    && cfg.chainId in s.cursors
    && s.cursors[cfg.chainId] == Last(c).number <= high
    && Low(cfg, c[0].number, high) <= Last(c).number
    && Holds(s, cfg.chainId, Low(cfg, c[0].number, high), Last(c).number)
    && Agrees(s, cfg.chainId, c)
  }

  /** For every record of c after the first, the handler holds its block, under its number. */
  ghost predicate HoldsChain(id: ChainId, c: seq<Record>, view: map<uint64, Block>) {
    forall i :: 0 < i < |c| ==> c[i].number in view && RecordFor(id, view[c[i].number]) == c[i]
  }

  /** Nothing above the end of c is still owned: what was committed there has been retracted. */
  ghost predicate OwnedOk(c: seq<Record>, owned: set<uint64>)
    requires c != []
  {
    forall n :: n in owned ==> n <= Last(c).number
  }

  // ---------------------------------------------------------------- the history

  /** Record r has the content of block b, under chain id. */
  predicate SameContent(r: Record, b: Block, id: ChainId) {
    && r.number == b.number && r.hash == b.hash && r.parentHash == b.parentHash && r.timestamp == b.timestamp
    && r.chainId == id
  }

  /** The client returned a block with the content of r, asked for n at call t. */
  ghost predicate WasFetched(env: Env, r: Record, id: ChainId, t: nat, n: uint64) {
    env.block(t, n).Ok? && SameContent(r, env.block(t, n).value, id)
  }

  /** h ends with the delivery of block b and the acceptance of its first logs; e offers the next one. */
  ghost predicate JustOffered(cfg: Config, env: Env, h: History, e: Event, at: nat, b: Block, t: nat) {
    && at < |h|
    && h[at] == Delivered(b, t)
    && FetchLogs(env, t, cfg, b.number).Ok?
    && OffersFrom(env, FetchEnd(env, t, cfg), b.(chainId := cfg.chainId), FetchLogs(env, t, cfg, b.number).value,
                  h[at + 1..] + [e])
  }

  /** h ends with the delivery of r's block and the acceptance of all the logs fetched right after it. */
  ghost predicate JustProcessed(cfg: Config, env: Env, h: History, r: Record, at: nat, b: Block, t: nat) {
    && at < |h|
    && h[at] == Delivered(b, t)
    && SameContent(r, b, cfg.chainId)
    && FetchLogs(env, t, cfg, r.number).Ok?
    && AllAccepted(env, FetchEnd(env, t, cfg), b.(chainId := cfg.chainId), FetchLogs(env, t, cfg, r.number).value,
                   h[at + 1..])
  }

  /** It is right to retract n now: the handler holds it, or it is the baseline just given up. */
  ghost predicate MayRetract(h: History, n: uint64) {
    n in Replay(h) || GivenUp(h) == Some(n)
  }

  /** What makes it right for event e to follow history h. */
  ghost predicate EventOk(cfg: Config, env: Env, h: History, e: Event) {
    match e
    case Delivered(b, at) =>
      && at >= 2 && env.block(at - 2, b.number) == Ok(b)
      && Chain(h) != []
      && b.number == Last(Chain(h)).number + 1
      && b.parentHash == Last(Chain(h)).hash
    case LogOffered(_, _, _, _, _) => exists at, b, t :: JustOffered(cfg, env, h, e, at, b, t)
    case Baselined(r) => exists t, n :: WasFetched(env, r, cfg.chainId, t, n)
    case Committed(r) => exists at, b, t :: JustProcessed(cfg, env, h, r, at, b, t)
    case Retracted(n) => MayRetract(h, n)
    case _ => true
  }

  ghost predicate HistoryOk(cfg: Config, env: Env, h: History) {
    forall i :: 0 <= i < |h| ==> EventOk(cfg, env, h[..i], h[i])
  }

  lemma HistoryOkAppend(cfg: Config, env: Env, h: History, e: Event)
    requires HistoryOk(cfg, env, h) && EventOk(cfg, env, h, e)
    ensures HistoryOk(cfg, env, h + [e])
  {
    forall i | 0 <= i < |h + [e]| ensures EventOk(cfg, env, (h + [e])[..i], (h + [e])[i]) {
      assert (h + [e])[..i] == h[..i];
    }
    assert h[..|h|] == h;
  }

  // ---------------------------------------------------------------- the invariant

  ghost predicate Healthy(cfg: Config, env: Env, w: World) {
    && StoreOk(cfg, w.store, Chain(w.history), High(w.history))
    && HoldsChain(cfg.chainId, Chain(w.history), Replay(w.history))
    && OwnedOk(Chain(w.history), Owned(w.history))
    && HistoryOk(cfg, env, w.history)
  }

  /** The cursor names a number that has no record. */
  ghost predicate Stranded(cfg: Config, env: Env, w: World) {
    && !w.store.closed
    && Store.Filed(w.store, cfg.chainId)
    && cfg.chainId in w.store.cursors
    && !Store.Has(w.store, cfg.chainId, w.store.cursors[cfg.chainId])
    && HistoryOk(cfg, env, w.history)
  }

  /** In a healthy world the cursor resolves to the last committed record. */
  lemma CursorResolves(cfg: Config, env: Env, w: World)
    requires Healthy(cfg, env, w)
    ensures Chain(w.history) != []
    ensures Store.GetLast(w.store, cfg.chainId) == Ok(Last(Chain(w.history)))
  {
    var c := Chain(w.history);
    var k := Last(c).number;
    if k == 0 {
      assert c[0].number == 0 && |c| == 1;
    } else {
      assert Store.Has(w.store, cfg.chainId, k);
    }
  }

  lemma HealthyChain(cfg: Config, env: Env, w: World)
    requires Healthy(cfg, env, w)
    ensures Chain(w.history) != [] && Linked(Chain(w.history), cfg.chainId)
    ensures !w.store.closed && Store.Filed(w.store, cfg.chainId)
    ensures cfg.chainId in w.store.cursors && w.store.cursors[cfg.chainId] == Last(Chain(w.history)).number
    ensures Last(Chain(w.history)).hash != "" && Last(Chain(w.history)).number < MAX_UINT64
  {
  }

  /** The handler's view, by number. */
  lemma ViewByNumber(id: ChainId, c: seq<Record>, view: map<uint64, Block>)
    requires c != [] && Linked(c, id) && HoldsChain(id, c, view)
    ensures forall n: uint64 | c[0].number < n <= Last(c).number :: n in view && RecordFor(id, view[n]) == c[n - c[0].number]
  {
    forall n: uint64 | c[0].number < n <= Last(c).number
      ensures n in view && RecordFor(id, view[n]) == c[n - c[0].number]
    {
      assert c[n - c[0].number].number == n;
    }
  }

  lemma HealthyView(cfg: Config, env: Env, w: World)
    requires Healthy(cfg, env, w)
    ensures Chain(w.history) != []
    ensures HoldsChain(cfg.chainId, Chain(w.history), Replay(w.history))
    ensures OwnedOk(Chain(w.history), Owned(w.history))
  {
  }

  // ---------------------------------------------------------------- delivering and committing

  /** The store after a commit: the record is saved and what left the window is gone. */
  function CommitTo(cfg: Config, s: Store.State, r: Record): Store.State {
    var saved := Store.Saved(s, r);
    if Prunes(cfg, r.number) then Store.Deleted(saved, cfg.chainId, r.number - cfg.historySize) else saved
  }

  /** Which numbers a commit adds and removes. */
  lemma CommitMoves(cfg: Config, s: Store.State, r: Record, n: uint64)
    requires !s.closed && r.chainId == cfg.chainId
    ensures Store.Has(CommitTo(cfg, s, r), cfg.chainId, n) <==>
            (n == r.number || Store.Has(s, cfg.chainId, n)) && !(Prunes(cfg, r.number) && n == r.number - cfg.historySize)
    ensures Store.Has(CommitTo(cfg, s, r), cfg.chainId, n) ==>
              Store.At(CommitTo(cfg, s, r), cfg.chainId, n) == if n == r.number then r else Store.At(s, cfg.chainId, n)
  {
  }

  lemma CommitHolds(cfg: Config, s: Store.State, r: Record, base: uint64, high: int)
    requires !s.closed && r.chainId == cfg.chainId
    requires base < r.number <= high + 1 && Low(cfg, base, high) <= r.number - 1
    requires Holds(s, cfg.chainId, Low(cfg, base, high), r.number - 1)
    ensures Holds(CommitTo(cfg, s, r), cfg.chainId, Low(cfg, base, if high < r.number then r.number else high), r.number)
  {
    var low := Low(cfg, base, if high < r.number then r.number else high);
    forall n: uint64 | n >= 1 ensures Store.Has(CommitTo(cfg, s, r), cfg.chainId, n) <==> low <= n <= r.number {
      CommitMoves(cfg, s, r, n);
      assert Store.Has(s, cfg.chainId, n) <==> Low(cfg, base, high) <= n <= r.number - 1;
    }
  }

  lemma CommitAgrees(cfg: Config, s: Store.State, c: seq<Record>, r: Record)
    requires !s.closed && r.chainId == cfg.chainId && c != [] && Linked(c, cfg.chainId)
    requires r.number == Last(c).number + 1 && Agrees(s, cfg.chainId, c)
    ensures Agrees(CommitTo(cfg, s, r), cfg.chainId, c + [r])
  {
    forall n: uint64 | Store.Has(CommitTo(cfg, s, r), cfg.chainId, n)
      ensures n == r.number || Store.Has(s, cfg.chainId, n)
      ensures Store.At(CommitTo(cfg, s, r), cfg.chainId, n) == if n == r.number then r else Store.At(s, cfg.chainId, n)
    {
      CommitMoves(cfg, s, r, n);
    }
    CommitMoves(cfg, s, r, 0);
  }

  lemma StoreCommit(cfg: Config, s: Store.State, c: seq<Record>, high: int, r: Record)
    requires StoreOk(cfg, s, c, high)
    requires r.chainId == cfg.chainId && r.number == Last(c).number + 1 && r.parentHash == Last(c).hash
    requires r.hash != "" && r.number < MAX_UINT64
    ensures StoreOk(cfg, CommitTo(cfg, s, r), c + [r], if high < r.number then r.number else high)
  {
    assert Linked(c + [r], cfg.chainId);
    CommitHolds(cfg, s, r, c[0].number, high);
    CommitAgrees(cfg, s, c, r);
    Store.SavedFiled(s, r, cfg.chainId);
    Store.DeletedFiled(Store.Saved(s, r), cfg.chainId, if Prunes(cfg, r.number) then r.number - cfg.historySize else 0, cfg.chainId);
  }

  /** Events the readings of the history do not depend on. */
  ghost predicate Quiet(h: History, h': History) {
    && |h| <= |h'| && h'[..|h|] == h
    && Chain(h') == Chain(h) && Replay(h') == Replay(h) && High(h') == High(h)
    && Owned(h') == Owned(h) && GivenUp(h') == GivenUp(h)
  }

  ghost predicate OnlyOffers(es: History) {
    forall i :: 0 <= i < |es| ==> es[i].LogOffered?
  }

  lemma {:induction false} OffersAreQuiet(h: History, es: History)
    requires OnlyOffers(es)
    ensures Quiet(h, h + es)
    decreases |es|
  {
    if es == [] {
      assert h + es == h;
    } else {
      var init, e := es[..|es| - 1], Last(es);
      OffersAreQuiet(h, init);
      assert h + es == (h + init) + [e];
      Append(h + init, e);
    }
  }

  lemma OffersAreOk(cfg: Config, env: Env, h: History, b: Block, t: nat, es: History)
    requires HistoryOk(cfg, env, h + [Delivered(b, t)]) && FetchLogs(env, t, cfg, b.number).Ok?
    requires OffersFrom(env, FetchEnd(env, t, cfg), b.(chainId := cfg.chainId), FetchLogs(env, t, cfg, b.number).value, es)
    ensures HistoryOk(cfg, env, h + [Delivered(b, t)] + es)
    decreases |es|
  {
    hide FetchLogs, OffersFrom;
    if es == [] {
      assert h + [Delivered(b, t)] + es == h + [Delivered(b, t)];
    } else {
      var init, e := es[..|es| - 1], Last(es);
      var h1 := h + [Delivered(b, t)] + init;
      OffersPrefix(env, FetchEnd(env, t, cfg), b.(chainId := cfg.chainId), FetchLogs(env, t, cfg, b.number).value, es, |es| - 1);
      OffersAreOk(cfg, env, h, b, t, init);
      assert h1[|h| + 1..] + [e] == es;
      OffersOnly(env, FetchEnd(env, t, cfg), b.(chainId := cfg.chainId), FetchLogs(env, t, cfg, b.number).value, es);
      assert JustOffered(cfg, env, h1, e, |h|, b, t);
      HistoryOkAppend(cfg, env, h1, e);
      assert h + [Delivered(b, t)] + es == h1 + [e];
    }
  }

  lemma OffersOnly(env: Env, t: nat, b: Block, logs: seq<Log>, es: History)
    requires OffersFrom(env, t, b, logs, es)
    ensures OnlyOffers(es)
  {
  }

  /** Delivering the next block keeps the invariant whether or not the block gets committed later. */
  lemma DeliverKeeps(cfg: Config, env: Env, w: World, b: Block, at: nat)
    requires Healthy(cfg, env, w)
    requires b.number == Last(Chain(w.history)).number + 1 && b.parentHash == Last(Chain(w.history)).hash
    requires at >= 2 && env.block(at - 2, b.number) == Ok(b)
    ensures Healthy(cfg, env, Note(w, Delivered(b, at)))
    ensures Chain(w.history + [Delivered(b, at)]) == Chain(w.history)
    ensures High(w.history + [Delivered(b, at)]) == High(w.history)
    ensures b.number in Replay(w.history + [Delivered(b, at)]) && Replay(w.history + [Delivered(b, at)])[b.number] == b
  {
    Append(w.history, Delivered(b, at));
    HistoryOkAppend(cfg, env, w.history, Delivered(b, at));
  }

  lemma ViewCommit(id: ChainId, c: seq<Record>, view: map<uint64, Block>, r: Record)
    requires HoldsChain(id, c, view) && r.number in view && RecordFor(id, view[r.number]) == r
    ensures HoldsChain(id, c + [r], view)
  {
  }

  lemma CommitStore(cfg: Config, w: World, r: Record)
    requires StoreOk(cfg, w.store, Chain(w.history), High(w.history))
    requires r.chainId == cfg.chainId && r.number == Last(Chain(w.history)).number + 1
    requires r.parentHash == Last(Chain(w.history)).hash && r.hash != "" && r.number < MAX_UINT64
    ensures var w' := Commit(cfg, w, r);
            && w'.history == w.history + [Committed(r)]
            && w'.store == CommitTo(cfg, w.store, r)
            && StoreOk(cfg, w'.store, Chain(w'.history), High(w'.history))
  {
    StoreCommit(cfg, w.store, Chain(w.history), High(w.history), r);
    Append(w.history, Committed(r));
  }

  lemma CommitHistory(cfg: Config, env: Env, h: History, r: Record)
    requires Chain(h) != []
    requires OwnedOk(Chain(h), Owned(h)) && r.number == Last(Chain(h)).number + 1
    requires HoldsChain(cfg.chainId, Chain(h), Replay(h)) && HistoryOk(cfg, env, h)
    requires r.number in Replay(h) && RecordFor(cfg.chainId, Replay(h)[r.number]) == r
    requires EventOk(cfg, env, h, Committed(r))
    ensures var h' := h + [Committed(r)];
            && Chain(h') == Chain(h) + [r]
            && HoldsChain(cfg.chainId, Chain(h'), Replay(h'))
            && OwnedOk(Chain(h'), Owned(h'))
            && HistoryOk(cfg, env, h')
  {
    hide HistoryOk, HoldsChain, JustProcessed;
    var h' := h + [Committed(r)];
    Append(h, Committed(r));
    ViewCommit(cfg.chainId, Chain(h), Replay(h), r);
    HistoryOkAppend(cfg, env, h, Committed(r));
  }

  lemma CommitKeeps(cfg: Config, env: Env, w: World, r: Record)
    requires Healthy(cfg, env, w)
    requires r.chainId == cfg.chainId && r.number == Last(Chain(w.history)).number + 1
    requires r.parentHash == Last(Chain(w.history)).hash && r.hash != "" && r.number < MAX_UINT64
    requires r.number in Replay(w.history) && RecordFor(cfg.chainId, Replay(w.history)[r.number]) == r
    requires EventOk(cfg, env, w.history, Committed(r))
    ensures Healthy(cfg, env, Commit(cfg, w, r))
    ensures Chain(Commit(cfg, w, r).history) == Chain(w.history) + [r]
    ensures Commit(cfg, w, r).history == w.history + [Committed(r)]
    ensures Commit(cfg, w, r).store == CommitTo(cfg, w.store, r)
  {
    CommitStore(cfg, w, r);
    CommitHistory(cfg, env, w.history, r);
  }

  /** Offering logs keeps the invariant. */
  lemma OffersKeep(cfg: Config, env: Env, h: History, w: World, w': World, b: Block, t: nat, es: History)
    requires Healthy(cfg, env, w) && w.history == h + [Delivered(b, t)] && FetchLogs(env, t, cfg, b.number).Ok?
    requires OffersFrom(env, FetchEnd(env, t, cfg), b.(chainId := cfg.chainId), FetchLogs(env, t, cfg, b.number).value, es)
    requires w'.store == w.store && w'.history == w.history + es
    ensures Healthy(cfg, env, w') && Quiet(w.history, w'.history)
  {
    hide FetchLogs, OffersFrom, StoreOk, HoldsChain, HistoryOk;
    OffersOnly(env, FetchEnd(env, t, cfg), b.(chainId := cfg.chainId), FetchLogs(env, t, cfg, b.number).value, es);
    OffersAreQuiet(w.history, es);
    OffersAreOk(cfg, env, h, b, t, es);
  }

  lemma ProcessedEvent(cfg: Config, env: Env, h: History, b: Block, es: History, t: nat)
    requires FetchLogs(env, t, cfg, b.number).Ok?
    requires AllAccepted(env, FetchEnd(env, t, cfg), b.(chainId := cfg.chainId), FetchLogs(env, t, cfg, b.number).value, es)
    ensures EventOk(cfg, env, h + [Delivered(b, t)] + es, Committed(RecordFor(cfg.chainId, b)))
  {
    var all := h + [Delivered(b, t)] + es;
    assert all[|h| + 1..] == es;
    assert JustProcessed(cfg, env, all, RecordFor(cfg.chainId, b), |h|, b, t);
  }

  /** What became of block b after processing it from a world with store s and chain c. */
  ghost predicate Outcome(cfg: Config, s: Store.State, c: seq<Record>, b: Block, p: Processed) {
    && (p.reply.Err? ==> p.world.store == s && Chain(p.world.history) == c)
    && (p.reply.Ok? ==>
          && p.reply.value == RecordFor(cfg.chainId, b)
          && Chain(p.world.history) == c + [p.reply.value]
          && p.world.store == CommitTo(cfg, s, p.reply.value))
  }

  lemma FetchedKeeps(cfg: Config, env: Env, h: History, w: World, b: Block, t: nat)
    requires Healthy(cfg, env, w) && w.history == h + [Delivered(b, t)] && w.clock == FetchEnd(env, t, cfg)
    requires b.number == Last(Chain(w.history)).number + 1 && b.parentHash == Last(Chain(w.history)).hash
    requires b.number in Replay(w.history) && Replay(w.history)[b.number] == b
    requires b.hash != "" && b.number < MAX_UINT64
    ensures var p := ProcessFetched(cfg, env, w, b, FetchLogs(env, t, cfg, b.number));
            && Healthy(cfg, env, p.world)
            && Outcome(cfg, w.store, Chain(w.history), b, p)
            && w.history <= p.world.history
  {
    hide FetchLogs, OfferLogs, OffersFrom, AllAccepted, Healthy, Commit, CommitTo;
    var fetched := FetchLogs(env, t, cfg, b.number);
    if fetched.Ok? {
      var stamped := b.(chainId := cfg.chainId);
      var es := OffersAre(env, w, stamped, fetched.value);
      var o := OfferLogs(env, w, stamped, fetched.value);
      OffersKeep(cfg, env, h, w, o.world, b, t, es);
      if o.ok {
        ProcessedEvent(cfg, env, h, b, es, t);
        CommitKeeps(cfg, env, o.world, RecordFor(cfg.chainId, b));
      }
    }
  }

  /** The number of external calls does not matter for the invariant. */
  lemma TimePasses(cfg: Config, env: Env, w: World, t: nat)
    requires Healthy(cfg, env, w)
    ensures Healthy(cfg, env, w.(clock := t))
  {
  }

  /**
   Processing the next block either commits it or, when its logs cannot be fetched, decoded or handed over,
   leaves the store and the chain as they were; the invariant holds either way.
   */
  lemma ProcessKeeps(cfg: Config, env: Env, w: World, b: Block)
    requires Healthy(cfg, env, w)
    requires b.number == Last(Chain(w.history)).number + 1 && b.parentHash == Last(Chain(w.history)).hash
    requires b.hash != "" && b.number < MAX_UINT64
    requires w.clock >= 2 && env.block(w.clock - 2, b.number) == Ok(b)
    ensures var p := ProcessBlock(cfg, env, Note(w, Delivered(b, w.clock)), b);
            && Healthy(cfg, env, p.world)
            && Outcome(cfg, w.store, Chain(w.history), b, p)
            && w.history + [Delivered(b, w.clock)] <= p.world.history
  {
    var wd := Note(w, Delivered(b, w.clock));
    DeliverKeeps(cfg, env, w, b, w.clock);
    TimePasses(cfg, env, wd, FetchEnd(env, wd.clock, cfg));
    FetchedKeeps(cfg, env, w.history, wd.(clock := FetchEnd(env, wd.clock, cfg)), b, wd.clock);
  }
}
