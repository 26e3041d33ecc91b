/** The backward search for the fork point and the retraction of the orphans above it. */
module Reorg {
  import opened Types
  import opened Environment
  import opened History
  import opened PollerSpec
  import opened Invariant
  import Store

  // ---------------------------------------------------------------- what a search finds

  /** When the search that began at p asks for n; every number takes one call. */
  function AskedAt(w: World, p: uint64, n: uint64): int {
    w.clock + p - n
  }

  /** Every number in (stop, p] is within depth, stored, and contradicted by the client's answer. */
  ghost predicate Scanned(cfg: Config, env: Env, w: World, start: uint64, p: uint64, stop: uint64) {
    forall n: uint64 | stop < n <= p ::
      && InDepth(cfg, start, n)
      && Store.Has(w.store, cfg.chainId, n)
      && env.block(AskedAt(w, p, n), n).Ok?
      && env.block(AskedAt(w, p, n), n).value.hash != Store.At(w.store, cfg.chainId, n).hash
  }

  /** The records numbered hi, hi-1, ..., lo+1. */
  function Down(s: Store.State, id: ChainId, hi: uint64, lo: uint64): (r: seq<Record>)
    requires lo <= hi && forall n: uint64 | lo < n <= hi :: Store.Has(s, id, n)
    ensures |r| == hi - lo
    decreases hi
  {
    if hi == lo then [] else [Store.At(s, id, hi)] + Down(s, id, hi - 1, lo)
  }

  /** The search met number q: it is within depth, it was answered, and it is missing here or agrees. */
  ghost predicate Meets(cfg: Config, env: Env, w: World, start: uint64, p: uint64, q: uint64) {
    && q <= p
    && InDepth(cfg, start, q)
    && Scanned(cfg, env, w, start, p, q)
    && env.block(AskedAt(w, p, q), q).Ok?
    && (Store.Has(w.store, cfg.chainId, q) ==>
          env.block(AskedAt(w, p, q), q).value.hash == Store.At(w.store, cfg.chainId, q).hash)
  }

  function At(w: World, t: int): World
    requires t >= 0
  {
    w.(clock := t)
  }

  /** The world a search started at p leaves behind, by the way it ended. */
  ghost predicate EndShape(cfg: Config, env: Env, w: World, start: uint64, p: uint64, s: Search)
    requires s.stop <= p
  {
    var asked := AskedAt(w, p, s.stop);
    match s.end
    case Failed(e) =>
      && InDepth(cfg, start, s.stop) && env.block(asked, s.stop) == Err(e)
      && s.world == At(w, asked + 1) && s.reply == Err(e)
    case Matched =>
      && Meets(cfg, env, w, start, p, s.stop) && Store.Has(w.store, cfg.chainId, s.stop)
      && s.world == SettleOn(cfg, At(w, asked + 1), Store.At(w.store, cfg.chainId, s.stop),
                             Rewound(Store.At(w.store, cfg.chainId, s.stop)))
      && s.reply == Ok(())
    case Repaired(r) =>
      && Meets(cfg, env, w, start, p, s.stop) && !Store.Has(w.store, cfg.chainId, s.stop)
      && r == RecordFor(env.block(asked, s.stop).value.chainId, env.block(asked, s.stop).value)
      && s.world == SettleOn(cfg, At(w, asked + 1), r, Baselined(r)) && s.reply == Ok(())
    case Exhausted =>
      !InDepth(cfg, start, s.stop) && s == Exhaust(cfg, At(w, asked), s.orphans, s.stop)
  }

  /** The search's result in closed form. */
  ghost predicate Shape(cfg: Config, env: Env, w: World, start: uint64, p: uint64, acc: seq<Record>, s: Search) {
    && s.stop <= p
    && Scanned(cfg, env, w, start, p, s.stop)
    && s.orphans == acc + Down(w.store, cfg.chainId, p, s.stop)
    && EndShape(cfg, env, w, start, p, s)
  }

  /** One more orphan in front of a search. */
  lemma ShapeStep(cfg: Config, env: Env, w: World, start: uint64, p: uint64, acc: seq<Record>, s: Search)
    requires InDepth(cfg, start, p) && env.block(w.clock, p).Ok? && Store.Has(w.store, cfg.chainId, p)
    requires env.block(w.clock, p).value.hash != Store.At(w.store, cfg.chainId, p).hash
    requires Shape(cfg, env, Tock(w), start, p - 1, acc + [Store.At(w.store, cfg.chainId, p)], s)
    ensures Shape(cfg, env, w, start, p, acc, s)
  {
    var w1 := Tock(w);
    forall n: uint64 ensures AskedAt(w1, p - 1, n) == AskedAt(w, p, n) {
    }
    forall q: uint64 | q < p && Scanned(cfg, env, w1, start, p - 1, q) ensures Scanned(cfg, env, w, start, p, q) {
      forall n: uint64 | q < n <= p
        ensures InDepth(cfg, start, n) && Store.Has(w.store, cfg.chainId, n)
        ensures env.block(AskedAt(w, p, n), n).Ok?
        ensures env.block(AskedAt(w, p, n), n).value.hash != Store.At(w.store, cfg.chainId, n).hash
      {
        assert n < p ==> env.block(AskedAt(w1, p - 1, n), n).Ok?;
      }
    }
  }

  lemma {:induction false} SearchShape(cfg: Config, env: Env, w: World, start: uint64, p: uint64, acc: seq<Record>)
    requires !w.store.closed
    ensures Shape(cfg, env, w, start, p, acc, SearchFrom(cfg, env, w, start, p, acc))
    decreases p
  {
    if InDepth(cfg, start, p) && env.block(w.clock, p).Ok? && Store.Has(w.store, cfg.chainId, p)
       && env.block(w.clock, p).value.hash != Store.At(w.store, cfg.chainId, p).hash {
      var r := Store.At(w.store, cfg.chainId, p);
      SearchShape(cfg, env, Tock(w), start, p - 1, acc + [r]);
      ShapeStep(cfg, env, w, start, p, acc, SearchFrom(cfg, env, w, start, p, acc));
    }
  }

  /** With start >= 1 nothing wraps: the guard is the plain inequality, a negative depth counting from 2^64 down. */
  lemma DepthIsPlain(cfg: Config, start: uint64, n: uint64)
    requires n < start
    ensures Sub64(start, n) == start - n
    ensures InDepth(cfg, start, n) <==> start - n <= AsUint64(cfg.maxReorgDepth) && n > 0
    ensures AsUint64(cfg.maxReorgDepth) ==
            if cfg.maxReorgDepth >= 0 then cfg.maxReorgDepth else 0x1_0000_0000_0000_0000 + cfg.maxReorgDepth
  {
  }

  /** The clock at the end of a search tells how many blocks it fetched. */
  lemma SearchClock(cfg: Config, env: Env, w: World, start: uint64, p: uint64, acc: seq<Record>, s: Search)
    requires Shape(cfg, env, w, start, p, acc, s)
    ensures s.world.clock == AskedAt(w, p, s.stop) + (if s.end.Exhausted? then 0 else 1)
    ensures s.end.Exhausted? || InDepth(cfg, start, s.stop)
  {
  }

  /**
   For every starting number from 1 up, every depth setting and every client: no subtraction wraps, so the
   numbers examined are start-1, start-2, ... above 0, and at most min(depth, start-1) blocks are fetched.
   */
  lemma SearchIsBounded(cfg: Config, env: Env, w: World, start: uint64)
    requires start >= 1 && !w.store.closed
    ensures var s := FindOrphans(cfg, env, w, start);
            && s.stop < start
            && 0 <= s.world.clock - w.clock <= AsUint64(cfg.maxReorgDepth)
            && s.world.clock - w.clock <= start - 1
            && |s.orphans| == start - 1 - s.stop <= s.world.clock - w.clock
    ensures forall n: uint64 | n < start :: Sub64(start, n) == start - n
  {
    var p: uint64 := start - 1;
    SearchShape(cfg, env, w, start, p, []);
    var s := FindOrphans(cfg, env, w, start);
    SearchClock(cfg, env, w, start, p, [], s);
    DepthIsPlain(cfg, start, s.stop);
    if s.stop < p {
      assert InDepth(cfg, start, s.stop + 1);
      DepthIsPlain(cfg, start, s.stop + 1);
    }
  }

  /**
   A block numbered 0, which is what the RPC client makes of a null answer, does wrap: for every client and every
   depth the search then looks at the largest number there is, and at no other; it reports what the client reports,
   or saves what the client returns under whatever id it carries.
   */
  lemma SearchFromZeroWraps(cfg: Config, env: Env, w: World)
    requires !w.store.closed && !Store.Has(w.store, cfg.chainId, MAX_UINT64) && AsUint64(cfg.maxReorgDepth) >= 1
    ensures var s := FindOrphans(cfg, env, w, 0);
            && s.stop == MAX_UINT64 && s.orphans == [] && s.world.clock == w.clock + 1
            && match env.block(w.clock, MAX_UINT64)
               case Err(e) => s.end == Failed(e) && s.world.store == w.store
               case Ok(b) =>
                 && s.end == Repaired(RecordFor(b.chainId, b))
                 && s.world.store == Store.Saved(w.store, RecordFor(b.chainId, b))
  {
  }

  /** A search that scanned down to `stop` did not pass a number it would have met. */
  lemma MeetsNotPassed(cfg: Config, env: Env, w: World, start: uint64, p: uint64, q: uint64, stop: uint64)
    requires p < start && Meets(cfg, env, w, start, p, q)
    requires stop <= p && Scanned(cfg, env, w, start, p, stop)
    ensures q <= stop
  {
    assert stop < q ==> Store.Has(w.store, cfg.chainId, q);
  }

  /** The search ends on number q, matched or missing, exactly when it meets q. */
  lemma SearchMeetsIff(cfg: Config, env: Env, w: World, start: uint64, q: uint64)
    requires start >= 1 && !w.store.closed
    ensures var s := FindOrphans(cfg, env, w, start);
            (s.end.Matched? || s.end.Repaired?) && s.stop == q <==> Meets(cfg, env, w, start, start - 1, q)
  {
    var p: uint64 := start - 1;
    SearchShape(cfg, env, w, start, p, []);
    var s := FindOrphans(cfg, env, w, start);
    if Meets(cfg, env, w, start, p, q) {
      MeetsNotPassed(cfg, env, w, start, p, q, s.stop);
      DepthIsPlain(cfg, start, q);
      DepthIsPlain(cfg, start, s.stop);
      assert q < s.stop ==> InDepth(cfg, start, s.stop) && Store.Has(w.store, cfg.chainId, s.stop);
    }
  }

  /** The lowest number within depth, minus one: where a search that finds nothing stops. */
  function Bottom(cfg: Config, start: uint64): uint64
    requires start >= 1
  {
    if start - 1 > AsUint64(cfg.maxReorgDepth) then start - 1 - AsUint64(cfg.maxReorgDepth) else 0
  }

  /** The search runs out exactly when every number within depth and above 0 is stored and contradicted. */
  lemma SearchExhaustsIff(cfg: Config, env: Env, w: World, start: uint64)
    requires start >= 1 && !w.store.closed
    ensures var s := FindOrphans(cfg, env, w, start);
            && (s.end.Exhausted? <==> Scanned(cfg, env, w, start, start - 1, Bottom(cfg, start)))
            && (s.end.Exhausted? ==> s.stop == Bottom(cfg, start))
  {
    var p: uint64, bottom := start - 1, Bottom(cfg, start);
    SearchShape(cfg, env, w, start, p, []);
    var s := FindOrphans(cfg, env, w, start);
    DepthIsPlain(cfg, start, s.stop);
    if s.stop < p {
      assert InDepth(cfg, start, s.stop + 1);
      DepthIsPlain(cfg, start, s.stop + 1);
    }
    if Scanned(cfg, env, w, start, p, bottom) {
      assert bottom < s.stop ==> InDepth(cfg, start, s.stop) && Store.Has(w.store, cfg.chainId, s.stop);
    }
  }

  // ---------------------------------------------------------------- retraction

  /** Records of one chain numbered hi, hi-1, ..., lo+1. */
  ghost predicate Descending(os: seq<Record>, id: ChainId, hi: uint64, lo: uint64) {
    && lo <= hi
    && |os| == hi - lo
    && forall i :: 0 <= i < |os| ==> os[i].number == hi - i && os[i].chainId == id
  }

  lemma DescendingLength(os: seq<Record>, id: ChainId, hi: uint64, lo: uint64)
    requires Descending(os, id, hi, lo)
    ensures |os| == hi - lo
  {
  }

  lemma {:induction false} DownDescends(s: Store.State, id: ChainId, hi: uint64, lo: uint64)
    requires Store.Filed(s, id) && lo <= hi && forall n: uint64 | lo < n <= hi :: Store.Has(s, id, n)
    ensures Descending(Down(s, id, hi, lo), id, hi, lo)
    decreases hi
  {
    if hi > lo {
      DownDescends(s, id, hi - 1, lo);
      assert Store.Has(s, id, hi);
    }
  }

  /** s' is s without the numbers in (lo, hi] of chain id. */
  ghost predicate Dropped(s: Store.State, s': Store.State, id: ChainId, hi: int, lo: int) {
    && s'.closed == s.closed && s'.cursors == s.cursors
    && (forall k :: k in s'.blocks <==> k in s.blocks && !(k.chain == id && lo < k.number <= hi))
    && (forall k :: k in s'.blocks ==> s'.blocks[k] == s.blocks[k])
  }

  lemma DroppedFiled(s: Store.State, s': Store.State, id: ChainId, hi: int, lo: int)
    requires Dropped(s, s', id, hi, lo) && Store.Filed(s, id)
    ensures Store.Filed(s', id)
  {
    forall n: uint64 | Store.Has(s', id, n)
      ensures Store.At(s', id, n).chainId == id && Store.At(s', id, n).number == n
    {
      assert Store.Has(s, id, n);
    }
  }

  /** The handler's view without the numbers in (lo, hi]. */
  ghost predicate Erased(view: map<uint64, Block>, view': map<uint64, Block>, hi: int, lo: int) {
    && (forall n :: n in view' <==> n in view && !(lo < n <= hi))
    && (forall n :: n in view' ==> view'[n] == view[n])
  }

  /** The numbers in (lo, hi] are no longer owned, and nothing new is. */
  ghost predicate Released(owned: set<uint64>, owned': set<uint64>, hi: int, lo: int) {
    forall n :: n in owned' ==> n in owned && !(lo < n <= hi)
  }

  lemma MayRetractStill(h: History, n: uint64, m: uint64)
    requires MayRetract(h, n) && n != m
    ensures MayRetract(h + [Retracted(m)], n)
  {
    Append(h, Retracted(m));
  }

  /** The retractions of the orphans, as the handler sees them. */
  function Retractions(os: seq<Record>): History {
    if os == [] then [] else [Retracted(os[0].number)] + Retractions(os[1..])
  }

  lemma {:induction false} RetractAllStore(w: World, os: seq<Record>, id: ChainId, hi: uint64, lo: uint64)
    requires !w.store.closed && Descending(os, id, hi, lo)
    ensures var r := RetractAll(w, os);
            && r.reply == Ok(())
            && r.world.clock == w.clock + |os|
            && r.world.history == w.history + Retractions(os)
            && Dropped(w.store, r.world.store, id, hi, lo)
    decreases |os|
  {
    if os != [] {
      var o := os[0];
      var w1 := Note(Tock(w), Retracted(o.number)).(store := Store.Deleted(w.store, o.chainId, o.number));
      RetractAllStore(w1, os[1..], id, hi - 1, lo);
    }
  }

  lemma RetractionsCons(h: History, os: seq<Record>)
    requires os != []
    ensures h + Retractions(os) == (h + [Retracted(os[0].number)]) + Retractions(os[1..])
  {
  }

  lemma ErasedStep(view: map<uint64, Block>, view': map<uint64, Block>, hi: uint64, lo: uint64)
    requires lo < hi && Erased(view - {hi}, view', hi - 1, lo)
    ensures Erased(view, view', hi, lo)
  {
  }

  lemma {:induction false} RetractionsReadings(h: History, os: seq<Record>, id: ChainId, hi: uint64, lo: uint64)
    requires Descending(os, id, hi, lo)
    ensures var h' := h + Retractions(os);
            && Chain(h') == Chain(h)
            && High(h') == High(h)
            && Erased(Replay(h), Replay(h'), hi, lo)
            && Released(Owned(h), Owned(h'), hi, lo)
    decreases |os|
  {
    if os == [] {
      assert h + Retractions(os) == h;
    } else {
      var e := Retracted(os[0].number);
      Append(h, e);
      RetractionsReadings(h + [e], os[1..], id, hi - 1, lo);
      RetractionsCons(h, os);
      ErasedStep(Replay(h), Replay(h + Retractions(os)), hi, lo);
    }
  }

  lemma {:induction false} RetractionsOk(
    cfg: Config, env: Env, h: History, os: seq<Record>, id: ChainId, hi: uint64, lo: uint64)
    requires Descending(os, id, hi, lo)
    requires HistoryOk(cfg, env, h)
    requires forall n: uint64 | lo < n <= hi :: MayRetract(h, n)
    ensures HistoryOk(cfg, env, h + Retractions(os))
    decreases |os|
  {
    if os == [] {
      assert h + Retractions(os) == h;
    } else {
      var e := Retracted(os[0].number);
      assert MayRetract(h, hi);
      HistoryOkAppend(cfg, env, h, e);
      MayRetractRest(h, hi, lo);
      RetractionsOk(cfg, env, h + [e], os[1..], id, hi - 1, lo);
      RetractionsCons(h, os);
    }
  }

  lemma MayRetractRest(h: History, hi: uint64, lo: uint64)
    requires lo < hi && forall n: uint64 | lo < n <= hi :: MayRetract(h, n)
    ensures forall n: uint64 | lo < n <= hi - 1 :: MayRetract(h + [Retracted(hi)], n)
  {
    forall n: uint64 | lo < n <= hi - 1 ensures MayRetract(h + [Retracted(hi)], n) {
      MayRetractStill(h, n, hi);
    }
  }

  // ---------------------------------------------------------------- keeping the invariant

  /** Rolling back to a stored record. */
  lemma StoreRewind(cfg: Config, s: Store.State, c: seq<Record>, high: int, q: uint64, s': Store.State)
    requires StoreOk(cfg, s, c, high)
    requires 1 <= q <= Last(c).number && Store.Has(s, cfg.chainId, q)
    requires Dropped(Store.Saved(s, Store.At(s, cfg.chainId, q)), s', cfg.chainId, Last(c).number, q)
    ensures StoreOk(cfg, s', Prefix(c, q), high)
    ensures Prefix(c, q) == c[..q - c[0].number + 1]
  {
    var c' := Prefix(c, q);
    assert c' == c[..q - c[0].number + 1];
    assert Linked(c', cfg.chainId);
    var r := Store.At(s, cfg.chainId, q);
    assert Store.BlockKey(cfg.chainId, q) in s.blocks;
    assert r.number == q && r.chainId == cfg.chainId;
    assert Store.Saved(s, r).blocks == s.blocks;
    forall n: uint64
      ensures Store.Has(s', cfg.chainId, n) <==> Store.Has(s, cfg.chainId, n) && !(q < n <= Last(c).number)
    {
    }
  }

  /** Starting over from a block that was missing below the whole window. */
  lemma StoreRepair(cfg: Config, s: Store.State, c: seq<Record>, high: int, r: Record, s': Store.State)
    requires StoreOk(cfg, s, c, high)
    requires r.chainId == cfg.chainId && 1 <= r.number <= Last(c).number
    requires !Store.Has(s, cfg.chainId, r.number) && r.hash != "" && r.number < MAX_UINT64
    requires Dropped(Store.Saved(s, r), s', cfg.chainId, Last(c).number, r.number)
    ensures StoreOk(cfg, s', [r], r.number)
  {
    forall n: uint64
      ensures Store.Has(s', cfg.chainId, n) <==>
              (n == r.number || Store.Has(s, cfg.chainId, n)) && !(r.number < n <= Last(c).number)
    {
    }
  }

  /** In a healthy world, a number that is scanned was delivered, or is the baseline. */
  lemma StoredWasDelivered(cfg: Config, env: Env, w: World, n: uint64)
    requires Healthy(cfg, env, w) && n >= 1 && Store.Has(w.store, cfg.chainId, n)
    ensures n in Replay(w.history) || n == Chain(w.history)[0].number
  {
    var c := Chain(w.history);
    assert c[n - c[0].number].number == n;
  }

  lemma RewoundReadings(h: History, r: Record)
    ensures Chain(h + [Rewound(r)]) == Prefix(Chain(h), r.number)
    ensures Replay(h + [Rewound(r)]) == Replay(h) && High(h + [Rewound(r)]) == High(h)
    ensures Owned(h + [Rewound(r)]) == Owned(h)
  {
    Append(h, Rewound(r));
  }

  /** Cutting the chain back and erasing what was above keeps the handler's view right. */
  lemma ViewRewind(id: ChainId, c: seq<Record>, view: map<uint64, Block>, q: uint64, view': map<uint64, Block>)
    requires HoldsChain(id, c, view) && Linked(c, id) && c != [] && c[0].number <= q <= Last(c).number
    requires Erased(view, view', Last(c).number, q)
    ensures HoldsChain(id, Prefix(c, q), view')
  {
  }

  lemma RewindHistory(cfg: Config, env: Env, h: History, r: Record, os: seq<Record>, k: uint64)
    requires Chain(h) != [] && Linked(Chain(h), cfg.chainId) && k == Last(Chain(h)).number
    requires HoldsChain(cfg.chainId, Chain(h), Replay(h)) && HistoryOk(cfg, env, h)
    requires OwnedOk(Chain(h), Owned(h))
    requires Chain(h)[0].number <= r.number <= k && Descending(os, cfg.chainId, k, r.number)
    ensures var h' := h + [Rewound(r)] + Retractions(os);
            && Chain(h') == Prefix(Chain(h), r.number)
            && High(h') == High(h)
            && HoldsChain(cfg.chainId, Chain(h'), Replay(h'))
            && Chain(h') != []
            && OwnedOk(Chain(h'), Owned(h'))
            && HistoryOk(cfg, env, h')
  {
    hide HistoryOk, HoldsChain, Erased, Descending, Retractions;
    var c, q := Chain(h), r.number;
    var h1 := h + [Rewound(r)];
    var h' := h1 + Retractions(os);
    RewoundReadings(h, r);
    HistoryOkAppend(cfg, env, h, Rewound(r));
    ViewByNumber(cfg.chainId, c, Replay(h));
    assert forall n: uint64 | q < n <= k :: MayRetract(h1, n);
    RetractionsReadings(h1, os, cfg.chainId, k, q);
    RetractionsOk(cfg, env, h1, os, cfg.chainId, k, q);
    ViewRewind(cfg.chainId, c, Replay(h), q, Replay(h'));
  }

  /** The reorg ended on a stored record: the chain is cut back to it and the handler follows. */
  lemma RewindKeeps(cfg: Config, env: Env, w: World, q: uint64, os: seq<Record>, t: nat)
    requires Healthy(cfg, env, w)
    requires 1 <= q <= Last(Chain(w.history)).number && Store.Has(w.store, cfg.chainId, q)
    requires Descending(os, cfg.chainId, Last(Chain(w.history)).number, q)
    ensures var r := Store.At(w.store, cfg.chainId, q);
            var end := RetractAll(SettleOn(cfg, w.(clock := t), r, Rewound(r)), os);
            && end.reply == Ok(())
            && Healthy(cfg, env, end.world)
            && Chain(end.world.history) == Prefix(Chain(w.history), q)
  {
    var c := Chain(w.history);
    var k := Last(c).number;
    var r := Store.At(w.store, cfg.chainId, q);
    assert r.number == q && r.chainId == cfg.chainId && c[0].number <= q;
    RewindHistory(cfg, env, w.history, r, os, k);
    var w1 := SettleOn(cfg, w.(clock := t), r, Rewound(r));
    RetractAllStore(w1, os, cfg.chainId, k, q);
    StoreRewind(cfg, w.store, c, High(w.history), q, RetractAll(w1, os).world.store);
  }

  /** The reorg ended on a block the store had lost: the chain starts over from it. */
  lemma RepairKeeps(cfg: Config, env: Env, w: World, r: Record, os: seq<Record>, t: nat)
    requires Healthy(cfg, env, w)
    requires r.chainId == cfg.chainId && 1 <= r.number <= Last(Chain(w.history)).number
    requires !Store.Has(w.store, cfg.chainId, r.number) && r.hash != "" && r.number < MAX_UINT64
    requires Descending(os, cfg.chainId, Last(Chain(w.history)).number, r.number)
    requires forall n: uint64 | r.number < n <= Last(Chain(w.history)).number :: Store.Has(w.store, cfg.chainId, n)
    requires exists t', n :: WasFetched(env, r, cfg.chainId, t', n)
    ensures var end := RetractAll(SettleOn(cfg, w.(clock := t), r, Baselined(r)), os);
            && end.reply == Ok(())
            && Healthy(cfg, env, end.world)
            && Chain(end.world.history) == [r]
  {
    var k := Last(Chain(w.history)).number;
    var w1 := SettleOn(cfg, w.(clock := t), r, Baselined(r));
    var h1 := w.history + [Baselined(r)];
    assert w1.history == h1;
    Append(w.history, Baselined(r));
    HistoryOkAppend(cfg, env, w.history, Baselined(r));
    forall n: uint64 | r.number < n <= k ensures MayRetract(h1, n) {
      StoredMayBeRetracted(cfg, env, w, n, Baselined(r));
    }
    RetractAllStore(w1, os, cfg.chainId, k, r.number);
    RetractionsReadings(h1, os, cfg.chainId, k, r.number);
    RetractionsOk(cfg, env, h1, os, cfg.chainId, k, r.number);
    var w2 := RetractAll(w1, os).world;
    StoreRepair(cfg, w.store, Chain(w.history), High(w.history), r, w2.store);
  }

  /** A stored number may be retracted after any move other than a rewind. */
  lemma StoredMayBeRetracted(cfg: Config, env: Env, w: World, n: uint64, e: Event)
    requires Healthy(cfg, env, w) && n >= 1 && Store.Has(w.store, cfg.chainId, n)
    requires e.Baselined? || e.Abandoned? || e.Misfiled?
    ensures MayRetract(w.history + [e], n)
  {
    Append(w.history, e);
    StoredWasDelivered(cfg, env, w, n);
  }

  /**
   The reorg ended without an ancestor on this chain: either the search ran out, or the missing block was
   saved under another chain's id. The orphans are deleted and the cursor names one of them.
   */
  lemma LossStrands(cfg: Config, env: Env, w: World, w1: World, e: Event, os: seq<Record>, q: uint64)
    requires Healthy(cfg, env, w)
    requires e.Abandoned? || e.Misfiled?
    requires q < Last(Chain(w.history)).number
    requires Descending(os, cfg.chainId, Last(Chain(w.history)).number, q)
    requires forall n: uint64 | q < n <= Last(Chain(w.history)).number :: Store.Has(w.store, cfg.chainId, n)
    requires w1.history == w.history + [e]
    requires !w1.store.closed && Store.Filed(w1.store, cfg.chainId) && cfg.chainId in w1.store.cursors
    requires q < w1.store.cursors[cfg.chainId] <= Last(Chain(w.history)).number
    ensures var end := RetractAll(w1, os);
            && end.reply == Ok(())
            && Stranded(cfg, env, end.world)
  {
    var k := Last(Chain(w.history)).number;
    HistoryOkAppend(cfg, env, w.history, e);
    forall n: uint64 | q < n <= k ensures MayRetract(w1.history, n) {
      StoredMayBeRetracted(cfg, env, w, n, e);
    }
    RetractAllStore(w1, os, cfg.chainId, k, q);
    DroppedFiled(w1.store, RetractAll(w1, os).world.store, cfg.chainId, k, q);
    RetractionsOk(cfg, env, w1.history, os, cfg.chainId, k, q);
  }
}
