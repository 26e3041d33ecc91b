/**
 One tick amid others: the pollers of other chains share the store, and any number of their operations may come
 before each of this poller's own. The tick is proved to do to its own chain and to its handler exactly what it
 does when it is alone.
 */
module Interleaved {
  import opened Types
  import opened Environment
  import opened History
  import opened LogFetch
  import opened PollerSpec
  import Store

  /** The kinds of store operations the poller performs between two external calls. */
  datatype Site = Reading | Repairing | Saving | Deleting

  /** What others do to the store before the poller's own operation, by external calls made so far. */
  type Others = (nat, Site) -> seq<Store.Op>

  ghost predicate Elsewhere(others: Others, id: ChainId) {
    forall t: nat, site: Site :: AllElsewhere(others(t, site), id)
  }

  ghost predicate AllElsewhere(ops: seq<Store.Op>, id: ChainId) {
    forall i :: 0 <= i < |ops| ==> Store.OpChain(ops[i]) != id
  }

  function ApplyAll(s: Store.State, ops: seq<Store.Op>): Store.State
    decreases |ops|
  {
    if |ops| == 0 then s else ApplyAll(Store.Apply(s, ops[0]), ops[1..])
  }

  function Meanwhile(others: Others, w: World, site: Site): World {
    w.(store := ApplyAll(w.store, others(w.clock, site)))
  }

  // ---------------------------------------------------------------- the tick amid others

  function CommitAmid(cfg: Config, others: Others, w: World, r: Record): World {
    var w1 := Meanwhile(others, w, Saving);
    var saved := if w1.store.closed then w1 else Note(w1.(store := Store.Saved(w1.store, r)), Committed(r));
    if Prunes(cfg, r.number) then
      var w2 := Meanwhile(others, saved, Deleting);
      w2.(store := Store.Deleted(w2.store, cfg.chainId, r.number - cfg.historySize))
    else saved
  }

  function ProcessAmid(cfg: Config, env: Env, others: Others, w: World, b: Block): Processed {
    var w1 := w.(clock := FetchEnd(env, w.clock, cfg));
    match FetchLogs(env, w.clock, cfg, b.number)
    case Err(e) => Processed(w1, Err(e))
    case Ok(logs) =>
      var offered := OfferLogs(env, w1, b.(chainId := cfg.chainId), logs);
      if !offered.ok then Processed(offered.world, Err(CallFailed))
      else
        var r := RecordFor(cfg.chainId, b);
        Processed(CommitAmid(cfg, others, offered.world, r), Ok(r))
  }

  /** The search ends on r: one save, after the save that already happened if r was missing. */
  function SettleAmid(cfg: Config, others: Others, w: World, r: Record, e: Event): World {
    var w1 := if e.Baselined? then PutAmid(others, w, r) else w;
    SettleOn(cfg, Meanwhile(others, w1, Saving), r, e)
  }

  function PutAmid(others: Others, w: World, r: Record): World {
    var w1 := Meanwhile(others, w, Repairing);
    w1.(store := Store.Saved(w1.store, r))
  }

  function SearchAmid(
    cfg: Config, env: Env, others: Others, w: World, start: uint64, p: uint64, orphans: seq<Record>): Search
    decreases p
  {
    if !InDepth(cfg, start, p) then Exhaust(cfg, Meanwhile(others, w, Saving), orphans, p)
    else
      var w1 := Meanwhile(others, Tock(w), Reading);
      match env.block(w.clock, p)
      case Err(e) => Search(w1, orphans, p, Failed(e), Err(e))
      case Ok(canon) =>
        match Store.GetBlock(w1.store, cfg.chainId, p)
        case Ok(r) =>
          if canon.hash != r.hash then SearchAmid(cfg, env, others, w1, start, p - 1, orphans + [r])
          else Search(SettleAmid(cfg, others, w1, r, Rewound(r)), orphans, p, Matched, Store.SaveReply(w1.store))
        case Err(NotFound) =>
          var r := RecordFor(canon.chainId, canon);
          Search(SettleAmid(cfg, others, w1, r, Baselined(r)), orphans, p, Repaired(r), Store.SaveReply(w1.store))
        case Err(e) => Search(w1, orphans, p, Failed(e), Err(e))
  }

  function RetractAmid(others: Others, w: World, orphans: seq<Record>): World
    decreases |orphans|
  {
    if |orphans| == 0 then w
    else
      var o := orphans[0];
      var told := Meanwhile(others, Note(Tock(w), Retracted(o.number)), Deleting);
      if told.store.closed then told
      else RetractAmid(others, told.(store := Store.Deleted(told.store, o.chainId, o.number)), orphans[1..])
  }

  function ReconcileAmid(cfg: Config, env: Env, others: Others, w: World, start: uint64): World {
    var s := SearchAmid(cfg, env, others, w, start, Sub64(start, 1), []);
    if s.reply.Err? then s.world else RetractAmid(others, s.world, s.orphans)
  }

  function ForwardAmid(cfg: Config, env: Env, others: Others, w: World, last: Record, n: uint64, tip: uint64): World
    requires tip < MAX_UINT64
    decreases tip + 1 - n
  {
    if n > tip then w
    else
      match env.block(w.clock, n)
      case Err(_) => Tock(w)
      case Ok(b) =>
        if b.parentHash != last.hash then ReconcileAmid(cfg, env, others, Tock(w), b.number)
        else
          var p := ProcessAmid(cfg, env, others, Note(Tock(Tock(w)), Delivered(b, w.clock + 2)), b);
          if p.reply.Err? then p.world else ForwardAmid(cfg, env, others, p.world, p.reply.value, n + 1, tip)
  }

  function TickAmid(cfg: Config, env: Env, others: Others, w: World): World {
    var w1 := Meanwhile(others, w, Reading);
    match Store.GetLast(w1.store, cfg.chainId)
    case Err(_) => w1
    case Ok(last) =>
      match env.latest(w1.clock)
      case Err(_) => Tock(w1)
      case Ok(tip) =>
        if tip <= last.number || tip == MAX_UINT64 then Tock(w1)
        else ForwardAmid(cfg, env, others, Tock(w1), last, last.number + 1, tip)
  }

  // ---------------------------------------------------------------- the same to its own chain and handler

  /** Chain id and the handler cannot tell the two worlds apart. */
  ghost predicate Alike(w: World, w': World, id: ChainId) {
    Store.SameView(w.store, w'.store, id) && w.history == w'.history && w.clock == w'.clock
  }

  lemma {:induction false} OthersUnseen(s: Store.State, s': Store.State, ops: seq<Store.Op>, id: ChainId)
    requires Store.SameView(s, s', id) && AllElsewhere(ops, id)
    ensures Store.SameView(s, ApplyAll(s', ops), id)
    decreases |ops|
  {
    if |ops| > 0 {
      Store.OtherChainUnseen(s', ops[0], id);
      Store.SameViewTrans(s, s', Store.Apply(s', ops[0]), id);
      OthersUnseen(s, Store.Apply(s', ops[0]), ops[1..], id);
    }
  }

  lemma AlikeMeanwhile(others: Others, w: World, w': World, site: Site, id: ChainId)
    requires Alike(w, w', id) && Elsewhere(others, id)
    ensures Alike(w, Meanwhile(others, w', site), id)
  {
    OthersUnseen(w.store, w'.store, others(w'.clock, site), id);
  }

  /** The same operation, on whatever chain, keeps two stores alike. */
  lemma SameOp(s: Store.State, s': Store.State, op: Store.Op, id: ChainId)
    requires Store.SameView(s, s', id)
    ensures Store.SameView(Store.Apply(s, op), Store.Apply(s', op), id)
  {
    if Store.OpChain(op) == id {
      Store.SameViewSteps(s, s', op);
    } else {
      forall n: uint64
        ensures Store.Has(Store.Apply(s, op), id, n) <==> Store.Has(Store.Apply(s', op), id, n)
        ensures Store.Has(Store.Apply(s, op), id, n) ==>
                  Store.At(Store.Apply(s, op), id, n) == Store.At(Store.Apply(s', op), id, n)
      {
        assert Store.Has(s, id, n) <==> Store.Has(s', id, n);
      }
    }
  }

  lemma SavedAlike(s: Store.State, s': Store.State, r: Record, id: ChainId)
    requires Store.SameView(s, s', id)
    ensures Store.SameView(Store.Saved(s, r), Store.Saved(s', r), id)
  {
    SameOp(s, s', Store.SaveOp(r), id);
  }

  lemma DeletedAlike(s: Store.State, s': Store.State, d: ChainId, n: uint64, id: ChainId)
    requires Store.SameView(s, s', id)
    ensures Store.SameView(Store.Deleted(s, d, n), Store.Deleted(s', d, n), id)
  {
    SameOp(s, s', Store.DeleteOp(d, n), id);
  }

  lemma CommitAlike(cfg: Config, others: Others, w: World, w': World, r: Record)
    requires Alike(w, w', cfg.chainId) && Elsewhere(others, cfg.chainId)
    ensures Alike(Commit(cfg, w, r), CommitAmid(cfg, others, w', r), cfg.chainId)
  {
    hide Store.Saved, Store.Deleted, Meanwhile, Elsewhere;
    var id := cfg.chainId;
    AlikeMeanwhile(others, w, w', Saving, id);
    var w1 := Meanwhile(others, w', Saving);
    SavedAlike(w.store, w1.store, r, id);
    assert w.store.closed == w1.store.closed;
    var saved := if w.store.closed then w else Note(w.(store := Store.Saved(w.store, r)), Committed(r));
    var saved' := if w1.store.closed then w1 else Note(w1.(store := Store.Saved(w1.store, r)), Committed(r));
    assert Alike(saved, saved', id);
    if Prunes(cfg, r.number) {
      AlikeMeanwhile(others, saved, saved', Deleting, id);
      DeletedAlike(saved.store, Meanwhile(others, saved', Deleting).store, id, r.number - cfg.historySize, id);
    }
  }

  lemma {:induction false} OffersAlike(env: Env, w: World, w': World, b: Block, logs: seq<Log>, id: ChainId)
    requires Alike(w, w', id)
    ensures var o, o' := OfferLogs(env, w, b, logs), OfferLogs(env, w', b, logs);
            o.ok == o'.ok && Alike(o.world, o'.world, id)
    decreases |logs|
  {
    if logs != [] && env.decode(w.clock, logs[0]).Ok? {
      var d := env.decode(w.clock, logs[0]).value;
      var e := LogOffered(b, logs[0], d, env.acceptsLog(w.clock + 1, b, logs[0], d), w.clock + 2);
      OffersAlike(env, Note(Tock(Tock(w)), e), Note(Tock(Tock(w')), e), b, logs[1..], id);
    }
  }

  lemma ProcessAlike(cfg: Config, env: Env, others: Others, w: World, w': World, b: Block)
    requires Alike(w, w', cfg.chainId) && Elsewhere(others, cfg.chainId)
    ensures var p, p' := ProcessBlock(cfg, env, w, b), ProcessAmid(cfg, env, others, w', b);
            p.reply == p'.reply && Alike(p.world, p'.world, cfg.chainId)
  {
    hide Store.SameView, Commit, CommitAmid, OfferLogs, FetchLogs, Elsewhere;
    var fetched := FetchLogs(env, w.clock, cfg, b.number);
    if fetched.Ok? {
      var t := FetchEnd(env, w.clock, cfg);
      var stamped := b.(chainId := cfg.chainId);
      OffersAlike(env, w.(clock := t), w'.(clock := t), stamped, fetched.value, cfg.chainId);
      var o := OfferLogs(env, w.(clock := t), stamped, fetched.value);
      var o' := OfferLogs(env, w'.(clock := t), stamped, fetched.value);
      CommitAlike(cfg, others, o.world, o'.world, RecordFor(cfg.chainId, b));
    }
  }

  lemma SettleOnAlike(cfg: Config, w: World, w': World, r: Record, e: Event)
    requires Alike(w, w', cfg.chainId)
    ensures Alike(SettleOn(cfg, w, r, e), SettleOn(cfg, w', r, e), cfg.chainId)
  {
    SavedAlike(w.store, w'.store, r, cfg.chainId);
  }

  lemma SettleAlike(cfg: Config, others: Others, w: World, w': World, r: Record, e: Event)
    requires Alike(w, w', cfg.chainId) && Elsewhere(others, cfg.chainId)
    ensures Alike(SettleOn(cfg, w, r, e), SettleAmid(cfg, others, w', r, e), cfg.chainId)
  {
    hide Meanwhile, Elsewhere, Store.Saved;
    var id := cfg.chainId;
    if e.Baselined? {
      AlikeMeanwhile(others, w, w', Repairing, id);
      var w1 := Meanwhile(others, w', Repairing);
      SavedAlike(w.store, w1.store, r, id);
      var put, put' := w.(store := Store.Saved(w.store, r)), PutAmid(others, w', r);
      AlikeMeanwhile(others, put, put', Saving, id);
      SettleOnAlike(cfg, put, Meanwhile(others, put', Saving), r, e);
      Store.SavedTwice(w.store, r);
      SavedStaysOpen(w.store, r);
    } else {
      AlikeMeanwhile(others, w, w', Saving, id);
      SettleOnAlike(cfg, w, Meanwhile(others, w', Saving), r, e);
    }
  }

  lemma SavedStaysOpen(s: Store.State, r: Record)
    ensures Store.Saved(s, r).closed == s.closed && (s.closed ==> Store.Saved(s, r) == s)
  {
  }

  ghost predicate SearchesAlike(s: Search, s': Search, id: ChainId) {
    s.orphans == s'.orphans && s.stop == s'.stop && s.end == s'.end && s.reply == s'.reply && Alike(s.world, s'.world, id)
  }

  lemma {:induction false} SearchAlike(
    cfg: Config, env: Env, others: Others, w: World, w': World, start: uint64, p: uint64, orphans: seq<Record>)
    requires Alike(w, w', cfg.chainId) && Elsewhere(others, cfg.chainId)
    ensures SearchesAlike(
              SearchFrom(cfg, env, w, start, p, orphans), SearchAmid(cfg, env, others, w', start, p, orphans), cfg.chainId)
    decreases p
  {
    hide Meanwhile, Elsewhere, SettleOn, SettleAmid;
    var id := cfg.chainId;
    if !InDepth(cfg, start, p) {
      AlikeMeanwhile(others, w, w', Saving, id);
      if orphans != [] {
        SettleOnAlike(cfg, w, Meanwhile(others, w', Saving), Last(orphans), Abandoned(Last(orphans)));
      }
    } else {
      AlikeMeanwhile(others, Tock(w), Tock(w'), Reading, id);
      var w1 := Meanwhile(others, Tock(w'), Reading);
      assert Store.Has(w.store, id, p) <==> Store.Has(w1.store, id, p);
      if env.block(w.clock, p).Ok? && !w.store.closed {
        var canon := env.block(w.clock, p).value;
        if !Store.Has(w.store, id, p) {
          var r := RecordFor(canon.chainId, canon);
          SettleAlike(cfg, others, Tock(w), w1, r, Baselined(r));
        } else {
          var r := Store.At(w.store, id, p);
          if canon.hash != r.hash {
            SearchAlike(cfg, env, others, Tock(w), w1, start, p - 1, orphans + [r]);
          } else {
            SettleAlike(cfg, others, Tock(w), w1, r, Rewound(r));
          }
        }
      }
    }
  }

  lemma {:induction false} RetractAlike(others: Others, w: World, w': World, orphans: seq<Record>, id: ChainId)
    requires Alike(w, w', id) && Elsewhere(others, id)
    ensures Alike(RetractAll(w, orphans).world, RetractAmid(others, w', orphans), id)
    decreases |orphans|
  {
    hide Meanwhile, Elsewhere, Store.Deleted;
    if orphans != [] {
      var o := orphans[0];
      var e := Retracted(o.number);
      AlikeMeanwhile(others, Note(Tock(w), e), Note(Tock(w'), e), Deleting, id);
      var told, told' := Note(Tock(w), e), Meanwhile(others, Note(Tock(w'), e), Deleting);
      DeletedAlike(told.store, told'.store, o.chainId, o.number, id);
      if !w.store.closed {
        RetractAlike(others, told.(store := Store.Deleted(told.store, o.chainId, o.number)),
                     told'.(store := Store.Deleted(told'.store, o.chainId, o.number)), orphans[1..], id);
      }
    }
  }

  lemma ReconcileAlike(cfg: Config, env: Env, others: Others, w: World, w': World, start: uint64)
    requires Alike(w, w', cfg.chainId) && Elsewhere(others, cfg.chainId)
    ensures Alike(Reconcile(cfg, env, w, start).world, ReconcileAmid(cfg, env, others, w', start), cfg.chainId)
  {
    hide Alike, Elsewhere, SearchFrom, SearchAmid;
    var p := Sub64(start, 1);
    SearchAlike(cfg, env, others, w, w', start, p, []);
    var s, s' := SearchFrom(cfg, env, w, start, p, []), SearchAmid(cfg, env, others, w', start, p, []);
    RetractAlike(others, s.world, s'.world, s.orphans, cfg.chainId);
  }

  lemma {:induction false} ForwardAlike(
    cfg: Config, env: Env, others: Others, w: World, w': World, last: Record, n: uint64, tip: uint64)
    requires Alike(w, w', cfg.chainId) && Elsewhere(others, cfg.chainId) && tip < MAX_UINT64
    ensures Alike(
              Forward(cfg, env, w, last, n, tip).world, ForwardAmid(cfg, env, others, w', last, n, tip), cfg.chainId)
    decreases tip + 1 - n
  {
    hide Store.SameView, Elsewhere, ProcessBlock, ProcessAmid, Reconcile, ReconcileAmid;
    if n <= tip && env.block(w.clock, n).Ok? {
      var b := env.block(w.clock, n).value;
      if b.parentHash != last.hash {
        ReconcileAlike(cfg, env, others, Tock(w), Tock(w'), b.number);
      } else {
        var e := Delivered(b, w.clock + 2);
        var wd, wd' := Note(Tock(Tock(w)), e), Note(Tock(Tock(w')), e);
        ProcessAlike(cfg, env, others, wd, wd', b);
        var p, p' := ProcessBlock(cfg, env, wd, b), ProcessAmid(cfg, env, others, wd', b);
        if p.reply.Ok? {
          ForwardAlike(cfg, env, others, p.world, p'.world, p.reply.value, n + 1, tip);
        }
      }
    }
  }

  /**
   Whatever operations of other chains come between a tick's own operations on the store, the tick makes the same
   calls to client and handler, and its chain ends up with the same cursor and the same records.
   */
  lemma TickAlike(cfg: Config, env: Env, others: Others, w: World, w': World)
    requires Alike(w, w', cfg.chainId) && Elsewhere(others, cfg.chainId)
    ensures Alike(Tick(cfg, env, w).world, TickAmid(cfg, env, others, w'), cfg.chainId)
  {
    hide Elsewhere, Forward, ForwardAmid, Meanwhile;
    AlikeMeanwhile(others, w, w', Reading, cfg.chainId);
    var w1 := Meanwhile(others, w', Reading);
    if cfg.chainId in w.store.cursors {
      var k := w.store.cursors[cfg.chainId];
      assert Store.Has(w.store, cfg.chainId, k) <==> Store.Has(w1.store, cfg.chainId, k);
    }
    assert Store.GetLast(w.store, cfg.chainId) == Store.GetLast(w1.store, cfg.chainId);
    if Store.GetLast(w.store, cfg.chainId).Ok? && env.latest(w.clock).Ok? {
      var last, tip := Store.GetLast(w.store, cfg.chainId).value, env.latest(w.clock).value;
      if last.number < tip < MAX_UINT64 {
        ForwardAlike(cfg, env, others, Tock(w), Tock(w1), last, last.number + 1, tip);
      }
    }
  }
}
