/**
 The poller as a function from one world to the next. A world is the block store, the history and the number
 of external calls made so far. The class in Poller is proved to do exactly this.
 */
module PollerSpec {
  import opened Types
  import opened Environment
  import opened History
  import opened LogFetch
  import Store

  datatype World = World(store: Store.State, history: History, clock: nat)

  function Note(w: World, e: Event): World {
    w.(history := w.history + [e])
  }

  function Tock(w: World): World {
    w.(clock := w.clock + 1)
  }

  // ---------------------------------------------------------------- Start

  datatype Started = Started(world: World, reply: Reply<()>)

  /** Save `b` as the block to start after; nothing is handed to the handler. */
  function Baseline(cfg: Config, w: World, b: Block): Started {
    var r := RecordFor(cfg.chainId, b);
    if w.store.closed then Started(w, Err(StoreClosed))
    else Started(Note(w.(store := Store.Saved(w.store, r)), Baselined(r)), Ok(()))
  }

  function StartFrom(cfg: Config, env: Env, w: World, n: uint64): Started {
    match env.block(w.clock, n)
    case Err(e) => Started(Tock(w), Err(e))
    case Ok(b) => Baseline(cfg, Tock(w), b)
  }

  function Start(cfg: Config, env: Env, w: World): Started {
    if Store.GetLast(w.store, cfg.chainId).Ok? then Started(w, Ok(()))
    else if cfg.genesis > 0 then StartFrom(cfg, env, w, cfg.genesis)
    else
      match env.latest(w.clock)
      case Err(e) => Started(Tock(w), Err(e))
      case Ok(n) => StartFrom(cfg, env, Tock(w), n)
  }

  // ---------------------------------------------------------------- processBlockLogs

  datatype Offered = Offered(world: World, ok: bool)

  /** Decode the logs and hand them over one by one; stop at the first that cannot be decoded or is refused. */
  function OfferLogs(env: Env, w: World, b: Block, logs: seq<Log>): Offered
    decreases |logs|
  {
    if logs == [] then Offered(w, true)
    else
      match env.decode(w.clock, logs[0])
      case Err(_) => Offered(Tock(w), false)
      case Ok(d) =>
        var accepted := env.acceptsLog(w.clock + 1, b, logs[0], d);
        var w' := Note(Tock(Tock(w)), LogOffered(b, logs[0], d, accepted, w.clock + 2));
        if accepted then OfferLogs(env, w', b, logs[1..]) else Offered(w', false)
  }

  predicate Prunes(cfg: Config, n: uint64) {
    cfg.historySize > 0 && n > cfg.historySize
  }

  /** Save the record of a processed block, ignoring a save error, and prune the record that left the window. */
  function Commit(cfg: Config, w: World, r: Record): World {
    var saved := if w.store.closed then w else Note(w.(store := Store.Saved(w.store, r)), Committed(r));
    if Prunes(cfg, r.number) then
      saved.(store := Store.Deleted(saved.store, cfg.chainId, r.number - cfg.historySize))
    else saved
  }

  datatype Processed = Processed(world: World, reply: Reply<Record>)

  /** What happens to block b once its logs have been asked for. */
  function ProcessFetched(cfg: Config, env: Env, w: World, b: Block, fetched: Reply<seq<Log>>): Processed {
    match fetched
    case Err(e) => Processed(w, Err(e))
    case Ok(logs) =>
      var offered := OfferLogs(env, w, b.(chainId := cfg.chainId), logs);
      if !offered.ok then Processed(offered.world, Err(CallFailed))
      else
        var r := RecordFor(cfg.chainId, b);
        Processed(Commit(cfg, offered.world, r), Ok(r))
  }

  function ProcessBlock(cfg: Config, env: Env, w: World, b: Block): Processed {
    ProcessFetched(cfg, env, w.(clock := FetchEnd(env, w.clock, cfg)), b, FetchLogs(env, w.clock, cfg, b.number))
  }

  // ---------------------------------------------------------------- findOrphanedBlocks

  datatype SearchEnd =
    | Failed(error: Error)
    | Matched             // the stored record agrees with the client
    | Repaired(record: Record)  // nothing stored; the client's block was saved instead
    | Exhausted           // depth or block 0 reached

  /** `stop` is the number at which the search ended; `orphans` the records above it, highest first. */
  datatype Search = Search(world: World, orphans: seq<Record>, stop: uint64, end: SearchEnd, reply: Reply<()>)

  /** The loop guard, on wrapping arithmetic. */
  predicate InDepth(cfg: Config, start: uint64, p: uint64) {
    Sub64(start, p) <= AsUint64(cfg.maxReorgDepth) && p > 0
  }

  /** What the search leaves in the store and history when it ends on record r. */
  function SettleOn(cfg: Config, w: World, r: Record, e: Event): World {
    if w.store.closed then w
    else Note(w.(store := Store.Saved(w.store, r)), if r.chainId == cfg.chainId then e else Misfiled(r))
  }

  function Exhaust(cfg: Config, w: World, orphans: seq<Record>, p: uint64): Search {
    if orphans == [] then
      Search(w, orphans, p, Exhausted, Err(if w.store.closed then StoreClosed else NilBlock))
    else
      var r := Last(orphans);
      Search(SettleOn(cfg, w, r, Abandoned(r)), orphans, p, Exhausted, Store.SaveReply(w.store))
  }

  function SearchFrom(cfg: Config, env: Env, w: World, start: uint64, p: uint64, orphans: seq<Record>): Search
    decreases p
  {
    if !InDepth(cfg, start, p) then Exhaust(cfg, w, orphans, p)
    else
      var w1 := Tock(w);
      match env.block(w.clock, p)
      case Err(e) => Search(w1, orphans, p, Failed(e), Err(e))
      case Ok(canon) =>
        match Store.GetBlock(w.store, cfg.chainId, p)
        case Ok(r) =>
          if canon.hash != r.hash then SearchFrom(cfg, env, w1, start, p - 1, orphans + [r])
          else Search(SettleOn(cfg, w1, r, Rewound(r)), orphans, p, Matched, Store.SaveReply(w.store))
        case Err(NotFound) =>
          var r := RecordFor(canon.chainId, canon);
          Search(SettleOn(cfg, w1, r, Baselined(r)), orphans, p, Repaired(r), Store.SaveReply(w.store))
        case Err(e) => Search(w1, orphans, p, Failed(e), Err(e))
  }

  function FindOrphans(cfg: Config, env: Env, w: World, start: uint64): Search {
    SearchFrom(cfg, env, w, start, Sub64(start, 1), [])
  }

  // ---------------------------------------------------------------- reconcileReorg

  datatype Reconciled = Reconciled(world: World, reply: Reply<()>)

  /** Retract the orphans and delete their records, highest first. */
  function RetractAll(w: World, orphans: seq<Record>): Reconciled
    decreases |orphans|
  {
    if orphans == [] then Reconciled(w, Ok(()))
    else
      var o := orphans[0];
      var told := Note(Tock(w), Retracted(o.number));
      if w.store.closed then Reconciled(told, Err(StoreClosed))
      else RetractAll(told.(store := Store.Deleted(w.store, o.chainId, o.number)), orphans[1..])
  }

  function Reconcile(cfg: Config, env: Env, w: World, start: uint64): Reconciled {
    var s := FindOrphans(cfg, env, w, start);
    if s.reply.Err? then Reconciled(s.world, s.reply)
    else if s.orphans == [] then Reconciled(s.world, Err(NoOrphans))
    else RetractAll(s.world, s.orphans)
  }

  // ---------------------------------------------------------------- processNextBlock

  datatype TickEnd =
    | NoCursor               // no last processed block
    | NoTip                  // the latest block number is unavailable
    | Idle                   // nothing above the cursor
    | Hung                   // the range loop over block numbers never ends
    | FetchFailed(number: uint64)
    | BlockFailed(number: uint64)  // logs not fetched, not decoded or refused
    | Reorged(from: World, start: uint64, reply: Reply<()>)
    | CaughtUp

  datatype Ticked = Ticked(world: World, end: TickEnd)

  /** Process numbers n to tip; `last` is the record the next block must point back to. */
  function Forward(cfg: Config, env: Env, w: World, last: Record, n: uint64, tip: uint64): Ticked
    requires tip < MAX_UINT64
    decreases tip + 1 - n
  {
    if n > tip then Ticked(w, CaughtUp)
    else
      match env.block(w.clock, n)
      case Err(_) => Ticked(Tock(w), FetchFailed(n))
      case Ok(b) =>
        if b.parentHash != last.hash then
          var r := Reconcile(cfg, env, Tock(w), b.number);
          Ticked(r.world, Reorged(Tock(w), b.number, r.reply))
        else
          var p := ProcessBlock(cfg, env, Note(Tock(Tock(w)), Delivered(b, w.clock + 2)), b);
          if p.reply.Err? then Ticked(p.world, BlockFailed(n))
          else Forward(cfg, env, p.world, p.reply.value, n + 1, tip)
  }

  function Tick(cfg: Config, env: Env, w: World): Ticked {
    match Store.GetLast(w.store, cfg.chainId)
    case Err(_) => Ticked(w, NoCursor)
    case Ok(last) =>
      match env.latest(w.clock)
      case Err(_) => Ticked(Tock(w), NoTip)
      case Ok(tip) =>
        if tip <= last.number then Ticked(Tock(w), Idle)
        else if tip == MAX_UINT64 then Ticked(Tock(w), Hung)
        else Forward(cfg, env, Tock(w), last, last.number + 1, tip)
  }
}
