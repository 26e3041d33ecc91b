/** What a tick does, call by call: which calls it makes, in which order, how many, and why it ends. */
module Trace {
  import opened Types
  import opened Environment
  import opened History
  import opened Chunks
  import opened LogFetch
  import opened PollerSpec
  import opened Offers
  import opened Invariant
  import opened Reorg
  import opened Runs
  import Store

  // ---------------------------------------------------------------- readings of a trace

  /** lo, lo + 1, ..., hi - 1. */
  function Range(lo: int, hi: int): seq<int>
    requires lo <= hi
  {
    seq(hi - lo, i requires 0 <= i < hi - lo => lo + i)
  }

  datatype Kind = Deliveries | Retractions | Commits

  /** The number an event of the given kind is about. */
  function NumberOf(e: Event, kind: Kind): seq<int> {
    match e
    case Delivered(b, _) => if kind == Deliveries then [b.number] else []
    case Retracted(n) => if kind == Retractions then [n] else []
    case Committed(r) => if kind == Commits then [r.number] else []
    case _ => []
  }

  /** The numbers HandleBlock or HandleReorgBlock is called with, or that are committed, in order. */
  function Numbers(es: History, kind: Kind): seq<int> {
    if es == [] then [] else NumberOf(es[0], kind) + Numbers(es[1..], kind)
  }

  /** How many batches the contracts listed at call t make. */
  function BatchCount(cfg: Config, env: Env, t: nat): nat {
    CeilDiv(|Interesting(cfg.contracts, env.registry(t))|, EffectiveSize(cfg.maxAddresses))
  }

  /**
   The external calls an event stands for. A delivery stands for fetching the block, handing it over, reading the
   registry and querying the batches; an offer for decoding the log and handing it over.
   */
  function EventCalls(cfg: Config, env: Env, e: Event): nat {
    match e
    case Delivered(_, at) => 3 + BatchCount(cfg, env, at)
    case LogOffered(_, _, _, _, _) => 2
    case Retracted(_) => 1
    case _ => 0
  }

  function Calls(cfg: Config, env: Env, es: History): nat {
    if es == [] then 0 else EventCalls(cfg, env, es[0]) + Calls(cfg, env, es[1..])
  }

  lemma {:induction false} NumbersConcat(a: History, b: History, kind: Kind)
    ensures Numbers(a + b, kind) == Numbers(a, kind) + Numbers(b, kind)
  {
    if a == [] {
      assert a + b == b;
    } else {
      assert (a + b)[0] == a[0] && (a + b)[1..] == a[1..] + b;
      NumbersConcat(a[1..], b, kind);
    }
  }

  lemma {:induction false} CallsConcat(cfg: Config, env: Env, a: History, b: History)
    ensures Calls(cfg, env, a + b) == Calls(cfg, env, a) + Calls(cfg, env, b)
  {
    if a == [] {
      assert a + b == b;
    } else {
      assert (a + b)[0] == a[0] && (a + b)[1..] == a[1..] + b;
      CallsConcat(cfg, env, a[1..], b);
    }
  }

  lemma OneEvent(cfg: Config, env: Env, e: Event)
    ensures forall kind :: Numbers([e], kind) == NumberOf(e, kind)
    ensures Calls(cfg, env, [e]) == EventCalls(cfg, env, e)
  {
    assert [e][1..] == [];
  }

  lemma {:induction false} OffersReadings(cfg: Config, env: Env, es: History, kind: Kind)
    requires OnlyOffers(es)
    ensures Numbers(es, kind) == [] && Calls(cfg, env, es) == 2 * |es|
  {
    if es != [] {
      OffersReadings(cfg, env, es[1..], kind);
    }
  }

  // ---------------------------------------------------------------- one block

  /** The logs of block b, asked for at call t, arrive, can all be decoded and are all accepted. */
  ghost predicate Processable(cfg: Config, env: Env, t: nat, b: Block) {
    && FetchLogs(env, t, cfg, b.number).Ok?
    && AllPass(env, FetchEnd(env, t, cfg), b.(chainId := cfg.chainId), FetchLogs(env, t, cfg, b.number).value)
  }

  /** es are the offers made for block b after its logs were asked for at call t. */
  ghost predicate OffersOf(cfg: Config, env: Env, t: nat, b: Block, es: History) {
    match FetchLogs(env, t, cfg, b.number)
    case Err(_) => es == []
    case Ok(logs) => OffersFrom(env, FetchEnd(env, t, cfg), b.(chainId := cfg.chainId), logs, es)
  }

  /** Why the processing of block b, whose logs were asked for at call t, ended at call `end` after the offers es. */
  ghost predicate Stopped(cfg: Config, env: Env, t: nat, b: Block, es: History, end: nat) {
    match FetchLogs(env, t, cfg, b.number)
    case Err(_) => es == [] && end == t + 1 + BatchCount(cfg, env, t)
    case Ok(logs) => StoppedBy(env, t + 1 + BatchCount(cfg, env, t), logs, es, end)
  }

  /**
   Processing a delivered block, exactly. It is committed, with its own content, if and only if its logs arrive, can all
   be decoded and are all accepted; the offers made are those of its logs; and a block that is not committed leaves
   nothing behind but its offers.
   */
  lemma ProcessedIff(cfg: Config, env: Env, w: World, b: Block) returns (es: History)
    requires !w.store.closed
    ensures OnlyOffers(es) && OffersOf(cfg, env, w.clock, b, es)
    ensures var p := ProcessBlock(cfg, env, w, b);
            && (p.reply.Ok? <==> Processable(cfg, env, w.clock, b))
            && (p.reply.Ok? ==>
                  && SameContent(p.reply.value, b, cfg.chainId)
                  && p.world.history == w.history + es + [Committed(p.reply.value)]
                  && p.world.clock == w.clock + 1 + BatchCount(cfg, env, w.clock) + 2 * |es|
                  && |es| == |FetchLogs(env, w.clock, cfg, b.number).value|)
            && (p.reply.Err? ==>
                  && p.world.history == w.history + es && p.world.store == w.store
                  && Stopped(cfg, env, w.clock, b, es, p.world.clock))
  {
    hide FetchLogs, OfferLogs, Interesting;
    var logs := FetchLogs(env, w.clock, cfg, b.number);
    CutCount(Interesting(cfg.contracts, env.registry(w.clock)), EffectiveSize(cfg.maxAddresses));
    es := [];
    if logs.Ok? {
      var w1, stamped := w.(clock := FetchEnd(env, w.clock, cfg)), b.(chainId := cfg.chainId);
      es := OffersAre(env, w1, stamped, logs.value);
    }
  }

  /**
   Whether a block counts as processed does not depend on the store: a save that fails, as it does on a closed store,
   is ignored.
   */
  lemma SaveErrorsAreIgnored(cfg: Config, env: Env, w: World, s: Store.State, b: Block)
    ensures ProcessBlock(cfg, env, w.(store := s), b).reply == ProcessBlock(cfg, env, w, b).reply
    ensures ProcessBlock(cfg, env, w.(store := s), b).world.clock == ProcessBlock(cfg, env, w, b).world.clock
  {
    var logs := FetchLogs(env, w.clock, cfg, b.number);
    if logs.Ok? {
      OffersIgnoreStore(env, w.(clock := FetchEnd(env, w.clock, cfg)), s, b.(chainId := cfg.chainId), logs.value);
    }
  }

  lemma {:induction false} OffersIgnoreStore(env: Env, w: World, s: Store.State, b: Block, logs: seq<Log>)
    ensures var o, o' := OfferLogs(env, w, b, logs), OfferLogs(env, w.(store := s), b, logs);
            o'.ok == o.ok && o'.world == o.world.(store := s)
    decreases |logs|
  {
    if logs != [] && env.decode(w.clock, logs[0]).Ok? {
      var d := env.decode(w.clock, logs[0]).value;
      var accepted := env.acceptsLog(w.clock + 1, b, logs[0], d);
      OffersIgnoreStore(env, Note(Tock(Tock(w)), LogOffered(b, logs[0], d, accepted, w.clock + 2)), s, b, logs[1..]);
    }
  }

  // ---------------------------------------------------------------- the walk

  /** Every delivery in es happens right after the calls of what came before, the first of them at call t. */
  ghost predicate OnTime(cfg: Config, env: Env, t: nat, es: History) {
    forall i :: 0 <= i < |es| && es[i].Delivered? ==> es[i].at == t + Calls(cfg, env, es[..i]) + 2
  }

  /** es delivers, processes and commits the numbers lo to hi - 1, each once and in order, and does nothing else. */
  ghost predicate Complete(cfg: Config, env: Env, t: nat, es: History, lo: int, hi: int) {
    && lo <= hi
    && Numbers(es, Deliveries) == Range(lo, hi)
    && Numbers(es, Commits) == Range(lo, hi)
    && (forall i :: 0 <= i < |es| ==> es[i].Delivered? || es[i].LogOffered? || es[i].Committed?)
    && OnTime(cfg, env, t, es)
  }

  lemma CompleteConcat(cfg: Config, env: Env, t: nat, a: History, b: History, lo: int, mid: int, hi: int)
    requires Complete(cfg, env, t, a, lo, mid) && Complete(cfg, env, t + Calls(cfg, env, a), b, mid, hi)
    ensures Complete(cfg, env, t, a + b, lo, hi)
  {
    hide Calls, Numbers;
    NumbersConcat(a, b, Deliveries);
    NumbersConcat(a, b, Commits);
    assert Range(lo, mid) + Range(mid, hi) == Range(lo, hi);
    var c := a + b;
    forall i | 0 <= i < |c| && c[i].Delivered? ensures c[i].at == t + Calls(cfg, env, c[..i]) + 2 {
      if i < |a| {
        assert c[..i] == a[..i];
      } else {
        assert c[..i] == a + b[..i - |a|];
        CallsConcat(cfg, env, a, b[..i - |a|]);
      }
    }
  }

  /** One block, delivered, processed and committed. */
  lemma OneBlock(cfg: Config, env: Env, t: nat, b: Block, offers: History, r: Record)
    requires OnlyOffers(offers) && r.number == b.number
    ensures var es := [Delivered(b, t + 2)] + offers + [Committed(r)];
            && Complete(cfg, env, t, es, b.number, b.number + 1)
            && Calls(cfg, env, es) == 3 + BatchCount(cfg, env, t + 2) + 2 * |offers|
  {
    hide BatchCount, Calls, Numbers;
    var d, c := Delivered(b, t + 2), Committed(r);
    var es := [d] + offers + [c];
    OneEvent(cfg, env, d);
    OneEvent(cfg, env, c);
    forall kind ensures Numbers(es, kind) == NumberOf(d, kind) + NumberOf(c, kind) {
      OffersReadings(cfg, env, offers, kind);
      NumbersConcat([d] + offers, [c], kind);
      NumbersConcat([d], offers, kind);
    }
    OffersReadings(cfg, env, offers, Commits);
    CallsConcat(cfg, env, [d] + offers, [c]);
    CallsConcat(cfg, env, [d], offers);
    assert Range(b.number, b.number + 1) == [b.number];
    NothingYet(cfg, env, t, 0);
    assert es[..0] == [];
  }

  /** How a walk ends that completed the numbers below m in es, starting at world w. */
  ghost predicate EndsAt(cfg: Config, env: Env, w: World, tip: uint64, f: Ticked, m: uint64, es: History) {
    var t := w.clock + Calls(cfg, env, es);
    match f.end
    case CaughtUp => m == tip + 1 && f.world.history == w.history + es && f.world.clock == t
    case FetchFailed(n) =>
      && n == m <= tip && env.block(t, m).Err?
      && f.world.history == w.history + es && f.world.clock == t + 1
    case BlockFailed(n) =>
      && n == m <= tip && env.block(t, m).Ok? && env.block(t, m).value.number == m
      && Chain(w.history + es) != [] && env.block(t, m).value.parentHash == Last(Chain(w.history + es)).hash
      && !Processable(cfg, env, t + 2, env.block(t, m).value)
      && exists offers ::
           && OnlyOffers(offers) && OffersOf(cfg, env, t + 2, env.block(t, m).value, offers)
           && Stopped(cfg, env, t + 2, env.block(t, m).value, offers, f.world.clock)
           && f.world.history == w.history + es + [Delivered(env.block(t, m).value, t + 2)] + offers
    case Reorged(from, start, _) =>
      && m <= tip && env.block(t, m).Ok? && start == env.block(t, m).value.number
      && Chain(w.history + es) != [] && env.block(t, m).value.parentHash != Last(Chain(w.history + es)).hash
      && from.history == w.history + es && from.clock == t + 1
    case _ => false
  }

  lemma NothingYet(cfg: Config, env: Env, t: nat, n: int)
    ensures Complete(cfg, env, t, [], n, n) && Calls(cfg, env, []) == 0
  {
  }

  /** What the first iteration leaves the rest of the walk to do. */
  lemma EndsLater(cfg: Config, env: Env, w: World, next: World, tip: uint64, f: Ticked, m: uint64, seg: History, es: History)
    requires next.history == w.history + seg && next.clock == w.clock + Calls(cfg, env, seg)
    requires EndsAt(cfg, env, next, tip, f, m, es)
    ensures EndsAt(cfg, env, w, tip, f, m, seg + es)
  {
    hide Calls, Processable, OffersOf, Stopped;
    CallsConcat(cfg, env, seg, es);
    assert next.history + es == w.history + (seg + es);
  }

  /**
   The forward walk, exactly: it delivers, processes and commits number after number, each once, one call after the
   other, until it is at the tip or something is in the way; and what is in the way is what it reports.
   */
  lemma {:induction false} WalkIs(cfg: Config, env: Env, w: World, last: Record, n: uint64, tip: uint64)
    returns (m: uint64, es: History)
    requires Healthy(cfg, env, w) && Honest(env, cfg.chainId)
    requires last == Last(Chain(w.history)) && n == last.number + 1 <= tip + 1 && tip < MAX_UINT64
    ensures Complete(cfg, env, w.clock, es, n, m) && n <= m <= tip + 1
    ensures EndsAt(cfg, env, w, tip, Forward(cfg, env, w, last, n, tip), m, es)
    decreases tip + 1 - n
  {
    hide Healthy, Stranded, ProcessBlock, Reconcile, WalkOk, Complete, Calls, Processable, OffersOf, Stopped, CommitTo;
    HealthyChain(cfg, env, w);
    NothingYet(cfg, env, w.clock, n);
    m, es := n, [];
    assert w.history + [] == w.history;
    if n <= tip && env.block(w.clock, n).Ok? {
      var b := env.block(w.clock, n).value;
      if b.parentHash == last.hash {
        var more, next, r := ForwardProcesses(cfg, env, w, last, n, tip, b);
        var offers := BlockStep(cfg, env, w, b);
        if more {
          var seg := [Delivered(b, w.clock + 2)] + offers + [Committed(r)];
          OneBlock(cfg, env, w.clock, b, offers, r);
          var rest;
          m, rest := WalkIs(cfg, env, next, r, n + 1, tip);
          es := seg + rest;
          CompleteConcat(cfg, env, w.clock, seg, rest, n, n + 1, m);
          EndsLater(cfg, env, w, next, tip, Forward(cfg, env, w, last, n, tip), m, seg, rest);
        }
      }
    }
  }

  /** One linking block, from the call that fetches it. */
  lemma BlockStep(cfg: Config, env: Env, w: World, b: Block) returns (offers: History)
    requires !w.store.closed
    ensures OnlyOffers(offers) && OffersOf(cfg, env, w.clock + 2, b, offers)
    ensures var p := ProcessBlock(cfg, env, Note(Tock(Tock(w)), Delivered(b, w.clock + 2)), b);
            && (p.reply.Ok? <==> Processable(cfg, env, w.clock + 2, b))
            && (p.reply.Ok? ==>
                  && p.reply.value.number == b.number
                  && p.world.history == w.history + ([Delivered(b, w.clock + 2)] + offers + [Committed(p.reply.value)])
                  && p.world.clock == w.clock + 3 + BatchCount(cfg, env, w.clock + 2) + 2 * |offers|)
            && (p.reply.Err? ==>
                  && p.world.history == w.history + [Delivered(b, w.clock + 2)] + offers
                  && Stopped(cfg, env, w.clock + 2, b, offers, p.world.clock))
  {
    hide ProcessBlock, Processable, OffersOf, BatchCount, Stopped;
    offers := ProcessedIff(cfg, env, Note(Tock(Tock(w)), Delivered(b, w.clock + 2)), b);
  }

  // ---------------------------------------------------------------- the tick

  /**
   A tick, exactly. The tip is asked for once; without an answer, or with nothing above the cursor, nothing happens;
   otherwise the numbers above the cursor are walked, beginning with the next call.
   */
  lemma TickIs(cfg: Config, env: Env, w: World) returns (m: uint64, es: History)
    requires Healthy(cfg, env, w) && Honest(env, cfg.chainId)
    ensures var k, f := Last(Chain(w.history)).number, Tick(cfg, env, w);
            match env.latest(w.clock)
            case Err(_) => f == Ticked(Tock(w), NoTip)
            case Ok(tip) =>
              if tip <= k then f == Ticked(Tock(w), Idle)
              else if tip == MAX_UINT64 then f == Ticked(Tock(w), Hung)
              else
                && k < m <= tip + 1
                && Complete(cfg, env, w.clock + 1, es, k + 1, m)
                && EndsAt(cfg, env, Tock(w), tip, f, m, es)
  {
    hide Healthy, Forward, Complete, EndsAt;
    CursorResolves(cfg, env, w);
    TimePasses(cfg, env, w, w.clock + 1);
    m, es := 0, [];
    var last := Last(Chain(w.history));
    if env.latest(w.clock).Ok? && last.number < env.latest(w.clock).value < MAX_UINT64 {
      m, es := WalkIs(cfg, env, Tock(w), last, last.number + 1, env.latest(w.clock).value);
    }
  }

  /** What happened since history h. */
  function Since(h: History, w: World): History {
    if |h| <= |w.history| then w.history[|h|..] else []
  }

  /** es delivers the numbers lo to delivered - 1, commits lo to committed - 1, each once and in order; no retraction. */
  ghost predicate Told(es: History, lo: int, delivered: int, committed: int) {
    && lo <= committed <= delivered
    && Numbers(es, Deliveries) == Range(lo, delivered)
    && Numbers(es, Commits) == Range(lo, committed)
    && Numbers(es, Retractions) == []
  }

  lemma {:induction false} NoRetraction(es: History)
    requires forall i :: 0 <= i < |es| ==> !es[i].Retracted?
    ensures Numbers(es, Retractions) == []
  {
    if es != [] {
      NoRetraction(es[1..]);
    }
  }

  lemma CompleteTells(cfg: Config, env: Env, t: nat, es: History, lo: int, hi: int)
    requires Complete(cfg, env, t, es, lo, hi)
    ensures Told(es, lo, hi, hi)
  {
    NoRetraction(es);
  }

  /** One more delivery, and its offers. */
  lemma ToldOneMore(es: History, lo: int, hi: int, b: Block, t: nat, offers: History)
    requires Told(es, lo, hi, hi) && b.number == hi && OnlyOffers(offers)
    ensures Told(es + [Delivered(b, t)] + offers, lo, hi + 1, hi)
  {
    hide Numbers;
    var d := Delivered(b, t);
    forall kind ensures Numbers(es + [d] + offers, kind) == Numbers(es, kind) + NumberOf(d, kind) {
      NumbersConcat(es + [d], offers, kind);
      NumbersConcat(es, [d], kind);
      OneDelivery(d, offers, kind);
    }
    assert Range(lo, hi + 1) == Range(lo, hi) + [hi];
  }

  lemma OneDelivery(d: Event, offers: History, kind: Kind)
    requires OnlyOffers(offers)
    ensures Numbers([d], kind) == NumberOf(d, kind) && Numbers(offers, kind) == []
    decreases |offers|
  {
    assert [d][1..] == [];
    if offers != [] {
      OneDelivery(d, offers[1..], kind);
    }
  }

  /**
   The handler is told of every block once. A tick that reaches the tip has delivered and committed exactly the numbers
   from the cursor's successor to the tip; a tick that fails on n has delivered and committed exactly those below n,
   and delivered n too if it was n's logs that failed; a tick that meets a reorg has done so for the numbers below the
   block that does not link. Only then is anything retracted.
   */
  lemma TickDeliversOnce(cfg: Config, env: Env, w: World) returns (m: uint64)
    requires Healthy(cfg, env, w) && Honest(env, cfg.chainId)
    ensures var k, f := Last(Chain(w.history)).number, Tick(cfg, env, w);
            var es := Since(w.history, f.world);
            match f.end
            case CaughtUp => env.latest(w.clock) == Ok(m) && Told(es, k + 1, m + 1, m + 1)
            case FetchFailed(n) => Told(es, k + 1, n, n)
            case BlockFailed(n) => Told(es, k + 1, n + 1, n)
            case Reorged(from, _, _) => Told(Since(w.history, from), k + 1, m, m)
            case _ => f.world.history == w.history
  {
    hide Healthy, Tick, Complete, Told, Calls, Processable, OffersOf, Stopped, Forward;
    HealthyChain(cfg, env, w);
    var es;
    m, es := TickIs(cfg, env, w);
    var k, f := Last(Chain(w.history)).number, Tick(cfg, env, w);
    if env.latest(w.clock).Ok? && k < env.latest(w.clock).value < MAX_UINT64 {
      CompleteTells(cfg, env, w.clock + 1, es, k + 1, m);
      assert (w.history + es)[|w.history|..] == es;
      if f.end.CaughtUp? {
        m := env.latest(w.clock).value;
      } else if f.end.BlockFailed? {
        var t := Tock(w).clock + Calls(cfg, env, es);
        var b := env.block(t, m).value;
        var offers :| OnlyOffers(offers) && f.world.history == w.history + es + [Delivered(b, t + 2)] + offers;
        assert f.world.history[|w.history|..] == es + [Delivered(b, t + 2)] + offers;
        ToldOneMore(es, k + 1, m, b, t + 2, offers);
      }
    }
  }

  // ---------------------------------------------------------------- the reorg

  /** HandleReorgBlock for hi, hi - 1, ..., lo + 1. */
  function Downward(hi: uint64, lo: uint64): History
    requires lo <= hi
  {
    seq(hi - lo, i requires 0 <= i < hi - lo => Retracted(hi - i))
  }

  lemma {:induction false} RetractionsAreDownward(os: seq<Record>, id: ChainId, hi: uint64, lo: uint64)
    requires Descending(os, id, hi, lo)
    ensures Reorg.Retractions(os) == Downward(hi, lo)
    decreases |os|
  {
    if os != [] {
      RetractionsAreDownward(os[1..], id, hi - 1, lo);
    }
  }

  /** What a finished search replies, from where and how it ended; k is the cursor. */
  function ReorgReply(s: Search, k: uint64): Reply<()> {
    match s.end
    case Failed(e) => Err(e)
    case Exhausted => if s.stop == k then Err(NilBlock) else Ok(())
    case _ => if s.stop == k then Err(NoOrphans) else Ok(())
  }

  /** What the cursor is after a reorg with orphans. */
  function ReorgCursor(s: Search, id: ChainId, k: uint64): int {
    match s.end
    case Matched => s.stop
    case Repaired(r) => if r.chainId == id then s.stop else k
    case _ => s.stop + 1
  }

  /** The move that goes before the retractions. */
  ghost predicate MoveOf(s: Search, id: ChainId, st: Store.State, move: Event) {
    match s.end
    case Matched => Store.Has(st, id, s.stop) && move == Rewound(Store.At(st, id, s.stop))
    case Repaired(r) => move == if r.chainId == id then Baselined(r) else Misfiled(r)
    case Exhausted => s.stop < MAX_UINT64 && Store.Has(st, id, s.stop + 1) && move == Abandoned(Store.At(st, id, s.stop + 1))
    case Failed(_) => false
  }

  predicate MovedTo(move: Event, r: Record) {
    move == Rewound(r) || move == Baselined(r) || move == Misfiled(r) || move == Abandoned(r)
  }

  lemma LastOfDown(s: Store.State, id: ChainId, hi: uint64, lo: uint64)
    requires lo < hi && forall n: uint64 | lo < n <= hi :: Store.Has(s, id, n)
    ensures Last(Down(s, id, hi, lo)) == Store.At(s, id, lo + 1)
    decreases hi
  {
    if hi - 1 > lo {
      LastOfDown(s, id, hi - 1, lo);
    }
  }

  /** What the search leaves behind when it found orphans and did not fail: one move and one saved record. */
  lemma SearchLeaves(cfg: Config, env: Env, w: World, start: uint64, k: uint64, s: Search) returns (move: Event, r: Record)
    requires Healthy(cfg, env, w) && Honest(env, cfg.chainId) && k == Last(Chain(w.history)).number && start == k + 1
    requires Shape(cfg, env, w, start, k, [], s) && !s.end.Failed? && s.stop < k
    ensures s.reply == Ok(())
    ensures MoveOf(s, cfg.chainId, w.store, move) && s.world.history == w.history + [move]
    ensures s.world.clock == w.clock + (k - s.stop) + if s.end.Exhausted? then 0 else 1
    ensures s.world.store == Store.Saved(w.store, r) && MovedTo(move, r)
    ensures ReorgCursor(s, cfg.chainId, k) == if r.chainId == cfg.chainId then r.number else k
  {
    hide Healthy, Scanned, Store.Saved, Down, Descending;
    HealthyChain(cfg, env, w);
    OrphanList(cfg, env, w, start, k, s);
    SearchClock(cfg, env, w, start, k, [], s);
    match s.end {
      case Matched =>
        r := Store.At(w.store, cfg.chainId, s.stop);
        move := Rewound(r);
      case Repaired(record) =>
        r := record;
        HonestRecord(cfg, env, AskedAt(w, k, s.stop), s.stop);
        move := if r.chainId == cfg.chainId then Baselined(r) else Misfiled(r);
      case Exhausted =>
        LastOfDown(w.store, cfg.chainId, k, s.stop);
        r := Store.At(w.store, cfg.chainId, s.stop + 1);
        DescendingLength(s.orphans, cfg.chainId, k, s.stop);
        move := Abandoned(r);
    }
  }

  /** The records of chain id after the reorg: those above `stop` are gone, and r is there if it belongs to the chain. */
  ghost predicate Left(s: Store.State, s': Store.State, id: ChainId, stop: int, k: int, r: Record) {
    forall n: uint64 ::
      && (Store.Has(s', id, n) <==>
          !(stop < n <= k) && (Store.Has(s, id, n) || (r.chainId == id && r.number == n)))
      && (Store.Has(s', id, n) && Store.Has(s, id, n) && !(r.chainId == id && r.number == n) ==>
            Store.At(s', id, n) == Store.At(s, id, n))
  }

  lemma SavedThenDropped(s: Store.State, r: Record, s': Store.State, id: ChainId, stop: int, k: int)
    requires !s.closed && Dropped(Store.Saved(s, r), s', id, k, stop)
    ensures Left(s, s', id, stop, k, r)
    ensures s'.cursors == s.cursors[r.chainId := r.number]
  {
    forall n: uint64
      ensures Store.Has(Store.Saved(s, r), id, n) <==> Store.Has(s, id, n) || (r.chainId == id && r.number == n)
      ensures Store.Has(s', id, n) <==> Store.Has(Store.Saved(s, r), id, n) && !(stop < n <= k)
    {
      assert Store.BlockKey(id, n) in s'.blocks <==> Store.BlockKey(id, n) in Store.Saved(s, r).blocks && !(stop < n <= k);
    }
  }

  /**
   A reorg, exactly, from where and how its search ended. The reply is an error if the client failed, or if there was
   nothing to retract, and then nothing is. Otherwise the handler is told every number above the stop, highest first,
   and once each; exactly their records are gone; the cursor is the ancestor, or the deepest orphan if the search ran
   out, or where it was if the ancestor was filed elsewhere; and every call is accounted for.
   */
  lemma ReorgIs(cfg: Config, env: Env, w: World, start: uint64) returns (move: Event, r: Record)
    requires Healthy(cfg, env, w) && Honest(env, cfg.chainId) && start == Last(Chain(w.history)).number + 1
    ensures var k: uint64, s, end := start - 1, FindOrphans(cfg, env, w, start), Reconcile(cfg, env, w, start);
            && s.stop <= k
            && end.reply == ReorgReply(s, k)
            && (end.reply.Err? ==> end.world.store == w.store && Numbers(Since(w.history, end.world), Retractions) == [])
            && (end.reply.Ok? ==>
                  && MoveOf(s, cfg.chainId, w.store, move) && MovedTo(move, r)
                  && end.world.history == w.history + [move] + Downward(k, s.stop)
                  && end.world.clock == w.clock + 2 * (k - s.stop) + (if s.end.Exhausted? then 0 else 1)
                  && cfg.chainId in end.world.store.cursors
                  && end.world.store.cursors[cfg.chainId] == ReorgCursor(s, cfg.chainId, k)
                  && Left(w.store, end.world.store, cfg.chainId, s.stop, k, r))
  {
    hide Healthy, Shape, Descending, Left, Store.Saved, Dropped, MoveOf, SettleOn, SearchFrom, RetractAll, Numbers;
    HealthyChain(cfg, env, w);
    var k: uint64 := start - 1;
    var s := FindOrphans(cfg, env, w, start);
    SearchShape(cfg, env, w, start, k, []);
    OrphanList(cfg, env, w, start, k, s);
    assert Reconcile(cfg, env, w, start) == Finish(s);
    DescendingLength(s.orphans, cfg.chainId, k, s.stop);
    move, r := Abandoned(Last(Chain(w.history))), Last(Chain(w.history));
    if s.end.Failed? || s.stop == k {
      ReorgFails(cfg, env, w, start, k, s);
    } else {
      move, r := SearchLeaves(cfg, env, w, start, k, s);
      SavedOpen(w.store, r);
      RetractAllStore(s.world, s.orphans, cfg.chainId, k, s.stop);
      RetractionsAreDownward(s.orphans, cfg.chainId, k, s.stop);
      SavedThenDropped(w.store, r, Finish(s).world.store, cfg.chainId, s.stop, k);
    }
  }

  /** A missing block is saved with the content the client returned and the chain id it came with. */
  lemma RepairKeepsContent(cfg: Config, env: Env, w: World, start: uint64)
    requires start >= 1 && !w.store.closed
    ensures var s := FindOrphans(cfg, env, w, start);
            s.end.Repaired? ==>
              && s.stop < start && env.block(AskedAt(w, start - 1, s.stop), s.stop).Ok?
              && var b := env.block(AskedAt(w, start - 1, s.stop), s.stop).value;
                 && SameContent(s.end.record, b, b.chainId)
                 && Store.GetLast(s.world.store, b.chainId).Ok?
                 && SameContent(Store.GetLast(s.world.store, b.chainId).value, b, b.chainId)
  {
    hide Scanned, Down;
    SearchShape(cfg, env, w, start, start - 1, []);
  }

  lemma SavedOpen(s: Store.State, r: Record)
    requires !s.closed
    ensures !Store.Saved(s, r).closed
  {
  }

  lemma ReorgFails(cfg: Config, env: Env, w: World, start: uint64, k: uint64, s: Search)
    requires Healthy(cfg, env, w) && k == Last(Chain(w.history)).number && start == k + 1
    requires Shape(cfg, env, w, start, k, [], s) && |s.orphans| == k - s.stop && (s.end.Failed? || s.stop == k)
    ensures Finish(s).reply == ReorgReply(s, k) && Finish(s).reply.Err?
    ensures Finish(s).world.store == w.store && Numbers(Since(w.history, Finish(s).world), Retractions) == []
  {
    hide Scanned, Down, Healthy, Numbers;
    HealthyChain(cfg, env, w);
    NothingToRetract(cfg, env, w, start, k, s);
    NoRetraction(Since(w.history, Finish(s).world));
  }
}
