/**
 Handing the logs of one block to the handler, call by call. The i-th log is decoded at call t + 2i and handed over at
 call t + 2i + 1; the first log that cannot be decoded or is refused ends it.
 */
module Offers {
  import opened Types
  import opened Environment
  import opened History
  import opened PollerSpec

  /** e hands the i-th log of block b over, as the parser decoded it right before, with the handler's verdict. */
  ghost predicate OfferAt(env: Env, t: nat, b: Block, logs: seq<Log>, i: nat, e: Event)
    requires i < |logs|
  {
    && e.LogOffered?
    && e.block == b && e.log == logs[i] && e.at == t + 2 * i + 2
    && env.decode(t + 2 * i, logs[i]) == Ok(e.decoded)
    && e.accepted == env.acceptsLog(t + 2 * i + 1, b, logs[i], e.decoded)
  }

  /** es hands over the first logs of block b, in order, and all but perhaps the last are accepted. */
  ghost predicate OffersFrom(env: Env, t: nat, b: Block, logs: seq<Log>, es: History) {
    && |es| <= |logs|
    && (forall i :: 0 <= i < |es| ==> OfferAt(env, t, b, logs, i, es[i]))
    && (forall i :: 0 <= i < |es| - 1 ==> es[i].accepted)
  }

  /** All logs are handed over and accepted. */
  ghost predicate AllAccepted(env: Env, t: nat, b: Block, logs: seq<Log>, es: History) {
    && OffersFrom(env, t, b, logs, es)
    && |es| == |logs|
    && forall i :: 0 <= i < |es| ==> es[i].accepted
  }

  /** The parser decodes the i-th log and the handler accepts it. */
  predicate Passes(env: Env, t: nat, b: Block, logs: seq<Log>, i: nat)
    requires i < |logs|
  {
    match env.decode(t + 2 * i, logs[i])
    case Ok(d) => env.acceptsLog(t + 2 * i + 1, b, logs[i], d)
    case Err(_) => false
  }

  ghost predicate AllPass(env: Env, t: nat, b: Block, logs: seq<Log>) {
    forall i: nat | i < |logs| :: Passes(env, t, b, logs, i)
  }

  /** Why it ended at call `end` after the offers es, some log having failed. */
  ghost predicate StoppedBy(env: Env, t: nat, logs: seq<Log>, es: History, end: nat) {
    || (|es| < |logs| && (forall i :: 0 <= i < |es| ==> es[i].LogOffered? && es[i].accepted)
        && env.decode(t + 2 * |es|, logs[|es|]).Err? && end == t + 2 * |es| + 1)
    || (|es| > 0 && es[|es| - 1].LogOffered? && !es[|es| - 1].accepted && end == t + 2 * |es|)
  }

  lemma OffersCons(env: Env, t: nat, b: Block, logs: seq<Log>, e: Event, rest: History)
    requires logs != [] && OfferAt(env, t, b, logs, 0, e) && e.accepted
    requires OffersFrom(env, t + 2, b, logs[1..], rest)
    ensures OffersFrom(env, t, b, logs, [e] + rest)
  {
    var es := [e] + rest;
    forall i | 0 <= i < |es| ensures OfferAt(env, t, b, logs, i, es[i]) {
      if i > 0 {
        assert OfferAt(env, t + 2, b, logs[1..], i - 1, rest[i - 1]);
      }
    }
  }

  lemma AllPassCons(env: Env, t: nat, b: Block, logs: seq<Log>)
    requires logs != []
    ensures AllPass(env, t, b, logs) <==> Passes(env, t, b, logs, 0) && AllPass(env, t + 2, b, logs[1..])
  {
    var t', rest := t + 2, logs[1..];
    if AllPass(env, t, b, logs) {
      forall i: nat | i < |rest| ensures Passes(env, t', b, rest, i) {
        assert Passes(env, t, b, logs, i + 1);
      }
    }
    if Passes(env, t, b, logs, 0) && AllPass(env, t + 2, b, logs[1..]) {
      forall i: nat | i < |logs| ensures Passes(env, t, b, logs, i) {
        assert i > 0 ==> Passes(env, t + 2, b, logs[1..], i - 1);
      }
    }
  }

  lemma AcceptedCons(env: Env, t: nat, b: Block, logs: seq<Log>, e: Event, rest: History)
    requires logs != [] && OfferAt(env, t, b, logs, 0, e) && e.accepted
    requires AllAccepted(env, t + 2, b, logs[1..], rest)
    ensures AllAccepted(env, t, b, logs, [e] + rest)
  {
    OffersCons(env, t, b, logs, e, rest);
  }

  lemma StoppedCons(env: Env, t: nat, logs: seq<Log>, e: Event, rest: History, end: nat)
    requires logs != [] && e.LogOffered? && e.accepted && StoppedBy(env, t + 2, logs[1..], rest, end)
    ensures StoppedBy(env, t, logs, [e] + rest, end)
  {
  }

  /** o is the outcome of the loop over the logs from world w, with the offers es. */
  ghost predicate IsOutcome(env: Env, w: World, b: Block, logs: seq<Log>, o: Offered, es: History) {
    && OffersFrom(env, w.clock, b, logs, es)
    && o.world.store == w.store
    && o.world.history == w.history + es
    && (o.ok <==> AllPass(env, w.clock, b, logs))
    && (o.ok ==> AllAccepted(env, w.clock, b, logs, es) && o.world.clock == w.clock + 2 * |logs|)
    && (!o.ok ==> StoppedBy(env, w.clock, logs, es, o.world.clock))
  }

  lemma OutcomeCons(env: Env, w: World, w1: World, b: Block, logs: seq<Log>, e: Event, o: Offered, rest: History)
    requires logs != [] && OfferAt(env, w.clock, b, logs, 0, e) && e.accepted
    requires w1 == Note(Tock(Tock(w)), e) && IsOutcome(env, w1, b, logs[1..], o, rest)
    ensures IsOutcome(env, w, b, logs, o, [e] + rest)
  {
    hide AllPass, OffersFrom, AllAccepted, StoppedBy;
    AllPassCons(env, w.clock, b, logs);
    OffersCons(env, w.clock, b, logs, e, rest);
    assert w.history + ([e] + rest) == w1.history + rest;
    if o.ok {
      AcceptedCons(env, w.clock, b, logs, e, rest);
    } else {
      StoppedCons(env, w.clock, logs, e, rest, o.world.clock);
    }
  }

  /**
   What the loop over the logs does, exactly: the offers it makes and what each contains, when it succeeds, why it
   stops, and how many calls it takes.
   */
  lemma {:induction false} OffersAre(env: Env, w: World, b: Block, logs: seq<Log>) returns (es: History)
    ensures IsOutcome(env, w, b, logs, OfferLogs(env, w, b, logs), es)
    decreases |logs|
  {
    es := [];
    if logs == [] || env.decode(w.clock, logs[0]).Err? {
      OutcomeNone(env, w, b, logs);
    } else {
      hide IsOutcome;
      var d := env.decode(w.clock, logs[0]).value;
      var accepted := env.acceptsLog(w.clock + 1, b, logs[0], d);
      var e := LogOffered(b, logs[0], d, accepted, w.clock + 2);
      var w1 := Note(Tock(Tock(w)), e);
      es := [e];
      if accepted {
        var rest := OffersAre(env, w1, b, logs[1..]);
        es := [e] + rest;
        OutcomeCons(env, w, w1, b, logs, e, OfferLogs(env, w1, b, logs[1..]), rest);
      } else {
        OutcomeRefused(env, w, b, logs, e);
      }
    }
  }

  lemma OutcomeNone(env: Env, w: World, b: Block, logs: seq<Log>)
    requires logs == [] || env.decode(w.clock, logs[0]).Err?
    ensures IsOutcome(env, w, b, logs, OfferLogs(env, w, b, logs), [])
  {
    hide AllPass, OffersFrom, AllAccepted, StoppedBy;
    NoOffers(env, w.clock, b, logs);
    assert w.history + [] == w.history;
    if logs != [] {
      AllPassCons(env, w.clock, b, logs);
    }
  }

  lemma OutcomeRefused(env: Env, w: World, b: Block, logs: seq<Log>, e: Event)
    requires logs != [] && OfferAt(env, w.clock, b, logs, 0, e) && !e.accepted
    ensures IsOutcome(env, w, b, logs, Offered(Note(Tock(Tock(w)), e), false), [e])
  {
    hide AllPass, OffersFrom, AllAccepted, StoppedBy;
    AllPassCons(env, w.clock, b, logs);
    OneOffer(env, w.clock, b, logs, e);
  }

  lemma NoOffers(env: Env, t: nat, b: Block, logs: seq<Log>)
    ensures OffersFrom(env, t, b, logs, [])
    ensures logs == [] ==> AllPass(env, t, b, logs) && AllAccepted(env, t, b, logs, [])
    ensures logs != [] && env.decode(t, logs[0]).Err? ==> StoppedBy(env, t, logs, [], t + 1)
  {
  }

  lemma OneOffer(env: Env, t: nat, b: Block, logs: seq<Log>, e: Event)
    requires logs != [] && OfferAt(env, t, b, logs, 0, e)
    ensures OffersFrom(env, t, b, logs, [e])
    ensures !e.accepted ==> StoppedBy(env, t, logs, [e], t + 2)
  {
  }

  lemma OffersPrefix(env: Env, t: nat, b: Block, logs: seq<Log>, es: History, k: nat)
    requires OffersFrom(env, t, b, logs, es) && k <= |es|
    ensures OffersFrom(env, t, b, logs, es[..k])
  {
  }
}
