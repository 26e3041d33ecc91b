/**
 What happened so far, and what can be read off it. `Delivered`, `LogOffered` and `Retracted` are the calls the
 block handler sees; the other events are bookkeeping that records how the poller's own chain moved.
 */
module History {
  import opened Types

  datatype Event =
    | Delivered(block: Block, at: nat)    // HandleBlock; `at` external calls had been made when it returned
    | LogOffered(block: Block, log: Log, decoded: Decoded, accepted: bool, at: nat)  // HandleLog; `at` as above
    | Retracted(number: uint64)                                        // HandleReorgBlock
    | Baselined(record: Record)   // a record nobody delivered became the start of the chain
    | Committed(record: Record)   // a fully processed block was saved
    | Rewound(record: Record)     // a reorg search ended on a stored record, which is the cursor again
    | Abandoned(record: Record)   // a reorg search ran out; the cursor now names an orphan
    | Misfiled(record: Record)    // a reorg search saved a missing block under another chain's id

  type History = seq<Event>

  function Last<T>(xs: seq<T>): T
    requires xs != []
  {
    xs[|xs| - 1]
  }

  /** The part of the chain up to number n. */
  function Prefix(chain: seq<Record>, n: uint64): seq<Record> {
    if chain != [] && chain[0].number <= n < chain[0].number + |chain| then chain[..n - chain[0].number + 1] else chain
  }

  function ChainStep(chain: seq<Record>, e: Event): seq<Record> {
    match e
    case Baselined(r) => [r]
    case Committed(r) => chain + [r]
    case Rewound(r) => Prefix(chain, r.number)
    case _ => chain
  }

  /** The committed chain, from the baseline to the cursor, including records that were pruned since. */
  function Chain(h: History): seq<Record> {
    if h == [] then [] else ChainStep(Chain(h[..|h| - 1]), Last(h))
  }

  function ReplayStep(view: map<uint64, Block>, e: Event): map<uint64, Block> {
    match e
    case Delivered(b, _) => view[b.number := b]
    case Retracted(n) => view - {n}
    case _ => view
  }

  /** What a handler holds that overwrites on HandleBlock and erases on HandleReorgBlock. */
  function Replay(h: History): map<uint64, Block> {
    if h == [] then map[] else ReplayStep(Replay(h[..|h| - 1]), Last(h))
  }

  function HighStep(high: int, e: Event): int {
    match e
    case Baselined(r) => r.number
    case Committed(r) => if high < r.number then r.number else high
    case _ => high
  }

  /** The highest number saved since the baseline. */
  function High(h: History): int {
    if h == [] then -1 else HighStep(High(h[..|h| - 1]), Last(h))
  }

  function OwnedStep(owned: set<uint64>, e: Event): set<uint64> {
    match e
    case Committed(r) => owned + {r.number}
    case Retracted(n) => owned - {n}
    case _ => owned
  }

  /** The numbers that were committed and not retracted since. */
  function Owned(h: History): set<uint64> {
    if h == [] then {} else OwnedStep(Owned(h[..|h| - 1]), Last(h))
  }

  function GivenUpStep(given: Option<uint64>, chain: seq<Record>, e: Event): Option<uint64> {
    match e
    case Baselined(_) | Abandoned(_) | Misfiled(_) => if chain == [] then None else Some(chain[0].number)
    case Committed(_) | Rewound(_) => None
    case Retracted(n) => if given == Some(n) then None else given
    case _ => given
  }

  /** The baseline of the chain that the last move gave up as a whole, until that baseline is retracted. */
  function GivenUp(h: History): Option<uint64> {
    if h == [] then None else GivenUpStep(GivenUp(h[..|h| - 1]), Chain(h[..|h| - 1]), Last(h))
  }

  /** Appending one event applies one step to every reading. */
  lemma Append(h: History, e: Event)
    ensures Chain(h + [e]) == ChainStep(Chain(h), e)
    ensures Replay(h + [e]) == ReplayStep(Replay(h), e)
    ensures High(h + [e]) == HighStep(High(h), e)
    ensures Owned(h + [e]) == OwnedStep(Owned(h), e)
    ensures GivenUp(h + [e]) == GivenUpStep(GivenUp(h), Chain(h), e)
  {
    assert (h + [e])[..|h|] == h;
  }
}
