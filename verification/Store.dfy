/**
 The block store as a mathematical value: one cursor per chain and one record per (chain, number).
 The class in StoreImpl is proved to behave like these functions.
 */
module Store {
  import opened Types

  datatype BlockKey = BlockKey(chain: ChainId, number: uint64)

  datatype State = State(closed: bool, cursors: map<ChainId, uint64>, blocks: map<BlockKey, Record>)

  const EMPTY: State := State(false, map[], map[])

  predicate Has(s: State, id: ChainId, n: uint64) {
    BlockKey(id, n) in s.blocks
  }

  function At(s: State, id: ChainId, n: uint64): Record
    requires Has(s, id, n)
  {
    s.blocks[BlockKey(id, n)]
  }

  /** Every record of chain id is filed under its own chain and number. */
  ghost predicate Filed(s: State, id: ChainId) {
    forall n: uint64 | Has(s, id, n) :: At(s, id, n).chainId == id && At(s, id, n).number == n
  }

  function GetLast(s: State, id: ChainId): Reply<Record> {
    if s.closed then Err(StoreClosed)
    else if id !in s.cursors then Err(NotFound)
    else GetBlock(s, id, s.cursors[id])
  }

  function GetBlock(s: State, id: ChainId, n: uint64): Reply<Record> {
    if s.closed then Err(StoreClosed)
    else if !Has(s, id, n) then Err(NotFound)
    else Ok(At(s, id, n))
  }

  /** The state after SaveBlock(r); the cursor of the record's chain follows, even backward. */
  function Saved(s: State, r: Record): State {
    if s.closed then s
    else s.(blocks := s.blocks[BlockKey(r.chainId, r.number) := r], cursors := s.cursors[r.chainId := r.number])
  }

  lemma SavedTwice(s: State, r: Record)
    ensures Saved(Saved(s, r), r) == Saved(s, r)
  {
    var k := BlockKey(r.chainId, r.number);
    assert s.blocks[k := r][k := r] == s.blocks[k := r];
    assert s.cursors[r.chainId := r.number][r.chainId := r.number] == s.cursors[r.chainId := r.number];
  }

  function SaveReply(s: State): Reply<()> {
    if s.closed then Err(StoreClosed) else Ok(())
  }

  /** The state after DeleteBlock(id, n); cursors are never touched. */
  function Deleted(s: State, id: ChainId, n: uint64): State {
    if s.closed then s else s.(blocks := s.blocks - {BlockKey(id, n)})
  }

  function DeleteReply(s: State, id: ChainId, n: uint64): Reply<()> {
    if s.closed then Err(StoreClosed) else if !Has(s, id, n) then Err(NotFound) else Ok(())
  }

  function Closed(s: State): State {
    State(true, map[], map[])
  }

  // ---------------------------------------------------------------- laws

  /** Reading after saving: the record is there and is its chain's last one; everything else reads as before. */
  lemma SaveThenRead(s: State, r: Record, id: ChainId, n: uint64)
    requires !s.closed
    ensures SaveReply(s) == Ok(())
    ensures GetBlock(Saved(s, r), r.chainId, r.number) == Ok(r)
    ensures GetLast(Saved(s, r), r.chainId) == Ok(r)
    ensures (id, n) != (r.chainId, r.number) ==> GetBlock(Saved(s, r), id, n) == GetBlock(s, id, n)
    ensures id != r.chainId ==> GetLast(Saved(s, r), id) == GetLast(s, id)
  {
  }

  /**
   Reading after deleting: the record is gone, everything else reads as before, and a cursor that named the record
   still does, so it no longer resolves. Deleting a record that is not there is an error and changes nothing.
   */
  lemma DeleteThenRead(s: State, d: ChainId, m: uint64, id: ChainId, n: uint64)
    requires !s.closed
    ensures GetBlock(Deleted(s, d, m), d, m) == Err(NotFound)
    ensures (id, n) != (d, m) ==> GetBlock(Deleted(s, d, m), id, n) == GetBlock(s, id, n)
    ensures GetLast(Deleted(s, d, m), id) ==
            if id == d && id in s.cursors && s.cursors[id] == m then Err(NotFound) else GetLast(s, id)
    ensures DeleteReply(s, d, m) == if GetBlock(s, d, m).Ok? then Ok(()) else Err(NotFound)
    ensures DeleteReply(s, d, m).Err? ==> Deleted(s, d, m) == s
  {
    if !Has(s, d, m) {
      assert s.blocks - {BlockKey(d, m)} == s.blocks;
    }
  }

  /** A new store has nothing; a closed store has nothing, refuses everything and never changes again. */
  lemma EmptyAndClosed(s: State, op: Op)
    ensures Apply(Closed(s), op) == Closed(s)
    ensures match Answered(Closed(s), op)
            case Done(status) => status == Err(StoreClosed)
            case Read(record) => record == Err(StoreClosed)
    ensures match Answered(EMPTY, op)
            case Done(status) => status == if op.SaveOp? then Ok(()) else Err(NotFound)
            case Read(record) => record == Err(NotFound)
  {
  }

  /** Neither saving nor deleting, on whatever chain, files a record wrongly. */
  lemma SavedFiled(s: State, r: Record, id: ChainId)
    requires Filed(s, id)
    ensures Filed(Saved(s, r), id)
  {
    forall n: uint64 | Has(Saved(s, r), id, n)
      ensures At(Saved(s, r), id, n).chainId == id && At(Saved(s, r), id, n).number == n
    {
      assert Has(s, id, n) || BlockKey(id, n) == BlockKey(r.chainId, r.number);
    }
  }

  lemma DeletedFiled(s: State, d: ChainId, m: uint64, id: ChainId)
    requires Filed(s, id)
    ensures Filed(Deleted(s, d, m), id)
  {
    forall n: uint64 | Has(Deleted(s, d, m), id, n)
      ensures At(Deleted(s, d, m), id, n).chainId == id && At(Deleted(s, d, m), id, n).number == n
    {
      assert Has(s, id, n);
    }
  }

  // ---------------------------------------------------------------- operations as values

  /** One atomic operation by a poller of some chain. */
  datatype Op =
    | SaveOp(record: Record)
    | DeleteOp(id: ChainId, number: uint64)
    | GetLastOp(id: ChainId)
    | GetBlockOp(id: ChainId, number: uint64)

  function OpChain(op: Op): ChainId {
    if op.SaveOp? then op.record.chainId else op.id
  }

  function Apply(s: State, op: Op): State {
    match op
    case SaveOp(r) => Saved(s, r)
    case DeleteOp(id, n) => Deleted(s, id, n)
    case _ => s
  }

  datatype Answer = Done(status: Reply<()>) | Read(record: Reply<Record>)

  /** What the caller of op gets. */
  function Answered(s: State, op: Op): Answer {
    match op
    case SaveOp(_) => Done(SaveReply(s))
    case DeleteOp(id, n) => Done(DeleteReply(s, id, n))
    case GetLastOp(id) => Read(GetLast(s, id))
    case GetBlockOp(id, n) => Read(GetBlock(s, id, n))
  }

  /** The two states look the same to chain id. */
  ghost predicate SameView(s: State, s': State, id: ChainId) {
    && s.closed == s'.closed
    && (id in s.cursors <==> id in s'.cursors)
    && (id in s.cursors ==> s.cursors[id] == s'.cursors[id])
    && (forall n: uint64 :: Has(s, id, n) <==> Has(s', id, n))
    && (forall n: uint64 | Has(s, id, n) :: At(s, id, n) == At(s', id, n))
  }

  lemma SameViewTrans(a: State, b: State, c: State, id: ChainId)
    requires SameView(a, b, id) && SameView(b, c, id)
    ensures SameView(a, c, id)
  {
    forall n: uint64
      ensures Has(a, id, n) <==> Has(c, id, n)
      ensures Has(a, id, n) ==> At(a, id, n) == At(c, id, n)
    {
      assert Has(a, id, n) <==> Has(b, id, n);
    }
  }

  lemma OtherChainUnseen(s: State, op: Op, id: ChainId)
    requires OpChain(op) != id
    ensures SameView(s, Apply(s, op), id)
  {
    forall n: uint64
      ensures Has(s, id, n) <==> Has(Apply(s, op), id, n)
      ensures Has(s, id, n) ==> At(s, id, n) == At(Apply(s, op), id, n)
    {
    }
  }

  lemma SameViewSteps(s: State, s': State, op: Op)
    requires SameView(s, s', OpChain(op))
    ensures SameView(Apply(s, op), Apply(s', op), OpChain(op))
    ensures Answered(s, op) == Answered(s', op)
  {
    var id, t, t' := OpChain(op), Apply(s, op), Apply(s', op);
    forall n: uint64
      ensures Has(t, id, n) <==> Has(t', id, n)
      ensures Has(t, id, n) ==> At(t, id, n) == At(t', id, n)
    {
      assert Has(s, id, n) <==> Has(s', id, n);
    }
    if op.DeleteOp? {
      assert Has(s, id, op.number) <==> Has(s', id, op.number);
    } else if op.GetBlockOp? {
      assert Has(s, id, op.number) <==> Has(s', id, op.number);
    }
  }

  /** The answers the callers of chain id get while everybody's operations are interleaved as `ops`. */
  function Observed(s: State, ops: seq<Op>, id: ChainId): seq<Answer>
    decreases |ops|
  {
    if ops == [] then []
    else (if OpChain(ops[0]) == id then [Answered(s, ops[0])] else []) + Observed(Apply(s, ops[0]), ops[1..], id)
  }

  /** The operations of chain id alone. */
  function Own(ops: seq<Op>, id: ChainId): seq<Op> {
    if ops == [] then [] else (if OpChain(ops[0]) == id then [ops[0]] else []) + Own(ops[1..], id)
  }

  lemma {:induction false} ChainsDoNotInterfereFrom(s: State, s': State, ops: seq<Op>, id: ChainId)
    requires SameView(s, s', id)
    ensures Observed(s, ops, id) == Observed(s', Own(ops, id), id)
    decreases |ops|
  {
    if ops != [] {
      var op := ops[0];
      if OpChain(op) == id {
        SameViewSteps(s, s', op);
        ChainsDoNotInterfereFrom(Apply(s, op), Apply(s', op), ops[1..], id);
        assert Own(ops, id)[0] == op && Own(ops, id)[1..] == Own(ops[1..], id);
      } else {
        OtherChainUnseen(s, op, id);
        ChainsDoNotInterfereFrom(Apply(s, op), s', ops[1..], id);
        assert Own(ops, id) == Own(ops[1..], id);
      }
    }
  }

  /**
   Under any interleaving of atomic operations, a chain's pollers get exactly the answers they would get if
   they were alone on the store.
   */
  lemma ChainsDoNotInterfere(s: State, ops: seq<Op>, id: ChainId)
    ensures Observed(s, ops, id) == Observed(s, Own(ops, id), id)
  {
    ChainsDoNotInterfereFrom(s, s, ops, id);
  }
}
