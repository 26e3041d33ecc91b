/**
 InMemoryChainPollerPersistence: two maps keyed by formatted strings, proved to behave like the store of
 module Store, which is keyed by chain and number.
 */
module StoreImpl {
  import opened Types
  import Store

  // ---------------------------------------------------------------- decimal keys

  function Digit(d: nat): char
    requires d < 10
  {
    ('0' as int + d) as char
  }

  /** "%d" of an unsigned number. */
  function Decimal(n: nat): string {
    if n < 10 then [Digit(n)] else Decimal(n / 10) + [Digit(n % 10)]
  }

  /** The number a string of digits stands for. */
  function Value(s: string): int {
    if s == "" then 0 else 10 * Value(s[..|s| - 1]) + (s[|s| - 1] as int - '0' as int)
  }

  predicate AllDigits(s: string) {
    forall i :: 0 <= i < |s| ==> '0' <= s[i] <= '9'
  }

  lemma {:induction false} DecimalIsInvertible(n: nat)
    ensures Value(Decimal(n)) == n
    ensures AllDigits(Decimal(n)) && Decimal(n) != ""
    ensures n > 0 ==> Decimal(n)[0] != '0'
  {
    if n >= 10 {
      DecimalIsInvertible(n / 10);
      var s := Decimal(n);
      assert s[..|s| - 1] == Decimal(n / 10);
    } else {
      assert Decimal(n)[..0] == "";
    }
  }

  /** makeBlockKey */
  function CursorKey(id: ChainId): string {
    Decimal(id)
  }

  /** makeBlockRecordKey */
  function RecordKey(id: ChainId, n: uint64): string {
    "block:" + Decimal(id) + ":" + Decimal(n)
  }

  lemma CursorKeyInjective(id: ChainId, id': ChainId)
    requires CursorKey(id) == CursorKey(id')
    ensures id == id'
  {
    DecimalIsInvertible(id);
    DecimalIsInvertible(id');
  }

  /** A string of digits followed by a colon can be split in one way only. */
  lemma SplitAtColon(a: string, b: string, a': string, b': string)
    requires AllDigits(a) && AllDigits(a') && a + ":" + b == a' + ":" + b'
    ensures a == a' && b == b'
  {
    var s, s' := a + ":" + b, a' + ":" + b';
    assert s[|a|] == ':' && s'[|a'|] == ':';
    assert forall i :: 0 <= i < |a| ==> s[i] == a[i];
    assert forall i :: 0 <= i < |a'| ==> s'[i] == a'[i];
    assert a == s[..|a|] && a' == s'[..|a'|];
    assert b == s[|a| + 1..] && b' == s'[|a'| + 1..];
  }

  lemma RecordKeyInjective(id: ChainId, n: uint64, id': ChainId, n': uint64)
    requires RecordKey(id, n) == RecordKey(id', n')
    ensures id == id' && n == n'
  {
    DecimalIsInvertible(id);
    DecimalIsInvertible(id');
    DecimalIsInvertible(n);
    DecimalIsInvertible(n');
    var rest, rest' := Decimal(id) + ":" + Decimal(n), Decimal(id') + ":" + Decimal(n');
    assert RecordKey(id, n)[6..] == rest && RecordKey(id', n')[6..] == rest';
    SplitAtColon(Decimal(id), Decimal(n), Decimal(id'), Decimal(n'));
  }

  // ---------------------------------------------------------------- refinement

  ghost predicate CursorsRefine(strings: map<string, uint64>, cursors: map<ChainId, uint64>) {
    && (forall id: ChainId :: CursorKey(id) in strings <==> id in cursors)
    && (forall id: ChainId | id in cursors :: strings[CursorKey(id)] == cursors[id])
  }

  ghost predicate BlocksRefine(strings: map<string, Record>, blocks: map<Store.BlockKey, Record>) {
    && (forall id: ChainId, n: uint64 :: RecordKey(id, n) in strings <==> Store.BlockKey(id, n) in blocks)
    && (forall id: ChainId, n: uint64 | Store.BlockKey(id, n) in blocks ::
          strings[RecordKey(id, n)] == blocks[Store.BlockKey(id, n)])
  }

  lemma CursorsUpdate(strings: map<string, uint64>, cursors: map<ChainId, uint64>, id: ChainId, n: uint64)
    requires CursorsRefine(strings, cursors)
    ensures CursorsRefine(strings[CursorKey(id) := n], cursors[id := n])
  {
    forall id': ChainId ensures CursorKey(id') == CursorKey(id) <==> id' == id {
      if CursorKey(id') == CursorKey(id) {
        CursorKeyInjective(id', id);
      }
    }
  }

  lemma BlocksUpdate(strings: map<string, Record>, blocks: map<Store.BlockKey, Record>, id: ChainId, n: uint64, r: Record)
    requires BlocksRefine(strings, blocks)
    ensures BlocksRefine(strings[RecordKey(id, n) := r], blocks[Store.BlockKey(id, n) := r])
  {
    forall id': ChainId, n': uint64 ensures RecordKey(id', n') == RecordKey(id, n) <==> id' == id && n' == n {
      if RecordKey(id', n') == RecordKey(id, n) {
        RecordKeyInjective(id', n', id, n);
      }
    }
  }

  lemma BlocksRemove(strings: map<string, Record>, blocks: map<Store.BlockKey, Record>, id: ChainId, n: uint64)
    requires BlocksRefine(strings, blocks)
    ensures BlocksRefine(strings - {RecordKey(id, n)}, blocks - {Store.BlockKey(id, n)})
  {
    forall id': ChainId, n': uint64 ensures RecordKey(id', n') == RecordKey(id, n) <==> id' == id && n' == n {
      if RecordKey(id', n') == RecordKey(id, n) {
        RecordKeyInjective(id', n', id, n);
      }
    }
  }

  class InMemoryStore {
    var closed: bool
    var lastProcessedBlocks: map<string, uint64>
    var blocks: map<string, Record>

    /** The store as module Store sees it. */
    ghost var model: Store.State

    ghost predicate Valid()
      reads this
    {
      && closed == model.closed
      && (forall id: ChainId :: Store.Filed(model, id))
      && CursorsRefine(lastProcessedBlocks, model.cursors)
      && BlocksRefine(blocks, model.blocks)
    }

    constructor ()
      ensures Valid() && model == Store.EMPTY
    {
      closed := false;
      lastProcessedBlocks := map[];
      blocks := map[];
      model := Store.EMPTY;
    }

    method GetLastProcessedBlock(id: ChainId) returns (r: Reply<Record>)
      requires Valid()
      ensures r == Store.GetLast(model, id)
    {
      if closed {
        return Err(StoreClosed);
      }
      var key := CursorKey(id);
      if key !in lastProcessedBlocks {
        return Err(NotFound);
      }
      var blockNum := lastProcessedBlocks[key];
      var blockKey := RecordKey(id, blockNum);
      if blockKey !in blocks {
        return Err(NotFound);
      }
      return Ok(blocks[blockKey]);
    }

    /** A nil block is an error; any other block is filed under its own chain and number and becomes the cursor. */
    method SaveBlock(block: Option<Record>) returns (r: Reply<()>)
      requires Valid()
      modifies this
      ensures Valid()
      ensures block.Some? ==> model == Store.Saved(old(model), block.value) && r == Store.SaveReply(old(model))
      ensures block.None? ==> model == old(model) && r == Err(if old(model.closed) then StoreClosed else NilBlock)
    {
      if closed {
        return Err(StoreClosed);
      }
      if block.None? {
        return Err(NilBlock);
      }
      var b := block.value;
      BlocksUpdate(blocks, model.blocks, b.chainId, b.number, b);
      CursorsUpdate(lastProcessedBlocks, model.cursors, b.chainId, b.number);
      blocks := blocks[RecordKey(b.chainId, b.number) := b];
      lastProcessedBlocks := lastProcessedBlocks[CursorKey(b.chainId) := b.number];
      forall id: ChainId ensures Store.Filed(Store.Saved(model, b), id) {
        Store.SavedFiled(model, b, id);
      }
      model := Store.Saved(model, b);
      return Ok(());
    }

    method GetBlock(id: ChainId, n: uint64) returns (r: Reply<Record>)
      requires Valid()
      ensures r == Store.GetBlock(model, id, n)
    {
      if closed {
        return Err(StoreClosed);
      }
      var key := RecordKey(id, n);
      if key !in blocks {
        return Err(NotFound);
      }
      return Ok(blocks[key]);
    }

    method DeleteBlock(id: ChainId, n: uint64) returns (r: Reply<()>)
      requires Valid()
      modifies this
      ensures Valid()
      ensures model == Store.Deleted(old(model), id, n)
      ensures r == Store.DeleteReply(old(model), id, n)
    {
      if closed {
        return Err(StoreClosed);
      }
      var key := RecordKey(id, n);
      if key !in blocks {
        assert model.blocks - {Store.BlockKey(id, n)} == model.blocks;
        return Err(NotFound);
      }
      BlocksRemove(blocks, model.blocks, id, n);
      blocks := blocks - {key};
      forall id': ChainId ensures Store.Filed(Store.Deleted(model, id, n), id') {
        Store.DeletedFiled(model, id, n, id');
      }
      model := Store.Deleted(model, id, n);
      return Ok(());
    }

    /** Everything is dropped; a second Close is an error. */
    method Close() returns (r: Reply<()>)
      requires Valid()
      modifies this
      ensures Valid()
      ensures old(model.closed) ==> model == old(model) && r == Err(StoreClosed)
      ensures !old(model.closed) ==> model == Store.State(true, map[], map[]) && r == Ok(())
    {
      if closed {
        return Err(StoreClosed);
      }
      closed := true;
      lastProcessedBlocks := map[];
      blocks := map[];
      model := Store.Closed(model);
      return Ok(());
    }
  }
}
