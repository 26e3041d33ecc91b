/** Values shared by every part of the model: machine integers, replies, blocks, records and logs. */
module Types {

  /** Go's `uint64`, and `uint` on the 64-bit platforms the program targets. */
  type uint64 = n: int | 0 <= n < 0x1_0000_0000_0000_0000

  /** Go's `int` on a 64-bit platform. */
  type int64 = i: int | -0x8000_0000_0000_0000 <= i < 0x8000_0000_0000_0000

  type ChainId = uint64

  const TWO_64: int := 0x1_0000_0000_0000_0000
  const MAX_UINT64: uint64 := 0xFFFF_FFFF_FFFF_FFFF

  /** `a - b` on `uint64`: wraps around below zero. */
  function Sub64(a: uint64, b: uint64): (r: uint64)
    ensures (r - (a - b)) % 0x1_0000_0000_0000_0000 == 0
  {
    if a >= b then a - b else a - b + TWO_64
  }

  /** `uint64(i)`: a negative int becomes a huge number. */
  function AsUint64(i: int64): (r: uint64)
    ensures (r - i) % 0x1_0000_0000_0000_0000 == 0
  {
    if i >= 0 then i else i + TWO_64
  }

  datatype Option<+T> = None | Some(value: T)

  datatype Error =
    | NotFound         // persistence.ErrNotFound
    | StoreClosed      // persistence.ErrStoreClosed
    | NilBlock         // SaveBlock(nil)
    | CallFailed       // an RPC, the log parser or the handler reported an error
    | NoOrphans        // reconcileReorg: "no orphaned blocks found"
    | TooShort         // combineAbis: "invalid ABI string: too short"
    | Panicked         // the Go runtime panics

  datatype Reply<+T> = Ok(value: T) | Err(error: Error)

  /** ethereum.EthereumBlock, without its transactions and nonce. */
  datatype Block = Block(number: uint64, hash: string, parentHash: string, timestamp: uint64, chainId: ChainId)

  /** What the RPC client makes of a null answer: a block whose every field is zero. */
  const NULL_BLOCK: Block := Block(0, "", "", 0, 0)

  /** chainPoller.BlockRecord. */
  datatype Record = Record(number: uint64, hash: string, parentHash: string, timestamp: uint64, chainId: ChainId)

  /** The record of block `b` filed under chain `id`. */
  function RecordFor(id: ChainId, b: Block): Record {
    Record(b.number, b.hash, b.parentHash, b.timestamp, id)
  }

  /** ethereum.EthereumEventLog, reduced to what distinguishes one log of a block from another. */
  datatype Log = Log(address: string, logIndex: uint64, data: string)

  /** The output of LogParser.DecodeLog; its content is not part of this model. */
  type Decoded = string
}
