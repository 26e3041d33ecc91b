/**
 Everything the poller talks to except its store: the RPC client, the log parser, the block handler,
 the contract registry and the goroutine scheduler. Each is an oracle indexed by the number of external
 calls made so far, so the same question may be answered differently every time it is asked.
 */
module Environment {
  import opened Types

  datatype Env = Env(
    latest: nat -> Reply<uint64>,
    block: (nat, uint64) -> Reply<Block>,
    logs: (nat, seq<string>, uint64) -> Reply<seq<Log>>,
    registry: nat -> seq<string>,
    pick: nat -> nat,
    decode: (nat, Log) -> Reply<Decoded>,
    acceptsBlock: (nat, Block) -> bool,
    acceptsLog: (nat, Block, Log, Decoded) -> bool)

  /**
   A block returned for number n is the null block, or a block numbered n that has a hash; the largest number
   there is has no block; and the poller's chain id is not 0, which is the id of the null block.
   */
  ghost predicate Honest(env: Env, id: ChainId) {
    && id != NULL_BLOCK.chainId
    && forall t: nat, n: uint64 :: env.block(t, n).Ok? ==>
         || env.block(t, n).value == NULL_BLOCK
         || (env.block(t, n).value.number == n < MAX_UINT64 && env.block(t, n).value.hash != "")
  }

  /** EVMChainPollerConfig, restricted to the fields the poller reads after construction. */
  datatype Config = Config(
    chainId: ChainId,
    contracts: seq<string>,
    genesis: uint64,
    maxReorgDepth: int64,
    historySize: int64,
    maxAddresses: int64)

  /** NewEVMChainPoller: a setting of 0 means the default; a search can therefore always look one block back. */
  function WithDefaults(c: Config): (r: Config)
    ensures AsUint64(r.maxReorgDepth) >= 1
    ensures r.maxReorgDepth == c.maxReorgDepth != 0 || (c.maxReorgDepth == 0 && r.maxReorgDepth == 10)
    ensures r.historySize == c.historySize != 0 || (c.historySize == 0 && r.historySize == 100)
    ensures r.maxAddresses == c.maxAddresses != 0 || (c.maxAddresses == 0 && r.maxAddresses == 1000)
    ensures r.chainId == c.chainId && r.contracts == c.contracts && r.genesis == c.genesis
  {
    c.(maxReorgDepth := if c.maxReorgDepth == 0 then 10 else c.maxReorgDepth,
       historySize := if c.historySize == 0 then 100 else c.historySize,
       maxAddresses := if c.maxAddresses == 0 then 1000 else c.maxAddresses)
  }
}
