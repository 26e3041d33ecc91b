/**
 Collecting a block's logs: the list of interesting contracts, its batches, one goroutine per batch and the
 merge of their answers in whatever order they arrive.
 */
module LogFetch {
  import opened Types
  import opened Environment
  import opened Channels
  import opened Chunks

  // ---------------------------------------------------------------- addresses

  function LowerChar(c: char): char {
    if 'A' <= c <= 'Z' then (c as int + 32) as char else c
  }

  /** strings.ToLower on ASCII text. */
  function Lower(s: string): (r: string)
    ensures |r| == |s|
  {
    seq(|s|, i requires 0 <= i < |s| => LowerChar(s[i]))
  }

  /** No letter of s is upper case. */
  predicate NoUpper(s: string) {
    forall i :: 0 <= i < |s| ==> !('A' <= s[i] <= 'Z')
  }

  /** The same letter, or an upper case letter and its lower case. */
  predicate SameLetter(c: char, d: char) {
    || c == d
    || ('A' <= c <= 'Z' && d as int == c as int + 32)
    || ('A' <= d <= 'Z' && c as int == d as int + 32)
  }

  /** Equal up to ASCII case. */
  predicate SameText(s: string, t: string) {
    |s| == |t| && forall i :: 0 <= i < |s| ==> SameLetter(s[i], t[i])
  }

  /** Lower-casing leaves no upper case letter and changes nothing but case; it leaves lower case texts alone. */
  lemma LowerIs(s: string)
    ensures NoUpper(Lower(s)) && SameText(Lower(s), s)
    ensures NoUpper(s) <==> Lower(s) == s
  {
    if NoUpper(s) {
      forall i | 0 <= i < |s| ensures Lower(s)[i] == s[i] {
      }
    }
  }

  /** Two texts have the same lower case if and only if they are equal up to case. */
  lemma LowerIdentifies(s: string, t: string)
    ensures Lower(s) == Lower(t) <==> SameText(s, t)
  {
    if SameText(s, t) {
      forall i | 0 <= i < |s| ensures Lower(s)[i] == Lower(t)[i] {
        assert SameLetter(s[i], t[i]);
      }
    } else if Lower(s) == Lower(t) {
      forall i | 0 <= i < |s| ensures SameLetter(s[i], t[i]) {
        assert Lower(s)[i] == Lower(t)[i];
      }
    }
  }

  /** What it means to be the lower case of c, without saying how to get there. */
  lemma LowerMeans(a: string, c: string)
    ensures a == Lower(c) <==> NoUpper(a) && SameText(a, c)
  {
    LowerIs(c);
    LowerIs(a);
    LowerIdentifies(a, c);
  }

  ghost predicate NoDuplicates<T(!new)>(xs: seq<T>) {
    forall i, j :: 0 <= i < j < |xs| ==> xs[i] != xs[j]
  }

  ghost predicate AllLower(xs: seq<string>) {
    forall i :: 0 <= i < |xs| ==> NoUpper(xs[i])
  }

  /** Append the elements of `xs` that are not there yet, in order. */
  function Merge(acc: seq<string>, xs: seq<string>): seq<string>
    decreases |xs|
  {
    if xs == [] then acc
    else Merge(if xs[0] in acc then acc else acc + [xs[0]], xs[1..])
  }

  /** The configured contracts, without the empty ones and in lower case. */
  function Normalised(contracts: seq<string>): seq<string> {
    if contracts == [] then []
    else (if contracts[0] == "" then [] else [Lower(contracts[0])]) + Normalised(contracts[1..])
  }

  function Interesting(contracts: seq<string>, registered: seq<string>): seq<string> {
    Merge(Merge([], Normalised(contracts)), registered)
  }

  lemma {:induction false} MergeFacts(acc: seq<string>, xs: seq<string>)
    requires NoDuplicates(acc)
    ensures NoDuplicates(Merge(acc, xs))
    ensures forall a :: a in Merge(acc, xs) <==> a in acc || a in xs
    ensures AllLower(acc) && AllLower(xs) ==> AllLower(Merge(acc, xs))
    decreases |xs|
  {
    if xs != [] {
      MergeFacts(if xs[0] in acc then acc else acc + [xs[0]], xs[1..]);
      assert xs == [xs[0]] + xs[1..];
    }
  }

  lemma {:induction false} NormalisedFacts(contracts: seq<string>)
    ensures AllLower(Normalised(contracts))
    ensures forall a :: a in Normalised(contracts) <==> exists c :: c in contracts && c != "" && a == Lower(c)
  {
    if contracts != [] {
      var c0, rest := contracts[0], contracts[1..];
      NormalisedFacts(rest);
      LowerIs(c0);
      assert contracts == [c0] + rest;
      forall a | a in Normalised(contracts) ensures exists c :: c in contracts && c != "" && a == Lower(c) {
        if !(c0 != "" && a == Lower(c0)) {
          assert a in Normalised(rest);
        }
      }
      forall a | exists c :: c in contracts && c != "" && a == Lower(c) ensures a in Normalised(contracts) {
        var c :| c in contracts && c != "" && a == Lower(c);
        if c != c0 {
          assert c in rest;
        }
      }
    }
  }

  /**
   The address list has no duplicates and holds exactly the registered contracts and, in lower case, the configured
   ones that are not empty; it is all lower case when the registry's list is, so no two of its addresses are then
   equal up to case.
   */
  lemma InterestingFacts(contracts: seq<string>, registered: seq<string>)
    ensures NoDuplicates(Interesting(contracts, registered))
    ensures forall a :: a in Interesting(contracts, registered) <==>
                        a in registered || (NoUpper(a) && exists c :: c in contracts && c != "" && SameText(a, c))
    ensures AllLower(registered) ==> AllLower(Interesting(contracts, registered))
    ensures AllLower(registered) ==> DistinctTexts(Interesting(contracts, registered))
  {
    NormalisedFacts(contracts);
    MergeFacts([], Normalised(contracts));
    MergeFacts(Merge([], Normalised(contracts)), registered);
    forall a
      ensures (exists c :: c in contracts && c != "" && a == Lower(c)) <==>
              NoUpper(a) && exists c :: c in contracts && c != "" && SameText(a, c)
    {
      forall c: string ensures a == Lower(c) <==> NoUpper(a) && SameText(a, c) {
        LowerMeans(a, c);
      }
    }
    if AllLower(registered) {
      LowerTextsDiffer(Interesting(contracts, registered));
    }
  }

  /** No two of the texts are equal up to case. */
  ghost predicate DistinctTexts(xs: seq<string>) {
    forall i, j :: 0 <= i < j < |xs| ==> !SameText(xs[i], xs[j])
  }

  lemma LowerTextsDiffer(xs: seq<string>)
    requires NoDuplicates(xs) && AllLower(xs)
    ensures DistinctTexts(xs)
  {
    forall i, j | 0 <= i < j < |xs| ensures !SameText(xs[i], xs[j]) {
      LowerIs(xs[i]);
      LowerIs(xs[j]);
      LowerIdentifies(xs[i], xs[j]);
    }
  }

  // ---------------------------------------------------------------- the order of the addresses

  /** Where a first occurs in xs, or the length of xs. */
  function FirstIndex(xs: seq<string>, a: string): nat {
    if xs == [] then 0 else if xs[0] == a then 0 else 1 + FirstIndex(xs[1..], a)
  }

  ghost predicate FirstSeenOrder(out: seq<string>, xs: seq<string>) {
    forall i, j :: 0 <= i < j < |out| ==> FirstIndex(xs, out[i]) < FirstIndex(xs, out[j])
  }

  lemma {:induction false} FirstIndexSnoc(xs: seq<string>, x: string, a: string)
    ensures a in xs ==> FirstIndex(xs + [x], a) == FirstIndex(xs, a) < |xs|
    ensures a !in xs && a == x ==> FirstIndex(xs + [x], a) == |xs|
  {
    if xs == [] {
      assert xs + [x] == [x];
    } else {
      assert (xs + [x])[1..] == xs[1..] + [x];
      FirstIndexSnoc(xs[1..], x, a);
    }
  }

  lemma OrderStep(pre: seq<string>, acc: seq<string>, x: string)
    requires (forall a :: a in acc <==> a in pre) && FirstSeenOrder(acc, pre)
    ensures FirstSeenOrder(if x in acc then acc else acc + [x], pre + [x])
    ensures forall a :: a in (if x in acc then acc else acc + [x]) <==> a in pre + [x]
  {
    hide FirstIndex;
    var acc' := if x in acc then acc else acc + [x];
    forall i, j | 0 <= i < j < |acc'| ensures FirstIndex(pre + [x], acc'[i]) < FirstIndex(pre + [x], acc'[j]) {
      FirstIndexSnoc(pre, x, acc'[i]);
      FirstIndexSnoc(pre, x, acc'[j]);
      assert acc'[i] in acc;
      assert j < |acc| ==> acc'[j] in acc;
    }
  }

  lemma {:induction false} MergeOrder(pre: seq<string>, acc: seq<string>, xs: seq<string>)
    requires (forall a :: a in acc <==> a in pre) && FirstSeenOrder(acc, pre)
    ensures FirstSeenOrder(Merge(acc, xs), pre + xs)
    decreases |xs|
  {
    hide FirstSeenOrder, FirstIndex;
    if xs == [] {
      assert pre + xs == pre;
    } else {
      var acc' := if xs[0] in acc then acc else acc + [xs[0]];
      var pre' := pre + [xs[0]];
      OrderStep(pre, acc, xs[0]);
      MergeOrder(pre', acc', xs[1..]);
      assert pre + xs == pre' + xs[1..];
    }
  }

  /** The configured contracts come first, then the registered ones, each where it is seen first. */
  lemma InterestingOrder(contracts: seq<string>, registered: seq<string>)
    ensures FirstSeenOrder(Interesting(contracts, registered), Normalised(contracts) + registered)
  {
    var configured := Normalised(contracts);
    assert [] + configured == configured;
    MergeOrder([], [], configured);
    MergeFacts([], configured);
    MergeOrder(configured, Merge([], configured), registered);
  }

  /** listAllInterestingContracts: two loops over a `seen` set and a growing list. */
  method ListAllInterestingContracts(contracts: seq<string>, registered: seq<string>) returns (result: seq<string>)
    ensures result == Interesting(contracts, registered)
  {
    var seen: set<string> := {};
    result := [];
    for i := 0 to |contracts|
      invariant forall a :: a in seen <==> a in result
      invariant Merge(result, Normalised(contracts[i..])) == Merge([], Normalised(contracts))
    {
      var contract := contracts[i];
      assert contracts[i..][0] == contract && contracts[i..][1..] == contracts[i + 1..];
      if contract == "" {
        assert Normalised(contracts[i..]) == Normalised(contracts[i + 1..]);
        continue;
      }
      var lower := Lower(contract);
      assert Normalised(contracts[i..]) == [lower] + Normalised(contracts[i + 1..]);
      assert ([lower] + Normalised(contracts[i + 1..]))[1..] == Normalised(contracts[i + 1..]);
      if lower !in seen {
        seen := seen + {lower};
        result := result + [lower];
      }
    }
    assert contracts[|contracts|..] == [];
    for i := 0 to |registered|
      invariant forall a :: a in seen <==> a in result
      invariant Merge(result, registered[i..]) == Interesting(contracts, registered)
    {
      assert registered[i..][0] == registered[i] && registered[i..][1..] == registered[i + 1..];
      if registered[i] !in seen {
        seen := seen + {registered[i]};
        result := result + [registered[i]];
      }
    }
    assert registered[|registered|..] == [];
  }

  // ---------------------------------------------------------------- scatter and gather

  /** What the goroutines get: the i-th asks for batch i at time t + i. */
  function Asked(env: Env, t: nat, batches: seq<seq<string>>, n: uint64): (rs: seq<Reply<seq<Log>>>)
    ensures |rs| == |batches|
    decreases |batches|
  {
    if batches == [] then [] else [env.logs(t, batches[0], n)] + Asked(env, t + 1, batches[1..], n)
  }

  function BatchesFor(env: Env, t: nat, cfg: Config): seq<seq<string>> {
    Cut(Interesting(cfg.contracts, env.registry(t)), EffectiveSize(cfg.maxAddresses))
  }

  /** The list of batches cannot be allocated. */
  predicate FetchPanics(env: Env, t: nat, cfg: Config) {
    ChunkPanics(|Interesting(cfg.contracts, env.registry(t))|, cfg.maxAddresses)
  }

  function FetchLogs(env: Env, t: nat, cfg: Config, n: uint64): Reply<seq<Log>> {
    if FetchPanics(env, t, cfg) then Err(Panicked) else Gathered(env, t, cfg, n)
  }

  function Gathered(env: Env, t: nat, cfg: Config, n: uint64): Reply<seq<Log>> {
    var replies := Asked(env, t, BatchesFor(env, t, cfg), n);
    var arrived := Arrivals(replies, Schedule(env.pick, t, Upto(|replies|)));
    if AnyFailed(arrived) then Err(CallFailed) else Ok(Drained(arrived))
  }

  /** The clock after the fetch: one registry read and one query per batch. */
  function FetchEnd(env: Env, t: nat, cfg: Config): nat {
    t + 1 + |BatchesFor(env, t, cfg)|
  }

  /** One query per batch. */
  method QueryBatches(env: Env, t: nat, batches: seq<seq<string>>, n: uint64) returns (replies: seq<Reply<seq<Log>>>)
    ensures replies == Asked(env, t, batches, n)
  {
    replies := [];
    for i := 0 to |batches|
      invariant replies + Asked(env, t + i, batches[i..], n) == Asked(env, t, batches, n)
    {
      assert batches[i..][0] == batches[i] && batches[i..][1..] == batches[i + 1..];
      SeqAssoc(replies, [env.logs(t + i, batches[i], n)], Asked(env, t + i + 1, batches[i + 1..], n));
      replies := replies + [env.logs(t + i, batches[i], n)];
    }
  }

  lemma NothingToAllocate(chunkSize: int64)
    ensures !ChunkPanics(0, chunkSize)
  {
  }

  /** fetchLogsForInterestingContractsForBlock: list, cut, scatter, wait, gather. */
  method FetchLogsForInterestingContracts(env: Env, t: nat, cfg: Config, n: uint64) returns (r: Reply<seq<Log>>)
    ensures r == FetchLogs(env, t, cfg, n)
  {
    var allContracts := ListAllInterestingContracts(cfg.contracts, env.registry(t));
    if |allContracts| == 0 {
      assert BatchesFor(env, t, cfg) == [] && Upto(0) == [];
      NothingToAllocate(cfg.maxAddresses);
      return Ok([]);
    }
    var chunked := ChunkAddresses(allContracts, cfg.maxAddresses);
    if chunked.Err? {
      return Err(chunked.error);
    }
    var batches := chunked.value;
    var replies := QueryBatches(env, t, batches, n);
    var order := CompletionOrder(env.pick, t, |batches|);
    var logResults, errors := Collect(replies, order);
    if errors > 0 {
      return Err(CallFailed);
    }
    var allLogs := Gather(logResults);
    return Ok(allLogs);
  }

  // ---------------------------------------------------------------- one unbatched query

  /** An address filter matches without regard to case. */
  predicate Matches(log: Log, addresses: seq<string>) {
    exists i :: 0 <= i < |addresses| && SameText(addresses[i], log.address)
  }

  /** The block's logs an unbatched query for `addresses` would return. */
  function Wanted(blockLogs: seq<Log>, addresses: seq<string>): seq<Log> {
    if blockLogs == [] then []
    else (if Matches(blockLogs[0], addresses) then [blockLogs[0]] else []) + Wanted(blockLogs[1..], addresses)
  }

  /** During the m calls from t on, a successful query for block n returns its matching logs, each once. */
  ghost predicate LogsHonest(env: Env, t: nat, m: nat, n: uint64, blockLogs: seq<Log>) {
    forall t': nat, addresses: seq<string> | t <= t' < t + m && env.logs(t', addresses, n).Ok? ::
      multiset(env.logs(t', addresses, n).value) == multiset(Wanted(blockLogs, addresses))
  }

  lemma MatchesConcat(log: Log, a: seq<string>, b: seq<string>)
    ensures Matches(log, a + b) <==> Matches(log, a) || Matches(log, b)
  {
    if Matches(log, a) {
      var i :| 0 <= i < |a| && SameText(a[i], log.address);
      assert SameText((a + b)[i], log.address);
    }
    if Matches(log, b) {
      var i :| 0 <= i < |b| && SameText(b[i], log.address);
      assert SameText((a + b)[|a| + i], log.address);
    }
  }

  /** No log matches both halves of a duplicate-free lower-case filter. */
  lemma HalvesDisjoint(log: Log, a: seq<string>, b: seq<string>)
    requires NoDuplicates(a + b) && AllLower(a + b)
    ensures !(Matches(log, a) && Matches(log, b))
  {
    LowerTextsDiffer(a + b);
    if Matches(log, a) && Matches(log, b) {
      var i :| 0 <= i < |a| && SameText(a[i], log.address);
      var j :| 0 <= j < |b| && SameText(b[j], log.address);
      LowerIdentifies(a[i], log.address);
      LowerIdentifies(b[j], log.address);
      LowerIdentifies((a + b)[i], (a + b)[|a| + j]);
    }
  }

  /** Splitting a duplicate-free lower-case filter in two splits the answer in two. */
  lemma {:induction false} WantedSplits(blockLogs: seq<Log>, a: seq<string>, b: seq<string>)
    requires NoDuplicates(a + b) && AllLower(a + b)
    ensures multiset(Wanted(blockLogs, a + b)) == multiset(Wanted(blockLogs, a)) + multiset(Wanted(blockLogs, b))
  {
    if blockLogs != [] {
      WantedSplits(blockLogs[1..], a, b);
      MatchesConcat(blockLogs[0], a, b);
      HalvesDisjoint(blockLogs[0], a, b);
    }
  }

  lemma {:induction false} WantedNothing(blockLogs: seq<Log>)
    ensures Wanted(blockLogs, []) == []
  {
    if blockLogs != [] {
      WantedNothing(blockLogs[1..]);
    }
  }

  /** The batches, asked one after the other, answer like one query for their concatenation. */
  lemma {:induction false} BatchesAddUp(env: Env, t: nat, batches: seq<seq<string>>, n: uint64, blockLogs: seq<Log>)
    requires LogsHonest(env, t, |batches|, n, blockLogs)
    requires NoDuplicates(Flatten(batches)) && AllLower(Flatten(batches))
    requires !AnyFailed(Asked(env, t, batches, n))
    ensures multiset(Drained(Asked(env, t, batches, n))) == multiset(Wanted(blockLogs, Flatten(batches)))
    decreases |batches|
  {
    if batches == [] {
      WantedNothing(blockLogs);
    } else {
      var first, rest := batches[0], Flatten(batches[1..]);
      var head, tail := env.logs(t, first, n), Asked(env, t + 1, batches[1..], n);
      var all := Flatten(batches);
      assert all == first + rest && rest == all[|first|..];
      FailedConcat([head], tail);
      assert [head][0] == head && ([head] + tail)[1..] == tail;
      BatchesAddUp(env, t + 1, batches[1..], n, blockLogs);
      WantedSplits(blockLogs, first, rest);
    }
  }

  /**
   The scattered fetch refines one unbatched query. When no batch fails, the merged logs are, as a multiset,
   the block's logs whose address is in the lower-cased union: each of them exactly once. When any batch
   fails, or the batches cannot even be listed, there are no logs at all.
   */
  lemma FetchRefinesOneQuery(env: Env, t: nat, cfg: Config, n: uint64, blockLogs: seq<Log>)
    requires LogsHonest(env, t, |BatchesFor(env, t, cfg)|, n, blockLogs)
    requires AllLower(env.registry(t))
    ensures var replies := Asked(env, t, BatchesFor(env, t, cfg), n);
            var result := FetchLogs(env, t, cfg, n);
            && (result.Err? <==> FetchPanics(env, t, cfg) || AnyFailed(replies))
            && (result.Ok? ==>
                  multiset(result.value) ==
                  multiset(Wanted(blockLogs, Interesting(cfg.contracts, env.registry(t)))))
  {
    var batches := BatchesFor(env, t, cfg);
    InterestingFacts(cfg.contracts, env.registry(t));
    CutFacts(Interesting(cfg.contracts, env.registry(t)), EffectiveSize(cfg.maxAddresses));
    var replies := Asked(env, t, batches, n);
    ScheduleIrrelevant(replies, env.pick, t);
    if !AnyFailed(replies) {
      BatchesAddUp(env, t, batches, n, blockLogs);
    }
  }
}
