/**
 The RPC client's two gatherers. One calls every request on its own, a hundred at a time, and puts the answers
 back by position; the other sends native batches and sorts the answers by id.
 */
module BatchCall {
  import opened Types
  import opened Channels
  import opened Chunks

  // ---------------------------------------------------------------- chunkedBatchCall

  /** The answer to request i, or nothing when the call failed. */
  function Expected<Req, Res>(requests: seq<Req>, call: (nat, Req) -> Reply<Res>, i: nat): Option<Res>
    requires i < |requests|
  {
    match call(i, requests[i])
    case Ok(v) => Some(v)
    case Err(_) => None
  }

  /** The channel holds only true answers to requests in [lo, hi). */
  ghost predicate Truthful<Req, Res>(
    requests: seq<Req>, call: (nat, Req) -> Reply<Res>, lo: nat, hi: nat, channel: seq<(nat, Res)>)
    requires hi <= |requests|
  {
    forall m :: 0 <= m < |channel| ==>
      lo <= channel[m].0 < hi && call(channel[m].0, requests[channel[m].0]) == Ok(channel[m].1)
  }

  ghost predicate Answered<Res>(channel: seq<(nat, Res)>, i: nat) {
    exists m :: 0 <= m < |channel| && channel[m].0 == i
  }

  /**
   One batch: the goroutines for requests lo to hi-1 are launched one after the other; at any time the oracle may
   let a running one finish. The wait ends when all have finished.
   */
  method RunBatch<Req, Res>(
    requests: seq<Req>, call: (nat, Req) -> Reply<Res>, pick: nat -> nat, t: nat, lo: nat, hi: nat)
    returns (channel: seq<(nat, Res)>, peak: nat, calls: nat)
    requires lo <= hi <= |requests|
    ensures Truthful(requests, call, lo, hi, channel)
    ensures forall i :: lo <= i < hi && call(i, requests[i]).Ok? ==> Answered(channel, i)
    ensures peak <= hi - lo && calls == hi - lo
  {
    channel, peak, calls := [], 0, 0;
    var next, now := lo, t;
    var running: seq<nat> := [];
    while next < hi || running != []
      invariant lo <= next <= hi
      invariant |running| + calls == next - lo && peak <= hi - lo
      invariant forall k :: 0 <= k < |running| ==> lo <= running[k] < next
      invariant Truthful(requests, call, lo, hi, channel)
      invariant forall i :: lo <= i < next && call(i, requests[i]).Ok? ==> i in running || Answered(channel, i)
      decreases 2 * (hi - next) + |running|
    {
      if next < hi && (running == [] || pick(now) >= |running|) {
        running := running + [next];
        next := next + 1;
        if |running| > peak {
          peak := |running|;
        }
      } else {
        var j := if pick(now) < |running| then pick(now) else 0;
        var i := running[j];
        ghost var before, others := channel, running[..j] + running[j + 1..];
        match call(i, requests[i]) {
          case Ok(v) =>
            channel := channel + [(i, v)];
            assert channel[|channel| - 1].0 == i;
          case Err(_) =>
        }
        forall i' | lo <= i' < next && call(i', requests[i']).Ok?
          ensures i' in others || Answered(channel, i')
        {
          StillAccounted(running, j, before, channel, i');
        }
        running, calls := running[..j] + running[j + 1..], calls + 1;
      }
      now := now + 1;
    }
  }

  /** Whoever was running or answered still is, except the one that just finished. */
  lemma StillAccounted<Res>(
    running: seq<nat>, j: nat, before: seq<(nat, Res)>, after: seq<(nat, Res)>, i: nat)
    requires j < |running| && before <= after
    requires i in running || Answered(before, i)
    ensures i in running[..j] + running[j + 1..] || i == running[j] || Answered(after, i)
  {
    if i in running {
      var k :| 0 <= k < |running| && running[k] == i;
      assert k < j ==> running[..j][k] == i;
      assert k > j ==> running[j + 1..][k - j - 1] == i;
    } else {
      var m :| 0 <= m < |before| && before[m].0 == i;
      assert after[m].0 == i;
    }
  }

  /** Write the answers of a batch into their slots. */
  method Fill<Req, Res>(
    requests: seq<Req>, call: (nat, Req) -> Reply<Res>, lo: nat, hi: nat, channel: seq<(nat, Res)>,
    slots: array<Option<Res>>)
    requires lo <= hi <= |requests| == slots.Length
    requires Truthful(requests, call, lo, hi, channel)
    requires forall i :: lo <= i < hi && call(i, requests[i]).Ok? ==> Answered(channel, i)
    requires forall i :: 0 <= i < lo ==> slots[i] == Expected(requests, call, i)
    requires forall i :: lo <= i < slots.Length ==> slots[i] == None
    modifies slots
    ensures forall i :: 0 <= i < hi ==> slots[i] == Expected(requests, call, i)
    ensures forall i :: hi <= i < slots.Length ==> slots[i] == None
  {
    for m := 0 to |channel|
      invariant forall i :: 0 <= i < lo ==> slots[i] == Expected(requests, call, i)
      invariant forall i :: hi <= i < slots.Length ==> slots[i] == None
      invariant forall i :: lo <= i < hi ==> slots[i] == None || slots[i] == Expected(requests, call, i)
      invariant forall k :: 0 <= k < m ==> slots[channel[k].0] == Expected(requests, call, channel[k].0)
    {
      slots[channel[m].0] := Some(channel[m].1);
    }
    forall i | lo <= i < hi ensures slots[i] == Expected(requests, call, i) {
      if call(i, requests[i]).Ok? {
        assert Answered(channel, i);
      }
    }
  }

  /**
   chunkedBatchCall refines a sequential map: for every interleaving, output i is the response to request i, or
   nothing exactly when that call failed. There is always one output per request, so the final length check never
   fails. One call is made per request, no more than a hundred are ever in flight, and there is one wait per hundred
   requests, rounded up. The cutting loop and the loop over the batches it cuts are one loop here.
   */
  method ChunkedBatchCall<Req, Res>(requests: seq<Req>, call: (nat, Req) -> Reply<Res>, pick: nat -> nat)
    returns (r: Reply<seq<Option<Res>>>, peak: nat, waits: nat, calls: nat)
    ensures r.Ok? && |r.value| == |requests|
    ensures forall i :: 0 <= i < |requests| ==> r.value[i] == Expected(requests, call, i)
    ensures peak <= 100 && waits == CeilDiv(|requests|, 100) && calls == |requests|
  {
    hide CeilDiv;
    peak, waits, calls := 0, 0, 0;
    if |requests| == 0 {
      WaitsAre(0, 0);
      return Ok([]), 0, 0, 0;
    }
    var slots := new Option<Res>[|requests|](_ => None);
    var currentIndex: nat, t: nat := 0, 0;
    while true
      invariant 0 <= currentIndex < |requests| && peak <= BATCH_SIZE && currentIndex == 100 * waits
      invariant calls == currentIndex
      invariant forall i :: 0 <= i < currentIndex ==> slots[i] == Expected(requests, call, i)
      invariant forall i :: currentIndex <= i < slots.Length ==> slots[i] == None
      decreases |requests| - currentIndex
    {
      var endIndex := currentIndex + BATCH_SIZE;
      if endIndex >= |requests| {
        endIndex := |requests|;
      }
      var channel, inFlight, made := RunBatch(requests, call, pick, t, currentIndex, endIndex);
      Fill(requests, call, currentIndex, endIndex, channel, slots);
      if inFlight > peak {
        peak := inFlight;
      }
      t, waits, calls := t + 2 * BATCH_SIZE, waits + 1, calls + made;
      currentIndex := currentIndex + BATCH_SIZE;
      if currentIndex >= |requests| {
        break;
      }
    }
    WaitsAre(|requests|, waits);
    var allResults := slots[..];
    if |allResults| != |requests| {
      return Err(CallFailed), peak, waits, calls;
    }
    return Ok(allResults), peak, waits, calls;
  }

  lemma WaitsAre(n: nat, waits: nat)
    requires 100 * waits - 100 < n <= 100 * waits
    ensures waits == CeilDiv(n, 100)
  {
  }

  // ---------------------------------------------------------------- chunkedNativeBatchCall

  datatype Response = Response(id: Option<uint64>, result: string)

  /** int(a - b): the difference wraps and is then read as signed. */
  function Cmp(a: uint64, b: uint64): int {
    var d := Sub64(a, b);
    if d < 0x8000_0000_0000_0000 then d else d - TWO_64
  }

  /** The comparator orders two ids correctly exactly when their difference fits a signed 64-bit number. */
  lemma CmpIsOrderIff(a: uint64, b: uint64)
    ensures (Cmp(a, b) < 0 <==> a < b) <==> -0x8000_0000_0000_0000 <= a - b < 0x8000_0000_0000_0000
  {
  }

  /** With ids half the range apart, each of two responses sorts before the other. */
  lemma CmpCanContradictItself()
    ensures Cmp(0, 0x8000_0000_0000_0000) < 0 && Cmp(0x8000_0000_0000_0000, 0) < 0
  {
  }

  predicate AllIdentified(rs: seq<Response>) {
    forall i :: 0 <= i < |rs| ==> rs[i].id.Some?
  }

  /** The ids are distinct and less than 2^63 apart. */
  ghost predicate Apart(x: Response, y: Response) {
    && x.id.Some? && y.id.Some? && x.id != y.id
    && -0x8000_0000_0000_0000 < x.id.value - y.id.value < 0x8000_0000_0000_0000
  }

  /** All ids present, distinct, and less than 2^63 apart. */
  ghost predicate Comparable(rs: multiset<Response>) {
    && (forall x :: x in rs ==> x.id.Some? && rs[x] == 1)
    && (forall x, y :: x in rs && y in rs && x != y ==> Apart(x, y))
  }

  ghost predicate SortedById(rs: seq<Response>)
    requires AllIdentified(rs)
  {
    forall i, j :: 0 <= i < j < |rs| ==> rs[i].id.value < rs[j].id.value
  }

  /** Every element compares below every later one. */
  ghost predicate InOrder(rs: seq<Response>) {
    forall i, j :: 0 <= i < j < |rs| ==> rs[i].id.Some? && rs[j].id.Some? && Cmp(rs[i].id.value, rs[j].id.value) < 0
  }

  /**
   What slices.SortFunc promises with this comparator, whatever its algorithm: the same responses, and in order when
   the comparator is a strict order on them.
   */
  ghost predicate Sorts(sort: seq<Response> -> seq<Response>) {
    forall rs | AllIdentified(rs) ::
      multiset(sort(rs)) == multiset(rs) && (Comparable(multiset(rs)) ==> InOrder(sort(rs)))
  }

  /** Comparing less is having the smaller id, on comparable responses. */
  lemma InOrderIsSorted(rs: seq<Response>)
    requires AllIdentified(rs) && Comparable(multiset(rs))
    ensures InOrder(rs) <==> SortedById(rs)
  {
    forall i, j | 0 <= i < j < |rs|
      ensures Cmp(rs[i].id.value, rs[j].id.value) < 0 <==> rs[i].id.value < rs[j].id.value
    {
      assert rs[i] in multiset(rs) && rs[j] in multiset(rs);
      if rs[i] != rs[j] {
        assert Apart(rs[i], rs[j]);
      }
    }
  }

  function Insert(r: Response, rs: seq<Response>): seq<Response>
    requires r.id.Some? && AllIdentified(rs)
  {
    if rs == [] || Cmp(r.id.value, rs[0].id.value) < 0 then [r] + rs else [rs[0]] + Insert(r, rs[1..])
  }

  /** An insertion sort by the wrapping comparator. */
  function Sort(rs: seq<Response>): (s: seq<Response>)
    requires AllIdentified(rs)
    ensures multiset(s) == multiset(rs) && AllIdentified(s)
  {
    if rs == [] then [] else
      assert rs == [rs[0]] + rs[1..];
      InsertKeeps(rs[0], Sort(rs[1..]));
      Insert(rs[0], Sort(rs[1..]))
  }

  lemma {:induction false} InsertKeeps(r: Response, rs: seq<Response>)
    requires r.id.Some? && AllIdentified(rs)
    ensures multiset(Insert(r, rs)) == multiset(rs) + multiset{r} && AllIdentified(Insert(r, rs))
  {
    if rs != [] && !(Cmp(r.id.value, rs[0].id.value) < 0) {
      InsertKeeps(r, rs[1..]);
      assert rs == [rs[0]] + rs[1..];
    }
  }

  /** r's id is present and comparable with all of rs. */
  ghost predicate Fits(r: Response, rs: seq<Response>) {
    r.id.Some? && AllIdentified(rs) && forall i :: 0 <= i < |rs| ==> Apart(r, rs[i])
  }

  lemma InsertAbove(x: Response, r: Response, rs: seq<Response>)
    requires r.id.Some? && AllIdentified(rs) && x.id.Some? && x.id.value < r.id.value
    requires forall i :: 0 <= i < |rs| ==> x.id.value < rs[i].id.value
    ensures AllIdentified(Insert(r, rs)) && forall i :: 0 <= i < |Insert(r, rs)| ==> x.id.value < Insert(r, rs)[i].id.value
  {
    InsertKeeps(r, rs);
    var out := Insert(r, rs);
    forall i | 0 <= i < |out| ensures x.id.value < out[i].id.value {
      assert out[i] in multiset(out);
      assert out[i] == r || out[i] in rs;
    }
  }

  lemma {:induction false} InsertSorts(r: Response, rs: seq<Response>)
    requires Fits(r, rs) && SortedById(rs)
    ensures AllIdentified(Insert(r, rs)) && SortedById(Insert(r, rs))
  {
    if rs != [] && !(Cmp(r.id.value, rs[0].id.value) < 0) {
      InsertSorts(r, rs[1..]);
      InsertAbove(rs[0], r, rs[1..]);
    }
  }

  lemma ComparableTail(rs: seq<Response>)
    requires rs != [] && Comparable(multiset(rs))
    ensures Comparable(multiset(rs[1..]))
    ensures forall x :: x in multiset(rs[1..]) ==> Apart(rs[0], x)
  {
    assert rs == [rs[0]] + rs[1..];
    assert multiset(rs) == multiset{rs[0]} + multiset(rs[1..]);
    assert rs[0] in multiset(rs);
    forall x | x in multiset(rs[1..]) ensures x in multiset(rs) && x != rs[0] && multiset(rs[1..])[x] == 1 {
      assert multiset(rs)[x] >= multiset(rs[1..])[x];
    }
  }

  lemma {:induction false} SortSorts(rs: seq<Response>)
    requires AllIdentified(rs) && Comparable(multiset(rs))
    ensures SortedById(Sort(rs))
  {
    if rs != [] {
      ComparableTail(rs);
      SortSorts(rs[1..]);
      var tail := Sort(rs[1..]);
      forall i | 0 <= i < |tail| ensures Apart(rs[0], tail[i]) {
        assert tail[i] in multiset(tail);
      }
      InsertSorts(rs[0], tail);
    }
  }

  /** There is such a sort. */
  lemma InsertionSorts()
    ensures Sorts(rs => if AllIdentified(rs) then Sort(rs) else rs)
  {
    forall rs | AllIdentified(rs) && Comparable(multiset(rs)) ensures InOrder(Sort(rs)) {
      SortSorts(rs);
      InOrderIsSorted(Sort(rs));
    }
  }

  lemma TailBag<T>(xs: seq<T>)
    requires xs != []
    ensures multiset(xs[1..]) == multiset(xs) - multiset{xs[0]}
  {
    assert xs == [xs[0]] + xs[1..];
  }

  /** The first of a sorted list is the only one with the least id. */
  lemma FirstIsLeast(xs: seq<Response>, y: Response)
    requires xs != [] && AllIdentified(xs) && SortedById(xs) && y in multiset(xs)
    ensures y.id.Some? && (y == xs[0] || xs[0].id.value < y.id.value)
  {
    var i :| 0 <= i < |xs| && xs[i] == y;
  }

  /** Whatever the sorting algorithm: two id-sorted arrangements of the same responses are the same list. */
  lemma {:induction false} SortedIsUnique(xs: seq<Response>, ys: seq<Response>)
    requires AllIdentified(xs) && AllIdentified(ys) && SortedById(xs) && SortedById(ys)
    requires multiset(xs) == multiset(ys)
    ensures xs == ys
    decreases |xs|
  {
    assert |xs| == |multiset(xs)| == |multiset(ys)| == |ys|;
    if xs != [] {
      assert xs[0] in multiset(xs) && ys[0] in multiset(ys);
      FirstIsLeast(xs, ys[0]);
      FirstIsLeast(ys, xs[0]);
      TailBag(xs);
      TailBag(ys);
      SortedIsUnique(xs[1..], ys[1..]);
    }
  }

  /** What the goroutines get: the i-th sends batch i. */
  function Sent<Req>(batches: seq<seq<Req>>, send: (nat, seq<Req>) -> Reply<seq<Response>>, i: nat):
    (rs: seq<Reply<seq<Response>>>)
    ensures |rs| == |batches|
    decreases |batches|
  {
    if batches == [] then [] else [send(i, batches[0])] + Sent(batches[1..], send, i + 1)
  }

  /** All responses of the batches that succeeded, batch after batch. */
  function Responses<Req>(requests: seq<Req>, send: (nat, seq<Req>) -> Reply<seq<Response>>): seq<Response> {
    Drained(Sent(Cut(requests, BATCH_SIZE), send, 0))
  }

  method SendBatches<Req>(batches: seq<seq<Req>>, send: (nat, seq<Req>) -> Reply<seq<Response>>)
    returns (replies: seq<Reply<seq<Response>>>)
    ensures replies == Sent(batches, send, 0)
  {
    replies := [];
    for i := 0 to |batches|
      invariant replies + Sent(batches[i..], send, i) == Sent(batches, send, 0)
    {
      assert batches[i..][0] == batches[i] && batches[i..][1..] == batches[i + 1..];
      SeqAssoc(replies, [send(i, batches[i])], Sent(batches[i + 1..], send, i + 1));
      replies := replies + [send(i, batches[i])];
    }
  }

  /**
   chunkedNativeBatchCall: failed batches are dropped without an error, and comparing a response without an id
   panics, which any sort of two or more responses does.
   */
  function NativeResult<Req>(
    requests: seq<Req>, send: (nat, seq<Req>) -> Reply<seq<Response>>, pick: nat -> nat,
    sort: seq<Response> -> seq<Response>): Reply<seq<Response>>
  {
    var replies := Sent(Cut(requests, BATCH_SIZE), send, 0);
    var results := Drained(Arrivals(replies, Schedule(pick, 0, Upto(|replies|))));
    if |results| < 2 then Ok(results) else if !AllIdentified(results) then Err(Panicked) else Ok(sort(results))
  }

  method ChunkedNativeBatchCall<Req>(
    requests: seq<Req>, send: (nat, seq<Req>) -> Reply<seq<Response>>, pick: nat -> nat,
    sort: seq<Response> -> seq<Response>)
    returns (r: Reply<seq<Response>>)
    ensures r == NativeResult(requests, send, pick, sort)
  {
    if |requests| == 0 {
      assert Upto(0) == [];
      return Ok([]);
    }
    var batches := ChunkRequests(requests);
    var replies := SendBatches(batches, send);
    var order := CompletionOrder(pick, 0, |batches|);
    var arrived, _ := Collect(replies, order);
    var results := Gather(arrived);
    if |results| < 2 {
      return Ok(results);
    }
    if !AllIdentified(results) {
      return Err(Panicked);
    }
    return Ok(sort(results));
  }

  /**
   For every completion order and every sorting algorithm: the result holds every response of the successful batches
   exactly once; it is an error only if a response without an id had to be compared; and with comparable ids it is
   sorted by id.
   */
  lemma NativeResultFacts<Req>(
    requests: seq<Req>, send: (nat, seq<Req>) -> Reply<seq<Response>>, pick: nat -> nat,
    sort: seq<Response> -> seq<Response>)
    requires Sorts(sort)
    ensures var r, all := NativeResult(requests, send, pick, sort), Responses(requests, send);
            && (r.Err? <==> |all| >= 2 && !AllIdentified(all))
            && (r.Ok? ==> multiset(r.value) == multiset(all))
            && (Comparable(multiset(all)) ==> r.Ok? && AllIdentified(r.value) && SortedById(r.value))
  {
    var all := Responses(requests, send);
    var replies := Sent(Cut(requests, BATCH_SIZE), send, 0);
    var results := Drained(Arrivals(replies, Schedule(pick, 0, Upto(|replies|))));
    ScheduleIrrelevant(replies, pick, 0);
    SameResponses(results, all);
    if AllIdentified(results) {
      SameResponses(sort(results), results);
      if Comparable(multiset(results)) {
        InOrderIsSorted(sort(results));
      }
    }
  }

  /** With comparable ids neither the order in which the batches finish nor the sorting algorithm matters. */
  lemma NativeIsDeterministic<Req>(
    requests: seq<Req>, send: (nat, seq<Req>) -> Reply<seq<Response>>, pick: nat -> nat, pick': nat -> nat,
    sort: seq<Response> -> seq<Response>, sort': seq<Response> -> seq<Response>)
    requires Sorts(sort) && Sorts(sort') && Comparable(multiset(Responses(requests, send)))
    ensures NativeResult(requests, send, pick, sort) == NativeResult(requests, send, pick', sort')
  {
    hide Sorts, Comparable, NativeResult, Responses;
    NativeResultFacts(requests, send, pick, sort);
    NativeResultFacts(requests, send, pick', sort');
    SortedIsUnique(NativeResult(requests, send, pick, sort).value, NativeResult(requests, send, pick', sort').value);
  }

  lemma SameResponses(xs: seq<Response>, ys: seq<Response>)
    requires multiset(xs) == multiset(ys)
    ensures |xs| == |ys|
    ensures AllIdentified(xs) <==> AllIdentified(ys)
    ensures Comparable(multiset(xs)) ==> AllIdentified(xs)
  {
    assert |xs| == |multiset(xs)| && |ys| == |multiset(ys)|;
    forall i | 0 <= i < |xs| ensures xs[i] in multiset(xs) && xs[i] in ys {
    }
    forall i | 0 <= i < |ys| ensures ys[i] in multiset(ys) && ys[i] in xs {
    }
  }

  // ---------------------------------------------------------------- answers in request order

  function Ids(rs: seq<Response>): seq<int> {
    if rs == [] then [] else [if rs[0].id.Some? then rs[0].id.value else -1] + Ids(rs[1..])
  }

  ghost predicate Increasing(xs: seq<int>) {
    forall i, j :: 0 <= i < j < |xs| ==> xs[i] < xs[j]
  }

  lemma LeastFirst(xs: seq<int>, y: int)
    requires xs != [] && Increasing(xs) && y in multiset(xs)
    ensures xs[0] <= y
  {
    var i :| 0 <= i < |xs| && xs[i] == y;
  }

  lemma {:induction false} IncreasingIsUnique(xs: seq<int>, ys: seq<int>)
    requires Increasing(xs) && Increasing(ys) && multiset(xs) == multiset(ys)
    ensures xs == ys
    decreases |xs|
  {
    assert |xs| == |multiset(xs)| == |multiset(ys)| == |ys|;
    if xs != [] {
      assert xs[0] in multiset(xs) && ys[0] in multiset(ys);
      LeastFirst(xs, ys[0]);
      LeastFirst(ys, xs[0]);
      TailBag(xs);
      TailBag(ys);
      IncreasingIsUnique(xs[1..], ys[1..]);
    }
  }

  lemma {:induction false} IdsAt(rs: seq<Response>)
    requires AllIdentified(rs)
    ensures |Ids(rs)| == |rs| && forall i :: 0 <= i < |rs| ==> Ids(rs)[i] == rs[i].id.value
  {
    if rs != [] {
      IdsAt(rs[1..]);
    }
  }

  function IdsOf<Req>(requests: seq<Req>, idOf: Req -> uint64): seq<int> {
    if |requests| == 0 then [] else [idOf(requests[0])] + IdsOf(requests[1..], idOf)
  }

  /** The requests of the batches that succeeded. */
  function Served<Req>(batches: seq<seq<Req>>, send: (nat, seq<Req>) -> Reply<seq<Response>>, i: nat): seq<Req>
    decreases |batches|
  {
    if |batches| == 0 then []
    else (if send(i, batches[0]).Ok? then batches[0] else []) + Served(batches[1..], send, i + 1)
  }

  /** A successful call answers every request of its batch once, under the request's id. */
  ghost predicate AnswersByOwnId<Req>(
    batches: seq<seq<Req>>, send: (nat, seq<Req>) -> Reply<seq<Response>>, idOf: Req -> uint64, i: nat)
  {
    forall k: nat | k < |batches| && send(i + k, batches[k]).Ok? ::
      && AllIdentified(send(i + k, batches[k]).value)
      && multiset(Ids(send(i + k, batches[k]).value)) == multiset(IdsOf(batches[k], idOf))
  }

  ghost predicate Narrow(xs: seq<int>) {
    forall i, j :: 0 <= i < |xs| && 0 <= j < |xs| ==> xs[i] - xs[j] < 0x8000_0000_0000_0000
  }

  lemma {:induction false} IdsConcat(a: seq<Response>, b: seq<Response>)
    ensures Ids(a + b) == Ids(a) + Ids(b)
  {
    if a == [] {
      assert a + b == b;
    } else {
      assert (a + b)[1..] == a[1..] + b;
      IdsConcat(a[1..], b);
    }
  }

  lemma {:induction false} IdsOfConcat<Req>(a: seq<Req>, b: seq<Req>, idOf: Req -> uint64)
    ensures IdsOf(a + b, idOf) == IdsOf(a, idOf) + IdsOf(b, idOf)
  {
    if |a| == 0 {
      assert a + b == b;
    } else {
      assert (a + b)[1..] == a[1..] + b;
      IdsOfConcat(a[1..], b, idOf);
    }
  }

  lemma AnswersTail<Req>(
    batches: seq<seq<Req>>, send: (nat, seq<Req>) -> Reply<seq<Response>>, idOf: Req -> uint64, i: nat)
    requires |batches| > 0 && AnswersByOwnId(batches, send, idOf, i)
    ensures AnswersByOwnId(batches[1..], send, idOf, i + 1)
    ensures send(i, batches[0]).Ok? ==>
              && AllIdentified(send(i, batches[0]).value)
              && multiset(Ids(send(i, batches[0]).value)) == multiset(IdsOf(batches[0], idOf))
  {
    forall k: nat | k < |batches[1..]| ensures batches[1..][k] == batches[k + 1] && i + 1 + k == i + (k + 1) {
    }
    assert i + 0 == i;
  }

  /** The responses carry exactly the ids of the requests served. */
  lemma {:induction false} ServedIds<Req>(
    batches: seq<seq<Req>>, send: (nat, seq<Req>) -> Reply<seq<Response>>, idOf: Req -> uint64, i: nat)
    requires AnswersByOwnId(batches, send, idOf, i)
    ensures var rs := Drained(Sent(batches, send, i));
            AllIdentified(rs) && multiset(Ids(rs)) == multiset(IdsOf(Served(batches, send, i), idOf))
    decreases |batches|
  {
    if |batches| > 0 {
      AnswersTail(batches, send, idOf, i);
      ServedIds(batches[1..], send, idOf, i + 1);
      var head := if send(i, batches[0]).Ok? then send(i, batches[0]).value else [];
      var served := if send(i, batches[0]).Ok? then batches[0] else [];
      IdsConcat(head, Drained(Sent(batches[1..], send, i + 1)));
      IdsOfConcat(served, Served(batches[1..], send, i + 1), idOf);
      assert Sent(batches, send, i)[1..] == Sent(batches[1..], send, i + 1);
    }
  }

  lemma IncreasingParts(a: seq<int>, b: seq<int>)
    ensures Increasing(a + b) <==>
            Increasing(a) && Increasing(b) && forall x, y :: x in a && y in b ==> x < y
  {
    var c := a + b;
    if Increasing(c) {
      forall i, j | 0 <= i < j < |a| ensures a[i] < a[j] {
        assert c[i] < c[j];
      }
      forall i, j | 0 <= i < j < |b| ensures b[i] < b[j] {
        assert c[|a| + i] < c[|a| + j];
      }
      forall x, y | x in a && y in b ensures x < y {
        var i, j :| 0 <= i < |a| && a[i] == x && 0 <= j < |b| && b[j] == y;
        assert c[i] < c[|a| + j];
      }
    } else {
      var i, j :| 0 <= i < j < |c| && c[i] >= c[j];
      assert i < |a| <= j ==> c[i] in a && c[j] in b;
      assert i >= |a| ==> b[i - |a|] >= b[j - |a|];
    }
  }

  /** Leaving out whole batches keeps the ids increasing. */
  lemma {:induction false} ServedInOrder<Req>(
    batches: seq<seq<Req>>, send: (nat, seq<Req>) -> Reply<seq<Response>>, idOf: Req -> uint64, i: nat)
    requires Increasing(IdsOf(Flatten(batches), idOf))
    ensures Increasing(IdsOf(Served(batches, send, i), idOf))
    ensures forall x :: x in IdsOf(Served(batches, send, i), idOf) ==> x in IdsOf(Flatten(batches), idOf)
    decreases |batches|
  {
    if |batches| > 0 {
      var first, rest := batches[0], Flatten(batches[1..]);
      var served := Served(batches[1..], send, i + 1);
      IdsOfConcat(first, rest, idOf);
      IncreasingParts(IdsOf(first, idOf), IdsOf(rest, idOf));
      ServedInOrder(batches[1..], send, idOf, i + 1);
      if send(i, batches[0]).Ok? {
        IdsOfConcat(first, served, idOf);
        IncreasingParts(IdsOf(first, idOf), IdsOf(served, idOf));
      } else {
        assert Served(batches, send, i) == served;
      }
    }
  }

  /** In an increasing list everything occurs once. */
  lemma {:induction false} IncreasingOnce(xs: seq<int>, x: int)
    requires Increasing(xs)
    ensures multiset(xs)[x] <= 1
  {
    if |xs| > 0 {
      IncreasingOnce(xs[1..], x);
      TailBag(xs);
      assert xs[0] !in xs[1..];
    }
  }

  lemma TwiceCounts<T>(xs: seq<T>, i: nat, j: nat)
    requires i < j < |xs| && xs[i] == xs[j]
    ensures multiset(xs)[xs[i]] >= 2
  {
    assert xs == xs[..j] + [xs[j]] + xs[j + 1..];
    assert xs[..j][i] == xs[i];
    assert xs[i] in multiset(xs[..j]);
  }

  lemma {:induction false} OnceEach<T>(xs: seq<T>, x: T)
    requires forall i, j :: 0 <= i < j < |xs| ==> xs[i] != xs[j]
    ensures multiset(xs)[x] <= 1
  {
    if |xs| > 0 {
      OnceEach(xs[1..], x);
      TailBag(xs);
      assert xs[0] !in xs[1..];
    }
  }

  /** Responses whose ids are those of an increasing, narrow list are comparable. */
  lemma IdsComparable(rs: seq<Response>, ids: seq<int>)
    requires AllIdentified(rs) && Increasing(ids) && Narrow(ids) && multiset(Ids(rs)) == multiset(ids)
    ensures Comparable(multiset(rs))
  {
    IdsAt(rs);
    forall i | 0 <= i < |rs| ensures rs[i].id.value in ids {
      assert Ids(rs)[i] in multiset(Ids(rs));
    }
    forall i, j | 0 <= i < j < |rs| ensures rs[i].id != rs[j].id {
      if rs[i].id == rs[j].id {
        TwiceCounts(Ids(rs), i, j);
        IncreasingOnce(ids, Ids(rs)[i]);
      }
    }
    forall x | x in multiset(rs) ensures x.id.Some? && multiset(rs)[x] == 1 {
      OnceEach(rs, x);
    }
    forall x, y | x in multiset(rs) && y in multiset(rs) && x != y ensures Apart(x, y) {
      var i :| 0 <= i < |rs| && rs[i] == x;
      var j :| 0 <= j < |rs| && rs[j] == y;
    }
  }

  /**
   Matching by id, end to end. Let the requests' ids increase and lie less than 2^63 apart, and let every successful
   call answer each request of its batch once under its id. Then for every completion order and every sorting
   algorithm the result answers, in request order, exactly the requests of the batches that succeeded.
   */
  lemma AnswersFollowRequests<Req>(
    requests: seq<Req>, send: (nat, seq<Req>) -> Reply<seq<Response>>, idOf: Req -> uint64, pick: nat -> nat,
    sort: seq<Response> -> seq<Response>)
    requires Sorts(sort) && Increasing(IdsOf(requests, idOf)) && Narrow(IdsOf(requests, idOf))
    requires AnswersByOwnId(Cut(requests, BATCH_SIZE), send, idOf, 0)
    ensures Comparable(multiset(Responses(requests, send)))
    ensures var r := NativeResult(requests, send, pick, sort);
            && r.Ok? && AllIdentified(r.value)
            && Ids(r.value) == IdsOf(Served(Cut(requests, BATCH_SIZE), send, 0), idOf)
  {
    hide Sorts, Comparable, NativeResult, AnswersByOwnId, Cut;
    var batches, all := Cut(requests, BATCH_SIZE), Responses(requests, send);
    var ids := IdsOf(Served(batches, send, 0), idOf);
    CutContents(requests, BATCH_SIZE);
    ServedInOrder(batches, send, idOf, 0);
    ServedIds(batches, send, idOf, 0);
    assert Narrow(ids) by {
      forall i, j | 0 <= i < |ids| && 0 <= j < |ids| ensures ids[i] - ids[j] < 0x8000_0000_0000_0000 {
        assert ids[i] in IdsOf(requests, idOf) && ids[j] in IdsOf(requests, idOf);
      }
    }
    IdsComparable(all, ids);
    NativeResultFacts(requests, send, pick, sort);
    var out := NativeResult(requests, send, pick, sort).value;
    SameIds(out, all);
    IdsAt(out);
    IncreasingIsUnique(Ids(out), ids);
  }

  lemma {:induction false} SameIds(xs: seq<Response>, ys: seq<Response>)
    requires multiset(xs) == multiset(ys)
    ensures multiset(Ids(xs)) == multiset(Ids(ys))
    decreases |xs|
  {
    assert |xs| == |multiset(xs)| == |multiset(ys)| == |ys|;
    if xs != [] {
      assert xs[0] in multiset(xs);
      var j :| 0 <= j < |ys| && ys[j] == xs[0];
      var rest := ys[..j] + ys[j + 1..];
      assert ys == ys[..j] + [ys[j]] + ys[j + 1..];
      assert multiset(rest) == multiset(ys) - multiset{ys[j]};
      TailBag(xs);
      SameIds(xs[1..], rest);
      IdsWithout(ys, j);
      IdsWithout(xs, 0);
    }
  }

  /** Taking a response away takes its id away. */
  lemma IdsWithout(rs: seq<Response>, j: nat)
    requires j < |rs|
    ensures multiset(Ids(rs)) == multiset(Ids(rs[..j] + rs[j + 1..])) + multiset(Ids([rs[j]]))
    ensures j == 0 ==> rs[..j] + rs[j + 1..] == rs[1..]
  {
    hide Ids;
    var a, b := rs[..j], rs[j + 1..];
    assert rs == a + ([rs[j]] + b);
    IdsConcat(a, [rs[j]] + b);
    IdsConcat([rs[j]], b);
    IdsConcat(a, b);
  }
}
