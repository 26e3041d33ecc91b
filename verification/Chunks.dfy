/**
 Cutting a list into consecutive pieces. One specification, `Cut`, for the three loops of the program that
 do it: the address batches of the log query and the request batches of the two RPC gatherers.
 */
module Chunks {
  import opened Types

  const DEFAULT_MAX_ADDRESSES: nat := 1000
  const BATCH_SIZE: nat := 100

  function Flatten<T>(xss: seq<seq<T>>): seq<T> {
    if xss == [] then [] else xss[0] + Flatten(xss[1..])
  }

  function Cut<T>(xs: seq<T>, size: nat): seq<seq<T>>
    requires size >= 1
    decreases |xs|
  {
    if xs == [] then [] else if |xs| <= size then [xs] else [xs[..size]] + Cut(xs[size..], size)
  }

  function CeilDiv(n: nat, size: nat): nat
    requires size >= 1
  {
    (n + size - 1) / size
  }

  /** The piece size `chunkAddresses` works with: a non-positive setting means the default. */
  function EffectiveSize(size: int): (r: nat)
    ensures r >= 1
  {
    if size <= 0 then DEFAULT_MAX_ADDRESSES else size
  }

  lemma {:induction false} FlattenSnoc<T>(xss: seq<seq<T>>, xs: seq<T>)
    ensures Flatten(xss + [xs]) == Flatten(xss) + xs
  {
    if xss == [] {
      assert xss + [xs] == [xs];
      assert Flatten([xs]) == xs + Flatten<T>([]);
    } else {
      assert (xss + [xs])[0] == xss[0] && (xss + [xs])[1..] == xss[1..] + [xs];
      FlattenSnoc(xss[1..], xs);
    }
  }

  lemma QuotientIs(m: nat, d: nat, k: nat)
    requires d >= 1 && k * d <= m < (k + 1) * d
    ensures m / d == k
  {
    var q := m / d;
    assert q * d <= m < (q + 1) * d;
    assert q < k ==> (q + 1) * d <= k * d;
    assert q > k ==> (k + 1) * d <= q * d;
  }

  lemma OneMore(k: int, size: int)
    ensures (k + 1) * size == k * size + size && k * size == (k - 1) * size + size
  {
  }

  lemma {:induction false} CutContents<T>(xs: seq<T>, size: nat)
    requires size >= 1
    ensures Flatten(Cut(xs, size)) == xs
    ensures forall i :: 0 <= i < |Cut(xs, size)| ==> 1 <= |Cut(xs, size)[i]| <= size
    ensures forall i :: 0 <= i < |Cut(xs, size)| - 1 ==> |Cut(xs, size)[i]| == size
    decreases |xs|
  {
    if xs == [] {
    } else if |xs| <= size {
      assert Flatten([xs]) == xs + Flatten<T>([]);
    } else {
      CutContents(xs[size..], size);
      assert Cut(xs, size)[1..] == Cut(xs[size..], size);
      assert xs[..size] + xs[size..] == xs;
    }
  }

  lemma {:induction false} CutBounds<T>(xs: seq<T>, size: nat)
    requires size >= 1
    ensures (|Cut(xs, size)| - 1) * size < |xs| <= |Cut(xs, size)| * size || (xs == [] && Cut(xs, size) == [])
    decreases |xs|
  {
    if |xs| > size {
      CutBounds(xs[size..], size);
      OneMore(|Cut(xs[size..], size)|, size);
    }
  }

  /** The pieces lose nothing, add nothing and keep the order; they are full except perhaps the last. */
  lemma CutFacts<T>(xs: seq<T>, size: nat)
    requires size >= 1
    ensures Flatten(Cut(xs, size)) == xs
    ensures (|Cut(xs, size)| - 1) * size < |xs| <= |Cut(xs, size)| * size || (xs == [] && Cut(xs, size) == [])
    ensures forall i :: 0 <= i < |Cut(xs, size)| ==> 1 <= |Cut(xs, size)[i]| <= size
    ensures forall i :: 0 <= i < |Cut(xs, size)| - 1 ==> |Cut(xs, size)[i]| == size
  {
    hide Cut, Flatten;
    CutContents(xs, size);
    CutBounds(xs, size);
  }

  /** The number of pieces is the rounded-up quotient. */
  lemma CutCount<T>(xs: seq<T>, size: nat)
    requires size >= 1
    ensures |Cut(xs, size)| == CeilDiv(|xs|, size)
  {
    hide Cut;
    CutBounds(xs, size);
    var k := |Cut(xs, size)|;
    OneMore(k, size);
    if k == 0 {
      QuotientIs(size - 1, size, 0);
    } else {
      QuotientIs(|xs| + size - 1, size, k);
    }
  }

  /** The piece that starts at i, and the pieces after it. */
  lemma CutStep<T>(xs: seq<T>, size: nat, i: nat, end: nat)
    requires size >= 1 && i < |xs| && end == if i + size > |xs| then |xs| else i + size
    ensures Cut(xs[i..], size) == [xs[i..end]] + if i + size < |xs| then Cut(xs[i + size..], size) else []
  {
    var rest := xs[i..];
    if end < |xs| {
      assert rest[..size] == xs[i..end] && rest[size..] == xs[end..];
    } else {
      assert rest == xs[i..end];
    }
  }

  // ---------------------------------------------------------------- the capacity hint

  const TWO_63: int := 0x8000_0000_0000_0000

  /** A sum of two non-negative ints, wrapped into 64 signed bits. */
  function WrapSum(n: int): int {
    if n < TWO_63 then n else n - 2 * TWO_63
  }

  /** Go's `/` on ints: truncation toward zero. */
  function TruncDiv(a: int, b: int): int
    requires b > 0
  {
    if a >= 0 then a / b else -((-a) / b)
  }

  /** The capacity chunkAddresses asks for: (len + size - 1) / size on wrapping ints. */
  function CapacityHint(n: nat, size: nat): int
    requires size >= 1
  {
    TruncDiv(WrapSum(n + size - 1), size)
  }

  /** A negative capacity makes the Go runtime panic. */
  predicate ChunkPanics(n: nat, chunkSize: int) {
    CapacityHint(n, EffectiveSize(chunkSize)) < 0
  }

  /**
   The hint is the number of pieces exactly when len + size - 1 fits an int; when it does not fit, the hint is
   negative, which the Go runtime answers with a panic, exactly for the lists of length up to 2^64 - 2 size + 1.
   */
  lemma CapacityHintIsCountIff(n: nat, size: nat)
    requires 1 <= size < TWO_63 && n < TWO_63
    ensures CapacityHint(n, size) == CeilDiv(n, size) <==> n + size - 1 < TWO_63
    ensures CapacityHint(n, size) < 0 <==> TWO_63 <= n + size - 1 && n + 2 * size - 1 <= 2 * TWO_63
  {
    var m := n + size - 1;
    if m >= TWO_63 {
      var short := 2 * TWO_63 - m;
      assert 0 < short && n >= 2;
      if short < size {
        QuotientIs(short, size, 0);
      } else {
        QuotientAtLeastOne(short, size);
      }
      QuotientAtLeastOne(m, size);
    }
  }

  lemma QuotientAtLeastOne(m: nat, d: nat)
    requires 1 <= d <= m
    ensures m / d >= 1
  {
    var q := m / d;
    assert m == q * d + m % d;
    assert q <= 0 ==> q * d <= 0;
  }

  /** chunkAddresses: a counted loop that slices [i, min(i + size, len)), once its list could be allocated. */
  method ChunkAddresses(addresses: seq<string>, chunkSize: int) returns (r: Reply<seq<seq<string>>>)
    ensures r == if ChunkPanics(|addresses|, chunkSize) then Err(Panicked) else Ok(Cut(addresses, EffectiveSize(chunkSize)))
    ensures r.Ok? ==> Flatten(r.value) == addresses && |r.value| == CeilDiv(|addresses|, EffectiveSize(chunkSize))
    ensures r.Ok? ==> forall i :: 0 <= i < |r.value| - 1 ==> |r.value[i]| == if chunkSize > 0 then chunkSize else 1000
  {
    hide Cut, Flatten, CeilDiv, CapacityHint;
    var size := if chunkSize <= 0 then DEFAULT_MAX_ADDRESSES else chunkSize;
    if CapacityHint(|addresses|, size) < 0 {
      return Err(Panicked);
    }
    var chunks: seq<seq<string>> := [];
    var i := 0;
    ghost var rest := Cut(addresses, size);
    assert addresses[0..] == addresses;
    NoMore<string>(size);
    while i < |addresses|
      invariant 0 <= i
      invariant chunks + rest == Cut(addresses, size)
      invariant rest == if i < |addresses| then Cut(addresses[i..], size) else []
      decreases |addresses| - i
    {
      var end := i + size;
      if end > |addresses| {
        end := |addresses|;
      }
      CutStep(addresses, size, i, end);
      chunks := chunks + [addresses[i..end]];
      i := i + size;
      rest := if i < |addresses| then Cut(addresses[i..], size) else [];
    }
    assert chunks + rest == chunks;
    CutContents(addresses, size);
    CutCount(addresses, size);
    return Ok(chunks);
  }

  lemma NoMore<T>(size: nat)
    requires size >= 1
    ensures Cut<T>([], size) == []
  {
  }

  /**
   The loop shared by chunkedNativeBatchCall and chunkedBatchCall: it always cuts one batch before it tests
   whether to go on, which is why both callers return early on an empty list.
   */
  method ChunkRequests<T>(requests: seq<T>) returns (batches: seq<seq<T>>)
    ensures requests != [] ==> batches == Cut(requests, 100)
    ensures requests == [] ==> batches == [[]]
  {
    batches := [];
    var currentIndex := 0;
    while true
      invariant 0 <= currentIndex <= |requests|
      invariant requests != [] ==> currentIndex < |requests|
      invariant batches + Cut(requests[currentIndex..], BATCH_SIZE) == Cut(requests, BATCH_SIZE)
      invariant requests == [] ==> batches == []
      decreases |requests| - currentIndex
    {
      var endIndex := currentIndex + BATCH_SIZE;
      if endIndex >= |requests| {
        endIndex := |requests|;
      }
      ghost var rest := requests[currentIndex..];
      if endIndex < |requests| {
        assert rest[..BATCH_SIZE] == requests[currentIndex..endIndex] && rest[BATCH_SIZE..] == requests[endIndex..];
      } else {
        assert rest == requests[currentIndex..endIndex];
      }
      batches := batches + [requests[currentIndex..endIndex]];
      currentIndex := currentIndex + BATCH_SIZE;
      if currentIndex >= |requests| {
        break;
      }
    }
  }

  /** Append the pieces one after the other. */
  method Gather<T>(pieces: seq<seq<T>>) returns (all: seq<T>)
    ensures all == Flatten(pieces)
  {
    all := [];
    for k := 0 to |pieces|
      invariant all == Flatten(pieces[..k])
    {
      assert pieces[..k + 1] == pieces[..k] + [pieces[k]];
      FlattenSnoc(pieces[..k], pieces[k]);
      all := all + pieces[k];
    }
    assert pieces[..|pieces|] == pieces;
  }
}
