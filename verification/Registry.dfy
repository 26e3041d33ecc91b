/** InMemoryContractRegistry: writers build a new list and swap it in; readers copy whatever list is current. */
module Registry {
  import opened LogFetch

  datatype Write = Register(addresses: seq<string>) | Unregister(addresses: seq<string>)

  /** The set of a list's elements. */
  function SetOf(xs: seq<string>): set<string> {
    set x | x in xs
  }

  function LowerSet(xs: seq<string>): set<string> {
    set x | x in xs :: Lower(x)
  }

  /** Registering is union, unregistering is difference, both on lower-cased addresses. */
  function After(current: set<string>, op: Write): set<string> {
    match op
    case Register(addresses) => current + LowerSet(addresses)
    case Unregister(addresses) => current - LowerSet(addresses)
  }

  ghost predicate Clean(xs: seq<string>) {
    NoDuplicates(xs) && AllLower(xs)
  }

  /** The elements of xs that are not in `remove`, in order. */
  function Kept(xs: seq<string>, remove: set<string>): seq<string> {
    if |xs| == 0 then [] else (if xs[0] in remove then [] else [xs[0]]) + Kept(xs[1..], remove)
  }

  /**
   What a write leaves behind: after a registration the keys of a Go map, each once and in any order; after an
   unregistration what remains of the list, in order.
   */
  ghost predicate Wrote(before: seq<string>, op: Write, after: seq<string>) {
    match op
    case Register(addresses) => NoDuplicates(after) && SetOf(after) == SetOf(before) + LowerSet(addresses)
    case Unregister(addresses) => after == Kept(before, LowerSet(addresses))
  }

  /** The lists a registry goes through while the writes are carried out one at a time. */
  ghost predicate IsRun(ops: seq<Write>, lists: seq<seq<string>>) {
    && |lists| == |ops| + 1
    && lists[0] == []
    && forall i :: 0 <= i < |ops| ==> Wrote(lists[i], ops[i], lists[i + 1])
  }

  class InMemoryContractRegistry {
    var contracts: array<string>

    /** The writes so far, and the lists they produced; the last one is current. */
    ghost var writes: seq<Write>
    ghost var lists: seq<seq<string>>

    ghost predicate Valid()
      reads this, contracts
    {
      IsRun(writes, lists) && contracts[..] == lists[|writes|]
    }

    constructor ()
      ensures Valid() && fresh(contracts) && writes == [] && contracts[..] == []
    {
      contracts := new string[0];
      writes, lists := [], [[]];
    }

    /** The map's iteration order is arbitrary; the array that was current before is left as it was. */
    method RegisterContracts(addresses: seq<string>)
      requires Valid()
      modifies this
      ensures Valid() && fresh(contracts)
      ensures writes == old(writes) + [Register(addresses)] && lists == old(lists) + [contracts[..]]
      ensures old(contracts)[..] == old(contracts[..])
    {
      var current := contracts[..];
      var all: set<string> := {};
      for i := 0 to |current|
        invariant all == SetOf(current[..i])
      {
        assert current[..i + 1] == current[..i] + [current[i]];
        all := all + {current[i]};
      }
      assert current[..|current|] == current;
      for i := 0 to |addresses|
        invariant all == SetOf(current) + LowerSet(addresses[..i])
      {
        assert addresses[..i + 1] == addresses[..i] + [addresses[i]];
        all := all + {Lower(addresses[i])};
      }
      assert addresses[..|addresses|] == addresses;
      var merged := Listed(all);
      RunGrows(writes, lists, Register(addresses), merged);
      contracts := new string[|merged|](i requires 0 <= i < |merged| => merged[i]);
      assert contracts[..] == merged;
      writes, lists := writes + [Register(addresses)], lists + [merged];
    }

    method UnregisterContracts(addresses: seq<string>)
      requires Valid()
      modifies this
      ensures Valid() && fresh(contracts)
      ensures writes == old(writes) + [Unregister(addresses)] && lists == old(lists) + [contracts[..]]
      ensures old(contracts)[..] == old(contracts[..])
    {
      var remove: set<string> := {};
      for i := 0 to |addresses|
        invariant remove == LowerSet(addresses[..i])
      {
        assert addresses[..i + 1] == addresses[..i] + [addresses[i]];
        remove := remove + {Lower(addresses[i])};
      }
      assert addresses[..|addresses|] == addresses;
      var current := contracts[..];
      var filtered := Filtered(current, remove);
      RunGrows(writes, lists, Unregister(addresses), filtered);
      contracts := new string[|filtered|](i requires 0 <= i < |filtered| => filtered[i]);
      assert contracts[..] == filtered;
      writes, lists := writes + [Unregister(addresses)], lists + [filtered];
    }

    /**
     A reader gets its own copy of the list after the writes so far: without duplicates, in lower case, and as a set the
     fold of the unions and differences those writes ask for. An address is in it if and only if it is in lower case
     and was registered, in whatever case, after it was last unregistered.
     */
    method ListContracts() returns (out: array<string>)
      requires Valid()
      ensures fresh(out) && out[..] == lists[|writes|]
      ensures Clean(out[..]) && SetOf(out[..]) == AfterAll(writes)
      ensures forall a :: a in out[..] <==> NoUpper(a) && LastRegistered(writes, a)
    {
      var current := contracts[..];
      out := new string[|current|](i requires 0 <= i < |current| => current[i]);
      assert out[..] == current;
      RunsAreFolds(writes, lists, |writes|);
      assert writes[..|writes|] == writes;
      forall a ensures a in out[..] <==> NoUpper(a) && LastRegistered(writes, a) {
        RegisteredIff(writes, a);
        assert a in out[..] <==> a in SetOf(out[..]);
      }
    }
  }

  /** The loop that keeps what is not removed. */
  method Filtered(current: seq<string>, remove: set<string>) returns (filtered: seq<string>)
    ensures filtered == Kept(current, remove)
  {
    hide Kept;
    filtered := [];
    assert current[0..] == current;
    for i := 0 to |current|
      invariant filtered + Kept(current[i..], remove) == Kept(current, remove)
    {
      KeptStep(filtered, current, i, remove);
      if current[i] !in remove {
        filtered := filtered + [current[i]];
      }
    }
    KeptNothing(current[|current|..], remove);
  }

  lemma KeptStep(filtered: seq<string>, xs: seq<string>, i: nat, remove: set<string>)
    requires i < |xs|
    ensures filtered + Kept(xs[i..], remove) ==
            (if xs[i] in remove then filtered else filtered + [xs[i]]) + Kept(xs[i + 1..], remove)
  {
    assert xs[i..][0] == xs[i] && xs[i..][1..] == xs[i + 1..];
  }

  lemma KeptNothing(xs: seq<string>, remove: set<string>)
    requires xs == []
    ensures Kept(xs, remove) == []
  {
  }

  /** The elements of a set in some order. */
  method Listed(all: set<string>) returns (xs: seq<string>)
    ensures NoDuplicates(xs) && SetOf(xs) == all
  {
    xs := [];
    var rest := all;
    while rest != {}
      invariant NoDuplicates(xs) && rest <= all
      invariant SetOf(xs) == all - rest
      decreases rest
    {
      var a :| a in rest;
      assert a !in SetOf(xs);
      SetOfSnoc(xs, a);
      xs := xs + [a];
      rest := rest - {a};
    }
  }

  lemma SetOfSnoc(xs: seq<string>, x: string)
    ensures SetOf(xs + [x]) == SetOf(xs) + {x}
  {
  }

  lemma RunGrows(ops: seq<Write>, lists: seq<seq<string>>, op: Write, after: seq<string>)
    requires IsRun(ops, lists) && Wrote(lists[|ops|], op, after)
    ensures IsRun(ops + [op], lists + [after])
  {
  }

  // ---------------------------------------------------------------- runs

  /** The set after a sequence of writes, from an empty registry. */
  function AfterAll(ops: seq<Write>): set<string> {
    if |ops| == 0 then {} else After(AfterAll(ops[..|ops| - 1]), ops[|ops| - 1])
  }

  lemma RegisteredAreLower(current: seq<string>, addresses: seq<string>, after: seq<string>)
    requires AllLower(current) && SetOf(after) == SetOf(current) + LowerSet(addresses)
    ensures AllLower(after)
  {
    forall i | 0 <= i < |after| ensures NoUpper(after[i]) {
      assert after[i] in SetOf(after);
      if after[i] in LowerSet(addresses) {
        var x :| x in addresses && after[i] == Lower(x);
        LowerIs(x);
      } else {
        assert after[i] in current;
      }
    }
  }

  /** Filtering keeps a list clean and takes away exactly what is to be removed. */
  lemma {:induction false} KeptFacts(xs: seq<string>, remove: set<string>)
    requires Clean(xs)
    ensures Clean(Kept(xs, remove))
    ensures forall x :: x in Kept(xs, remove) <==> x in xs && x !in remove
  {
    if |xs| > 0 {
      KeptFacts(xs[1..], remove);
      assert xs == [xs[0]] + xs[1..];
    }
  }

  /** Every write on a clean list leaves a clean list with the right elements. */
  lemma WriteKeepsClean(before: seq<string>, op: Write, after: seq<string>)
    requires Clean(before) && Wrote(before, op, after)
    ensures Clean(after) && SetOf(after) == After(SetOf(before), op)
  {
    match op {
      case Register(addresses) => RegisteredAreLower(before, addresses, after);
      case Unregister(addresses) => KeptFacts(before, LowerSet(addresses));
    }
  }

  /**
   At every moment of every run, whatever the map iteration orders, the list has no duplicates, is all lower
   case and holds exactly the fold of unions and differences of the writes so far. A lock-free read returns one
   of these lists.
   */
  lemma {:induction false} RunsAreFolds(ops: seq<Write>, lists: seq<seq<string>>, i: nat)
    requires IsRun(ops, lists) && i <= |ops|
    ensures Clean(lists[i]) && SetOf(lists[i]) == AfterAll(ops[..i])
    decreases i
  {
    if i > 0 {
      RunsAreFolds(ops, lists, i - 1);
      assert Wrote(lists[i - 1], ops[i - 1], lists[i - 1 + 1]);
      WriteKeepsClean(lists[i - 1], ops[i - 1], lists[i]);
      assert ops[..i][..i - 1] == ops[..i - 1];
    }
  }

  // ---------------------------------------------------------------- what is registered

  /** The write names address a, up to case. */
  ghost predicate Names(op: Write, a: string) {
    exists x :: x in op.addresses && SameText(x, a)
  }

  /** The last write that names a registers it. */
  ghost predicate LastRegistered(ops: seq<Write>, a: string) {
    exists i :: 0 <= i < |ops| && ops[i].Register? && Names(ops[i], a)
                && forall j :: i < j < |ops| ==> ops[j].Unregister? ==> !Names(ops[j], a)
  }

  lemma LowerSetHas(xs: seq<string>, a: string)
    ensures a in LowerSet(xs) <==> NoUpper(a) && exists x :: x in xs && SameText(x, a)
  {
    forall x: string ensures a == Lower(x) <==> NoUpper(a) && SameText(x, a) {
      LowerMeans(a, x);
      LowerIdentifies(a, x);
      LowerIdentifies(x, a);
    }
  }

  lemma LastRegisteredSnoc(ops: seq<Write>, op: Write, a: string)
    ensures LastRegistered(ops + [op], a) <==>
            if Names(op, a) then op.Register? || (LastRegistered(ops, a) && !op.Unregister?) else LastRegistered(ops, a)
  {
    var all := ops + [op];
    if LastRegistered(ops, a) && !(op.Unregister? && Names(op, a)) {
      var i :| 0 <= i < |ops| && ops[i].Register? && Names(ops[i], a)
               && forall j :: i < j < |ops| ==> ops[j].Unregister? ==> !Names(ops[j], a);
      assert all[i].Register? && Names(all[i], a);
      forall j | i < j < |all| && all[j].Unregister? ensures !Names(all[j], a) {
        assert j < |ops| ==> all[j] == ops[j];
      }
    }
    if op.Register? && Names(op, a) {
      assert all[|ops|].Register? && Names(all[|ops|], a);
    }
    if LastRegistered(all, a) {
      var i :| 0 <= i < |all| && all[i].Register? && Names(all[i], a)
               && forall j :: i < j < |all| ==> all[j].Unregister? ==> !Names(all[j], a);
      if i < |ops| {
        assert all[|ops|] == op;
        assert ops[i].Register? && Names(ops[i], a);
        forall j | i < j < |ops| && ops[j].Unregister? ensures !Names(ops[j], a) {
          assert all[j] == ops[j];
        }
      }
    }
  }

  /**
   An address is registered if and only if it is in lower case and, among the writes that name it in whatever case, a
   registration came after the last unregistration.
   */
  lemma {:induction false} RegisteredIff(ops: seq<Write>, a: string)
    ensures a in AfterAll(ops) <==> NoUpper(a) && LastRegistered(ops, a)
  {
    if |ops| > 0 {
      var init, op := ops[..|ops| - 1], ops[|ops| - 1];
      RegisteredIff(init, a);
      LastRegisteredSnoc(init, op, a);
      assert ops == init + [op];
      LowerSetHas(op.addresses, a);
    }
  }
}
