/** The reorder buffer as the code runs it: a map of early arrivals and the next height to release. */
module Sequencer {
  import opened Domain

  datatype FetchedBlock = FetchedBlock(number: nat, block: IndexedBlock)

  /** Heights first, first + 1, ... in order, each block one that arrived. */
  ghost predicate InOrder(out: seq<FetchedBlock>, first: nat, arrivals: seq<FetchedBlock>)
  {
    forall i :: 0 <= i < |out| ==> out[i].number == first + i && out[i] in arrivals
  }

  class ReorderBuffer {
    var buffer: map<nat, FetchedBlock>
    var expected: nat
    var released: seq<FetchedBlock>
    ghost var arrived: seq<FetchedBlock>
    ghost const first: nat

    /** What arrived is released or buffered; what is buffered arrived; releases are in order up to `expected`. */
    ghost predicate Valid()
      reads this
    {
      && expected == first + |released|
      && InOrder(released, first, arrived)
      && (forall n :: n in buffer ==> buffer[n].number == n && buffer[n] in arrived)
      && (forall b :: b in arrived ==> b.number < expected || b.number in buffer)
    }

    constructor (expected: nat)
      ensures Valid() && first == expected && arrived == [] && released == []
      ensures this.expected == expected && buffer == map[]
    {
      this.expected := expected;
      buffer := map[];
      released := [];
      first := expected;
      arrived := [];
    }

    /** Release while the next height is in the buffer. */
    method DrainBuffer()
      requires Valid()
      modifies this
      ensures Valid() && arrived == old(arrived) && expected !in buffer
      ensures old(released) <= released
      ensures old(expected !in buffer) ==> released == old(released) && buffer == old(buffer)
      ensures old(expected in buffer) ==>
                |released| > |old(released)| && released[|old(released)|] == old(buffer)[old(expected)]
    {
      while expected in buffer
        invariant Valid() && arrived == old(arrived) && old(released) <= released
        invariant released == old(released) ==> buffer == old(buffer) && expected == old(expected)
        invariant old(expected in buffer) && |released| > |old(released)| ==>
                    released[|old(released)|] == old(buffer)[old(expected)]
        invariant old(expected !in buffer) ==>
                    released == old(released) && buffer == old(buffer) && expected == old(expected)
        decreases |buffer|
      {
        released := released + [buffer[expected]];
        buffer := buffer - {expected};
        expected := expected + 1;
      }
    }

    method Receive(b: FetchedBlock)
      requires Valid()
      modifies this
      ensures Valid() && arrived == old(arrived) + [b] && expected !in buffer
      ensures old(released) <= released
      ensures old(expected !in buffer) && b.number != old(expected) ==>
                released == old(released) && buffer == old(buffer)[b.number := b]
      ensures b.number == old(expected) ==> |released| > |old(released)| && released[|old(released)|] == b
    {
      arrived := arrived + [b];
      buffer := buffer[b.number := b];
      DrainBuffer();
    }
  }

  ghost predicate Arrived(arrivals: seq<FetchedBlock>, n: nat)
  {
    exists b :: b in arrivals && b.number == n
  }

  /** `n` is the first height from `first` on that is not among the arrivals. */
  ghost predicate FirstMissing(arrivals: seq<FetchedBlock>, first: nat, n: nat)
  {
    first <= n && !Arrived(arrivals, n) && forall m :: first <= m < n ==> Arrived(arrivals, m)
  }

  /** A whole run over any arrival order, repeats included: the heights before the first missing one, ascending. */
  method Run(first: nat, arrivals: seq<FetchedBlock>) returns (out: seq<FetchedBlock>)
    ensures InOrder(out, first, arrivals)
    ensures FirstMissing(arrivals, first, first + |out|)
  {
    var q := new ReorderBuffer(first);
    for i := 0 to |arrivals|
      invariant q.Valid() && q.first == first && q.arrived == arrivals[..i] && q.expected !in q.buffer
      invariant fresh(q)
    {
      q.Receive(arrivals[i]);
    }
    assert arrivals[..|arrivals|] == arrivals;
    ghost var before := q.released;
    q.DrainBuffer();
    assert q.released == before;
    out := q.released;
    forall m | first <= m < first + |out| ensures Arrived(arrivals, m) {
      assert out[m - first] in arrivals;
    }
  }

  /** Two arrival orders of the same blocks release the same heights. */
  lemma {:induction false} OrderDoesNotMatter(
    a: seq<FetchedBlock>, b: seq<FetchedBlock>, first: nat, out: seq<FetchedBlock>, out': seq<FetchedBlock>)
    requires multiset(a) == multiset(b)
    requires forall x, y :: x in a && y in a && x.number == y.number ==> x == y
    requires InOrder(out, first, a) && FirstMissing(a, first, first + |out|)
    requires InOrder(out', first, b) && FirstMissing(b, first, first + |out'|)
    ensures out == out'
  {
    assert forall x :: x in a <==> x in multiset(a);
    assert forall x :: x in b <==> x in multiset(b);
    assert forall n :: Arrived(a, n) <==> Arrived(b, n);
    assert |out| == |out'|;
    forall i | 0 <= i < |out| ensures out[i] == out'[i] {
      assert out[i] in a && out'[i] in a;
    }
  }
}
