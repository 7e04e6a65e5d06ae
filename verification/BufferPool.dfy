/**
 The packet buffer pool of csp_buffer.c: a queue of free buffers and a reference count per
 buffer. A buffer is named by its position in the pool, as the C code names it by address.
 */
module BufferPool {
  import opened Words
  import opened CspId
  import opened Packet

  /** The numbers below `n`. */
  ghost function Below(n: nat): (s: set<nat>)
    ensures |s| == n && forall k: nat :: k in s <==> k < n
  {
    if n == 0 then {} else Below(n - 1) + {n - 1}
  }

  /** Distinct numbers below `n`, with one missing, are fewer than `n`. */
  lemma FewerThan(s: seq<nat>, n: nat, missing: nat)
    requires forall i :: 0 <= i < |s| ==> s[i] < n && s[i] != missing
    requires forall i, j :: 0 <= i < j < |s| ==> s[i] != s[j]
    requires missing < n
    ensures |s| < n
  {
    DistinctElements(s);
    SubsetSize(Elements(s), Below(n) - {missing});
  }

  ghost function Elements(s: seq<nat>): (e: set<nat>)
    ensures forall x :: x in e <==> x in s
  {
    set x | x in s
  }

  lemma {:induction false} DistinctElements(s: seq<nat>)
    requires forall i, j :: 0 <= i < j < |s| ==> s[i] != s[j]
    ensures |Elements(s)| == |s|
  {
    if s != [] {
      var t := s[..|s| - 1];
      DistinctElements(t);
      assert s == t + [s[|s| - 1]];
      assert Elements(s) == Elements(t) + {s[|s| - 1]};
    }
  }

  lemma {:induction false} SubsetSize(a: set<nat>, b: set<nat>)
    requires a <= b
    ensures |a| <= |b|
  {
    if a != {} {
      var x :| x in a;
      SubsetSize(a - {x}, b - {x});
    }
  }

  /**
   The books balance: `held` counts, for every buffer, the places that hold a reference to it.
   A buffer is either free and held nowhere, or not free and held exactly as often as its
   reference count says. So no buffer is lost, and none is free while somebody still has it.
   */
  ghost predicate Balanced(free: seq<nat>, refcount: seq<nat>, held: multiset<nat>) {
    && (forall i :: 0 <= i < |free| ==> free[i] < |refcount|)
    && (forall i, j :: 0 <= i < j < |free| ==> free[i] != free[j])
    && (forall b :: b in held ==> b < |refcount|)
    && (forall b :: 0 <= b < |refcount| ==> (b in free <==> b !in held))
    && (forall b :: b in held ==> refcount[b] == held[b])
  }

  /** No buffer in two places. */
  ghost predicate HeldOnce(held: multiset<nat>) {
    forall b :: b in held ==> held[b] == 1
  }

  class Pool {
    /** `CSP_BUFFER_COUNT`. */
    const size: nat
    /** The queue `csp_buffers`. */
    var free: seq<nat>
    var refcount: seq<nat>
    var packets: seq<Packet>
    /** Whether `csp_buffer_refc_inc` was ever called. */
    ghost var shared: bool

    /** The books balance, and as long as nobody asked for a second reference, no buffer is in two places. */
    ghost predicate Conserved(held: multiset<nat>)
      reads this
    {
      |packets| == |refcount| == size && Balanced(free, refcount, held) && (!shared ==> HeldOnce(held))
    }

    /** `csp_buffer_init`: every buffer is free. The counts start as whatever memory held. */
    constructor (garbage: seq<nat>)
      ensures Conserved(multiset{}) && |free| == size == |garbage| && !shared
    {
      var order := [];
      var i := 0;
      while i < |garbage|
        invariant 0 <= i <= |garbage|
        invariant |order| == i && forall k :: 0 <= k < i ==> order[k] == k
      {
        order := order + [i];
        i := i + 1;
      }
      forall b | 0 <= b < |garbage|
        ensures b in order
      {
        assert order[b] == b;
      }
      size := |garbage|;
      shared := false;
      free := order;
      refcount := garbage;
      packets := seq(|garbage|, _ => Packet(NO_ID, []));
    }

    /** `csp_buffer_get_actual`: fails exactly when fewer than `reserve` buffers, or none, are free. */
    method Get(reserve: nat, ghost held: multiset<nat>) returns (b: Option<nat>)
      requires Conserved(held)
      modifies this`free, this`refcount, this`packets
      ensures b.None? <==> old(|free|) < reserve || old(|free|) == 0
      ensures b.None? ==> Conserved(held) && free == old(free) && packets == old(packets)
      ensures b.Some? ==>
                && b.value < old(|packets|) && b.value !in held
                && Conserved(held + multiset{b.value}) && |free| == old(|free|) - 1
                && packets == old(packets)[b.value := Packet(NO_ID, [])]
    {
      if |free| < reserve || |free| == 0 {
        return None;
      }
      var first := free[0];
      free := free[1..];
      refcount := refcount[first := 1];
      packets := packets[first := Packet(NO_ID, [])];
      TakenOut(old(free), old(refcount), held);
      return Some(first);
    }

    /** `csp_buffer_free`: one reference less; the last one puts the buffer back, and there is always room for it. */
    method Free(b: nat, ghost held: multiset<nat>)
      requires Conserved(held) && b in held
      modifies this`free, this`refcount
      ensures Conserved(held - multiset{b})
      ensures free == if held[b] == 1 then old(free) + [b] else old(free)
    {
      if refcount[b] == 0 {
        return;
      }
      refcount := refcount[b := refcount[b] - 1];
      if refcount[b] > 0 {
        StillHeld(free, old(refcount), held, b);
        return;
      }
      assert |free| < |refcount| by { FewerThan(free, |refcount|, b); }
      if |free| < |refcount| {
        free := free + [b];
      }
      PutBack(old(free), old(refcount), held, b);
    }

    /** `csp_buffer_clone`: a copy in a buffer of its own, if at least two are free. */
    method Clone(b: nat, ghost held: multiset<nat>) returns (c: Option<nat>)
      requires Conserved(held) && b in held
      modifies this`free, this`refcount, this`packets
      ensures c.None? <==> old(|free|) < 2
      ensures c.None? ==> Conserved(held) && free == old(free) && packets == old(packets)
      ensures c.Some? ==>
                && c.value < old(|packets|) && c.value !in held
                && Conserved(held + multiset{c.value}) && |free| == old(|free|) - 1
                && packets == old(packets)[c.value := old(packets)[b]]
    {
      c := Get(2, held);
      if c.Some? {
        packets := packets[c.value := packets[b]];
      }
    }

    /** `csp_buffer_refc_inc`: one more place holds the buffer. */
    method RefcInc(b: nat, ghost held: multiset<nat>)
      requires Conserved(held) && b in held
      modifies this`refcount, this`shared
      ensures Conserved(held + multiset{b}) && shared
    {
      OneMore(free, refcount, held, b);
      refcount := refcount[b := refcount[b] + 1];
      shared := true;
    }

    /** Writing into a buffer somebody holds. */
    method Write(b: nat, p: Packet, ghost held: multiset<nat>)
      requires Conserved(held) && b in held
      modifies this`packets
      ensures Conserved(held) && b < old(|packets|) && packets == old(packets)[b := p]
    {
      packets := packets[b := p];
    }
  }

  lemma TakenOut(free: seq<nat>, refcount: seq<nat>, held: multiset<nat>)
    requires Balanced(free, refcount, held) && free != []
    ensures free[0] !in held && Balanced(free[1..], refcount[free[0] := 1], held + multiset{free[0]})
  {}

  lemma OneMore(free: seq<nat>, refcount: seq<nat>, held: multiset<nat>, b: nat)
    requires Balanced(free, refcount, held) && b in held
    ensures Balanced(free, refcount[b := refcount[b] + 1], held + multiset{b})
  {
    assert forall x :: x in held + multiset{b} <==> x in held;
  }

  lemma StillHeld(free: seq<nat>, refcount: seq<nat>, held: multiset<nat>, b: nat)
    requires Balanced(free, refcount, held) && b in held && refcount[b] > 1
    ensures Balanced(free, refcount[b := refcount[b] - 1], held - multiset{b})
  {}

  lemma PutBack(free: seq<nat>, refcount: seq<nat>, held: multiset<nat>, b: nat)
    requires Balanced(free, refcount, held) && b in held && refcount[b] == 1
    ensures Balanced(free + [b], refcount[b := 0], held - multiset{b})
  {}

  ghost function Busy(held: multiset<nat>): (s: set<nat>)
    ensures forall b :: b in s <==> b in held
  {
    set b | b in held
  }

  /** Balanced books in numbers: free buffers and held buffers together are all buffers. */
  lemma NothingLost(free: seq<nat>, refcount: seq<nat>, held: multiset<nat>)
    requires Balanced(free, refcount, held)
    ensures |free| + |Busy(held)| == |refcount|
  {
    hide Elements, Below;
    var idle, busy := Elements(free), Busy(held);
    DistinctElements(free);
    assert Below(|refcount|) == idle + busy;
    assert idle * busy == {};
    assert |idle + busy| == |idle| + |busy|;
  }
}
