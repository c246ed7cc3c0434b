/** Rings of links inside a flat array: several circular doubly linked lists, each with a head that
    is not itself an element. */
module Rings {

  datatype Link = Link(next: nat, prev: nat)

  function Without<T(==, !new)>(c: seq<T>, x: T): (r: seq<T>)
    ensures forall y :: y in r <==> y in c && y != x
  {
    if c == [] then []
    else if c[0] == x then Without(c[1..], x)
    else [c[0]] + Without(c[1..], x)
  }

  ghost predicate Distinct<T(!new)>(c: seq<T>) {
    forall i, j | 0 <= i < j < |c| :: c[i] != c[j]
  }

  lemma {:induction false} WithoutAbsent<T(!new)>(c: seq<T>, x: T)
    requires x !in c
    ensures Without(c, x) == c
  {
    if c != [] { WithoutAbsent(c[1..], x); }
  }

  /** Removing the only occurrence of x. */
  lemma {:induction false} WithoutAt<T(!new)>(c: seq<T>, i: nat)
    requires Distinct(c) && i < |c|
    ensures Without(c, c[i]) == c[..i] + c[i + 1..]
  {
    if i == 0 {
      WithoutAbsent(c[1..], c[0]);
    } else {
      assert c[1..][i - 1] == c[i];
      WithoutAt(c[1..], i - 1);
    }
  }

  lemma {:induction false} WithoutDistinct<T(!new)>(c: seq<T>, x: T)
    requires Distinct(c)
    ensures Distinct(Without(c, x))
    ensures |Without(c, x)| == if x in c then |c| - 1 else |c|
  {
    if i :| 0 <= i < |c| && c[i] == x {
      WithoutAt(c, i);
    } else {
      WithoutAbsent(c, x);
    }
  }

  /** Walking from the head of a ring over its elements and back to the head. */
  function Stop(head: nat, c: seq<nat>, i: nat): nat {
    if 0 < i <= |c| then c[i - 1] else head
  }

  ghost predicate Hop(e: seq<Link>, head: nat, c: seq<nat>, i: nat) {
    Stop(head, c, i) < |e| && e[Stop(head, c, i)].next == Stop(head, c, i + 1)
  }

  /** From `head`, the links lead over the elements of c and back. */
  ghost predicate Ring(e: seq<Link>, head: nat, c: seq<nat>) {
    forall i: nat | i <= |c| :: Hop(e, head, c, i)
  }

  /** `next` and `prev` undo each other at k. */
  ghost predicate Mutual(e: seq<Link>, k: nat) {
    && k < |e| && e[k].next < |e| && e[k].prev < |e|
    && e[e[k].next].prev == k && e[e[k].prev].next == k
  }

  ghost predicate Member(chains: seq<seq<nat>>, b: nat, i: nat, k: nat) {
    b < |chains| && i < |chains[b]| && chains[b][i] == k
  }

  ghost predicate Linked(chains: seq<seq<nat>>, k: nat) {
    exists b: nat, i: nat :: Member(chains, b, i, k)
  }

  /** The first n nodes are elements, each in at most one ring; node n + b is the head of ring b.
      Elements in no ring are linked to themselves. */
  ghost predicate RingsOk(e: seq<Link>, n: nat, chains: seq<seq<nat>>) {
    && |e| == n + |chains|
    && (forall k: nat | k < |e| :: Mutual(e, k))
    && (forall b: nat | b < |chains| :: Ring(e, n + b, chains[b]))
    && (forall b: nat, i: nat, k: nat | Member(chains, b, i, k) :: k < n)
    && (forall b: nat, i: nat, b': nat, i': nat, k: nat | Member(chains, b, i, k) && Member(chains, b', i', k) ::
        b == b' && i == i')
    && (forall k: nat | k < n && !Linked(chains, k) :: e[k] == Link(k, k))
  }

  function Unlink(e: seq<Link>, k: nat): seq<Link>
    requires k < |e| && e[k].next < |e| && e[k].prev < |e|
  {
    var next, prev := e[k].next, e[k].prev;
    var e1 := e[next := e[next].(prev := prev)];
    var e2 := e1[prev := e1[prev].(next := next)];
    e2[k := Link(k, k)]
  }

  function InsertAfter(e: seq<Link>, head: nat, k: nat): seq<Link>
    requires k < |e| && head < |e| && e[head].next < |e|
  {
    var next := e[head].next;
    var e1 := e[k := Link(next, head)];
    var e2 := e1[head := e1[head].(next := k)];
    e2[next := e2[next].(prev := k)]
  }

  function WithoutAll(chains: seq<seq<nat>>, k: nat): seq<seq<nat>> {
    seq(|chains|, b requires 0 <= b < |chains| => Without<nat>(chains[b], k))
  }

  /** The chains once k has been taken out of its ring and put at the front of ring b. */
  function ToTop(chains: seq<seq<nat>>, b: nat, k: nat): seq<seq<nat>>
    requires b < |chains|
  {
    WithoutAll(chains, k)[b := [k] + Without<nat>(chains[b], k)]
  }

  /** Every node of a ring, head included, stands in it once and in no other ring. */
  lemma {:induction false} StopsDiffer(e: seq<Link>, n: nat, chains: seq<seq<nat>>, b: nat, i: nat, b': nat, i': nat)
    requires RingsOk(e, n, chains)
    requires b < |chains| && i <= |chains[b]| && b' < |chains| && i' <= |chains[b']|
    requires Stop(n + b, chains[b], i) == Stop(n + b', chains[b'], i')
    ensures b == b' && i == i'
  {
    if 0 < i { assert Member(chains, b, i - 1, chains[b][i - 1]); }
    if 0 < i' { assert Member(chains, b', i' - 1, chains[b'][i' - 1]); }
  }

  /** The node before the i-th element. */
  lemma {:induction false} Neighbours(e: seq<Link>, n: nat, chains: seq<seq<nat>>, b: nat, i: nat)
    requires RingsOk(e, n, chains) && b < |chains| && i < |chains[b]|
    ensures chains[b][i] < n
    ensures e[chains[b][i]] == Link(Stop(n + b, chains[b], i + 2), Stop(n + b, chains[b], i))
  {
    assert Member(chains, b, i, chains[b][i]);
    assert Hop(e, n + b, chains[b], i) && Hop(e, n + b, chains[b], i + 1);
    assert Mutual(e, Stop(n + b, chains[b], i));
  }

  lemma {:induction false} UnlinkMutual(e: seq<Link>, k: nat)
    requires k < |e| && forall x: nat | x < |e| :: Mutual(e, x)
    ensures e[k].next < |e| && e[k].prev < |e|
    ensures forall x: nat | x < |e| :: Mutual(Unlink(e, k), x)
  {
    assert Mutual(e, k);
    var e' := Unlink(e, k);
    forall x: nat | x < |e| ensures Mutual(e', x) {
      assert Mutual(e, x);
      assert Mutual(e, e[x].next) && Mutual(e, e[x].prev);
    }
  }

  lemma {:induction false} UnlinkRing(e: seq<Link>, n: nat, chains: seq<seq<nat>>, b: nat, i: nat, b': nat)
    requires RingsOk(e, n, chains) && b < |chains| && i < |chains[b]| && b' < |chains|
    requires chains[b][i] < |e| && e[chains[b][i]].next < |e| && e[chains[b][i]].prev < |e|
    ensures Ring(Unlink(e, chains[b][i]), n + b', if b' == b then chains[b][..i] + chains[b][i + 1..] else chains[b'])
  {
    var e', head := Unlink(e, chains[b][i]), n + b';
    var c' := if b' == b then chains[b][..i] + chains[b][i + 1..] else chains[b'];
    forall j: nat | j <= |c'| ensures Hop(e', head, c', j) {
      UnlinkHop(e, n, chains, b, i, b', if b' == b && i < j then j + 1 else j);
      if b' == b { StopsWithout(head, chains[b], i, j); }
    }
  }

  /** The stops of a ring without its i-th element. */
  lemma StopsWithout(head: nat, c: seq<nat>, i: nat, j: nat)
    requires i < |c| && j < |c|
    ensures Stop(head, c[..i] + c[i + 1..], j) == Stop(head, c, if i < j then j + 1 else j)
    ensures Stop(head, c[..i] + c[i + 1..], j + 1) == Stop(head, c, if i <= j then j + 2 else j + 1)
  {
  }

  /** Away from the unlinked element, the links are as before; the node before it leads past it. */
  lemma {:induction false} UnlinkHop(e: seq<Link>, n: nat, chains: seq<seq<nat>>, b: nat, i: nat, b': nat, j: nat)
    requires RingsOk(e, n, chains) && b < |chains| && i < |chains[b]| && b' < |chains| && j <= |chains[b']|
    requires chains[b][i] < |e| && e[chains[b][i]].next < |e| && e[chains[b][i]].prev < |e|
    requires !(b' == b && j == i + 1)
    ensures Stop(n + b', chains[b'], j) < |e|
    ensures Unlink(e, chains[b][i])[Stop(n + b', chains[b'], j)].next
              == Stop(n + b', chains[b'], if b' == b && j == i then j + 2 else j + 1)
  {
    Neighbours(e, n, chains, b, i);
    assert Hop(e, n + b', chains[b'], j);
    if Stop(n + b', chains[b'], j) == Stop(n + b, chains[b], i) { StopsDiffer(e, n, chains, b', j, b, i); }
    if Stop(n + b', chains[b'], j) == Stop(n + b, chains[b], i + 1) { StopsDiffer(e, n, chains, b', j, b, i + 1); }
  }

  lemma {:induction false} ChainDistinct(e: seq<Link>, n: nat, chains: seq<seq<nat>>, b: nat)
    requires RingsOk(e, n, chains) && b < |chains|
    ensures Distinct(chains[b])
  {
    forall i, j | 0 <= i < j < |chains[b]| ensures chains[b][i] != chains[b][j] {
      assert Member(chains, b, i, chains[b][i]) && Member(chains, b, j, chains[b][j]);
    }
  }

  lemma {:induction false} WithoutMember(chains: seq<seq<nat>>, k: nat, b: nat, i: nat, x: nat)
    requires forall b: nat | b < |chains| :: Distinct(chains[b])
    requires Member(WithoutAll(chains, k), b, i, x)
    ensures x != k && exists i0: nat :: Member(chains, b, i0, x)
  {
    assert x in Without<nat>(chains[b], k);
    var i0 :| 0 <= i0 < |chains[b]| && chains[b][i0] == x;
    assert Member(chains, b, i0, x);
  }

  lemma {:induction false} UnlinkOk(e: seq<Link>, n: nat, chains: seq<seq<nat>>, k: nat)
    requires RingsOk(e, n, chains) && k < n
    ensures e[k].next < |e| && e[k].prev < |e|
    ensures RingsOk(Unlink(e, k), n, WithoutAll(chains, k))
    ensures !Linked(WithoutAll(chains, k), k)
  {
    assert Mutual(e, k);
    var e', chains' := Unlink(e, k), WithoutAll(chains, k);
    UnlinkMutual(e, k);
    UnlinkMembers(e, n, chains, k);
    forall b: nat | b < |chains'| ensures Ring(e', n + b, chains'[b]) {
      UnlinkRings(e, n, chains, k, b);
    }
    forall x: nat | x < n && !Linked(chains', x) ensures e'[x] == Link(x, x) {
      UnlinkLoose(e, n, chains, k, x);
    }
  }

  lemma {:induction false} UnlinkRings(e: seq<Link>, n: nat, chains: seq<seq<nat>>, k: nat, b: nat)
    requires RingsOk(e, n, chains) && k < n && e[k].next < |e| && e[k].prev < |e| && b < |chains|
    ensures Ring(Unlink(e, k), n + b, Without<nat>(chains[b], k))
  {
    ChainDistinct(e, n, chains, b);
    if b0: nat, i: nat :| Member(chains, b0, i, k) {
      UnlinkRing(e, n, chains, b0, i, b);
      if b == b0 {
        WithoutAt(chains[b], i);
      } else {
        forall j: nat | j < |chains[b]| ensures chains[b][j] != k {
          assert Member(chains, b, j, chains[b][j]);
        }
        WithoutAbsent(chains[b], k);
      }
    } else {
      assert Unlink(e, k) == e;
      forall j: nat | j < |chains[b]| ensures chains[b][j] != k {
        assert Member(chains, b, j, chains[b][j]);
      }
      WithoutAbsent(chains[b], k);
      assert Ring(e, n + b, chains[b]);
    }
  }

  lemma {:induction false} UnlinkLoose(e: seq<Link>, n: nat, chains: seq<seq<nat>>, k: nat, x: nat)
    requires RingsOk(e, n, chains) && k < n && e[k].next < |e| && e[k].prev < |e|
    requires x < n && !Linked(WithoutAll(chains, k), x)
    ensures Unlink(e, k)[x] == Link(x, x)
  {
    if x != k {
      assert !Linked(chains, x) by {
        if b: nat, i: nat :| Member(chains, b, i, x) {
          assert x in WithoutAll(chains, k)[b];
          var j :| 0 <= j < |WithoutAll(chains, k)[b]| && WithoutAll(chains, k)[b][j] == x;
          assert Member(WithoutAll(chains, k), b, j, x);
        }
      }
      assert Mutual(e, k) && Mutual(e, x);
    }
  }

  /** Members stay in at most one chain. */
  lemma {:induction false} UnlinkMembers(e: seq<Link>, n: nat, chains: seq<seq<nat>>, k: nat)
    requires RingsOk(e, n, chains) && k < n
    ensures forall b: nat, i: nat, x: nat | Member(WithoutAll(chains, k), b, i, x) :: x < n && x != k
    ensures forall b: nat, i: nat, b': nat, i': nat, x: nat
              | Member(WithoutAll(chains, k), b, i, x) && Member(WithoutAll(chains, k), b', i', x) :: b == b' && i == i'
  {
    var chains' := WithoutAll(chains, k);
    forall b: nat | b < |chains| ensures Distinct(chains[b]) && Distinct(chains'[b]) {
      ChainDistinct(e, n, chains, b);
      WithoutDistinct(chains[b], k);
    }
    forall b: nat, i: nat, x: nat | Member(chains', b, i, x)
      ensures x < n && x != k && exists i0: nat :: Member(chains, b, i0, x)
    {
      WithoutMember(chains, k, b, i, x);
    }
    forall b: nat, i: nat, b': nat, i': nat, x: nat | Member(chains', b, i, x) && Member(chains', b', i', x)
      ensures b == b' && i == i'
    {
      var i0: nat :| Member(chains, b, i0, x);
      var i1: nat :| Member(chains, b', i1, x);
      assert Distinct(chains'[b]);
    }
  }

  lemma {:induction false} InsertMutual(e: seq<Link>, head: nat, k: nat)
    requires k < |e| && head < |e| && head != k && e[k] == Link(k, k) && forall x: nat | x < |e| :: Mutual(e, x)
    ensures e[head].next < |e| && forall x: nat | x < |e| :: Mutual(InsertAfter(e, head, k), x)
  {
    assert Mutual(e, head);
    var e' := InsertAfter(e, head, k);
    forall x: nat | x < |e| ensures Mutual(e', x) {
      assert Mutual(e, x);
      assert Mutual(e, e[x].next) && Mutual(e, e[x].prev);
    }
  }

  lemma {:induction false} InsertRing(e: seq<Link>, n: nat, chains: seq<seq<nat>>, b: nat, k: nat, b': nat)
    requires RingsOk(e, n, chains) && k < n && !Linked(chains, k) && b < |chains| && b' < |chains|
    requires e[n + b].next < |e|
    ensures Ring(InsertAfter(e, n + b, k), n + b', if b' == b then [k] + chains[b] else chains[b'])
  {
    var e' := InsertAfter(e, n + b, k);
    var head, c := n + b', chains[b'];
    var c' := if b' == b then [k] + c else c;
    assert Mutual(e, k) && Mutual(e, n + b);
    forall j: nat | j <= |c'| ensures Hop(e', head, c', j) {
      if b' == b && j <= 1 {
        assert Hop(e, n + b', c, 0);
      } else {
        var j0 := if b' == b then j - 1 else j;
        assert Hop(e, n + b', c, j0);
        assert Stop(n + b', c', j) == Stop(n + b', c, j0) && Stop(n + b', c', j + 1) == Stop(n + b', c, j0 + 1);
        if 0 < j0 { assert Member(chains, b', j0 - 1, c[j0 - 1]); }
      }
    }
  }

  lemma {:induction false} InsertOk(e: seq<Link>, n: nat, chains: seq<seq<nat>>, b: nat, k: nat)
    requires RingsOk(e, n, chains) && k < n && !Linked(chains, k) && b < |chains|
    ensures e[n + b].next < |e|
    ensures RingsOk(InsertAfter(e, n + b, k), n, chains[b := [k] + chains[b]])
  {
    var chains' := chains[b := [k] + chains[b]];
    InsertMutual(e, n + b, k);
    var e' := InsertAfter(e, n + b, k);
    forall b': nat | b' < |chains'| ensures Ring(e', n + b', chains'[b']) {
      InsertRing(e, n, chains, b, k, b');
    }
    InsertMembers(e, n, chains, b, k, chains');
    forall x: nat | x < n && !Linked(chains', x) ensures e'[x] == Link(x, x) {
      if b': nat, i: nat :| Member(chains, b', i, x) { assert Member(chains', b', if b' == b then i + 1 else i, x); }
      assert Member(chains', b, 0, k);
      assert Mutual(e, n + b) && Mutual(e, x);
    }
  }

  lemma {:induction false} InsertMembers(e: seq<Link>, n: nat, chains: seq<seq<nat>>, b: nat, k: nat,
      chains': seq<seq<nat>>)
    requires RingsOk(e, n, chains) && k < n && !Linked(chains, k)
    requires b < |chains| && chains' == chains[b := [k] + chains[b]]
    ensures forall b: nat, i: nat, x: nat | Member(chains', b, i, x) :: x < n
    ensures forall b: nat, i: nat, b': nat, i': nat, x: nat | Member(chains', b, i, x) && Member(chains', b', i', x) ::
              b == b' && i == i'
  {
    forall b1: nat, i: nat, x: nat | Member(chains', b1, i, x) ensures Inserted(chains, b, k, b1, i, x) {
      if b1 == b && 0 < i { assert Member(chains, b, i - 1, x); }
    }
    forall b1: nat, i: nat, b2: nat, i': nat, x: nat | Member(chains', b1, i, x) && Member(chains', b2, i', x)
      ensures b1 == b2 && i == i'
    {
      assert Inserted(chains, b, k, b1, i, x) && Inserted(chains, b, k, b2, i', x);
    }
  }

  /** Where a member stands once k is in front of ring b. */
  ghost predicate Inserted(chains: seq<seq<nat>>, b: nat, k: nat, b': nat, i: nat, x: nat) {
    if b' == b then (if i == 0 then x == k else Member(chains, b, i - 1, x)) else Member(chains, b', i, x)
  }
}
