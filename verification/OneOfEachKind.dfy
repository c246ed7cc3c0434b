/** A heap with one block of each kind through which other blocks are kept alive. */
module OneOfEachKind {
  import opened HeapModel
  import opened Marking
  import opened WeakDelegates
  import opened Collection

  function Header(kind: Kind, size: nat): Cell {
    Cell(kind, Flags(false, false, false), size, Null)
  }

  function Pointer(q: nat): Cell {
    Cell(Reference, Flags(false, false, false), 0, To(q))
  }

  /** A class instance at 0 refers to an array at 2, which refers to a delegate at 4, which is bound to a
      list at 6, which holds a delegate at 8, which is bound to a class instance at 10.  The weak list at
      11 holds a delegate at 13, which is bound to a class instance at 15. */
  function Chain(): Memory {
    [Header(Class, 2), Pointer(2), Header(SzArray(true, 1), 2), Pointer(4), Header(DelegateHead, 2), Pointer(6),
     Header(DelegateList(false, 1), 2), Pointer(8), Header(DelegateHead, 2), Pointer(10), Header(Class, 1),
     Header(DelegateList(true, 1), 2), Pointer(13), Header(DelegateHead, 2), Pointer(15), Header(Class, 1)]
  }

  const CHAIN_STARTS: set<nat> := {0, 2, 4, 6, 8, 10, 11, 13, 15}

  lemma ChainLink(p: nat, q: nat)
    requires p in {0, 2, 4, 6, 8} && q == p + 2
    ensures Edge(Chain(), p, q)
  {
    assert p + 1 in Fields(Chain(), p) && Refers(Chain(), p + 1, q);
  }

  lemma {:induction false} ChainDown(q: nat)
    requires q in {0, 2, 4, 6, 8, 10}
    ensures Reachable(Chain(), {0, 11}, q)
  {
    if q == 0 {
      ReachRoot(Chain(), {0, 11}, 0);
    } else {
      ChainDown(q - 2);
      ChainLink(q - 2, q);
      ReachStep(Chain(), {0, 11}, q - 2, q);
    }
  }

  lemma ChainEnds(p: nat, r: nat)
    requires p in {0, 2, 4, 6, 8, 10, 11} && Edge(Chain(), p, r)
    ensures p < 10 && r == p + 2
  {
    var c :| c in Fields(Chain(), p) && Refers(Chain(), c, r);
    assert c == p + 1;
  }

  /** From the class instance and the weak list everything is reachable but what the weak list holds. */
  lemma {:induction false} ChainReachable(q: nat)
    requires q in CHAIN_STARTS
    ensures Reachable(Chain(), {0, 11}, q) <==> q != 13 && q != 15
  {
    if q == 11 {
      ReachRoot(Chain(), {0, 11}, 11);
    } else if q <= 10 {
      ChainDown(q);
    } else if Reachable(Chain(), {0, 11}, q) {
      var closed: set<nat> := {0, 2, 4, 6, 8, 10, 11};
      forall p, r | p in closed && Edge(Chain(), p, r) ensures r in closed {
        ChainEnds(p, r);
      }
      ClosedHoldsReachable(Chain(), {0, 11}, closed, q);
    }
  }

  /** The heap with one block of each kind is one that the collector can work on. */
  lemma ChainOk()
    ensures HeapOk(Chain(), CHAIN_STARTS)
  {
    forall p | p in CHAIN_STARTS ensures BlockOk(Chain(), CHAIN_STARTS, p) {
      ChainBlock(p);
    }
    forall p: nat | Live(Chain(), CHAIN_STARTS, p)
      ensures BlockGraphOk(Chain(), CHAIN_STARTS, p) && WeakBlockOk(Chain(), CHAIN_STARTS, p)
    {
      ChainCells(p);
    }
  }

  lemma ChainBlock(p: nat)
    requires p in CHAIN_STARTS
    ensures BlockOk(Chain(), CHAIN_STARTS, p) && Live(Chain(), CHAIN_STARTS, p)
  {
  }

  lemma ChainCells(p: nat)
    requires p in CHAIN_STARTS
    ensures BlockGraphOk(Chain(), CHAIN_STARTS, p) && WeakBlockOk(Chain(), CHAIN_STARTS, p)
  {
    forall c | c in Fields(Chain(), p) ensures FieldOk(Chain(), CHAIN_STARTS, c) {
      ChainCell(p, c);
      ChainBlock(p + 2);
    }
    forall c | c in WeakCells(Chain(), p) ensures WeakCellOk(Chain(), CHAIN_STARTS, p, c) {
      ChainCell(p, c);
      ChainBlock(p + 2);
    }
  }

  lemma ChainCell(p: nat, c: nat)
    requires p in CHAIN_STARTS && (c in Fields(Chain(), p) || c in WeakCells(Chain(), p))
    ensures p < 15 && p != 10 && c == p + 1 && Chain()[c] == Pointer(p + 2) && p + 2 in CHAIN_STARTS
  {
  }

  /** Of the heap with one block of each kind a collection keeps all but what only the weak list holds:
      that delegate is bound to an object that is dead. */
  lemma {:induction false} ChainCollected(es: seq<nat>, m': Memory, starts': set<nat>, q: nat)
    requires Collected(Chain(), CHAIN_STARTS, {0, 11}, m', starts') && q in CHAIN_STARTS
    requires WeakExact(Chain(), CHAIN_STARTS, {0, 11}, es, m', starts')
    ensures Live(m', starts', q) <==> q != 13 && q != 15
  {
    ChainReachable(q);
    ChainReachable(15);
    if q == 13 || q == 15 { ChainEntry(es, m', starts', q); }
  }

  lemma {:induction false} ChainEntry(es: seq<nat>, m': Memory, starts': set<nat>, q: nat)
    requires WeakExact(Chain(), CHAIN_STARTS, {0, 11}, es, m', starts') && !Reachable(Chain(), {0, 11}, 15)
    requires forall p: nat | Live(m', starts', p) :: Live(Chain(), CHAIN_STARTS, p)
    requires q == 13 || q == 15
    ensures !KeptBefore(m', es, |es|, q)
  {
    forall j | 0 <= j < |es| ensures es[j] == 12 {
      assert WeakEntry(Chain(), m', starts', es[j]);
    }
    forall j: nat | j < |es| ensures es[j] < |m'| && m'[es[j]].target == Null {
      assert EntryExact(Chain(), CHAIN_STARTS, {0, 11}, m', es, j);
      assert !Stays(Chain(), CHAIN_STARTS, {0, 11}, 15);
    }
  }
}
