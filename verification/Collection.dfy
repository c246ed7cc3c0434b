/** A whole collection: `Mark`, `MarkWeak` and `Sweep`, as `ExecuteGarbageCollection` runs them. */
module Collection {
  import opened HeapModel
  import opened Marking
  import opened WeakDelegates
  import HC = HeapCluster

  /** The cells of block p that refer to other blocks without keeping them alive: the target of a
      weak reference, the entries of a weak delegate list. */
  function WeakCells(m: Memory, p: nat): set<nat>
    requires p < |m|
  {
    match m[p].kind
    case WeakClass => Interval(p + 1, p + 2)
    case DelegateList(weak, n) => if weak then Interval(p + 1, p + 1 + n) else {}
    case _ => {}
  }

  ghost predicate WeakCellOk(m: Memory, starts: set<nat>, p: nat, c: nat)
    requires p < |m|
  {
    && p < c < End(m, p) && c < |m| && m[c].kind.Reference?
    && (m[c].target.To? ==> Live(m, starts, m[c].target.addr))
    && (m[c].target.To? && IsWeakList(m[p]) ==>
        m[m[c].target.addr].kind.DelegateHead? && !m[m[c].target.addr].IsEvent())
  }

  ghost predicate WeakBlockOk(m: Memory, starts: set<nat>, p: nat)
    requires p < |m|
  {
    && (m[p].IsEvent() ==> WeakCells(m, p) == {})
    && forall c | c in WeakCells(m, p) :: WeakCellOk(m, starts, p, c)
  }

  /** The heap as the collector expects it, weak cells included. */
  ghost predicate HeapOk(m: Memory, starts: set<nat>) {
    && GraphOk(m, starts)
    && forall p: nat {:trigger WeakBlockOk(m, starts, p)} | Live(m, starts, p) :: WeakBlockOk(m, starts, p)
  }

  /** The block whose death makes weak cell c of block p useless: the target of a weak reference,
      the object a delegate is bound to. */
  function Keeper(m: Memory, p: nat, c: nat): Ref
    requires p < |m| && c < |m|
  {
    if m[c].target.Null? then Null
    else if IsWeakList(m[p]) then BoundObject(m, c)
    else m[c].target
  }

  ghost predicate Dead(m: Memory, r: Ref) {
    r.To? && r.addr < |m| && !m[r.addr].IsAlive()
  }

  /** Weak cell x of some live block may be nulled: its keeper was not marked. */
  ghost predicate MayBeNulled(m1: Memory, starts: set<nat>, x: nat) {
    exists p: nat :: Live(m1, starts, p) && x < |m1| && x in WeakCells(m1, p) && Dead(m1, Keeper(m1, p, x))
  }

  /** d is a delegate held by a marked weak list. */
  ghost predicate HeldWeakly(m1: Memory, starts: set<nat>, d: nat) {
    exists p: nat, c ::
        Marked(m1, starts, p) && IsWeakList(m1[p]) && c in WeakCells(m1, p) && c < |m1| && m1[c].target == To(d)
  }

  /** What weak processing may have done to the marked heap m1: null weak cells whose keeper was
      not marked, and mark delegates held by marked weak lists. */
  ghost predicate Cleaned(m1: Memory, starts: set<nat>, m: Memory) {
    && |m| == |m1|
    && (forall p | p in starts && p < |m| ::
          m[p] == m1[p] || (m[p] == m1[p].MarkAlive() && Live(m1, starts, p) && HeldWeakly(m1, starts, p)))
    && (forall x | 0 <= x < |m| && x !in starts ::
          m[x] == m1[x] || (m[x] == m1[x].(target := Null) && MayBeNulled(m1, starts, x)))
  }

  /** Marked blocks refer, through their fields, to marked blocks only. */
  ghost predicate Closed(m1: Memory, starts: set<nat>, m: Memory) {
    forall p: nat | Marked(m, starts, p) :: ClosedBlock(m1, m, p)
  }

  ghost predicate WeakCellSafe(m: Memory, c: nat) {
    c < |m| && (m[c].target.To? ==> m[c].target.addr < |m| && m[m[c].target.addr].IsAlive())
  }

  lemma {:induction false} NullStep(m1: Memory, starts: set<nat>, m: Memory, p: nat, c: nat)
    requires HeapOk(m1, starts) && Cleaned(m1, starts, m) && Closed(m1, starts, m)
    requires Live(m1, starts, p) && c in WeakCells(m1, p) && c < |m1| && Dead(m1, Keeper(m1, p, c))
    ensures c !in starts
    ensures Cleaned(m1, starts, m[c := m[c].(target := Null)]) && Closed(m1, starts, m[c := m[c].(target := Null)])
    ensures forall x | WeakCellSafe(m, x) :: WeakCellSafe(m[c := m[c].(target := Null)], x)
  {
    assert BlockOk(m1, starts, p) && WeakBlockOk(m1, starts, p) && WeakCellOk(m1, starts, p, c);
    var m' := m[c := m[c].(target := Null)];
    assert MayBeNulled(m1, starts, c);
    forall x: nat | Marked(m', starts, x) ensures ClosedBlock(m1, m', x) {
      assert Marked(m, starts, x);
      assert ClosedBlock(m1, m, x);
      KeepClosed(m1, m, m', x);
    }
  }

  lemma {:induction false} KeepClosed(m0: Memory, m: Memory, m': Memory, p: nat)
    requires ClosedBlock(m0, m, p) && |m'| == |m| && forall x | 0 <= x < |m| && m[x].IsAlive() :: m'[x].IsAlive()
    ensures ClosedBlock(m0, m', p)
  {
    if p < |m0| {
      forall c | c in Fields(m0, p) ensures Served(m0, m', c) {
        assert Served(m0, m, c);
      }
    }
  }

  lemma {:induction false} ReviveStep(m1: Memory, starts: set<nat>, m: Memory, p: nat, c: nat, d: nat)
    requires HeapOk(m1, starts) && Cleaned(m1, starts, m) && Closed(m1, starts, m)
    requires Marked(m1, starts, p) && IsWeakList(m1[p]) && c in WeakCells(m1, p) && c < |m1| && m1[c].target == To(d)
    requires !Dead(m, Keeper(m1, p, c))
    ensures d < |m| && d in starts
    ensures Cleaned(m1, starts, m[d := m[d].MarkAlive()]) && Closed(m1, starts, m[d := m[d].MarkAlive()])
    ensures forall x | WeakCellSafe(m, x) :: WeakCellSafe(m[d := m[d].MarkAlive()], x)
  {
    assert WeakBlockOk(m1, starts, p) && WeakCellOk(m1, starts, p, c);
    assert BlockGraphOk(m1, starts, d);
    var m' := m[d := m[d].MarkAlive()];
    assert HeldWeakly(m1, starts, d);
    forall x: nat | Marked(m', starts, x) ensures ClosedBlock(m1, m', x) {
      if x == d {
        assert d + 1 in Fields(m1, d);
        forall f | f in Fields(m1, d) ensures Served(m1, m', f) {
          assert FieldOk(m1, starts, f);
        }
      } else {
        assert Marked(m, starts, x);
        KeepClosed(m1, m, m', x);
      }
    }
  }

  // ---------------------------------------------------------------- the result of a collection

  /** Cell x after a collection: as before up to its mark, unless it is a weak cell whose keeper
      was not reachable, in which case it may have been nulled. */
  ghost predicate KeptCell(base: Memory, starts: set<nat>, roots: set<nat>, m': Memory, p: nat, x: nat)
    requires p < |base|
  {
    && x < |base| && |m'| == |base|
    && (m'[x] == base[x] || m'[x] == base[x].MarkAlive()
        || (x in WeakCells(base, p) && UnreachableKeeper(base, starts, roots, p, x)
            && (m'[x] == base[x].(target := Null) || m'[x] == base[x].MarkAlive().(target := Null))))
  }

  ghost predicate UnreachableKeeper(base: Memory, starts: set<nat>, roots: set<nat>, p: nat, x: nat)
    requires p < |base| && x < |base|
  {
    var r := Keeper(base, p, x);
    r.To? && Managed(base, starts, r.addr) && !Reachable(base, roots, r.addr)
  }

  /** d is a delegate held by a reachable weak list. */
  ghost predicate HeldByReachable(base: Memory, starts: set<nat>, roots: set<nat>, d: nat) {
    exists p: nat, c :: Managed(base, starts, p) && IsWeakList(base[p]) && Reachable(base, roots, p)
                        && c in WeakCells(base, p) && c < |base| && base[c].target == To(d)
  }

  /** What a collection does to the heap: everything reachable and every event block survives, nothing else does except
      delegates still held by reachable weak lists; survivors keep their header and their data;
      and the heap is again one in which every pointer, weak ones included, names a live block. */
  ghost predicate Collected(base: Memory, starts: set<nat>, roots: set<nat>, m': Memory, starts': set<nat>) {
    && (forall p: nat | Live(base, starts, p) && (base[p].IsEvent() || Reachable(base, roots, p)) ::
        Live(m', starts', p))
    && (forall p: nat | Live(m', starts', p) ::
          Live(base, starts, p) && (base[p].IsEvent() || Reachable(base, roots, p)
              || HeldByReachable(base, starts, roots, p)))
    && (forall p: nat, x | Live(m', starts', p) && p < x < p + m'[p].size ::
          p < |base| && KeptCell(base, starts, roots, m', p, x))
    && (forall p: nat | Live(m', starts', p) :: p < |base| && m'[p] == base[p])
    && HeapOk(m', starts')
  }

  /** r survives without the help of weak lists. */
  ghost predicate Stays(base: Memory, starts: set<nat>, roots: set<nat>, r: nat) {
    Live(base, starts, r) && (base[r].IsEvent() || Reachable(base, roots, r))
  }

  /** Entry k of the weak lists is bound to an object that neither stays nor is a delegate that an
      earlier entry has kept. */
  ghost predicate Unkept(base: Memory, starts: set<nat>, roots: set<nat>, m': Memory, es: seq<nat>, k: nat)
    requires k < |es| && es[k] < |base|
  {
    var r := BoundObject(base, es[k]);
    r.To? && !Stays(base, starts, roots, r.addr) && !KeptBefore(m', es, k, r.addr)
  }

  ghost predicate EntryExact(base: Memory, starts: set<nat>, roots: set<nat>, m': Memory, es: seq<nat>, k: nat) {
    && k < |es| && es[k] < |base| && |m'| == |base|
    && m'[es[k]].target == if Unkept(base, starts, roots, m', es, k) then Null else base[es[k]].target
  }

  ghost predicate TargetExact(base: Memory, starts: set<nat>, roots: set<nat>, m': Memory, p: nat) {
    && p + 1 < |base| && |m'| == |base|
    && var r := base[p + 1].target;
      m'[p + 1].target == if r.To? && !Stays(base, starts, roots, r.addr) then Null else r
  }

  ghost predicate WeakEntry(base: Memory, m': Memory, starts': set<nat>, c: nat) {
    exists p: nat :: Live(m', starts', p) && p < |base| && IsWeakList(base[p]) && c in WeakCells(base, p)
  }

  /** Exactly what a collection makes of weak references and weak delegate lists.  `es` are the entries
      of the weak lists that survive, in the order in which they were looked at. */
  ghost predicate WeakExact(base: Memory, starts: set<nat>, roots: set<nat>, es: seq<nat>, m': Memory,
      starts': set<nat>)
  {
    && (forall p: nat | Live(m', starts', p) && p < |base| && base[p].kind.WeakClass? ::
        TargetExact(base, starts, roots, m', p))
    && Once(es) && (forall c: nat :: c in es <==> WeakEntry(base, m', starts', c))
    && (forall k: nat | k < |es| :: EntryExact(base, starts, roots, m', es, k))
    && (forall p: nat ::
        Live(m', starts', p) <==>
        Stays(base, starts, roots, p) || (Live(base, starts, p) && KeptBefore(m', es, |es|, p)))
  }

  lemma {:induction false} MarkedHeapOk(base: Memory, starts: set<nat>, m1: Memory)
    requires HeapOk(base, starts) && SameGraph(base, m1) && ClosedHeap(base, starts, m1)
    ensures HeapOk(m1, starts) && Closed(m1, starts, m1)
  {
    forall p | p in starts ensures BlockOk(m1, starts, p) {
      assert BlockOk(base, starts, p);
    }
    forall p: nat | Live(m1, starts, p) ensures BlockGraphOk(m1, starts, p) && WeakBlockOk(m1, starts, p) {
      SameBlockGraph(base, starts, m1, p);
    }
    forall p: nat | Marked(m1, starts, p) ensures ClosedBlock(m1, m1, p) {
      assert ClosedBlock(base, m1, p);
      forall c | c in Fields(m1, p) ensures Served(m1, m1, c) {
        assert Served(base, m1, c);
        assert BlockGraphOk(base, starts, p);
        assert FieldOk(base, starts, c);
        forall q: nat | Refers(m1, c, q) ensures m1[q].IsAlive() {
          assert Refers(base, c, q);
        }
      }
    }
  }

  lemma {:induction false} SameBlockGraph(base: Memory, starts: set<nat>, m1: Memory, p: nat)
    requires HeapOk(base, starts) && SameGraph(base, m1) && Live(m1, starts, p)
    ensures BlockGraphOk(m1, starts, p) && WeakBlockOk(m1, starts, p)
  {
    assert BlockGraphOk(base, starts, p) && WeakBlockOk(base, starts, p);
    forall c | c in Fields(m1, p) ensures FieldOk(m1, starts, c) {
      assert FieldOk(base, starts, c);
    }
    forall c | c in WeakCells(m1, p) ensures WeakCellOk(m1, starts, p, c) {
      assert WeakCellOk(base, starts, p, c);
    }
  }

  /** The stages of a collection: `base` before, `m1` marked, `m3` with weak cells cleaned, `m'` swept. */
  ghost predicate Stages(base: Memory, starts: set<nat>, roots: set<nat>, m1: Memory, m3: Memory, m': Memory,
      starts': set<nat>)
  {
    && HeapOk(base, starts) && (forall p: nat :: !Marked(base, starts, p))
    && SameGraph(base, m1) && FreeDead(m1, starts) && MarksExact(base, starts, roots, m1)
    && HeapOk(m1, starts)
    && Cleaned(m1, starts, m3) && Closed(m1, starts, m3)
    && (forall p: nat, c | Marked(m1, starts, p) && c in WeakCells(m1, p) :: WeakCellSafe(m3, c))
    && HC.Swept(m3, starts, m', starts')
    && Tiled(m', starts')
  }

  lemma {:induction false} WhoSurvives(base: Memory, starts: set<nat>, roots: set<nat>, m1: Memory, m3: Memory,
      m': Memory, starts': set<nat>, p: nat)
    requires Stages(base, starts, roots, m1, m3, m', starts')
    ensures Live(base, starts, p) && (base[p].IsEvent() || Reachable(base, roots, p)) ==> Live(m', starts', p)
    ensures Live(m', starts', p) ==>
              Live(base, starts, p) && (base[p].IsEvent() || Reachable(base, roots, p)
                  || HeldByReachable(base, starts, roots, p))
    ensures Live(m', starts', p) ==> p < |base| && m'[p] == base[p] && HC.Survives(m3, starts, p)
  {
    if Live(base, starts, p) && (base[p].IsEvent() || Reachable(base, roots, p)) {
      assert BlockGraphOk(base, starts, p);
      assert HC.Survives(m3, starts, p);
    }
    if Live(m', starts', p) {
      assert HC.Survives(m3, starts, p);
      assert HC.SameSwept(m3, m', p);
      if m3[p] != m1[p] { Revived(base, starts, roots, m1, m3, p); }
      assert !Marked(base, starts, p);
      if base[p].IsEvent() { assert BlockGraphOk(base, starts, p); }
    }
  }

  lemma {:induction false} Revived(base: Memory, starts: set<nat>, roots: set<nat>, m1: Memory, m3: Memory, p: nat)
    requires SameGraph(base, m1) && MarksExact(base, starts, roots, m1) && Cleaned(m1, starts, m3)
    requires p in starts && p < |m1| && |m3| == |m1| && m3[p] != m1[p]
    requires HC.Survives(m3, starts, p)
    ensures HeldByReachable(base, starts, roots, p)
  {
    var q: nat, c :|
        Marked(m1, starts, q) && IsWeakList(m1[q]) && c in WeakCells(m1, q) && c < |m1| && m1[c].target == To(p);
    assert Managed(base, starts, q) && Reachable(base, roots, q);
  }

  lemma {:induction false} KeeperUnreachable(base: Memory, starts: set<nat>, roots: set<nat>, m1: Memory, p: nat,
      x: nat)
    requires HeapOk(base, starts) && SameGraph(base, m1) && MarksExact(base, starts, roots, m1)
    requires Live(base, starts, p) && x < |base| && x in WeakCells(base, p)
    requires Dead(m1, Keeper(m1, p, x))
    ensures UnreachableKeeper(base, starts, roots, p, x)
  {
    assert WeakBlockOk(base, starts, p) && WeakCellOk(base, starts, p, x);
    assert Keeper(m1, p, x) == Keeper(base, p, x);
    var r := Keeper(base, p, x);
    if IsWeakList(base[p]) {
      var d := base[x].target.addr;
      assert BlockGraphOk(base, starts, d);
      assert d + 1 in Fields(base, d);
      assert FieldOk(base, starts, d + 1);
    }
    assert Live(base, starts, r.addr);
    assert BlockGraphOk(base, starts, r.addr);
  }

  lemma {:induction false} DataKept(base: Memory, starts: set<nat>, roots: set<nat>, m1: Memory, m3: Memory, m': Memory,
      starts': set<nat>, p: nat, x: nat)
    requires Stages(base, starts, roots, m1, m3, m', starts')
    requires Live(m', starts', p) && p < x < p + m'[p].size
    ensures p < |base| && KeptCell(base, starts, roots, m', p, x) && x < |m3| && m'[x] == m3[x] && x !in starts
  {
    WhoSurvives(base, starts, roots, m1, m3, m', starts', p);
    assert HC.SameSwept(m3, m', p);
    assert BlockOk(base, starts, p);
    if m3[x] != m1[x] {
      var q: nat :| Live(m1, starts, q) && x < |m1| && x in WeakCells(m1, q) && Dead(m1, Keeper(m1, q, x));
      assert WeakBlockOk(m1, starts, q) && WeakCellOk(m1, starts, q, x);
      assert BlockOk(base, starts, q);
      assert q == p;
      KeeperUnreachable(base, starts, roots, m1, p, x);
    }
  }

  lemma {:induction false} TargetSurvives(base: Memory, starts: set<nat>, roots: set<nat>, m1: Memory, m3: Memory,
      m': Memory, starts': set<nat>, q: nat)
    requires Stages(base, starts, roots, m1, m3, m', starts')
    requires Live(m1, starts, q) && m3[q].IsAlive()
    ensures Live(m', starts', q)
  {
    assert HC.Survives(m3, starts, q);
  }

  lemma {:induction false} BlockGraphAfter(base: Memory, starts: set<nat>, roots: set<nat>, m1: Memory, m3: Memory,
      m': Memory, starts': set<nat>, p: nat)
    requires Stages(base, starts, roots, m1, m3, m', starts')
    requires Live(m', starts', p)
    ensures BlockGraphOk(m', starts', p)
  {
    WhoSurvives(base, starts, roots, m1, m3, m', starts', p);
    assert BlockGraphOk(m1, starts, p) && BlockOk(base, starts, p);
    forall c | c in Fields(m', p) ensures FieldOk(m', starts', c) {
      DataKept(base, starts, roots, m1, m3, m', starts', p, c);
      assert FieldOk(m1, starts, c);
      NotWeak(m1, starts, m3, p, c);
      if m1[c].kind.Reference? && m1[c].target.To? {
        var q := m1[c].target.addr;
        assert BlockGraphOk(m1, starts, q);
        assert ClosedBlock(m1, m3, p);
        assert Served(m1, m3, c);
        assert m3[q].IsAlive() by { if !m1[q].IsEvent() { assert Refers(m1, c, q); } }
        TargetSurvives(base, starts, roots, m1, m3, m', starts', q);
      }
    }
  }

  /** A field cell is not a weak cell, so it is never nulled. */
  lemma {:induction false} NotWeak(m1: Memory, starts: set<nat>, m3: Memory, p: nat, c: nat)
    requires HeapOk(m1, starts) && Cleaned(m1, starts, m3) && Live(m1, starts, p) && c in Fields(m1, p) && c < |m1|
               && c !in starts
    ensures m3[c] == m1[c]
  {
    assert BlockOk(m1, starts, p) && BlockGraphOk(m1, starts, p);
    forall q: nat | Live(m1, starts, q) && c in WeakCells(m1, q) ensures q == p {
      assert BlockOk(m1, starts, q) && WeakBlockOk(m1, starts, q) && WeakCellOk(m1, starts, q, c);
    }
    assert !MayBeNulled(m1, starts, c);
  }

  lemma {:induction false} WeakBlockAfter(base: Memory, starts: set<nat>, roots: set<nat>, m1: Memory, m3: Memory,
      m': Memory, starts': set<nat>, p: nat)
    requires Stages(base, starts, roots, m1, m3, m', starts')
    requires Live(m', starts', p)
    ensures WeakBlockOk(m', starts', p)
  {
    WhoSurvives(base, starts, roots, m1, m3, m', starts', p);
    assert WeakBlockOk(m1, starts, p) && BlockOk(base, starts, p);
    forall c | c in WeakCells(m', p) ensures WeakCellOk(m', starts', p, c) {
      assert WeakCellOk(m1, starts, p, c);
      DataKept(base, starts, roots, m1, m3, m', starts', p, c);
      if m3[c].target.To? {
        assert Marked(m1, starts, p) by { WeakHolderMarked(m1, starts, m3, p); }
        assert WeakCellSafe(m3, c);
        TargetSurvives(base, starts, roots, m1, m3, m', starts', m3[c].target.addr);
        WhoSurvives(base, starts, roots, m1, m3, m', starts', m3[c].target.addr);
      }
    }
  }

  /** Delegates revived by weak lists have no weak cells, so a survivor that has some was marked. */
  lemma {:induction false} WeakHolderMarked(m1: Memory, starts: set<nat>, m3: Memory, p: nat)
    requires HeapOk(m1, starts) && Cleaned(m1, starts, m3) && Live(m1, starts, p)
    requires WeakCells(m1, p) != {} && m3[p].IsAlive()
    ensures Marked(m1, starts, p)
  {
    assert WeakBlockOk(m1, starts, p);
    forall q: nat, c | Marked(m1, starts, q) && IsWeakList(m1[q]) && c in WeakCells(m1, q) && c < |m1|
        && m1[c].target == To(p)
      ensures m1[p].kind.DelegateHead?
    {
      assert WeakBlockOk(m1, starts, q) && WeakCellOk(m1, starts, q, c);
    }
    assert !HeldWeakly(m1, starts, p);
  }

  lemma {:induction false} CollectedFrom(base: Memory, starts: set<nat>, roots: set<nat>, m1: Memory, m3: Memory,
      m': Memory, starts': set<nat>)
    requires Stages(base, starts, roots, m1, m3, m', starts')
    ensures Collected(base, starts, roots, m', starts')
  {
    forall p: nat
      ensures Live(base, starts, p) && (base[p].IsEvent() || Reachable(base, roots, p)) ==> Live(m', starts', p)
      ensures Live(m', starts', p) ==>
                Live(base, starts, p) && (base[p].IsEvent() || Reachable(base, roots, p)
                    || HeldByReachable(base, starts, roots, p))
      ensures Live(m', starts', p) ==> p < |base| && m'[p] == base[p]
    {
      WhoSurvives(base, starts, roots, m1, m3, m', starts', p);
    }
    forall p: nat, x | Live(m', starts', p) && p < x < p + m'[p].size
      ensures p < |base| && KeptCell(base, starts, roots, m', p, x)
    {
      DataKept(base, starts, roots, m1, m3, m', starts', p, x);
    }
    forall p: nat | Live(m', starts', p) ensures BlockGraphOk(m', starts', p) && WeakBlockOk(m', starts', p) {
      BlockGraphAfter(base, starts, roots, m1, m3, m', starts', p);
      WeakBlockAfter(base, starts, roots, m1, m3, m', starts', p);
    }
  }

  /** The target of weak reference p has been dealt with: it is null if it was dead. */
  ghost predicate TargetDecided(m1: Memory, m: Memory, p: nat) {
    && p + 1 < |m1| && |m| == |m1|
    && m[p + 1].target == if Dead(m1, m1[p + 1].target) then Null else m1[p + 1].target
  }

  ghost predicate TargetsDecided(m1: Memory, m: Memory, weakReferences: seq<nat>) {
    forall p | p in weakReferences && p < |m1| && m1[p].IsAlive() :: TargetDecided(m1, m, p)
  }

  /** Cell x is the target of a live weak reference. */
  ghost predicate IsTarget(m1: Memory, starts: set<nat>, x: nat) {
    x > 0 && Live(m1, starts, x - 1) && m1[x - 1].kind.WeakClass?
  }

  /** Only targets of weak references have changed. */
  ghost predicate OnlyTargets(m1: Memory, starts: set<nat>, m: Memory) {
    |m| == |m1| && forall x: nat | x < |m1| && !IsTarget(m1, starts, x) :: m[x] == m1[x]
  }

  ghost predicate TurnOk(m: Memory, c: nat) {
    && c < |m| && (m[c].target.To? ==> m[c].target.addr + 1 < |m|)
    && (BoundObject(m, c).To? ==> BoundObject(m, c).addr < |m|)
  }

  /** One collection: the heap before, what counts as roots, the heap marked (`m1`), with the weak
      references dealt with (`m2`), with the weak lists dealt with (`m3`), and swept. */
  datatype Cycle = Cycle(base: Memory, starts: set<nat>, roots: set<nat>, m1: Memory, m2: Memory, m3: Memory,
                         swept: Memory, left: set<nat>, weakReferences: seq<nat>, weakLists: seq<nat>) {
    function Es(): seq<nat> { AllEntries(m1, weakLists) }

    ghost predicate Ok() {
      Stages(base, starts, roots, m1, m3, swept, left) && WeakDone()
    }

    ghost predicate WeakDone() {
      && OnlyTargets(m1, starts, m2) && Cleaned(m1, starts, m2)
      && (forall p: nat :: Live(m1, starts, p) && m1[p].kind.WeakClass? ==> p in weakReferences)
      && TargetsDecided(m1, m2, weakReferences)
      && WeakOk(m1, starts, weakLists)
      && Decided(m2, starts, m3, Es(), |Es()|)
    }
  }

  /** A block is marked, or an event block, exactly if it stays. */
  lemma {:induction false} AliveStays(base: Memory, starts: set<nat>, roots: set<nat>, m1: Memory, r: nat)
    requires HeapOk(base, starts) && SameGraph(base, m1) && MarksExact(base, starts, roots, m1) && Live(base, starts, r)
    ensures m1[r].IsAlive() <==> Stays(base, starts, roots, r)
  {
    assert BlockGraphOk(base, starts, r);
    if !base[r].IsEvent() { assert Managed(base, starts, r); }
  }

  lemma {:induction false} TargetExactFrom(c: Cycle, p: nat)
    requires c.Ok() && Live(c.swept, c.left, p) && p < |c.base| && c.base[p].kind.WeakClass?
    ensures TargetExact(c.base, c.starts, c.roots, c.swept, p)
  {
    WhoSurvives(c.base, c.starts, c.roots, c.m1, c.m3, c.swept, c.left, p);
    assert p + 1 in WeakCells(c.m1, p);
    assert WeakBlockOk(c.base, c.starts, p) && WeakCellOk(c.base, c.starts, p, p + 1);
    WeakHolderMarked(c.m1, c.starts, c.m3, p);
    TargetSafe(c.m1, c.starts, c.weakLists, c.m2, c.m3, p);
    DataKept(c.base, c.starts, c.roots, c.m1, c.m3, c.swept, c.left, p, p + 1);
    if c.base[p + 1].target.To? { AliveStays(c.base, c.starts, c.roots, c.m1, c.base[p + 1].target.addr); }
  }

  /** Entry x belongs to list p, which is marked and survives. */
  ghost predicate EntryOfList(c: Cycle, p: nat, x: nat) {
    && Live(c.swept, c.left, p) && p < |c.base| && IsWeakList(c.base[p]) && x in WeakCells(c.base, p)
    && Marked(c.m1, c.starts, p) && p < |c.m1| && IsWeakList(c.m1[p]) && x in WeakCells(c.m1, p)
  }

  lemma {:induction false} WhoseEntryIs(c: Cycle, x: nat) returns (p: nat)
    requires c.Ok() && x in c.Es()
    ensures EntryOfList(c, p, x)
  {
    WhoseEntry(c.m1, c.weakLists, x);
    p :| p in c.weakLists && x in EntriesOf(c.m1, p);
    EntryIsWeakCell(c.m1, p, x);
    ListSurvives(c, p);
    assert x in WeakCells(c.base, p);
  }

  lemma EntryIsWeakCell(m: Memory, p: nat, x: nat)
    requires x in EntriesOf(m, p)
    ensures p < |m| && IsWeakList(m[p]) && x in WeakCells(m, p)
  {
  }

  lemma {:induction false} ListSurvives(c: Cycle, p: nat)
    requires c.Ok() && p in c.weakLists
    ensures Marked(c.m1, c.starts, p) && Live(c.swept, c.left, p) && p < |c.base| && c.base[p].kind == c.m1[p].kind
  {
    assert Marked(c.m1, c.starts, p);
    AliveStays(c.base, c.starts, c.roots, c.m1, p);
    WhoSurvives(c.base, c.starts, c.roots, c.m1, c.m3, c.swept, c.left, p);
  }

  lemma {:induction false} EntryIsListed(c: Cycle, p: nat, x: nat)
    requires c.Ok() && Live(c.swept, c.left, p) && p < |c.base| && IsWeakList(c.base[p]) && x in WeakCells(c.base, p)
    ensures x in c.Es()
  {
    WhoSurvives(c.base, c.starts, c.roots, c.m1, c.m3, c.swept, c.left, p);
    assert x in WeakCells(c.m1, p);
    WeakHolderMarked(c.m1, c.starts, c.m3, p);
    assert EntriesOf(c.m1, p)[x - p - 1] == x;
    WhoseEntry(c.m1, c.weakLists, x);
  }

  /** Before the collection entry x named a delegate bound to a block, or nothing. */
  lemma {:induction false} EntryBefore(c: Cycle, p: nat, x: nat)
    requires c.Ok() && EntryOfList(c, p, x)
    ensures x < |c.m2| == |c.base| && c.m2[x].target == c.base[x].target
              && BoundObject(c.m2, x) == BoundObject(c.base, x)
    ensures BoundObject(c.base, x).To? ==> Live(c.base, c.starts, BoundObject(c.base, x).addr)
  {
    EntryShaped(c.m1, c.starts, c.m2, p, x);
    BoundToLive(c.base, c.starts, p, x);
    SameBound(c.base, c.m1, x);
  }

  lemma SameBound(base: Memory, m1: Memory, x: nat)
    requires SameGraph(base, m1) && x < |base|
    ensures m1[x].target == base[x].target && BoundObject(m1, x) == BoundObject(base, x)
  {
  }

  lemma {:induction false} BoundToLive(base: Memory, starts: set<nat>, p: nat, x: nat)
    requires HeapOk(base, starts) && Live(base, starts, p) && IsWeakList(base[p]) && x in WeakCells(base, p)
    ensures x < |base| && (BoundObject(base, x).To? ==> Live(base, starts, BoundObject(base, x).addr))
  {
    assert WeakBlockOk(base, starts, p) && WeakCellOk(base, starts, p, x);
    if base[x].target.To? {
      var d := base[x].target.addr;
      assert BlockGraphOk(base, starts, d);
      assert d + 1 in Fields(base, d);
      assert FieldOk(base, starts, d + 1);
    }
  }

  /** An entry has in the end the target it was left with. */
  lemma {:induction false} EntryInTheEnd(c: Cycle, p: nat, x: nat)
    requires c.Ok() && EntryOfList(c, p, x)
    ensures x < |c.m3| == |c.swept| && c.swept[x] == c.m3[x]
  {
    WhoSurvives(c.base, c.starts, c.roots, c.m1, c.m3, c.swept, c.left, p);
    assert WeakBlockOk(c.base, c.starts, p) && WeakCellOk(c.base, c.starts, p, x);
    DataKept(c.base, c.starts, c.roots, c.m1, c.m3, c.swept, c.left, p, x);
  }

  lemma {:induction false} EntryExactFrom(c: Cycle, k: nat)
    requires c.Ok() && k < |c.Es()|
    ensures EntryExact(c.base, c.starts, c.roots, c.swept, c.Es(), k)
  {
    var x := c.Es()[k];
    var p := WhoseEntryIs(c, x);
    EntryBefore(c, p, x);
    EntryInTheEnd(c, p, x);
    assert EntryDecided(c.m2, c.m3, c.Es(), k);
    var r := BoundObject(c.base, x);
    if r.To? {
      AliveStays(c.base, c.starts, c.roots, c.m1, r.addr);
      HeaderKept(c.m1, c.starts, c.m2, r.addr);
      KeptInTheEnd(c, k, r.addr);
    }
  }

  lemma {:induction false} KeptInTheEnd(c: Cycle, k: nat, r: nat)
    requires c.Ok() && k <= |c.Es()|
    ensures KeptBefore(c.swept, c.Es(), k, r) <==> KeptBefore(c.m3, c.Es(), k, r)
  {
    var es := c.Es();
    forall j: nat | j < k ensures es[j] < |c.m3| == |c.swept| && c.swept[es[j]] == c.m3[es[j]] {
      var p := WhoseEntryIs(c, es[j]);
      EntryInTheEnd(c, p, es[j]);
    }
  }

  lemma {:induction false} SurvivesExactly(c: Cycle, p: nat)
    requires c.Ok()
    ensures Live(c.swept, c.left, p) <==>
            Stays(c.base, c.starts, c.roots, p)
                || (Live(c.base, c.starts, p) && KeptBefore(c.swept, c.Es(), |c.Es()|, p))
  {
    WhoSurvives(c.base, c.starts, c.roots, c.m1, c.m3, c.swept, c.left, p);
    if Live(c.base, c.starts, p) {
      AliveStays(c.base, c.starts, c.roots, c.m1, p);
      HeaderKept(c.m1, c.starts, c.m2, p);
      assert AliveAsKept(c.m2, c.m3, c.Es(), |c.Es()|, p);
      KeptInTheEnd(c, |c.Es()|, p);
      assert Live(c.swept, c.left, p) <==> HC.Survives(c.m3, c.starts, p);
    }
  }

  /** Weak references lose exactly the targets that do not stay, entries of weak lists exactly the
      delegates whose object is not alive when their turn comes, and beside what stays exactly the
      delegates that an entry has kept survive. */
  lemma {:induction false} WeakExactFrom(c: Cycle)
    requires c.Ok() && Once(c.Es())
    ensures WeakExact(c.base, c.starts, c.roots, c.Es(), c.swept, c.left)
  {
    forall p: nat | Live(c.swept, c.left, p) && p < |c.base| && c.base[p].kind.WeakClass?
      ensures TargetExact(c.base, c.starts, c.roots, c.swept, p)
    {
      TargetExactFrom(c, p);
    }
    forall x: nat ensures x in c.Es() <==> WeakEntry(c.base, c.swept, c.left, x) {
      if x in c.Es() { var p := WhoseEntryIs(c, x); }
      if p: nat :| Live(c.swept, c.left, p) && p < |c.base| && IsWeakList(c.base[p]) && x in WeakCells(c.base, p) {
        EntryIsListed(c, p, x);
      }
    }
    forall k: nat | k < |c.Es()| ensures EntryExact(c.base, c.starts, c.roots, c.swept, c.Es(), k) {
      EntryExactFrom(c, k);
    }
    forall p: nat
      ensures Live(c.swept, c.left, p) <==>
              Stays(c.base, c.starts, c.roots, p)
                  || (Live(c.base, c.starts, p) && KeptBefore(c.swept, c.Es(), |c.Es()|, p))
    {
      SurvivesExactly(c, p);
    }
  }

  /** The blocks of the list that are alive in m, in the order of the list. */
  ghost function AliveOnes(m: Memory, list: seq<nat>): seq<nat> {
    if list == [] then []
    else
      var p := list[|list| - 1];
      AliveOnes(m, list[..|list| - 1]) + if p < |m| && m[p].IsAlive() then [p] else []
  }

  lemma {:induction false} InAliveOnes(m: Memory, list: seq<nat>, p: nat)
    ensures p in AliveOnes(m, list) <==> p in list && p < |m| && m[p].IsAlive()
  {
    if list != [] {
      InAliveOnes(m, list[..|list| - 1], p);
      assert list == list[..|list| - 1] + [list[|list| - 1]];
    }
  }

  /** `ones` are those of the list that are alive: they stand at these places of it, in order. */
  ghost predicate AliveAt(m: Memory, list: seq<nat>, ones: seq<nat>, at: seq<nat>) {
    && |at| == |ones|
    && (forall i | 0 <= i < |at| :: at[i] < |list| && list[at[i]] == ones[i])
    && (forall i, j | 0 <= i < j < |at| :: at[i] < at[j])
    && (forall k: nat | k < |list| :: k in at <==> list[k] < |m| && m[list[k]].flags.alive)
  }

  lemma {:induction false} AliveInOrder(m: Memory, list: seq<nat>) returns (at: seq<nat>)
    ensures AliveAt(m, list, AliveOnes(m, list), at)
  {
    at := [];
    if list != [] {
      var front, p := list[..|list| - 1], list[|list| - 1];
      at := AliveInOrder(m, front);
      OneMoreAt(m, front, AliveOnes(m, front), at, p);
      assert front + [p] == list;
      if p < |m| && m[p].flags.alive {
        at := at + [|front|];
      } else {
        assert AliveOnes(m, front) + [] == AliveOnes(m, front);
      }
    }
  }

  lemma {:induction false} OneMoreAt(m: Memory, front: seq<nat>, ones: seq<nat>, at: seq<nat>, p: nat)
    requires AliveAt(m, front, ones, at)
    ensures if p < |m| && m[p].flags.alive then AliveAt(m, front + [p], ones + [p], at + [|front|])
            else AliveAt(m, front + [p], ones, at)
  {
    var list := front + [p];
    forall k: nat | k < |front| ensures list[k] == front[k] {
    }
    if p < |m| && m[p].flags.alive {
      forall k: nat | k < |list| ensures k in at + [|front|] <==> k in at || k == |front| {
        assert (at + [|front|])[|at|] == |front|;
      }
    }
  }

  lemma OneMoreAlive(m: Memory, list: seq<nat>, p: nat)
    ensures AliveOnes(m, list + [p]) == AliveOnes(m, list) + if p < |m| && m[p].IsAlive() then [p] else []
  {
    assert (list + [p])[..|list|] == list;
  }

  /** The weak references kept on the list are those that the sweep leaves alive. */
  lemma {:induction false} LinkedSurvive(base: Memory, starts: set<nat>, roots: set<nat>, m1: Memory, m3: Memory,
      m': Memory, starts': set<nat>, weakReferences: seq<nat>)
    requires Stages(base, starts, roots, m1, m3, m', starts')
    requires forall p | p in weakReferences :: Live(m1, starts, p) && m1[p].kind.WeakClass?
    ensures forall p :: p in AliveOnes(m1, weakReferences) <==> p in weakReferences && Live(m', starts', p)
  {
    forall p: nat ensures p in AliveOnes(m1, weakReferences) <==> p in weakReferences && Live(m', starts', p) {
      InAliveOnes(m1, weakReferences, p);
      if p in weakReferences {
        assert BlockGraphOk(m1, starts, p) && WeakBlockOk(m1, starts, p);
        assert p + 1 in WeakCells(m1, p);
        WhoSurvives(base, starts, roots, m1, m3, m', starts', p);
        if m3[p].IsAlive() { WeakHolderMarked(m1, starts, m3, p); }
        if m1[p].IsAlive() { assert HC.Survives(m3, starts, p); }
      }
    }
  }

  const SIZE_OF_HEAP_BLOCK: nat := 12

  /** The free cells from entry k of the free list on. */
  ghost function FreeFrom(m: Memory, starts: set<nat>, list: seq<nat>, k: nat): set<nat>
    requires k <= |list|
  {
    if k == |list| then {} else set x | x in FreeCells(m, starts) && list[k] <= x
  }

  lemma {:induction false} OneMoreFree(m: Memory, starts: set<nat>, list: seq<nat>, k: nat)
    requires HC.ClusterOk(m, starts, list) && k < |list|
    ensures list[k] < |m| && |FreeFrom(m, starts, list, k)| == |FreeFrom(m, starts, list, k + 1)| + m[list[k]].size
  {
    assert HC.IsFreeStart(m, starts, list[k]) && BlockOk(m, starts, list[k]);
    forall x: nat
      ensures x in FreeFrom(m, starts, list, k) <==>
                x in Interval(list[k], End(m, list[k])) || x in FreeFrom(m, starts, list, k + 1)
      ensures !(x in Interval(list[k], End(m, list[k])) && x in FreeFrom(m, starts, list, k + 1))
    {
      FreeSplits(m, starts, list, k, x);
    }
    IntervalSize(list[k], End(m, list[k]));
    JoinedSize(FreeFrom(m, starts, list, k), Interval(list[k], End(m, list[k])), FreeFrom(m, starts, list, k + 1));
  }

  lemma JoinedSize(all: set<nat>, a: set<nat>, b: set<nat>)
    requires forall x: nat :: x in all <==> x in a || x in b
    requires forall x: nat :: !(x in a && x in b)
    ensures |all| == |a| + |b|
  {
    assert all == a + b && a !! b;
  }

  lemma {:induction false} FreeSplits(m: Memory, starts: set<nat>, list: seq<nat>, k: nat, x: nat)
    requires HC.ClusterOk(m, starts, list) && k < |list|
    ensures list[k] < |m|
    ensures x in FreeFrom(m, starts, list, k) <==>
              x in Interval(list[k], End(m, list[k])) || x in FreeFrom(m, starts, list, k + 1)
    ensures !(x in Interval(list[k], End(m, list[k])) && x in FreeFrom(m, starts, list, k + 1))
  {
    assert HC.IsFreeStart(m, starts, list[k]) && BlockOk(m, starts, list[k]);
    if k + 1 < |list| { assert HC.IsFreeStart(m, starts, list[k + 1]); }
    if x in FreeFrom(m, starts, list, k) { FreeIsOwn(m, starts, list, k, x); }
    if list[k] <= x < End(m, list[k]) { assert Inside(m, list[k], x); }
  }

  /** A free cell from entry k on belongs to entry k, or comes from the next entry on. */
  lemma {:induction false} FreeIsOwn(m: Memory, starts: set<nat>, list: seq<nat>, k: nat, x: nat)
    requires HC.ClusterOk(m, starts, list) && k < |list| && x in FreeCells(m, starts) && list[k] <= x
    ensures list[k] < |m| && (x < End(m, list[k]) || (k + 1 < |list| && list[k + 1] <= x))
  {
    assert HC.IsFreeStart(m, starts, list[k]);
    var q: nat :| q in starts && Inside(m, q, x) && m[q].IsFree();
    assert HC.IsFreeStart(m, starts, q) && BlockOk(m, starts, q);
    var j :| 0 <= j < |list| && list[j] == q;
  }

  lemma {:induction false} AllFree(m: Memory, starts: set<nat>, list: seq<nat>)
    requires HC.ClusterOk(m, starts, list)
    ensures FreeFrom(m, starts, list, 0) == FreeCells(m, starts)
  {
    forall x | x in FreeCells(m, starts) ensures list != [] && list[0] <= x {
      var q: nat :| q in starts && Inside(m, q, x) && m[q].IsFree();
      assert HC.IsFreeStart(m, starts, q);
      var j :| 0 <= j < |list| && list[j] == q;
    }
  }

  lemma {:induction false} CleanedTiles(m1: Memory, starts: set<nat>, m3: Memory)
    requires HeapOk(m1, starts) && FreeDead(m1, starts) && Cleaned(m1, starts, m3)
    ensures Tiled(m3, starts) && forall p: nat | HC.Survives(m3, starts, p) :: !m3[p].IsFree()
  {
    forall p | p in starts ensures BlockOk(m3, starts, p) {
      assert BlockOk(m1, starts, p);
    }
  }

  class GarbageCollector {
    const heap: HC.HeapCluster

    constructor (h: HC.HeapCluster)
      ensures heap == h
    {
      heap := h;
    }

    /** Drops dead weak references from the list and nulls the targets of live ones that died. */
    method MarkWeak(weakReferences: seq<nat>, ghost m1: Memory) returns (linked: seq<nat>)
      requires heap.mem[..] == m1 && HeapOk(m1, heap.starts) && Closed(m1, heap.starts, m1)
      requires forall p | p in weakReferences :: Live(m1, heap.starts, p) && m1[p].kind.WeakClass?
      modifies heap.mem
      ensures Cleaned(m1, heap.starts, heap.mem[..]) && Closed(m1, heap.starts, heap.mem[..])
      ensures OnlyTargets(m1, heap.starts, heap.mem[..]) && TargetsDecided(m1, heap.mem[..], weakReferences)
      ensures linked == AliveOnes(m1, weakReferences)
    {
      linked := [];
      var mem := heap.mem;
      for i := 0 to |weakReferences|
        invariant Cleaned(m1, heap.starts, mem[..]) && Closed(m1, heap.starts, mem[..])
        invariant OnlyTargets(m1, heap.starts, mem[..])
        invariant TargetsDecided(m1, mem[..], weakReferences[..i])
        invariant linked == AliveOnes(m1, weakReferences[..i])
      {
        var weak := weakReferences[i];
        assert weak in weakReferences;
        HeaderKept(m1, heap.starts, mem[..], weak);
        assert weakReferences[..i + 1] == weakReferences[..i] + [weak];
        OneMoreAlive(m1, weakReferences[..i], weak);
        if mem[weak].IsAlive() {
          ClearTarget(weak, m1);
          linked := linked + [weak];
        }
      }
      assert weakReferences[..|weakReferences|] == weakReferences;
    }

    /** Nulls the target of the live weak reference at `weak` unless the target is alive. */
    method ClearTarget(weak: nat, ghost m1: Memory)
      requires HeapOk(m1, heap.starts) && Cleaned(m1, heap.starts, heap.mem[..])
                 && Closed(m1, heap.starts, heap.mem[..])
      requires OnlyTargets(m1, heap.starts, heap.mem[..])
      requires Live(m1, heap.starts, weak) && m1[weak].kind.WeakClass?
      modifies heap.mem
      ensures Cleaned(m1, heap.starts, heap.mem[..]) && Closed(m1, heap.starts, heap.mem[..])
      ensures OnlyTargets(m1, heap.starts, heap.mem[..]) && TargetDecided(m1, heap.mem[..], weak)
      ensures forall p | TargetDecided(m1, old(heap.mem[..]), p) :: TargetDecided(m1, heap.mem[..], p)
    {
      var mem := heap.mem;
      ghost var m := mem[..];
      WeakTarget(m1, heap.starts, m, weak);
      var target := mem[weak + 1].target;
      if target.To? && !mem[target.addr].IsAlive() {
        NullStep(m1, heap.starts, m, weak, weak + 1);
        mem[weak + 1] := mem[weak + 1].(target := Null);
        assert mem[..] == m[weak + 1 := m[weak + 1].(target := Null)];
      }
    }

    /** Nulls the entries of the reachable weak delegate lists whose target died; keeps the other delegates. */
    method ClearDeadDelegates(weakLists: seq<nat>, ghost m1: Memory, ghost m2: Memory, ghost es: seq<nat>,
        ghost at: seq<nat>)
      requires forall p | p in weakLists :: Marked(m1, heap.starts, p) && IsWeakList(m1[p])
      requires EntriesLaid(m1, weakLists, es, at) && Clearing(m1, heap.starts, m2, heap.mem[..], es, 0)
      modifies heap.mem
      ensures Clearing(m1, heap.starts, m2, heap.mem[..], es, |es|)
    {
      for i := 0 to |weakLists|
        invariant Clearing(m1, heap.starts, m2, heap.mem[..], es, at[i])
      {
        assert weakLists[i] in weakLists && ListAt(m1, es, weakLists[i], at[i], at[i + 1]);
        ClearList(weakLists[i], m1, m2, es, at[i], at[i + 1]);
      }
    }

    /** The entries of the list are those from b up to e. */
    method ClearList(weak: nat, ghost m1: Memory, ghost m2: Memory, ghost es: seq<nat>, ghost b: nat, ghost e: nat)
      requires Clearing(m1, heap.starts, m2, heap.mem[..], es, b)
      requires Marked(m1, heap.starts, weak) && IsWeakList(m1[weak]) && ListAt(m1, es, weak, b, e)
      modifies heap.mem
      ensures Clearing(m1, heap.starts, m2, heap.mem[..], es, e)
    {
      KindKept(m1, heap.starts, heap.mem[..], weak);
      var num, dlgs := heap.mem[weak].kind.length, weak + 1;
      ghost var k := b;
      while num > 0
        invariant m1[weak].kind.length == num + (dlgs - weak - 1) && weak < dlgs && 0 <= num
                    && k == b + (dlgs - weak - 1)
        invariant Clearing(m1, heap.starts, m2, heap.mem[..], es, k)
      {
        ClearNext(weak, dlgs, m1, m2, es, k);
        num, dlgs, k := num - 1, dlgs + 1, k + 1;
      }
    }

    method ClearNext(weak: nat, dlgs: nat, ghost m1: Memory, ghost m2: Memory, ghost es: seq<nat>, ghost k: nat)
      requires Clearing(m1, heap.starts, m2, heap.mem[..], es, k)
      requires Marked(m1, heap.starts, weak) && IsWeakList(m1[weak]) && dlgs in WeakCells(m1, weak) && k < |es|
                 && es[k] == dlgs
      modifies heap.mem
      ensures Clearing(m1, heap.starts, m2, heap.mem[..], es, k + 1)
    {
      ClearStep(m1, heap.starts, m2, heap.mem[..], es, k, weak);
      ClearEntry(dlgs);
    }

    method ClearEntry(dlgs: nat)
      requires TurnOk(heap.mem[..], dlgs)
      modifies heap.mem
      ensures heap.mem[..] == Turned(old(heap.mem[..]), dlgs, BoundObject(old(heap.mem[..]), dlgs))
    {
      var mem := heap.mem;
      ghost var m := mem[..];
      if mem[dlgs].target.To? {
        var dlg := mem[dlgs].target.addr;
        var obj := if mem[dlg + 1].kind.Reference? then mem[dlg + 1].target else Null;
        if obj.To? && !mem[obj.addr].IsAlive() {
          mem[dlgs] := mem[dlgs].(target := Null);
          assert mem[..] == m[dlgs := m[dlgs].(target := Null)];
        } else {
          mem[dlg] := mem[dlg].MarkAlive();
          assert mem[..] == m[dlg := m[dlg].MarkAlive()];
        }
      }
    }

    /** Clears dead entries of weak delegate lists, then reclaims every block that is not alive. */
    method Sweep(weakLists: seq<nat>, ghost m1: Memory, ghost m2: Memory) returns (ghost m3: Memory)
      requires heap.mem.Length <= MAX_SIZE
      requires HeapOk(m1, heap.starts) && FreeDead(m1, heap.starts)
      requires Cleaned(m1, heap.starts, m2) && Closed(m1, heap.starts, m2)
      requires heap.mem[..] == m2 && OnlyTargets(m1, heap.starts, m2)
      requires Once(weakLists) && forall p | p in weakLists :: Marked(m1, heap.starts, p) && IsWeakList(m1[p])
      modifies heap, heap.mem
      ensures heap.Valid()
      ensures Cleaned(m1, old(heap.starts), m3) && Closed(m1, old(heap.starts), m3)
      ensures Decided(m2, old(heap.starts), m3, AllEntries(m1, weakLists), |AllEntries(m1, weakLists)|)
      ensures HC.Swept(m3, old(heap.starts), heap.mem[..], heap.starts)
    {
      EntriesShaped(m1, heap.starts, m2, weakLists);
      NothingDecided(m2, heap.starts, AllEntries(m1, weakLists));
      ghost var at := LayEntries(m1, weakLists);
      ClearDeadDelegates(weakLists, m1, m2, AllEntries(m1, weakLists), at);
      m3 := heap.mem[..];
      CleanedTiles(m1, heap.starts, m3);
      heap.RecoverFromGC();
    }

    /** Measures the heap: all of it, and what is free. */
    method Heap_ComputeAliveVsDeadRatio() returns (totalBytes: nat, freeBytes: nat)
      requires heap.Valid()
      ensures totalBytes == heap.mem.Length * SIZE_OF_HEAP_BLOCK
      ensures freeBytes == |FreeCells(heap.mem[..], heap.starts)| * SIZE_OF_HEAP_BLOCK
    {
      totalBytes := heap.mem.Length * SIZE_OF_HEAP_BLOCK;
      var freeBlocks, k := 0, |heap.freeList|;
      while k > 0
        invariant 0 <= k <= |heap.freeList| && freeBlocks == |FreeFrom(heap.mem[..], heap.starts, heap.freeList, k)|
      {
        k := k - 1;
        OneMoreFree(heap.mem[..], heap.starts, heap.freeList, k);
        freeBlocks := freeBlocks + heap.mem[heap.freeList[k]].size;
      }
      AllFree(heap.mem[..], heap.starts, heap.freeList);
      freeBytes := freeBlocks * SIZE_OF_HEAP_BLOCK;
    }

    /** One collection.  `pending` are the objects whose finalizers are now due, `linked` the weak
        references still alive. */
    method ExecuteGarbageCollection(roots: seq<Root>, finalizersAlive: seq<nat>, weakReferences: seq<nat>)
        returns (pending: seq<nat>, remaining: seq<nat>, linked: seq<nat>, freeBytes: nat, ghost es: seq<nat>)
      requires heap.mem.Length <= MAX_SIZE && HeapOk(heap.mem[..], heap.starts) && FreeDead(heap.mem[..], heap.starts)
      requires forall p: nat :: !Marked(heap.mem[..], heap.starts, p)
      requires forall root | root in roots :: RootOk(heap.mem[..], heap.starts, root)
      requires forall p | p in finalizersAlive :: Managed(heap.mem[..], heap.starts, p)
      requires forall p: nat ::
                 p in weakReferences <==> Live(heap.mem[..], heap.starts, p) && heap.mem[..][p].kind.WeakClass?
      modifies heap, heap.mem
      ensures heap.Valid()
      ensures forall p: nat :: !Marked(heap.mem[..], heap.starts, p)
      ensures
        var base, S := old(heap.mem[..]), old(heap.starts);
        var R := RootBlocks(base, S, roots);
        && Collected(base, S, R + Elements(pending), heap.mem[..], heap.starts)
        && (forall p | p in pending :: !Reachable(base, R, p))
        && (forall p | p in finalizersAlive :: Live(heap.mem[..], heap.starts, p))
        && multiset(pending) + multiset(remaining) == multiset(finalizersAlive)
      ensures forall p :: p in linked <==> p in weakReferences && Live(heap.mem[..], heap.starts, p)
      ensures freeBytes == |FreeCells(heap.mem[..], heap.starts)| * SIZE_OF_HEAP_BLOCK
      ensures
        var base, S := old(heap.mem[..]), old(heap.starts);
        WeakExact(base, S, RootBlocks(base, S, roots) + Elements(pending), es, heap.mem[..], heap.starts)
      ensures forall p: nat | Live(old(heap.mem[..]), old(heap.starts), p) && old(heap.mem[..])[p].flags.event ::
                Live(heap.mem[..], heap.starts, p)
      ensures forall root | root in roots ::
                NamedLives(old(heap.mem[..]), old(heap.starts), root, heap.mem[..], heap.starts)
      ensures forall p: nat | Live(heap.mem[..], heap.starts, p) ::
                FieldsLive(old(heap.mem[..]), heap.mem[..], heap.starts, p)
                    && WeakOnesLive(heap.mem[..], heap.starts, p)
    {
      ghost var base, S := heap.mem[..], heap.starts;
      var marker := new Marker(heap.mem, heap.starts);
      pending, remaining := marker.Mark(roots, finalizersAlive);
      ghost var R := RootBlocks(base, S, roots) + Elements(pending);
      MarkedHeapOk(base, S, heap.mem[..]);
      linked, es := Reclaim(weakReferences, marker.weakDelegatesReachable, base, R);
      UnmarkedAgain(base, S, R, heap.mem[..], heap.starts);
      NothingNamedIsLost(base, S, roots, R, heap.mem[..], heap.starts);
      var totalBytes;
      totalBytes, freeBytes := Heap_ComputeAliveVsDeadRatio();
    }

    /** Weak processing and sweep of the marked heap. */
    method Reclaim(weakReferences: seq<nat>, weakLists: seq<nat>, ghost base: Memory, ghost roots: set<nat>)
        returns (linked: seq<nat>, ghost es: seq<nat>)
      requires heap.mem.Length <= MAX_SIZE && HeapOk(base, heap.starts) && forall p: nat ::
                 !Marked(base, heap.starts, p)
      requires MarkedFrom(base, heap.starts, roots, heap.mem[..]) && WeakOk(heap.mem[..], heap.starts, weakLists)
      requires forall p: nat :: p in weakReferences <==> Live(base, heap.starts, p) && base[p].kind.WeakClass?
      modifies heap, heap.mem
      ensures heap.Valid()
      ensures Collected(base, old(heap.starts), roots, heap.mem[..], heap.starts)
      ensures WeakExact(base, old(heap.starts), roots, es, heap.mem[..], heap.starts)
      ensures forall p :: p in linked <==> p in weakReferences && Live(heap.mem[..], heap.starts, p)
    {
      ghost var S, m1 := heap.starts, heap.mem[..];
      WeakOnes(base, S, m1, weakReferences);
      linked := MarkWeak(weakReferences, m1);
      ghost var m2 := heap.mem[..];
      ghost var m3 := Sweep(weakLists, m1, m2);
      ghost var c := Cycle(base, S, roots, m1, m2, m3, heap.mem[..], heap.starts, weakReferences, weakLists);
      Concluded(c);
      es := c.Es();
    }
  }

  /** The whole result of a collection, from what its stages have done. */
  lemma {:induction false} Concluded(c: Cycle)
    requires HeapOk(c.base, c.starts) && (forall p: nat :: !Marked(c.base, c.starts, p))
               && MarkedFrom(c.base, c.starts, c.roots, c.m1)
    requires c.WeakDone() && Cleaned(c.m1, c.starts, c.m3) && Closed(c.m1, c.starts, c.m3)
    requires HC.Swept(c.m3, c.starts, c.swept, c.left) && Tiled(c.swept, c.left)
    requires forall p | p in c.weakReferences :: Live(c.m1, c.starts, p) && c.m1[p].kind.WeakClass?
    ensures Collected(c.base, c.starts, c.roots, c.swept, c.left)
              && WeakExact(c.base, c.starts, c.roots, c.Es(), c.swept, c.left)
    ensures forall p :: p in AliveOnes(c.m1, c.weakReferences) <==> p in c.weakReferences && Live(c.swept, c.left, p)
  {
    AllWeakSafe(c.m1, c.starts, c.weakReferences, c.weakLists, c.m2, c.m3);
    EntriesShaped(c.m1, c.starts, c.m2, c.weakLists);
    CollectedFrom(c.base, c.starts, c.roots, c.m1, c.m3, c.swept, c.left);
    WeakExactFrom(c);
    LinkedSurvive(c.base, c.starts, c.roots, c.m1, c.m3, c.swept, c.left, c.weakReferences);
  }

  /** The heap base with exact marks. */
  ghost predicate MarkedFrom(base: Memory, starts: set<nat>, roots: set<nat>, m1: Memory) {
    && SameGraph(base, m1) && FreeDead(m1, starts) && MarksExact(base, starts, roots, m1)
    && HeapOk(m1, starts) && Closed(m1, starts, m1)
  }

  lemma WeakOnes(base: Memory, starts: set<nat>, m1: Memory, weakReferences: seq<nat>)
    requires SameGraph(base, m1) && forall p: nat ::
               p in weakReferences <==> Live(base, starts, p) && base[p].kind.WeakClass?
    ensures forall p: nat :: p in weakReferences <==> Live(m1, starts, p) && m1[p].kind.WeakClass?
  {
  }

  // ---------------------------------------------------------------- kind by kind

  /** Whatever a root names lives. */
  ghost predicate NamedLives(base: Memory, starts: set<nat>, root: Root, m': Memory, starts': set<nat>) {
    forall q: nat | RootNames(base, starts, root, q) :: Live(m', starts', q)
  }

  /** The references through which the block at p keeps others alive are as they were, and name live blocks. */
  ghost predicate FieldsLive(base: Memory, m': Memory, starts': set<nat>, p: nat) {
    forall x, q: nat | Follows(base, p, x) && PointsTo(base, x, q) :: PointsTo(m', x, q) && Live(m', starts', q)
  }

  /** The target of a weak reference and the entries of a weak list are null or name live blocks. */
  ghost predicate WeakOnesLive(m': Memory, starts': set<nat>, p: nat)
    requires p < |m'|
  {
    && (m'[p].kind.WeakClass? ==> forall q: nat | PointsTo(m', p + 1, q) :: Live(m', starts', q))
    && (m'[p].kind.DelegateList? && m'[p].kind.weak ==>
          forall x, q: nat | p < x <= p + m'[p].kind.length && PointsTo(m', x, q) :: Live(m', starts', q))
  }

  /** After a collection event blocks, and what roots and survivors name, are live. */
  lemma {:induction false} NothingNamedIsLost(base: Memory, starts: set<nat>, roots: seq<Root>, R: set<nat>, m': Memory,
      starts': set<nat>)
    requires HeapOk(base, starts) && Collected(base, starts, R, m', starts') && RootBlocks(base, starts, roots) <= R
    requires forall root | root in roots :: RootOk(base, starts, root)
    ensures forall p: nat | Live(base, starts, p) && base[p].flags.event :: Live(m', starts', p)
    ensures forall root | root in roots :: NamedLives(base, starts, root, m', starts')
    ensures forall p: nat | Live(m', starts', p) :: FieldsLive(base, m', starts', p) && WeakOnesLive(m', starts', p)
  {
    forall root | root in roots ensures NamedLives(base, starts, root, m', starts') {
      forall q: nat | RootNames(base, starts, root, q) ensures Live(m', starts', q) {
        NamedIsLive(base, starts, root, q);
        if !base[q].IsEvent() { NamedIsReachable(base, starts, roots, R, root, q); }
      }
    }
    forall p: nat | Live(m', starts', p) ensures FieldsLive(base, m', starts', p) && WeakOnesLive(m', starts', p) {
      SurvivorNames(base, starts, R, m', starts', p);
    }
  }

  lemma {:induction false} NamedIsReachable(base: Memory, starts: set<nat>, roots: seq<Root>, R: set<nat>, root: Root,
      q: nat)
    requires RootBlocks(base, starts, roots) <= R && root in roots && RootRefers(base, starts, root, q) && q in starts
    ensures Reachable(base, R, q)
  {
    var i :| 0 <= i < |roots| && roots[i] == root;
    assert q in RootBlocks(base, starts, roots);
    ReachRoot(base, R, q);
  }

  lemma {:induction false} SurvivorNames(base: Memory, starts: set<nat>, R: set<nat>, m': Memory, starts': set<nat>,
      p: nat)
    requires HeapOk(base, starts) && Collected(base, starts, R, m', starts') && Live(m', starts', p)
    ensures FieldsLive(base, m', starts', p) && WeakOnesLive(m', starts', p)
  {
    assert Live(base, starts, p) && m'[p] == base[p];
    forall x, q: nat | Follows(base, p, x) && PointsTo(base, x, q) ensures PointsTo(m', x, q) && Live(m', starts', q) {
      FollowsFields(base, starts, p, x);
      assert KeptCell(base, starts, R, m', p, x);
      assert x in Fields(m', p) && BlockGraphOk(m', starts', p);
      assert FieldOk(m', starts', x);
    }
    assert WeakBlockOk(m', starts', p);
    forall x, q: nat | x in WeakCells(m', p) && PointsTo(m', x, q) ensures Live(m', starts', q) {
      assert WeakCellOk(m', starts', p, x);
    }
  }

  lemma {:induction false} ListEntry(m1: Memory, starts: set<nat>, m: Memory, p: nat, c: nat)
    requires HeapOk(m1, starts) && Cleaned(m1, starts, m)
    requires Live(m1, starts, p) && IsWeakList(m1[p]) && c in WeakCells(m1, p)
    ensures c < |m| && c !in starts
    ensures m[c].target == m1[c].target || m[c].target == Null
    ensures m1[c].target.To? ==>
      var d := m1[c].target.addr;
      && d + 1 < |m| && m[d + 1].kind == m1[d + 1].kind && m[d + 1].target == m1[d + 1].target
      && d in starts
      && (m[d + 1].kind.Reference? && m[d + 1].target.To? ==> m[d + 1].target.addr < |m|)
      && (Dead(m, Keeper(m1, p, c)) <==>
          m[d + 1].kind.Reference? && m[d + 1].target.To? && !m[m[d + 1].target.addr].IsAlive())
    ensures Dead(m, Keeper(m1, p, c)) ==> Dead(m1, Keeper(m1, p, c))
  {
    assert BlockOk(m1, starts, p) && WeakBlockOk(m1, starts, p) && WeakCellOk(m1, starts, p, c);
    if m1[c].target.To? {
      var d := m1[c].target.addr;
      assert BlockGraphOk(m1, starts, d);
      assert d + 1 in Fields(m1, d);
      assert FieldOk(m1, starts, d + 1);
      DelegateFieldKept(m1, starts, m, d);
    }
  }

  lemma {:induction false} DelegateFieldKept(m1: Memory, starts: set<nat>, m: Memory, d: nat)
    requires HeapOk(m1, starts) && Cleaned(m1, starts, m)
    requires Live(m1, starts, d) && m1[d].kind.DelegateHead? && d + 1 < |m1| && d + 1 !in starts
    ensures m[d + 1] == m1[d + 1]
  {
    assert BlockOk(m1, starts, d);
    assert BlockGraphOk(m1, starts, d);
    forall p: nat | Live(m1, starts, p) && d + 1 in WeakCells(m1, p) ensures p == d {
      assert BlockOk(m1, starts, p) && WeakBlockOk(m1, starts, p) && WeakCellOk(m1, starts, p, d + 1);
    }
    assert !MayBeNulled(m1, starts, d + 1);
  }

  lemma {:induction false} NoTarget(m1: Memory, starts: set<nat>, p: nat, x: nat)
    requires HeapOk(m1, starts) && p in starts && p < |m1| && (x == p || !m1[p].kind.WeakClass?) && p <= x < End(m1, p)
    ensures !IsTarget(m1, starts, x)
  {
    assert BlockOk(m1, starts, p);
    if IsTarget(m1, starts, x) { TargetInside(m1, starts, x); }
  }

  lemma {:induction false} TargetInside(m1: Memory, starts: set<nat>, x: nat)
    requires HeapOk(m1, starts) && IsTarget(m1, starts, x)
    ensures BlockOk(m1, starts, x - 1) && x < End(m1, x - 1)
  {
    assert BlockOk(m1, starts, x - 1) && WeakBlockOk(m1, starts, x - 1);
    assert x in WeakCells(m1, x - 1) && WeakCellOk(m1, starts, x - 1, x);
  }

  lemma {:induction false} HeaderKept(m1: Memory, starts: set<nat>, m: Memory, p: nat)
    requires HeapOk(m1, starts) && OnlyTargets(m1, starts, m) && p in starts && p < |m1|
    ensures m[p] == m1[p]
  {
    assert BlockOk(m1, starts, p);
    NoTarget(m1, starts, p, p);
  }

  /** The entries of marked weak lists, when the weak references have been dealt with. */
  lemma {:induction false} EntriesShaped(m1: Memory, starts: set<nat>, m2: Memory, lists: seq<nat>)
    requires HeapOk(m1, starts) && Cleaned(m1, starts, m2) && OnlyTargets(m1, starts, m2)
    requires Once(lists) && forall p | p in lists :: Marked(m1, starts, p) && IsWeakList(m1[p])
    ensures Entries(m2, starts, AllEntries(m1, lists))
  {
    var es := AllEntries(m1, lists);
    forall p | p in lists ensures RoomForEntries(m1, starts, p) {
      assert WeakBlockOk(m1, starts, p) && BlockOk(m1, starts, p);
      if m1[p].kind.length > 0 { assert WeakCellOk(m1, starts, p, p + m1[p].kind.length); }
    }
    EntriesOnce(m1, starts, lists);
    forall j: nat | j < |es| ensures EntryShape(m2, starts, es[j]) {
      WhoseEntry(m1, lists, es[j]);
      var p :| p in lists && es[j] in EntriesOf(m1, p);
      EntryIsWeakCell(m1, p, es[j]);
      EntryShaped(m1, starts, m2, p, es[j]);
    }
  }

  lemma {:induction false} EntryShaped(m1: Memory, starts: set<nat>, m2: Memory, p: nat, c: nat)
    requires HeapOk(m1, starts) && Cleaned(m1, starts, m2) && OnlyTargets(m1, starts, m2)
    requires Live(m1, starts, p) && IsWeakList(m1[p]) && c in WeakCells(m1, p)
    ensures EntryShape(m2, starts, c) && c < |m1| && m2[c] == m1[c] && BoundObject(m2, c) == BoundObject(m1, c)
  {
    assert BlockOk(m1, starts, p) && WeakBlockOk(m1, starts, p) && WeakCellOk(m1, starts, p, c);
    NoTarget(m1, starts, p, c);
    if m1[c].target.To? {
      var d := m1[c].target.addr;
      assert BlockGraphOk(m1, starts, d);
      assert d + 1 in Fields(m1, d);
      assert FieldOk(m1, starts, d + 1);
      DelegateFieldKept(m1, starts, m2, d);
    }
  }

  /** What an entry still to come is bound to has not changed. */
  lemma {:induction false} BoundAsBefore(m1: Memory, starts: set<nat>, m2: Memory, m: Memory, es: seq<nat>, k: nat,
      p: nat)
    requires HeapOk(m1, starts) && Cleaned(m1, starts, m2) && OnlyTargets(m1, starts, m2) && Cleaned(m1, starts, m)
    requires Live(m1, starts, p) && IsWeakList(m1[p]) && k < |es| && es[k] in WeakCells(m1, p)
    requires Decided(m2, starts, m, es, k)
    ensures es[k] < |m| && BoundObject(m, es[k]) == BoundObject(m2, es[k])
  {
    EntryShaped(m1, starts, m2, p, es[k]);
    assert EntryUntouched(m2, m, es, k);
    if m1[es[k]].target.To? { ListEntry(m1, starts, m, p, es[k]); }
  }

  /** The state while the weak lists are cleared: the first k entries have been dealt with. */
  ghost predicate Clearing(m1: Memory, starts: set<nat>, m2: Memory, m: Memory, es: seq<nat>, k: nat) {
    && HeapOk(m1, starts) && Cleaned(m1, starts, m2) && OnlyTargets(m1, starts, m2) && Entries(m2, starts, es)
    && Cleaned(m1, starts, m) && Closed(m1, starts, m) && Decided(m2, starts, m, es, k)
  }

  lemma KindKept(m1: Memory, starts: set<nat>, m: Memory, p: nat)
    requires Cleaned(m1, starts, m) && p in starts && p < |m1|
    ensures m[p].kind == m1[p].kind
  {
  }

  /** One turn keeps the marks closed and deals with one more entry. */
  lemma {:induction false} ClearStep(m1: Memory, starts: set<nat>, m2: Memory, m: Memory, es: seq<nat>, k: nat, p: nat)
    requires Clearing(m1, starts, m2, m, es, k)
    requires Marked(m1, starts, p) && IsWeakList(m1[p]) && k < |es| && es[k] in WeakCells(m1, p)
    ensures TurnOk(m, es[k]) && Clearing(m1, starts, m2, Turned(m, es[k], BoundObject(m, es[k])), es, k + 1)
  {
    BoundAsBefore(m1, starts, m2, m, es, k, p);
    DecideStep(m2, starts, m, es, k);
    TurnCleans(m1, starts, m, p, es[k]);
  }

  lemma {:induction false} TurnCleans(m1: Memory, starts: set<nat>, m: Memory, p: nat, c: nat)
    requires HeapOk(m1, starts) && Cleaned(m1, starts, m) && Closed(m1, starts, m)
    requires Marked(m1, starts, p) && IsWeakList(m1[p]) && c in WeakCells(m1, p)
    ensures TurnOk(m, c)
    ensures var m' := Turned(m, c, BoundObject(m, c)); Cleaned(m1, starts, m') && Closed(m1, starts, m')
  {
    ListEntry(m1, starts, m, p, c);
    if m[c].target.To? {
      var d := m[c].target.addr;
      if m[d + 1].kind.Reference? && m[d + 1].target.To? && !m[m[d + 1].target.addr].IsAlive() {
        NullStep(m1, starts, m, p, c);
      } else {
        ReviveStep(m1, starts, m, p, c, d);
      }
    }
  }

  lemma {:induction false} WeakTarget(m1: Memory, starts: set<nat>, m: Memory, p: nat)
    requires HeapOk(m1, starts) && Cleaned(m1, starts, m) && OnlyTargets(m1, starts, m)
    requires Live(m1, starts, p) && m1[p].kind.WeakClass?
    ensures p + 1 < |m| && p + 1 in WeakCells(m1, p) && p + 1 !in starts && IsTarget(m1, starts, p + 1)
    ensures m[p + 1].target == m1[p + 1].target || (m[p + 1].target == Null && Dead(m1, m1[p + 1].target))
    ensures m1[p + 1].target.To? ==>
              m1[p + 1].target.addr < |m| && m[m1[p + 1].target.addr] == m1[m1[p + 1].target.addr]
    ensures Keeper(m1, p, p + 1) == m1[p + 1].target
  {
    assert p + 1 in WeakCells(m1, p);
    assert BlockOk(m1, starts, p) && WeakBlockOk(m1, starts, p) && WeakCellOk(m1, starts, p, p + 1);
    if m1[p + 1].target.To? { HeaderKept(m1, starts, m, m1[p + 1].target.addr); }
    if m[p + 1] != m1[p + 1] {
      var q: nat :| Live(m1, starts, q) && p + 1 in WeakCells(m1, q) && Dead(m1, Keeper(m1, q, p + 1));
      assert BlockOk(m1, starts, q) && WeakBlockOk(m1, starts, q) && WeakCellOk(m1, starts, q, p + 1);
    }
  }

  /** No entry that is left, and no target of a living weak reference, is dead. */
  lemma {:induction false} AllWeakSafe(m1: Memory, starts: set<nat>, weakReferences: seq<nat>, weakLists: seq<nat>,
      m2: Memory, m3: Memory)
    requires HeapOk(m1, starts) && OnlyTargets(m1, starts, m2)
    requires forall p: nat :: Live(m1, starts, p) && m1[p].kind.WeakClass? ==> p in weakReferences
    requires WeakOk(m1, starts, weakLists)
    requires TargetsDecided(m1, m2, weakReferences)
    requires Decided(m2, starts, m3, AllEntries(m1, weakLists), |AllEntries(m1, weakLists)|)
    ensures forall p: nat, c | Marked(m1, starts, p) && c in WeakCells(m1, p) :: WeakCellSafe(m3, c)
  {
    forall p: nat, c | Marked(m1, starts, p) && c in WeakCells(m1, p) ensures WeakCellSafe(m3, c) {
      WeakSafeAt(m1, starts, weakLists, m2, m3, p, c);
    }
  }

  lemma {:induction false} WeakSafeAt(m1: Memory, starts: set<nat>, weakLists: seq<nat>, m2: Memory, m3: Memory, p: nat,
      c: nat)
    requires HeapOk(m1, starts) && OnlyTargets(m1, starts, m2) && WeakOk(m1, starts, weakLists)
    requires Decided(m2, starts, m3, AllEntries(m1, weakLists), |AllEntries(m1, weakLists)|)
    requires Marked(m1, starts, p) && c in WeakCells(m1, p) && (m1[p].kind.WeakClass? ==> TargetDecided(m1, m2, p))
    ensures WeakCellSafe(m3, c)
  {
    if m1[p].kind.WeakClass? {
      TargetSafe(m1, starts, weakLists, m2, m3, p);
    } else {
      EntrySafe(m1, starts, weakLists, m2, m3, p, c);
    }
  }

  lemma {:induction false} TargetSafe(m1: Memory, starts: set<nat>, weakLists: seq<nat>, m2: Memory, m3: Memory, p: nat)
    requires HeapOk(m1, starts) && OnlyTargets(m1, starts, m2) && WeakOk(m1, starts, weakLists)
    requires Marked(m1, starts, p) && m1[p].kind.WeakClass? && TargetDecided(m1, m2, p)
    requires Decided(m2, starts, m3, AllEntries(m1, weakLists), |AllEntries(m1, weakLists)|)
    ensures p + 1 < |m3| && m3[p + 1].target == m2[p + 1].target && WeakCellSafe(m3, p + 1)
  {
    assert WeakBlockOk(m1, starts, p) && WeakCellOk(m1, starts, p, p + 1) && BlockOk(m1, starts, p);
    assert IsTarget(m1, starts, p + 1);
    if p + 1 in AllEntries(m1, weakLists) { EntryNoTarget(m1, starts, weakLists, p + 1); }
    if m2[p + 1].target.To? {
      var q := m2[p + 1].target.addr;
      HeaderKept(m1, starts, m2, q);
      assert AliveAsKept(m2, m3, AllEntries(m1, weakLists), |AllEntries(m1, weakLists)|, q);
    }
  }

  /** An entry of a weak list is no target of a weak reference. */
  lemma {:induction false} EntryNoTarget(m1: Memory, starts: set<nat>, weakLists: seq<nat>, c: nat)
    requires HeapOk(m1, starts) && WeakOk(m1, starts, weakLists) && c in AllEntries(m1, weakLists)
    ensures !IsTarget(m1, starts, c)
  {
    WhoseEntry(m1, weakLists, c);
    var q :| q in weakLists && c in EntriesOf(m1, q);
    assert WeakBlockOk(m1, starts, q) && WeakCellOk(m1, starts, q, c) && BlockOk(m1, starts, q);
    NoTarget(m1, starts, q, c);
  }

  lemma {:induction false} EntrySafe(m1: Memory, starts: set<nat>, weakLists: seq<nat>, m2: Memory, m3: Memory, p: nat,
      c: nat)
    requires HeapOk(m1, starts) && OnlyTargets(m1, starts, m2) && WeakOk(m1, starts, weakLists)
    requires p in weakLists && c in WeakCells(m1, p)
    requires Decided(m2, starts, m3, AllEntries(m1, weakLists), |AllEntries(m1, weakLists)|)
    ensures WeakCellSafe(m3, c)
  {
    var es := AllEntries(m1, weakLists);
    assert WeakBlockOk(m1, starts, p) && WeakCellOk(m1, starts, p, c);
    assert EntriesOf(m1, p)[c - p - 1] == c;
    WhoseEntry(m1, weakLists, c);
    var k :| 0 <= k < |es| && es[k] == c;
    assert EntryDecided(m2, m3, es, k);
    NoTarget(m1, starts, p, c);
    if m3[c].target.To? {
      assert KeptBefore(m3, es, |es|, m3[c].target.addr);
      assert AliveAsKept(m2, m3, es, |es|, m3[c].target.addr);
    }
  }

  lemma UnmarkedAgain(base: Memory, starts: set<nat>, roots: set<nat>, m': Memory, starts': set<nat>)
    requires Collected(base, starts, roots, m', starts') && forall p: nat :: !Marked(base, starts, p)
    ensures forall p: nat :: !Marked(m', starts', p)
  {
    forall p: nat ensures !Marked(m', starts', p) {
      assert !Marked(base, starts, p);
    }
  }
}
