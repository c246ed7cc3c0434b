/** Compaction of one cluster: `Heap_Compact` and `Heap_Relocate`. */
module Compaction {
  import opened HeapModel
  import opened Relocation
  import opened CompactionSteps
  import HC = HeapCluster

  // ------------------------------------------------------------ one batch: blocks moved, pointers not yet rewritten

  ghost predicate CellCopied(m: Memory, a: nat, m': Memory, b: nat, k: nat) {
    a + k < |m| && b + k < |m'| && m'[b + k] == m[a + k]
  }

  /** The block at a, cell for cell, is found at b. */
  ghost predicate CopyOf(m: Memory, a: nat, m': Memory, b: nat) {
    && a < |m| && a + m[a].size <= |m| && b + m[a].size <= |m'|
    && forall k: nat | k < m[a].size :: CellCopied(m, a, m', b, k)
  }

  ghost predicate MovedTo(f: Memory, startsF: set<nat>, t: seq<RelocationRegion>, m: Memory, starts: set<nat>, a: nat)
    requires a < |f|
  {
    var b := Lookup(t, a);
    && Live(m, starts, b) && CopyOf(f, a, m, b)
    && b <= a && (f[a].IsUnmovable() ==> b == a)
  }

  ghost predicate ComesFrom(f: Memory, startsF: set<nat>, t: seq<RelocationRegion>, b: nat) {
    exists a: nat :: Live(f, startsF, a) && Lookup(t, a) == b
  }

  /** Movable blocks keep their order. */
  ghost predicate OrderKept(f: Memory, startsF: set<nat>, t: seq<RelocationRegion>) {
    forall a1: nat, a2: nat {:trigger InOrder(t, a1, a2)}
      | Live(f, startsF, a1) && Live(f, startsF, a2) && a1 < a2 && !f[a1].IsUnmovable() && !f[a2].IsUnmovable() ::
          InOrder(t, a1, a2)
  }

  ghost predicate InOrder(t: seq<RelocationRegion>, a1: nat, a2: nat) {
    Lookup(t, a1) < Lookup(t, a2)
  }

  /** Since memory f, the live blocks have moved as the table says and have not changed. */
  ghost predicate BatchMoved(f: Memory, startsF: set<nat>, t: seq<RelocationRegion>, m: Memory, starts: set<nat>) {
    && |m| == |f|
    && TableOk(t) && (forall i | 0 <= i < |t| :: t[i].destination < t[i].start)
    && (forall a: nat {:trigger MovedTo(f, startsF, t, m, starts, a)} | Live(f, startsF, a) ::
        MovedTo(f, startsF, t, m, starts, a))
    && (forall b: nat {:trigger ComesFrom(f, startsF, t, b)} | Live(m, starts, b) :: ComesFrom(f, startsF, t, b))
    && OrderKept(f, startsF, t)
  }

  lemma {:induction false} LookupAppend(t: seq<RelocationRegion>, r: RelocationRegion, x: nat)
    ensures Lookup(t + [r], x) == if Covers(r, x) then Shift(r, x) else Lookup(t, x)
  {
    assert (t + [r])[..|t|] == t;
  }

  /** No address below s leaves the area below s, and none above is touched. */
  lemma {:induction false} LookupBelow(t: seq<RelocationRegion>, s: nat, x: nat)
    requires TableOk(t)
    requires forall i | 0 <= i < |t| :: t[i].destination < t[i].start && t[i].end <= s
    ensures if x < s then Lookup(t, x) < s else Lookup(t, x) == x
  {
    if i :| 0 <= i < |t| && Covers(t[i], x) {
      LookupHit(t, i, x);
    } else {
      LookupMiss(t, x);
    }
  }

  /** Appending the region of the latest step composes its move with the batch so far. */
  lemma {:induction false} LookupThenShift(t: seq<RelocationRegion>, r: RelocationRegion, x: nat)
    requires TableOk(t)
    requires forall i | 0 <= i < |t| :: t[i].destination < t[i].start && t[i].end <= r.start
    ensures Lookup(t + [r], x) == Shift(r, Lookup(t, x))
  {
    LookupAppend(t, r, x);
    LookupBelow(t, r.start, x);
  }

  lemma {:induction false} AppendOk(t: seq<RelocationRegion>, r: RelocationRegion)
    requires TableOk(t) && r.Fits() && r.destination < r.start
    requires forall i | 0 <= i < |t| :: t[i].destination < t[i].start && t[i].end <= r.start
    ensures TableOk(t + [r]) && forall i | 0 <= i < |t + [r]| :: (t + [r])[i].destination < (t + [r])[i].start
  {
  }

  /** No movable live block starts between lo and hi. */
  ghost predicate NoMovable(m: Memory, starts: set<nat>, lo: nat, hi: nat) {
    forall p: nat | Live(m, starts, p) && lo <= p < hi :: m[p].IsUnmovable()
  }

  ghost function Region(s: nat, d: nat, n: nat): RelocationRegion {
    RelocationRegion(s, s + n, d)
  }

  ghost predicate TableBelow(t: seq<RelocationRegion>, s: nat) {
    forall i | 0 <= i < |t| :: t[i].destination < t[i].start && t[i].end <= s
  }

  /** One live block across a step: where it is, and that it is unchanged. */
  lemma {:induction false} BlockAcross(m: Memory, starts: set<nat>, m': Memory, starts': set<nat>, s: nat, d: nat,
      n: nat, b: nat)
    requires Tiled(m, starts) && MovableRun(m, starts, s, n) && RunMoved(m, starts, m', starts', s, d, n)
    requires Live(m, starts, b)
    ensures Live(m', starts', Shift(Region(s, d, n), b)) && CopyOf(m, b, m', Shift(Region(s, d, n), b))
    ensures Shift(Region(s, d, n), b) <= b && (m[b].IsUnmovable() ==> Shift(Region(s, d, n), b) == b)
  {
    assert BlockOk(m, starts, b);
    if s <= b < s + n {
      RunHolds(m, starts, s, n, b, b);
      assert LiveOnceMoved(m, starts, s, d, n, false, b - (s - d));
      var b' := b - (s - d);
      forall k: nat | k < m[b].size ensures CellCopied(m, b, m', b', k) {
        assert m'[(b + k) - (s - d)] == m[b + k];
      }
    } else {
      assert LiveOnceMoved(m, starts, s, d, n, false, b);
      assert SameBlock(m, m', b);
      forall k: nat | k < m[b].size ensures CellCopied(m, b, m', b, k) {
      }
    }
  }

  lemma {:induction false} MovedAgain(f: Memory, startsF: set<nat>, t: seq<RelocationRegion>, m: Memory,
      starts: set<nat>, m': Memory, starts': set<nat>, s: nat, d: nat, n: nat, a: nat)
    requires Tiled(m, starts) && MovableRun(m, starts, s, n) && RunMoved(m, starts, m', starts', s, d, n)
    requires TableOk(t) && TableBelow(t, s) && a < |f| && 1 <= f[a].size && MovedTo(f, startsF, t, m, starts, a)
    ensures MovedTo(f, startsF, t + [Region(s, d, n)], m', starts', a)
  {
    var b := Lookup(t, a);
    LookupThenShift(t, Region(s, d, n), a);
    BlockAcross(m, starts, m', starts', s, d, n, b);
    assert CellCopied(f, a, m, b, 0);
    var b' := Shift(Region(s, d, n), b);
    forall k: nat | k < f[a].size ensures CellCopied(f, a, m', b', k) {
      assert CellCopied(f, a, m, b, k) && CellCopied(m, b, m', b', k);
    }
  }

  lemma {:induction false} ComesAgain(f: Memory, startsF: set<nat>, t: seq<RelocationRegion>, m: Memory,
      starts: set<nat>, m': Memory, starts': set<nat>, s: nat, d: nat, n: nat, b: nat)
    requires RunMoved(m, starts, m', starts', s, d, n) && TableOk(t) && TableBelow(t, s)
    requires forall b: nat | Live(m, starts, b) :: ComesFrom(f, startsF, t, b)
    requires Live(m', starts', b)
    ensures ComesFrom(f, startsF, t + [Region(s, d, n)], b)
  {
    assert LiveOnceMoved(m, starts, s, d, n, false, b);
    var c := if Live(m, starts, b) && !(s <= b < s + n) then b else b + (s - d);
    assert ComesFrom(f, startsF, t, c);
    var a: nat :| Live(f, startsF, a) && Lookup(t, a) == c;
    LookupThenShift(t, Region(s, d, n), a);
  }

  lemma {:induction false} OrderAgain(f: Memory, startsF: set<nat>, t: seq<RelocationRegion>, m: Memory,
      starts: set<nat>, s: nat, d: nat, n: nat, a1: nat, a2: nat)
    requires BatchMoved(f, startsF, t, m, starts) && Tiled(f, startsF)
    requires TableBelow(t, s) && d < s && NoMovable(m, starts, d, s)
    requires Live(f, startsF, a1) && Live(f, startsF, a2) && a1 < a2 && !f[a1].IsUnmovable() && !f[a2].IsUnmovable()
    ensures InOrder(t + [Region(s, d, n)], a1, a2)
  {
    LookupThenShift(t, Region(s, d, n), a1);
    LookupThenShift(t, Region(s, d, n), a2);
    assert MovedTo(f, startsF, t, m, starts, a1);
    assert BlockOk(f, startsF, a1);
    assert CellCopied(f, a1, m, Lookup(t, a1), 0);
    assert InOrder(t, a1, a2);
  }

  /** A step keeps the batch invariant, with its region appended to the table. */
  lemma {:induction false} BatchStep(f: Memory, startsF: set<nat>, t: seq<RelocationRegion>, m: Memory,
      starts: set<nat>, m': Memory, starts': set<nat>, s: nat, d: nat, n: nat)
    requires BatchMoved(f, startsF, t, m, starts) && Tiled(f, startsF) && Tiled(m, starts) && |m| <= MAX_SIZE
    requires MovableRun(m, starts, s, n) && RunMoved(m, starts, m', starts', s, d, n)
    requires TableBelow(t, s) && NoMovable(m, starts, d, s)
    ensures BatchMoved(f, startsF, t + [Region(s, d, n)], m', starts')
  {
    var t' := t + [Region(s, d, n)];
    AppendOk(t, Region(s, d, n));
    forall a: nat | Live(f, startsF, a) ensures MovedTo(f, startsF, t', m', starts', a) {
      assert BlockOk(f, startsF, a);
      MovedAgain(f, startsF, t, m, starts, m', starts', s, d, n, a);
    }
    forall b: nat | Live(m', starts', b) ensures ComesFrom(f, startsF, t', b) {
      ComesAgain(f, startsF, t, m, starts, m', starts', s, d, n, b);
    }
    forall a1: nat, a2: nat | Live(f, startsF, a1) && Live(f, startsF, a2) && a1 < a2 && !f[a1].IsUnmovable()
        && !f[a2].IsUnmovable()
      ensures InOrder(t', a1, a2)
    {
      OrderAgain(f, startsF, t, m, starts, s, d, n, a1, a2);
    }
  }

  // ---------------------------------------------------------------- whole compactions: moved and rewritten

  /** Every reference in a live block names a live block. */
  ghost predicate PointersOk(m: Memory, starts: set<nat>) {
    forall p: nat, x | Live(m, starts, p) && p <= x < p + m[p].size && x < |m| && m[x].kind.Reference?
        && m[x].target.To?
      :: Live(m, starts, m[x].target.addr)
  }

  function RenamedRef(fwd: map<nat, nat>, r: Ref): Ref {
    if r.To? && r.addr in fwd then To(fwd[r.addr]) else r
  }

  function Renamed(fwd: map<nat, nat>, c: Cell): Cell {
    if c.kind.Reference? then c.(target := RenamedRef(fwd, c.target)) else c
  }

  ghost predicate CellRenamed(m: Memory, a: nat, m': Memory, b: nat, fwd: map<nat, nat>, k: nat) {
    a + k < |m| && b + k < |m'| && m'[b + k] == Renamed(fwd, m[a + k])
  }

  /** The block at a is found at b, its references renamed by fwd. */
  ghost predicate RenamedCopy(m: Memory, a: nat, m': Memory, b: nat, fwd: map<nat, nat>) {
    && a < |m| && b < |m'|
    && forall k: nat | k < m[a].size :: CellRenamed(m, a, m', b, fwd, k)
  }

  /** The heaps hold the same object graph: fwd maps every live block to its new address, one to
      one and onto; sizes and data are kept, and every reference is renamed by the same map.
      Blocks never move up, unmovable ones stay, movable ones keep their order. */
  ghost predicate SameObjects(m0: Memory, starts0: set<nat>, fwd: map<nat, nat>, m: Memory, starts: set<nat>) {
    && |m| == |m0|
    && (forall a :: a in fwd <==> Live(m0, starts0, a))
    && (forall a | a in fwd :: Live(m, starts, fwd[a]) && RenamedCopy(m0, a, m, fwd[a], fwd))
    && (forall b: nat | Live(m, starts, b) :: exists a :: a in fwd && fwd[a] == b)
    && (forall a | a in fwd :: a < |m0| && fwd[a] <= a && (m0[a].IsUnmovable() ==> fwd[a] == a))
    && (forall a1, a2 | a1 in fwd && a2 in fwd && a1 < a2 && a2 < |m0| && !m0[a1].IsUnmovable()
        && !m0[a2].IsUnmovable() :: fwd[a1] < fwd[a2])
  }

  /** The map is injective on all live blocks, movable or not. */
  lemma {:induction false} SameObjectsInjective(m0: Memory, starts0: set<nat>, fwd: map<nat, nat>, m: Memory,
      starts: set<nat>, a1: nat, a2: nat)
    requires Tiled(m0, starts0) && SameObjects(m0, starts0, fwd, m, starts)
    requires a1 in fwd && a2 in fwd && fwd[a1] == fwd[a2]
    ensures a1 == a2
  {
    assert BlockOk(m0, starts0, a1) && BlockOk(m0, starts0, a2);
    assert CellRenamed(m0, a1, m, fwd[a1], fwd, 0) && CellRenamed(m0, a2, m, fwd[a2], fwd, 0);
  }

  /** Cell k of block a is cell k of the block at its new address; if it refers to a block that lives, it
      refers to the new address of that block. */
  ghost predicate Carried(m0: Memory, fwd: map<nat, nat>, m: Memory, a: nat, k: nat)
    requires a in fwd
  {
    && a + k < |m0| && fwd[a] + k < |m|
    && var c, d := m0[a + k], m[fwd[a] + k];
    && d.kind == c.kind && d.flags == c.flags && d.size == c.size
    && d.target ==
         if c.kind.Reference? && c.target.To? && c.target.addr in fwd then To(fwd[c.target.addr]) else c.target
  }

  ghost predicate AllCarried(m0: Memory, fwd: map<nat, nat>, m: Memory) {
    forall a, k: nat | a in fwd && a < |m0| && k < m0[a].size :: Carried(m0, fwd, m, a, k)
  }

  lemma {:induction false} EverythingCarried(m0: Memory, starts0: set<nat>, fwd: map<nat, nat>, m: Memory,
      starts: set<nat>)
    requires SameObjects(m0, starts0, fwd, m, starts)
    ensures AllCarried(m0, fwd, m)
  {
    forall a, k: nat | a in fwd && a < |m0| && k < m0[a].size ensures Carried(m0, fwd, m, a, k) {
      assert RenamedCopy(m0, a, m, fwd[a], fwd);
      assert CellRenamed(m0, a, m, fwd[a], fwd, k);
    }
  }

  function RelocatedCell(t: seq<RelocationRegion>, c: Cell): Cell {
    if c.kind.Reference? then c.(target := RelocatedRef(t, c.target)) else c
  }

  /** Every reference in a live block has been looked up in the table; nothing else has changed. */
  ghost predicate Rewritten(m: Memory, starts: set<nat>, t: seq<RelocationRegion>, m': Memory) {
    && |m'| == |m|
    && (forall p: nat, x | Live(m, starts, p) && p <= x < p + m[p].size && x < |m| :: m'[x] == RelocatedCell(t, m[x]))
    && (forall p: nat, x | HC.IsFreeStart(m, starts, p) && p <= x < p + m[p].size && x < |m| :: m'[x] == m[x])
  }

  ghost function Flushed(fwd: map<nat, nat>, t: seq<RelocationRegion>): map<nat, nat> {
    map a | a in fwd :: Lookup(t, fwd[a])
  }

  lemma {:induction false} RewrittenBlocks(m: Memory, starts: set<nat>, t: seq<RelocationRegion>, m': Memory)
    requires Tiled(m, starts) && Rewritten(m, starts, t, m')
    ensures forall p | p in starts && p < |m| ::
              m'[p].kind == m[p].kind && m'[p].flags == m[p].flags && m'[p].size == m[p].size
    ensures forall p: nat :: Live(m', starts, p) <==> Live(m, starts, p)
    ensures Tiled(m', starts)
  {
    forall p | p in starts && p < |m|
      ensures m'[p].kind == m[p].kind && m'[p].flags == m[p].flags && m'[p].size == m[p].size
    {
      assert BlockOk(m, starts, p);
      assert Live(m, starts, p) || HC.IsFreeStart(m, starts, p);
    }
    forall p | p in starts ensures BlockOk(m', starts, p) {
      assert BlockOk(m, starts, p);
    }
  }

  lemma {:induction false} FlushedCell(m0: Memory, starts0: set<nat>, fwd: map<nat, nat>, f: Memory, startsF: set<nat>,
      t: seq<RelocationRegion>, m: Memory, starts: set<nat>, m': Memory, a: nat, k: nat)
    requires SameObjects(m0, starts0, fwd, f, startsF) && PointersOk(m0, starts0)
    requires a in fwd && a < |m0| && k < m0[a].size
    requires Tiled(m, starts) && MovedToFor(f, startsF, t, m, starts, fwd[a]) && f[fwd[a]].size == m0[a].size
    requires Rewritten(m, starts, t, m')
    ensures CellRenamed(m0, a, m', Lookup(t, fwd[a]), Flushed(fwd, t), k)
  {
    var b := fwd[a];
    var c := Lookup(t, b);
    assert CellRenamed(m0, a, f, b, fwd, k);
    assert CellCopied(f, b, m, c, k);
    assert BlockOk(m, starts, c);
    assert CellCopied(f, b, m, c, 0);
    assert m'[c + k] == RelocatedCell(t, m[c + k]);
    var c0 := m0[a + k];
    if c0.kind.Reference? && c0.target.To? {
      assert Live(m0, starts0, a);
      assert Live(m0, starts0, c0.target.addr);
      assert c0.target.addr in fwd;
    }
  }

  ghost predicate MovedToFor(f: Memory, startsF: set<nat>, t: seq<RelocationRegion>, m: Memory, starts: set<nat>,
      a: nat)
  {
    a < |f| && 1 <= f[a].size && MovedTo(f, startsF, t, m, starts, a)
  }

  /** Flushing the table turns the batch's moves into part of the object map. */
  lemma {:induction false} FlushStep(m0: Memory, starts0: set<nat>, fwd: map<nat, nat>, f: Memory, startsF: set<nat>,
      t: seq<RelocationRegion>, m: Memory, starts: set<nat>, m': Memory)
    requires Tiled(m0, starts0) && Tiled(f, startsF) && Tiled(m, starts) && PointersOk(m0, starts0)
    requires SameObjects(m0, starts0, fwd, f, startsF) && BatchMoved(f, startsF, t, m, starts)
    requires Rewritten(m, starts, t, m')
    ensures SameObjects(m0, starts0, Flushed(fwd, t), m', starts)
  {
    var fwd' := Flushed(fwd, t);
    RewrittenBlocks(m, starts, t, m');
    forall a | a in fwd'
      ensures Live(m', starts, fwd'[a]) && RenamedCopy(m0, a, m', fwd'[a], fwd') && a < |m0| && fwd'[a] <= a
                && (m0[a].IsUnmovable() ==> fwd'[a] == a)
    {
      FlushedBlock(m0, starts0, fwd, f, startsF, t, m, starts, m', a);
    }
    forall b: nat | Live(m', starts, b) ensures exists a :: a in fwd' && fwd'[a] == b {
      var a := FlushedOnto(m0, starts0, fwd, f, startsF, t, m, starts, b);
    }
    forall a1, a2 | a1 in fwd' && a2 in fwd' && a1 < a2 && a2 < |m0| && !m0[a1].IsUnmovable() && !m0[a2].IsUnmovable()
      ensures fwd'[a1] < fwd'[a2]
    {
      FlushedOrder(m0, starts0, fwd, f, startsF, t, m, starts, a1, a2);
    }
  }

  lemma {:induction false} FlushedOnto(m0: Memory, starts0: set<nat>, fwd: map<nat, nat>, f: Memory, startsF: set<nat>,
      t: seq<RelocationRegion>, m: Memory, starts: set<nat>, b: nat) returns (a: nat)
    requires SameObjects(m0, starts0, fwd, f, startsF) && BatchMoved(f, startsF, t, m, starts) && Live(m, starts, b)
    ensures a in Flushed(fwd, t) && Flushed(fwd, t)[a] == b
  {
    assert ComesFrom(f, startsF, t, b);
    var c: nat :| Live(f, startsF, c) && Lookup(t, c) == b;
    a :| a in fwd && fwd[a] == c;
  }

  lemma {:induction false} FlushedOrder(m0: Memory, starts0: set<nat>, fwd: map<nat, nat>, f: Memory, startsF: set<nat>,
      t: seq<RelocationRegion>, m: Memory, starts: set<nat>, a1: nat, a2: nat)
    requires Tiled(m0, starts0) && SameObjects(m0, starts0, fwd, f, startsF) && BatchMoved(f, startsF, t, m, starts)
    requires a1 in fwd && a2 in fwd && a1 < a2 && a2 < |m0| && !m0[a1].IsUnmovable() && !m0[a2].IsUnmovable()
    ensures Lookup(t, fwd[a1]) < Lookup(t, fwd[a2])
  {
    SameFlags(m0, starts0, fwd, f, startsF, a1);
    SameFlags(m0, starts0, fwd, f, startsF, a2);
    assert fwd[a1] < fwd[a2];
    assert InOrder(t, fwd[a1], fwd[a2]);
  }

  lemma {:induction false} SameFlags(m0: Memory, starts0: set<nat>, fwd: map<nat, nat>, f: Memory, startsF: set<nat>,
      a: nat)
    requires Tiled(m0, starts0) && SameObjects(m0, starts0, fwd, f, startsF) && a in fwd
    ensures a < |m0| && 1 <= m0[a].size && fwd[a] < |f|
    ensures f[fwd[a]].flags == m0[a].flags && f[fwd[a]].size == m0[a].size
  {
    assert BlockOk(m0, starts0, a);
    assert CellRenamed(m0, a, f, fwd[a], fwd, 0);
  }

  lemma {:induction false} FlushedBlock(m0: Memory, starts0: set<nat>, fwd: map<nat, nat>, f: Memory, startsF: set<nat>,
      t: seq<RelocationRegion>, m: Memory, starts: set<nat>, m': Memory, a: nat)
    requires Tiled(m0, starts0) && Tiled(f, startsF) && Tiled(m, starts) && PointersOk(m0, starts0)
    requires SameObjects(m0, starts0, fwd, f, startsF) && BatchMoved(f, startsF, t, m, starts)
    requires Rewritten(m, starts, t, m') && a in fwd
    ensures
      var fwd' := Flushed(fwd, t);
      Live(m', starts, fwd'[a]) && RenamedCopy(m0, a, m', fwd'[a], fwd') && a < |m0| && fwd'[a] <= a
          && (m0[a].IsUnmovable() ==> fwd'[a] == a)
  {
    var fwd' := Flushed(fwd, t);
    SameFlags(m0, starts0, fwd, f, startsF, a);
    RewrittenBlocks(m, starts, t, m');
    assert MovedTo(f, startsF, t, m, starts, fwd[a]);
    forall k: nat | k < m0[a].size ensures CellRenamed(m0, a, m', fwd'[a], fwd', k) {
      FlushedCell(m0, starts0, fwd, f, startsF, t, m, starts, m', a, k);
    }
  }

  ghost function Identity(m: Memory, starts: set<nat>): map<nat, nat> {
    map p | p in starts && Live(m, starts, p) :: p
  }

  /** Nothing has moved yet. */
  lemma {:induction false} SameObjectsStart(m: Memory, starts: set<nat>)
    requires Tiled(m, starts)
    ensures SameObjects(m, starts, Identity(m, starts), m, starts)
  {
    var fwd := Identity(m, starts);
    forall a | a in fwd ensures RenamedCopy(m, a, m, fwd[a], fwd) {
      assert BlockOk(m, starts, a);
      forall k: nat | k < m[a].size ensures CellRenamed(m, a, m, a, fwd, k) {
      }
    }
  }

  lemma {:induction false} BatchStart(m: Memory, starts: set<nat>)
    requires Tiled(m, starts)
    ensures BatchMoved(m, starts, [], m, starts)
  {
    forall a: nat | Live(m, starts, a) ensures MovedTo(m, starts, [], m, starts, a) && ComesFrom(m, starts, [], a) {
      assert BlockOk(m, starts, a);
      assert Lookup([], a) == a;
      forall k: nat | k < m[a].size ensures CellCopied(m, a, m, a, k) {
      }
    }
  }
}
