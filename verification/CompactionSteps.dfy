/** One step of a compaction: a run of movable blocks slides or hops down into a free block.
    Lemmas about the layout; the loop that takes the steps is in module Compaction. */
module CompactionSteps {
  import opened HeapModel
  import opened HC = HeapCluster

  ghost predicate RangeBlockOk(m: Memory, tiles: set<nat>, lo: nat, hi: nat, p: nat) {
    && lo <= p < |m| && 1 <= m[p].size
    && End(m, p) <= hi
    && (End(m, p) == hi || End(m, p) in tiles)
    && forall q | q in tiles :: !(p < q < End(m, p))
  }

  /** The blocks starting at `tiles` cover the cells from lo to hi end to end. */
  ghost predicate TiledRange(m: Memory, tiles: set<nat>, lo: nat, hi: nat) {
    && lo < hi <= |m| && lo in tiles
    && forall p {:trigger RangeBlockOk(m, tiles, lo, hi, p)} | p in tiles :: RangeBlockOk(m, tiles, lo, hi, p)
  }

  ghost function StartsIn(starts: set<nat>, lo: nat, hi: nat): set<nat> {
    set p | p in starts && lo <= p < hi
  }

  /** Address p, where a block starts or the payload ends. */
  ghost predicate Boundary(m: Memory, starts: set<nat>, p: nat) {
    p in starts || p == |m|
  }

  lemma {:induction false} TilesOfRange(m: Memory, starts: set<nat>, lo: nat, hi: nat)
    requires Tiled(m, starts) && lo in starts && lo < hi <= |m| && Boundary(m, starts, hi)
    ensures TiledRange(m, StartsIn(starts, lo, hi), lo, hi)
  {
    var tiles := StartsIn(starts, lo, hi);
    forall p | p in tiles ensures RangeBlockOk(m, tiles, lo, hi, p) {
      assert BlockOk(m, starts, p);
    }
  }

  /** Relaying the cells from lo to hi leaves the rest of the layout as it was. */
  lemma {:induction false} RelayRange(m: Memory, starts: set<nat>, lo: nat, hi: nat, m': Memory, tiles: set<nat>)
    requires Tiled(m, starts) && lo in starts && lo < hi <= |m| && Boundary(m, starts, hi)
    requires |m'| == |m| && TiledRange(m', tiles, lo, hi)
    requires forall x | 0 <= x < |m| && !(lo <= x < hi) :: m'[x].size == m[x].size
    ensures Tiled(m', (starts - StartsIn(starts, lo, hi)) + tiles)
  {
    var starts' := (starts - StartsIn(starts, lo, hi)) + tiles;
    forall q | q in tiles ensures lo <= q < hi {
      assert RangeBlockOk(m', tiles, lo, hi, q);
    }
    forall p | p in starts' ensures BlockOk(m', starts', p) {
      if p in tiles {
        assert RangeBlockOk(m', tiles, lo, hi, p);
      } else {
        RelayOutside(m, starts, lo, hi, p);
      }
    }
  }

  lemma {:induction false} RelayOutside(m: Memory, starts: set<nat>, lo: nat, hi: nat, p: nat)
    requires Tiled(m, starts) && lo in starts && lo < hi <= |m| && p in starts && !(lo <= p < hi)
    ensures BlockOk(m, starts, p) && (End(m, p) <= lo || hi <= p)
  {
    assert BlockOk(m, starts, p);
  }

  /** The tiles of a run, moved down by k cells. */
  ghost function Moved(tiles: set<nat>, k: nat): set<nat>
    requires forall p | p in tiles :: k <= p
  {
    set p | p in tiles :: p - k
  }

  /** The sizes from lo up to hi are found k cells lower in m'. */
  ghost predicate SizesShifted(m: Memory, lo: nat, hi: nat, k: nat, m': Memory) {
    && |m'| == |m| && k <= lo <= hi <= |m|
    && forall x | lo <= x < hi :: m'[x - k].size == m[x].size
  }

  lemma {:induction false} MovedTiles(m: Memory, tiles: set<nat>, lo: nat, hi: nat, k: nat, m': Memory)
    requires TiledRange(m, tiles, lo, hi) && SizesShifted(m, lo, hi, k, m')
    ensures forall p | p in tiles :: k <= p
    ensures TiledRange(m', Moved(tiles, k), lo - k, hi - k)
  {
    forall p | p in tiles ensures k <= p && lo <= p < hi {
      assert RangeBlockOk(m, tiles, lo, hi, p);
    }
    var tiles' := Moved(tiles, k);
    assert lo - k in tiles';
    forall p' | p' in tiles' ensures RangeBlockOk(m', tiles', lo - k, hi - k, p') {
      var p := p' + k;
      assert RangeBlockOk(m, tiles, lo, hi, p);
      assert m'[p - k].size == m[p].size;
      forall q' | q' in tiles' ensures !(p' < q' < End(m', p')) {
        assert q' + k in tiles;
      }
      assert End(m, p) in tiles ==> End(m, p) - k in tiles';
    }
  }

  /** Appending one block at the end of a tiled range. */
  lemma {:induction false} AppendTile(m: Memory, tiles: set<nat>, lo: nat, mid: nat, hi: nat)
    requires TiledRange(m, tiles, lo, mid) && mid < hi <= |m| && m[mid].size == hi - mid
    ensures TiledRange(m, tiles + {mid}, lo, hi)
  {
    var tiles' := tiles + {mid};
    forall q | q in tiles ensures lo <= q < mid {
      assert RangeBlockOk(m, tiles, lo, mid, q);
    }
    forall p | p in tiles' ensures RangeBlockOk(m, tiles', lo, hi, p) {
      if p in tiles { assert RangeBlockOk(m, tiles, lo, mid, p); }
    }
  }

  // ---------------------------------------------------------------- the effect on live blocks

  /** A block is live at p once the run at s has been placed at d. */
  ghost predicate LiveOnceMoved(m: Memory, starts: set<nat>, s: nat, d: nat, n: nat, stale: bool, p: nat)
    requires d < s
  {
    || (Live(m, starts, p) && (stale || !(s <= p < s + n)))
    || (d <= p < d + n && Live(m, starts, p + (s - d)))
  }

  /** The blocks from s to s + n are found, cell for cell, at d; every other live block is where it
      was.  With `stale`, the old copies still count as live. */
  ghost predicate RunPlaced(m: Memory, starts: set<nat>, m': Memory, starts': set<nat>, s: nat, d: nat, n: nat,
      stale: bool)
  {
    && |m'| == |m| && d < s && s + n <= |m|
    && (forall p: nat :: Live(m', starts', p) <==> LiveOnceMoved(m, starts, s, d, n, stale, p))
    && (forall p: nat | Live(m, starts, p) && (stale || !(s <= p < s + n)) :: SameBlock(m, m', p))
    && (forall x | s <= x < s + n :: m'[x - (s - d)] == m[x])
  }

  /** The run has moved: nothing of it is left at its old place. */
  ghost predicate RunMoved(m: Memory, starts: set<nat>, m': Memory, starts': set<nat>, s: nat, d: nat, n: nat) {
    RunPlaced(m, starts, m', starts', s, d, n, false)
  }

  /** The blocks from s to s + n are live and movable. */
  ghost predicate MovableRun(m: Memory, starts: set<nat>, s: nat, n: nat) {
    && 1 <= n && s in starts && s + n <= |m| && Boundary(m, starts, s + n)
    && forall p | p in starts && s <= p < s + n :: p < |m| && !m[p].IsUnmovable() && !m[p].IsFree()
  }

  // ---------------------------------------------------------------- the copy

  /** The memory after copying the n cells at s down to d. */
  function MemMove(m: Memory, s: nat, d: nat, n: nat): Memory
    requires d < s && s + n <= |m|
  {
    seq(|m|, x requires 0 <= x < |m| => if d <= x < d + n then m[x + (s - d)] else m[x])
  }

  /** A run about to be moved, and the free block it is moved into: either the free block touches
      the run (a slide), or the run fits into it (a hop).  `rest` cells of free space follow the
      run at its new place. */
  datatype Step = Step(s: nat, d: nat, n: nat, slide: bool, rest: nat) {
    /** The end of the cells that are laid out anew by the copy. */
    function Hi(): nat { d + n + rest }
  }

  ghost predicate StepOk(m: Memory, starts: set<nat>, list: seq<nat>, st: Step) {
    && ClusterOk(m, starts, list)
    && MovableRun(m, starts, st.s, st.n)
    && IsFreeStart(m, starts, st.d) && st.d < st.s
    && End(m, st.d) <= st.s
    && st.slide == (End(m, st.d) == st.s)
    && (if st.slide then st.rest == m[st.d].size else st.n + st.rest == m[st.d].size)
  }

  /** The copy done, with a free header over what remains of the free block. */
  ghost predicate Copied(m: Memory, st: Step, m1: Memory)
    requires st.d < st.s && st.s + st.n <= |m|
  {
    && |m1| == |m|
    && (st.rest > 0 ==>
        st.d + st.n < |m| && m1[st.d + st.n].IsFree() && m1[st.d + st.n].flags == FREE_FLAGS
        && m1[st.d + st.n].size == st.rest)
    && forall x | 0 <= x < |m| && (x != st.d + st.n || st.rest == 0) :: m1[x] == MemMove(m, st.s, st.d, st.n)[x]
  }

  ghost function NewTiles(starts: set<nat>, st: Step): set<nat>
    requires st.d < st.s
  {
    Moved(StartsIn(starts, st.s, st.s + st.n), st.s - st.d) + if st.rest > 0 then {st.d + st.n} else {}
  }

  ghost function CopiedStarts(starts: set<nat>, st: Step): set<nat>
    requires st.d < st.s
  {
    (starts - StartsIn(starts, st.d, st.Hi())) + NewTiles(starts, st)
  }

  lemma {:induction false} StepShape(m: Memory, starts: set<nat>, list: seq<nat>, st: Step)
    requires StepOk(m, starts, list, st)
    ensures st.d in starts && st.d < st.Hi() <= |m| && Boundary(m, starts, st.Hi())
    ensures st.d + st.n < |m| && st.s + st.n <= |m|
    ensures forall p | p in starts && st.d < p < st.Hi() :: st.slide && st.s <= p < st.s + st.n
    ensures st.slide ==> st.Hi() == st.s + st.n
    ensures !st.slide ==> st.Hi() == End(m, st.d) < st.s
  {
    assert BlockOk(m, starts, st.d);
  }

  lemma {:induction false} CopiedInside(m: Memory, st: Step, m1: Memory)
    requires st.d < st.s && st.s + st.n <= |m| && Copied(m, st, m1)
    ensures forall x | st.s <= x < st.s + st.n :: m1[x - (st.s - st.d)] == m[x]
  {
    forall x | st.s <= x < st.s + st.n ensures m1[x - (st.s - st.d)] == m[x] {
      var y := x - (st.s - st.d);
      assert m1[y] == MemMove(m, st.s, st.d, st.n)[y];
    }
  }

  lemma {:induction false} CopiedSizes(m: Memory, st: Step, k: nat, m1: Memory)
    requires st.d < st.s && st.s + st.n <= |m| && Copied(m, st, m1) && k == st.s - st.d
    ensures SizesShifted(m, st.s, st.s + st.n, k, m1)
  {
    forall x | st.s <= x < st.s + st.n ensures m1[x - k].size == m[x].size {
      assert m1[x - k] == MemMove(m, st.s, st.d, st.n)[x - k];
    }
  }

  lemma {:induction false} CopiedOutside(m: Memory, st: Step, m1: Memory)
    requires st.d < st.s && st.s + st.n <= |m| && Copied(m, st, m1)
    ensures forall x | 0 <= x < |m| && !(st.d <= x < st.d + st.n) && (x != st.d + st.n || st.rest == 0) :: m1[x] == m[x]
  {
  }

  lemma {:induction false} CopiedRun(m: Memory, starts: set<nat>, st: Step, m1: Memory)
    requires Tiled(m, starts) && MovableRun(m, starts, st.s, st.n) && st.d < st.s && Copied(m, st, m1)
    ensures TiledRange(m1, Moved(StartsIn(starts, st.s, st.s + st.n), st.s - st.d), st.d, st.d + st.n)
  {
    TilesOfRange(m, starts, st.s, st.s + st.n);
    RunAsMoved(m, StartsIn(starts, st.s, st.s + st.n), st, m1);
  }

  lemma {:induction false} RunAsMoved(m: Memory, run: set<nat>, st: Step, m1: Memory)
    requires TiledRange(m, run, st.s, st.s + st.n) && st.d < st.s && st.s + st.n <= |m| && Copied(m, st, m1)
    ensures forall p | p in run :: st.s - st.d <= p
    ensures TiledRange(m1, Moved(run, st.s - st.d), st.d, st.d + st.n)
  {
    CopiedSizes(m, st, st.s - st.d, m1);
    MovedTiles(m, run, st.s, st.s + st.n, st.s - st.d, m1);
  }

  lemma {:induction false} CopiedRange(m: Memory, starts: set<nat>, st: Step, m1: Memory)
    requires Tiled(m, starts) && MovableRun(m, starts, st.s, st.n) && st.d < st.s && st.Hi() <= |m|
    requires Copied(m, st, m1)
    ensures TiledRange(m1, NewTiles(starts, st), st.d, st.Hi())
  {
    CopiedRun(m, starts, st, m1);
    var run := Moved(StartsIn(starts, st.s, st.s + st.n), st.s - st.d);
    if st.rest > 0 {
      AppendTile(m1, run, st.d, st.d + st.n, st.Hi());
    } else {
      assert NewTiles(starts, st) == run;
    }
  }

  lemma {:induction false} CopiedTiles(m: Memory, starts: set<nat>, list: seq<nat>, st: Step, m1: Memory)
    requires StepOk(m, starts, list, st) && Copied(m, st, m1)
    ensures Tiled(m1, CopiedStarts(starts, st))
  {
    StepShape(m, starts, list, st);
    CopiedRange(m, starts, st, m1);
    CopiedOutside(m, st, m1);
    RelayRange(m, starts, st.d, st.Hi(), m1, NewTiles(starts, st));
  }

  /** Which blocks are live, and which free, once the run is copied. */
  lemma {:induction false} CopiedBlocks(m: Memory, starts: set<nat>, list: seq<nat>, st: Step, m1: Memory, p: nat)
    requires StepOk(m, starts, list, st) && Copied(m, st, m1)
    ensures
      var starts1 := CopiedStarts(starts, st);
      && (Live(m1, starts1, p) <==>
          (Live(m, starts, p) && !(st.d <= p < st.Hi()))
          || (st.d <= p < st.d + st.n && Live(m, starts, p + (st.s - st.d))))
      && (IsFreeStart(m1, starts1, p) <==>
          (IsFreeStart(m, starts, p) && p != st.d) || (st.rest > 0 && p == st.d + st.n))
  {
    CopiedMembers(starts, st, p);
    StepShape(m, starts, list, st);
  }

  /** The addresses of blocks once the run has been copied. */
  lemma {:induction false} CopiedMembers(starts: set<nat>, st: Step, p: nat)
    requires st.d < st.s
    ensures p in Moved(StartsIn(starts, st.s, st.s + st.n), st.s - st.d) <==>
              st.d <= p < st.d + st.n && p + (st.s - st.d) in starts
  {
    var k := st.s - st.d;
    var run := StartsIn(starts, st.s, st.s + st.n);
    assert p in Moved(run, k) <==> p + k in run by {
      if p + k in run { assert (p + k) - k == p; }
    }
  }

  lemma {:induction false} FreeNeighbours(m: Memory, starts: set<nat>, list: seq<nat>, st: Step, m1: Memory, p: nat)
    requires StepOk(m, starts, list, st) && Copied(m, st, m1)
    requires IsFreeStart(m1, CopiedStarts(starts, st), p)
               && (st.rest > 0 ==> p != st.d + st.n && End(m1, p) != st.d + st.n)
    ensures FreeHeaderOk(m1, CopiedStarts(starts, st), p)
  {
    StepShape(m, starts, list, st);
    CopiedBlocks(m, starts, list, st, m1, p);
    assert FreeHeaderOk(m, starts, p) && BlockOk(m, starts, p) && BlockOk(m, starts, st.d);
    assert m1[p] == m[p];
    CopiedBlocks(m, starts, list, st, m1, End(m, p));
  }

  lemma WithoutMembers(list: seq<nat>, i: nat)
    requires i < |list| && Ascending(list)
    ensures Ascending(RemoveAt(list, i))
    ensures forall p :: p in RemoveAt(list, i) <==> p in list && p != list[i]
  {
    var rest := RemoveAt(list, i);
    forall p ensures p in rest <==> p in list && p != list[i] {
      if p in list && p != list[i] {
        var k :| 0 <= k < |list| && list[k] == p;
        assert rest[if k < i then k else k - 1] == p;
      }
    }
  }

  /** With cells left over, the copied heap is ready for the remainder to be given back. */
  lemma {:induction false} CopiedReturning(m: Memory, starts: set<nat>, list: seq<nat>, st: Step, m1: Memory, i: nat)
    requires StepOk(m, starts, list, st) && Copied(m, st, m1) && st.rest > 0
    requires i < |list| && list[i] == st.d
    ensures Returning(m1, CopiedStarts(starts, st), RemoveAt(list, i), st.d + st.n)
  {
    var starts1, list1 := CopiedStarts(starts, st), RemoveAt(list, i);
    CopiedTiles(m, starts, list, st, m1);
    WithoutMembers(list, i);
    forall p: nat ensures IsFreeStart(m1, starts1, p) <==>
        (IsFreeStart(m, starts, p) && p != st.d) || p == st.d + st.n
    {
      CopiedBlocks(m, starts, list, st, m1, p);
    }
    StepShape(m, starts, list, st);
    CopiedFlags(m, starts, list, st, m1);
    forall p: nat | IsFreeStart(m1, starts1, p) && p != st.d + st.n && End(m1, p) != st.d + st.n
      ensures FreeHeaderOk(m1, starts1, p)
    {
      FreeNeighbours(m, starts, list, st, m1, p);
    }
  }

  lemma {:induction false} CopiedFlags(m: Memory, starts: set<nat>, list: seq<nat>, st: Step, m1: Memory)
    requires StepOk(m, starts, list, st) && Copied(m, st, m1)
    ensures forall p: nat | IsFreeStart(m1, CopiedStarts(starts, st), p) :: m1[p].flags == FREE_FLAGS
    ensures st.rest > 0 ==> !IsFreeStart(m, starts, st.d + st.n)
  {
    StepShape(m, starts, list, st);
    assert BlockOk(m, starts, st.d);
    forall p: nat | IsFreeStart(m1, CopiedStarts(starts, st), p) ensures m1[p].flags == FREE_FLAGS {
      CopiedBlocks(m, starts, list, st, m1, p);
      if IsFreeStart(m, starts, p) && p != st.d {
        assert FreeHeaderOk(m, starts, p);
        assert m1[p] == m[p];
      }
    }
  }

  /** With no cells left over, the copied heap is in order at once. */
  lemma {:induction false} CopiedExactly(m: Memory, starts: set<nat>, list: seq<nat>, st: Step, m1: Memory, i: nat)
    requires StepOk(m, starts, list, st) && Copied(m, st, m1) && st.rest == 0
    requires i < |list| && list[i] == st.d
    ensures ClusterOk(m1, CopiedStarts(starts, st), RemoveAt(list, i))
  {
    var starts1, list1 := CopiedStarts(starts, st), RemoveAt(list, i);
    CopiedTiles(m, starts, list, st, m1);
    WithoutMembers(list, i);
    forall p: nat ensures IsFreeStart(m1, starts1, p) <==> IsFreeStart(m, starts, p) && p != st.d {
      CopiedBlocks(m, starts, list, st, m1, p);
    }
    forall p: nat | IsFreeStart(m1, starts1, p) ensures FreeHeaderOk(m1, starts1, p) {
      FreeNeighbours(m, starts, list, st, m1, p);
    }
  }

  // ---------------------------------------------------------------- from the copy to the finished step

  lemma {:induction false} CopiedPlaced(m: Memory, starts: set<nat>, list: seq<nat>, st: Step, m1: Memory)
    requires StepOk(m, starts, list, st) && Copied(m, st, m1)
    ensures RunPlaced(m, starts, m1, CopiedStarts(starts, st), st.s, st.d, st.n, !st.slide)
  {
    CopiedInside(m, st, m1);
    CopiedLives(m, starts, list, st, m1);
    CopiedOthers(m, starts, list, st, m1);
  }

  lemma {:induction false} CopiedLives(m: Memory, starts: set<nat>, list: seq<nat>, st: Step, m1: Memory)
    requires StepOk(m, starts, list, st) && Copied(m, st, m1)
    ensures forall p: nat ::
              Live(m1, CopiedStarts(starts, st), p) <==> LiveOnceMoved(m, starts, st.s, st.d, st.n, !st.slide, p)
  {
    forall p: nat
      ensures Live(m1, CopiedStarts(starts, st), p) <==> LiveOnceMoved(m, starts, st.s, st.d, st.n, !st.slide, p)
    {
      CopiedLive(m, starts, list, st, m1, p);
    }
  }

  lemma {:induction false} CopiedOthers(m: Memory, starts: set<nat>, list: seq<nat>, st: Step, m1: Memory)
    requires StepOk(m, starts, list, st) && Copied(m, st, m1)
    ensures forall p: nat | Live(m, starts, p) && (!st.slide || !(st.s <= p < st.s + st.n)) :: SameBlock(m, m1, p)
  {
    forall p: nat | Live(m, starts, p) && (!st.slide || !(st.s <= p < st.s + st.n)) ensures SameBlock(m, m1, p) {
      CopiedOther(m, starts, list, st, m1, p);
    }
  }

  lemma {:induction false} CopiedOther(m: Memory, starts: set<nat>, list: seq<nat>, st: Step, m1: Memory, p: nat)
    requires StepOk(m, starts, list, st) && Copied(m, st, m1)
    requires Live(m, starts, p) && (!st.slide || !(st.s <= p < st.s + st.n))
    ensures SameBlock(m, m1, p)
  {
    StepShape(m, starts, list, st);
    assert st.d != p && !(st.d <= p < st.Hi());
    RelayOutside(m, starts, st.d, st.Hi(), p);
    CopiedOutside(m, st, m1);
  }

  lemma {:induction false} CopiedLive(m: Memory, starts: set<nat>, list: seq<nat>, st: Step, m1: Memory, p: nat)
    requires StepOk(m, starts, list, st) && Copied(m, st, m1)
    ensures Live(m1, CopiedStarts(starts, st), p) <==> LiveOnceMoved(m, starts, st.s, st.d, st.n, !st.slide, p)
  {
    StepShape(m, starts, list, st);
    CopiedBlocks(m, starts, list, st, m1, p);
  }

  /** Giving back free cells leaves every live block as it is. */
  lemma {:induction false} GivenBackKeeps(m: Memory, starts: set<nat>, list: seq<nat>, m': Memory, starts': set<nat>,
      list': seq<nat>, node: nat, r: nat)
    requires Tiled(m, starts) && node < |m| && GivenBack(m, starts, list, m', starts', list', node, r)
    requires IsFreeStart(m, starts, node) && forall p | p in list :: IsFreeStart(m, starts, p)
    ensures forall p: nat | Live(m, starts, p) :: SameBlock(m, m', p)
  {
    forall p: nat | Live(m, starts, p) ensures SameBlock(m, m', p) {
      assert BlockOk(m, starts, p);
      assert IsFreeStart(m, starts, r);
    }
  }

  lemma {:induction false} PlacedThenKept(m: Memory, starts: set<nat>, m1: Memory, starts1: set<nat>, m': Memory,
      starts': set<nat>, s: nat, d: nat, n: nat, stale: bool)
    requires Tiled(m, starts) && MovableRun(m, starts, s, n) && RunPlaced(m, starts, m1, starts1, s, d, n, stale)
    requires |m'| == |m1| && forall p: nat :: Live(m', starts', p) <==> Live(m1, starts1, p)
    requires forall p: nat | Live(m1, starts1, p) :: SameBlock(m1, m', p)
    ensures RunPlaced(m, starts, m', starts', s, d, n, stale)
  {
    forall p: nat | Live(m, starts, p) && (stale || !(s <= p < s + n)) ensures SameBlock(m, m', p) {
      assert LiveOnceMoved(m, starts, s, d, n, stale, p);
      assert SameBlock(m, m1, p) && SameBlock(m1, m', p);
      assert BlockOk(m, starts, p);
      assert m1[p] == m[p];
    }
    forall x | s <= x < s + n ensures m'[x - (s - d)] == m[x] {
      var c := EveryCellHasABlock(m, starts, x);
      RunHolds(m, starts, s, n, c, x);
      assert LiveOnceMoved(m, starts, s, d, n, stale, c - (s - d));
      assert SameBlock(m1, m', c - (s - d));
      assert m1[c - (s - d)] == m[c];
    }
  }

  lemma {:induction false} RunHolds(m: Memory, starts: set<nat>, s: nat, n: nat, c: nat, x: nat)
    requires Tiled(m, starts) && MovableRun(m, starts, s, n)
    requires c in starts && Inside(m, c, x) && s <= x < s + n
    ensures s <= c && End(m, c) <= s + n && Live(m, starts, c)
  {
    assert BlockOk(m, starts, c);
  }

  /** Forgetting the stale copies turns their cells into one free block. */
  lemma {:induction false} ForgetRun(m: Memory, starts: set<nat>, list: seq<nat>, s: nat, n: nat)
    requires ClusterOk(m, starts, list) && 1 <= n && s in starts && s + n <= |m| && Boundary(m, starts, s + n)
    requires forall p: nat | s <= p < s + n :: !IsFreeStart(m, starts, p)
    ensures Returning(m[s := m[s].SetDataId(FreeBlock, FREE_FLAGS, n)], starts - Interval(s + 1, s + n), list, s)
    ensures forall p: nat :: Live(m[s := m[s].SetDataId(FreeBlock, FREE_FLAGS, n)], starts - Interval(s + 1, s + n), p)
                             <==> Live(m, starts, p) && !(s <= p < s + n)
  {
    var m' := m[s := m[s].SetDataId(FreeBlock, FREE_FLAGS, n)];
    var starts' := starts - Interval(s + 1, s + n);
    CollapseTiles(m, starts, s, s + n, m');
    forall p: nat ensures IsFreeStart(m', starts', p) <==> IsFreeStart(m, starts, p) || p == s {
    }
    forall p: nat ensures Live(m', starts', p) <==> Live(m, starts, p) && !(s <= p < s + n) {
      assert p < |m| && p != s ==> m'[p] == m[p];
      assert p in starts' <==> p in starts && !(s + 1 <= p < s + n);
    }
    forall p: nat | IsFreeStart(m', starts', p) ensures m'[p].flags == FREE_FLAGS {
      if p != s { assert FreeHeaderOk(m, starts, p); }
    }
    forall p: nat | IsFreeStart(m', starts', p) && p != s && End(m', p) != s ensures FreeHeaderOk(m', starts', p) {
      assert FreeHeaderOk(m, starts, p);
    }
  }

  lemma {:induction false} ForgottenMoved(m: Memory, starts: set<nat>, m2: Memory, starts2: set<nat>, s: nat, d: nat,
      n: nat)
    requires Tiled(m, starts) && MovableRun(m, starts, s, n) && RunPlaced(m, starts, m2, starts2, s, d, n, true)
               && d + n <= s
    ensures RunMoved(m, starts, m2[s := m2[s].SetDataId(FreeBlock, FREE_FLAGS, n)], starts2 - Interval(s + 1, s + n), s,
              d, n)
  {
    var m' := m2[s := m2[s].SetDataId(FreeBlock, FREE_FLAGS, n)];
    var starts' := starts2 - Interval(s + 1, s + n);
    forall p: nat ensures Live(m', starts', p) <==> LiveOnceMoved(m, starts, s, d, n, false, p) {
      assert Live(m', starts', p) <==> Live(m2, starts2, p) && !(s <= p < s + n);
    }
    forall p: nat | Live(m, starts, p) && !(s <= p < s + n) ensures SameBlock(m, m', p) {
      assert SameBlock(m, m2, p);
      assert BlockOk(m, starts, p);
    }
  }

  /** The remainder of the free block does not merge downward: live cells precede it. */
  lemma {:induction false} RestStays(m: Memory, starts: set<nat>, list: seq<nat>, st: Step, m1: Memory, list1: seq<nat>,
      r: nat)
    requires StepOk(m, starts, list, st) && Copied(m, st, m1) && st.rest > 0
    requires forall p | p in list1 :: p in list && p != st.d
    requires r == st.d + st.n || (r in list1 && r < |m1| && End(m1, r) == st.d + st.n)
    ensures r == st.d + st.n
  {
    StepShape(m, starts, list, st);
    CopiedOutside(m, st, m1);
    forall p | p in list1
      ensures p < |m| && (p < st.d ==> m1[p] == m[p] && End(m, p) <= st.d) && !(st.d <= p < st.Hi())
    {
      assert IsFreeStart(m, starts, p);
      assert BlockOk(m, starts, p);
    }
  }

  /** The heap with the run at its new place; in a hop the old copies are still there. */
  ghost predicate Placed(m: Memory, starts: set<nat>, list: seq<nat>, st: Step, m': Memory, starts': set<nat>,
      list': seq<nat>)
  {
    && ClusterOk(m', starts', list')
    && RunPlaced(m, starts, m', starts', st.s, st.d, st.n, !st.slide)
    && (forall p | p in list' :: p == st.d + st.n || (p in list && p != st.d))
    && (forall p | p in list && p != st.d && p != st.Hi() :: p in list')
    && (st.rest > 0 ==> st.d + st.n in list')
  }

  lemma {:induction false} PlacedByInsertion(m: Memory, starts: set<nat>, list: seq<nat>, st: Step, i: nat, m1: Memory,
      m': Memory, starts': set<nat>, list': seq<nat>, r: nat)
    requires StepOk(m, starts, list, st) && Copied(m, st, m1) && st.rest > 0
    requires i < |list| && list[i] == st.d && st.d + st.n < |m1|
    requires ClusterOk(m', starts', list')
    requires GivenBack(m1, CopiedStarts(starts, st), RemoveAt(list, i), m', starts', list', st.d + st.n, r)
    ensures Placed(m, starts, list, st, m', starts', list') && r == st.d + st.n
  {
    var starts1, list1 := CopiedStarts(starts, st), RemoveAt(list, i);
    CopiedReturning(m, starts, list, st, m1, i);
    WithoutMembers(list, i);
    RestStays(m, starts, list, st, m1, list1, r);
    CopiedPlaced(m, starts, list, st, m1);
    GivenBackKeeps(m1, starts1, list1, m', starts', list', st.d + st.n, r);
    PlacedThenKept(m, starts, m1, starts1, m', starts', st.s, st.d, st.n, !st.slide);
  }

  lemma {:induction false} PlacedExactly(m: Memory, starts: set<nat>, list: seq<nat>, st: Step, i: nat, m1: Memory)
    requires StepOk(m, starts, list, st) && Copied(m, st, m1) && st.rest == 0
    requires i < |list| && list[i] == st.d
    ensures Placed(m, starts, list, st, m1, CopiedStarts(starts, st), RemoveAt(list, i))
  {
    CopiedExactly(m, starts, list, st, m1, i);
    WithoutMembers(list, i);
    CopiedPlaced(m, starts, list, st, m1);
  }

  lemma {:induction false} PlacedRun(m: Memory, starts: set<nat>, list: seq<nat>, st: Step, m': Memory,
      starts': set<nat>, list': seq<nat>)
    requires StepOk(m, starts, list, st) && Placed(m, starts, list, st, m', starts', list') && !st.slide
    ensures st.s in starts' && Boundary(m', starts', st.s + st.n)
    ensures forall p: nat | st.s <= p < st.s + st.n :: !IsFreeStart(m', starts', p)
  {
    StepShape(m, starts, list, st);
    assert LiveOnceMoved(m, starts, st.s, st.d, st.n, true, st.s);
    var e := st.s + st.n;
    if e in starts {
      assert BlockOk(m, starts, e);
      if IsFreeStart(m, starts, e) {
        assert e in list';
        assert IsFreeStart(m', starts', e);
      } else {
        assert LiveOnceMoved(m, starts, st.s, st.d, st.n, true, e);
      }
    }
    forall p | p in list' ensures !(st.s <= p < st.s + st.n) {
      if p in list { assert IsFreeStart(m, starts, p); }
    }
  }

  /** The whole step of a hop: the run copied, then its old cells given back. */
  lemma {:induction false} VacatedBy(m: Memory, starts: set<nat>, list: seq<nat>, st: Step, m2: Memory,
      starts2: set<nat>, list2: seq<nat>, m': Memory, starts': set<nat>, list': seq<nat>, r: nat)
    requires StepOk(m, starts, list, st) && Placed(m, starts, list, st, m2, starts2, list2) && !st.slide
    requires st.s < |m2|
    requires GivenBack(m2[st.s := m2[st.s].SetDataId(FreeBlock, FREE_FLAGS, st.n)],
               starts2 - Interval(st.s + 1, st.s + st.n), list2,
                       m', starts', list', st.s, r)
    ensures RunMoved(m, starts, m', starts', st.s, st.d, st.n)
  {
    var mv := m2[st.s := m2[st.s].SetDataId(FreeBlock, FREE_FLAGS, st.n)];
    var startsv := starts2 - Interval(st.s + 1, st.s + st.n);
    PlacedRun(m, starts, list, st, m2, starts2, list2);
    StepShape(m, starts, list, st);
    ForgetRun(m2, starts2, list2, st.s, st.n);
    ForgottenMoved(m, starts, m2, starts2, st.s, st.d, st.n);
    GivenBackKeeps(mv, startsv, list2, m', starts', list', st.s, r);
    PlacedThenKept(m, starts, mv, startsv, m', starts', st.s, st.d, st.n, false);
  }
}
