/** What the layout after a compaction means for the heap: when one free block is left, and when a free
    block is left that the next movable block above it could still be moved into. */
module CompactionResult {
  import opened HeapModel
  import opened Options
  import opened CompactionSteps
  import opened Compaction
  import opened Settling
  import opened HC = HeapCluster
  import opened L = Layouts
  import opened OpenRegions
  import opened HeapLayout
  import opened LayoutSteps
  import opened LayoutMoves

  // ---------------------------------------------------------------- one free block

  /** There is free space, and above it no block that is pinned or belongs to the event heap. */
  ghost predicate NothingPinnedAbove(m: Memory, starts: set<nat>) {
    && (exists f: nat :: IsFreeStart(m, starts, f))
    && forall f: nat, p: nat | IsFreeStart(m, starts, f) && Live(m, starts, p) && f < p :: Loose(m, p)
  }

  /** All the free space is one block at the upper end of the heap. */
  ghost predicate OneFreeOnTop(m: Memory, starts: set<nat>) {
    exists f: nat :: OnlyFree(m, starts, f) && End(m, f) == |m|
  }

  ghost predicate OnlyFree(m: Memory, starts: set<nat>, f: nat) {
    IsFreeStart(m, starts, f) && forall g: nat | IsFreeStart(m, starts, g) :: g == f
  }

  ghost predicate NonePinned(t: seq<Tile>) {
    forall j | 0 <= j < |t| :: !t[j].Pinned?
  }

  lemma {:induction false} NoPinnedTiles(m: Memory, starts: set<nat>, p: nat)
    requires Tiled(m, starts) && Boundary(m, starts, p) && p <= |m|
    requires forall x: nat | Live(m, starts, x) && p <= x :: !m[x].IsUnmovable()
    ensures NonePinned(Tiles(m, p, |m|))
    decreases |m| - p
  {
    if p < |m| {
      NextBoundary(m, starts, p, |m|);
      var next := p + m[p].size;
      NoPinnedTiles(m, starts, next);
      assert Live(m, starts, p) || m[p].IsFree();
      assert Tiles(m, p, |m|) == [TileOf(m[p])] + Tiles(m, next, |m|);
    }
  }

  lemma {:induction false} MovableNotFree(t: seq<Tile>)
    ensures forall j | 0 <= j < |OnlyMovable(t)| :: OnlyMovable(t)[j].Movable?
  {
    if t != [] { MovableNotFree(t[1..]); }
  }

  /** The first free tile is that of the lowest free block. */
  lemma LowestFree(m: Memory, starts: set<nat>, list: seq<nat>)
    requires ClusterOk(m, starts, list) && list != []
    ensures IsFreeStart(m, starts, list[0])
    ensures
      var f := list[0];
      var j := |Tiles(m, 0, f)|;
      && j < |Layout(m)| && FirstFree(Layout(m)) == j && Layout(m)[..j] == Tiles(m, 0, f)
      && Layout(m)[j] == Tile.Free(m[f].size) && Layout(m)[j + 1..] == Tiles(m, End(m, f), |m|)
  {
    var f := list[0];
    assert f in list && IsFreeStart(m, starts, f);
    AtFree(m, starts, f);
    NoFreeTiles(m, starts, list, 0, f);
    var a, b := Tiles(m, 0, f), Tiles(m, End(m, f), |m|);
    Regroup(a, [Tile.Free(m[f].size)], b);
    FirstFreeIs(a, m[f].size, b);
    ThreeParts(a, [Tile.Free(m[f].size)], b);
  }

  lemma SweptUp(m: Memory, starts: set<nat>, list: seq<nat>, low: seq<Tile>, n: nat)
    requires ClusterOk(m, starts, list) && Layout(m) == low + [Tile.Free(n)] && forall j | 0 <= j < |low| ::
               !low[j].Free?
    ensures OneFreeOnTop(m, starts)
  {
    assert low + [Tile.Free(n)] == low + ([Tile.Free(n)] + []);
    ListedAt(m, starts, list, low, n, []);
    CutTiles(m, starts, 0, low, [Tile.Free(n)]);
    var f := Total(low);
    NoneListed(m, starts, list, 0, f);
    assert IsFreeStart(m, starts, f) && BlockOk(m, starts, f);
    assert Tiles(m, f, |m|)[1..] == [];
    if End(m, f) < |m| { NextBoundary(m, starts, End(m, f), |m|); }
    forall g: nat | IsFreeStart(m, starts, g) ensures g == f {
      assert g in list;
      assert BlockOk(m, starts, g);
    }
    assert OnlyFree(m, starts, f);
  }

  /** The layout in which all free space has come to lie on top. */
  lemma {:induction false} FullLayout(t: seq<Tile>) returns (low: seq<Tile>, n: nat)
    requires Normal(t) && FirstFree(t) < |t| && NonePinned(t[FirstFree(t) + 1..])
    ensures Compacted(t) == low + [Tile.Free(n)] && forall j | 0 <= j < |low| :: !low[j].Free?
  {
    var j := FirstFree(t);
    NonePinnedAfter(t, j);
    CompactedSlides(t);
    LowNotFree(t[..j], t[j + 1..]);
    low, n := t[..j] + OnlyMovable(t[j + 1..]), t[j].size + FreeTotal(t[j + 1..]);
  }

  lemma NonePinnedAfter(t: seq<Tile>, j: nat)
    requires j < |t| && NonePinned(t[j + 1..])
    ensures forall i | j < i < |t| :: !t[i].Pinned?
  {
    assert forall i | j < i < |t| :: t[i] == t[j + 1..][i - j - 1];
  }

  lemma LowNotFree(done: seq<Tile>, above: seq<Tile>)
    requires forall j | 0 <= j < |done| :: !done[j].Free?
    ensures forall j | 0 <= j < |done + OnlyMovable(above)| :: !(done + OnlyMovable(above))[j].Free?
  {
    MovableNotFree(above);
  }

  /** With nothing pinned above the lowest free block, a compaction leaves one free block, on top. */
  lemma {:induction false} CompactsFully(m: Memory, starts: set<nat>, list: seq<nat>, m': Memory, starts': set<nat>,
      list': seq<nat>)
    requires ClusterOk(m, starts, list) && ClusterOk(m', starts', list') && Layout(m') == Compacted(Layout(m))
    requires NothingPinnedAbove(m, starts)
    ensures OneFreeOnTop(m', starts')
  {
    NothingPinnedInTiles(m, starts, list);
    var low, n := FullLayout(Layout(m));
    SweptUp(m', starts', list', low, n);
  }

  lemma NothingPinnedInTiles(m: Memory, starts: set<nat>, list: seq<nat>)
    requires ClusterOk(m, starts, list) && NothingPinnedAbove(m, starts)
    ensures
      var t := Layout(m);
      Normal(t) && FirstFree(t) < |t| && NonePinned(t[FirstFree(t) + 1..])
  {
    var f: nat :| IsFreeStart(m, starts, f);
    assert f in list;
    LowestFree(m, starts, list);
    FreeTile(m, starts, list[0]);
    NoPinnedTiles(m, starts, End(m, list[0]));
    TilesNormal(m, starts, list, 0);
  }

  // ---------------------------------------------------------------- open regions

  /** A free block is stuck exactly if its tile is not open. */
  lemma {:induction false} StuckIsNotOpen(m: Memory, starts: set<nat>, f: nat)
    requires Tiled(m, starts) && IsFreeStart(m, starts, f)
    ensures Stuck(m, starts, f) <==> !OpenTo(m[f].size, Tiles(m, End(m, f), |m|))
  {
    FreeTile(m, starts, f);
    if NoMovable(m, starts, f, |m|) {
      NoMovableTiles(m, starts, End(m, f), |m|);
      forall q: nat ensures !NextMovable(m, starts, f, q) {
      }
    } else {
      var p: nat :| Live(m, starts, p) && f <= p < |m| && !m[p].IsUnmovable();
      var q := LowestMovable(m, starts, f, p);
      assert BlockOk(m, starts, f) && BlockOk(m, starts, q);
      TilesAbove(m, starts, f, q);
      OneFirst(m, starts, f, q);
    }
  }

  lemma {:induction false} LowestMovable(m: Memory, starts: set<nat>, f: nat, p: nat) returns (q: nat)
    requires IsFreeStart(m, starts, f) && MovableAt(m, starts, p) && f < p
    ensures NextMovable(m, starts, f, q)
    decreases p
  {
    if NoMovable(m, starts, f, p) {
      q := p;
    } else {
      var r: nat :| Live(m, starts, r) && f <= r < p && !m[r].IsUnmovable();
      q := LowestMovable(m, starts, f, r);
    }
  }

  /** Some free block from p on can take in the next movable block above it. */
  ghost predicate CanCompactFrom(m: Memory, starts: set<nat>, p: nat) {
    exists f: nat :: p <= f && IsFreeStart(m, starts, f) && !Stuck(m, starts, f)
  }

  lemma {:induction false} OpenTilesFrom(m: Memory, starts: set<nat>, p: nat)
    requires Tiled(m, starts) && Boundary(m, starts, p) && p <= |m|
    ensures Open(Tiles(m, p, |m|), []) <==> CanCompactFrom(m, starts, p)
    decreases |m| - p
  {
    if p < |m| {
      NextBoundary(m, starts, p, |m|);
      var next := p + m[p].size;
      OpenTilesFrom(m, starts, next);
      var t := Tiles(m, next, |m|);
      assert Tiles(m, p, |m|)[1..] == t && t + [] == t;
      if m[p].IsFree() { StuckIsNotOpen(m, starts, p); }
      FromNext(m, starts, p);
    }
  }

  lemma FromNext(m: Memory, starts: set<nat>, p: nat)
    requires Tiled(m, starts) && p in starts && p < |m|
    ensures CanCompactFrom(m, starts, p) <==>
              (m[p].IsFree() && !Stuck(m, starts, p)) || CanCompactFrom(m, starts, End(m, p))
  {
    assert BlockOk(m, starts, p);
    if CanCompactFrom(m, starts, p) {
      var f: nat :| p <= f && IsFreeStart(m, starts, f) && !Stuck(m, starts, f);
      assert f == p || End(m, p) <= f;
    }
    if m[p].IsFree() { assert IsFreeStart(m, starts, p); }
  }

  /** A heap can be compacted exactly if its layout has an open tile. */
  lemma OpenIsCanCompact(m: Memory, starts: set<nat>)
    requires Tiled(m, starts)
    ensures CanCompact(m, starts) <==> Open(Layout(m), [])
  {
    OpenTilesFrom(m, starts, 0);
    assert CanCompact(m, starts) <==> CanCompactFrom(m, starts, 0);
  }

  /** The compaction of this heap gives up, in some turn, a place that it could still fill. */
  predicate GivesUpAPlace(m: Memory) {
    EverGivesUp(Onward([], Layout(m)))
  }

  /** A compaction leaves a free block that could take in the next movable block above it if and only if in
      some turn it gives up such a place. */
  lemma LeftOpenExactly(m: Memory, starts: set<nat>, list: seq<nat>, m': Memory, starts': set<nat>)
    requires ClusterOk(m, starts, list) && Tiled(m', starts') && Layout(m') == Compacted(Layout(m))
    ensures CanCompact(m', starts') <==> GivesUpAPlace(m)
  {
    TilesNormal(m, starts, list, 0);
    OpenExactly(Layout(m));
    OpenIsCanCompact(m', starts');
  }

  // ---------------------------------------------------------------- a heap with an event block that is not pinned

  /** A free cell, and above it an event block that is not pinned. */
  function EventHeap(): Memory {
    [Header(true, true), Cell(Opaque(0), Flags(true, true, false), 1, Null)]
  }

  /** It can not be compacted: the event block stays where it is. */
  lemma EventStays(fwd: map<nat, nat>, m': Memory, starts': set<nat>)
    ensures ClusterOk(EventHeap(), {0, 1}, [0]) && Layout(EventHeap()) == [Tile.Free(1), Tile.Pinned(1)]
    ensures !CanCompact(EventHeap(), {0, 1})
    ensures SameObjects(EventHeap(), {0, 1}, fwd, m', starts') ==> 1 in fwd && fwd[1] == 1
  {
    var m, starts: set<nat> := EventHeap(), {0, 1};
    assert forall p | p in starts :: BlockOk(m, starts, p);
    assert forall p: nat | IsFreeStart(m, starts, p) :: p == 0 && FreeHeaderOk(m, starts, p);
    assert Tiles(m, 2, 2) == [];
    assert Tiles(m, 1, 2) == [TileOf(m[1])];
    CanCompactIs(m, starts);
    assert Live(m, starts, 1);
  }

  // ---------------------------------------------------------------- a heap with a place left open

  function Header(free: bool, pinned: bool): Cell {
    Cell(if free then FreeBlock else Opaque(0), Flags(false, false, pinned), 1, Null)
  }

  /** A free cell, a pinned block and two movable ones, of one cell each. */
  function ExampleHeap(): Memory {
    [Header(true, true), Header(false, true), Header(false, false), Header(false, false)]
  }

  lemma ExampleLayout()
    ensures ClusterOk(ExampleHeap(), {0, 1, 2, 3}, [0])
    ensures Layout(ExampleHeap()) == [Tile.Free(1), Tile.Pinned(1), Tile.Movable(1), Tile.Movable(1)]
  {
    var m, starts: set<nat> := ExampleHeap(), {0, 1, 2, 3};
    assert forall p | p in starts :: BlockOk(m, starts, p);
    assert forall p: nat | IsFreeStart(m, starts, p) :: p == 0 && FreeHeaderOk(m, starts, p);
    assert Tiles(m, 4, 4) == [];
    assert Tiles(m, 3, 4) == [TileOf(m[3])];
    assert Tiles(m, 2, 4) == [TileOf(m[2])] + Tiles(m, 3, 4);
    assert Tiles(m, 1, 4) == [TileOf(m[1])] + Tiles(m, 2, 4);
  }

  /** Whatever heap the compaction of this one ends with, its third cell is free, and the movable block
      right above it could still be moved into it. */
  lemma {:induction false} ExampleStaysOpen(m': Memory, starts': set<nat>, list': seq<nat>)
    requires ClusterOk(m', starts', list') && Layout(m') == Compacted(Layout(ExampleHeap()))
    ensures CanCompact(m', starts') && GivesUpAPlace(ExampleHeap())
    ensures Layout(m') == [Tile.Movable(1), Tile.Pinned(1), Tile.Free(1), Tile.Movable(1)]
  {
    ExampleLayout();
    PlaceStaysOpen(1, 1, 1);
    OpenIsCanCompact(m', starts');
    LeftOpenExactly(ExampleHeap(), {0, 1, 2, 3}, [0], m', starts');
  }
}
