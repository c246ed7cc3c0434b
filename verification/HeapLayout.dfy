/** The layout of a heap as a list of tiles: what a move makes of it is one turn of the compaction of
    layouts. */
module HeapLayout {
  import opened HeapModel
  import opened Options
  import opened CompactionSteps
  import opened Compaction
  import opened Settling
  import opened HC = HeapCluster
  import opened L = Layouts
  import opened OpenRegions

  function TileOf(c: Cell): Tile {
    if c.IsFree() then Tile.Free(c.size)
    else if c.flags.pinned || c.flags.event then Tile.Pinned(c.size)
    else Tile.Movable(c.size)
  }

  /** The blocks from address p up to address q. */
  function Tiles(m: Memory, p: nat, q: nat): seq<Tile>
    decreases |m| - p
  {
    if p < q && p < |m| && 0 < m[p].size then [TileOf(m[p])] + Tiles(m, p + m[p].size, q) else []
  }

  function Layout(m: Memory): seq<Tile> {
    Tiles(m, 0, |m|)
  }

  lemma {:induction false} TilesSpan(m: Memory, starts: set<nat>, p: nat, q: nat)
    requires Tiled(m, starts) && p <= q && Boundary(m, starts, p) && Boundary(m, starts, q)
    ensures Total(Tiles(m, p, q)) == q - p
    decreases q - p
  {
    if p < q {
      NextBoundary(m, starts, p, q);
      TilesSpan(m, starts, p + m[p].size, q);
      assert Tiles(m, p, q)[1..] == Tiles(m, p + m[p].size, q);
    }
  }

  lemma NextBoundary(m: Memory, starts: set<nat>, p: nat, q: nat)
    requires Tiled(m, starts) && p < q && Boundary(m, starts, p) && Boundary(m, starts, q)
    ensures p < |m| && p in starts && 0 < m[p].size && p + m[p].size <= q && q <= |m|
    ensures Boundary(m, starts, p + m[p].size)
  {
    if q in starts { assert BlockOk(m, starts, q); }
    assert p in starts ==> BlockOk(m, starts, p);
  }

  lemma {:induction false} TilesJoin(m: Memory, starts: set<nat>, p: nat, q: nat, r: nat)
    requires Tiled(m, starts) && p <= q <= r && Boundary(m, starts, p) && Boundary(m, starts, q)
    ensures Tiles(m, p, r) == Tiles(m, p, q) + Tiles(m, q, r)
    decreases q - p
  {
    if p < q {
      NextBoundary(m, starts, p, q);
      TilesJoin(m, starts, p + m[p].size, q, r);
    }
  }

  /** Cutting a layout cuts the heap at a block boundary. */
  lemma {:induction false} CutTiles(m: Memory, starts: set<nat>, p: nat, a: seq<Tile>, b: seq<Tile>)
    requires Tiled(m, starts) && Boundary(m, starts, p) && Tiles(m, p, |m|) == a + b
    ensures Boundary(m, starts, p + Total(a)) && p + Total(a) <= |m|
    ensures Tiles(m, p, p + Total(a)) == a && Tiles(m, p + Total(a), |m|) == b
    decreases |a|
  {
    if p in starts { assert BlockOk(m, starts, p); }
    if a != [] {
      assert Tiles(m, p, |m|)[0] == a[0];
      NextBoundary(m, starts, p, |m|);
      var next := p + m[p].size;
      assert Tiles(m, next, |m|) == Tiles(m, p, |m|)[1..] == a[1..] + b;
      CutTiles(m, starts, next, a[1..], b);
      assert a == [a[0]] + a[1..];
    } else {
      assert a + b == b;
    }
  }

  // ---------------------------------------------------------------- tiles that fit a heap

  ghost predicate NoLive(m: Memory, starts: set<nat>, lo: nat, hi: nat) {
    forall q: nat | lo <= q < hi :: !Live(m, starts, q)
  }

  ghost predicate FitsOne(m: Memory, starts: set<nat>, p: nat, x: Tile) {
    && 0 < x.size && p + x.size <= |m|
    && if x.Free? then NoLive(m, starts, p, p + x.size) else Live(m, starts, p) && TileOf(m[p]) == x
  }

  /** Laid down from p on, the tiles agree with the heap about the live blocks; adjacent free blocks need not
      be told apart. */
  ghost predicate Fits(m: Memory, starts: set<nat>, p: nat, t: seq<Tile>)
    decreases |t|
  {
    t == [] || (FitsOne(m, starts, p, t[0]) && Fits(m, starts, p + t[0].size, t[1..]))
  }

  lemma {:induction false} FitsTiles(m: Memory, starts: set<nat>, p: nat, q: nat)
    requires Tiled(m, starts) && p <= q && Boundary(m, starts, p) && Boundary(m, starts, q)
    ensures Fits(m, starts, p, Tiles(m, p, q))
    decreases q - p
  {
    if p < q {
      NextBoundary(m, starts, p, q);
      FitsTiles(m, starts, p + m[p].size, q);
      assert BlockOk(m, starts, p);
      assert Tiles(m, p, q)[1..] == Tiles(m, p + m[p].size, q);
    }
  }

  lemma {:induction false} FitsAdds(m: Memory, starts: set<nat>, p: nat, a: seq<Tile>, b: seq<Tile>)
    ensures Fits(m, starts, p, a + b) <==> Fits(m, starts, p, a) && Fits(m, starts, p + Total(a), b)
    decreases |a|
  {
    if a == [] {
      assert a + b == b;
    } else {
      FitsAdds(m, starts, p + a[0].size, a[1..], b);
      assert (a + b)[1..] == a[1..] + b && (a + b)[0] == a[0];
    }
  }

  lemma FitsFree(m: Memory, starts: set<nat>, p: nat, n: nat)
    requires NoLive(m, starts, p, p + n) && 0 < n && p + n <= |m|
    ensures Fits(m, starts, p, [Tile.Free(n)])
  {
    assert [Tile.Free(n)][1..] == [];
  }

  /** What is at x in one heap is at x - k in the other. */
  ghost predicate SameAt(m: Memory, starts: set<nat>, m': Memory, starts': set<nat>, x: nat, k: nat)
    requires k <= x
  {
    && (Live(m, starts, x) <==> Live(m', starts', x - k))
    && (Live(m, starts, x) ==> TileOf(m'[x - k]) == TileOf(m[x]))
  }

  ghost predicate SameFrom(m: Memory, starts: set<nat>, m': Memory, starts': set<nat>, p: nat, q: nat, k: nat)
    requires k <= p
  {
    forall x: nat {:trigger SameAt(m, starts, m', starts', x, k)} | p <= x < q :: SameAt(m, starts, m', starts', x, k)
  }

  lemma {:induction false} FitsMoved(m: Memory, starts: set<nat>, m': Memory, starts': set<nat>, p: nat, k: nat,
      t: seq<Tile>)
    requires Fits(m, starts, p, t) && k <= p && |m'| == |m| && SameFrom(m, starts, m', starts', p, p + Total(t), k)
    ensures Fits(m', starts', p - k, t)
    decreases |t|
  {
    if t != [] {
      assert SameAt(m, starts, m', starts', p, k);
      if t[0].Free? {
        forall q: nat | p - k <= q < p - k + t[0].size ensures !Live(m', starts', q) {
          assert SameAt(m, starts, m', starts', q + k, k);
        }
      }
      FitsMoved(m, starts, m', starts', p + t[0].size, k, t[1..]);
    }
  }

  /** In an orderly heap only one normal list of tiles fits. */
  lemma {:induction false} FitsUnique(m: Memory, starts: set<nat>, list: seq<nat>, p: nat, t: seq<Tile>)
    requires ClusterOk(m, starts, list) && Boundary(m, starts, p) && Fits(m, starts, p, t) && Normal(t)
               && p + Total(t) == |m|
    ensures Tiles(m, p, |m|) == t
    decreases |t|
  {
    if t != [] {
      if t[0].Free? { GapIsFree(m, starts, list, p, t); }
      assert BlockOk(m, starts, p);
      assert t == [t[0]] + t[1..];
      NormalParts([t[0]], t[1..]);
      FitsUnique(m, starts, list, p + t[0].size, t[1..]);
    }
  }

  lemma {:induction false} GapIsFree(m: Memory, starts: set<nat>, list: seq<nat>, p: nat, t: seq<Tile>)
    requires ClusterOk(m, starts, list) && Boundary(m, starts, p) && Fits(m, starts, p, t) && Normal(t)
               && p + Total(t) == |m|
    requires t != [] && t[0].Free?
    ensures IsFreeStart(m, starts, p) && m[p].size == t[0].size
  {
    var q := p + t[0].size;
    assert !Live(m, starts, p) && IsFreeStart(m, starts, p);
    assert BlockOk(m, starts, p) && FreeHeaderOk(m, starts, p);
    assert End(m, p) < q ==> !Live(m, starts, End(m, p));
    if |t| > 1 {
      assert NormalAt(t, 0) && t[1..][0] == t[1];
      assert FitsOne(m, starts, q, t[1]);
      assert Live(m, starts, q);
    } else {
      assert t[1..] == [];
    }
  }

  /** The layout of an orderly heap is normal. */
  lemma {:induction false} TilesNormal(m: Memory, starts: set<nat>, list: seq<nat>, p: nat)
    requires ClusterOk(m, starts, list) && Boundary(m, starts, p) && p <= |m|
    ensures Normal(Tiles(m, p, |m|))
    decreases |m| - p
  {
    if p < |m| {
      NextBoundary(m, starts, p, |m|);
      var next := p + m[p].size;
      TilesNormal(m, starts, list, next);
      var t := Tiles(m, next, |m|);
      assert Normal([TileOf(m[p])]) by { assert forall j: nat | j < 1 :: NormalAt([TileOf(m[p])], j); }
      assert m[p].IsFree() ==> FreeHeaderOk(m, starts, p);
      NormalParts([TileOf(m[p])], t);
    }
  }
}
