/** One turn of the compaction loop on a heap is one turn on its layout. */
module LayoutSteps {
  import opened HeapModel
  import opened Options
  import opened CompactionSteps
  import opened Compaction
  import opened Settling
  import opened HC = HeapCluster
  import opened L = Layouts
  import opened OpenRegions
  import opened HeapLayout

  /** Where the compaction of the layout stands when the free region `next` is the one to be filled. */
  function StageOf(m: Memory, next: Option<nat>): Stage {
    if next.None? || next.value >= |m| then Over(Layout(m))
    else
      var fr := next.value;
      At(Tiles(m, 0, fr), m[fr].size, Tiles(m, fr + m[fr].size, |m|))
  }

  lemma FreeTile(m: Memory, starts: set<nat>, fr: nat)
    requires Tiled(m, starts) && IsFreeStart(m, starts, fr)
    ensures Boundary(m, starts, 0) && Boundary(m, starts, fr) && Boundary(m, starts, End(m, fr))
              && fr < End(m, fr) <= |m|
    ensures Tiles(m, fr, |m|) == [Tile.Free(m[fr].size)] + Tiles(m, End(m, fr), |m|)
    ensures Tiles(m, fr, End(m, fr)) == [Tile.Free(m[fr].size)]
  {
    assert BlockOk(m, starts, fr);
    assert Tiles(m, End(m, fr), End(m, fr)) == [];
  }

  lemma AtFree(m: Memory, starts: set<nat>, fr: nat)
    requires Tiled(m, starts) && IsFreeStart(m, starts, fr)
    ensures Boundary(m, starts, 0) && Boundary(m, starts, fr) && Boundary(m, starts, End(m, fr))
              && fr < End(m, fr) <= |m|
    ensures Layout(m) == Tiles(m, 0, fr) + [Tile.Free(m[fr].size)] + Tiles(m, End(m, fr), |m|)
    ensures Tiles(m, 0, End(m, fr)) == Tiles(m, 0, fr) + [Tile.Free(m[fr].size)]
  {
    FreeTile(m, starts, fr);
    TilesJoin(m, starts, 0, fr, |m|);
    TilesJoin(m, starts, 0, fr, End(m, fr));
    Regroup(Tiles(m, 0, fr), [Tile.Free(m[fr].size)], Tiles(m, End(m, fr), |m|));
  }

  /** A list of tiles that is the layout of the heap, cut at a free one. */
  lemma StageFrom(m: Memory, starts: set<nat>, done: seq<Tile>, n: nat, above: seq<Tile>)
    requires Tiled(m, starts) && Layout(m) == done + [Tile.Free(n)] + above
    ensures StageOf(m, Some(Total(done))) == At(done, n, above)
  {
    assert done + [Tile.Free(n)] + above == done + ([Tile.Free(n)] + above);
    CutTiles(m, starts, 0, done, [Tile.Free(n)] + above);
    var p := Total(done);
    assert Tiles(m, p, |m|)[0] == Tile.Free(n);
    assert Tiles(m, p, |m|)[1..] == above;
  }

  /** Tiles between two addresses with no movable block in between. */
  lemma {:induction false} NoMovableTiles(m: Memory, starts: set<nat>, p: nat, q: nat)
    requires Tiled(m, starts) && p <= q && Boundary(m, starts, p) && Boundary(m, starts, q)
               && NoMovable(m, starts, p, q)
    ensures forall j | 0 <= j < |Tiles(m, p, q)| :: !Tiles(m, p, q)[j].Movable?
    ensures L.FirstMovable(Tiles(m, p, q)) == |Tiles(m, p, q)|
    decreases q - p
  {
    if p < q {
      NextBoundary(m, starts, p, q);
      var next := p + m[p].size;
      NoMovableTiles(m, starts, next, q);
      assert Live(m, starts, p) || m[p].IsFree();
      assert Tiles(m, p, q) == [TileOf(m[p])] + Tiles(m, next, q);
    }
  }

  /** Tiles between two addresses with no listed block in between. */
  lemma {:induction false} NoFreeTiles(m: Memory, starts: set<nat>, list: seq<nat>, p: nat, q: nat)
    requires ClusterOk(m, starts, list) && p <= q && Boundary(m, starts, p) && Boundary(m, starts, q)
    requires forall x | x in list :: !(p <= x < q)
    ensures forall j | 0 <= j < |Tiles(m, p, q)| :: !Tiles(m, p, q)[j].Free?
    decreases q - p
  {
    if p < q {
      NextBoundary(m, starts, p, q);
      var next := p + m[p].size;
      NoFreeTiles(m, starts, list, next, q);
      assert !IsFreeStart(m, starts, p);
      assert Tiles(m, p, q) == [TileOf(m[p])] + Tiles(m, next, q);
    }
  }

  lemma OnwardAt(done: seq<Tile>, a: seq<Tile>, n: nat, b: seq<Tile>)
    requires forall j | 0 <= j < |a| :: !a[j].Free?
    ensures Onward(done, a + ([Tile.Free(n)] + b)) == At(done + a, n, b)
  {
    FirstFreeIs(a, n, b);
    ThreeParts(a, [Tile.Free(n)], b);
  }

  lemma OnwardOver(done: seq<Tile>, a: seq<Tile>)
    requires forall j | 0 <= j < |a| :: !a[j].Free?
    ensures Onward(done, a) == Over(done + a)
  {
  }

  lemma FirstFreeIs(a: seq<Tile>, n: nat, b: seq<Tile>)
    requires forall j | 0 <= j < |a| :: !a[j].Free?
    ensures FirstFree(a + ([Tile.Free(n)] + b)) == |a|
  {
    var t := a + ([Tile.Free(n)] + b);
    assert t[|a|].Free? && forall j | 0 <= j < |a| :: t[j] == a[j];
  }

  /** The tiles of a run are movable. */
  lemma {:induction false} TilesOfRun(m: Memory, starts: set<nat>, p: nat, q: nat)
    requires Tiled(m, starts) && p <= q && Boundary(m, starts, p) && Boundary(m, starts, q)
    requires forall x | x in starts && p <= x < q :: x < |m| && !m[x].IsUnmovable() && !m[x].IsFree()
    ensures forall j | 0 <= j < |Tiles(m, p, q)| :: Tiles(m, p, q)[j].Movable?
    ensures p < q ==> Tiles(m, p, q) != []
    decreases q - p
  {
    if p < q {
      NextBoundary(m, starts, p, q);
      var next := p + m[p].size;
      TilesOfRun(m, starts, next, q);
      assert Tiles(m, p, q) == [TileOf(m[p])] + Tiles(m, next, q);
    }
  }

  // ---------------------------------------------------------------- going on, and coming to an end

  /** `next` is the first listed block from p on. */
  ghost predicate FirstFrom(list: seq<nat>, p: nat, next: Option<nat>) {
    && (next.Some? ==> next.value in list && p <= next.value)
    && forall q | q in list && p <= q :: next.Some? && next.value <= q
  }

  lemma {:induction false} OnwardIs(m: Memory, starts: set<nat>, list: seq<nat>, p: nat, next: Option<nat>)
    requires ClusterOk(m, starts, list) && Boundary(m, starts, p) && p <= |m| && FirstFrom(list, p, next)
    ensures Onward(Tiles(m, 0, p), Tiles(m, p, |m|)) == StageOf(m, next)
  {
    assert Boundary(m, starts, 0);
    if next.None? {
      TilesJoin(m, starts, 0, p, |m|);
      NoFreeTiles(m, starts, list, p, |m|);
      OnwardOver(Tiles(m, 0, p), Tiles(m, p, |m|));
    } else {
      var fr := next.value;
      assert IsFreeStart(m, starts, fr);
      FreeTile(m, starts, fr);
      NoFreeTiles(m, starts, list, p, fr);
      TilesJoin(m, starts, p, fr, |m|);
      TilesJoin(m, starts, 0, p, fr);
      OnwardAt(Tiles(m, 0, p), Tiles(m, p, fr), m[fr].size, Tiles(m, End(m, fr), |m|));
    }
  }

  /** No movable block is left above the free region. */
  lemma {:induction false} StageDone(m: Memory, starts: set<nat>, fr: nat)
    requires Tiled(m, starts) && IsFreeStart(m, starts, fr) && NoMovable(m, starts, fr, |m|)
    ensures Next(StageOf(m, Some(fr))) == Over(Layout(m))
  {
    AtFree(m, starts, fr);
    NoMovableTiles(m, starts, End(m, fr), |m|);
  }

  /** The tiles above the free region: those that stay, and then those from the block at s on. */
  lemma {:induction false} TilesAbove(m: Memory, starts: set<nat>, fr: nat, s: nat)
    requires Tiled(m, starts) && IsFreeStart(m, starts, fr) && End(m, fr) <= s && MovableAt(m, starts, s)
               && NoMovable(m, starts, fr, s)
    ensures
      var stay := Tiles(m, End(m, fr), s);
      && Tiles(m, End(m, fr), |m|) == stay + Tiles(m, s, |m|)
      && FirstMovable(Tiles(m, End(m, fr), |m|)) == |stay|
      && Tiles(m, s, |m|) != [] && Tiles(m, s, |m|)[0] == Tile.Movable(m[s].size)
      && (stay == [] <==> End(m, fr) == s)
      && FirstMovable(stay) == |stay|
  {
    AtFree(m, starts, fr);
    var e := End(m, fr);
    TilesJoin(m, starts, e, s, |m|);
    NoMovableTiles(m, starts, e, s);
    FirstMovableOf(Tiles(m, e, s), Tiles(m, s, |m|));
    assert BlockOk(m, starts, s);
    if e < s { NextBoundary(m, starts, e, s); }
  }

  /** The free region cannot take in the movable block at s. */
  lemma {:induction false} StageSkip(m: Memory, starts: set<nat>, list: seq<nat>, fr: nat, s: nat, next: Option<nat>)
    requires ClusterOk(m, starts, list) && IsFreeStart(m, starts, fr) && FirstFrom(list, fr + 1, next)
    requires MovableAt(m, starts, s) && NoMovable(m, starts, fr, s) && End(m, fr) < s && m[fr].size < m[s].size
    ensures Next(StageOf(m, Some(fr))) == StageOf(m, next)
  {
    AtFree(m, starts, fr);
    TurnSkips(m, starts, fr, s);
    if next.Some? {
      assert IsFreeStart(m, starts, next.value);
      assert BlockOk(m, starts, fr);
    }
    OnwardIs(m, starts, list, End(m, fr), next);
  }

  lemma {:induction false} TurnSkips(m: Memory, starts: set<nat>, fr: nat, s: nat)
    requires Tiled(m, starts) && IsFreeStart(m, starts, fr)
    requires MovableAt(m, starts, s) && NoMovable(m, starts, fr, s) && End(m, fr) < s && m[fr].size < m[s].size
    ensures Next(StageOf(m, Some(fr))) == Onward(Tiles(m, 0, fr) + [Tile.Free(m[fr].size)], Tiles(m, End(m, fr), |m|))
  {
    TilesAbove(m, starts, fr, s);
    var above := Tiles(m, End(m, fr), |m|);
    assert above[L.FirstMovable(above)..] == Tiles(m, s, |m|);
  }

  // ---------------------------------------------------------------- a move

  /** The run could not be longer. */
  ghost predicate Longest(m: Memory, starts: set<nat>, st: Step) {
    && st.d < |m|
    && var e := st.s + st.n;
    e < |m| ==> m[e].IsUnmovable() || (!st.slide && st.n + m[e].size > m[st.d].size)
  }

  lemma {:induction false} RunIs(run: seq<Tile>, rest: seq<Tile>)
    requires (forall j | 0 <= j < |run| :: run[j].Movable?) && (rest != [] ==> !rest[0].Movable?)
    ensures RunLength(run + rest) == |run|
  {
    assert forall j | 0 <= j < |run| :: (run + rest)[j] == run[j];
    if run == [] {
      assert run + rest == rest;
    } else {
      assert (run + rest)[1..] == run[1..] + rest;
      RunIs(run[1..], rest);
    }
  }

  lemma {:induction false} RunFittingIs(t: seq<Tile>, k: nat, room: nat)
    requires k <= |t| && (forall j | 0 <= j < k :: t[j].Movable?) && Total(t[..k]) <= room
    requires k < |t| ==> !t[k].Movable? || Total(t[..k]) + t[k].size > room
    ensures RunFitting(t, room) == k
    decreases k
  {
    if k > 0 {
      assert t[..k][1..] == t[1..][..k - 1] && t[..k][0] == t[0];
      RunFittingIs(t[1..], k - 1, room - t[0].size);
    }
  }

  lemma {:induction false} RunFits(run: seq<Tile>, rest: seq<Tile>, room: nat)
    requires (forall j | 0 <= j < |run| :: run[j].Movable?) && Total(run) <= room
    requires rest != [] ==> !rest[0].Movable? || Total(run) + rest[0].size > room
    ensures RunFitting(run + rest, room) == |run|
  {
    assert (run + rest)[..|run|] == run;
    RunFittingIs(run + rest, |run|, room);
  }

  /** The lists that a step of the heap is about. */
  datatype Parts = Parts(done: seq<Tile>, room: nat, stay: seq<Tile>, run: seq<Tile>, rest: seq<Tile>)

  ghost function PartsOf(m: Memory, st: Step): Parts
    requires st.d < |m|
  {
    Parts(Tiles(m, 0, st.d), m[st.d].size, Tiles(m, End(m, st.d), st.s), Tiles(m, st.s, st.s + st.n),
        Tiles(m, st.s + st.n, |m|))
  }

  /** What the step does to the layout. */
  ghost function Turned(p: Parts, st: Step): Stage {
    if st.slide then Slide(p.done, p.room, p.run, p.rest) else Hop(p.done, p.room, p.stay, p.run, p.rest)
  }

  lemma {:induction false} PartsSizes(m: Memory, starts: set<nat>, list: seq<nat>, st: Step)
    requires StepOk(m, starts, list, st)
    ensures
      var p := PartsOf(m, st);
      && p.run != [] && (forall j | 0 <= j < |p.run| :: p.run[j].Movable?)
      && Total(p.run) == st.n && Total(p.done) == st.d && Total(p.stay) == st.s - End(m, st.d)
      && (!st.slide ==> st.n <= p.room)
  {
    FreeTile(m, starts, st.d);
    TilesOfRun(m, starts, st.s, st.s + st.n);
    TilesSpan(m, starts, st.s, st.s + st.n);
    TilesSpan(m, starts, 0, st.d);
    TilesSpan(m, starts, End(m, st.d), st.s);
  }

  lemma {:induction false} PartsStage(m: Memory, starts: set<nat>, list: seq<nat>, st: Step)
    requires StepOk(m, starts, list, st) && NoMovable(m, starts, st.d, st.s)
    ensures
      var p := PartsOf(m, st);
      && StageOf(m, Some(st.d)) == At(p.done, p.room, p.stay + (p.run + p.rest))
      && L.FirstMovable(p.stay) == |p.stay| && (p.stay == [] <==> st.slide)
  {
    assert BlockOk(m, starts, st.s);
    RunAbove(m, starts, st.d, st.s, st.s + st.n);
  }

  /** The tiles above a free region, cut where a run begins and where it ends. */
  lemma {:induction false} RunAbove(m: Memory, starts: set<nat>, fr: nat, s: nat, e: nat)
    requires Tiled(m, starts) && IsFreeStart(m, starts, fr) && End(m, fr) <= s && MovableAt(m, starts, s)
    requires NoMovable(m, starts, fr, s) && s <= e <= |m| && (e == |m| || e in starts)
    ensures
      var stay := Tiles(m, End(m, fr), s);
      && Tiles(m, End(m, fr), |m|) == stay + (Tiles(m, s, e) + Tiles(m, e, |m|))
      && L.FirstMovable(stay) == |stay| && (stay == [] <==> End(m, fr) == s)
  {
    TilesAbove(m, starts, fr, s);
    TilesJoin(m, starts, s, e, |m|);
  }

  lemma {:induction false} TurnSlides(done: seq<Tile>, room: nat, run: seq<Tile>, rest: seq<Tile>)
    requires run != [] && (forall j | 0 <= j < |run| :: run[j].Movable?) && (rest != [] ==> !rest[0].Movable?)
    ensures Next(At(done, room, run + rest)) == Slide(done, room, run, rest)
  {
    var above := run + rest;
    RunIs(run, rest);
    assert above[0].Movable?;
    assert above[..|run|] == run && above[|run|..] == rest;
  }

  lemma {:induction false} TurnHops(done: seq<Tile>, room: nat, stay: seq<Tile>, run: seq<Tile>, rest: seq<Tile>)
    requires L.FirstMovable(stay) == |stay| && stay != []
    requires run != [] && (forall j | 0 <= j < |run| :: run[j].Movable?) && Total(run) <= room
    requires rest != [] ==> !rest[0].Movable? || Total(run) + rest[0].size > room
    ensures Next(At(done, room, stay + (run + rest))) == Hop(done, room, stay, run, rest)
  {
    var above := stay + (run + rest);
    RunFits(run, rest, room);
    FirstMovableOf(stay, run + rest);
    assert (run + rest)[0] == run[0];
    ThreeParts(stay, run, rest);
    NextHops(At(done, room, above), |stay|, |run|, stay, run, rest);
  }

  lemma ThreeParts(a: seq<Tile>, b: seq<Tile>, c: seq<Tile>)
    ensures
      var t := a + (b + c);
      t[..|a|] == a && t[|a|..|a| + |b|] == b && t[|a| + |b|..] == c && t[|a|..] == b + c
  {
  }

  lemma NextHops(s: Stage, i: nat, k: nat, stay: seq<Tile>, run: seq<Tile>, rest: seq<Tile>)
    requires s.At? && 0 < i < |s.above| && i == L.FirstMovable(s.above)
    requires 0 < k == RunFitting(s.above[i..], s.room) && i + k <= |s.above|
    requires s.above[..i] == stay && s.above[i..i + k] == run && s.above[i + k..] == rest
    ensures Next(s) == Hop(s.done, s.room, stay, run, rest)
  {
    var next := Hop(s.done, s.room, stay, run, rest);
    assert next == Hop(s.done, s.room, s.above[..i], s.above[i..i + k], s.above[i + k..]);
  }

  /** The step of the heap is the turn of the layout. */
  lemma {:induction false} StepIsTurn(m: Memory, starts: set<nat>, list: seq<nat>, st: Step)
    requires StepOk(m, starts, list, st) && NoMovable(m, starts, st.d, st.s) && Longest(m, starts, st)
    ensures Next(StageOf(m, Some(st.d))) == Turned(PartsOf(m, st), st)
  {
    PartsSizes(m, starts, list, st);
    PartsStage(m, starts, list, st);
    AfterRun(m, starts, list, st);
    var p := PartsOf(m, st);
    if st.slide {
      assert p.stay + (p.run + p.rest) == p.run + p.rest;
      TurnSlides(p.done, p.room, p.run, p.rest);
    } else {
      TurnHops(p.done, p.room, p.stay, p.run, p.rest);
    }
  }

  lemma AfterRun(m: Memory, starts: set<nat>, list: seq<nat>, st: Step)
    requires StepOk(m, starts, list, st) && Longest(m, starts, st)
    ensures
      var rest := Tiles(m, st.s + st.n, |m|);
      rest != [] ==> !rest[0].Movable? || (!st.slide && st.n + rest[0].size > m[st.d].size)
  {
    var e := st.s + st.n;
    if e < |m| { assert BlockOk(m, starts, e); }
  }

  // ---------------------------------------------------------------- the layout after a move

  /** What has become of the cells, as far as live blocks are concerned. */
  lemma {:induction false} CellsAfter(m: Memory, starts: set<nat>, list: seq<nat>, st: Step, m': Memory,
      starts': set<nat>)
    requires StepOk(m, starts, list, st) && RunMoved(m, starts, m', starts', st.s, st.d, st.n)
    ensures SameFrom(m, starts, m', starts', 0, st.d, 0)
    ensures SameFrom(m, starts, m', starts', st.s, st.s + st.n, st.s - st.d)
    ensures SameFrom(m, starts, m', starts', st.s + st.n, |m|, 0)
    ensures st.slide ==> NoLive(m', starts', st.d + st.n, st.s + st.n)
    ensures !st.slide ==> SameFrom(m, starts, m', starts', End(m, st.d), st.s, 0)
    ensures !st.slide ==> NoLive(m', starts', st.d + st.n, End(m, st.d)) && NoLive(m', starts', st.s, st.s + st.n)
  {
    StepShape(m, starts, list, st);
    var k := st.s - st.d;
    forall x: nat ensures Live(m', starts', x) <==> LiveOnceMoved(m, starts, st.s, st.d, st.n, false, x) {
    }
    forall x: nat | x < st.d || End(m, st.d) <= x < st.s || st.s + st.n <= x < |m|
      ensures SameAt(m, starts, m', starts', x, 0)
    {
      if Live(m, starts, x) { assert BlockOk(m, starts, x) && SameBlock(m, m', x); }
    }
    forall x: nat | st.s <= x < st.s + st.n ensures SameAt(m, starts, m', starts', x, k) {
      assert m'[x - k] == m[x];
    }
  }

  /** The tiles fit, and reach from p to q. */
  ghost predicate FitsTo(m: Memory, starts: set<nat>, p: nat, t: seq<Tile>, q: nat) {
    Fits(m, starts, p, t) && p + Total(t) == q
  }

  lemma FitsThen(m: Memory, starts: set<nat>, p: nat, a: seq<Tile>, q: nat, b: seq<Tile>, r: nat)
    requires FitsTo(m, starts, p, a, q) && FitsTo(m, starts, q, b, r)
    ensures FitsTo(m, starts, p, a + b, r)
  {
    FitsAdds(m, starts, p, a, b);
    TotalAdds(a, b);
  }

  lemma FitsGap(m: Memory, starts: set<nat>, p: nat, q: nat)
    requires NoLive(m, starts, p, q) && p <= q <= |m|
    ensures FitsTo(m, starts, p, if p < q then [Tile.Free(q - p)] else [], q)
  {
    if p < q { FitsFree(m, starts, p, q - p); }
  }

  /** Without the free tile it may end with. */
  lemma {:induction false} FitsTrimmed(m: Memory, starts: set<nat>, p: nat, below: seq<Tile>, q: nat) returns (at: nat)
    requires FitsTo(m, starts, p, below, q)
    ensures p <= at <= q && NoLive(m, starts, at, q)
    ensures FitsTo(m, starts, p, if EndsFree(below) then below[..|below| - 1] else below, at)
    ensures q - at == if EndsFree(below) then below[|below| - 1].size else 0
  {
    at := q;
    if EndsFree(below) {
      var b, x := below[..|below| - 1], below[|below| - 1];
      assert below == b + [x];
      FitsAdds(m, starts, p, b, [x]);
      TotalAdds(b, [x]);
      at := p + Total(b);
    }
  }

  lemma {:induction false} FitsVacated(m: Memory, starts: set<nat>, p: nat, below: seq<Tile>, q: nat, r: nat,
      above: seq<Tile>)
    requires FitsTo(m, starts, p, below, q) && q < r <= |m| && NoLive(m, starts, q, r)
               && FitsTo(m, starts, r, above, |m|)
    ensures FitsTo(m, starts, p, Vacated(below, r - q, above), |m|)
  {
    var at := FitsTrimmed(m, starts, p, below, q);
    var b := if EndsFree(below) then below[..|below| - 1] else below;
    var a := if BeginsFree(above) then above[1..] else above;
    var end := r + if BeginsFree(above) then above[0].size else 0;
    FitsGap(m, starts, at, end);
    FitsThen(m, starts, p, b, at, [Tile.Free(end - at)], end);
    FitsThen(m, starts, p, b + [Tile.Free(end - at)], end, a, |m|);
  }

  /** The tiles below the free block, and after them the run, in the heap after the move. */
  lemma {:induction false} FitsBelow(m: Memory, starts: set<nat>, list: seq<nat>, st: Step, m': Memory,
      starts': set<nat>)
    requires StepOk(m, starts, list, st) && RunMoved(m, starts, m', starts', st.s, st.d, st.n)
    ensures FitsTo(m', starts', 0, PartsOf(m, st).done, st.d)
              && FitsTo(m', starts', st.d, PartsOf(m, st).run, st.d + st.n)
  {
    DoneFits(m, starts, list, st, m', starts');
    RunFitsThere(m, starts, list, st, m', starts');
  }

  lemma {:induction false} DoneFits(m: Memory, starts: set<nat>, list: seq<nat>, st: Step, m': Memory,
      starts': set<nat>)
    requires StepOk(m, starts, list, st) && RunMoved(m, starts, m', starts', st.s, st.d, st.n)
    ensures FitsTo(m', starts', 0, Tiles(m, 0, st.d), st.d)
  {
    FreeTile(m, starts, st.d);
    CellsAfter(m, starts, list, st, m', starts');
    FitsStill(m, starts, m', starts', 0, st.d, 0);
  }

  lemma {:induction false} RunFitsThere(m: Memory, starts: set<nat>, list: seq<nat>, st: Step, m': Memory,
      starts': set<nat>)
    requires StepOk(m, starts, list, st) && RunMoved(m, starts, m', starts', st.s, st.d, st.n)
    ensures FitsTo(m', starts', st.d, Tiles(m, st.s, st.s + st.n), st.d + st.n)
  {
    CellsAfter(m, starts, list, st, m', starts');
    TilesOfRun(m, starts, st.s, st.s + st.n);
    FitsStill(m, starts, m', starts', st.s, st.s + st.n, st.s - st.d);
  }

  lemma FitsStill(m: Memory, starts: set<nat>, m': Memory, starts': set<nat>, p: nat, q: nat, k: nat)
    requires Tiled(m, starts) && p <= q && Boundary(m, starts, p) && Boundary(m, starts, q) && k <= p && |m'| == |m|
    requires SameFrom(m, starts, m', starts', p, q, k)
    ensures FitsTo(m', starts', p - k, Tiles(m, p, q), q - k)
  {
    FitsTiles(m, starts, p, q);
    TilesSpan(m, starts, p, q);
    FitsMoved(m, starts, m', starts', p, k, Tiles(m, p, q));
  }

  lemma {:induction false} FitsAbove(m: Memory, starts: set<nat>, list: seq<nat>, st: Step, m': Memory,
      starts': set<nat>)
    requires StepOk(m, starts, list, st) && RunMoved(m, starts, m', starts', st.s, st.d, st.n)
    ensures
      var p := PartsOf(m, st);
      && FitsTo(m', starts', st.s + st.n, p.rest, |m|)
      && (!st.slide ==> FitsTo(m', starts', End(m, st.d), p.stay, st.s))
  {
    var p := PartsOf(m, st);
    FreeTile(m, starts, st.d);
    CellsAfter(m, starts, list, st, m', starts');
    FitsStill(m, starts, m', starts', st.s + st.n, |m|, 0);
    if !st.slide { FitsStill(m, starts, m', starts', End(m, st.d), st.s, 0); }
  }

  /** After a slide the free region lies above the run. */
  lemma {:induction false} SlideFits(m: Memory, starts: set<nat>, list: seq<nat>, st: Step, m': Memory,
      starts': set<nat>, p: Parts)
    requires StepOk(m, starts, list, st) && st.slide && RunMoved(m, starts, m', starts', st.s, st.d, st.n)
               && p == PartsOf(m, st)
    ensures FitsTo(m', starts', 0, p.done + p.run + Vacated([], p.room, p.rest), |m|)
  {
    FitsBelow(m, starts, list, st, m', starts');
    FitsAbove(m, starts, list, st, m', starts');
    CellsAfter(m, starts, list, st, m', starts');
    StepShape(m, starts, list, st);
    SlideJoins(m', starts', p, st.d, st.d + st.n, st.s + st.n);
  }

  lemma SlideJoins(m: Memory, starts: set<nat>, p: Parts, d: nat, e: nat, r: nat)
    requires FitsTo(m, starts, 0, p.done, d) && FitsTo(m, starts, d, p.run, e) && FitsTo(m, starts, r, p.rest, |m|)
    requires e < r <= |m| && r - e == p.room && NoLive(m, starts, e, r)
    ensures FitsTo(m, starts, 0, p.done + p.run + Vacated([], p.room, p.rest), |m|)
  {
    FitsThen(m, starts, 0, p.done, d, p.run, e);
    FitsVacated(m, starts, e, [], e, r, p.rest);
    FitsThen(m, starts, 0, p.done + p.run, e, Vacated([], p.room, p.rest), |m|);
  }

  /** After a hop the rest of the free region, if any, lies above the run, and the vacated cells further up. */
  lemma {:induction false} HopFits(m: Memory, starts: set<nat>, list: seq<nat>, st: Step, m': Memory, starts': set<nat>,
      p: Parts)
    requires StepOk(m, starts, list, st) && !st.slide && RunMoved(m, starts, m', starts', st.s, st.d, st.n)
               && p == PartsOf(m, st)
    ensures FitsTo(m', starts', 0, p.done + p.run + Rest(st.rest) + Vacated(p.stay, st.n, p.rest), |m|)
  {
    FitsBelow(m, starts, list, st, m', starts');
    FitsAbove(m, starts, list, st, m', starts');
    CellsAfter(m, starts, list, st, m', starts');
    StepShape(m, starts, list, st);
    HopJoins(m', starts', p, st.d, st.d + st.n, End(m, st.d), st.s, st.s + st.n);
  }

  function Rest(n: nat): seq<Tile> {
    if n > 0 then [Tile.Free(n)] else []
  }

  lemma HopJoins(m: Memory, starts: set<nat>, p: Parts, d: nat, e: nat, f: nat, s: nat, r: nat)
    requires FitsTo(m, starts, 0, p.done, d) && FitsTo(m, starts, d, p.run, e) && e <= f && NoLive(m, starts, e, f)
    requires FitsTo(m, starts, f, p.stay, s) && s < r <= |m| && NoLive(m, starts, s, r)
               && FitsTo(m, starts, r, p.rest, |m|)
    ensures FitsTo(m, starts, 0, p.done + p.run + Rest(f - e) + Vacated(p.stay, r - s, p.rest), |m|)
  {
    FitsThen(m, starts, 0, p.done, d, p.run, e);
    FitsGap(m, starts, e, f);
    FitsThen(m, starts, 0, p.done + p.run, e, Rest(f - e), f);
    FitsVacated(m, starts, f, p.stay, s, r, p.rest);
    FitsThen(m, starts, 0, p.done + p.run + Rest(f - e), f, Vacated(p.stay, r - s, p.rest), |m|);
  }
}
