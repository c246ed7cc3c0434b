/** A move of the compactor takes the layout of the heap through one turn. */
module LayoutMoves {
  import opened HeapModel
  import opened Options
  import opened CompactionSteps
  import opened Compaction
  import opened Settling
  import opened HC = HeapCluster
  import opened L = Layouts
  import opened OpenRegions
  import opened HeapLayout
  import opened LayoutSteps

  lemma AllAfterSlide(done: seq<Tile>, room: nat, run: seq<Tile>, rest: seq<Tile>)
    ensures AllTiles(Slide(done, room, run, rest)) == done + run + Vacated([], room, rest)
  {
    var s := Slide(done, room, run, rest);
    assert Vacated([], room, rest) == [Tile.Free(s.room)] + s.above;
    Regroup(done + run, [Tile.Free(s.room)], s.above);
  }

  lemma AllAfterHop(done: seq<Tile>, room: nat, stay: seq<Tile>, run: seq<Tile>, rest: seq<Tile>)
    requires Total(run) <= room
    ensures AllTiles(Hop(done, room, stay, run, rest)) == done + run + Rest(room - Total(run))
              + Vacated(stay, Total(run), rest)
  {
    var w := Total(run);
    if w == room {
      assert done + run + Rest(0) == done + run;
      OnwardTiles(done + run, Vacated(stay, w, rest));
      if LeavesBehind(stay, rest) {
        OnwardTiles(done + run + stay + [Tile.Free(w)], rest);
        assert Vacated(stay, w, rest) == stay + [Tile.Free(w)] + rest;
        assert done + run + (stay + [Tile.Free(w)] + rest) == done + run + stay + [Tile.Free(w)] + rest;
      }
    }
  }

  lemma StageAll(m: Memory, starts: set<nat>, fr: nat)
    requires Tiled(m, starts) && IsFreeStart(m, starts, fr)
    ensures AllTiles(StageOf(m, Some(fr))) == Layout(m)
  {
    AtFree(m, starts, fr);
  }

  lemma {:induction false} StageNormal(m: Memory, starts: set<nat>, list: seq<nat>, fr: nat)
    requires ClusterOk(m, starts, list) && IsFreeStart(m, starts, fr)
    ensures Normal(AllTiles(StageOf(m, Some(fr))))
  {
    StageAll(m, starts, fr);
    TilesNormal(m, starts, list, 0);
  }

  lemma {:induction false} TurnNormal(m: Memory, starts: set<nat>, list: seq<nat>, st: Step)
    requires StepOk(m, starts, list, st) && NoMovable(m, starts, st.d, st.s) && Longest(m, starts, st)
    ensures Normal(AllTiles(Turned(PartsOf(m, st), st)))
  {
    StepIsTurn(m, starts, list, st);
    StageNormal(m, starts, list, st.d);
    NormalNext(StageOf(m, Some(st.d)));
  }

  /** The tiles after a move, one after the other. */
  ghost function TilesAfter(p: Parts, st: Step): seq<Tile> {
    if st.slide then p.done + p.run + Vacated([], p.room, p.rest)
    else p.done + p.run + Rest(st.rest) + Vacated(p.stay, st.n, p.rest)
  }

  lemma TurnedTiles(p: Parts, st: Step)
    requires Total(p.run) == st.n && (!st.slide ==> st.n <= p.room && st.rest == p.room - st.n)
    ensures AllTiles(Turned(p, st)) == TilesAfter(p, st)
  {
    if st.slide {
      AllAfterSlide(p.done, p.room, p.run, p.rest);
    } else {
      AllAfterHop(p.done, p.room, p.stay, p.run, p.rest);
    }
  }

  lemma {:induction false} TurnFits(m: Memory, starts: set<nat>, list: seq<nat>, st: Step, m': Memory,
      starts': set<nat>)
    requires StepOk(m, starts, list, st) && RunMoved(m, starts, m', starts', st.s, st.d, st.n)
    ensures FitsTo(m', starts', 0, TilesAfter(PartsOf(m, st), st), |m|)
  {
    if st.slide {
      SlideFits(m, starts, list, st, m', starts', PartsOf(m, st));
    } else {
      HopFits(m, starts, list, st, m', starts', PartsOf(m, st));
    }
  }

  /** The layout after the move. */
  lemma {:induction false} MovedLayout(m: Memory, starts: set<nat>, list: seq<nat>, st: Step, m': Memory,
      starts': set<nat>, list': seq<nat>)
    requires StepOk(m, starts, list, st) && NoMovable(m, starts, st.d, st.s) && Longest(m, starts, st)
    requires RunMoved(m, starts, m', starts', st.s, st.d, st.n) && ClusterOk(m', starts', list')
    ensures Layout(m') == AllTiles(Turned(PartsOf(m, st), st))
  {
    TurnNormal(m, starts, list, st);
    TurnFits(m, starts, list, st, m', starts');
    PartsSizes(m, starts, list, st);
    TurnedTiles(PartsOf(m, st), st);
    FitsUnique(m', starts', list', 0, AllTiles(Turned(PartsOf(m, st), st)));
  }

  // ---------------------------------------------------------------- the free region that comes next

  /** What a hop that fills its region exactly makes of the place it leaves: it is the next region if it has
      merged with what was to be the next one, and it is passed over only if it has not. */
  ghost predicate PlaceOk(st: Step, m': Memory, list': seq<nat>, next: Option<nat>) {
    && st.s < |m'|
    && (next == Some(st.s) ==> st.n < m'[st.s].size)
    && (st.s in list' && st.s < Limit(m', next) ==> m'[st.s].size == st.n)
  }

  /** The free region with which the loop goes on after a move. */
  ghost predicate NextOk(m: Memory, list: seq<nat>, st: Step, m': Memory, list': seq<nat>, next: Option<nat>) {
    && (next.Some? ==> next.value in list' && st.d + st.n <= next.value)
    && FreeBelow(m, list, st, m', list', Limit(m', next))
    && (st.rest > 0 ==> next == Some(st.d + st.n))
    && (st.rest == 0 ==> PlaceOk(st, m', list', next))
  }

  /** No listed block lies among tiles of which none is free. */
  lemma {:induction false} NoneListed(m: Memory, starts: set<nat>, list: seq<nat>, p: nat, q: nat)
    requires ClusterOk(m, starts, list) && p <= q && Boundary(m, starts, p) && Boundary(m, starts, q)
    requires forall j | 0 <= j < |Tiles(m, p, q)| :: !Tiles(m, p, q)[j].Free?
    ensures forall x | x in list :: !(p <= x < q)
    decreases q - p
  {
    if p < q {
      NextBoundary(m, starts, p, q);
      var next := p + m[p].size;
      var t := Tiles(m, p, q);
      assert t[1..] == Tiles(m, next, q) && !t[0].Free?;
      NoneListed(m, starts, list, next, q);
      assert BlockOk(m, starts, p);
      forall x | x in list ensures !(p <= x < next) {
        assert IsFreeStart(m, starts, x);
      }
    }
  }

  /** A place left behind between tiles that are not free: only it is listed from e up to its end. */
  lemma {:induction false} PlaceLeft(m: Memory, starts: set<nat>, list: seq<nat>, low: seq<Tile>, stay: seq<Tile>,
      n: nat, rest: seq<Tile>, e: nat, s: nat)
    requires ClusterOk(m, starts, list) && Layout(m) == low + stay + [Tile.Free(n)] + rest && 0 < n
    requires (forall j | 0 <= j < |stay| :: !stay[j].Free?) && Total(low) == e && e + Total(stay) == s
    ensures Boundary(m, starts, s + n) && s + n <= |m| && m[s].size == n
    ensures Tiles(m, 0, s + n) == low + stay + [Tile.Free(n)] && Tiles(m, s + n, |m|) == rest
    ensures forall x | x in list && e <= x < s + n :: x == s
  {
    TotalAdds(low, stay);
    TotalAdds(low + stay, [Tile.Free(n)]);
    CutTiles(m, starts, 0, low + stay + [Tile.Free(n)], rest);
    Regroup(low + stay, [Tile.Free(n)], rest);
    CutTiles(m, starts, 0, low + stay, [Tile.Free(n)] + rest);
    PlaceAt(m, starts, list, s, n, rest);
    StayListed(m, starts, list, low, stay, [Tile.Free(n)] + rest, e, s);
  }

  lemma {:induction false} StayListed(m: Memory, starts: set<nat>, list: seq<nat>, low: seq<Tile>, stay: seq<Tile>,
      rest: seq<Tile>, e: nat, s: nat)
    requires ClusterOk(m, starts, list) && Layout(m) == low + stay + rest
    requires (forall j | 0 <= j < |stay| :: !stay[j].Free?) && Total(low) == e && e + Total(stay) == s
    ensures forall x | x in list :: !(e <= x < s)
  {
    Regroup(low, stay, rest);
    CutTiles(m, starts, 0, low, stay + rest);
    CutTiles(m, starts, e, stay, rest);
    NoneListed(m, starts, list, e, s);
  }

  lemma PlaceAt(m: Memory, starts: set<nat>, list: seq<nat>, s: nat, n: nat, rest: seq<Tile>)
    requires ClusterOk(m, starts, list) && Boundary(m, starts, s) && s <= |m|
               && Tiles(m, s, |m|) == [Tile.Free(n)] + rest && 0 < n
    ensures s < |m| && IsFreeStart(m, starts, s) && m[s].size == n && forall x | x in list :: !(s < x < s + n)
  {
    assert Tiles(m, s, |m|)[0] == Tile.Free(n);
    assert BlockOk(m, starts, s);
    forall x | x in list ensures !(s < x < s + n) {
      assert IsFreeStart(m, starts, x);
    }
  }

  /** Passing over the place. */
  lemma AfterPlace(m: Memory, list: seq<nat>, st: Step, m': Memory, list': seq<nat>, next: Option<nat>)
    requires NextOk(m, list, st, m', list', next) && st.rest == 0 && 0 < st.n && st.d < st.s < |m'|
               && m'[st.s].size == st.n
    requires forall x | x in list' :: x < |m'| && (st.d + st.n <= x < st.s + st.n ==> x == st.s)
    ensures FirstFrom(list', st.s + st.n, next)
  {
    if next.Some? {
      assert next.value != st.s;
      assert st.s + st.n <= next.value;
    }
    forall q | q in list' && st.s + st.n <= q ensures next.Some? && next.value <= q {
      assert q < Limit(m', next) ==> q == st.s || q < st.d;
    }
  }

  /** A free tile of the layout is listed. */
  lemma ListedAt(m: Memory, starts: set<nat>, list: seq<nat>, a: seq<Tile>, n: nat, b: seq<Tile>)
    requires ClusterOk(m, starts, list) && Layout(m) == a + ([Tile.Free(n)] + b)
    ensures Total(a) in list && Total(a) < |m| && m[Total(a)].size == n
  {
    CutTiles(m, starts, 0, a, [Tile.Free(n)] + b);
    assert Tiles(m, Total(a), |m|)[0] == Tile.Free(n);
    assert IsFreeStart(m, starts, Total(a));
  }

  /** The lowest free tile of those that stay is listed below the place. */
  lemma {:induction false} ListedBelow(m: Memory, starts: set<nat>, list: seq<nat>, low: seq<Tile>, stay: seq<Tile>,
      n: nat, rest: seq<Tile>)
    requires ClusterOk(m, starts, list) && Layout(m) == low + Vacated(stay, n, rest) && FirstFree(stay) < |stay|
               && Normal(stay)
    ensures exists x :: x in list && Total(low) <= x < Total(low) + Total(stay)
  {
    var i, v := FirstFree(stay), Vacated(stay, n, rest);
    assert v[..i] == stay[..i] && v[i].Free?;
    assert low + v == (low + stay[..i]) + ([Tile.Free(v[i].size)] + v[i + 1..]);
    ListedAt(m, starts, list, low + stay[..i], v[i].size, v[i + 1..]);
    TotalAdds(low, stay[..i]);
    TotalAdds(stay[..i], stay[i..]);
    assert stay == stay[..i] + stay[i..] && NormalAt(stay, i);
  }

  /** The place has merged with a free block above it. */
  lemma {:induction false} MergedAbove(m: Memory, starts: set<nat>, list: seq<nat>, low: seq<Tile>, stay: seq<Tile>,
      n: nat, rest: seq<Tile>)
    requires ClusterOk(m, starts, list) && Layout(m) == low + Vacated(stay, n, rest)
    requires FirstFree(stay) == |stay| && BeginsFree(rest) && Normal(rest)
    ensures Total(low) + Total(stay) < |m| && n < m[Total(low) + Total(stay)].size
  {
    assert NormalAt(rest, 0);
    var x := n + rest[0].size;
    assert low + Vacated(stay, n, rest) == (low + stay) + ([Tile.Free(x)] + rest[1..]);
    ListedAt(m, starts, list, low + stay, x, rest[1..]);
    TotalAdds(low, stay);
  }

  /** The place is not passed over if another free block lies between it and the region just filled, or
      touches it. */
  lemma {:induction false} NotPassed(m: Memory, list: seq<nat>, st: Step, m': Memory, starts': set<nat>,
      list': seq<nat>, next: Option<nat>, low: seq<Tile>, stay: seq<Tile>, rest: seq<Tile>)
    requires NextOk(m, list, st, m', list', next) && st.rest == 0 && st.d + st.n + Total(stay) == st.s
               && ClusterOk(m', starts', list')
    requires Layout(m') == low + Vacated(stay, st.n, rest) && Total(low) == st.d + st.n && Normal(stay) && Normal(rest)
    requires !LeavesBehind(stay, rest) && 0 < st.n
    ensures FirstFrom(list', st.d + st.n, next)
  {
    if FirstFree(stay) < |stay| {
      ListedBelow(m', starts', list', low, stay, st.n, rest);
    } else {
      MergedAbove(m', starts', list', low, stay, st.n, rest);
    }
    forall q | q in list' && st.d + st.n <= q ensures next.Some? && next.value <= q {
      assert IsFreeStart(m', starts', q);
      OnlyPlace(m, list, st, m', list', next, q);
    }
  }

  lemma OnlyPlace(m: Memory, list: seq<nat>, st: Step, m': Memory, list': seq<nat>, next: Option<nat>, q: nat)
    requires NextOk(m, list, st, m', list', next) && st.rest == 0 && 0 < st.n && q in list' && st.d + st.n <= q < |m'|
    requires (exists x :: x in list' && st.d + st.n <= x < st.s) || (st.s < |m'| && st.n < m'[st.s].size)
    ensures next.Some? && next.value <= q
  {
    if exists x :: x in list' && st.d + st.n <= x < st.s {
      var x :| x in list' && st.d + st.n <= x < st.s;
      assert x < Limit(m', next) ==> x == st.s || x < st.d;
    }
    assert q < Limit(m', next) ==> q == st.s || q < st.d;
  }

  // ---------------------------------------------------------------- the move as a turn

  /** After a move that leaves a rest of the free region, or a slide. */
  lemma {:induction false} StageAfterPart(m: Memory, starts: set<nat>, list: seq<nat>, st: Step, m': Memory,
      starts': set<nat>)
    requires StepOk(m, starts, list, st) && st.rest > 0 && Tiled(m', starts')
    requires Layout(m') == AllTiles(Turned(PartsOf(m, st), st))
    ensures StageOf(m', Some(st.d + st.n)) == Turned(PartsOf(m, st), st)
  {
    var p := PartsOf(m, st);
    PartsSizes(m, starts, list, st);
    TotalAdds(p.done, p.run);
    var s := Turned(p, st);
    StageFrom(m', starts', s.done, s.room, s.above);
  }

  /** The loop goes on above the place. */
  lemma {:induction false} StagePasses(m: Memory, list: seq<nat>, st: Step, m': Memory, starts': set<nat>,
      list': seq<nat>, next: Option<nat>, low: seq<Tile>, stay: seq<Tile>, rest: seq<Tile>)
    requires NextOk(m, list, st, m', list', next) && st.rest == 0 && 0 < st.n && st.d < st.s
               && ClusterOk(m', starts', list')
    requires Layout(m') == low + Vacated(stay, st.n, rest) && Total(low) == st.d + st.n
               && st.d + st.n + Total(stay) == st.s
    requires LeavesBehind(stay, rest)
    ensures StageOf(m', next) == Onward(low + stay + [Tile.Free(st.n)], rest)
  {
    assert Vacated(stay, st.n, rest) == stay + [Tile.Free(st.n)] + rest;
    assert low + (stay + [Tile.Free(st.n)] + rest) == low + stay + [Tile.Free(st.n)] + rest;
    PlaceLeft(m', starts', list', low, stay, st.n, rest, st.d + st.n, st.s);
    ListedInside(m', starts', list');
    AfterPlace(m, list, st, m', list', next);
    OnwardIs(m', starts', list', st.s + st.n, next);
  }

  /** The loop goes on right above the run. */
  lemma {:induction false} StageStays(m: Memory, list: seq<nat>, st: Step, m': Memory, starts': set<nat>,
      list': seq<nat>, next: Option<nat>, low: seq<Tile>, stay: seq<Tile>, rest: seq<Tile>)
    requires NextOk(m, list, st, m', list', next) && st.rest == 0 && 0 < st.n && st.d < st.s
               && ClusterOk(m', starts', list')
    requires Layout(m') == low + Vacated(stay, st.n, rest) && Total(low) == st.d + st.n
               && st.d + st.n + Total(stay) == st.s
    requires !LeavesBehind(stay, rest) && Normal(stay) && Normal(rest)
    ensures StageOf(m', next) == Onward(low, Vacated(stay, st.n, rest))
  {
    NotPassed(m, list, st, m', starts', list', next, low, stay, rest);
    CutTiles(m', starts', 0, low, Vacated(stay, st.n, rest));
    OnwardIs(m', starts', list', st.d + st.n, next);
  }

  /** After a hop that has filled its region exactly. */
  lemma {:induction false} StageAfterHop(m: Memory, starts: set<nat>, list: seq<nat>, st: Step, m': Memory,
      starts': set<nat>, list': seq<nat>, next: Option<nat>)
    requires StepOk(m, starts, list, st) && st.rest == 0 && ClusterOk(m', starts', list')
    requires Layout(m') == AllTiles(Turned(PartsOf(m, st), st)) && NextOk(m, list, st, m', list', next)
    ensures StageOf(m', next) == Turned(PartsOf(m, st), st)
  {
    var p := PartsOf(m, st);
    var low := p.done + p.run;
    FreeTile(m, starts, st.d);
    PartsSizes(m, starts, list, st);
    TotalAdds(p.done, p.run);
    AllAfterHop(p.done, p.room, p.stay, p.run, p.rest);
    assert low + Rest(0) == low;
    if LeavesBehind(p.stay, p.rest) {
      StagePasses(m, list, st, m', starts', list', next, low, p.stay, p.rest);
    } else {
      PartsNormal(m, starts, list, st);
      StageStays(m, list, st, m', starts', list', next, low, p.stay, p.rest);
    }
  }

  lemma ListedInside(m: Memory, starts: set<nat>, list: seq<nat>)
    requires ClusterOk(m, starts, list)
    ensures forall x | x in list :: x < |m|
  {
    forall x | x in list ensures x < |m| {
      assert IsFreeStart(m, starts, x);
    }
  }

  lemma PartsNormal(m: Memory, starts: set<nat>, list: seq<nat>, st: Step)
    requires StepOk(m, starts, list, st)
    ensures Normal(PartsOf(m, st).stay) && Normal(PartsOf(m, st).rest)
  {
    FreeTile(m, starts, st.d);
    TilesNormal(m, starts, list, End(m, st.d));
    TilesJoin(m, starts, End(m, st.d), st.s, |m|);
    TilesJoin(m, starts, st.s, st.s + st.n, |m|);
    NormalParts(Tiles(m, End(m, st.d), st.s), Tiles(m, st.s, |m|));
    NormalParts(Tiles(m, st.s, st.s + st.n), Tiles(m, st.s + st.n, |m|));
  }

  /** A move takes the layout through one turn. */
  lemma {:induction false} MoveIsTurn(m: Memory, starts: set<nat>, list: seq<nat>, st: Step, m': Memory,
      starts': set<nat>, list': seq<nat>, next: Option<nat>)
    requires StepOk(m, starts, list, st) && NoMovable(m, starts, st.d, st.s) && Longest(m, starts, st)
    requires RunMoved(m, starts, m', starts', st.s, st.d, st.n) && ClusterOk(m', starts', list')
    requires NextOk(m, list, st, m', list', next)
    ensures StageOf(m', next) == Next(StageOf(m, Some(st.d)))
  {
    MovedLayout(m, starts, list, st, m', starts', list');
    StepIsTurn(m, starts, list, st);
    if st.rest > 0 {
      StageAfterPart(m, starts, list, st, m', starts');
    } else {
      StageAfterHop(m, starts, list, st, m', starts', list', next);
    }
  }

  // ---------------------------------------------------------------- the whole run

  /** Going on with the free region `next` ends in the layout that the compaction is to make. */
  ghost predicate Planned(m0: Memory, m: Memory, next: Option<nat>) {
    Finish(StageOf(m, next)) == Compacted(Layout(m0))
  }

  lemma FinishTurn(s: Stage)
    requires s.At?
    ensures Finish(s) == Finish(Next(s))
  {
  }

  lemma PlanStart(m: Memory, starts: set<nat>, list: seq<nat>)
    requires ClusterOk(m, starts, list)
    ensures Planned(m, m, if list == [] then None else Some(list[0]))
  {
    assert Tiles(m, 0, 0) == [];
    OnwardIs(m, starts, list, 0, if list == [] then None else Some(list[0]));
  }

  lemma {:induction false} SameTiles(m: Memory, starts: set<nat>, m': Memory, p: nat, q: nat)
    requires Tiled(m, starts) && SameLayout(m, starts, m') && (p in starts || p >= |m|)
    ensures Tiles(m', p, q) == Tiles(m, p, q)
    decreases |m| - p
  {
    if p < q && p < |m| {
      assert BlockOk(m, starts, p) && SameHeader(m, m', p);
      SameTiles(m, starts, m', p + m[p].size, q);
    }
  }

  /** Rewriting pointers leaves the layout alone. */
  lemma PlanFlushed(m0: Memory, m: Memory, starts: set<nat>, fr: nat, m': Memory)
    requires Planned(m0, m, Some(fr)) && Tiled(m, starts) && IsFreeStart(m, starts, fr) && SameLayout(m, starts, m')
    ensures Planned(m0, m', Some(fr))
  {
    SameStage(m, starts, fr, m');
  }

  lemma SameStage(m: Memory, starts: set<nat>, fr: nat, m': Memory)
    requires Tiled(m, starts) && IsFreeStart(m, starts, fr) && SameLayout(m, starts, m')
    ensures StageOf(m', Some(fr)) == StageOf(m, Some(fr))
  {
    FreeTile(m, starts, fr);
    assert SameHeader(m, m', fr);
    SameTiles(m, starts, m', 0, fr);
    SameTiles(m, starts, m', End(m, fr), |m|);
  }

  lemma PlanSkip(m0: Memory, m: Memory, starts: set<nat>, list: seq<nat>, fr: nat, s: nat, next: Option<nat>)
    requires Planned(m0, m, Some(fr)) && ClusterOk(m, starts, list) && IsFreeStart(m, starts, fr)
               && Follows(list, fr, next)
    requires MovableAt(m, starts, s) && NoMovable(m, starts, fr, s) && End(m, fr) < s && m[fr].size < m[s].size
    ensures Planned(m0, m, next)
  {
    FollowerFirst(list, fr, next);
    StageSkip(m, starts, list, fr, s, next);
    FinishTurn(StageOf(m, Some(fr)));
  }

  lemma FollowerFirst(list: seq<nat>, fr: nat, next: Option<nat>)
    requires Ascending(list) && Follows(list, fr, next)
    ensures FirstFrom(list, fr + 1, next)
  {
    var i: nat :| FollowsAt(list, fr, next, i);
    forall q | q in list && fr + 1 <= q ensures next.Some? && next.value <= q {
      var j :| 0 <= j < |list| && list[j] == q;
      LaterThan(list, i, j);
    }
  }

  lemma LaterThan(list: seq<nat>, i: nat, j: nat)
    requires Ascending(list) && i < |list| && j < |list| && list[i] < list[j]
    ensures i < j && list[i + 1] <= list[j]
  {
  }

  lemma PlanMove(m0: Memory, m: Memory, starts: set<nat>, list: seq<nat>, st: Step, m': Memory, starts': set<nat>,
      list': seq<nat>, next: Option<nat>)
    requires Planned(m0, m, Some(st.d)) && StepOk(m, starts, list, st) && NoMovable(m, starts, st.d, st.s)
               && Longest(m, starts, st)
    requires RunMoved(m, starts, m', starts', st.s, st.d, st.n) && ClusterOk(m', starts', list')
               && NextOk(m, list, st, m', list', next)
    ensures Planned(m0, m', next)
  {
    MoveIsTurn(m, starts, list, st, m', starts', list', next);
    FinishTurn(StageOf(m, Some(st.d)));
  }

  /** The loop ends with the layout that the compaction was to make. */
  lemma PlanDone(m0: Memory, m: Memory, starts: set<nat>, next: Option<nat>)
    requires Planned(m0, m, next) && Tiled(m, starts)
    requires next.Some? ==> IsFreeStart(m, starts, next.value) && NoMovable(m, starts, next.value, |m|)
    ensures Layout(m) == Compacted(Layout(m0))
  {
    if next.Some? {
      StageDone(m, starts, next.value);
      FinishTurn(StageOf(m, next));
    }
  }
}
