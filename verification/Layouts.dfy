/** The layout of a heap as a list of tiles, and the layout that a compaction makes of it. */
module Layouts {
  /** A block seen from outside: what may happen to it, and its size. */
  datatype Tile = Free(size: nat) | Movable(size: nat) | Pinned(size: nat)

  function Total(t: seq<Tile>): nat {
    if t == [] then 0 else t[0].size + Total(t[1..])
  }

  /** The number of movable tiles. */
  function Movables(t: seq<Tile>): nat {
    if t == [] then 0 else (if t[0].Movable? then 1 else 0) + Movables(t[1..])
  }

  /** The index of the first movable tile, or the number of tiles. */
  function FirstMovable(t: seq<Tile>): (i: nat)
    ensures i <= |t| && (i < |t| ==> t[i].Movable?)
    ensures forall j | 0 <= j < i :: !t[j].Movable?
  {
    if t == [] || t[0].Movable? then 0 else 1 + FirstMovable(t[1..])
  }

  /** The index of the first free tile, or the number of tiles. */
  function FirstFree(t: seq<Tile>): (i: nat)
    ensures i <= |t| && (i < |t| ==> t[i].Free?)
    ensures forall j | 0 <= j < i :: !t[j].Free?
  {
    if t == [] || t[0].Free? then 0 else 1 + FirstFree(t[1..])
  }

  /** How many movable tiles t begins with. */
  function RunLength(t: seq<Tile>): (k: nat)
    ensures k <= |t| && forall j | 0 <= j < k :: t[j].Movable?
    ensures t != [] && t[0].Movable? ==> 0 < k
  {
    if t == [] || !t[0].Movable? then 0 else 1 + RunLength(t[1..])
  }

  /** How many of them fit into `room` cells. */
  function RunFitting(t: seq<Tile>, room: nat): (k: nat)
    ensures k <= |t| && forall j | 0 <= j < k :: t[j].Movable?
    decreases |t|
  {
    if t == [] || !t[0].Movable? || t[0].size > room then 0 else 1 + RunFitting(t[1..], room - t[0].size)
  }

  lemma {:induction false} RunFittingFits(t: seq<Tile>, room: nat)
    ensures Total(t[..RunFitting(t, room)]) <= room
    decreases |t|
  {
    if t != [] && t[0].Movable? && t[0].size <= room {
      var k := RunFitting(t[1..], room - t[0].size);
      RunFittingFits(t[1..], room - t[0].size);
      assert t[..1 + k][1..] == t[1..][..k];
    }
  }

  // ---------------------------------------------------------------- lists of tiles

  lemma {:induction false} TotalAdds(a: seq<Tile>, b: seq<Tile>)
    ensures Total(a + b) == Total(a) + Total(b)
    ensures Movables(a + b) == Movables(a) + Movables(b)
  {
    if a == [] {
      assert a + b == b;
    } else {
      assert (a + b)[1..] == a[1..] + b;
      TotalAdds(a[1..], b);
    }
  }

  lemma {:induction false} AllMovable(t: seq<Tile>)
    requires forall j | 0 <= j < |t| :: t[j].Movable?
    ensures Movables(t) == |t|
  {
    if t != [] { AllMovable(t[1..]); }
  }

  /** Cut after the first `k` tiles from index i on. */
  lemma {:induction false} CutMovables(t: seq<Tile>, i: nat, k: nat)
    requires i + k <= |t| && forall j | i <= j < i + k :: t[j].Movable?
    ensures t == t[..i] + t[i..i + k] + t[i + k..]
    ensures Movables(t) == Movables(t[..i]) + k + Movables(t[i + k..])
  {
    assert t == t[..i] + t[i..i + k] + t[i + k..];
    TotalAdds(t[..i] + t[i..i + k], t[i + k..]);
    TotalAdds(t[..i], t[i..i + k]);
    AllMovable(t[i..i + k]);
  }

  lemma {:induction false} DropMovables(t: seq<Tile>, i: nat)
    requires i <= |t|
    ensures Movables(t[i..]) <= Movables(t)
  {
    assert t == t[..i] + t[i..];
    TotalAdds(t[..i], t[i..]);
  }

  predicate BeginsFree(t: seq<Tile>) { t != [] && t[0].Free? }

  predicate EndsFree(t: seq<Tile>) { t != [] && t[|t| - 1].Free? }

  /** `w` cells become free between two lists of tiles, and merge with the free tiles they touch. */
  function Vacated(below: seq<Tile>, w: nat, above: seq<Tile>): seq<Tile> {
    var left, right := EndsFree(below), BeginsFree(above);
    (if left then below[..|below| - 1] else below)
    + [Free((if left then below[|below| - 1].size else 0) + w + (if right then above[0].size else 0))]
    + (if right then above[1..] else above)
  }

  lemma {:induction false} VacatedMovables(below: seq<Tile>, w: nat, above: seq<Tile>)
    ensures Movables(Vacated(below, w, above)) == Movables(below) + Movables(above)
    ensures Total(Vacated(below, w, above)) == Total(below) + w + Total(above)
  {
    var left, right := EndsFree(below), BeginsFree(above);
    var b := if left then below[..|below| - 1] else below;
    var a := if right then above[1..] else above;
    var f := Free((if left then below[|below| - 1].size else 0) + w + (if right then above[0].size else 0));
    if left {
      assert below == b + [below[|below| - 1]];
      TotalAdds(b, [below[|below| - 1]]);
    }
    TotalAdds(b + [f], a);
    TotalAdds(b, [f]);
  }

  // ---------------------------------------------------------------- the compaction of a layout

  /** The compaction at work: the tiles that are done with, the size of the free region being filled, and
      the tiles above it; or the layout it has ended with. */
  datatype Stage = At(done: seq<Tile>, room: nat, above: seq<Tile>) | Over(tiles: seq<Tile>)

  /** Turning to the first free region above the tiles that are done with. */
  function Onward(done: seq<Tile>, above: seq<Tile>): Stage {
    var j := FirstFree(above);
    if j == |above| then Over(done + above) else At(done + above[..j], above[j].size, above[j + 1..])
  }

  /** The region touches the movable tiles above it: they slide down, and it moves above them. */
  function Slide(done: seq<Tile>, room: nat, run: seq<Tile>, rest: seq<Tile>): Stage {
    if BeginsFree(rest) then At(done + run, room + rest[0].size, rest[1..]) else At(done + run, room, rest)
  }

  /** A hop has filled its free region exactly and leaves a place behind: the next free region lies
      further up, and is neither that place nor part of it. */
  predicate LeavesBehind(stay: seq<Tile>, rest: seq<Tile>) {
    FirstFree(stay) == |stay| && !BeginsFree(rest)
  }

  /** The movable tiles hop over those that stay, into the region. */
  function Hop(done: seq<Tile>, room: nat, stay: seq<Tile>, run: seq<Tile>, rest: seq<Tile>): Stage {
    var w := Total(run);
    if w < room then At(done + run, room - w, Vacated(stay, w, rest))
    else if LeavesBehind(stay, rest) then Onward(done + run + stay + [Free(w)], rest)
    else Onward(done + run, Vacated(stay, w, rest))
  }

  /** One turn of the loop. */
  function Next(s: Stage): Stage
    requires s.At?
  {
    var i := FirstMovable(s.above);
    if i == |s.above| then Over(s.done + [Free(s.room)] + s.above)
    else if i == 0 then
      var k := RunLength(s.above);
      Slide(s.done, s.room, s.above[..k], s.above[k..])
    else
      var k := RunFitting(s.above[i..], s.room);
      if k == 0 then Onward(s.done + [Free(s.room)], s.above)
      else Hop(s.done, s.room, s.above[..i], s.above[i..i + k], s.above[i + k..])
  }

  function MovablesLeft(s: Stage): nat {
    if s.At? then Movables(s.above) else 0
  }

  function TilesLeft(s: Stage): nat {
    if s.At? then |s.above| + 1 else 0
  }

  /** Either fewer movable tiles are left, or no more movable tiles and fewer tiles. */
  ghost predicate Shrinks(s: Stage, s': Stage) {
    || MovablesLeft(s') < MovablesLeft(s)
    || (MovablesLeft(s') == MovablesLeft(s) && TilesLeft(s') < TilesLeft(s))
  }

  lemma {:induction false} OnwardShrinks(done: seq<Tile>, above: seq<Tile>)
    ensures MovablesLeft(Onward(done, above)) <= Movables(above) && TilesLeft(Onward(done, above)) <= |above|
  {
    var j := FirstFree(above);
    if j < |above| { DropMovables(above, j + 1); }
  }

  lemma {:induction false} HopShrinks(done: seq<Tile>, room: nat, stay: seq<Tile>, run: seq<Tile>, rest: seq<Tile>)
    ensures MovablesLeft(Hop(done, room, stay, run, rest)) <= Movables(stay) + Movables(rest)
  {
    var w := Total(run);
    VacatedMovables(stay, w, rest);
    OnwardShrinks(done + run + stay + [Free(w)], rest);
    OnwardShrinks(done + run, Vacated(stay, w, rest));
  }

  lemma {:induction false} NextShrinks(s: Stage)
    requires s.At?
    ensures Shrinks(s, Next(s))
  {
    var i := FirstMovable(s.above);
    if i == |s.above| {
    } else if i == 0 {
      var k := RunLength(s.above);
      CutMovables(s.above, 0, k);
      if BeginsFree(s.above[k..]) { DropMovables(s.above[k..], 1); }
    } else {
      var k := RunFitting(s.above[i..], s.room);
      if k == 0 {
        OnwardShrinks(s.done + [Free(s.room)], s.above);
      } else {
        CutMovables(s.above, i, k);
        HopShrinks(s.done, s.room, s.above[..i], s.above[i..i + k], s.above[i + k..]);
      }
    }
  }

  /** The layout in the end. */
  function Finish(s: Stage): seq<Tile>
    decreases MovablesLeft(s), TilesLeft(s)
  {
    if s.Over? then s.tiles
    else
      NextShrinks(s);
      Finish(Next(s))
  }

  function Compacted(t: seq<Tile>): seq<Tile> {
    Finish(Onward([], t))
  }

  // ---------------------------------------------------------------- only movable tiles above

  /** No two free tiles touch, and no tile is empty. */
  ghost predicate Normal(t: seq<Tile>) {
    forall j: nat {:trigger NormalAt(t, j)} | j < |t| :: NormalAt(t, j)
  }

  ghost predicate NormalAt(t: seq<Tile>, j: nat)
    requires j < |t|
  {
    0 < t[j].size && (t[j].Free? && j + 1 < |t| ==> !t[j + 1].Free?)
  }

  function OnlyMovable(t: seq<Tile>): seq<Tile> {
    if t == [] then [] else OneMovable(t[0]) + OnlyMovable(t[1..])
  }

  function OneMovable(x: Tile): seq<Tile> {
    if x.Movable? then [x] else []
  }

  function FreeTotal(t: seq<Tile>): nat {
    if t == [] then 0 else (if t[0].Free? then t[0].size else 0) + FreeTotal(t[1..])
  }

  lemma {:induction false} PartsAdd(a: seq<Tile>, b: seq<Tile>)
    ensures OnlyMovable(a + b) == OnlyMovable(a) + OnlyMovable(b)
    ensures FreeTotal(a + b) == FreeTotal(a) + FreeTotal(b)
  {
    if a == [] {
      assert a + b == b;
    } else {
      PartsAdd(a[1..], b);
      assert (a + b)[1..] == a[1..] + b && (a + b)[0] == a[0];
      Regroup(OneMovable(a[0]), OnlyMovable(a[1..]), OnlyMovable(b));
    }
  }

  lemma Regroup(x: seq<Tile>, y: seq<Tile>, z: seq<Tile>)
    ensures x + y + z == x + (y + z)
  {
  }

  lemma {:induction false} PartsOfRun(t: seq<Tile>)
    requires forall j | 0 <= j < |t| :: t[j].Movable?
    ensures OnlyMovable(t) == t && FreeTotal(t) == 0
  {
    if t != [] {
      PartsOfRun(t[1..]);
      assert t == [t[0]] + t[1..];
    }
  }

  lemma {:induction false} NoneFree(t: seq<Tile>)
    requires forall j | 0 <= j < |t| :: !t[j].Free?
    ensures FreeTotal(t) == 0
  {
    if t != [] { NoneFree(t[1..]); }
  }

  /** What a compaction with nothing pinned above the free region comes to. */
  ghost function Swept(done: seq<Tile>, room: nat, above: seq<Tile>): seq<Tile> {
    done + OnlyMovable(above) + [Free(room + FreeTotal(above))]
  }

  lemma {:induction false} SweptSlides(done: seq<Tile>, room: nat, run: seq<Tile>, rest: seq<Tile>)
    requires forall j | 0 <= j < |run| :: run[j].Movable?
    ensures
      var s := Slide(done, room, run, rest);
      Swept(done, room, run + rest) == Swept(s.done, s.room, s.above)
  {
    PartsAdd(run, rest);
    PartsOfRun(run);
    Regroup(done, run, OnlyMovable(rest));
    if BeginsFree(rest) { assert OneMovable(rest[0]) + OnlyMovable(rest[1..]) == OnlyMovable(rest[1..]); }
  }

  /** What a slide leaves of a list without pinned tiles is again such a list. */
  lemma {:induction false} SlideNormal(done: seq<Tile>, room: nat, above: seq<Tile>)
    requires above != [] && Normal([Free(room)] + above) && forall j | 0 <= j < |above| :: !above[j].Pinned?
    ensures
      var s := Next(At(done, room, above));
      && s == Slide(done, room, above[..RunLength(above)], above[RunLength(above)..])
      && |s.above| < |above|
      && Normal([Free(s.room)] + s.above) && forall j | 0 <= j < |s.above| :: !s.above[j].Pinned?
  {
    var t := [Free(room)] + above;
    assert NormalAt(t, 0) && t[1] == above[0];
    var k := RunLength(above);
    var rest := above[k..];
    var s := Slide(done, room, above[..k], rest);
    var t' := [Free(s.room)] + s.above;
    forall j: nat | j < |t'| ensures NormalAt(t', j) {
      if BeginsFree(rest) { assert NormalAt(t, k + j + 1); } else { assert NormalAt(t, if j == 0 then 0 else k + j); }
    }
  }

  /** With nothing pinned above it, the free region sweeps up all the others and ends on top. */
  lemma {:induction false} FinishSlides(done: seq<Tile>, room: nat, above: seq<Tile>)
    requires Normal([Free(room)] + above) && forall j | 0 <= j < |above| :: !above[j].Pinned?
    ensures Finish(At(done, room, above)) == Swept(done, room, above)
    decreases |above|
  {
    if above == [] {
      FinishEmpty(done, room);
    } else {
      SlideNormal(done, room, above);
      var k := RunLength(above);
      assert above == above[..k] + above[k..];
      SweptSlides(done, room, above[..k], above[k..]);
      var s := Next(At(done, room, above));
      FinishSlides(s.done, s.room, s.above);
    }
  }

  lemma {:induction false} FinishEmpty(done: seq<Tile>, room: nat)
    ensures Finish(At(done, room, [])) == Swept(done, room, [])
  {
    assert Next(At(done, room, [])) == Over(done + [Free(room)] + []);
    assert done + [] == done && done + [Free(room)] + [] == done + [Free(room)];
  }

  /** If nothing above the first free tile is pinned, one free tile is left, and it is the last. */
  lemma {:induction false} CompactedSlides(t: seq<Tile>)
    requires Normal(t) && FirstFree(t) < |t| && forall j | FirstFree(t) < j < |t| :: !t[j].Pinned?
    ensures
      var j := FirstFree(t);
      Compacted(t) == Swept(t[..j], t[j].size, t[j + 1..])
  {
    var j := FirstFree(t);
    var above := t[j + 1..];
    AboveNormal(t, j);
    assert [] + t[..j] == t[..j];
    assert Onward([], t) == At(t[..j], t[j].size, above);
    FinishSlides(t[..j], t[j].size, above);
  }

  lemma AboveNormal(t: seq<Tile>, j: nat)
    requires Normal(t) && j < |t| && t[j].Free?
    ensures Normal([Free(t[j].size)] + t[j + 1..])
  {
    var t' := [Free(t[j].size)] + t[j + 1..];
    forall i: nat | i < |t'| ensures NormalAt(t', i) {
      assert NormalAt(t, j + i);
    }
  }
}
