/** When a compaction leaves a free region that the next movable block could still be moved into. */
module OpenRegions {
  import opened Layouts

  /** The next movable tile in `above` touches a free region of n cells below it, or fits into it. */
  predicate OpenTo(n: nat, above: seq<Tile>) {
    var i := FirstMovable(above);
    i < |above| && (i == 0 || above[i].size <= n)
  }

  /** One of the free tiles in t, which lies below `above`, could take in the next movable tile. */
  predicate Open(t: seq<Tile>, above: seq<Tile>) {
    t != [] && ((t[0].Free? && OpenTo(t[0].size, t[1..] + above)) || Open(t[1..], above))
  }

  /** The guard at which the loop gives up a place that could still be filled: a hop fills its region
      exactly and leaves a place behind that the next movable tile touches or fits into. */
  predicate GivesUp(s: Stage)
    requires s.At?
  {
    var i := FirstMovable(s.above);
    0 < i < |s.above| &&
    var k := RunFitting(s.above[i..], s.room);
    var stay, run, rest := s.above[..i], s.above[i..i + k], s.above[i + k..];
    0 < k && Total(run) == s.room && LeavesBehind(stay, rest) && OpenTo(s.room, rest)
  }

  /** It does so in some turn from here on. */
  predicate EverGivesUp(s: Stage)
    decreases MovablesLeft(s), TilesLeft(s)
  {
    s.At? &&
    (NextShrinks(s);
     GivesUp(s) || EverGivesUp(Next(s)))
  }

  // ---------------------------------------------------------------- open tiles in lists

  lemma {:induction false} FirstMovableOf(a: seq<Tile>, b: seq<Tile>)
    ensures FirstMovable(a + b) == if FirstMovable(a) < |a| then FirstMovable(a) else |a| + FirstMovable(b)
  {
    if a == [] {
      assert a + b == b;
    } else if !a[0].Movable? {
      FirstMovableOf(a[1..], b);
      assert (a + b)[1..] == a[1..] + b;
    }
  }

  lemma {:induction false} OpenAdds(a: seq<Tile>, b: seq<Tile>, above: seq<Tile>)
    ensures Open(a + b, above) <==> Open(a, b + above) || Open(b, above)
  {
    if a == [] {
      assert a + b == b;
    } else {
      OpenAdds(a[1..], b, above);
      assert (a + b)[1..] == a[1..] + b && (a + b)[0] == a[0];
      assert a[1..] + b + above == a[1..] + (b + above);
    }
  }

  lemma {:induction false} NotOpen(t: seq<Tile>, above: seq<Tile>)
    requires forall j | 0 <= j < |t| :: !t[j].Free?
    ensures !Open(t, above)
  {
    if t != [] { NotOpen(t[1..], above); }
  }

  /** A single free tile. */
  lemma OpenOne(n: nat, above: seq<Tile>)
    ensures Open([Free(n)], above) <==> OpenTo(n, above)
  {
    assert [Free(n)][1..] + above == above;
    assert !Open([Free(n)][1..], above);
  }

  lemma {:induction false} NothingToTakeIn(t: seq<Tile>, above: seq<Tile>)
    requires FirstMovable(t) == |t| && FirstMovable(above) == |above|
    ensures !Open(t, above)
  {
    if t != [] {
      FirstMovableOf(t[1..], above);
      NothingToTakeIn(t[1..], above);
    }
  }

  /** The next movable tile is as large in one list as in the other, or there is none in either. */
  predicate SameNext(a: seq<Tile>, b: seq<Tile>) {
    var i, j := FirstMovable(a), FirstMovable(b);
    (i == |a| <==> j == |b|) && (i < |a| && j < |b| ==> a[i].size == b[j].size)
  }

  /** Whether tiles below are open depends only on the next movable tile, as long as none of them touches it. */
  lemma {:induction false} OpenSame(t: seq<Tile>, a: seq<Tile>, b: seq<Tile>)
    requires !EndsFree(t) && SameNext(a, b)
    ensures Open(t, a) <==> Open(t, b)
  {
    if t != [] {
      OpenSame(t[1..], a, b);
      if t[0].Free? {
        FirstMovableOf(t[1..], a);
        FirstMovableOf(t[1..], b);
      }
    }
  }

  /** The open tiles among those the loop is done with. */
  predicate OpenDone(s: Stage) {
    match s
    case At(done, room, above) => Open(done, [Free(room)] + above)
    case Over(tiles) => Open(tiles, [])
  }

  lemma {:induction false} OpenOnward(done: seq<Tile>, above: seq<Tile>)
    ensures OpenDone(Onward(done, above)) <==> Open(done, above)
  {
    var j := FirstFree(above);
    if j == |above| {
      OpenAdds(done, above, []);
      NotOpen(above, []);
      assert above + [] == above;
    } else {
      var rest := [Free(above[j].size)] + above[j + 1..];
      OpenAdds(done, above[..j], rest);
      NotOpen(above[..j], rest);
      assert above[..j] + rest == above;
    }
  }

  /** A run that has come down changes nothing for the tiles below it. */
  lemma {:induction false} OpenBelowRun(done: seq<Tile>, room: nat, above: seq<Tile>, run: seq<Tile>, rest: seq<Tile>)
    requires !EndsFree(done) && FirstMovable(above) < |above|
    requires run != [] && run[0] == above[FirstMovable(above)] && forall j | 0 <= j < |run| :: run[j].Movable?
    ensures Open(done + run, rest) <==> Open(done, [Free(room)] + above)
  {
    OpenAdds(done, run, rest);
    NotOpen(run, rest);
    FirstMovableOf([Free(room)], above);
    FirstMovableOf(run, rest);
    OpenSame(done, run + rest, [Free(room)] + above);
  }

  lemma {:induction false} OpenSlide(s: Stage)
    requires s.At? && !EndsFree(s.done) && s.above != [] && FirstMovable(s.above) == 0
    ensures OpenDone(Next(s)) <==> OpenDone(s)
  {
    var k := RunLength(s.above);
    var s' := Slide(s.done, s.room, s.above[..k], s.above[k..]);
    assert Next(s) == s';
    OpenBelowRun(s.done, s.room, s.above, s.above[..k], [Free(s'.room)] + s'.above);
  }

  lemma {:induction false} OpenHop(done: seq<Tile>, room: nat, stay: seq<Tile>, run: seq<Tile>, rest: seq<Tile>)
    requires !EndsFree(done) && Total(run) <= room && run != [] && forall j | 0 <= j < |run| :: run[j].Movable?
    requires FirstMovable(stay) == |stay|
    ensures OpenDone(Hop(done, room, stay, run, rest)) <==>
              || OpenDone(At(done, room, stay + run + rest))
              || (Total(run) == room && LeavesBehind(stay, rest) && OpenTo(room, rest))
  {
    var w := Total(run);
    var above := stay + run + rest;
    FirstMovableOf(stay, run + rest);
    FirstMovableOf(run, rest);
    assert above == stay + (run + rest) && above[|stay|] == run[0];
    if w < room {
      OpenBelowRun(done, room, above, run, [Free(room - w)] + Vacated(stay, w, rest));
    } else if LeavesBehind(stay, rest) {
      var left := done + run + stay + [Free(w)];
      OpenOnward(left, rest);
      OpenAdds(done + run + stay, [Free(w)], rest);
      OpenOne(w, rest);
      OpenAdds(done + run, stay, [Free(w)] + rest);
      NotOpen(stay, [Free(w)] + rest);
      OpenBelowRun(done, room, above, run, stay + ([Free(w)] + rest));
    } else {
      OpenOnward(done + run, Vacated(stay, w, rest));
      OpenBelowRun(done, room, above, run, Vacated(stay, w, rest));
    }
  }

  lemma {:induction false} OpenOver(s: Stage)
    requires s.At? && FirstMovable(s.above) == |s.above|
    ensures OpenDone(Next(s)) <==> OpenDone(s)
  {
    var rest := [Free(s.room)] + s.above;
    OpenAdds(s.done, rest, []);
    FirstMovableOf([Free(s.room)], s.above);
    NothingToTakeIn(rest, []);
    Regroup(s.done, [Free(s.room)], s.above);
    assert rest + [] == rest;
  }

  lemma {:induction false} OpenSkip(s: Stage)
    requires s.At? && 0 < FirstMovable(s.above) < |s.above| && RunFitting(s.above[FirstMovable(s.above)..], s.room) == 0
    ensures OpenDone(Next(s)) <==> OpenDone(s)
  {
    OpenOnward(s.done + [Free(s.room)], s.above);
    OpenAdds(s.done, [Free(s.room)], s.above);
    OpenOne(s.room, s.above);
  }

  lemma {:induction false} OpenTurn(s: Stage, stay: seq<Tile>, run: seq<Tile>, rest: seq<Tile>)
    requires s.At? && !EndsFree(s.done) && 0 < FirstMovable(s.above) < |s.above|
    requires
      var i := FirstMovable(s.above);
      var k := RunFitting(s.above[i..], s.room);
      0 < k && stay == s.above[..i] && run == s.above[i..i + k] && rest == s.above[i + k..]
    ensures OpenDone(Next(s)) <==> OpenDone(s) || GivesUp(s)
  {
    var i := FirstMovable(s.above);
    var k := RunFitting(s.above[i..], s.room);
    RunFittingFits(s.above[i..], s.room);
    assert s.above[i..][..k] == run;
    assert s.above == stay + run + rest;
    assert FirstMovable(stay) == |stay|;
    OpenHop(s.done, s.room, stay, run, rest);
  }

  /** A turn opens a region below the next one only by giving it up. */
  lemma {:induction false} OpenNext(s: Stage)
    requires s.At? && !EndsFree(s.done)
    ensures OpenDone(Next(s)) <==> OpenDone(s) || GivesUp(s)
  {
    var i := FirstMovable(s.above);
    if i == |s.above| {
      OpenOver(s);
    } else if i == 0 {
      OpenSlide(s);
    } else {
      var k := RunFitting(s.above[i..], s.room);
      if k == 0 { OpenSkip(s); } else { OpenTurn(s, s.above[..i], s.above[i..i + k], s.above[i + k..]); }
    }
  }

  // ---------------------------------------------------------------- normal lists stay normal

  lemma NormalParts(a: seq<Tile>, b: seq<Tile>)
    ensures Normal(a + b) <==> Normal(a) && Normal(b) && !(EndsFree(a) && BeginsFree(b))
  {
    var t := a + b;
    if Normal(t) {
      forall j: nat | j < |a| ensures NormalAt(a, j) { assert NormalAt(t, j); }
      forall j: nat | j < |b| ensures NormalAt(b, j) { assert NormalAt(t, |a| + j); }
      if a != [] { assert NormalAt(t, |a| - 1); }
    } else if Normal(a) && Normal(b) && !(EndsFree(a) && BeginsFree(b)) {
      forall j: nat | j < |t| ensures NormalAt(t, j) {
        if j < |a| { assert NormalAt(a, j); } else { assert NormalAt(b, j - |a|); }
      }
    }
  }

  lemma NormalOne(n: nat)
    ensures Normal([Free(n)]) <==> 0 < n
  {
    assert Normal([Free(n)]) ==> NormalAt([Free(n)], 0);
  }

  lemma {:induction false} NormalVacated(below: seq<Tile>, w: nat, above: seq<Tile>)
    requires Normal(below) && Normal(above) && 0 < w
    ensures Normal(Vacated(below, w, above))
    ensures below != [] && !BeginsFree(below) ==> !BeginsFree(Vacated(below, w, above))
  {
    var left, right := EndsFree(below), BeginsFree(above);
    var b := if left then below[..|below| - 1] else below;
    var a := if right then above[1..] else above;
    var n := (if left then below[|below| - 1].size else 0) + w + (if right then above[0].size else 0);
    if left {
      assert below == b + [below[|below| - 1]];
      NormalParts(b, [below[|below| - 1]]);
    }
    if right {
      assert above == [above[0]] + a;
      NormalParts([above[0]], a);
    }
    NormalOne(n);
    NormalParts(b, [Free(n)]);
    NormalParts(b + [Free(n)], a);
  }

  /** All tiles, in order. */
  function AllTiles(s: Stage): seq<Tile> {
    match s
    case At(done, room, above) => done + [Free(room)] + above
    case Over(tiles) => tiles
  }

  lemma OnwardTiles(done: seq<Tile>, above: seq<Tile>)
    ensures AllTiles(Onward(done, above)) == done + above
  {
    var j := FirstFree(above);
    if j < |above| { assert above == above[..j] + [Free(above[j].size)] + above[j + 1..]; }
  }

  lemma {:induction false} NormalHop(done: seq<Tile>, room: nat, stay: seq<Tile>, run: seq<Tile>, rest: seq<Tile>)
    requires Normal(done) && Normal(stay) && Normal(run) && Normal(rest) && !EndsFree(done) && !BeginsFree(stay)
               && stay != []
    requires run != [] && (forall j | 0 <= j < |run| :: run[j].Movable?) && 0 < Total(run) <= room
    ensures Normal(AllTiles(Hop(done, room, stay, run, rest)))
  {
    var w := Total(run);
    NormalParts(done, run);
    NormalVacated(stay, w, rest);
    if w < room {
      NormalOne(room - w);
      NormalParts(done + run, [Free(room - w)]);
      NormalParts(done + run + [Free(room - w)], Vacated(stay, w, rest));
    } else if LeavesBehind(stay, rest) {
      OnwardTiles(done + run + stay + [Free(w)], rest);
      NormalOne(w);
      NormalParts(done + run, stay);
      NormalParts(done + run + stay, [Free(w)]);
      NormalParts(done + run + stay + [Free(w)], rest);
    } else {
      OnwardTiles(done + run, Vacated(stay, w, rest));
      NormalParts(done + run, Vacated(stay, w, rest));
    }
  }

  lemma {:induction false} NormalSlide(done: seq<Tile>, room: nat, run: seq<Tile>, rest: seq<Tile>)
    requires Normal(done) && Normal(run) && Normal(rest) && !EndsFree(done) && 0 < room
    requires run != [] && forall j | 0 <= j < |run| :: run[j].Movable?
    ensures Normal(AllTiles(Slide(done, room, run, rest)))
  {
    var s := Slide(done, room, run, rest);
    NormalParts(done, run);
    NormalOne(s.room);
    NormalParts(done + run, [Free(s.room)]);
    if BeginsFree(rest) {
      assert rest == [rest[0]] + rest[1..];
      NormalParts([rest[0]], rest[1..]);
    }
    NormalParts(done + run + [Free(s.room)], s.above);
  }

  lemma TotalPositive(t: seq<Tile>)
    requires t != [] && Normal(t)
    ensures 0 < Total(t)
  {
    assert NormalAt(t, 0);
  }

  lemma {:induction false} NormalNext(s: Stage)
    requires s.At? && Normal(AllTiles(s))
    ensures Normal(AllTiles(Next(s))) && !EndsFree(s.done)
  {
    NormalParts(s.done + [Free(s.room)], s.above);
    NormalParts(s.done, [Free(s.room)]);
    NormalOne(s.room);
    var i := FirstMovable(s.above);
    if i == |s.above| {
    } else if i == 0 {
      var k := RunLength(s.above);
      assert s.above == s.above[..k] + s.above[k..];
      NormalParts(s.above[..k], s.above[k..]);
      NormalSlide(s.done, s.room, s.above[..k], s.above[k..]);
    } else {
      var k := RunFitting(s.above[i..], s.room);
      if k == 0 {
        OnwardTiles(s.done + [Free(s.room)], s.above);
      } else {
        RunFittingFits(s.above[i..], s.room);
        assert s.above[i..][..k] == s.above[i..i + k];
        var stay, run, rest := s.above[..i], s.above[i..i + k], s.above[i + k..];
        assert s.above == stay + run + rest;
        NormalParts(stay + run, rest);
        NormalParts(stay, run);
        TotalPositive(run);
        NormalHop(s.done, s.room, stay, run, rest);
      }
    }
  }

  // ---------------------------------------------------------------- the exact condition

  lemma {:induction false} OpenFinish(s: Stage)
    requires Normal(AllTiles(s))
    ensures Open(Finish(s), []) <==> OpenDone(s) || EverGivesUp(s)
    decreases MovablesLeft(s), TilesLeft(s)
  {
    if s.At? {
      NormalNext(s);
      OpenNext(s);
      NextShrinks(s);
      OpenFinish(Next(s));
    }
  }

  /** A compaction leaves an open region if and only if, in some turn, a hop fills its region exactly and
      leaves a place behind that the next movable tile touches or fits into. */
  lemma {:induction false} OpenExactly(t: seq<Tile>)
    requires Normal(t)
    ensures Open(Compacted(t), []) <==> EverGivesUp(Onward([], t))
  {
    OnwardTiles([], t);
    assert [] + t == t;
    OpenOnward([], t);
    OpenFinish(Onward([], t));
  }

  /** The tiles above the free region in the example: the first movable one fills the region exactly. */
  lemma {:induction false} ExampleHop(n: nat, p: nat, q: nat)
    requires 0 < n && 0 < q
    ensures Next(At([], n, [Pinned(p), Movable(n), Movable(q)])) == Over([Movable(n), Pinned(p), Free(n), Movable(q)])
  {
    var stay, run, rest := [Pinned(p)], [Movable(n)], [Movable(q)];
    var above := stay + run + rest;
    FirstMovableOf(stay, run + rest);
    assert above == stay + (run + rest) && above[1..] == run + rest;
    ExampleRun(n, q);
    assert above[..1] == stay && above[1..2] == run && above[2..] == rest;
    assert above == [Pinned(p), Movable(n), Movable(q)];
    assert Next(At([], n, above)) == Hop([], n, stay, run, rest);
    assert LeavesBehind(stay, rest);
    ExampleOnward([] + run + stay + [Free(n)], q);
    assert [] + run + stay + [Free(n)] + rest == [Movable(n), Pinned(p), Free(n), Movable(q)];
  }

  lemma ExampleRun(n: nat, q: nat)
    requires 0 < q
    ensures RunFitting([Movable(n)] + [Movable(q)], n) == 1 && Total([Movable(n)]) == n
  {
    assert ([Movable(n)] + [Movable(q)])[1..] == [Movable(q)];
    assert RunFitting([Movable(q)], 0) == 0;
  }

  lemma ExampleOnward(done: seq<Tile>, q: nat)
    ensures Onward(done, [Movable(q)]) == Over(done + [Movable(q)])
  {
  }

  /** Layouts for which that happens: below a pinned block a free region that the first movable block
      fills exactly, and a second movable block right above the first.  The place of the first stays
      open to the second. */
  lemma {:induction false} PlaceStaysOpen(n: nat, p: nat, q: nat)
    requires 0 < n && 0 < p && 0 < q
    ensures
      var t := [Free(n), Pinned(p), Movable(n), Movable(q)];
      && Normal(t)
      && Compacted(t) == [Movable(n), Pinned(p), Free(n), Movable(q)]
      && Open(Compacted(t), [])
  {
    var t := [Free(n), Pinned(p), Movable(n), Movable(q)];
    var above := [Pinned(p), Movable(n), Movable(q)];
    assert Normal(t);
    assert t[1..] == above && [] + t[..0] == [];
    assert Onward([], t) == At([], n, above);
    ExampleHop(n, p, q);
    var end := [Movable(n), Pinned(p), Free(n), Movable(q)];
    assert Finish(At([], n, above)) == Finish(Over(end)) == end;
    assert end == [Movable(n), Pinned(p)] + ([Free(n)] + [Movable(q)]);
    OpenAdds([Movable(n), Pinned(p)], [Free(n)] + [Movable(q)], []);
    OpenAdds([Free(n)], [Movable(q)], []);
    assert [Movable(q)] + [] == [Movable(q)];
    OpenOne(n, [Movable(q)]);
  }
}
