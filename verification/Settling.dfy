/** What a compaction achieves: which free blocks may still be open when it is done, and when it moves
    anything at all. */
module Settling {
  import opened HeapModel
  import opened Options
  import opened Relocation
  import opened CompactionSteps
  import opened Compaction
  import opened HC = HeapCluster

  /** The first movable block above p starts at q. */
  ghost predicate NextMovable(m: Memory, starts: set<nat>, p: nat, q: nat) {
    && Live(m, starts, q) && !m[q].IsUnmovable()
    && p < q && NoMovable(m, starts, p, q)
  }

  /** The next movable block above the free block p neither touches it nor fits into it. */
  ghost predicate Stuck(m: Memory, starts: set<nat>, p: nat)
    requires p < |m|
  {
    forall q: nat {:trigger NextMovable(m, starts, p, q)} | NextMovable(m, starts, p, q) ::
        End(m, p) < q && m[p].size < m[q].size
  }

  /** Some free block could take in the next movable block above it. */
  ghost predicate CanCompact(m: Memory, starts: set<nat>) {
    exists p: nat :: IsFreeStart(m, starts, p) && !Stuck(m, starts, p)
  }

  /** The block at p is neither pinned nor an event block. */
  predicate Loose(m: Memory, p: int) {
    0 <= p < |m| && !m[p].flags.pinned && !m[p].flags.event
  }

  /** The free block at f could take in the block at q, the next one above it that is neither pinned nor an
      event block: it touches it, or it is large enough. */
  ghost predicate TakesIn(m: Memory, starts: set<nat>, f: nat, q: nat) {
    && f in starts && f < q && q in starts && q < |m| && m[f].kind.FreeBlock? && !m[q].kind.FreeBlock? && Loose(m, q)
    && (forall p: nat | p in starts && f < p < q && Loose(m, p) :: m[p].kind.FreeBlock?)
    && (f + m[f].size >= q || m[q].size <= m[f].size)
  }

  ghost predicate SomeTakesIn(m: Memory, starts: set<nat>) {
    exists f: nat, q: nat :: TakesIn(m, starts, f, q)
  }

  /** Blocks that are pinned or event blocks stay where they are; the others keep their order. */
  ghost predicate OnlyLooseMove(m: Memory, fwd: map<nat, nat>) {
    && (forall a | a in fwd :: a < |m| && (m[a].flags.event || m[a].flags.pinned ==> fwd[a] == a))
    && forall a, b | a in fwd && b in fwd && a < b && Loose(m, a) && Loose(m, b) :: fwd[a] < fwd[b]
  }

  lemma LooseMove(m0: Memory, starts0: set<nat>, fwd: map<nat, nat>, m: Memory, starts: set<nat>)
    requires SameObjects(m0, starts0, fwd, m, starts)
    ensures OnlyLooseMove(m0, fwd)
  {
  }

  lemma {:induction false} CanCompactIs(m: Memory, starts: set<nat>)
    requires Tiled(m, starts)
    ensures CanCompact(m, starts) <==> SomeTakesIn(m, starts)
  {
    if p: nat :| IsFreeStart(m, starts, p) && !Stuck(m, starts, p) {
      var q: nat :| NextMovable(m, starts, p, q) && !(End(m, p) < q && m[p].size < m[q].size);
      assert TakesIn(m, starts, p, q);
    }
    if f: nat, q: nat :| TakesIn(m, starts, f, q) {
      assert IsFreeStart(m, starts, f) && NextMovable(m, starts, f, q);
    }
  }

  ghost predicate MovableAt(m: Memory, starts: set<nat>, p: nat) {
    Live(m, starts, p) && !m[p].IsUnmovable()
  }

  /** If p is a free block, it is stuck, or it is the place that a movable block has moved away from. */
  ghost predicate SettledAt(m0: Memory, starts0: set<nat>, m: Memory, starts: set<nat>, p: nat) {
    IsFreeStart(m, starts, p) ==> Stuck(m, starts, p) || MovableAt(m0, starts0, p)
  }

  ghost predicate Settled(m0: Memory, starts0: set<nat>, m: Memory, starts: set<nat>, limit: nat) {
    forall p: nat {:trigger SettledAt(m0, starts0, m, starts, p)} | p < limit :: SettledAt(m0, starts0, m, starts, p)
  }

  ghost predicate UntouchedAt(m0: Memory, starts0: set<nat>, m: Memory, starts: set<nat>, q: nat) {
    Live(m, starts, q) ==> Live(m0, starts0, q) && m0[q].flags == m[q].flags
  }

  /** Blocks from `source` on are still where they were. */
  ghost predicate Untouched(m0: Memory, starts0: set<nat>, m: Memory, starts: set<nat>, source: nat) {
    forall q: nat {:trigger UntouchedAt(m0, starts0, m, starts, q)} | source <= q ::
        UntouchedAt(m0, starts0, m, starts, q)
  }

  ghost predicate StuckIfFree(m: Memory, starts: set<nat>, p: nat) {
    IsFreeStart(m, starts, p) ==> Stuck(m, starts, p)
  }

  ghost predicate SameHeader(m: Memory, m': Memory, p: nat) {
    p < |m| && p < |m'| && m'[p].kind == m[p].kind && m'[p].flags == m[p].flags && m'[p].size == m[p].size
  }

  /** The blocks have the same headers in both memories. */
  ghost predicate SameLayout(m: Memory, starts: set<nat>, m': Memory) {
    && |m'| == |m|
    && forall p: nat {:trigger SameHeader(m, m', p)} | p in starts && p < |m| :: SameHeader(m, m', p)
  }

  /** No block has moved yet, and no free block below the limit could have taken one in. */
  ghost predicate NothingMoved(m0: Memory, starts0: set<nat>, fwd: map<nat, nat>, t: seq<RelocationRegion>, m: Memory,
      starts: set<nat>, limit: nat)
  {
    && starts == starts0 && SameLayout(m0, starts0, m) && t == []
    && (forall a | a in fwd :: fwd[a] == a)
    && forall p: nat {:trigger StuckIfFree(m, starts, p)} | p < limit :: StuckIfFree(m, starts, p)
  }

  ghost predicate MovedDown(fwd: map<nat, nat>, t: seq<RelocationRegion>) {
    exists a :: a in fwd && Lookup(t, fwd[a]) < a
  }

  /** The invariant of the loop: `source` is the next block to be considered, and the free blocks from
      `limit` on are still to come. */
  ghost predicate Tale(m0: Memory, starts0: set<nat>, fwd: map<nat, nat>, t: seq<RelocationRegion>, m: Memory,
      starts: set<nat>, source: nat, limit: nat)
  {
    && Settled(m0, starts0, m, starts, limit) && Untouched(m0, starts0, m, starts, source)
    && if MovedDown(fwd, t) then CanCompact(m0, starts0) else NothingMoved(m0, starts0, fwd, t, m, starts, limit)
  }

  /** The free blocks still to come begin with `next`. */
  function Limit(m: Memory, next: Option<nat>): nat {
    if next.Some? then next.value else |m|
  }

  lemma {:induction false} TaleStart(m: Memory, starts: set<nat>, fwd: map<nat, nat>, list: seq<nat>)
    requires ClusterOk(m, starts, list) && forall a | a in fwd :: fwd[a] == a
    ensures Tale(m, starts, fwd, [], m, starts, 0, if list == [] then |m| else list[0])
  {
    var limit := if list == [] then |m| else list[0];
    forall p: nat | p < limit ensures !IsFreeStart(m, starts, p) {
      assert IsFreeStart(m, starts, p) ==> p in list;
    }
    assert !MovedDown(fwd, []);
  }

  lemma SameAlways(m: Memory, starts: set<nat>)
    ensures SameLayout(m, starts, m)
  {
  }

  lemma SameTwice(m0: Memory, starts: set<nat>, m: Memory, m': Memory)
    requires SameLayout(m0, starts, m) && SameLayout(m, starts, m')
    ensures SameLayout(m0, starts, m')
  {
    forall p: nat | p in starts && p < |m0| ensures SameHeader(m0, m', p) {
      assert SameHeader(m0, m, p) && SameHeader(m, m', p);
    }
  }

  lemma {:induction false} SameStuck(m: Memory, starts: set<nat>, m': Memory, p: nat)
    requires SameLayout(m, starts, m') && IsFreeStart(m, starts, p)
    ensures Stuck(m, starts, p) <==> Stuck(m', starts, p)
  {
    assert SameHeader(m, m', p);
    forall q: nat
      ensures NextMovable(m, starts, p, q) <==> NextMovable(m', starts, p, q)
      ensures NextMovable(m, starts, p, q) ==> SameHeader(m, m', q)
    {
      forall x: nat ensures Live(m, starts, x) <==> Live(m', starts, x)
        ensures Live(m, starts, x) ==> SameHeader(m, m', x)
      {
        assert x in starts && x < |m| ==> SameHeader(m, m', x);
      }
    }
  }

  /** A flush changes no block's place. */
  lemma {:induction false} TaleFlushed(m0: Memory, starts0: set<nat>, fwd: map<nat, nat>, t: seq<RelocationRegion>,
      m: Memory, starts: set<nat>, source: nat, limit: nat, m': Memory)
    requires Tale(m0, starts0, fwd, t, m, starts, source, limit) && SameLayout(m, starts, m')
    ensures Tale(m0, starts0, Flushed(fwd, t), [], m', starts, source, limit)
  {
    var fwd' := Flushed(fwd, t);
    assert forall a | a in fwd :: Lookup([], fwd'[a]) == Lookup(t, fwd[a]);
    assert MovedDown(fwd', []) <==> MovedDown(fwd, t);
    forall p: nat
      ensures SettledAt(m0, starts0, m, starts, p) ==> SettledAt(m0, starts0, m', starts, p)
      ensures StuckIfFree(m, starts, p) ==> StuckIfFree(m', starts, p)
      ensures UntouchedAt(m0, starts0, m, starts, p) ==> UntouchedAt(m0, starts0, m', starts, p)
    {
      assert p in starts && p < |m| ==> SameHeader(m, m', p);
      if IsFreeStart(m, starts, p) { SameStuck(m, starts, m', p); }
    }
    if !MovedDown(fwd, t) { SameTwice(m0, starts, m, m'); }
  }

  /** The loop passes over a free block that cannot take in the block at `source`. */
  lemma {:induction false} TaleSkip(m0: Memory, starts0: set<nat>, fwd: map<nat, nat>, t: seq<RelocationRegion>,
      m: Memory, starts: set<nat>, list: seq<nat>, source: nat, fr: nat, next: Option<nat>)
    requires Tale(m0, starts0, fwd, t, m, starts, source, fr) && ClusterOk(m, starts, list)
    requires IsFreeStart(m, starts, fr) && NextMovable(m, starts, fr, source) && End(m, fr) < source
               && m[fr].size < m[source].size
    requires forall p | p in list && p < Limit(m, next) :: p <= fr
    ensures Tale(m0, starts0, fwd, t, m, starts, source, Limit(m, next))
  {
    OneFirst(m, starts, fr, source);
    assert Stuck(m, starts, fr);
    forall p: nat | p < Limit(m, next)
      ensures SettledAt(m0, starts0, m, starts, p)
      ensures !MovedDown(fwd, t) ==> StuckIfFree(m, starts, p)
    {
      assert IsFreeStart(m, starts, p) ==> p in list;
      assert p < fr ==> SettledAt(m0, starts0, m, starts, p);
      assert !MovedDown(fwd, t) && p < fr ==> StuckIfFree(m, starts, p);
    }
  }

  lemma {:induction false} OneFirst(m: Memory, starts: set<nat>, p: nat, q: nat)
    requires NextMovable(m, starts, p, q)
    ensures forall r: nat | NextMovable(m, starts, p, r) :: r == q
  {
  }

  /** No movable block is left above the free block the loop has come to. */
  lemma {:induction false} TaleEnd(m0: Memory, starts0: set<nat>, fwd: map<nat, nat>, t: seq<RelocationRegion>,
      m: Memory, starts: set<nat>, source: nat, fr: nat)
    requires Tale(m0, starts0, fwd, t, m, starts, source, fr) && NoMovable(m, starts, fr, |m|)
    ensures Tale(m0, starts0, fwd, t, m, starts, source, |m|)
  {
    forall p: nat | p < |m|
      ensures SettledAt(m0, starts0, m, starts, p)
      ensures !MovedDown(fwd, t) ==> StuckIfFree(m, starts, p)
    {
      assert p < fr ==> SettledAt(m0, starts0, m, starts, p);
      assert !MovedDown(fwd, t) && p < fr ==> StuckIfFree(m, starts, p);
      if fr <= p {
        forall q: nat ensures !NextMovable(m, starts, p, q) {
          assert Live(m, starts, q) && p < q ==> m[q].IsUnmovable();
        }
      }
    }
  }

  /** A free block below the run's new place is stuck after the move if it was before. */
  lemma {:induction false} StuckAcross(m: Memory, starts: set<nat>, list: seq<nat>, st: Step, m': Memory,
      starts': set<nat>, p: nat)
    requires StepOk(m, starts, list, st) && RunMoved(m, starts, m', starts', st.s, st.d, st.n)
               && NoMovable(m, starts, st.d, st.s)
    requires IsFreeStart(m, starts, p) && p < st.d && m'[p] == m[p] && Stuck(m, starts, p)
    ensures Stuck(m', starts', p)
  {
    forall q: nat | NextMovable(m', starts', p, q) ensures End(m', p) < q && m'[p].size < m'[q].size {
      MovableAcross(m, starts, st, m', starts', p, q);
      if q < st.d {
        assert NextMovable(m, starts, p, q);
      } else {
        assert NextMovable(m, starts, p, st.s);
        assert BlockOk(m, starts, p) && FreeHeaderOk(m, starts, p);
      }
    }
  }

  /** The first movable block above p after the move: the one it was, or the first of the moved run. */
  lemma {:induction false} MovableAcross(m: Memory, starts: set<nat>, st: Step, m': Memory, starts': set<nat>, p: nat,
      q: nat)
    requires Tiled(m, starts) && MovableRun(m, starts, st.s, st.n) && RunMoved(m, starts, m', starts', st.s, st.d, st.n)
    requires NoMovable(m, starts, st.d, st.s) && p < st.d && NextMovable(m', starts', p, q)
    ensures q < st.d ==> NextMovable(m, starts, p, q) && m[q].size == m'[q].size
    ensures st.d <= q ==> q == st.d && NextMovable(m, starts, p, st.s) && m'[q].size == m[st.s].size
  {
    forall x: nat | Live(m, starts, x) && x < st.d ensures Live(m', starts', x) && m'[x] == m[x] {
      assert LiveOnceMoved(m, starts, st.s, st.d, st.n, false, x);
      assert BlockOk(m, starts, x) && SameBlock(m, m', x);
    }
    assert LiveOnceMoved(m, starts, st.s, st.d, st.n, false, q);
    assert LiveOnceMoved(m, starts, st.s, st.d, st.n, false, st.d);
    assert m'[st.s - (st.s - st.d)] == m[st.s];
  }

  /** A movable block that is moved down leaves a free block that was not stuck. */
  lemma {:induction false} StepNeedsRoom(m: Memory, starts: set<nat>, list: seq<nat>, st: Step)
    requires StepOk(m, starts, list, st) && NoMovable(m, starts, st.d, st.s)
    ensures CanCompact(m, starts)
  {
    assert BlockOk(m, starts, st.s);
    assert NextMovable(m, starts, st.d, st.s);
    assert !Stuck(m, starts, st.d);
  }

  lemma {:induction false} StepMovesDown(m0: Memory, starts0: set<nat>, fwd: map<nat, nat>, f: Memory,
      startsF: set<nat>, t: seq<RelocationRegion>, m: Memory, starts: set<nat>, list: seq<nat>, st: Step)
    requires SameObjects(m0, starts0, fwd, f, startsF) && BatchMoved(f, startsF, t, m, starts)
    requires StepOk(m, starts, list, st) && TableBelow(t, st.s)
    ensures MovedDown(fwd, t + [Region(st.s, st.d, st.n)])
  {
    var a := FlushedOnto(m0, starts0, fwd, f, startsF, t, m, starts, st.s);
    assert MovedTo(f, startsF, t, m, starts, fwd[a]);
    LookupThenShift(t, Region(st.s, st.d, st.n), fwd[a]);
    assert Lookup(t + [Region(st.s, st.d, st.n)], fwd[a]) == st.d;
  }

  lemma {:induction false} TaleMove(m0: Memory, starts0: set<nat>, fwd: map<nat, nat>, f: Memory, startsF: set<nat>,
      t: seq<RelocationRegion>, m: Memory, starts: set<nat>, list: seq<nat>, source: nat, st: Step, m': Memory,
      starts': set<nat>, list': seq<nat>, source': nat, next: Option<nat>)
    requires Tale(m0, starts0, fwd, t, m, starts, source, st.d) && source <= st.s
    requires SameObjects(m0, starts0, fwd, f, startsF) && BatchMoved(f, startsF, t, m, starts) && TableBelow(t, st.s)
    requires StepOk(m, starts, list, st) && NoMovable(m, starts, st.d, st.s) && st.s + st.n <= source'
    requires RunMoved(m, starts, m', starts', st.s, st.d, st.n) && ClusterOk(m', starts', list')
    requires FreeBelow(m, list, st, m', list', Limit(m', next))
    ensures Tale(m0, starts0, fwd, t + [Region(st.s, st.d, st.n)], m', starts', source', Limit(m', next))
  {
    StepMovesDown(m0, starts0, fwd, f, startsF, t, m, starts, list, st);
    if !MovedDown(fwd, t) {
      StepNeedsRoom(m, starts, list, st);
      CouldBefore(m0, starts0, m);
    }
    SettledMove(m0, starts0, m, starts, list, source, st, m', starts', list', Limit(m', next));
    UntouchedMove(m0, starts0, m, starts, source, st, m', starts', source');
  }

  lemma {:induction false} SettledMove(m0: Memory, starts0: set<nat>, m: Memory, starts: set<nat>, list: seq<nat>,
      source: nat, st: Step, m': Memory, starts': set<nat>, list': seq<nat>, limit: nat)
    requires Settled(m0, starts0, m, starts, st.d) && Untouched(m0, starts0, m, starts, source) && source <= st.s
    requires StepOk(m, starts, list, st) && NoMovable(m, starts, st.d, st.s)
    requires RunMoved(m, starts, m', starts', st.s, st.d, st.n) && ClusterOk(m', starts', list')
               && FreeBelow(m, list, st, m', list', limit)
    ensures Settled(m0, starts0, m', starts', limit)
  {
    assert MovableAt(m0, starts0, st.s) by {
      assert Live(m, starts, st.s);
      assert UntouchedAt(m0, starts0, m, starts, st.s);
    }
    forall p: nat | p < limit ensures SettledAt(m0, starts0, m', starts', p) {
      if IsFreeStart(m', starts', p) && p != st.s {
        assert p in list';
        assert IsFreeStart(m, starts, p) && SettledAt(m0, starts0, m, starts, p);
        if Stuck(m, starts, p) { StuckAcross(m, starts, list, st, m', starts', p); }
      }
    }
  }

  lemma {:induction false} UntouchedMove(m0: Memory, starts0: set<nat>, m: Memory, starts: set<nat>, source: nat,
      st: Step, m': Memory, starts': set<nat>, source': nat)
    requires Tiled(m, starts) && Untouched(m0, starts0, m, starts, source) && source <= st.s
    requires RunMoved(m, starts, m', starts', st.s, st.d, st.n) && st.s + st.n <= source'
    ensures Untouched(m0, starts0, m', starts', source')
  {
    forall q: nat | source' <= q ensures UntouchedAt(m0, starts0, m', starts', q) {
      if Live(m', starts', q) {
        assert LiveOnceMoved(m, starts, st.s, st.d, st.n, false, q);
        assert Live(m, starts, q) && BlockOk(m, starts, q) && SameBlock(m, m', q);
        assert UntouchedAt(m0, starts0, m, starts, q);
      }
    }
  }

  lemma {:induction false} CouldBefore(m0: Memory, starts0: set<nat>, m: Memory)
    requires SameLayout(m0, starts0, m) && CanCompact(m, starts0)
    ensures CanCompact(m0, starts0)
  {
    var p: nat :| IsFreeStart(m, starts0, p) && !Stuck(m, starts0, p);
    assert SameHeader(m0, m, p);
    SameStuck(m0, starts0, m, p);
  }

  /** Of the free blocks below the limit only those below the run's new place are old ones, with their
      old headers; the only new one is what the run has left behind. */
  ghost predicate FreeBelow(m: Memory, list: seq<nat>, st: Step, m': Memory, list': seq<nat>, limit: nat) {
    && |m'| == |m| && st.d <= |m|
    && (forall p | p in list' && p < limit :: p == st.s || (p < st.d && p in list))
    && forall x | 0 <= x < st.d :: m'[x] == m[x]
  }

  /** The same with nothing left behind. */
  ghost predicate FreeBefore(m: Memory, list: seq<nat>, st: Step, m': Memory, list': seq<nat>, limit: nat) {
    && |m'| == |m| && st.d <= |m|
    && (forall p | p in list' && p < limit :: p < st.d && p in list)
    && forall x | 0 <= x < st.d :: m'[x] == m[x]
  }

  /** `next` is the entry after p in the list. */
  ghost predicate Follows(list: seq<nat>, p: nat, next: Option<nat>) {
    exists i: nat :: FollowsAt(list, p, next, i)
  }

  ghost predicate FollowsAt(list: seq<nat>, p: nat, next: Option<nat>, i: nat) {
    && i < |list| && list[i] == p
    && next == if i + 1 < |list| then Some(list[i + 1]) else None
  }

  lemma {:induction false} BeforeNext(list: seq<nat>, d: nat, next: Option<nat>, p: nat)
    requires Ascending(list) && Follows(list, d, next) && p in list && (next.Some? ==> p < next.value)
    ensures p <= d
  {
    var i: nat :| FollowsAt(list, d, next, i);
    var j :| 0 <= j < |list| && list[j] == p;
    AtMost(list, i, j);
  }

  lemma AtMost(list: seq<nat>, i: nat, j: nat)
    requires Ascending(list) && i < |list| && j < |list| && (i + 1 < |list| ==> list[j] < list[i + 1])
    ensures j <= i
  {
  }

  /** The remainder of the free block comes next. */
  lemma {:induction false} RestNext(m: Memory, starts: set<nat>, list: seq<nat>, st: Step, m': Memory, list': seq<nat>)
    requires StepOk(m, starts, list, st) && |m'| == |m| && forall x | 0 <= x < st.d :: m'[x] == m[x]
    requires forall p | p in list' :: p == st.d + st.n || (p in list && p != st.d)
    ensures FreeBefore(m, list, st, m', list', st.d + st.n)
  {
    StepShape(m, starts, list, st);
    forall p | p in list' && p < st.d + st.n ensures p < st.d && p in list {
      assert IsFreeStart(m, starts, p);
    }
  }

  /** The free block is used up, and the one after it comes next. */
  lemma {:induction false} FollowerNext(m: Memory, starts: set<nat>, list: seq<nat>, st: Step, m': Memory, i: nat,
      next: Option<nat>)
    requires StepOk(m, starts, list, st) && |m'| == |m| && forall x | 0 <= x < st.d :: m'[x] == m[x]
    requires i < |list| && list[i] == st.d && Follows(list, st.d, next)
    ensures FreeBefore(m, list, st, m', RemoveAt(list, i), Limit(m', next))
  {
    WithoutMembers(list, i);
    assert st.d <= |m|;
    forall p | p in RemoveAt(list, i) && p < Limit(m', next) ensures p < st.d && p in list {
      BeforeNext(list, st.d, next, p);
    }
  }

  /** The vacated cells come next if they swallowed the free block that did; otherwise they may be
      left behind. */
  lemma {:induction false} VacatedBelow(m: Memory, list: seq<nat>, st: Step, m2: Memory, list2: seq<nat>,
      after: Option<nat>, m': Memory, list': seq<nat>, r: nat, next: Option<nat>)
    requires FreeBefore(m, list, st, m2, list2, Limit(m2, after)) && |m'| == |m|
    requires forall x | 0 <= x < st.d :: m'[x] == m2[x]
    requires forall p | p in list' :: p == r || p in list2
    requires st.d + st.n <= r < |m| && (r == st.s || r in list2)
    requires next == after || (after.Some? && r < after.value && next == Some(r))
    ensures FreeBelow(m, list, st, m', list', Limit(m', next))
  {
  }

  lemma {:induction false} TaleLater(m0: Memory, starts0: set<nat>, fwd: map<nat, nat>, t: seq<RelocationRegion>,
      m: Memory, starts: set<nat>, source: nat, source': nat, limit: nat)
    requires Tale(m0, starts0, fwd, t, m, starts, source, limit) && source <= source'
    ensures Tale(m0, starts0, fwd, t, m, starts, source', limit)
  {
  }

  /** Some block ends up below where it was. */
  ghost predicate MovesSome(fwd: map<nat, nat>) {
    exists a :: a in fwd && fwd[a] < a
  }

  /** When all free blocks have been dealt with: blocks have moved if and only if some free block could
      take in the next movable block above it, and a free block that still could is the place that a
      movable block has left. */
  lemma {:induction false} TaleTold(m0: Memory, starts0: set<nat>, fwd: map<nat, nat>, m: Memory, starts: set<nat>)
    requires Tale(m0, starts0, fwd, [], m, starts, |m|, |m|)
    ensures MovesSome(fwd) <==> CanCompact(m0, starts0)
    ensures Settled(m0, starts0, m, starts, |m|)
  {
    assert forall a | a in fwd :: Lookup([], fwd[a]) == fwd[a];
    assert MovedDown(fwd, []) <==> MovesSome(fwd);
    if !MovedDown(fwd, []) {
      forall p: nat | IsFreeStart(m0, starts0, p) ensures Stuck(m0, starts0, p) {
        assert SameHeader(m0, m, p) && StuckIfFree(m, starts, p);
        SameStuck(m0, starts0, m, p);
      }
    }
  }
}
