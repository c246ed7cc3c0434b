/** The compaction loop over one cluster. */
module Compactor {
  import opened HeapModel
  import opened Options
  import opened Relocation
  import opened CompactionSteps
  import opened Compaction
  import opened Settling
  import opened HeapLayout
  import opened LayoutSteps
  import opened LayoutMoves
  import opened CompactionResult
  import L = Layouts
  import opened HC = HeapCluster

  lemma {:induction false} RunGrows(m: Memory, starts: set<nat>, s: nat, n: nat)
    requires Tiled(m, starts) && s + n < |m| && s + n in starts && !m[s + n].IsUnmovable() && !m[s + n].IsFree()
    requires n == 0 || MovableRun(m, starts, s, n)
    ensures s in starts ==> s + n + m[s + n].size <= |m| && MovableRun(m, starts, s, n + m[s + n].size)
  {
    assert BlockOk(m, starts, s + n);
  }

  /** Free blocks are pinned, so a movable block is live. */
  lemma {:induction false} MovableIsLive(m: Memory, starts: set<nat>, list: seq<nat>, p: nat)
    requires ClusterOk(m, starts, list) && p in starts && p < |m|
    ensures !m[p].IsUnmovable() ==> Live(m, starts, p)
  {
    if m[p].IsFree() { assert FreeHeaderOk(m, starts, p); }
  }

  /** The number of regions the relocation table holds before it must be flushed. */
  const MINIMUM_SPACE_FOR_COMPACT: nat := 128

  class Compactor {
    const heap: HC.HeapCluster
    const table: RelocationTable
    const roots: array<Ref>

    constructor (h: HC.HeapCluster, r: array<Ref>)
      ensures heap == h && roots == r && fresh(table) && fresh(table.blocks)
      ensures table.Valid() && table.Regions() == [] && table.blocks.Length == MINIMUM_SPACE_FOR_COMPACT
    {
      heap, roots := h, r;
      table := new RelocationTable(MINIMUM_SPACE_FOR_COMPACT);
    }

    /** The next block at or above p that may be moved. */
    method SkipUnmovable(p: nat) returns (q: nat)
      requires heap.Valid() && Boundary(heap.mem[..], heap.starts, p)
      ensures Skipped(heap.mem[..], heap.starts, p, q)
    {
      ghost var m, starts := heap.mem[..], heap.starts;
      q := p;
      if q in starts { assert BlockOk(m, starts, q); }
      while q < heap.mem.Length && heap.mem[q].IsUnmovable()
        invariant p <= q <= heap.mem.Length && Boundary(m, starts, q)
        invariant forall x | x in starts && p <= x < q :: x < |m| && m[x].IsUnmovable()
        decreases heap.mem.Length - q
      {
        assert BlockOk(m, starts, q);
        q := q + heap.mem[q].size;
      }
      if q < heap.mem.Length { MovableIsLive(m, starts, heap.freeList, q); }
    }

    /** How many cells from `source` on go into the free block at `fr`, and what is then left of it. */
    method MeasureRun(source: nat, fr: nat) returns (move: nat, rest: nat, slide: bool)
      requires heap.Valid() && fr in heap.freeList && fr < source < heap.mem.Length && source in heap.starts
      requires !heap.mem[..][source].IsUnmovable()
      ensures move > 0 ==> StepOk(heap.mem[..], heap.starts, heap.freeList, Step(source, fr, move, slide, rest))
      ensures move > 0 ==> Boundary(heap.mem[..], heap.starts, source + move)
      ensures move > 0 ==> Longest(heap.mem[..], heap.starts, Step(source, fr, move, slide, rest))
      ensures move == 0 ==>
                !slide && End(heap.mem[..], fr) < source && heap.mem[..][fr].size < heap.mem[..][source].size
    {
      ghost var m, starts := heap.mem[..], heap.starts;
      assert IsFreeStart(m, starts, fr);
      assert BlockOk(m, starts, fr);
      rest := heap.mem[fr].size;
      slide := source == fr + rest;
      move := 0;
      if slide {
        move := RunLength(source, heap.mem.Length, true);
      } else {
        move := RunLength(source, rest, false);
        rest := rest - move;
      }
    }

    /** The length of the longest run of movable blocks at `source`, limited to `room` cells unless sliding. */
    method RunLength(source: nat, room: nat, slide: bool) returns (move: nat)
      requires heap.Valid() && source < heap.mem.Length && source in heap.starts && !heap.mem[..][source].IsUnmovable()
      ensures move > 0 ==> MovableRun(heap.mem[..], heap.starts, source, move)
      ensures !slide ==> move <= room
      ensures slide ==> move > 0
      ensures move == 0 ==> room < heap.mem[..][source].size
      ensures source + move < heap.mem.Length ==>
                heap.mem[..][source + move].IsUnmovable() || (!slide && move + heap.mem[..][source + move].size > room)
    {
      ghost var m, starts := heap.mem[..], heap.starts;
      assert BlockOk(m, starts, source);
      move := 0;
      var left := room;
      while (slide || left > 0) && source + move < heap.mem.Length && !heap.mem[source + move].IsUnmovable()
        invariant source + move <= heap.mem.Length && Boundary(m, starts, source + move)
        invariant move > 0 ==> MovableRun(m, starts, source, move)
        invariant 0 <= left && (!slide ==> left + move == room)
        invariant move == 0 ==> !m[source].IsUnmovable()
        decreases heap.mem.Length - move
      {
        MovableIsLive(m, starts, heap.freeList, source + move);
        assert BlockOk(m, starts, source + move);
        var len := heap.mem[source + move].size;
        if !slide {
          if left < len { break; }
          left := left - len;
        }
        RunGrows(m, starts, source, move);
        move := move + len;
      }
      if source + move < heap.mem.Length { assert BlockOk(m, starts, source + move); }
    }

    /** Where p stands in the free list. */
    method IndexOf(p: nat) returns (i: nat)
      requires p in heap.freeList
      ensures i < |heap.freeList| && heap.freeList[i] == p
    {
      i := 0;
      while heap.freeList[i] != p
        invariant i < |heap.freeList| && p in heap.freeList[i..]
        decreases |heap.freeList| - i
      {
        i := i + 1;
      }
    }

    /** The free block after p, if there is one. */
    method NextFree(p: nat) returns (next: Option<nat>)
      requires p in heap.freeList
      ensures Follows(heap.freeList, p, next)
    {
      var i := IndexOf(p);
      next := if i + 1 < |heap.freeList| then Some(heap.freeList[i + 1]) else None;
      assert FollowsAt(heap.freeList, p, next, i);
    }

    /** Takes the free block off the list and copies the run down into it. */
    method CopyRun(st: Step) returns (next: Option<nat>, ghost i: nat)
      requires heap.Valid() && StepOk(heap.mem[..], heap.starts, heap.freeList, st)
      modifies heap, heap.mem
      ensures heap.starts == old(heap.starts)
      ensures i < |old(heap.freeList)| && old(heap.freeList)[i] == st.d
                && heap.freeList == RemoveAt(old(heap.freeList), i)
      ensures heap.mem[..] == MemMove(old(heap.mem[..]), st.s, st.d, st.n)
      ensures Follows(old(heap.freeList), st.d, next)
    {
      StepShape(heap.mem[..], heap.starts, heap.freeList, st);
      next := NextFree(st.d);
      var at := IndexOf(st.d);
      i := at;
      heap.freeList := RemoveAt(heap.freeList, at);
      forall x | st.d <= x < st.d + st.n { heap.mem[x] := heap.mem[x + (st.s - st.d)]; }
    }

    /** Moves the run into the free block and gives back what is left of it. */
    method PlaceRun(st: Step) returns (next: Option<nat>)
      requires heap.Valid() && StepOk(heap.mem[..], heap.starts, heap.freeList, st)
      modifies heap, heap.mem
      ensures Placed(old(heap.mem[..]), old(heap.starts), old(heap.freeList), st, heap.mem[..], heap.starts,
                heap.freeList)
      ensures st.rest > 0 ==> next == Some(st.d + st.n)
      ensures st.rest == 0 ==> Follows(old(heap.freeList), st.d, next)
      ensures FreeBefore(old(heap.mem[..]), old(heap.freeList), st, heap.mem[..], heap.freeList,
                Limit(heap.mem[..], next))
    {
      ghost var m, starts, list := heap.mem[..], heap.starts, heap.freeList;
      ghost var i;
      next, i := CopyRun(st);
      heap.starts := CopiedStarts(starts, st);
      if st.rest > 0 {
        StepShape(m, starts, list, st);
        next := ReturnRest(st, m, starts, list, i);
      } else {
        PlacedExactly(m, starts, list, st, i, heap.mem[..]);
        FollowerNext(m, starts, list, st, heap.mem[..], i, next);
      }
    }

    method ReturnRest(st: Step, ghost m: Memory, ghost starts: set<nat>, ghost list: seq<nat>, ghost i: nat)
        returns (next: Option<nat>)
      requires StepOk(m, starts, list, st) && st.rest > 0 && st.d + st.n < heap.mem.Length
      requires i < |list| && list[i] == st.d && heap.freeList == RemoveAt(list, i)
      requires heap.mem[..] == MemMove(m, st.s, st.d, st.n) && heap.starts == CopiedStarts(starts, st)
      modifies heap, heap.mem
      ensures Placed(m, starts, list, st, heap.mem[..], heap.starts, heap.freeList)
      ensures next == Some(st.d + st.n)
      ensures FreeBefore(m, list, st, heap.mem[..], heap.freeList, st.d + st.n)
    {
      var node := st.d + st.n;
      ghost var m1 := heap.mem[..][node := heap.mem[node].SetDataId(FreeBlock, FREE_FLAGS, st.rest)];
      CopiedReturning(m, starts, list, st, m1, i);
      var r := heap.InsertInOrder(node, st.rest);
      PlacedByInsertion(m, starts, list, st, i, m1, heap.mem[..], heap.starts, heap.freeList, r);
      RestNext(m, starts, list, st, heap.mem[..], heap.freeList);
      next := Some(r);
    }

    /** Gives back the cells a hop leaves behind. */
    method VacateRun(st: Step, after: Option<nat>, ghost m: Memory, ghost starts: set<nat>, ghost list: seq<nat>)
        returns (next: Option<nat>)
      requires StepOk(m, starts, list, st) && !st.slide
      requires Placed(m, starts, list, st, heap.mem[..], heap.starts, heap.freeList)
      requires after.Some? ==> after.value in heap.freeList && st.d + st.n <= after.value
      requires st.rest > 0 ==> after == Some(st.d + st.n)
      requires st.rest == 0 ==> after.Some? ==> after.value in list && st.d < after.value
      requires FreeBefore(m, list, st, heap.mem[..], heap.freeList, Limit(heap.mem[..], after))
      modifies heap, heap.mem
      ensures heap.Valid()
      ensures RunMoved(m, starts, heap.mem[..], heap.starts, st.s, st.d, st.n)
      ensures NextOk(m, list, st, heap.mem[..], heap.freeList, next)
    {
      ghost var m2, starts2, list2 := heap.mem[..], heap.starts, heap.freeList;
      PlacedRun(m, starts, list, st, m2, starts2, list2);
      ForgetRun(m2, starts2, list2, st.s, st.n);
      heap.starts := heap.starts - Interval(st.s + 1, st.s + st.n);
      ghost var mv, startsv := heap.mem[..][st.s := heap.mem[st.s].SetDataId(FreeBlock, FREE_FLAGS, st.n)], heap.starts;
      var dst := heap.InsertInOrder(st.s, st.n);
      VacatedBy(m, starts, list, st, m2, starts2, list2, heap.mem[..], heap.starts, heap.freeList, dst);
      VacatedAbove(m, starts, list, st, list2, heap.mem[..], heap.starts, heap.freeList, dst);
      next := after;
      if after.Some? {
        if after.value == st.s + st.n {
          assert IsFreeStart(mv, startsv, after.value);
          Swallowed(mv, startsv, list2, heap.mem[..], heap.starts, heap.freeList, st.s, dst, after.value);
        }
        if dst < after.value && after.value < dst + heap.mem[dst].size { next := Some(dst); }
      }
      VacatedBelow(m, list, st, m2, list2, after, heap.mem[..], heap.freeList, dst, next);
      if st.rest == 0 {
        PlaceFound(m, starts, list, st, m2, list2, after, heap.mem[..], heap.starts, heap.freeList, dst, next);
      }
    }

    /** Moves a run down and updates the free list; `next` is the free region to go on with. */
    method MoveRun(st: Step) returns (next: Option<nat>)
      requires heap.Valid() && StepOk(heap.mem[..], heap.starts, heap.freeList, st)
      modifies heap, heap.mem
      ensures heap.Valid()
      ensures RunMoved(old(heap.mem[..]), old(heap.starts), heap.mem[..], heap.starts, st.s, st.d, st.n)
      ensures NextOk(old(heap.mem[..]), old(heap.freeList), st, heap.mem[..], heap.freeList, next)
    {
      ghost var m, starts, list := heap.mem[..], heap.starts, heap.freeList;
      StepShape(m, starts, list, st);
      next := PlaceRun(st);
      if st.rest == 0 { FollowsAbove(m, starts, list, st.d, next); }
      if !st.slide {
        next := VacateRun(st, next, m, starts, list);
      }
    }

    /** Looks up every reference of the block at p in the table. */
    method RelocateBlock(p: nat)
      requires heap.Valid() && table.Valid() && table.Bounded() && Live(heap.mem[..], heap.starts, p)
      requires p + heap.mem[..][p].size <= heap.mem.Length
      modifies heap.mem
      ensures forall x | 0 <= x < heap.mem.Length :: heap.mem[..][x] ==
                if p <= x < p + old(heap.mem[..])[p].size then RelocatedCell(table.Regions(), old(heap.mem[..])[x])
                else old(heap.mem[..])[x]
    {
      var size := heap.mem[p].size;
      for k := 0 to size
        invariant forall x | 0 <= x < heap.mem.Length :: heap.mem[..][x] ==
                    if p <= x < p + k then RelocatedCell(table.Regions(), old(heap.mem[..])[x])
                    else old(heap.mem[..])[x]
      {
        if heap.mem[p + k].kind.Reference? {
          var r := table.Relocate(heap.mem[p + k].target);
          heap.mem[p + k] := heap.mem[p + k].(target := r);
        }
      }
    }

    /** Visits every block of the heap. */
    method HeapRelocatePass()
      requires heap.Valid() && table.Valid() && table.Bounded()
      modifies heap.mem
      ensures heap.Valid()
      ensures Rewritten(old(heap.mem[..]), heap.starts, table.Regions(), heap.mem[..])
    {
      ghost var m, starts, t := heap.mem[..], heap.starts, table.Regions();
      var ptr := 0;
      while ptr < heap.mem.Length
        invariant 0 <= ptr <= heap.mem.Length && Boundary(m, starts, ptr)
        invariant RewrittenTo(m, starts, t, heap.mem[..], ptr)
        decreases heap.mem.Length - ptr
      {
        ghost var m1 := heap.mem[..];
        assert BlockOk(m, starts, ptr);
        var size := heap.mem[ptr].size;
        if !heap.mem[ptr].IsFree() {
          RewrittenHeaders(m, starts, t, m1, ptr, heap.freeList);
          RelocateBlock(ptr);
        }
        RewrittenStep(m, starts, t, m1, ptr, heap.mem[..]);
        ptr := ptr + size;
      }
      RewrittenHeaders(m, starts, t, heap.mem[..], ptr, heap.freeList);
      RewrittenDone(m, starts, t, heap.mem[..]);
    }

    /** Looks up every engine root in the table. */
    method RelocateRoots()
      requires table.Valid() && table.Bounded()
      modifies roots
      ensures forall i | 0 <= i < roots.Length :: roots[i] == RelocatedRef(table.Regions(), old(roots[i]))
    {
      for i := 0 to roots.Length
        invariant forall j | 0 <= j < roots.Length ::
                    roots[j] == if j < i then RelocatedRef(table.Regions(), old(roots[j])) else old(roots[j])
      {
        var r := table.Relocate(roots[i]);
        roots[i] := r;
      }
    }

    /** Flushes the table: every pointer in the heap and in the roots is brought up to date. */
    method HeapRelocate()
      requires heap.Valid() && table.Valid()
      modifies heap.mem, roots, table
      ensures heap.Valid() && table.Valid() && table.Regions() == []
      ensures Rewritten(old(heap.mem[..]), heap.starts, old(table.Regions()), heap.mem[..])
      ensures forall i | 0 <= i < roots.Length :: roots[i] == RelocatedRef(old(table.Regions()), old(roots[i]))
    {
      if table.count > 0 {
        table.ComputeBounds();
        HeapRelocatePass();
        RelocateRoots();
        table.count := 0;
      }
    }

    /** Flushes a full table. */
    method FlushIfFull(ghost o: Origin, ghost b: Batch, ghost source: nat, ghost fr: nat) returns (ghost b': Batch)
      requires heap.Valid() && table.Valid() && 1 <= table.blocks.Length
      requires Standing(o, b, table.Regions(), heap.mem[..], heap.starts, heap.freeList, roots[..], source, Some(fr))
      modifies heap.mem, roots, table
      ensures heap.Valid() && table.Valid() && table.count < table.blocks.Length
      ensures Standing(o, b', table.Regions(), heap.mem[..], heap.starts, heap.freeList, roots[..], source, Some(fr))
      ensures table.Regions() == old(table.Regions()) || table.Regions() == []
      ensures SameLayout(old(heap.mem[..]), heap.starts, heap.mem[..])
    {
      b' := b;
      if table.count >= table.blocks.Length {
        b' := FlushWithin(o, b, source, fr);
      } else {
        SameAlways(heap.mem[..], heap.starts);
      }
    }

    /** A flush in the middle of the loop. */
    method FlushWithin(ghost o: Origin, ghost b: Batch, ghost source: nat, ghost fr: nat) returns (ghost b': Batch)
      requires heap.Valid() && table.Valid()
      requires Standing(o, b, table.Regions(), heap.mem[..], heap.starts, heap.freeList, roots[..], source, Some(fr))
      modifies heap.mem, roots, table
      ensures heap.Valid() && table.Valid() && table.Regions() == []
      ensures Standing(o, b', [], heap.mem[..], heap.starts, heap.freeList, roots[..], source, Some(fr))
      ensures SameLayout(old(heap.mem[..]), heap.starts, heap.mem[..])
    {
      ghost var t, m, rs := table.Regions(), heap.mem[..], roots[..];
      b' := Flush(o, b);
      StandingFlushed(o, b, t, m, heap.starts, heap.freeList, rs, source, fr, b', heap.mem[..], roots[..]);
    }

    method Flush(ghost o: Origin, ghost b: Batch) returns (ghost b': Batch)
      requires heap.Valid() && table.Valid()
      requires Progressing(o, b, table.Regions(), heap.mem[..], heap.starts, roots[..])
      modifies heap.mem, roots, table
      ensures heap.Valid() && table.Valid() && table.Regions() == []
      ensures Progressing(o, b', [], heap.mem[..], heap.starts, roots[..])
      ensures b' == Batch(Flushed(b.fwd, old(table.Regions())), heap.mem[..], heap.starts)
      ensures SameLayout(old(heap.mem[..]), heap.starts, heap.mem[..])
    {
      ghost var t, m := table.Regions(), heap.mem[..];
      HeapRelocate();
      b' := Batch(Flushed(b.fwd, t), heap.mem[..], heap.starts);
      FlushProgress(o, b, t, m, heap.starts, old(roots[..]), heap.mem[..], roots[..]);
      RewrittenBlocks(m, heap.starts, t, heap.mem[..]);
    }

    /** Moves the run and records its region in the table. */
    method MoveAndRecord(st: Step) returns (next: Option<nat>)
      requires heap.Valid() && table.Valid() && table.count < table.blocks.Length
      requires StepOk(heap.mem[..], heap.starts, heap.freeList, st)
                 && TableOk(table.Regions() + [Region(st.s, st.d, st.n)])
      modifies heap, heap.mem, table, table.blocks
      ensures heap.Valid() && table.Valid() && table.Regions() == old(table.Regions()) + [Region(st.s, st.d, st.n)]
      ensures RunMoved(old(heap.mem[..]), old(heap.starts), heap.mem[..], heap.starts, st.s, st.d, st.n)
      ensures NextOk(old(heap.mem[..]), old(heap.freeList), st, heap.mem[..], heap.freeList, next)
    {
      next := MoveRun(st);
      Record(RelocationRegion(st.s, st.s + st.n, st.d));
    }

    /** Takes a step that keeps the loop's invariant. */
    method TakeStep(st: Step, source': nat, ghost o: Origin, ghost b: Batch) returns (next: Option<nat>)
      requires heap.Valid() && table.Valid() && table.count < table.blocks.Length
      requires Movable(o, b, table.Regions(), heap.mem[..], heap.starts, heap.freeList, roots[..], st, source')
      modifies heap, heap.mem, table, table.blocks
      ensures heap.Valid() && table.Valid()
      ensures Standing(o, b, table.Regions(), heap.mem[..], heap.starts, heap.freeList, roots[..], source', next)
    {
      ghost var m, starts, list, t, rs := heap.mem[..], heap.starts, heap.freeList, table.Regions(), roots[..];
      RegionFits(o, b, t, m, starts, list, rs, st, source');
      next := MoveAndRecord(st);
      AfterMove(o, b, t, m, starts, list, rs, st, heap.mem[..], heap.starts, heap.freeList, source', next);
    }

    /** Fills the next entry of the table. */
    method Record(r: RelocationRegion)
      requires table.count < table.blocks.Length && TableOk(table.blocks[..table.count] + [r])
      modifies table, table.blocks
      ensures table.Valid() && table.Regions() == old(table.Regions()) + [r]
    {
      ghost var t := table.Regions();
      table.blocks[table.count] := r;
      table.count := table.count + 1;
      assert table.Regions() == t + [r];
    }

    /** Moves the run at `source` if any of it fits into the free region; otherwise turns to the
        next free region. */
    method Advance(source: nat, fr: nat, ghost o: Origin, ghost b: Batch) returns (source': nat, next: Option<nat>)
      requires heap.Valid() && table.Valid() && table.count < table.blocks.Length
      requires Standing(o, b, table.Regions(), heap.mem[..], heap.starts, heap.freeList, roots[..], source, Some(fr))
      requires Ready(heap.mem[..], heap.starts, heap.freeList, table.Regions(), source, fr)
      modifies heap, heap.mem, table, table.blocks
      ensures heap.Valid() && table.Valid()
      ensures Standing(o, b, table.Regions(), heap.mem[..], heap.starts, heap.freeList, roots[..], source', next)
      ensures source <= source' <= heap.mem.Length
      ensures source < source' || (next.Some? ==> fr < next.value)
    {
      var move, rest, slide := MeasureRun(source, fr);
      if move > 0 {
        source' := SkipUnmovable(source + move);
        next := TakeStep(Step(source, fr, move, slide, rest), source', o, b);
      } else {
        source' := source;
        next := NextFree(fr);
        FollowsAbove(heap.mem[..], heap.starts, heap.freeList, fr, next);
        SkipOver(o, b, table.Regions(), heap.mem[..], heap.starts, heap.freeList, roots[..], source, fr, next);
      }
    }

    /** `Heap_Compact` on one cluster.  Movable blocks are moved down, in order, into the free regions
        below them; unmovable blocks stay; and afterwards heap and roots hold the same object graph. */
    method HeapCompact() returns (ghost fwd: map<nat, nat>)
      requires heap.Valid() && table.Valid() && table.Regions() == [] && 1 <= table.blocks.Length
      requires OriginOk(Origin(heap.mem[..], heap.starts, roots[..]))
      modifies heap, heap.mem, roots, table, table.blocks
      ensures heap.Valid() && table.Valid() && table.Regions() == []
      ensures SameObjects(old(heap.mem[..]), old(heap.starts), fwd, heap.mem[..], heap.starts)
      ensures forall i | 0 <= i < roots.Length :: roots[i] == RenamedRef(fwd, old(roots[i]))
      ensures OriginOk(Origin(heap.mem[..], heap.starts, roots[..]))
      ensures |FreeCells(heap.mem[..], heap.starts)| == |FreeCells(old(heap.mem[..]), old(heap.starts))|
      ensures Layout(heap.mem[..]) == L.Compacted(Layout(old(heap.mem[..])))
      ensures MovesSome(fwd) <==> CanCompact(old(heap.mem[..]), old(heap.starts))
      ensures Settled(old(heap.mem[..]), old(heap.starts), heap.mem[..], heap.starts, heap.mem.Length)
      ensures NothingPinnedAbove(old(heap.mem[..]), old(heap.starts)) ==> OneFreeOnTop(heap.mem[..], heap.starts)
      ensures CanCompact(heap.mem[..], heap.starts) <==> GivesUpAPlace(old(heap.mem[..]))
      ensures OnlyLooseMove(old(heap.mem[..]), fwd) && AllCarried(old(heap.mem[..]), fwd, heap.mem[..])
      ensures MovesSome(fwd) <==> SomeTakesIn(old(heap.mem[..]), old(heap.starts))
      ensures SomeTakesIn(heap.mem[..], heap.starts) <==> GivesUpAPlace(old(heap.mem[..]))
    {
      ghost var m, starts, list := heap.mem[..], heap.starts, heap.freeList;
      fwd := MoveAndRelocate();
      LeftOpenExactly(m, starts, list, heap.mem[..], heap.starts);
      CanCompactIs(m, starts);
      LooseMove(m, starts, fwd, heap.mem[..], heap.starts);
      EverythingCarried(m, starts, fwd, heap.mem[..], heap.starts);
      CanCompactIs(heap.mem[..], heap.starts);
      if NothingPinnedAbove(m, starts) {
        CompactsFully(m, starts, list, heap.mem[..], heap.starts, heap.freeList);
      }
    }

    /** Moves all blocks that can be moved, and brings the pointers up to date. */
    method MoveAndRelocate() returns (ghost fwd: map<nat, nat>)
      requires heap.Valid() && table.Valid() && table.Regions() == [] && 1 <= table.blocks.Length
      requires OriginOk(Origin(heap.mem[..], heap.starts, roots[..]))
      modifies heap, heap.mem, roots, table, table.blocks
      ensures heap.Valid() && table.Valid() && table.Regions() == []
      ensures SameObjects(old(heap.mem[..]), old(heap.starts), fwd, heap.mem[..], heap.starts)
      ensures forall i | 0 <= i < roots.Length :: roots[i] == RenamedRef(fwd, old(roots[i]))
      ensures OriginOk(Origin(heap.mem[..], heap.starts, roots[..]))
      ensures |FreeCells(heap.mem[..], heap.starts)| == |FreeCells(old(heap.mem[..]), old(heap.starts))|
      ensures Layout(heap.mem[..]) == L.Compacted(Layout(old(heap.mem[..])))
      ensures MovesSome(fwd) <==> CanCompact(old(heap.mem[..]), old(heap.starts))
      ensures Settled(old(heap.mem[..]), old(heap.starts), heap.mem[..], heap.starts, heap.mem.Length)
    {
      ghost var o := Origin(heap.mem[..], heap.starts, roots[..]);
      ghost var b := Batch(Identity(o.m, o.starts), o.m, o.starts);
      StandingStart(o, heap.freeList);
      if 0 < |heap.freeList| { b := MoveBlocks(heap.freeList[0], o, b); }
      ghost var m, t, moved := heap.mem[..], table.Regions(), b.fwd;
      b := Flush(o, b);
      fwd := b.fwd;
      MovesDone(o, moved, t, m, heap.starts, b, heap.mem[..], roots[..]);
    }

    /** The compaction loop, from the first free region on.  Either the next block to be considered
        comes closer to the end of the heap, or the next free region does. */
    method MoveBlocks(first: nat, ghost o: Origin, ghost b: Batch) returns (ghost b': Batch)
      requires heap.Valid() && table.Valid() && 1 <= table.blocks.Length && first in heap.freeList
      requires table.Regions() == [] && Standing(o, b, [], heap.mem[..], heap.starts, heap.freeList, roots[..], 0,
                 Some(first))
      modifies heap, heap.mem, roots, table, table.blocks
      ensures heap.Valid() && table.Valid()
      ensures Progressing(o, b', table.Regions(), heap.mem[..], heap.starts, roots[..])
      ensures Tale(o.m, o.starts, b'.fwd, table.Regions(), heap.mem[..], heap.starts, heap.mem.Length, heap.mem.Length)
      ensures Layout(heap.mem[..]) == L.Compacted(Layout(o.m))
    {
      b' := b;
      var more, source, next := true, 0, Some(first);
      while more && next.Some?
        invariant heap.Valid() && table.Valid()
        invariant Standing(o, b', table.Regions(), heap.mem[..], heap.starts, heap.freeList, roots[..], source, next)
        invariant source <= heap.mem.Length && (!more ==> next.Some? && source == heap.mem.Length)
        decreases heap.mem.Length - source, if next.Some? then heap.mem.Length - next.value else 0, more
      {
        more, source, next, b' := Turn(source, next.value, o, b');
      }
      StandingDone(o, b', table.Regions(), heap.mem[..], heap.starts, heap.freeList, roots[..], source, next);
    }

    /** One turn of the compaction loop; `more` is false once no movable block is left. */
    method Turn(from: nat, fr: nat, ghost o: Origin, ghost b: Batch)
      returns (more: bool, source': nat, next: Option<nat>, ghost b': Batch)
      requires heap.Valid() && table.Valid() && 1 <= table.blocks.Length
      requires Standing(o, b, table.Regions(), heap.mem[..], heap.starts, heap.freeList, roots[..], from, Some(fr))
      modifies heap, heap.mem, roots, table, table.blocks
      ensures heap.Valid() && table.Valid()
      ensures Standing(o, b', table.Regions(), heap.mem[..], heap.starts, heap.freeList, roots[..], source', next)
      ensures from <= source' <= heap.mem.Length && fr < heap.mem.Length
      ensures !more ==> next == Some(fr) && source' == heap.mem.Length
      ensures more ==> from < source' || (next.Some? ==> fr < next.value)
    {
      var source := if from < fr then fr else from;
      source' := SkipUnmovable(source);
      AfterSkip(o, b, table.Regions(), heap.mem[..], heap.starts, heap.freeList, roots[..], from, source, fr, source');
      more, next, b' := source' < heap.mem.Length, Some(fr), b;
      if more {
        b' := FlushIfFull(o, b, source', fr);
        ReadyStill(old(heap.mem[..]), heap.starts, heap.freeList, old(table.Regions()), source', fr, heap.mem[..],
            table.Regions());
        source', next := Advance(source', fr, o, b');
      }
    }
  }

  lemma {:induction false} FollowsAbove(m: Memory, starts: set<nat>, list: seq<nat>, p: nat, next: Option<nat>)
    requires ClusterOk(m, starts, list) && Follows(list, p, next)
    ensures p < |m|
    ensures next.Some? ==> next.value in list && End(m, p) < next.value
  {
    var i: nat :| FollowsAt(list, p, next, i);
    assert list[i] in list;
    assert IsFreeStart(m, starts, p);
    if next.Some? {
      assert list[i + 1] in list;
      assert IsFreeStart(m, starts, next.value);
      assert BlockOk(m, starts, p) && FreeHeaderOk(m, starts, p);
    }
  }

  /** A free block that used to start where the vacated run ended now belongs to the block r. */
  lemma {:induction false} Swallowed(m: Memory, starts: set<nat>, list: seq<nat>, m': Memory, starts': set<nat>,
      list': seq<nat>, node: nat, r: nat, v: nat)
    requires node < |m| && GivenBack(m, starts, list, m', starts', list', node, r) && ClusterOk(m', starts', list')
    requires IsFreeStart(m, starts, v) && v == End(m, node) && node < v
    ensures r < v < End(m', r)
  {
    assert IsFreeStart(m', starts', r);
    assert BlockOk(m', starts', r) && FreeHeaderOk(m', starts', r);
    assert !Live(m', starts', v);
  }

  /** The block that swallowed the vacated run lies above the run's new place. */
  lemma {:induction false} VacatedAbove(m: Memory, starts: set<nat>, list: seq<nat>, st: Step, list2: seq<nat>,
      m': Memory, starts': set<nat>, list': seq<nat>, r: nat)
    requires StepOk(m, starts, list, st) && !st.slide
    requires RunMoved(m, starts, m', starts', st.s, st.d, st.n) && ClusterOk(m', starts', list')
    requires forall p | p in list2 :: p == st.d + st.n || (p in list && p != st.d)
    requires r in list' && (r == st.s || r in list2) && r < |m'| && st.s + st.n <= End(m', r)
    ensures st.d + st.n <= r
  {
    StepShape(m, starts, list, st);
    assert IsFreeStart(m', starts', r);
    assert BlockOk(m', starts', r);
    assert LiveOnceMoved(m, starts, st.s, st.d, st.n, false, st.d);
    if r in list { assert IsFreeStart(m, starts, r); }
  }

  /** The cells that a hop has vacated, as the free block they have become part of. */
  lemma {:induction false} PlaceExtent(m: Memory, starts: set<nat>, list: seq<nat>, st: Step, m': Memory,
      starts': set<nat>, list': seq<nat>)
    requires StepOk(m, starts, list, st) && !st.slide && RunMoved(m, starts, m', starts', st.s, st.d, st.n)
    requires ClusterOk(m', starts', list') && st.s in list'
    ensures st.s < |m'| && st.n <= m'[st.s].size
    ensures st.n < m'[st.s].size ==> st.s + st.n in list
  {
    CellsAfter(m, starts, list, st, m', starts');
    assert IsFreeStart(m', starts', st.s);
    assert BlockOk(m', starts', st.s) && FreeHeaderOk(m', starts', st.s);
    var e := st.s + st.n;
    assert End(m', st.s) < e ==> !Live(m', starts', End(m', st.s));
    if e < |m| { assert SameAt(m, starts, m', starts', e, 0); }
  }

  lemma {:induction false} PlaceFound(m: Memory, starts: set<nat>, list: seq<nat>, st: Step, m2: Memory,
      list2: seq<nat>, after: Option<nat>, m': Memory, starts': set<nat>, list': seq<nat>, dst: nat, next: Option<nat>)
    requires StepOk(m, starts, list, st) && !st.slide && st.rest == 0
               && RunMoved(m, starts, m', starts', st.s, st.d, st.n)
    requires ClusterOk(m', starts', list') && FreeBefore(m, list, st, m2, list2, Limit(m2, after))
    requires after.Some? ==> after.value in list && st.d < after.value
    requires forall p | p in list2 :: p == st.d + st.n || (p in list && p != st.d)
    requires forall p | p in list && p != st.d && p != st.d + st.n :: p in list2
    requires (forall p | p in list' :: p == dst || p in list2) && dst < |m'|
    requires next == if after.Some? && dst < after.value < dst + m'[dst].size then Some(dst) else after
    ensures PlaceOk(st, m', list', next)
  {
    StepShape(m, starts, list, st);
    assert !IsFreeStart(m, starts, st.s);
    if after.Some? { assert IsFreeStart(m, starts, after.value); }
    if st.s in list' {
      PlaceExtent(m, starts, list, st, m', starts', list');
      assert dst == st.s;
    }
  }

  /** The relocation pass has dealt with the blocks below ptr. */
  ghost predicate RewrittenTo(m: Memory, starts: set<nat>, t: seq<RelocationRegion>, m': Memory, ptr: nat) {
    && |m'| == |m|
    && (forall p: nat, x | Live(m, starts, p) && p < ptr && p <= x < p + m[p].size && x < |m| ::
        m'[x] == RelocatedCell(t, m[x]))
    && (forall p: nat, x | IsFreeStart(m, starts, p) && p < ptr && p <= x < p + m[p].size && x < |m| :: m'[x] == m[x])
    && (forall x | ptr <= x < |m| :: m'[x] == m[x])
  }

  lemma {:induction false} RewrittenHeaders(m: Memory, starts: set<nat>, t: seq<RelocationRegion>, m': Memory, ptr: nat,
      list: seq<nat>)
    requires ClusterOk(m, starts, list) && RewrittenTo(m, starts, t, m', ptr)
    ensures ClusterOk(m', starts, list)
  {
    forall p | p in starts && p < |m|
      ensures m'[p].kind == m[p].kind && m'[p].flags == m[p].flags && m'[p].size == m[p].size
    {
      assert BlockOk(m, starts, p);
      assert Live(m, starts, p) || IsFreeStart(m, starts, p);
    }
    SameHeaders(m, starts, list, m');
  }

  lemma {:induction false} RewrittenStep(m: Memory, starts: set<nat>, t: seq<RelocationRegion>, m1: Memory, ptr: nat,
      m2: Memory)
    requires Tiled(m, starts) && ptr in starts && ptr < |m| && RewrittenTo(m, starts, t, m1, ptr) && |m2| == |m|
    requires forall x | 0 <= x < |m| ::
               m2[x] == if ptr <= x < End(m, ptr) && !m[ptr].IsFree() then RelocatedCell(t, m1[x]) else m1[x]
    ensures RewrittenTo(m, starts, t, m2, End(m, ptr))
  {
    assert BlockOk(m, starts, ptr);
    forall p: nat, x | Live(m, starts, p) && p < End(m, ptr) && p <= x < p + m[p].size && x < |m|
      ensures m2[x] == RelocatedCell(t, m[x])
    {
      assert BlockOk(m, starts, p);
    }
    forall p: nat, x | IsFreeStart(m, starts, p) && p < End(m, ptr) && p <= x < p + m[p].size && x < |m|
      ensures m2[x] == m[x]
    {
      assert BlockOk(m, starts, p);
    }
  }

  lemma {:induction false} RewrittenDone(m: Memory, starts: set<nat>, t: seq<RelocationRegion>, m': Memory)
    requires RewrittenTo(m, starts, t, m', |m|)
    ensures Rewritten(m, starts, t, m')
  {
  }

  // ---------------------------------------------------------------- what the loop maintains

  /** The heap and the roots as they were before the compaction. */
  datatype Origin = Origin(m: Memory, starts: set<nat>, roots: seq<Ref>)

  /** The object map and the heap as of the last flush. */
  datatype Batch = Batch(fwd: map<nat, nat>, f: Memory, starts: set<nat>)

  ghost predicate OriginOk(o: Origin) {
    && Tiled(o.m, o.starts) && PointersOk(o.m, o.starts)
    && forall i | 0 <= i < |o.roots| :: o.roots[i].To? ==> Live(o.m, o.starts, o.roots[i].addr)
  }

  ghost predicate RootsFollow(o: Origin, fwd: map<nat, nat>, roots: seq<Ref>) {
    |roots| == |o.roots| && forall i | 0 <= i < |roots| :: roots[i] == RenamedRef(fwd, o.roots[i])
  }

  /** Up to the last flush the heap holds the original objects under new addresses; since then
      blocks have only moved, as the table says. */
  ghost predicate Progressing(o: Origin, b: Batch, t: seq<RelocationRegion>, m: Memory, starts: set<nat>,
      roots: seq<Ref>)
  {
    && OriginOk(o) && RootsFollow(o, b.fwd, roots)
    && SameObjects(o.m, o.starts, b.fwd, b.f, b.starts) && Tiled(b.f, b.starts)
    && BatchMoved(b.f, b.starts, t, m, starts)
    && |FreeCells(m, starts)| == |FreeCells(o.m, o.starts)|
  }

  /** A movable block at `source`, and a free region below it with nothing movable in between. */
  ghost predicate Ready(m: Memory, starts: set<nat>, list: seq<nat>, t: seq<RelocationRegion>, source: nat, fr: nat) {
    && fr in list && fr < source < |m| && Live(m, starts, source) && !m[source].IsUnmovable()
    && TableBelow(t, source) && NoMovable(m, starts, fr, source)
  }

  lemma ReadyStill(m: Memory, starts: set<nat>, list: seq<nat>, t: seq<RelocationRegion>, source: nat, fr: nat,
      m': Memory, t': seq<RelocationRegion>)
    requires Ready(m, starts, list, t, source, fr) && SameLayout(m, starts, m') && (t' == t || t' == [])
    ensures Ready(m', starts, list, t', source, fr)
  {
    SameMovable(m, starts, m', fr, source);
    assert SameHeader(m, m', source);
  }

  lemma {:induction false} FlushProgress(o: Origin, b: Batch, t: seq<RelocationRegion>, m: Memory, starts: set<nat>,
      roots: seq<Ref>, m': Memory, roots': seq<Ref>)
    requires Progressing(o, b, t, m, starts, roots) && Tiled(m, starts) && Rewritten(m, starts, t, m')
    requires |roots'| == |roots| && forall i | 0 <= i < |roots| :: roots'[i] == RelocatedRef(t, roots[i])
    ensures Progressing(o, Batch(Flushed(b.fwd, t), m', starts), [], m', starts, roots')
  {
    FlushStep(o.m, o.starts, b.fwd, b.f, b.starts, t, m, starts, m');
    RewrittenBlocks(m, starts, t, m');
    BatchStart(m', starts);
    SameLiveSameFree(m, starts, m', starts);
    forall i | 0 <= i < |roots'| ensures roots'[i] == RenamedRef(Flushed(b.fwd, t), o.roots[i]) {
      assert roots[i] == RenamedRef(b.fwd, o.roots[i]);
    }
  }

  lemma {:induction false} MoveProgress(o: Origin, b: Batch, t: seq<RelocationRegion>, m: Memory, starts: set<nat>,
      list: seq<nat>, roots: seq<Ref>, st: Step, m': Memory, starts': set<nat>)
    requires Progressing(o, b, t, m, starts, roots) && StepOk(m, starts, list, st) && Tiled(m', starts')
    requires RunMoved(m, starts, m', starts', st.s, st.d, st.n)
    requires TableBelow(t, st.s) && NoMovable(m, starts, st.d, st.s)
    ensures Progressing(o, b, t + [Region(st.s, st.d, st.n)], m', starts', roots)
  {
    BatchStep(b.f, b.starts, t, m, starts, m', starts', st.s, st.d, st.n);
    MoveKeepsFree(m, starts, list, st, m', starts');
  }

  /** From p to q every block is unmovable, and a movable block, or none, starts at q. */
  ghost predicate Skipped(m: Memory, starts: set<nat>, p: nat, q: nat) {
    && p <= q <= |m| && Boundary(m, starts, q)
    && (forall x | x in starts && p <= x < q :: x < |m| && m[x].IsUnmovable())
    && (q < |m| ==> Live(m, starts, q) && !m[q].IsUnmovable())
  }

  /** A step the loop may take, and the next block it will consider. */
  ghost predicate Movable(o: Origin, b: Batch, t: seq<RelocationRegion>, m: Memory, starts: set<nat>, list: seq<nat>,
      roots: seq<Ref>, st: Step, source': nat)
  {
    && Progressing(o, b, t, m, starts, roots) && StepOk(m, starts, list, st)
    && TableBelow(t, st.s) && NoMovable(m, starts, st.d, st.s)
    && Skipped(m, starts, st.s + st.n, source')
    && Tale(o.m, o.starts, b.fwd, t, m, starts, st.s, st.d)
    && Longest(m, starts, st) && Planned(o.m, m, Some(st.d))
  }

  /** The loop's invariant: blocks below the next free region are settled, and no movable block
      lies between it and the next block to be considered. */
  ghost predicate Standing(o: Origin, b: Batch, t: seq<RelocationRegion>, m: Memory, starts: set<nat>, list: seq<nat>,
      roots: seq<Ref>, source: nat, next: Option<nat>)
  {
    && Progressing(o, b, t, m, starts, roots)
    && Boundary(m, starts, source) && TableBelow(t, source)
    && (next.Some? ==> next.value in list && NoMovable(m, starts, next.value, source))
    && Tale(o.m, o.starts, b.fwd, t, m, starts, source, Limit(m, next))
    && Planned(o.m, m, next)
  }

  lemma {:induction false} StandingStart(o: Origin, list: seq<nat>)
    requires OriginOk(o) && ClusterOk(o.m, o.starts, list)
    ensures
      var b := Batch(Identity(o.m, o.starts), o.m, o.starts);
      && Progressing(o, b, [], o.m, o.starts, o.roots)
      && (if list == [] then
            Tale(o.m, o.starts, b.fwd, [], o.m, o.starts, |o.m|, |o.m|) && Layout(o.m) == L.Compacted(Layout(o.m))
          else Standing(o, b, [], o.m, o.starts, list, o.roots, 0, Some(list[0])))
  {
    ProgressStart(o);
    PlanStart(o.m, o.starts, list);
    if list == [] { PlanDone(o.m, o.m, o.starts, None); }
    TaleStart(o.m, o.starts, Identity(o.m, o.starts), list);
    TaleLater(o.m, o.starts, Identity(o.m, o.starts), [], o.m, o.starts, 0, |o.m|,
        if list == [] then |o.m| else list[0]);
    if list != [] { assert list[0] in list && IsFreeStart(o.m, o.starts, list[0]); }
  }

  lemma {:induction false} StandingFlushed(o: Origin, b: Batch, t: seq<RelocationRegion>, m: Memory, starts: set<nat>,
      list: seq<nat>, roots: seq<Ref>, source: nat, fr: nat, b': Batch, m': Memory, roots': seq<Ref>)
    requires Standing(o, b, t, m, starts, list, roots, source, Some(fr)) && SameLayout(m, starts, m')
    requires b' == Batch(Flushed(b.fwd, t), m', starts) && Progressing(o, b', [], m', starts, roots')
               && ClusterOk(m, starts, list)
    ensures Standing(o, b', [], m', starts, list, roots', source, Some(fr))
  {
    TaleFlushed(o.m, o.starts, b.fwd, t, m, starts, source, fr, m');
    PlanFlushed(o.m, m, starts, fr, m');
    SameMovable(m, starts, m', fr, source);
  }

  lemma {:induction false} SameMovable(m: Memory, starts: set<nat>, m': Memory, lo: nat, hi: nat)
    requires SameLayout(m, starts, m') && NoMovable(m, starts, lo, hi)
    ensures NoMovable(m', starts, lo, hi)
  {
    forall p: nat | Live(m', starts, p) && lo <= p < hi ensures m'[p].IsUnmovable() {
      assert SameHeader(m, m', p);
    }
  }

  /** The loop is done: no movable block is left, or no free block. */
  lemma {:induction false} StandingDone(o: Origin, b: Batch, t: seq<RelocationRegion>, m: Memory, starts: set<nat>,
      list: seq<nat>, roots: seq<Ref>, source: nat, next: Option<nat>)
    requires Standing(o, b, t, m, starts, list, roots, source, next) && source <= |m| && (next.Some? ==> source == |m|)
    requires ClusterOk(m, starts, list)
    ensures Tale(o.m, o.starts, b.fwd, t, m, starts, |m|, |m|) && Layout(m) == L.Compacted(Layout(o.m))
  {
    PlanDone(o.m, m, starts, next);
    if next.Some? { TaleEnd(o.m, o.starts, b.fwd, t, m, starts, source, next.value); }
    TaleLater(o.m, o.starts, b.fwd, t, m, starts, source, |m|, |m|);
  }

  lemma {:induction false} RegionFits(o: Origin, b: Batch, t: seq<RelocationRegion>, m: Memory, starts: set<nat>,
      list: seq<nat>, roots: seq<Ref>, st: Step, source': nat)
    requires Movable(o, b, t, m, starts, list, roots, st, source')
    ensures TableOk(t + [Region(st.s, st.d, st.n)])
  {
    AppendOk(t, Region(st.s, st.d, st.n));
  }

  lemma {:induction false} AfterMove(o: Origin, b: Batch, t: seq<RelocationRegion>, m: Memory, starts: set<nat>,
      list: seq<nat>, roots: seq<Ref>, st: Step, m': Memory, starts': set<nat>, list': seq<nat>, source': nat,
      next: Option<nat>)
    requires Movable(o, b, t, m, starts, list, roots, st, source') && ClusterOk(m', starts', list')
    requires RunMoved(m, starts, m', starts', st.s, st.d, st.n)
    requires NextOk(m, list, st, m', list', next)
    ensures Standing(o, b, t + [Region(st.s, st.d, st.n)], m', starts', list', roots, source', next)
  {
    MoveProgress(o, b, t, m, starts, list, roots, st, m', starts');
    WhereAfterMove(m, starts, list, t, st, m', starts', source', if next.Some? then next.value else st.d + st.n);
    TaleMove(o.m, o.starts, b.fwd, b.f, b.starts, t, m, starts, list, st.s, st, m', starts', list', source', next);
    PlanMove(o.m, m, starts, list, st, m', starts', list', next);
  }

  lemma {:induction false} WhereAfterMove(m: Memory, starts: set<nat>, list: seq<nat>, t: seq<RelocationRegion>,
      st: Step, m': Memory, starts': set<nat>, source': nat, next: nat)
    requires StepOk(m, starts, list, st) && RunMoved(m, starts, m', starts', st.s, st.d, st.n)
    requires TableBelow(t, st.s) && NoMovable(m, starts, st.d, st.s)
    requires Skipped(m, starts, st.s + st.n, source') && st.d + st.n <= next
    ensures Boundary(m', starts', source') && TableBelow(t + [Region(st.s, st.d, st.n)], source')
    ensures NoMovable(m', starts', next, source')
  {
    if source' < |m| { assert LiveOnceMoved(m, starts, st.s, st.d, st.n, false, source'); }
    forall p: nat | Live(m', starts', p) && next <= p < source' ensures m'[p].IsUnmovable() {
      assert LiveOnceMoved(m, starts, st.s, st.d, st.n, false, p);
      assert BlockOk(m, starts, p);
      assert SameBlock(m, m', p);
    }
  }

  lemma {:induction false} AfterSkip(o: Origin, b: Batch, t: seq<RelocationRegion>, m: Memory, starts: set<nat>,
      list: seq<nat>, roots: seq<Ref>, from: nat, p: nat, fr: nat, q: nat)
    requires ClusterOk(m, starts, list) && Standing(o, b, t, m, starts, list, roots, from, Some(fr))
    requires p == if from < fr then fr else from
    requires Skipped(m, starts, p, q)
    ensures Standing(o, b, t, m, starts, list, roots, q, Some(fr)) && fr < |m|
    ensures q < |m| ==> Ready(m, starts, list, t, q, fr)
  {
    assert IsFreeStart(m, starts, fr);
    NoMovableSkipped(m, starts, from, fr, p, q);
    TaleLater(o.m, o.starts, b.fwd, t, m, starts, from, q, fr);
  }

  lemma NoMovableSkipped(m: Memory, starts: set<nat>, from: nat, fr: nat, p: nat, q: nat)
    requires IsFreeStart(m, starts, fr) && NoMovable(m, starts, fr, from) && p == (if from < fr then fr else from)
               && Skipped(m, starts, p, q)
    ensures NoMovable(m, starts, fr, q) && from <= q && (q < |m| ==> fr < q)
  {
  }

  /** The free region cannot take in the block at `source`; the loop goes on with the next one. */
  lemma {:induction false} SkipOver(o: Origin, b: Batch, t: seq<RelocationRegion>, m: Memory, starts: set<nat>,
      list: seq<nat>, roots: seq<Ref>, source: nat, fr: nat, next: Option<nat>)
    requires ClusterOk(m, starts, list) && Standing(o, b, t, m, starts, list, roots, source, Some(fr))
               && Ready(m, starts, list, t, source, fr)
    requires End(m, fr) < source && m[fr].size < m[source].size && Follows(list, fr, next)
    requires next.Some? ==> next.value in list && fr < next.value
    ensures Standing(o, b, t, m, starts, list, roots, source, next)
  {
    assert IsFreeStart(m, starts, fr);
    assert NextMovable(m, starts, fr, source);
    forall p | p in list && p < Limit(m, next) ensures p <= fr {
      BeforeNext(list, fr, next, p);
    }
    TaleSkip(o.m, o.starts, b.fwd, t, m, starts, list, source, fr, next);
    PlanSkip(o.m, m, starts, list, fr, source, next);
  }

  lemma {:induction false} ProgressStart(o: Origin)
    requires OriginOk(o)
    ensures Progressing(o, Batch(Identity(o.m, o.starts), o.m, o.starts), [], o.m, o.starts, o.roots)
  {
    SameObjectsStart(o.m, o.starts);
    BatchStart(o.m, o.starts);
  }

  /** A heap that holds the same object graph has no dangling reference if the original had none. */
  lemma {:induction false} NoDangling(m0: Memory, starts0: set<nat>, fwd: map<nat, nat>, m: Memory, starts: set<nat>)
    requires Tiled(m0, starts0) && PointersOk(m0, starts0) && SameObjects(m0, starts0, fwd, m, starts)
    ensures PointersOk(m, starts)
  {
    forall p: nat, x | Live(m, starts, p) && p <= x < p + m[p].size && x < |m| && m[x].kind.Reference?
        && m[x].target.To?
      ensures Live(m, starts, m[x].target.addr)
    {
      var a :| a in fwd && fwd[a] == p;
      SameFlags(m0, starts0, fwd, m, starts, a);
      assert CellRenamed(m0, a, m, p, fwd, x - p);
    }
  }

  /** After the last flush every pointer, in the heap and in the roots, names a live block again. */
  lemma {:induction false} CompactedOrigin(o: Origin, b: Batch, m: Memory, starts: set<nat>, roots: seq<Ref>)
    requires Progressing(o, b, [], m, starts, roots) && b.f == m && b.starts == starts && Tiled(m, starts)
    ensures OriginOk(Origin(m, starts, roots))
  {
    NoDangling(o.m, o.starts, b.fwd, m, starts);
    forall i | 0 <= i < |roots| && roots[i].To? ensures Live(m, starts, roots[i].addr) {
      assert roots[i] == RenamedRef(b.fwd, o.roots[i]);
    }
  }

  /** What all the moves and the last flush have made of the heap. */
  lemma {:induction false} MovesDone(o: Origin, moved: map<nat, nat>, t: seq<RelocationRegion>, m: Memory,
      starts: set<nat>, b: Batch, m': Memory, roots: seq<Ref>)
    requires Tale(o.m, o.starts, moved, t, m, starts, |m|, |m|) && Layout(m) == L.Compacted(Layout(o.m))
    requires Tiled(m, starts) && SameLayout(m, starts, m') && Tiled(m', starts)
    requires Progressing(o, b, [], m', starts, roots) && b == Batch(Flushed(moved, t), m', starts)
    ensures SameObjects(o.m, o.starts, b.fwd, m', starts) && RootsFollow(o, b.fwd, roots)
              && OriginOk(Origin(m', starts, roots))
    ensures |FreeCells(m', starts)| == |FreeCells(o.m, o.starts)| && Layout(m') == L.Compacted(Layout(o.m))
    ensures (MovesSome(b.fwd) <==> CanCompact(o.m, o.starts)) && Settled(o.m, o.starts, m', starts, |m'|)
  {
    TaleFlushed(o.m, o.starts, moved, t, m, starts, |m|, |m|, m');
    TaleTold(o.m, o.starts, b.fwd, m', starts);
    SameTiles(m, starts, m', 0, |m|);
    CompactedOrigin(o, b, m', starts, roots);
  }

  // ---------------------------------------------------------------- conservation of free space

  /** After a step, a cell is free if it was free or vacated, and not filled. */
  lemma {:induction false} MoveFree(m: Memory, starts: set<nat>, list: seq<nat>, st: Step, m': Memory,
      starts': set<nat>, x: nat)
    requires StepOk(m, starts, list, st) && Tiled(m', starts') && RunMoved(m, starts, m', starts', st.s, st.d, st.n)
               && x < |m|
    ensures x in FreeCells(m', starts') <==>
              (x in FreeCells(m, starts) || st.s <= x < st.s + st.n) && !(st.d <= x < st.d + st.n)
  {
    FreeIsNotLive(m', starts', x);
    var c := EveryCellHasABlock(m, starts, x);
    if st.d <= x < st.d + st.n {
      FilledCell(m, starts, st, m', starts', x);
    } else {
      UnfilledCell(m, starts, st, m', starts', x, c);
    }
  }

  lemma {:induction false} FilledCell(m: Memory, starts: set<nat>, st: Step, m': Memory, starts': set<nat>, x: nat)
    requires Tiled(m, starts) && MovableRun(m, starts, st.s, st.n) && RunMoved(m, starts, m', starts', st.s, st.d, st.n)
    requires st.d <= x < st.d + st.n
    ensures exists p: nat :: Live(m', starts', p) && Inside(m', p, x)
  {
    var k := st.s - st.d;
    var c := EveryCellHasABlock(m, starts, x + k);
    RunHolds(m, starts, st.s, st.n, c, x + k);
    assert LiveOnceMoved(m, starts, st.s, st.d, st.n, false, c - k);
    assert m'[c - k] == m[c];
    assert Inside(m', c - k, x);
  }

  lemma {:induction false} UnfilledCell(m: Memory, starts: set<nat>, st: Step, m': Memory, starts': set<nat>, x: nat,
      c: nat)
    requires Tiled(m, starts) && Tiled(m', starts') && MovableRun(m, starts, st.s, st.n)
               && RunMoved(m, starts, m', starts', st.s, st.d, st.n)
    requires x < |m| && !(st.d <= x < st.d + st.n) && c in starts && Inside(m, c, x)
    requires forall q | q in starts && Inside(m, q, x) :: q == c
    ensures (forall p: nat :: Live(m', starts', p) ==> !Inside(m', p, x)) <==>
              (x in FreeCells(m, starts) || st.s <= x < st.s + st.n)
  {
    assert BlockOk(m, starts, c);
    FreeIsNotLive(m, starts, x);
    if st.s <= x < st.s + st.n {
      RunHolds(m, starts, st.s, st.n, c, x);
    } else if Live(m, starts, c) {
      OutsideRun(m, starts, st.s, st.n, c, x);
      assert LiveOnceMoved(m, starts, st.s, st.d, st.n, false, c);
      assert SameBlock(m, m', c);
      assert Inside(m', c, x);
    }
    forall p: nat | Live(m', starts', p) && Inside(m', p, x)
      ensures Live(m, starts, p) && Inside(m, p, x) && !(st.s <= p < st.s + st.n)
    {
      assert LiveOnceMoved(m, starts, st.s, st.d, st.n, false, p);
      MovedInside(m, starts, st, m', starts', p, x);
    }
  }

  lemma {:induction false} OutsideRun(m: Memory, starts: set<nat>, s: nat, n: nat, c: nat, x: nat)
    requires Tiled(m, starts) && MovableRun(m, starts, s, n) && c in starts && Inside(m, c, x) && !(s <= x < s + n)
    ensures !(s <= c < s + n)
  {
    assert BlockOk(m, starts, c);
  }

  lemma {:induction false} MovedInside(m: Memory, starts: set<nat>, st: Step, m': Memory, starts': set<nat>, p: nat,
      x: nat)
    requires Tiled(m, starts) && MovableRun(m, starts, st.s, st.n) && RunMoved(m, starts, m', starts', st.s, st.d, st.n)
    requires Live(m', starts', p) && Inside(m', p, x) && !(st.d <= x < st.d + st.n)
    ensures Live(m, starts, p) && Inside(m, p, x) && !(st.s <= p < st.s + st.n)
  {
    assert LiveOnceMoved(m, starts, st.s, st.d, st.n, false, p);
    if st.d <= p < st.d + st.n && Live(m, starts, p + (st.s - st.d)) {
      MovedEnd(m, starts, st, m', starts', p);
    }
    if Live(m, starts, p) && !(st.s <= p < st.s + st.n) {
      assert SameBlock(m, m', p) && BlockOk(m, starts, p);
    }
  }

  /** A moved block lies within the run's new place. */
  lemma {:induction false} MovedEnd(m: Memory, starts: set<nat>, st: Step, m': Memory, starts': set<nat>, p: nat)
    requires Tiled(m, starts) && MovableRun(m, starts, st.s, st.n) && RunMoved(m, starts, m', starts', st.s, st.d, st.n)
    requires st.d <= p < st.d + st.n && Live(m, starts, p + (st.s - st.d))
    ensures p < |m'| && End(m', p) <= st.d + st.n
  {
    var c := p + (st.s - st.d);
    assert BlockOk(m, starts, c);
    RunHolds(m, starts, st.s, st.n, c, c);
    assert m'[c - (st.s - st.d)] == m[c];
  }

  lemma {:induction false} MoveKeepsFree(m: Memory, starts: set<nat>, list: seq<nat>, st: Step, m': Memory,
      starts': set<nat>)
    requires StepOk(m, starts, list, st) && Tiled(m', starts') && RunMoved(m, starts, m', starts', st.s, st.d, st.n)
    ensures |FreeCells(m', starts')| == |FreeCells(m, starts)|
  {
    var free, vacated, filled := FreeCells(m, starts), Interval(st.s, st.s + st.n), Interval(st.d, st.d + st.n);
    StepShape(m, starts, list, st);
    forall x: nat | x < |m| ensures x in FreeCells(m', starts') <==> x in (free + vacated) - filled {
      MoveFree(m, starts, list, st, m', starts', x);
    }
    assert FreeCells(m', starts') == (free + vacated) - filled;
    VacatedNotFree(m, starts, list, st);
    IntervalSize(st.s, st.s + st.n);
    IntervalSize(st.d, st.d + st.n);
    SwapSize(free, vacated, filled);
  }

  lemma {:induction false} VacatedNotFree(m: Memory, starts: set<nat>, list: seq<nat>, st: Step)
    requires StepOk(m, starts, list, st)
    ensures FreeCells(m, starts) !! Interval(st.s, st.s + st.n)
    ensures Interval(st.d, st.d + st.n) <= FreeCells(m, starts) + Interval(st.s, st.s + st.n)
  {
    StepShape(m, starts, list, st);
    forall x | x in Interval(st.s, st.s + st.n) ensures x !in FreeCells(m, starts) {
      var c := EveryCellHasABlock(m, starts, x);
      RunHolds(m, starts, st.s, st.n, c, x);
      FreeIsNotLive(m, starts, x);
    }
    var filled, available := Interval(st.d, st.d + st.n), FreeCells(m, starts) + Interval(st.s, st.s + st.n);
    forall x | x in filled ensures x in available {
      if x < End(m, st.d) { assert Inside(m, st.d, x); }
    }
  }

  lemma SwapSize(free: set<nat>, vacated: set<nat>, filled: set<nat>)
    requires free !! vacated && filled <= free + vacated && |vacated| == |filled|
    ensures |(free + vacated) - filled| == |free|
  {
    assert |free + vacated| == |free| + |vacated|;
    assert (free + vacated) == ((free + vacated) - filled) + filled;
  }
}
