/** A collection, which begins by emptying the event cache, and right after it a compaction. */
module CollectAndCompact {
  import opened HeapModel
  import opened Marking
  import opened Collection
  import opened Compaction
  import opened Comp = Compactor
  import opened HeapLayout
  import L = Layouts
  import opened Settling
  import HC = HeapCluster
  import EC = EventCache

  /** References occur only in cells that the collector knows as fields or as weak cells. */
  ghost predicate NoStrayReferences(m: Memory, starts: set<nat>) {
    forall p: nat, x | Live(m, starts, p) && p < x < p + m[p].size && x < |m| && m[x].kind.Reference? ::
        x in Fields(m, p) || x in WeakCells(m, p)
  }

  /** After a collection every reference in the heap, weak ones included, names a live block. */
  lemma {:induction false} CollectedPointersOk(base: Memory, starts: set<nat>, roots: set<nat>, m: Memory,
      starts': set<nat>)
    requires Collected(base, starts, roots, m, starts') && NoStrayReferences(base, starts)
    ensures PointersOk(m, starts') && NoStrayReferences(m, starts')
  {
    forall p: nat, x | Live(m, starts', p) && p <= x < p + m[p].size && x < |m| && m[x].kind.Reference?
      ensures x > p && (x in Fields(m, p) || x in WeakCells(m, p))
                && (m[x].target.To? ==> Live(m, starts', m[x].target.addr))
    {
      assert BlockGraphOk(m, starts', p) && WeakBlockOk(m, starts', p);
      assert KeptCell(base, starts, roots, m, p, x);
      assert x in Fields(base, p) || x in WeakCells(base, p);
      if x in Fields(m, p) { assert FieldOk(m, starts', x); } else { assert WeakCellOk(m, starts', p, x); }
    }
  }

  /** The engine's own pointers name blocks that the collection treats as roots, or event blocks. */
  ghost predicate EnginePointersOk(base: Memory, starts: set<nat>, roots: set<nat>, pointers: seq<Ref>) {
    forall i | 0 <= i < |pointers| && pointers[i].To? ::
      Live(base, starts, pointers[i].addr) && (base[pointers[i].addr].IsEvent() || pointers[i].addr in roots)
  }

  /** The heap once the cached event blocks have been given back. */
  ghost function WithoutCache(m: Memory, starts: set<nat>): Memory {
    seq(|m|, x requires 0 <= x < |m| =>
      if EC.Cached(m, starts, x) then m[x].(kind := FreeBlock, flags := FREE_FLAGS, target := Null) else m[x])
  }

  /** What collector and compactor rely on: but for the event cache nothing refers to cached blocks. */
  ghost predicate ReadyToCollect(base: Memory, starts: set<nat>, roots: seq<Root>, finalizersAlive: seq<nat>,
      weakReferences: seq<nat>, pointers: seq<Ref>)
  {
    && HeapOk(base, starts) && NoStrayReferences(base, starts)
    && (forall p: nat :: !Marked(base, starts, p))
    && (forall root | root in roots :: RootOk(base, starts, root))
    && (forall p | p in finalizersAlive :: Managed(base, starts, p))
    && (forall p: nat :: p in weakReferences <==> Live(base, starts, p) && base[p].kind.WeakClass?)
    && EnginePointersOk(base, starts, RootBlocks(base, starts, roots), pointers)
  }

  /** Empties the event cache, collects, then compacts: what is reachable survives the collection, and
      the compaction moves it, keeping the object graph; at the end no pointer, in the heap or in the
      engine, dangles, and cache and allocator are in order. */
  method Run(cache: EC.EventCache, gc: GarbageCollector, compactor: Comp.Compactor, roots: seq<Root>,
      finalizersAlive: seq<nat>, weakReferences: seq<nat>)
    returns (pending: seq<nat>, ghost m1: Memory, ghost starts1: set<nat>, ghost fwd: map<nat, nat>)
    requires gc.heap == compactor.heap == cache.heap
    requires cache.Valid()
    requires ReadyToCollect(WithoutCache(compactor.heap.mem[..], compactor.heap.starts), compactor.heap.starts, roots,
               finalizersAlive, weakReferences, compactor.roots[..])
    requires compactor.table.Valid() && compactor.table.Regions() == [] && 1 <= compactor.table.blocks.Length
    modifies cache.events, compactor.heap, compactor.heap.mem, compactor.roots, compactor.table, compactor.table.blocks
    ensures compactor.heap.Valid() && cache.Valid() && forall k | 0 <= k < EC.MAX_FAST_LISTS :: cache.events[k] == []
    ensures
      var base, S := WithoutCache(old(compactor.heap.mem[..]), old(compactor.heap.starts)), old(compactor.heap.starts);
      Collected(base, S, RootBlocks(base, S, roots) + Elements(pending), m1, starts1)
    ensures SameObjects(m1, starts1, fwd, compactor.heap.mem[..], compactor.heap.starts)
    ensures Layout(compactor.heap.mem[..]) == L.Compacted(Layout(m1)) && OnlyLooseMove(m1, fwd)
    ensures forall i | 0 <= i < compactor.roots.Length :: compactor.roots[i] == RenamedRef(fwd, old(compactor.roots[i]))
    ensures OriginOk(Origin(compactor.heap.mem[..], compactor.heap.starts, compactor.roots[..]))
  {
    ghost var S, pointers := compactor.heap.starts, compactor.roots[..];
    ghost var base := WithoutCache(compactor.heap.mem[..], S);
    pending := Collect(cache, gc, roots, finalizersAlive, weakReferences, pointers);
    m1, starts1 := compactor.heap.mem[..], compactor.heap.starts;
    fwd := compactor.HeapCompact();
    NothingCached(base, S, RootBlocks(base, S, roots) + Elements(pending), m1, starts1, fwd, compactor.heap.mem[..],
        compactor.heap.starts);
  }

  /** Empties the event cache and collects; `pointers` are the engine's own. */
  method Collect(cache: EC.EventCache, gc: GarbageCollector, roots: seq<Root>, finalizersAlive: seq<nat>,
      weakReferences: seq<nat>, ghost pointers: seq<Ref>)
    returns (pending: seq<nat>)
    requires gc.heap == cache.heap && cache.Valid()
    requires ReadyToCollect(WithoutCache(gc.heap.mem[..], gc.heap.starts), gc.heap.starts, roots, finalizersAlive,
               weakReferences, pointers)
    modifies cache.events, gc.heap, gc.heap.mem
    ensures gc.heap.Valid() && forall k | 0 <= k < EC.MAX_FAST_LISTS :: cache.events[k] == []
    ensures |cache.events[..]| == EC.MAX_FAST_LISTS
    ensures
      var base, S := WithoutCache(old(gc.heap.mem[..]), old(gc.heap.starts)), old(gc.heap.starts);
      && Collected(base, S, RootBlocks(base, S, roots) + Elements(pending), gc.heap.mem[..], gc.heap.starts)
      && forall p: nat :: !EC.Cached(base, S, p)
    ensures OriginOk(Origin(gc.heap.mem[..], gc.heap.starts, pointers))
  {
    ghost var m0, S := gc.heap.mem[..], gc.heap.starts;
    ghost var base := WithoutCache(m0, S);
    CleanedDead(m0, S, gc.heap.freeList);
    var tot := cache.EventCache_Cleanup();
    assert gc.heap.mem[..] == base;
    var remaining, linked, freeBytes;
    ghost var es;
    pending, remaining, linked, freeBytes, es := gc.ExecuteGarbageCollection(roots, finalizersAlive, weakReferences);
    ghost var R := RootBlocks(base, S, roots) + Elements(pending);
    CollectedPointersOk(base, S, R, gc.heap.mem[..], gc.heap.starts);
    PointersSurvive(base, S, RootBlocks(base, S, roots), R, gc.heap.mem[..], gc.heap.starts, pointers);
  }

  /** No free block is marked once the cache has been given back. */
  lemma {:induction false} CleanedDead(m: Memory, starts: set<nat>, list: seq<nat>)
    requires HC.ClusterOk(m, starts, list)
    ensures FreeDead(WithoutCache(m, starts), starts) && |m| <= MAX_SIZE
  {
    var base := WithoutCache(m, starts);
    forall p: nat | p in starts && p < |base| && base[p].IsFree() ensures !base[p].IsAlive() {
      if !EC.Cached(m, starts, p) {
        assert HC.IsFreeStart(m, starts, p);
        assert HC.FreeHeaderOk(m, starts, p);
      }
    }
  }

  /** Neither a collection nor a compaction makes a cached block. */
  lemma {:induction false} NothingCached(base: Memory, starts: set<nat>, roots: set<nat>, m1: Memory, starts1: set<nat>,
      fwd: map<nat, nat>, m: Memory, starts': set<nat>)
    requires forall p: nat :: !EC.Cached(base, starts, p)
    requires Collected(base, starts, roots, m1, starts1) && SameObjects(m1, starts1, fwd, m, starts')
               && Tiled(m1, starts1)
    ensures forall p: nat :: !EC.Cached(m, starts', p)
  {
    forall p: nat ensures !EC.Cached(m, starts', p) {
      if Live(m, starts', p) {
        var a :| a in fwd && fwd[a] == p;
        assert BlockOk(m1, starts1, a) && RenamedCopy(m1, a, m, p, fwd);
        assert CellRenamed(m1, a, m, p, fwd, 0);
        assert !EC.Cached(base, starts, a);
      }
    }
  }

  lemma {:induction false} PointersSurvive(base: Memory, starts: set<nat>, named: set<nat>, roots: set<nat>, m: Memory,
      starts': set<nat>, pointers: seq<Ref>)
    requires HeapOk(base, starts) && Collected(base, starts, roots, m, starts') && named <= roots
    requires EnginePointersOk(base, starts, named, pointers)
    requires forall p: nat | Live(base, starts, p) && base[p].IsEvent() :: Live(m, starts', p)
    ensures forall i | 0 <= i < |pointers| && pointers[i].To? :: Live(m, starts', pointers[i].addr)
  {
    forall i | 0 <= i < |pointers| && pointers[i].To? ensures Live(m, starts', pointers[i].addr) {
      if !base[pointers[i].addr].IsEvent() { ReachRoot(base, roots, pointers[i].addr); }
    }
  }
}
