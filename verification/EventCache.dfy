/** The pool of event blocks waiting to be used again: one list per small size, and one list for
    all larger blocks. */
module EventCache {
  import opened HeapModel
  import opened Options
  import opened HC = HeapCluster

  const MAX_FAST_LISTS: nat := 40
  const EVENT_FLAGS := Flags(true, true, false)

  /** The list that holds the blocks of this size; list 0 holds the large ones. */
  function ListOf(size: nat): (k: nat)
    ensures k < MAX_FAST_LISTS
  {
    if size < MAX_FAST_LISTS then size else 0
  }

  ghost predicate Cached(m: Memory, starts: set<nat>, p: nat) {
    Live(m, starts, p) && m[p].kind.CachedBlock?
  }

  ghost predicate Entry(ev: seq<seq<nat>>, k: nat, i: nat, p: nat) {
    k < |ev| && i < |ev[k]| && ev[k][i] == p
  }

  /** Entry p of list k is a cached block of the list's size. */
  ghost predicate EntryOk(m: Memory, starts: set<nat>, k: nat, p: nat) {
    Cached(m, starts, p) && m[p].flags == EVENT_FLAGS && ListOf(m[p].size) == k
  }

  /** Every cached block is in exactly one list, once, and that is the list of its size. */
  ghost predicate EventsOk(m: Memory, starts: set<nat>, ev: seq<seq<nat>>) {
    && |ev| == MAX_FAST_LISTS
    && (forall k: nat, i: nat, p: nat | Entry(ev, k, i, p) :: EntryOk(m, starts, k, p))
    && (forall k: nat, i: nat, j: nat, p: nat | Entry(ev, k, i, p) && Entry(ev, k, j, p) :: i == j)
    && (forall p: nat | Cached(m, starts, p) :: p in ev[ListOf(m[p].size)])
  }

  ghost function CachedCells(m: Memory, starts: set<nat>): set<nat> {
    set x | x in Interval(0, |m|) && exists p :: Cached(m, starts, p) && Inside(m, p, x)
  }

  /** What a cell is depends on the block that covers it. */
  lemma {:induction false} CellIs(m: Memory, starts: set<nat>, x: nat, c: nat)
    requires Tiled(m, starts) && x < |m| && c in starts && Inside(m, c, x)
    ensures x in CachedCells(m, starts) <==> Cached(m, starts, c)
    ensures x in FreeCells(m, starts) <==> m[c].IsFree()
  {
    forall p | p in starts && Inside(m, p, x) ensures p == c {
      assert BlockOk(m, starts, p) && BlockOk(m, starts, c);
    }
  }

  // ---------------------------------------------------------------- relabelling and splitting live blocks

  lemma {:induction false} Relabel(m: Memory, starts: set<nat>, list: seq<nat>, p: nat, c: Cell)
    requires ClusterOk(m, starts, list) && Live(m, starts, p) && !c.IsFree() && c.size == m[p].size
    ensures ClusterOk(m[p := c], starts, list)
    ensures forall q: nat :: Live(m[p := c], starts, q) <==> Live(m, starts, q)
    ensures FreeCells(m[p := c], starts) == FreeCells(m, starts)
  {
    var m' := m[p := c];
    RelabelTiles(m, starts, p, c, m');
    forall q: nat | IsFreeStart(m', starts, q) ensures FreeHeaderOk(m', starts, q) {
      assert IsFreeStart(m, starts, q);
      assert FreeHeaderOk(m, starts, q);
    }
    SameLiveSameFree(m, starts, m', starts);
  }

  lemma {:induction false} RelabelTiles(m: Memory, starts: set<nat>, p: nat, c: Cell, m': Memory)
    requires Tiled(m, starts) && Live(m, starts, p) && !c.IsFree() && c.size == m[p].size && m' == m[p := c]
    ensures Tiled(m', starts)
    ensures forall q: nat :: Live(m', starts, q) <==> Live(m, starts, q)
    ensures forall q: nat :: IsFreeStart(m', starts, q) <==> IsFreeStart(m, starts, q)
    ensures forall q: nat | IsFreeStart(m, starts, q) :: m'[q] == m[q]
  {
    forall q | q in starts ensures BlockOk(m', starts, q) {
      assert BlockOk(m, starts, q);
    }
  }

  /** The block at p is cut after n cells; both parts are live. */
  lemma {:induction false} SplitLive(m: Memory, starts: set<nat>, list: seq<nat>, p: nat, n: nat, m': Memory)
    requires ClusterOk(m, starts, list) && Live(m, starts, p) && 0 < n < m[p].size && End(m, p) <= |m|
    requires |m'| == |m| && m'[p].size == n && m'[p + n].size == m[p].size - n && !m'[p].IsFree() && !m'[p + n].IsFree()
    requires forall x | 0 <= x < |m| && x != p && x != p + n :: m'[x] == m[x]
    ensures p + n !in starts && ClusterOk(m', starts + {p + n}, list)
    ensures forall q: nat :: Live(m', starts + {p + n}, q) <==> Live(m, starts, q) || q == p + n
    ensures forall q: nat | Live(m, starts, q) && q != p :: SameBlock(m, m', q)
  {
    var starts' := starts + {p + n};
    SplitTiles(m, starts, p, n, m');
    forall q: nat ensures Live(m', starts', q) <==> Live(m, starts, q) || q == p + n {
      assert q < |m| && q != p && q != p + n ==> m'[q] == m[q];
    }
    forall q: nat ensures IsFreeStart(m', starts', q) <==> IsFreeStart(m, starts, q) {
    }
    forall q: nat | IsFreeStart(m', starts', q) ensures FreeHeaderOk(m', starts', q) {
      assert FreeHeaderOk(m, starts, q) && BlockOk(m, starts, q);
    }
    forall q: nat | Live(m, starts, q) && q != p ensures SameBlock(m, m', q) {
      assert BlockOk(m, starts, q) && BlockOk(m, starts, p);
    }
  }

  // ---------------------------------------------------------------- the lists

  function Appended(ev: seq<seq<nat>>, k: nat, p: nat): seq<seq<nat>>
    requires k < |ev|
  {
    ev[k := ev[k] + [p]]
  }

  function Removed(ev: seq<seq<nat>>, k: nat, i: nat): seq<seq<nat>>
    requires k < |ev| && i < |ev[k]|
  {
    ev[k := RemoveAt(ev[k], i)]
  }

  lemma {:induction false} AppendOk(m: Memory, starts: set<nat>, ev: seq<seq<nat>>, p: nat, target: Ref)
    requires EventsOk(m, starts, ev) && Live(m, starts, p) && !Cached(m, starts, p)
    ensures EventsOk(m[p := Cell(CachedBlock, EVENT_FLAGS, m[p].size, target)], starts,
              Appended(ev, ListOf(m[p].size), p))
  {
    var m' := m[p := Cell(CachedBlock, EVENT_FLAGS, m[p].size, target)];
    var k0 := ListOf(m[p].size);
    var ev' := Appended(ev, k0, p);
    forall k: nat, i: nat, q: nat | Entry(ev', k, i, q)
      ensures EntryOk(m', starts, k, q) && if k == k0 && i == |ev[k0]| then q == p else Entry(ev, k, i, q)
    {
      if k != k0 || i < |ev[k0]| { assert Entry(ev, k, i, q) && EntryOk(m, starts, k, q); }
    }
    assert forall k: nat, i: nat | Entry(ev, k, i, p) :: EntryOk(m, starts, k, p);
    forall q: nat | Cached(m', starts, q) ensures q in ev'[ListOf(m'[q].size)] {
      assert q == p || q in ev[ListOf(m[q].size)];
      assert ev'[k0][|ev[k0]|] == p;
    }
  }

  lemma {:induction false} RemoveOk(m: Memory, starts: set<nat>, ev: seq<seq<nat>>, k0: nat, i0: nat, p: nat, c: Cell)
    requires EventsOk(m, starts, ev) && Entry(ev, k0, i0, p) && p < |m| && !c.kind.CachedBlock?
    ensures EventsOk(m[p := c], starts, Removed(ev, k0, i0))
  {
    var m', ev' := m[p := c], Removed(ev, k0, i0);
    assert EntryOk(m, starts, k0, p);
    forall k: nat, i: nat, q: nat | Entry(ev', k, i, q)
      ensures Entry(ev, k, if k == k0 && i0 <= i then i + 1 else i, q) && q != p
    {
      var j := if k == k0 && i0 <= i then i + 1 else i;
      assert Entry(ev, k, j, q);
      assert EntryOk(m, starts, k, q);
    }
    forall k: nat, i: nat, q: nat | Entry(ev', k, i, q) ensures EntryOk(m', starts, k, q) {
      assert EntryOk(m, starts, k, q);
    }
    forall q: nat | Cached(m', starts, q) ensures q in ev'[ListOf(m'[q].size)] {
      var k := ListOf(m[q].size);
      assert q != p && Cached(m, starts, q);
      var i: nat :| i < |ev[k]| && ev[k][i] == q;
      if k == k0 { assert ev'[k][if i < i0 then i else i - 1] == q; }
    }
  }

  /** Blocks that keep their header keep their place in the lists. */
  lemma {:induction false} SameHeadersEvents(m: Memory, starts: set<nat>, ev: seq<seq<nat>>, m': Memory)
    requires EventsOk(m, starts, ev) && |m'| == |m|
    requires forall p | p in starts && p < |m| ::
               m'[p].kind == m[p].kind && m'[p].flags == m[p].flags && m'[p].size == m[p].size
    ensures EventsOk(m', starts, ev)
    ensures CachedCells(m', starts) == CachedCells(m, starts) && FreeCells(m', starts) == FreeCells(m, starts)
  {
    forall p: nat ensures Cached(m', starts, p) <==> Cached(m, starts, p) {
    }
    forall k: nat, i: nat, p: nat | Entry(ev, k, i, p) ensures EntryOk(m', starts, k, p) {
      assert EntryOk(m, starts, k, p);
    }
  }

  /** With the same cached blocks under the same headers the lists are still right. */
  lemma {:induction false} SameCachedEvents(m: Memory, starts: set<nat>, ev: seq<seq<nat>>, m': Memory,
      starts': set<nat>)
    requires EventsOk(m, starts, ev) && |m'| == |m|
    requires forall p: nat :: Cached(m', starts', p) <==> Cached(m, starts, p)
    requires forall p: nat | Cached(m, starts, p) :: m'[p] == m[p]
    ensures EventsOk(m', starts', ev) && CachedCells(m', starts') == CachedCells(m, starts)
  {
    forall k: nat, i: nat, p: nat | Entry(ev, k, i, p) ensures EntryOk(m', starts', k, p) {
      assert EntryOk(m, starts, k, p);
    }
    forall x: nat | x < |m| ensures x in CachedCells(m', starts') <==> x in CachedCells(m, starts) {
      assert forall p: nat | Cached(m, starts, p) :: Inside(m', p, x) <==> Inside(m, p, x);
    }
  }

  /** One block more, or one less, in the cache. */
  lemma {:induction false} RelabelCells(m: Memory, starts: set<nat>, p: nat, c: Cell)
    requires Tiled(m, starts) && Live(m, starts, p) && Tiled(m[p := c], starts) && c.size == m[p].size
    ensures c.kind.CachedBlock? ==> CachedCells(m[p := c], starts) == CachedCells(m, starts) + Interval(p, End(m, p))
    ensures !c.kind.CachedBlock? ==> CachedCells(m[p := c], starts) == CachedCells(m, starts) - Interval(p, End(m, p))
  {
    var m' := m[p := c];
    forall x: nat | x < |m|
      ensures x in CachedCells(m', starts) <==>
        if Inside(m, p, x) then c.kind.CachedBlock? else x in CachedCells(m, starts)
    {
      var b := EveryCellHasABlock(m, starts, x);
      CellIs(m, starts, x, b);
      CellIs(m', starts, x, b);
    }
    assert BlockOk(m, starts, p);
  }

  // ---------------------------------------------------------------- best fit

  /** The largest block accepted for a request, 25% more than asked for. */
  function Limit(blocks: nat): nat { blocks * 20 / 16 }

  /** The first of the smallest blocks that are large enough and not too large. */
  ghost predicate BestAt(sizes: seq<nat>, blocks: nat, i: nat) {
    && i < |sizes| && blocks <= sizes[i] <= Limit(blocks)
    && forall j | 0 <= j < |sizes| && blocks <= sizes[j] <= Limit(blocks) ::
        sizes[i] < sizes[j] || (sizes[i] == sizes[j] && i <= j)
  }

  ghost function Sizes(m: Memory, list: seq<nat>): seq<nat> {
    seq(|list|, i requires 0 <= i < |list| => if list[i] < |m| then m[list[i]].size else 0)
  }

  /** The block at p is large enough for the request and at most a quarter larger. */
  ghost predicate Fits(m: Memory, p: nat, blocks: nat) {
    p < |m| && blocks <= m[p].size && 4 * m[p].size <= 5 * blocks
  }

  /** Entry i is the first of the smallest blocks of the list that fit. */
  ghost predicate BestFitting(m: Memory, list: seq<nat>, blocks: nat, i: nat) {
    && i < |list| && Fits(m, list[i], blocks)
    && forall j | 0 <= j < |list| && Fits(m, list[j], blocks) ::
        m[list[i]].size < m[list[j]].size || (m[list[i]].size == m[list[j]].size && i <= j)
  }

  lemma {:induction false} BestAtFits(m: Memory, list: seq<nat>, blocks: nat, i: nat)
    requires 0 < blocks && BestAt(Sizes(m, list), blocks, i)
    ensures BestFitting(m, list, blocks, i)
  {
    var sizes := Sizes(m, list);
    forall j | 0 <= j < |list| && Fits(m, list[j], blocks)
      ensures m[list[i]].size < m[list[j]].size || (m[list[i]].size == m[list[j]].size && i <= j)
    {
      assert blocks <= sizes[j] <= Limit(blocks);
    }
    assert sizes[i] == m[list[i]].size;
  }

  lemma {:induction false} NoneFits(m: Memory, list: seq<nat>, blocks: nat)
    requires forall j | 0 <= j < |list| :: !(blocks <= Sizes(m, list)[j] <= Limit(blocks))
    ensures forall j | 0 <= j < |list| :: !Fits(m, list[j], blocks)
  {
    forall j | 0 <= j < |list| ensures !Fits(m, list[j], blocks) {
      assert !(blocks <= Sizes(m, list)[j] <= Limit(blocks));
    }
  }

  // ---------------------------------------------------------------- which cached blocks serve a request

  /** The cached block p may be handed out: for a small request it has exactly the size asked for,
      for a large one it fits. */
  ghost predicate Serves(m: Memory, starts: set<nat>, p: nat, blocks: nat) {
    && Live(m, starts, p) && m[p].kind.CachedBlock?
    && if blocks < 40 then m[p].size == blocks else Fits(m, p, blocks)
  }

  /** The cached blocks that serve a small request are those of the list of its size. */
  lemma {:induction false} SmallServes(m: Memory, starts: set<nat>, ev: seq<seq<nat>>, blocks: nat)
    requires EventsOk(m, starts, ev) && 0 < blocks < 40
    ensures forall p: nat :: Serves(m, starts, p, blocks) <==> p in ev[blocks]
  {
    forall p: nat ensures Serves(m, starts, p, blocks) <==> p in ev[blocks] {
      if Serves(m, starts, p, blocks) {
        assert Cached(m, starts, p);
      }
      if p in ev[blocks] {
        var i: nat :| i < |ev[blocks]| && ev[blocks][i] == p;
        assert Entry(ev, blocks, i, p) && EntryOk(m, starts, blocks, p);
      }
    }
  }

  /** The cached blocks that serve a large request are those of list 0 that fit. */
  lemma {:induction false} LargeServes(m: Memory, starts: set<nat>, ev: seq<seq<nat>>, blocks: nat)
    requires EventsOk(m, starts, ev) && 40 <= blocks
    ensures forall p: nat :: Serves(m, starts, p, blocks) <==> p in ev[0] && Fits(m, p, blocks)
  {
    forall p: nat ensures Serves(m, starts, p, blocks) <==> p in ev[0] && Fits(m, p, blocks) {
      if Serves(m, starts, p, blocks) {
        assert Cached(m, starts, p);
      }
      if p in ev[0] && Fits(m, p, blocks) {
        var i: nat :| i < |ev[0]| && ev[0][i] == p;
        assert Entry(ev, 0, i, p) && EntryOk(m, starts, 0, p);
      }
    }
  }

  /** What taking `n` cells out of entry i of list k does to heap and cache: the block's first n
      cells are handed out, the rest goes to the back of the list of its own size, and no other
      block changes. */
  ghost predicate TakenOut(m: Memory, starts: set<nat>, ev: seq<seq<nat>>, m': Memory, starts': set<nat>,
      ev': seq<seq<nat>>, k: nat, i: nat, n: nat, kind: Kind)
  {
    && |m'| == |m| && k < |ev| && i < |ev[k]| && |ev| == MAX_FAST_LISTS
    && var p := ev[k][i];
    && p < |m| && 0 < n <= m[p].size
    && m'[p].kind == kind && m'[p].flags == EVENT_FLAGS && m'[p].size == n
    && ev' == (if n < m[p].size then Appended(Removed(ev, k, i), ListOf(m[p].size - n), p + n) else Removed(ev, k, i))
    && (forall q: nat :: Live(m', starts', q) <==> Live(m, starts, q) || (n < m[p].size && q == p + n))
    && (forall q: nat | Live(m, starts, q) && q != p :: SameBlock(m, m', q))
    && CachedCells(m', starts') == CachedCells(m, starts) - Interval(p, p + n)
    && FreeCells(m', starts') == FreeCells(m, starts)
  }

  function CutAt(m: Memory, p: nat, n: nat): Memory
    requires p + n < |m| && n <= m[p].size
  {
    m[p := m[p].(size := n)][p + n := Cell(m[p].kind, EVENT_FLAGS, m[p].size - n, Null)]
  }

  lemma {:induction false} CutEvents(m: Memory, starts: set<nat>, list: seq<nat>, ev: seq<seq<nat>>, p: nat, n: nat)
    requires ClusterOk(m, starts, list) && EventsOk(m, starts, ev) && Live(m, starts, p) && !Cached(m, starts, p)
    requires 0 < n < m[p].size && End(m, p) <= |m|
    ensures EventsOk(CutAt(m, p, n), starts + {p + n}, ev)
    ensures CachedCells(CutAt(m, p, n), starts + {p + n}) == CachedCells(m, starts)
    ensures FreeCells(CutAt(m, p, n), starts + {p + n}) == FreeCells(m, starts)
  {
    var m', starts' := CutAt(m, p, n), starts + {p + n};
    SplitLive(m, starts, list, p, n, m');
    forall q: nat ensures Cached(m', starts', q) <==> Cached(m, starts, q) {
    }
    SameCachedEvents(m, starts, ev, m', starts');
    forall x: nat | x < |m| ensures x in FreeCells(m', starts') <==> x in FreeCells(m, starts) {
      var c := EveryCellHasABlock(m, starts, x);
      var c' := if c == p && p + n <= x then p + n else c;
      assert BlockOk(m, starts, c) && BlockOk(m, starts, p);
      CellIs(m, starts, x, c);
      CellIs(m', starts', x, c');
    }
  }

  lemma {:induction false} TakenWhole(m: Memory, starts: set<nat>, ev: seq<seq<nat>>, k: nat, i: nat, p: nat,
      kind: Kind)
    requires Tiled(m, starts) && EventsOk(m, starts, ev) && Entry(ev, k, i, p) && p < |m|
    requires !kind.CachedBlock? && !kind.FreeBlock?
    ensures
      var m' := m[p := Cell(kind, EVENT_FLAGS, m[p].size, m[p].target)];
      && (FreeCells(m', starts) == FreeCells(m, starts)
          && CachedCells(m', starts) == CachedCells(m, starts) - Interval(p, p + m[p].size)
          ==> TakenOut(m, starts, ev, m', starts, Removed(ev, k, i), k, i, m[p].size, kind))
  {
    assert EntryOk(m, starts, k, p);
    var m' := m[p := Cell(kind, EVENT_FLAGS, m[p].size, m[p].target)];
    assert BlockOk(m, starts, p);
    forall q: nat | Live(m, starts, q) && q != p ensures SameBlock(m, m', q) {
      assert BlockOk(m, starts, q);
    }
  }

  /** Handing out n cells takes exactly n cells out of the cache. */
  lemma {:induction false} TakenOutConserves(m: Memory, starts: set<nat>, ev: seq<seq<nat>>, m': Memory,
      starts': set<nat>, ev': seq<seq<nat>>, k: nat, i: nat, n: nat, kind: Kind)
    requires Tiled(m, starts) && EventsOk(m, starts, ev) && TakenOut(m, starts, ev, m', starts', ev', k, i, n, kind)
    ensures |CachedCells(m', starts')| + n == |CachedCells(m, starts)|
              && |FreeCells(m', starts')| == |FreeCells(m, starts)|
  {
    var p := ev[k][i];
    assert Entry(ev, k, i, p) && EntryOk(m, starts, k, p) && BlockOk(m, starts, p);
    FirstCells(m, starts, p, n);
    SizeAfter(CachedCells(m, starts), p, n, CachedCells(m', starts'));
  }

  lemma {:induction false} FirstCells(m: Memory, starts: set<nat>, p: nat, n: nat)
    requires Tiled(m, starts) && Cached(m, starts, p) && n <= m[p].size
    ensures Interval(p, p + n) <= CachedCells(m, starts)
  {
    assert BlockOk(m, starts, p);
    var taken := Interval(p, p + n);
    forall x | x in taken ensures x in CachedCells(m, starts) {
      CellIs(m, starts, x, p);
    }
  }

  class EventCache {
    const heap: HC.HeapCluster
    const events: array<seq<nat>>

    constructor EventCache_Initialize(cluster: HC.HeapCluster)
      requires cluster.Valid() && forall p: nat :: !Cached(cluster.mem[..], cluster.starts, p)
      ensures heap == cluster && fresh(events) && Valid() && forall k | 0 <= k < MAX_FAST_LISTS :: events[k] == []
    {
      heap := cluster;
      events := new seq<nat>[MAX_FAST_LISTS](_ => []);
    }

    ghost predicate Valid()
      reads heap, heap.mem, events
    {
      heap.Valid() && EventsOk(heap.mem[..], heap.starts, events[..])
    }

    /** Puts a block of the event heap into the cache. */
    method AppendNode(node: nat)
      requires Valid() && Live(heap.mem[..], heap.starts, node) && !Cached(heap.mem[..], heap.starts, node)
      modifies heap.mem, events
      ensures Valid()
      ensures heap.mem[..] == old(heap.mem[..])[node := Cell(CachedBlock, EVENT_FLAGS, old(heap.mem[..])[node].size,
                old(heap.mem[..])[node].target)]
      ensures events[..] == Appended(old(events[..]), ListOf(old(heap.mem[..])[node].size), node)
      ensures forall j | 0 <= j < MAX_FAST_LISTS ::
                events[j] == old(events[j]) + Queued(j, old(heap.mem[..])[node].size, node)
      ensures CachedCells(heap.mem[..], heap.starts) == CachedCells(old(heap.mem[..]), heap.starts)
                + Interval(node, node + heap.mem[..][node].size)
      ensures FreeCells(heap.mem[..], heap.starts) == FreeCells(old(heap.mem[..]), heap.starts)
    {
      ghost var m, ev := heap.mem[..], events[..];
      var blocks := heap.mem[node].size;
      var lst := if blocks < MAX_FAST_LISTS then blocks else 0;
      var cell := Cell(CachedBlock, EVENT_FLAGS, blocks, heap.mem[node].target);
      AppendOk(m, heap.starts, ev, node, cell.target);
      Relabel(m, heap.starts, heap.freeList, node, cell);
      RelabelCells(m, heap.starts, node, cell);
      heap.mem[node] := cell;
      events[lst] := events[lst] + [node];
      assert heap.mem[..] == m[node := cell] && events[..] == Appended(ev, lst, node);
    }

    /** Takes entry i out of list k and gives the block another type. */
    method TakeEntry(k: nat, i: nat, kind: Kind) returns (p: nat)
      requires Valid() && k < MAX_FAST_LISTS && i < |events[k]| && !kind.CachedBlock? && !kind.FreeBlock?
      modifies heap.mem, events
      ensures Valid() && p == old(events[k][i])
      ensures EntryOk(old(heap.mem[..]), heap.starts, k, p)
      ensures heap.mem[..] == old(heap.mem[..])[p := Cell(kind, EVENT_FLAGS, old(heap.mem[..])[p].size,
                old(heap.mem[..])[p].target)]
      ensures events[..] == Removed(old(events[..]), k, i)
      ensures Live(heap.mem[..], heap.starts, p) && !Cached(heap.mem[..], heap.starts, p)
      ensures CachedCells(heap.mem[..], heap.starts) == CachedCells(old(heap.mem[..]), heap.starts) - Interval(p,
                p + heap.mem[..][p].size)
      ensures FreeCells(heap.mem[..], heap.starts) == FreeCells(old(heap.mem[..]), heap.starts)
    {
      ghost var m, ev := heap.mem[..], events[..];
      p := events[k][i];
      assert Entry(ev, k, i, p) && EntryOk(m, heap.starts, k, p);
      var cell := Cell(kind, EVENT_FLAGS, heap.mem[p].size, heap.mem[p].target);
      RemoveOk(m, heap.starts, ev, k, i, p, cell);
      Relabel(m, heap.starts, heap.freeList, p, cell);
      RelabelCells(m, heap.starts, p, cell);
      events[k] := RemoveAt(events[k], i);
      heap.mem[p] := cell;
      assert heap.mem[..] == m[p := cell] && events[..] == Removed(ev, k, i);
    }

    /** Cuts a block that is not cached after n cells. */
    method CutTail(p: nat, n: nat)
      requires Valid() && Live(heap.mem[..], heap.starts, p) && !Cached(heap.mem[..], heap.starts, p)
      requires 0 < n < heap.mem[p].size && p + heap.mem[p].size <= heap.mem.Length
      modifies heap`starts, heap.mem
      ensures Valid() && heap.starts == old(heap.starts) + {p + n} && p + n !in old(heap.starts)
      ensures heap.mem[..] == CutAt(old(heap.mem[..]), p, n)
      ensures forall q: nat ::
                Live(heap.mem[..], heap.starts, q) <==> Live(old(heap.mem[..]), old(heap.starts), q) || q == p + n
      ensures forall q: nat | Live(old(heap.mem[..]), old(heap.starts), q) && q != p ::
                SameBlock(old(heap.mem[..]), heap.mem[..], q)
      ensures CachedCells(heap.mem[..], heap.starts) == CachedCells(old(heap.mem[..]), old(heap.starts))
      ensures FreeCells(heap.mem[..], heap.starts) == FreeCells(old(heap.mem[..]), old(heap.starts))
    {
      ghost var m, starts := heap.mem[..], heap.starts;
      var next, rest := p + n, heap.mem[p].size - n;
      heap.mem[p] := heap.mem[p].(size := n);
      heap.mem[next] := Cell(heap.mem[p].kind, EVENT_FLAGS, rest, Null);
      heap.starts := heap.starts + {next};
      assert heap.mem[..] == CutAt(m, p, n);
      SplitLive(m, starts, heap.freeList, p, n, heap.mem[..]);
      CutEvents(m, starts, heap.freeList, events[..], p, n);
    }

    /** The entry of the list of large blocks that fits best. */
    method BestFit(blocks: nat) returns (best: Option<nat>)
      requires Valid() && 0 < blocks
      ensures best.Some? ==> BestFitting(heap.mem[..], events[0], blocks, best.value)
      ensures best.None? ==> forall j | 0 <= j < |events[0]| :: !Fits(heap.mem[..], events[0][j], blocks)
    {
      ghost var sizes := Sizes(heap.mem[..], events[0]);
      var bestSize := 0;
      best := None;
      for i := 0 to |events[0]|
        invariant best.Some? ==> BestAt(sizes[..i], blocks, best.value) && sizes[best.value] == bestSize
        invariant best.None? ==> forall j | 0 <= j < i :: !(blocks <= sizes[j] <= Limit(blocks))
        invariant forall j | 0 <= j < i :: sizes[j] != blocks
      {
        assert Entry(events[..], 0, i, events[0][i]) && EntryOk(heap.mem[..], heap.starts, 0, events[0][i]);
        var size := heap.mem[events[0][i]].size;
        assert size == sizes[i] && sizes[..i + 1] == sizes[..i] + [size];
        if size == blocks {
          best := Some(i);
          assert BestAt(sizes, blocks, i);
          BestAtFits(heap.mem[..], events[0], blocks, i);
          return;
        }
        if size >= blocks && ((best.Some? && size < bestSize) || (best.None? && size <= Limit(blocks))) {
          best, bestSize := Some(i), size;
        }
      }
      assert sizes[..|events[0]|] == sizes;
      if best.Some? {
        BestAtFits(heap.mem[..], events[0], blocks, best.value);
      } else {
        NoneFits(heap.mem[..], events[0], blocks);
      }
    }

    /** Hands out the first n cells of entry i of list k; the tail goes back into the cache. */
    method TakeCells(k: nat, i: nat, n: nat, kind: Kind) returns (p: nat)
      requires Valid() && k < MAX_FAST_LISTS && i < |events[k]| && !kind.CachedBlock? && !kind.FreeBlock?
      requires events[k][i] < heap.mem.Length && 0 < n <= heap.mem[events[k][i]].size
      modifies heap`starts, heap.mem, events
      ensures Valid() && p == old(events[k][i])
      ensures TakenOut(old(heap.mem[..]), old(heap.starts), old(events[..]), heap.mem[..], heap.starts, events[..], k,
                i, n, kind)
    {
      ghost var m, starts, ev := heap.mem[..], heap.starts, events[..];
      assert Entry(ev, k, i, ev[k][i]) && EntryOk(m, starts, k, ev[k][i]);
      assert BlockOk(m, starts, ev[k][i]);
      p := TakeEntry(k, i, kind);
      TakenWhole(m, starts, ev, k, i, p, kind);
      if heap.mem[p].size > n {
        ghost var m1, ev1 := heap.mem[..], events[..];
        CutTail(p, n);
        ghost var m2, starts2 := heap.mem[..], heap.starts;
        AppendNode(p + n);
        TakenTail(m, starts, ev, m1, ev1, m2, starts2, heap.mem[..], events[..], k, i, n, kind);
      }
    }

    method ZeroData(p: nat, n: nat)
      requires Valid() && p in heap.starts && p < heap.mem.Length && heap.mem[p].size == n && p + n <= heap.mem.Length
      modifies heap.mem
      ensures Valid() && ZeroedAt(old(heap.mem[..]), heap.mem[..], p, n)
      ensures CachedCells(heap.mem[..], heap.starts) == CachedCells(old(heap.mem[..]), heap.starts)
      ensures FreeCells(heap.mem[..], heap.starts) == FreeCells(old(heap.mem[..]), heap.starts)
    {
      ghost var m := heap.mem[..];
      assert BlockOk(m, heap.starts, p);
      heap.InitializeToZero(p, n);
      SameHeadersEvents(m, heap.starts, events[..], heap.mem[..]);
    }

    /** Takes a block from the event end of the heap. */
    method ExtractHeapBlocksForEvents(kind: Kind, zero: bool, blocks: nat) returns (res: Option<nat>)
      requires Valid() && 1 <= blocks && !kind.FreeBlock? && !kind.CachedBlock?
      modifies heap, heap.mem
      ensures Valid() && FromHeap(old(heap.mem[..]), old(heap.starts), heap.mem[..], heap.starts, res, blocks, kind)
      ensures CachedCells(heap.mem[..], heap.starts) == CachedCells(old(heap.mem[..]), old(heap.starts))
      ensures res.Some? && zero ==> DataIsZero(heap.mem[..], res.value)
    {
      ghost var m, starts := heap.mem[..], heap.starts;
      res := heap.ExtractBlocks(kind, EVENT_FLAGS, zero, blocks);
      if res.Some? {
        AllocatedEvents(m, starts, events[..], heap.mem[..], heap.starts, res.value, blocks, kind);
      }
    }

    /** A small block: the first one of its list. */
    method ExtractNodeFast(kind: Kind, zero: bool, blocks: nat) returns (res: Option<nat>)
      requires Valid() && 0 < blocks < MAX_FAST_LISTS && !kind.FreeBlock? && !kind.CachedBlock?
      modifies heap, heap.mem, events
      ensures Valid()
      ensures old(events[blocks]) != [] ==>
                && res == Some(old(events[blocks][0]))
                && TakenOut(old(heap.mem[..]), old(heap.starts), old(events[..]), heap.mem[..], heap.starts, events[..],
                    blocks, 0, blocks, kind)
      ensures old(events[blocks]) == [] ==>
                && events[..] == old(events[..])
                    && FromHeap(old(heap.mem[..]), old(heap.starts), heap.mem[..], heap.starts, res, blocks, kind)
                && CachedCells(heap.mem[..], heap.starts) == CachedCells(old(heap.mem[..]), old(heap.starts))
      ensures Answers(old(heap.mem[..]), old(heap.starts), old(events[..]), heap.mem[..], heap.starts, events[..], res,
                blocks, kind)
      ensures Delivers(old(heap.mem[..]), old(heap.starts), heap.mem[..], heap.starts, res, blocks, kind)
      ensures res.Some? && zero ==> DataIsZero(heap.mem[..], res.value)
    {
      ghost var m, starts, ev := heap.mem[..], heap.starts, events[..];
      if events[blocks] != [] {
        assert Entry(ev, blocks, 0, ev[blocks][0]) && EntryOk(m, starts, blocks, ev[blocks][0]);
        res := HandOut(blocks, 0, blocks, kind, zero);
        SmallFromCache(m, starts, ev, heap.mem[..], heap.starts, events[..], blocks, kind);
      } else {
        res := ExtractHeapBlocksForEvents(kind, zero, blocks);
        SmallServes(m, starts, ev, blocks);
        FromHeapAnswers(m, starts, ev, heap.mem[..], heap.starts, events[..], res, blocks, kind);
      }
    }

    /** A large block: the one that fits best, if one fits well enough. */
    method ExtractNodeSlow(kind: Kind, zero: bool, blocks: nat) returns (res: Option<nat>)
      requires Valid() && 0 < blocks && !kind.FreeBlock? && !kind.CachedBlock?
      modifies heap, heap.mem, events
      ensures Valid()
      ensures SlowAnswers(old(heap.mem[..]), old(heap.starts), old(events[..]), heap.mem[..], heap.starts, events[..],
                res, blocks, kind)
      ensures 40 <= blocks ==>
                && Answers(old(heap.mem[..]), old(heap.starts), old(events[..]), heap.mem[..], heap.starts, events[..],
                     res, blocks, kind)
                && Delivers(old(heap.mem[..]), old(heap.starts), heap.mem[..], heap.starts, res, blocks, kind)
      ensures res.Some? && zero ==> DataIsZero(heap.mem[..], res.value)
    {
      ghost var m, starts, ev := heap.mem[..], heap.starts, events[..];
      var best := BestFit(blocks);
      if best.Some? {
        var i := best.value;
        assert Entry(ev, 0, i, ev[0][i]) && EntryOk(m, starts, 0, ev[0][i]);
        res := HandOut(0, i, blocks, kind, zero);
        LargeFromCache(m, starts, ev, heap.mem[..], heap.starts, events[..], i, blocks, kind);
      } else {
        res := ExtractHeapBlocksForEvents(kind, zero, blocks);
        LargeFromHeap(m, starts, ev, heap.mem[..], heap.starts, events[..], res, blocks, kind);
      }
    }

    method HandOut(k: nat, i: nat, n: nat, kind: Kind, zero: bool) returns (res: Option<nat>)
      requires Valid() && k < MAX_FAST_LISTS && i < |events[k]| && !kind.CachedBlock? && !kind.FreeBlock?
      requires events[k][i] < heap.mem.Length && 0 < n <= heap.mem[events[k][i]].size
      modifies heap, heap.mem, events
      ensures Valid() && res == Some(old(events[k][i]))
      ensures TakenOut(old(heap.mem[..]), old(heap.starts), old(events[..]), heap.mem[..], heap.starts, events[..], k,
                i, n, kind)
      ensures zero ==> DataIsZero(heap.mem[..], res.value)
    {
      ghost var m, starts, ev := heap.mem[..], heap.starts, events[..];
      assert Entry(ev, k, i, ev[k][i]) && EntryOk(m, starts, k, ev[k][i]) && BlockOk(m, starts, ev[k][i]);
      var p := TakeCells(k, i, n, kind);
      res := Some(p);
      if zero {
        ghost var m1 := heap.mem[..];
        ZeroData(p, n);
        TakenOutZeroed(m, starts, ev, m1, heap.starts, events[..], k, i, n, kind, heap.mem[..]);
      }
    }

    /** Gives every cached block back as a free block, for the next sweep to collect; returns how many
        cells that are. */
    method EventCache_Cleanup() returns (tot: nat)
      requires Valid()
      modifies heap.mem, events
      ensures Tiled(heap.mem[..], heap.starts) && EventsOk(heap.mem[..], heap.starts, events[..])
      ensures forall k | 0 <= k < MAX_FAST_LISTS :: events[k] == []
      ensures tot == |CachedCells(old(heap.mem[..]), heap.starts)|
      ensures forall x: nat | x < heap.mem.Length :: heap.mem[..][x] ==
                if Cached(old(heap.mem[..]), heap.starts, x)
                then old(heap.mem[..])[x].(kind := FreeBlock, flags := FREE_FLAGS, target := Null)
                else old(heap.mem[..])[x]
    {
      ghost var m0, starts, ev := heap.mem[..], heap.starts, events[..];
      tot := 0;
      for k := 0 to MAX_FAST_LISTS
        invariant heap.starts == starts && Tiled(heap.mem[..], starts)
        invariant forall j | 0 <= j < MAX_FAST_LISTS :: events[j] == if j < k then [] else ev[j]
        invariant EventsOk(heap.mem[..], starts, events[..])
        invariant Returned(m0, starts, heap.mem[..])
        invariant tot + |CachedCells(heap.mem[..], starts)| == |CachedCells(m0, starts)|
      {
        var n := CleanList(k, m0);
        tot := tot + n;
      }
      ReturnedAll(m0, starts, heap.mem[..], events[..]);
    }

    method CleanList(k: nat, ghost m0: Memory) returns (tot: nat)
      requires k < MAX_FAST_LISTS && Tiled(heap.mem[..], heap.starts)
      requires EventsOk(heap.mem[..], heap.starts, events[..]) && Returned(m0, heap.starts, heap.mem[..])
      modifies heap.mem, events
      ensures Tiled(heap.mem[..], heap.starts) && EventsOk(heap.mem[..], heap.starts, events[..])
                && Returned(m0, heap.starts, heap.mem[..])
      ensures events[k] == [] && forall j | 0 <= j < MAX_FAST_LISTS && j != k :: events[j] == old(events[j])
      ensures tot + |CachedCells(heap.mem[..], heap.starts)| == |CachedCells(old(heap.mem[..]), heap.starts)|
    {
      ghost var starts, ev := heap.starts, events[..];
      var list := events[k];
      tot := 0;
      assert ev[k := list[0..]] == ev;
      for i := 0 to |list|
        invariant heap.starts == starts && Tiled(heap.mem[..], starts) && events[..] == ev
        invariant EventsOk(heap.mem[..], starts, ev[k := list[i..]])
        invariant Returned(m0, starts, heap.mem[..])
        invariant tot + |CachedCells(heap.mem[..], starts)| == |CachedCells(old(heap.mem[..]), starts)|
      {
        ghost var m, left := heap.mem[..], ev[k := list[i..]];
        var ptr := list[i];
        assert Entry(left, k, 0, ptr) && EntryOk(m, starts, k, ptr);
        ReturnEntry(m0, m, starts, left, k, ptr);
        assert RemoveAt(list[i..], 0) == list[i + 1..];
        assert Removed(left, k, 0) == ev[k := list[i + 1..]];
        heap.mem[ptr] := Cell(FreeBlock, FREE_FLAGS, heap.mem[ptr].size, Null);
        tot := tot + heap.mem[ptr].size;
      }
      events[k] := [];
      SameLists(ev[k := list[|list|..]], events[..], k);
    }

    /** A block of the size asked for: from the cache if a cached block serves the request, otherwise
        from the heap. None exactly if no cached block serves and no free block is large enough. */
    method ExtractNode(kind: Kind, zero: bool, blocks: nat) returns (res: Option<nat>)
      requires Valid() && 1 <= blocks && !kind.FreeBlock? && !kind.CachedBlock?
      modifies heap, heap.mem, events
      ensures Valid()
      ensures Answers(old(heap.mem[..]), old(heap.starts), old(events[..]), heap.mem[..], heap.starts, events[..], res,
                blocks, kind)
      ensures Delivers(old(heap.mem[..]), old(heap.starts), heap.mem[..], heap.starts, res, blocks, kind)
      ensures res.Some? && zero ==> DataIsZero(heap.mem[..], res.value)
    {
      if blocks < MAX_FAST_LISTS {
        res := ExtractNodeFast(kind, zero, blocks);
      } else {
        res := ExtractNodeSlow(kind, zero, blocks);
      }
    }
  }

  ghost predicate SomeServes(m: Memory, starts: set<nat>, blocks: nat) {
    exists p: nat :: Serves(m, starts, p, blocks)
  }

  /** What comes to the back of list j when block p of this size is queued: lists 1 to 39 are for the sizes
      1 to 39, list 0 for the others. */
  ghost function Queued(j: nat, size: nat, p: nat): seq<nat> {
    if j == (if size < 40 then size else 0) then [p] else []
  }

  /** Entry i of list k is out, and the cells behind the first n of its block, if any are left, are queued. */
  ghost predicate Requeued(m: Memory, ev: seq<seq<nat>>, ev': seq<seq<nat>>, k: nat, i: nat, n: nat) {
    && |ev'| == |ev| && k < |ev| && i < |ev[k]| && ev[k][i] < |m|
    && var p := ev[k][i];
    forall j: nat | j < |ev| ::
      ev'[j] == (if j == k then ev[j][..i] + ev[j][i + 1..] else ev[j])
                + if m[p].size > n then Queued(j, m[p].size - n, p + n) else []
  }

  lemma {:induction false} TakenIsRequeued(m: Memory, starts: set<nat>, ev: seq<seq<nat>>, m': Memory,
      starts': set<nat>, ev': seq<seq<nat>>, k: nat, i: nat, n: nat, kind: Kind)
    requires TakenOut(m, starts, ev, m', starts', ev', k, i, n, kind)
    ensures Requeued(m, ev, ev', k, i, n)
  {
    var p := ev[k][i];
    forall j: nat | j < |ev|
      ensures ev'[j] == (if j == k then ev[j][..i] + ev[j][i + 1..] else ev[j])
                        + if m[p].size > n then Queued(j, m[p].size - n, p + n) else []
    {
      assert Removed(ev, k, i)[j] == if j == k then ev[j][..i] + ev[j][i + 1..] else ev[j];
      assert Removed(ev, k, i)[j] + [] == Removed(ev, k, i)[j];
    }
  }

  /** The answer to a request. A cached block that serves it is handed out: of the small ones the one
      that came first, of the large ones the best fitting one, in either case cut to size. If no
      cached block serves, the lists stay as they are and the heap is asked. */
  ghost predicate Answers(m: Memory, starts: set<nat>, ev: seq<seq<nat>>, m': Memory, starts': set<nat>,
      ev': seq<seq<nat>>, res: Option<nat>, blocks: nat, kind: Kind)
  {
    && |ev| == 40
    && (SomeServes(m, starts, blocks) ==>
          && res.Some? && Serves(m, starts, res.value, blocks)
          && (blocks < 40 ==>
                && ev[blocks] != [] && res.value == ev[blocks][0]
                && TakenOut(m, starts, ev, m', starts', ev', blocks, 0, blocks, kind)
                && Requeued(m, ev, ev', blocks, 0, blocks))
          && (40 <= blocks ==> exists i: nat ::
                && BestFitting(m, ev[0], blocks, i) && res.value == ev[0][i]
                && TakenOut(m, starts, ev, m', starts', ev', 0, i, blocks, kind)
                && Requeued(m, ev, ev', 0, i, blocks)))
    && (!SomeServes(m, starts, blocks) ==>
          ev' == ev && FromHeap(m, starts, m', starts', res, blocks, kind))
  }

  /** A block given out is live, of the size and type asked for, alive and of the event heap, and its
      cells come out of the cached and the free ones. None is given exactly if no cached block serves
      and no free block is large enough. */
  ghost predicate Delivers(m: Memory, starts: set<nat>, m': Memory, starts': set<nat>, res: Option<nat>, blocks: nat,
      kind: Kind)
  {
    && (res.None? <==>
          !SomeServes(m, starts, blocks) && forall p: nat | IsFreeStart(m, starts, p) :: m[p].size < blocks)
    && (res.Some? ==>
          && Live(m', starts', res.value) && !m'[res.value].kind.CachedBlock?
          && m'[res.value].size == blocks && m'[res.value].kind == kind
          && m'[res.value].flags == Flags(true, true, false))
    && |CachedCells(m', starts')| + |FreeCells(m', starts')| + (if res.Some? then blocks else 0)
         == |CachedCells(m, starts)| + |FreeCells(m, starts)|
  }

  lemma {:induction false} SmallFromCache(m: Memory, starts: set<nat>, ev: seq<seq<nat>>, m': Memory, starts': set<nat>,
      ev': seq<seq<nat>>, blocks: nat, kind: Kind)
    requires Tiled(m, starts) && EventsOk(m, starts, ev) && 0 < blocks < 40 && ev[blocks] != [] && !kind.CachedBlock?
    requires TakenOut(m, starts, ev, m', starts', ev', blocks, 0, blocks, kind)
    ensures Answers(m, starts, ev, m', starts', ev', Some(ev[blocks][0]), blocks, kind)
    ensures Delivers(m, starts, m', starts', Some(ev[blocks][0]), blocks, kind)
  {
    SmallServes(m, starts, ev, blocks);
    assert ev[blocks][0] in ev[blocks];
    Extracted(m, starts, ev, m', starts', ev', blocks, 0, blocks, kind);
    TakenIsRequeued(m, starts, ev, m', starts', ev', blocks, 0, blocks, kind);
  }

  /** What asking for a large block does: the best fitting one is handed out; if none fits, the lists
      stay as they are and the heap is asked. */
  ghost predicate SlowAnswers(m: Memory, starts: set<nat>, ev: seq<seq<nat>>, m': Memory, starts': set<nat>,
      ev': seq<seq<nat>>, res: Option<nat>, blocks: nat, kind: Kind)
    requires |ev| > 0
  {
    || (exists i: nat ::
          && BestFitting(m, ev[0], blocks, i) && res == Some(ev[0][i])
          && TakenOut(m, starts, ev, m', starts', ev', 0, i, blocks, kind))
    || (&& (forall j | 0 <= j < |ev[0]| :: !Fits(m, ev[0][j], blocks)) && ev' == ev
        && FromHeap(m, starts, m', starts', res, blocks, kind) && CachedCells(m', starts') == CachedCells(m, starts))
  }

  lemma {:induction false} LargeFromHeap(m: Memory, starts: set<nat>, ev: seq<seq<nat>>, m': Memory, starts': set<nat>,
      ev': seq<seq<nat>>, res: Option<nat>, blocks: nat, kind: Kind)
    requires Tiled(m, starts) && EventsOk(m, starts, ev) && ev' == ev && !kind.CachedBlock?
    requires FromHeap(m, starts, m', starts', res, blocks, kind) && CachedCells(m', starts') == CachedCells(m, starts)
    requires forall j | 0 <= j < |ev[0]| :: !Fits(m, ev[0][j], blocks)
    ensures SlowAnswers(m, starts, ev, m', starts', ev', res, blocks, kind)
    ensures 40 <= blocks ==>
              Answers(m, starts, ev, m', starts', ev', res, blocks, kind)
              && Delivers(m, starts, m', starts', res, blocks, kind)
  {
    if 40 <= blocks {
      LargeServes(m, starts, ev, blocks);
      FromHeapAnswers(m, starts, ev, m', starts', ev', res, blocks, kind);
    }
  }

  lemma {:induction false} LargeFromCache(m: Memory, starts: set<nat>, ev: seq<seq<nat>>, m': Memory, starts': set<nat>,
      ev': seq<seq<nat>>, i: nat, blocks: nat, kind: Kind)
    requires Tiled(m, starts) && EventsOk(m, starts, ev) && !kind.CachedBlock?
    requires BestFitting(m, ev[0], blocks, i) && TakenOut(m, starts, ev, m', starts', ev', 0, i, blocks, kind)
    ensures SlowAnswers(m, starts, ev, m', starts', ev', Some(ev[0][i]), blocks, kind)
    ensures 40 <= blocks ==>
              Answers(m, starts, ev, m', starts', ev', Some(ev[0][i]), blocks, kind)
              && Delivers(m, starts, m', starts', Some(ev[0][i]), blocks, kind)
  {
    if 40 <= blocks {
      LargeServes(m, starts, ev, blocks);
      assert ev[0][i] in ev[0];
      Extracted(m, starts, ev, m', starts', ev', 0, i, blocks, kind);
      TakenIsRequeued(m, starts, ev, m', starts', ev', 0, i, blocks, kind);
    }
  }

  lemma {:induction false} FromHeapAnswers(m: Memory, starts: set<nat>, ev: seq<seq<nat>>, m': Memory,
      starts': set<nat>, ev': seq<seq<nat>>, res: Option<nat>, blocks: nat, kind: Kind)
    requires Tiled(m, starts) && EventsOk(m, starts, ev) && !SomeServes(m, starts, blocks) && ev' == ev
    requires FromHeap(m, starts, m', starts', res, blocks, kind) && !kind.CachedBlock?
    requires CachedCells(m', starts') == CachedCells(m, starts)
    ensures Answers(m, starts, ev, m', starts', ev', res, blocks, kind)
    ensures Delivers(m, starts, m', starts', res, blocks, kind)
  {
    FromHeapConserves(m, starts, m', starts', res, blocks, kind);
    FromHeapNone(m, starts, m', starts', res, blocks, kind);
  }

  lemma {:induction false} Extracted(m: Memory, starts: set<nat>, ev: seq<seq<nat>>, m': Memory, starts': set<nat>,
      ev': seq<seq<nat>>, k: nat, i: nat, n: nat, kind: Kind)
    requires Tiled(m, starts) && EventsOk(m, starts, ev) && TakenOut(m, starts, ev, m', starts', ev', k, i, n, kind)
    requires !kind.CachedBlock?
    ensures |CachedCells(m', starts')| + n == |CachedCells(m, starts)|
              && |FreeCells(m', starts')| == |FreeCells(m, starts)|
    ensures Live(m', starts', ev[k][i]) && !Cached(m', starts', ev[k][i])
  {
    TakenOutConserves(m, starts, ev, m', starts', ev', k, i, n, kind);
    TakenIsLive(m, starts, ev, m', starts', ev', k, i, n, kind);
  }

  lemma SameLists(a: seq<seq<nat>>, b: seq<seq<nat>>, k: nat)
    requires |a| == |b| && k < |a| && a[k] == b[k] && forall j | 0 <= j < |a| && j != k :: a[j] == b[j]
    ensures a == b
  {
  }

  /** Some cached blocks of m0 have become free blocks; nothing else has changed. */
  ghost predicate Returned(m0: Memory, starts: set<nat>, m: Memory) {
    && |m| == |m0|
    && forall x: nat | x < |m| ::
        m[x] == m0[x] || (Cached(m0, starts, x) && m[x] == Cell(FreeBlock, FREE_FLAGS, m0[x].size, Null))
  }

  lemma {:induction false} ReturnTiles(m: Memory, starts: set<nat>, p: nat)
    requires Tiled(m, starts) && p in starts && p < |m|
    ensures Tiled(m[p := Cell(FreeBlock, FREE_FLAGS, m[p].size, Null)], starts)
  {
    var m' := m[p := Cell(FreeBlock, FREE_FLAGS, m[p].size, Null)];
    forall q | q in starts ensures BlockOk(m', starts, q) {
      assert BlockOk(m, starts, q);
    }
  }

  lemma {:induction false} ReturnEntry(m0: Memory, m: Memory, starts: set<nat>, ev: seq<seq<nat>>, k: nat, p: nat)
    requires Tiled(m, starts) && EventsOk(m, starts, ev) && Returned(m0, starts, m) && Entry(ev, k, 0, p)
               && EntryOk(m, starts, k, p)
    ensures
      var m' := m[p := Cell(FreeBlock, FREE_FLAGS, m[p].size, Null)];
      && Tiled(m', starts) && EventsOk(m', starts, Removed(ev, k, 0)) && Returned(m0, starts, m')
      && |CachedCells(m', starts)| + m[p].size == |CachedCells(m, starts)|
  {
    var c := Cell(FreeBlock, FREE_FLAGS, m[p].size, Null);
    var m' := m[p := c];
    ReturnTiles(m, starts, p);
    RemoveOk(m, starts, ev, k, 0, p, c);
    RelabelCells(m, starts, p, c);
    FirstCells(m, starts, p, m[p].size);
    SizeAfter(CachedCells(m, starts), p, m[p].size, CachedCells(m', starts));
  }

  lemma {:induction false} ReturnedAll(m0: Memory, starts: set<nat>, m: Memory, ev: seq<seq<nat>>)
    requires Returned(m0, starts, m) && EventsOk(m, starts, ev) && forall k | 0 <= k < MAX_FAST_LISTS :: ev[k] == []
    ensures CachedCells(m, starts) == {}
    ensures forall x: nat | x < |m| ::
              m[x] == if Cached(m0, starts, x) then Cell(FreeBlock, FREE_FLAGS, m0[x].size, Null) else m0[x]
  {
    forall p: nat ensures !Cached(m, starts, p) {
    }
    forall x: nat | x < |m|
      ensures m[x] == if Cached(m0, starts, x) then Cell(FreeBlock, FREE_FLAGS, m0[x].size, Null) else m0[x]
    {
      assert Cached(m0, starts, x) && m[x] == m0[x] ==> Cached(m, starts, x);
    }
  }

  lemma {:induction false} TakenIsLive(m: Memory, starts: set<nat>, ev: seq<seq<nat>>, m': Memory, starts': set<nat>,
      ev': seq<seq<nat>>, k: nat, i: nat, n: nat, kind: Kind)
    requires EventsOk(m, starts, ev) && TakenOut(m, starts, ev, m', starts', ev', k, i, n, kind) && !kind.CachedBlock?
    ensures Live(m', starts', ev[k][i]) && !Cached(m', starts', ev[k][i])
  {
    assert Entry(ev, k, i, ev[k][i]) && EntryOk(m, starts, k, ev[k][i]);
  }

  ghost predicate DataIsZero(m: Memory, p: nat) {
    p < |m| && m[p].target == Null && forall x | p < x < p + m[p].size && x < |m| :: m[x] == ZERO_CELL
  }

  /** What an allocation at the event end of the heap does: it takes the last `blocks` cells of the
      highest free block with room, and fails only if none has room. */
  ghost predicate FromHeap(m: Memory, starts: set<nat>, m': Memory, starts': set<nat>, res: Option<nat>, blocks: nat,
      kind: Kind)
  {
    match res
    case None => m' == m && starts' == starts && forall p: nat | IsFreeStart(m, starts, p) :: m[p].size < blocks
    case Some(a) =>
      && a < |m'| && a in starts' && m'[a].kind == kind && m'[a].flags == EVENT_FLAGS
      && exists q: nat ::
          Chosen(m, starts, q, true, blocks) && a == End(m, q) - blocks
          && Allocates(m, starts, m', starts', q, a, blocks)
  }

  /** The heap gives nothing exactly if no free block is large enough. */
  lemma {:induction false} FromHeapNone(m: Memory, starts: set<nat>, m': Memory, starts': set<nat>, res: Option<nat>,
      blocks: nat, kind: Kind)
    requires FromHeap(m, starts, m', starts', res, blocks, kind)
    ensures res.None? <==> forall p: nat | IsFreeStart(m, starts, p) :: m[p].size < blocks
  {
    if res.Some? {
      var q: nat :| Chosen(m, starts, q, true, blocks);
      assert IsFreeStart(m, starts, q) && blocks <= m[q].size;
    }
  }

  lemma {:induction false} FromHeapConserves(m: Memory, starts: set<nat>, m': Memory, starts': set<nat>,
      res: Option<nat>, blocks: nat, kind: Kind)
    requires Tiled(m, starts) && FromHeap(m, starts, m', starts', res, blocks, kind)
    ensures |FreeCells(m, starts)| == |FreeCells(m', starts')| + if res.Some? then blocks else 0
    ensures res.Some? ==> Live(m', starts', res.value) && m'[res.value].size == blocks
  {
    if res.Some? {
      var a := res.value;
      var q: nat :|
          Chosen(m, starts, q, true, blocks) && a == End(m, q) - blocks
          && Allocates(m, starts, m', starts', q, a, blocks);
      assert BlockOk(m, starts, q);
      CellsOfFree(m, starts, q, a, blocks);
      SizeAfter(FreeCells(m, starts), a, blocks, FreeCells(m', starts'));
    }
  }

  lemma {:induction false} CellsOfFree(m: Memory, starts: set<nat>, q: nat, a: nat, n: nat)
    requires IsFreeStart(m, starts, q) && q <= a && a + n <= End(m, q) <= |m|
    ensures Interval(a, a + n) <= FreeCells(m, starts)
  {
    var taken := Interval(a, a + n);
    forall x | x in taken ensures x in FreeCells(m, starts) {
      assert Inside(m, q, x);
    }
  }

  lemma SizeAfter(before: set<nat>, p: nat, n: nat, after: set<nat>)
    requires Interval(p, p + n) <= before && after == before - Interval(p, p + n)
    ensures |after| + n == |before|
  {
    IntervalSize(p, p + n);
    assert before == after + Interval(p, p + n);
  }

  lemma {:induction false} AllocatedEvents(m: Memory, starts: set<nat>, ev: seq<seq<nat>>, m': Memory,
      starts': set<nat>, a: nat, blocks: nat, kind: Kind)
    requires Tiled(m, starts) && EventsOk(m, starts, ev) && exists q: nat ::
               Allocates(m, starts, m', starts', q, a, blocks)
    requires m'[a].kind == kind && !kind.CachedBlock?
    ensures EventsOk(m', starts', ev) && CachedCells(m', starts') == CachedCells(m, starts)
  {
    forall p: nat | Live(m, starts, p) ensures m'[p] == m[p] {
      assert BlockOk(m, starts, p) && SameBlock(m, m', p);
    }
    forall p: nat ensures Cached(m', starts', p) <==> Cached(m, starts, p) {
    }
    SameCachedEvents(m, starts, ev, m', starts');
  }

  lemma {:induction false} TakenOutZeroed(m: Memory, starts: set<nat>, ev: seq<seq<nat>>, m1: Memory, starts': set<nat>,
      ev': seq<seq<nat>>, k: nat, i: nat, n: nat, kind: Kind, m': Memory)
    requires Tiled(m, starts) && EventsOk(m, starts, ev) && TakenOut(m, starts, ev, m1, starts', ev', k, i, n, kind)
               && Tiled(m1, starts')
    requires ZeroedAt(m1, m', ev[k][i], n)
    requires CachedCells(m', starts') == CachedCells(m1, starts') && FreeCells(m', starts') == FreeCells(m1, starts')
    ensures TakenOut(m, starts, ev, m', starts', ev', k, i, n, kind) && DataIsZero(m', ev[k][i])
  {
    var p := ev[k][i];
    assert Entry(ev, k, i, p) && EntryOk(m, starts, k, p) && BlockOk(m, starts, p);
    assert p in starts' && BlockOk(m1, starts', p);
    forall q: nat ensures Live(m', starts', q) <==> Live(m1, starts', q) {
      assert q in starts' && q != p && q < |m| ==> m'[q] == m1[q];
    }
    forall q: nat | Live(m, starts, q) && q != p ensures SameBlock(m, m', q) {
      assert BlockOk(m, starts, q) && SameBlock(m, m1, q);
    }
  }

  /** The data of the block at p is zero; nothing else has changed. */
  ghost predicate ZeroedAt(m: Memory, m': Memory, p: nat, n: nat) {
    && |m'| == |m| && p < |m| && p + n <= |m|
    && m'[p] == m[p].(target := Null)
    && (forall x | p < x < p + n :: m'[x] == ZERO_CELL)
    && forall x | 0 <= x < |m| && !(p <= x < p + n) :: m'[x] == m[x]
  }

  lemma {:induction false} TakenTail(m: Memory, starts: set<nat>, ev: seq<seq<nat>>, m1: Memory, ev1: seq<seq<nat>>,
      m2: Memory, starts2: set<nat>, m3: Memory, ev3: seq<seq<nat>>, k: nat, i: nat, n: nat, kind: Kind)
    requires Tiled(m, starts) && EventsOk(m, starts, ev) && k < |ev| && i < |ev[k]| && ev[k][i] < |m|
               && 0 < n < m[ev[k][i]].size
    requires TakenOut(m, starts, ev, m1, starts, ev1, k, i, m[ev[k][i]].size, kind)
    requires ev[k][i] + n < |m| && m2 == CutAt(m1, ev[k][i], n)
    requires forall q: nat :: Live(m2, starts2, q) <==> Live(m1, starts, q) || q == ev[k][i] + n
    requires forall q: nat | Live(m1, starts, q) && q != ev[k][i] :: SameBlock(m1, m2, q)
    requires CachedCells(m2, starts2) == CachedCells(m1, starts) && FreeCells(m2, starts2) == FreeCells(m1, starts)
    requires m3 == m2[ev[k][i] + n := Cell(CachedBlock, EVENT_FLAGS, m2[ev[k][i] + n].size, m2[ev[k][i] + n].target)]
    requires ev3 == Appended(ev1, ListOf(m2[ev[k][i] + n].size), ev[k][i] + n)
    requires CachedCells(m3, starts2) == CachedCells(m2, starts2)
               + Interval(ev[k][i] + n, ev[k][i] + n + m3[ev[k][i] + n].size)
    requires FreeCells(m3, starts2) == FreeCells(m2, starts2)
    ensures TakenOut(m, starts, ev, m3, starts2, ev3, k, i, n, kind)
  {
    var p := ev[k][i];
    var size := m[p].size;
    assert Entry(ev, k, i, p) && EntryOk(m, starts, k, p) && BlockOk(m, starts, p);
    forall q: nat | Live(m, starts, q) && q != p ensures SameBlock(m, m3, q) {
      assert SameBlock(m, m1, q) && SameBlock(m1, m2, q);
      StillSame(m, starts, p, n, m2, m3, q);
    }
    forall q: nat ensures Live(m3, starts2, q) <==> Live(m, starts, q) || q == p + n {
      assert Live(m2, starts2, q) <==> Live(m1, starts, q) || q == p + n;
      assert Live(m1, starts, q) <==> Live(m, starts, q);
      assert q < |m| && q != p + n ==> m3[q] == m2[q];
    }
    TailCells(m, starts, p, n);
    assert CachedCells(m3, starts2) == CachedCells(m, starts) - Interval(p, p + n);
  }

  /** Relabelling a cell inside block p leaves every other block alone. */
  lemma {:induction false} StillSame(m: Memory, starts: set<nat>, p: nat, n: nat, m2: Memory, m3: Memory, q: nat)
    requires Tiled(m, starts) && p in starts && p < |m| && 0 < n < m[p].size && q in starts && q != p
    requires SameBlock(m, m2, q) && |m2| == |m3| && p + n < |m| && forall x | 0 <= x < |m2| && x != p + n ::
               m3[x] == m2[x]
    ensures SameBlock(m, m3, q)
  {
    assert BlockOk(m, starts, p) && BlockOk(m, starts, q);
  }

  lemma {:induction false} TailCells(m: Memory, starts: set<nat>, p: nat, n: nat)
    requires Tiled(m, starts) && Cached(m, starts, p) && n <= m[p].size
    ensures (CachedCells(m, starts) - Interval(p, p + m[p].size)) + Interval(p + n, p + m[p].size)
              == CachedCells(m, starts) - Interval(p, p + n)
  {
    assert BlockOk(m, starts, p);
    var tail := Interval(p + n, p + m[p].size);
    forall x | x in tail ensures x in CachedCells(m, starts) {
      CellIs(m, starts, x, p);
    }
  }
}
