/** The block allocator of one heap cluster: `CLR_RT_HeapCluster`. */
module HeapCluster {
  import opened HeapModel
  import opened Options

  ghost predicate Ascending(s: seq<nat>) {
    forall i, j | 0 <= i < j < |s| :: s[i] < s[j]
  }

  ghost predicate IsFreeStart(m: Memory, starts: set<nat>, p: nat) {
    p in starts && p < |m| && m[p].IsFree()
  }

  ghost predicate FreeHeaderOk(m: Memory, starts: set<nat>, p: nat)
    requires p < |m|
  {
    && m[p].flags == FREE_FLAGS
    && (End(m, p) in starts ==> !IsFreeStart(m, starts, End(m, p)))
  }

  /** The free list holds exactly the free blocks, in address order. */
  ghost predicate ListsFree(m: Memory, starts: set<nat>, list: seq<nat>) {
    && Ascending(list)
    && (forall p | p in list :: IsFreeStart(m, starts, p))
    && (forall p: nat | IsFreeStart(m, starts, p) :: p in list)
  }

  /** The allocator's invariant: blocks tile the payload, the free list is exactly the free
      blocks in address order, and no two free blocks touch. */
  ghost predicate ClusterOk(m: Memory, starts: set<nat>, list: seq<nat>) {
    && |m| <= MAX_SIZE
    && Tiled(m, starts)
    && ListsFree(m, starts, list)
    && forall p: nat {:trigger FreeHeaderOk(m, starts, p)} | IsFreeStart(m, starts, p) :: FreeHeaderOk(m, starts, p)
  }

  // ---------------------------------------------------------------- allocation

  /** The first `length` cells of the free block at q become a block; the rest stays free. */
  function CarveLow(m: Memory, q: nat, kind: Kind, flags: Flags, length: nat): Memory
    requires q < |m| && 1 <= length <= m[q].size && End(m, q) <= |m|
  {
    var rest := m[q].size - length;
    var m1 := if rest != 0 then m[q + length := m[q + length].SetDataId(FreeBlock, FREE_FLAGS, rest)] else m;
    m1[q := m1[q].SetDataId(kind, flags, length)]
  }

  /** The last `length` cells of the free block at q become a block; the rest stays free. */
  function CarveHigh(m: Memory, q: nat, kind: Kind, flags: Flags, length: nat): Memory
    requires q < |m| && 1 <= length <= m[q].size && End(m, q) <= |m|
  {
    var rest := m[q].size - length;
    var m1 := if rest != 0 then m[q := m[q].SetDataId(FreeBlock, FREE_FLAGS, rest)] else m;
    m1[q + rest := m1[q + rest].SetDataId(kind, flags, length)]
  }

  function RemoveAt(s: seq<nat>, i: nat): seq<nat>
    requires i < |s|
  {
    s[..i] + s[i + 1..]
  }

  lemma MembersLeft(s: seq<nat>, i: nat)
    requires Ascending(s) && i < |s|
    ensures Ascending(RemoveAt(s, i)) && forall p :: p in RemoveAt(s, i) <==> p in s && p != s[i]
  {
    forall p ensures p in RemoveAt(s, i) <==> p in s && p != s[i] {
      if p in s && p != s[i] {
        var k :| 0 <= k < |s| && s[k] == p;
        assert RemoveAt(s, i)[if k < i then k else k - 1] == p;
      }
    }
  }

  function InsertAt(s: seq<nat>, i: nat, p: nat): seq<nat>
    requires i <= |s|
  {
    s[..i] + [p] + s[i..]
  }

  lemma MembersAdded(s: seq<nat>, i: nat, p: nat)
    requires Ascending(s) && i <= |s| && (forall j | 0 <= j < i :: s[j] < p) && forall j | i <= j < |s| :: p < s[j]
    ensures Ascending(InsertAt(s, i, p)) && forall q :: q in InsertAt(s, i, p) <==> q in s || q == p
    ensures i < |s| ==> RemoveAt(InsertAt(s, i, p), i + 1) == s[..i] + [p] + s[i + 1..]
  {
    var t := InsertAt(s, i, p);
    assert t[i] == p;
    forall q ensures q in t <==> q in s || q == p {
      if q in s {
        var k :| 0 <= k < |s| && s[k] == q;
        assert t[if k < i then k else k + 1] == q;
      }
    }
  }

  lemma RemoveAtLists(m: Memory, starts: set<nat>, list: seq<nat>, i: nat, m': Memory)
    requires ListsFree(m, starts, list) && i < |list| && |m'| == |m|
    requires forall p | p in starts && p < |m| :: m'[p].IsFree() == (m[p].IsFree() && p != list[i])
    ensures ListsFree(m', starts, RemoveAt(list, i))
  {
    MembersLeft(list, i);
    forall p | p in RemoveAt(list, i) ensures IsFreeStart(m', starts, p) {
      assert IsFreeStart(m, starts, p);
    }
    forall p: nat | IsFreeStart(m', starts, p) ensures p in RemoveAt(list, i) {
      assert IsFreeStart(m, starts, p);
    }
  }

  /** Moving the i-th entry from the block at list[i] to the block that starts at y. */
  lemma ReplaceLists(m: Memory, starts: set<nat>, list: seq<nat>, i: nat, m': Memory, y: nat)
    requires ListsFree(m, starts, list) && i < |list| && |m'| == |m| && y < |m| && y !in starts
    requires list[i] < y && forall p | p in starts :: p <= list[i] || y < p
    requires forall p | p in starts && p < |m| :: m'[p].IsFree() == (m[p].IsFree() && p != list[i])
    requires m'[y].IsFree()
    ensures ListsFree(m', starts + {y}, list[i := y])
  {
    var list' := list[i := y];
    var starts' := starts + {y};
    forall j | 0 <= j < |list| ensures list[j] in starts {
      assert IsFreeStart(m, starts, list[j]);
    }
    forall p | p in list' ensures IsFreeStart(m', starts', p) {
      var k :| 0 <= k < |list'| && list'[k] == p;
      if k != i { assert IsFreeStart(m, starts, list[k]); }
    }
    forall p: nat | IsFreeStart(m', starts', p) ensures p in list' {
      if p == y {
        assert list'[i] == y;
      } else {
        assert IsFreeStart(m, starts, p);
        var k :| 0 <= k < |list| && list[k] == p;
        assert list'[k] == p;
      }
    }
  }

  lemma {:induction false} SplitTiles(m: Memory, starts: set<nat>, q: nat, a: nat, m': Memory)
    requires Tiled(m, starts) && q in starts && q < |m| && 0 < a < m[q].size
    requires |m'| == |m| && End(m, q) <= |m|
    requires m'[q].size == a && m'[q + a].size == m[q].size - a
    requires forall x | 0 <= x < |m| && x != q && x != q + a :: m'[x] == m[x]
    ensures q + a !in starts
    ensures Tiled(m', starts + {q + a})
  {
    assert BlockOk(m, starts, q);
    var starts' := starts + {q + a};
    forall p | p in starts' ensures BlockOk(m', starts', p) {
      if p in starts {
        assert BlockOk(m, starts, p);
      }
    }
  }

  lemma KeepLists(m: Memory, starts: set<nat>, list: seq<nat>, m': Memory, y: nat)
    requires ListsFree(m, starts, list) && |m'| == |m| && y < |m| && y !in starts
    requires forall p | p in starts && p < |m| :: m'[p].IsFree() == m[p].IsFree()
    requires !m'[y].IsFree()
    ensures ListsFree(m', starts + {y}, list)
  {
    var starts' := starts + {y};
    forall p | p in list ensures IsFreeStart(m', starts', p) {
      assert IsFreeStart(m, starts, p);
    }
    forall p: nat | IsFreeStart(m', starts', p) ensures p in list {
      assert IsFreeStart(m, starts, p);
    }
  }

  /** Filling part of the free block at q leaves the other free headers as they should be. */
  lemma CarveKeepsHeaders(m: Memory, starts: set<nat>, q: nat, m': Memory, starts': set<nat>)
    requires Tiled(m, starts) && Tiled(m', starts') && |m'| == |m|
    requires forall p: nat {:trigger FreeHeaderOk(m, starts, p)} | IsFreeStart(m, starts, p) ::
               FreeHeaderOk(m, starts, p)
    requires q in starts && q < |m| && starts <= starts'
    requires forall x | x in starts' - starts :: x < |m| && Inside(m, q, x)
    requires forall x | 0 <= x < |m| && !Inside(m, q, x) :: m'[x] == m[x]
    requires forall x {:trigger FreeHeaderOk(m', starts', x)} | IsFreeStart(m', starts', x) && Inside(m, q, x) ::
               FreeHeaderOk(m', starts', x)
    requires m[q].IsFree()
    ensures forall p: nat {:trigger FreeHeaderOk(m', starts', p)} | IsFreeStart(m', starts', p) ::
              FreeHeaderOk(m', starts', p)
  {
    forall p: nat | IsFreeStart(m', starts', p) ensures FreeHeaderOk(m', starts', p) {
      assert BlockOk(m, starts, q);
      if !Inside(m, q, p) {
        assert p in starts;
        assert IsFreeStart(m, starts, p);
        assert BlockOk(m, starts, p) && FreeHeaderOk(m, starts, p);
        assert m'[p] == m[p];
        var e := End(m, p);
        if e in starts' { assert IsFreeStart(m, starts, q); }
      }
    }
  }

  lemma {:induction false} CarveLowOk(m: Memory, starts: set<nat>, list: seq<nat>, i: nat, kind: Kind, flags: Flags,
      length: nat)
    requires ClusterOk(m, starts, list) && i < |list| && !kind.FreeBlock?
    requires list[i] < |m| && 1 <= length <= m[list[i]].size && End(m, list[i]) <= |m|
    ensures
      var q := list[i];
      var m' := CarveLow(m, q, kind, flags, length);
      if length < m[q].size then ClusterOk(m', starts + {q + length}, list[i := q + length])
      else ClusterOk(m', starts, RemoveAt(list, i))
  {
    var q := list[i];
    var m' := CarveLow(m, q, kind, flags, length);
    assert q in list;
    assert IsFreeStart(m, starts, q);
    assert BlockOk(m, starts, q);
    assert FreeHeaderOk(m, starts, q);
    if length < m[q].size {
      SplitTiles(m, starts, q, length, m');
      ReplaceLists(m, starts, list, i, m', q + length);
      CarveKeepsHeaders(m, starts, q, m', starts + {q + length});
    } else {
      forall p | p in starts ensures BlockOk(m', starts, p) {
        assert BlockOk(m, starts, p);
      }
      RemoveAtLists(m, starts, list, i, m');
      CarveKeepsHeaders(m, starts, q, m', starts);
    }
  }

  lemma {:induction false} CarveHighOk(m: Memory, starts: set<nat>, list: seq<nat>, i: nat, kind: Kind, flags: Flags,
      length: nat)
    requires ClusterOk(m, starts, list) && i < |list| && !kind.FreeBlock?
    requires list[i] < |m| && 1 <= length <= m[list[i]].size && End(m, list[i]) <= |m|
    ensures
      var q := list[i];
      var m' := CarveHigh(m, q, kind, flags, length);
      if length < m[q].size then ClusterOk(m', starts + {End(m, q) - length}, list)
      else ClusterOk(m', starts, RemoveAt(list, i))
  {
    var q := list[i];
    var m' := CarveHigh(m, q, kind, flags, length);
    assert q in list;
    assert IsFreeStart(m, starts, q);
    assert BlockOk(m, starts, q);
    assert FreeHeaderOk(m, starts, q);
    if length < m[q].size {
      var y := End(m, q) - length;
      SplitTiles(m, starts, q, m[q].size - length, m');
      KeepLists(m, starts, list, m', y);
      CarveKeepsHeaders(m, starts, q, m', starts + {y});
    } else {
      forall p | p in starts ensures BlockOk(m', starts, p) {
        assert BlockOk(m, starts, p);
      }
      RemoveAtLists(m, starts, list, i, m');
      CarveKeepsHeaders(m, starts, q, m', starts);
    }
  }

  /** What an allocation of `length` cells out of the free block q does to the heap: the new
      block a lies inside q, every live block is untouched, nothing else becomes live, and
      exactly the cells of a stop being free. */
  ghost predicate Allocates(m: Memory, starts: set<nat>, m': Memory, starts': set<nat>, q: nat, a: nat, length: nat) {
    && |m'| == |m| && q < |m| && a < |m|
    && IsFreeStart(m, starts, q)
    && q <= a && a + length <= End(m, q)
    && m'[a].size == length
    && (forall p: nat :: Live(m', starts', p) <==> Live(m, starts, p) || p == a)
    && (forall p: nat | Live(m, starts, p) :: SameBlock(m, m', p))
    && FreeCells(m', starts') == FreeCells(m, starts) - Interval(a, a + length)
  }

  lemma {:induction false} AllocatesFrom(m: Memory, starts: set<nat>, m': Memory, starts': set<nat>, q: nat, a: nat,
      length: nat)
    requires Tiled(m, starts) && Tiled(m', starts') && |m'| == |m|
    requires IsFreeStart(m, starts, q) && 1 <= length
    requires q <= a && a + length <= End(m, q)
    requires starts <= starts' && a in starts' && a < |m| && !m'[a].IsFree() && m'[a].size == length
    requires forall x | x in starts' - starts :: x < |m| && Inside(m, q, x)
    requires forall x | 0 <= x < |m| && !Inside(m, q, x) :: m'[x] == m[x]
    requires forall x | x in starts' && x < |m| && Inside(m, q, x) && x != a :: m'[x].IsFree()
    ensures Allocates(m, starts, m', starts', q, a, length)
  {
    assert BlockOk(m, starts, q);
    forall p: nat | Live(m, starts, p) ensures SameBlock(m, m', p) && p in starts' && !Inside(m, q, p) {
      assert BlockOk(m, starts, p);
    }
    OneMoreLive(m, starts, m', starts', a);
  }

  lemma {:induction false} AllocatesZeroed(m: Memory, starts: set<nat>, m': Memory, starts': set<nat>, q: nat, a: nat,
      length: nat, m'': Memory)
    requires Tiled(m, starts) && Tiled(m', starts') && Tiled(m'', starts') && |m''| == |m'|
    requires Allocates(m, starts, m', starts', q, a, length) && 1 <= length
    requires a + length <= |m'|
    requires m''[a] == m'[a].(target := Null)
    requires forall x | 0 <= x < |m'| && !(a <= x < a + length) :: m''[x] == m'[x]
    ensures Allocates(m, starts, m'', starts', q, a, length)
  {
    assert Live(m', starts', a);
    forall p: nat | p in starts' && p < |m'| && p != a ensures m''[p] == m'[p] && !(a < p < a + length) {
      assert BlockOk(m', starts', a);
    }
    forall p: nat | Live(m, starts, p) ensures SameBlock(m, m'', p) {
      assert SameBlock(m, m', p);
      assert Live(m', starts', p);
      assert BlockOk(m, starts, p);
      assert m'[p] == m[p];
      assert BlockOk(m, starts, q);
      assert BlockOk(m', starts', p);
      assert BlockOk(m', starts', a);
      forall x | p <= x < End(m, p) ensures m''[x] == m[x] {
      }
    }
    SameLiveSameFree(m', starts', m'', starts');
  }

  // ---------------------------------------------------------------- giving cells back

  /** The allocator's invariant, except that the free block at `node` may touch its neighbours. */
  ghost predicate AlmostOk(m: Memory, starts: set<nat>, list: seq<nat>, node: nat) {
    && |m| <= MAX_SIZE
    && Tiled(m, starts)
    && ListsFree(m, starts, list)
    && IsFreeStart(m, starts, node)
    && (forall p: nat | IsFreeStart(m, starts, p) :: m[p].flags == FREE_FLAGS)
    && forall p: nat {:trigger FreeHeaderOk(m, starts, p)} | IsFreeStart(m, starts, p) && p != node
        && End(m, p) != node :: FreeHeaderOk(m, starts, p)
  }

  /** The cells of the block at `node` are about to be given back: the allocator's invariant
      holds once its header is a free one, except that it is not yet in the list and may touch
      other free blocks. */
  ghost predicate Returning(m: Memory, starts: set<nat>, list: seq<nat>, node: nat) {
    && AlmostTiled(m, starts, node)
    && Ascending(list)
    && (forall p | p in list :: IsFreeStart(m, starts, p) && p != node)
    && (forall p: nat | IsFreeStart(m, starts, p) && p != node :: p in list)
    && (forall p: nat | IsFreeStart(m, starts, p) :: m[p].flags == FREE_FLAGS)
    && forall p: nat {:trigger FreeHeaderOk(m, starts, p)} | IsFreeStart(m, starts, p) && p != node
        && End(m, p) != node :: FreeHeaderOk(m, starts, p)
  }

  ghost predicate AlmostTiled(m: Memory, starts: set<nat>, node: nat) {
    && |m| <= MAX_SIZE
    && Tiled(m, starts)
    && IsFreeStart(m, starts, node)
  }

  lemma {:induction false} JoinTiles(m: Memory, starts: set<nat>, p: nat, m': Memory)
    requires Tiled(m, starts) && p in starts && p < |m| && End(m, p) in starts
    requires |m'| == |m| && m'[p].size == m[p].size + (if End(m, p) < |m| then m[End(m, p)].size else 0)
    requires forall x | 0 <= x < |m| && x != p :: m'[x].size == m[x].size
    ensures Tiled(m', starts - {End(m, p)})
  {
    var q := End(m, p);
    var starts' := starts - {q};
    assert BlockOk(m, starts, p) && BlockOk(m, starts, q);
    forall x | x in starts' ensures BlockOk(m', starts', x) {
      assert BlockOk(m, starts, x);
    }
    if |m| > 0 { assert q > 0; }
  }

  lemma InsertLists(m: Memory, starts: set<nat>, list: seq<nat>, node: nat, i: nat)
    requires Returning(m, starts, list, node) && i <= |list|
    requires forall j | 0 <= j < i :: list[j] < node
    requires forall j | i <= j < |list| :: node < list[j]
    ensures AlmostOk(m, starts, list[..i] + [node] + list[i..], node)
  {
    MembersAdded(list, i, node);
    assert list[..i] + [node] + list[i..] == InsertAt(list, i, node);
  }

  /** The free block at list[i] swallows the free block that follows it. */
  function Join(m: Memory, p: nat): Memory
    requires p < |m| && End(m, p) < |m|
  {
    m[p := m[p].(size := m[p].size + m[End(m, p)].size)]
  }

  lemma {:induction false} JoinLists(m: Memory, starts: set<nat>, list: seq<nat>, i: nat)
    requires ListsFree(m, starts, list) && i + 1 < |list| && list[i] < |m|
    requires End(m, list[i]) == list[i + 1] < |m|
    ensures ListsFree(Join(m, list[i]), starts - {list[i + 1]}, RemoveAt(list, i + 1))
  {
    var m' := Join(m, list[i]);
    var starts' := starts - {list[i + 1]};
    MembersLeft(list, i + 1);
    forall p | p in RemoveAt(list, i + 1) ensures IsFreeStart(m', starts', p) {
      assert IsFreeStart(m, starts, p);
    }
    forall p: nat | IsFreeStart(m', starts', p) ensures p in RemoveAt(list, i + 1) {
      assert IsFreeStart(m, starts, p);
    }
  }

  lemma {:induction false} JoinNext(m: Memory, starts: set<nat>, list: seq<nat>, i: nat)
    requires i + 1 < |list| && AlmostOk(m, starts, list, list[i])
    requires list[i] < |m| && End(m, list[i]) == list[i + 1] < |m|
    ensures
      var m' := Join(m, list[i]);
      var starts' := starts - {list[i + 1]};
      AlmostOk(m', starts', RemoveAt(list, i + 1), list[i]) && !IsFreeStart(m', starts', End(m', list[i]))
  {
    var p := list[i];
    var q := list[i + 1];
    var m' := Join(m, p);
    var starts' := starts - {q};
    assert q in list && p in list;
    assert IsFreeStart(m, starts, q) && IsFreeStart(m, starts, p);
    assert BlockOk(m, starts, p) && BlockOk(m, starts, q);
    JoinTiles(m, starts, p, m');
    JoinLists(m, starts, list, i);
    assert FreeHeaderOk(m, starts, q);
    forall x | IsFreeStart(m', starts', x) && x != p && End(m', x) != p ensures FreeHeaderOk(m', starts', x) {
      assert IsFreeStart(m, starts, x);
      assert FreeHeaderOk(m, starts, x);
    }
  }

  lemma {:induction false} JoinPrev(m: Memory, starts: set<nat>, list: seq<nat>, i: nat)
    requires i + 1 < |list| && AlmostOk(m, starts, list, list[i + 1])
    requires list[i] < |m| && End(m, list[i]) == list[i + 1] < |m|
    requires !IsFreeStart(m, starts, End(m, list[i + 1]))
    ensures ClusterOk(Join(m, list[i]), starts - {list[i + 1]}, RemoveAt(list, i + 1))
  {
    var p := list[i];
    var q := list[i + 1];
    var m' := Join(m, p);
    var starts' := starts - {q};
    assert q in list && p in list;
    assert IsFreeStart(m, starts, q) && IsFreeStart(m, starts, p);
    assert BlockOk(m, starts, p) && BlockOk(m, starts, q);
    JoinTiles(m, starts, p, m');
    JoinLists(m, starts, list, i);
    forall x | IsFreeStart(m', starts', x) ensures FreeHeaderOk(m', starts', x) {
      assert IsFreeStart(m, starts, x);
      assert BlockOk(m, starts, x);
      if x != p {
        assert End(m, x) != q by { if x < p { } else { assert q < x; } }
        assert FreeHeaderOk(m, starts, x);
      }
    }
  }

  // ---------------------------------------------------------------- sweeping

  lemma {:induction false} CollapseTiles(m: Memory, starts: set<nat>, p: nat, next: nat, m': Memory)
    requires Tiled(m, starts) && p in starts && p < next <= |m|
    requires next == |m| || next in starts
    requires |m'| == |m| && m'[p].size == next - p
    requires forall x | 0 <= x < |m| && x != p :: m'[x].size == m[x].size
    ensures Tiled(m', starts - Interval(p + 1, next))
  {
    var starts' := starts - Interval(p + 1, next);
    forall x | x in starts' ensures BlockOk(m', starts', x) {
      assert BlockOk(m, starts, x);
      assert BlockOk(m, starts, p);
    }
  }

  ghost predicate Survives(m: Memory, starts: set<nat>, p: nat) {
    p in starts && p < |m| && m[p].IsAlive()
  }

  /** What a sweep does: exactly the alive blocks survive, cell for cell, save that the mark of
      a block outside the event heap is cleared for the next collection. */
  ghost predicate Swept(m: Memory, starts: set<nat>, m': Memory, starts': set<nat>) {
    && |m'| == |m|
    && (forall p | p in starts' :: p in starts)
    && (forall p: nat :: Live(m', starts', p) <==> Survives(m, starts, p))
    && forall p: nat | Survives(m, starts, p) :: SameSwept(m, m', p)
  }

  ghost predicate SameSwept(m: Memory, m': Memory, p: nat) {
    && p < |m| && |m'| == |m| && End(m, p) <= |m|
    && m'[p] == (if m[p].IsEvent() then m[p] else m[p].MarkDead())
    && forall x | p < x < End(m, p) :: m'[x] == m[x]
  }

  /** The state of a sweep that has reached address ptr. */
  ghost predicate Sweeping(m0: Memory, starts0: set<nat>, m: Memory, starts: set<nat>, list: seq<nat>, ptr: nat) {
    && |m| == |m0| <= MAX_SIZE && ptr <= |m|
    && Tiled(m0, starts0) && Tiled(m, starts)
    && (ptr == |m| || ptr in starts0)
    && (forall p | p in starts :: p in starts0)
    && (forall p | ptr <= p :: p in starts <==> p in starts0)
    && (forall x | ptr <= x < |m| :: m[x] == m0[x])
    && Ascending(list)
    && (forall p | p in list :: IsFreeStart(m, starts, p) && p < ptr)
    && (forall p: nat | IsFreeStart(m, starts, p) && p < ptr :: p in list)
    && (forall p: nat | IsFreeStart(m, starts, p) && p < ptr ::
        m[p].flags == FREE_FLAGS && NextSurvives(m0, starts0, m, p))
    && (forall p: nat | p < ptr :: Live(m, starts, p) <==> Survives(m0, starts0, p))
    && (forall p: nat | p < ptr && Survives(m0, starts0, p) :: SameSwept(m0, m, p))
  }

  ghost predicate NextSurvives(m0: Memory, starts0: set<nat>, m: Memory, p: nat)
    requires p < |m|
  {
    End(m, p) == |m| || Survives(m0, starts0, End(m, p))
  }

  lemma {:induction false} SweepAlive(m0: Memory, starts0: set<nat>, m: Memory, starts: set<nat>, list: seq<nat>,
      ptr: nat)
    requires Sweeping(m0, starts0, m, starts, list, ptr) && ptr < |m|
    requires m[ptr].IsAlive() && !m[ptr].IsFree()
    ensures End(m, ptr) <= |m|
    ensures Sweeping(m0, starts0, m[ptr := if m[ptr].IsEvent() then m[ptr] else m[ptr].MarkDead()], starts, list,
              End(m, ptr))
  {
    var m' := m[ptr := if m[ptr].IsEvent() then m[ptr] else m[ptr].MarkDead()];
    assert BlockOk(m, starts, ptr);
    SweepAliveTiles(m, starts, ptr, m');
    SweepAliveLists(m0, starts0, m, starts, list, ptr, m');
    SweepAliveFrame(m0, starts0, m, starts, list, ptr, m');
  }

  lemma {:induction false} SweepAliveTiles(m: Memory, starts: set<nat>, ptr: nat, m': Memory)
    requires Tiled(m, starts) && ptr in starts && ptr < |m|
    requires m' == m[ptr := if m[ptr].IsEvent() then m[ptr] else m[ptr].MarkDead()]
    ensures Tiled(m', starts)
    ensures forall p | p in starts && ptr < p :: End(m, ptr) <= p
  {
    assert BlockOk(m, starts, ptr);
    forall p | p in starts ensures BlockOk(m', starts, p) {
      assert BlockOk(m, starts, p);
    }
  }

  lemma {:induction false} SweepAliveLists(m0: Memory, starts0: set<nat>, m: Memory, starts: set<nat>, list: seq<nat>,
      ptr: nat, m': Memory)
    requires Sweeping(m0, starts0, m, starts, list, ptr) && ptr < |m|
    requires m[ptr].IsAlive() && !m[ptr].IsFree()
    requires m' == m[ptr := if m[ptr].IsEvent() then m[ptr] else m[ptr].MarkDead()]
    requires forall p | p in starts && ptr < p :: End(m, ptr) <= p
    ensures forall p | p in list :: IsFreeStart(m', starts, p) && p < ptr
    ensures forall p: nat | IsFreeStart(m', starts, p) && p < End(m, ptr)
              :: p in list && m'[p].flags == FREE_FLAGS && NextSurvives(m0, starts0, m', p)
  {
    forall p | p in list ensures IsFreeStart(m', starts, p) {
      assert IsFreeStart(m, starts, p);
    }
    forall p: nat | IsFreeStart(m', starts, p) && p < End(m, ptr)
      ensures p in list && m'[p].flags == FREE_FLAGS && NextSurvives(m0, starts0, m', p)
    {
      assert IsFreeStart(m, starts, p);
      assert NextSurvives(m0, starts0, m, p);
    }
  }

  lemma {:induction false} SweepAliveFrame(m0: Memory, starts0: set<nat>, m: Memory, starts: set<nat>, list: seq<nat>,
      ptr: nat, m': Memory)
    requires Sweeping(m0, starts0, m, starts, list, ptr) && ptr < |m|
    requires m[ptr].IsAlive() && !m[ptr].IsFree()
    requires m' == m[ptr := if m[ptr].IsEvent() then m[ptr] else m[ptr].MarkDead()]
    requires End(m, ptr) <= |m|
    ensures forall p: nat | p < End(m, ptr) :: Live(m', starts, p) <==> Survives(m0, starts0, p)
    ensures forall p: nat | p < End(m, ptr) && Survives(m0, starts0, p) :: SameSwept(m0, m', p)
  {
    forall p: nat | p < End(m, ptr)
      ensures Live(m', starts, p) <==> Survives(m0, starts0, p)
      ensures Survives(m0, starts0, p) ==> SameSwept(m0, m', p)
    {
      if p < ptr {
        assert Live(m, starts, p) <==> Survives(m0, starts0, p);
        if Survives(m0, starts0, p) {
          assert SameSwept(m0, m, p);
          assert BlockOk(m0, starts0, p);
        }
      } else if p > ptr {
        assert BlockOk(m, starts, ptr);
      }
    }
  }

  lemma {:induction false} SweepDead(m0: Memory, starts0: set<nat>, m: Memory, starts: set<nat>, list: seq<nat>,
      ptr: nat, next: nat)
    requires Sweeping(m0, starts0, m, starts, list, ptr) && ptr < next <= |m|
    requires forall p: nat | p in starts0 && ptr <= p < next :: p < |m0| && !m0[p].IsAlive()
    requires next == |m| || Survives(m0, starts0, next)
    ensures Sweeping(m0, starts0, m[ptr := m[ptr].SetDataId(FreeBlock, FREE_FLAGS, next - ptr)],
                     starts - Interval(ptr + 1, next), list + [ptr], next)
  {
    var m' := m[ptr := m[ptr].SetDataId(FreeBlock, FREE_FLAGS, next - ptr)];
    var starts' := starts - Interval(ptr + 1, next);
    var list' := list + [ptr];
    CollapseTiles(m, starts, ptr, next, m');
    assert forall p | next <= p :: p in starts' <==> p in starts0;
    assert Ascending(list') by {
      forall k | 0 <= k < |list| ensures list[k] < ptr { assert list[k] in list; }
    }
    forall p | p in list' ensures IsFreeStart(m', starts', p) && p < next {
      if p != ptr { assert p in list; assert IsFreeStart(m, starts, p); }
    }
    forall p: nat | IsFreeStart(m', starts', p) && p < next
      ensures p in list' && m'[p].flags == FREE_FLAGS && NextSurvives(m0, starts0, m', p)
    {
      if p != ptr {
        assert IsFreeStart(m, starts, p);
        assert NextSurvives(m0, starts0, m, p);
      } else {
        assert list'[|list|] == p;
      }
    }
    forall p: nat | p < next
      ensures Live(m', starts', p) <==> Survives(m0, starts0, p)
      ensures Survives(m0, starts0, p) ==> SameSwept(m0, m', p)
    {
      if p < ptr {
        assert Live(m, starts, p) <==> Survives(m0, starts0, p);
        if Survives(m0, starts0, p) {
          assert SameSwept(m0, m, p);
          assert BlockOk(m0, starts0, p);
        }
      }
    }
  }

  lemma {:induction false} SweepEnd(m0: Memory, starts0: set<nat>, m: Memory, starts: set<nat>, list: seq<nat>)
    requires Sweeping(m0, starts0, m, starts, list, |m|)
    ensures ClusterOk(m, starts, list) && Swept(m0, starts0, m, starts)
  {
    forall p: nat | IsFreeStart(m, starts, p) ensures FreeHeaderOk(m, starts, p) {
      assert NextSurvives(m0, starts0, m, p);
      if End(m, p) in starts {
        assert BlockOk(m, starts, End(m, p));
        assert Live(m, starts, End(m, p)) <==> Survives(m0, starts0, End(m, p));
      }
    }
    forall p: nat ensures Live(m, starts, p) <==> Survives(m0, starts0, p) {
    }
  }

  // ---------------------------------------------------------------- the allocator object

  lemma ListedAddresses(m: Memory, starts: set<nat>, list: seq<nat>)
    requires ListsFree(m, starts, list)
    ensures forall i | 0 <= i < |list| :: IsFreeStart(m, starts, list[i])
  {
    forall i | 0 <= i < |list| ensures IsFreeStart(m, starts, list[i]) {
      assert list[i] in list;
    }
  }

  /** Only the headers matter to the allocator's invariant. */
  lemma {:induction false} SameHeaders(m: Memory, starts: set<nat>, list: seq<nat>, m': Memory)
    requires ClusterOk(m, starts, list) && |m'| == |m|
    requires forall p | p in starts && p < |m| ::
               m'[p].kind == m[p].kind && m'[p].flags == m[p].flags && m'[p].size == m[p].size
    ensures ClusterOk(m', starts, list)
  {
    forall p | p in starts ensures BlockOk(m', starts, p) {
      assert BlockOk(m, starts, p);
    }
    forall p | p in list ensures IsFreeStart(m', starts, p) {
      assert IsFreeStart(m, starts, p);
    }
    forall p: nat | IsFreeStart(m', starts, p) ensures p in list && FreeHeaderOk(m', starts, p) {
      assert IsFreeStart(m, starts, p);
      assert FreeHeaderOk(m, starts, p);
      if End(m, p) in starts { assert BlockOk(m, starts, End(m, p)); }
    }
  }

  function JoinsNext(m: Memory, list: seq<nat>, node: nat, i: nat): bool
    requires node < |m| && i <= |list|
  {
    i < |list| && End(m, node) == list[i]
  }

  function JoinsPrev(m: Memory, list: seq<nat>, node: nat, i: nat): bool
    requires i <= |list| && (i > 0 ==> list[i - 1] < |m|)
  {
    i > 0 && End(m, list[i - 1]) == node
  }

  lemma {:induction false} InsertFirst(m: Memory, starts: set<nat>, list: seq<nat>, node: nat, i: nat)
      returns (m2: Memory, starts2: set<nat>, list2: seq<nat>)
    requires Returning(m, starts, list, node) && i <= |list|
    requires forall j | 0 <= j < i :: list[j] < node
    requires forall j | i <= j < |list| :: node < list[j]
    ensures AlmostOk(m2, starts2, list2, node) && !IsFreeStart(m2, starts2, End(m2, node))
    ensures list2 == list[..i] + [node] + list[if JoinsNext(m, list, node, i) then i + 1 else i..]
    ensures starts2 == starts - (if JoinsNext(m, list, node, i) then {list[i]} else {})
    ensures JoinsNext(m, list, node, i) ==> list[i] < |m| && m2 == Join(m, node)
    ensures !JoinsNext(m, list, node, i) ==> m2 == m
  {
    m2, starts2, list2 := m, starts, list[..i] + [node] + list[i..];
    InsertLists(m, starts, list, node, i);
    MembersAdded(list, i, node);
    assert list2 == InsertAt(list, i, node);
    ListedAddresses(m, starts, list2);
    if JoinsNext(m, list, node, i) {
      assert list2[i + 1] == list[i];
      JoinNext(m, starts, list2, i);
      m2, starts2, list2 := Join(m, node), starts - {list[i]}, RemoveAt(list2, i + 1);
    } else {
      NextFree(m, starts, list, node, i);
    }
  }

  /** A free block that starts where `node` ends is the next one in the list. */
  lemma {:induction false} NextFree(m: Memory, starts: set<nat>, list: seq<nat>, node: nat, i: nat)
    requires Returning(m, starts, list, node) && i <= |list|
    requires forall j | 0 <= j < i :: list[j] < node
    requires forall j | i <= j < |list| :: node < list[j]
    ensures IsFreeStart(m, starts, End(m, node)) ==> JoinsNext(m, list, node, i)
  {
    if IsFreeStart(m, starts, End(m, node)) {
      assert BlockOk(m, starts, node);
      var k :| 0 <= k < |list| && list[k] == End(m, node);
      assert list[i] in list && list[i] <= list[k];
      assert IsFreeStart(m, starts, list[i]);
    }
  }

  /** A free block that ends where `node` starts is the previous one in the list. */
  lemma {:induction false} PrevFree(m: Memory, starts: set<nat>, list: seq<nat>, node: nat, i: nat)
    requires Tiled(m, starts) && ListsFree(m, starts, list)
    requires i < |list| && list[i] == node
    ensures forall p: nat | IsFreeStart(m, starts, p) && End(m, p) == node :: i > 0 && list[i - 1] == p
  {
    forall p: nat | IsFreeStart(m, starts, p) && End(m, p) == node ensures i > 0 && list[i - 1] == p {
      assert BlockOk(m, starts, p);
      var k :| 0 <= k < |list| && list[k] == p;
      assert list[i - 1] in list && list[k] <= list[i - 1];
      assert IsFreeStart(m, starts, list[i - 1]);
    }
  }

  /** What giving back the block at `node` does: it merges with the free blocks it touches into
      the free block r, every live block is untouched, and the free cells are those there were
      together with the cells of `node`. */
  ghost predicate GivenBack(m: Memory, starts: set<nat>, list: seq<nat>, m': Memory, starts': set<nat>, list': seq<nat>,
      node: nat, r: nat)
    requires node < |m|
  {
    && |m'| == |m|
    && r in starts' && r <= node && r < |m'| && End(m, node) <= End(m', r)
    && (r == node || (r in list && r < |m| && End(m, r) == node))
    && (forall p | p in list' :: p == r || (p in list && p != End(m, node)))
    && (forall p | p in list && p != End(m, node) :: p in list')
    && r in list'
    && (forall p | p in starts' :: p in starts)
    && (forall p: nat :: Live(m', starts', p) <==> Live(m, starts, p))
    && (forall x | 0 <= x < |m| && x != node && x != r :: m'[x] == m[x])
    && FreeCells(m', starts') == FreeCells(m, starts)
  }

  lemma {:induction false} InsertedBack(m: Memory, starts: set<nat>, list: seq<nat>, node: nat, i: nat, m': Memory,
      starts': set<nat>, list': seq<nat>)
    requires Returning(m, starts, list, node) && i <= |list|
    requires forall j | 0 <= j < |list| :: list[j] < |m| && IsFreeStart(m, starts, list[j]) && list[j] != node
    requires forall j | 0 <= j < i :: list[j] < node
    requires forall j | i <= j < |list| :: node < list[j]
    requires |m'| == |m| && Tiled(m', starts')
    requires
      var next, prev := JoinsNext(m, list, node, i), JoinsPrev(m, list, node, i);
      var r := if prev then list[i - 1] else node;
      && list' == list[..i] + (if prev then [] else [node]) + list[if next then i + 1 else i..]
      && starts' == starts - (if next then {list[i]} else {}) - (if prev then {node} else {})
      && m'[r] == m[r].(size := m[node].size + (if next then m[list[i]].size else 0) + (if prev then m[r].size else 0))
      && forall x | 0 <= x < |m| && x != node && x != r :: m'[x] == m[x]
    ensures
      var r := if JoinsPrev(m, list, node, i) then list[i - 1] else node;
      GivenBack(m, starts, list, m', starts', list', node, r)
  {
    var next, prev := JoinsNext(m, list, node, i), JoinsPrev(m, list, node, i);
    var r := if prev then list[i - 1] else node;
    assert BlockOk(m, starts, node);
    InsertedMembers(m, list, node, i, list');
    assert IsFreeStart(m, starts, r);
    if next { assert IsFreeStart(m, starts, list[i]); }
    SameLive(m, starts, m', starts', (if next then {list[i]} else {}) + if prev then {node} else {}, node, r);
    SameLiveSameFree(m, starts, m', starts');
  }

  /** Free blocks that are swallowed take no live block with them. */
  lemma SameLive(m: Memory, starts: set<nat>, m': Memory, starts': set<nat>, gone: set<nat>, node: nat, r: nat)
    requires |m'| == |m| && starts' == starts - gone && forall p | p in gone :: IsFreeStart(m, starts, p)
    requires r < |m| && m[r].IsFree() && m'[r].IsFree() && (node == r || node in gone)
    requires forall x | 0 <= x < |m| && x != node && x != r :: m'[x] == m[x]
    ensures forall p: nat :: Live(m', starts', p) <==> Live(m, starts, p)
  {
  }

  /** The whole effect of an insertion, from the steps that make it up. */
  lemma {:induction false} InsertDone(m: Memory, starts: set<nat>, list: seq<nat>, node: nat, i: nat, r: nat,
      m': Memory, starts': set<nat>, list': seq<nat>)
    requires Returning(m, starts, list, node) && i <= |list|
    requires forall j | 0 <= j < |list| :: list[j] < |m| && IsFreeStart(m, starts, list[j]) && list[j] != node
    requires forall j | 0 <= j < i :: list[j] < node
    requires forall j | i <= j < |list| :: node < list[j]
    requires
      var next, prev := JoinsNext(m, list, node, i), JoinsPrev(m, list, node, i);
      && list' == list[..i] + (if prev then [] else [node]) + list[if next then i + 1 else i..]
      && starts' == starts - (if next then {list[i]} else {}) - (if prev then {node} else {})
      && r == (if prev then list[i - 1] else node)
      && |m'| == |m|
      && m'[r] == m[r].(size := m[node].size + (if next then m[list[i]].size else 0) + (if prev then m[r].size else 0))
      && forall x | 0 <= x < |m| && x != node && x != r :: m'[x] == m[x]
    ensures ClusterOk(m', starts', list')
    ensures GivenBack(m, starts, list, m', starts', list', node, r)
  {
    var m3, starts3, list3 := InsertSteps(m, starts, list, node, i);
    SameHeaders(m3, starts3, list3, m');
    InsertedBack(m, starts, list, node, i, m', starts', list');
  }

  lemma InsertedMembers(m: Memory, list: seq<nat>, node: nat, i: nat, list': seq<nat>)
    requires node < |m| && i <= |list| && Ascending(list) && 1 <= m[node].size
    requires forall j | 0 <= j < |list| :: list[j] < |m|
    requires forall j | 0 <= j < i :: list[j] < node
    requires forall j | i <= j < |list| :: node < list[j]
    requires
      var next, prev := JoinsNext(m, list, node, i), JoinsPrev(m, list, node, i);
      list' == list[..i] + (if prev then [] else [node]) + list[if next then i + 1 else i..]
    requires JoinsNext(m, list, node, i) || (forall j | i <= j < |list| :: list[j] != End(m, node))
    ensures
      var r := if JoinsPrev(m, list, node, i) then list[i - 1] else node;
      && (forall p | p in list' :: p == r || (p in list && p != End(m, node)))
      && (forall p | p in list && p != End(m, node) :: p in list')
      && r in list'
  {
    var next, prev := JoinsNext(m, list, node, i), JoinsPrev(m, list, node, i);
    var a, b, c := list[..i], if prev then [] else [node], list[if next then i + 1 else i..];
    assert list' == a + b + c;
    forall p | p in list && p != End(m, node) ensures p in list' {
      var k :| 0 <= k < |list| && list[k] == p;
      assert if k < i then a[k] == p else c[k - (if next then i + 1 else i)] == p;
    }
    if prev { assert a[i - 1] == list[i - 1]; }
    forall p | p in list' ensures p == (if prev then list[i - 1] else node) || (p in list && p != End(m, node)) {
      if p in c {
        var k :| 0 <= k < |c| && c[k] == p;
        assert p == list[k + (if next then i + 1 else i)];
      }
    }
  }

  lemma Positioned(m: Memory, starts: set<nat>, list: seq<nat>, node: nat, i: nat)
    requires Returning(m, starts, list, node) && i <= |list|
    requires forall j | 0 <= j < i :: list[j] <= node
    ensures forall j | 0 <= j < i :: list[j] < node
    ensures forall j | 0 <= j < |list| :: list[j] < |m| && IsFreeStart(m, starts, list[j]) && list[j] != node
  {
    forall j | 0 <= j < |list| ensures IsFreeStart(m, starts, list[j]) && list[j] != node {
      assert list[j] in list;
    }
  }

  lemma RemoveMiddle(a: seq<nat>, x: nat, b: seq<nat>)
    ensures RemoveAt(a + [x] + b, |a|) == a + b
  {
  }

  lemma {:induction false} InsertSteps(m: Memory, starts: set<nat>, list: seq<nat>, node: nat, i: nat)
      returns (m3: Memory, starts3: set<nat>, list3: seq<nat>)
    requires Returning(m, starts, list, node) && i <= |list|
    requires forall j | 0 <= j < |list| :: list[j] < |m|
    requires forall j | 0 <= j < i :: list[j] < node
    requires forall j | i <= j < |list| :: node < list[j]
    ensures ClusterOk(m3, starts3, list3)
    ensures |m3| == |m|
    ensures
      var next, prev := JoinsNext(m, list, node, i), JoinsPrev(m, list, node, i);
      && list3 == list[..i] + (if prev then [] else [node]) + list[if next then i + 1 else i..]
      && starts3 == starts - (if next then {list[i]} else {}) - (if prev then {node} else {})
    ensures
      var next, prev := JoinsNext(m, list, node, i), JoinsPrev(m, list, node, i);
      var r := if prev then list[i - 1] else node;
      && m3[r] == m[r].(size := m[node].size + (if next then m[list[i]].size else 0) + (if prev then m[r].size else 0))
      && forall x | 0 <= x < |m| && x != node && x != r :: m3[x] == m[x]
  {
    var m2, starts2, list2 := InsertFirst(m, starts, list, node, i);
    ListedAddresses(m2, starts2, list2);
    var prev := JoinsPrev(m, list, node, i);
    if prev { RemoveMiddle(list[..i], node, list[if JoinsNext(m, list, node, i) then i + 1 else i..]); }
    assert i > 0 ==> list2[i - 1] == list[i - 1] && m2[list[i - 1]] == m[list[i - 1]];
    InsertSecond(m2, starts2, list2, node, i, prev);
    m3, starts3, list3 :=
      if prev then Join(m2, list[i - 1]) else m2,
      if prev then starts2 - {node} else starts2,
      if prev then RemoveAt(list2, i) else list2;
  }

  /** The second join, with the free block below, if that ends where `node` starts. */
  lemma {:induction false} InsertSecond(m: Memory, starts: set<nat>, list: seq<nat>, node: nat, i: nat, prev: bool)
    requires AlmostOk(m, starts, list, node) && !IsFreeStart(m, starts, End(m, node))
    requires i < |list| && list[i] == node && (i > 0 ==> list[i - 1] < |m|)
    requires prev == (i > 0 && End(m, list[i - 1]) == node)
    ensures prev ==> node < |m| && ClusterOk(Join(m, list[i - 1]), starts - {node}, RemoveAt(list, i))
    ensures !prev ==> ClusterOk(m, starts, list)
  {
    if prev {
      ListedAddresses(m, starts, list);
      JoinPrev(m, starts, list, i - 1);
    } else {
      InsertAlone(m, starts, list, node, i);
    }
  }

  lemma {:induction false} InsertAlone(m: Memory, starts: set<nat>, list: seq<nat>, node: nat, i: nat)
    requires AlmostOk(m, starts, list, node) && !IsFreeStart(m, starts, End(m, node))
    requires i < |list| && list[i] == node
    requires i > 0 ==> list[i - 1] < |m| && End(m, list[i - 1]) != node
    ensures ClusterOk(m, starts, list)
  {
    PrevFree(m, starts, list, node, i);
    forall p: nat | IsFreeStart(m, starts, p) ensures FreeHeaderOk(m, starts, p) {
      assert End(m, p) != node;
      if p != node {
        assert FreeHeaderOk(m, starts, p);
      }
    }
  }

  /** The free block an allocation is carved from: the lowest that is large enough, or the
      highest for event blocks. */
  ghost predicate Chosen(m: Memory, starts: set<nat>, q: nat, event: bool, length: nat) {
    && IsFreeStart(m, starts, q) && length <= m[q].size
    && forall p: nat | IsFreeStart(m, starts, p) && length <= m[p].size :: if event then p <= q else q <= p
  }

  /** Why a request is for at least one block: carving none out of the free block chosen would write a
      header of size 0 past the payload, or where a block begins, and the payload would not be tiled. */
  lemma {:induction false} CarvingNothing(m: Memory, starts: set<nat>, q: nat, event: bool, kind: Kind, flags: Flags)
    requires Tiled(m, starts) && Chosen(m, starts, q, event, 0)
    ensures q < |m|
    ensures
      var a := if event then End(m, q) else q;
      a == |m| || (a in starts && a < |m| && !Tiled(m[a := m[a].SetDataId(kind, flags, 0)], starts))
  {
    assert BlockOk(m, starts, q);
    var a := if event then End(m, q) else q;
    if a < |m| { assert !BlockOk(m[a := m[a].SetDataId(kind, flags, 0)], starts, a); }
  }

  /** Address a is where a block of this length goes: at the bottom of the lowest free block with room,
      or, for the event heap, at the top of the highest one. */
  ghost predicate PlacedAt(m: Memory, starts: set<nat>, a: nat, event: bool, length: nat) {
    if event then
      && (exists q: nat :: IsFreeStart(m, starts, q) && q + m[q].size == a + length && length <= m[q].size)
      && forall p: nat | IsFreeStart(m, starts, p) && length <= m[p].size :: p + m[p].size <= a + length
    else
      && IsFreeStart(m, starts, a) && length <= m[a].size
      && forall p: nat | IsFreeStart(m, starts, p) && length <= m[p].size :: a <= p
  }

  lemma {:induction false} ChosenPlace(m: Memory, starts: set<nat>, q: nat, event: bool, length: nat)
    requires Tiled(m, starts) && Chosen(m, starts, q, event, length)
    ensures PlacedAt(m, starts, if event then End(m, q) - length else q, event, length)
  {
    if event {
      forall p: nat | IsFreeStart(m, starts, p) && length <= m[p].size ensures p + m[p].size <= End(m, q) {
        assert BlockOk(m, starts, p) && BlockOk(m, starts, q);
      }
    }
  }

  class HeapCluster {
    const mem: array<Cell>
    var freeList: seq<nat>
    ghost var starts: set<nat>

    ghost predicate Valid()
      reads this, mem
    {
      ClusterOk(mem[..], starts, freeList)
    }

    /** Formats the payload as free blocks of `blockSize` cells and sweeps them into one. */
    constructor HeapCluster_Initialize(size: nat, blockSize: nat)
      requires size <= MAX_SIZE && 1 <= blockSize
      ensures Valid() && fresh(mem) && mem.Length == size
      ensures FreeCells(mem[..], starts) == Interval(0, size)
    {
      mem := new Cell[size](_ => ZERO_CELL);
      freeList := [];
      starts := {};
      new;
      var ptr, blockSize' := 0, blockSize;
      while ptr < mem.Length
        invariant 0 <= ptr <= mem.Length && 1 <= blockSize'
        invariant Formatted(mem[..], starts, ptr)
      {
        if ptr + blockSize' > mem.Length { blockSize' := mem.Length - ptr; }
        ghost var m := mem[..];
        mem[ptr] := mem[ptr].SetDataId(FreeBlock, Flags(false, false, false), blockSize');
        FormatOne(m, starts, ptr, mem[..], blockSize');
        starts := starts + {ptr};
        ptr := ptr + blockSize';
      }
      ghost var m, s := mem[..], starts;
      assert m[..ptr] == m;
      RecoverFromGC();
      forall x: nat | x < mem.Length ensures x in FreeCells(mem[..], starts) {
        FreeIsNotLive(mem[..], starts, x);
        assert forall p: nat :: !Survives(m, s, p);
      }
    }

    method ExtractBlocks(kind: Kind, flags: Flags, zero: bool, length: nat) returns (res: Option<nat>)
      requires Valid() && 1 <= length && !kind.FreeBlock?
      modifies this, mem
      ensures Valid()
      ensures res.None? <==> forall p: nat | IsFreeStart(old(mem[..]), old(starts), p) :: old(mem[..])[p].size < length
      ensures res.None? ==> mem[..] == old(mem[..]) && starts == old(starts) && freeList == old(freeList)
      ensures res.Some? ==> res.value < mem.Length && res.value + length <= mem.Length && res.value in starts
      ensures res.Some? ==> exists q: nat ::
                && Chosen(old(mem[..]), old(starts), q, flags.event, length)
                && res.value == (if flags.event then End(old(mem[..]), q) - length else q)
                && Allocates(old(mem[..]), old(starts), mem[..], starts, q, res.value, length)
      ensures res.Some? ==> PlacedAt(old(mem[..]), old(starts), res.value, flags.event, length)
      ensures res.Some? ==> mem[res.value].kind == kind && mem[res.value].flags == flags
      ensures res.Some? && zero ==>
                mem[res.value].target == Null && forall x | res.value < x < res.value + length :: mem[x] == ZERO_CELL
      ensures res.Some? && !zero ==> forall x | res.value < x < res.value + length :: mem[x] == old(mem[x])
    {
      ghost var m, s := mem[..], starts;
      ListedAddresses(m, s, freeList);
      var i := Find(flags.event, length);
      if i == |freeList| { return None; }
      ghost var q := freeList[i];
      ChosenPlace(m, s, q, flags.event, length);
      var a := Carve(i, kind, flags, length);
      ghost var m1 := mem[..];
      if zero {
        InitializeToZero(a, length);
        AllocatesZeroed(m, s, m1, starts, q, a, length, mem[..]);
      }
      res := Some(a);
    }

    method Carve(i: nat, kind: Kind, flags: Flags, length: nat) returns (a: nat)
      requires Valid() && !kind.FreeBlock? && i < |freeList| && 1 <= length
      requires Chosen(mem[..], starts, freeList[i], flags.event, length)
      modifies this, mem
      ensures Valid()
      ensures var q := old(freeList[i]);
              && a == (if flags.event then End(old(mem[..]), q) - length else q)
              && Allocates(old(mem[..]), old(starts), mem[..], starts, q, a, length)
      ensures a in starts && a + length <= mem.Length
      ensures mem[a] == old(mem[a]).SetDataId(kind, flags, length)
      ensures forall x | a < x < a + length :: mem[x] == old(mem[x])
    {
      ghost var m, s, q := mem[..], starts, freeList[i];
      assert BlockOk(m, s, q);
      if flags.event {
        a := CarveFromTop(i, kind, flags, length);
      } else {
        a := CarveFromBottom(i, kind, flags, length);
      }
      AllocatesFrom(m, s, mem[..], starts, q, a, length);
    }

    method CarveFromTop(i: nat, kind: Kind, flags: Flags, length: nat) returns (a: nat)
      requires Valid() && !kind.FreeBlock? && i < |freeList|
      requires freeList[i] < mem.Length && 1 <= length <= mem[freeList[i]].size
                 && freeList[i] + mem[freeList[i]].size <= mem.Length
      modifies this, mem
      ensures Valid()
      ensures mem[..] == CarveHigh(old(mem[..]), old(freeList[i]), kind, flags, length)
      ensures a == End(old(mem[..]), old(freeList[i])) - length && a in starts
      ensures starts == old(starts) + {a}
    {
      ghost var m := mem[..];
      CarveHighOk(m, starts, freeList, i, kind, flags, length);
      var q := freeList[i];
      assert q in freeList;
      assert IsFreeStart(m, starts, q);
      var available := mem[q].size - length;
      a := q + available;
      if available != 0 {
        mem[q] := mem[q].SetDataId(FreeBlock, FREE_FLAGS, available);
        starts := starts + {a};
      } else {
        freeList := RemoveAt(freeList, i);
      }
      mem[a] := mem[a].SetDataId(kind, flags, length);
      assert mem[..] == CarveHigh(m, q, kind, flags, length);
    }

    method CarveFromBottom(i: nat, kind: Kind, flags: Flags, length: nat) returns (a: nat)
      requires Valid() && !kind.FreeBlock? && i < |freeList|
      requires freeList[i] < mem.Length && 1 <= length <= mem[freeList[i]].size
                 && freeList[i] + mem[freeList[i]].size <= mem.Length
      modifies this, mem
      ensures Valid()
      ensures mem[..] == CarveLow(old(mem[..]), old(freeList[i]), kind, flags, length)
      ensures a == old(freeList[i]) && a in starts
      ensures starts == old(starts) + (if length < old(mem[freeList[i]].size) then {a + length} else {})
    {
      ghost var m := mem[..];
      CarveLowOk(m, starts, freeList, i, kind, flags, length);
      a := freeList[i];
      assert a in freeList;
      assert IsFreeStart(m, starts, a);
      var available := mem[a].size - length;
      if available != 0 {
        mem[a + length] := mem[a + length].SetDataId(FreeBlock, FREE_FLAGS, available);
        freeList := freeList[i := a + length];
        starts := starts + {a + length};
      } else {
        freeList := RemoveAt(freeList, i);
      }
      mem[a] := mem[a].SetDataId(kind, flags, length);
      assert mem[..] == CarveLow(m, a, kind, flags, length);
    }

    /** The index of the first entry with enough room, searching backward for event blocks. */
    method Find(event: bool, length: nat) returns (i: nat)
      requires Valid()
      ensures i <= |freeList|
      ensures i == |freeList| <==> forall p: nat | IsFreeStart(mem[..], starts, p) :: mem[..][p].size < length
      ensures i < |freeList| ==> Chosen(mem[..], starts, freeList[i], event, length)
    {
      ListedAddresses(mem[..], starts, freeList);
      if event {
        i := |freeList|;
        var k := |freeList|;
        while k > 0
          invariant 0 <= k <= |freeList| && i == |freeList|
          invariant forall j | k <= j < |freeList| :: mem[..][freeList[j]].size < length
        {
          k := k - 1;
          if mem[freeList[k]].size >= length { i := k; break; }
        }
        assert i < |freeList| ==> forall j | i < j < |freeList| :: mem[..][freeList[j]].size < length;
      } else {
        i := 0;
        while i < |freeList|
          invariant 0 <= i <= |freeList|
          invariant forall j | 0 <= j < i :: mem[..][freeList[j]].size < length
        {
          if mem[freeList[i]].size >= length { break; }
          i := i + 1;
        }
      }
      forall p: nat | IsFreeStart(mem[..], starts, p)
        ensures exists k :: 0 <= k < |freeList| && freeList[k] == p
      {
        assert p in freeList;
      }
    }

    method InitializeToZero(a: nat, length: nat)
      requires Valid() && a in starts && a < mem.Length && mem[a].size == length && a + length <= mem.Length
      modifies mem
      ensures Valid()
      ensures mem[a] == old(mem[a]).(target := Null)
      ensures forall x | a < x < a + length :: mem[x] == ZERO_CELL
      ensures forall x | 0 <= x < mem.Length && !(a <= x < a + length) :: mem[x] == old(mem[x])
    {
      ghost var m := mem[..];
      assert BlockOk(m, starts, a);
      mem[a] := mem[a].(target := Null);
      forall x | a < x < a + length { mem[x] := ZERO_CELL; }
      SameHeaders(m, starts, freeList, mem[..]);
    }

    /** The index of the first listed block above `node`. */
    method Position(node: nat) returns (i: nat)
      requires Ascending(freeList)
      ensures i <= |freeList|
      ensures forall j | 0 <= j < i :: freeList[j] <= node
      ensures forall j | i <= j < |freeList| :: node < freeList[j]
    {
      i := 0;
      while i < |freeList|
        invariant 0 <= i <= |freeList|
        invariant forall j | 0 <= j < i :: freeList[j] <= node
      {
        if freeList[i] > node { break; }
        i := i + 1;
      }
    }

    method InsertInOrder(node: nat, size: nat) returns (r: nat)
      requires node < mem.Length
      requires Returning(mem[..][node := mem[node].SetDataId(FreeBlock, FREE_FLAGS, size)], starts, freeList, node)
      modifies this, mem
      ensures Valid()
      ensures GivenBack(old(mem[..])[node := old(mem[node]).SetDataId(FreeBlock, FREE_FLAGS, size)], old(starts),
                old(freeList),
                        mem[..], starts, freeList, node, r)
      ensures forall x | 0 <= x < mem.Length && x != r :: mem[x] == old(mem[x])
    {
      ghost var m := mem[..][node := mem[node].SetDataId(FreeBlock, FREE_FLAGS, size)];
      ghost var s, list := starts, freeList;
      var i := Position(node);
      Positioned(m, s, list, node, i);
      assert IsFreeStart(m, s, node);
      freeList := freeList[..i] + [node] + freeList[i..];
      var total := CoalesceNext(list, i, node, size);
      r, total := CoalescePrevious(list, i, node, total);
      assert IsFreeStart(m, s, r);
      mem[r] := mem[r].SetDataId(FreeBlock, FREE_FLAGS, total);
      InsertDone(m, s, list, node, i, r, mem[..], starts, freeList);
    }

    method CoalesceNext(ghost list: seq<nat>, i: nat, node: nat, size: nat) returns (total: nat)
      requires i <= |list| && freeList == list[..i] + [node] + list[i..]
      requires forall j | 0 <= j < |list| :: list[j] < mem.Length
      modifies this
      ensures var next := i < |list| && node + size == list[i];
              && freeList == list[..i] + [node] + list[if next then i + 1 else i..]
              && total == size + (if next then mem[list[i]].size else 0)
              && starts == old(starts) - (if next then {list[i]} else {})
    {
      total := size;
      if i + 1 < |freeList| && node + size == freeList[i + 1] {
        total := total + mem[freeList[i + 1]].size;
        starts := starts - {freeList[i + 1]};
        freeList := RemoveAt(freeList, i + 1);
      }
    }

    method CoalescePrevious(ghost list: seq<nat>, i: nat, node: nat, size: nat) returns (r: nat, total: nat)
      requires i <= |list| && i < |freeList| && freeList[..i] == list[..i] && freeList[i] == node
      requires forall j | 0 <= j < |list| :: list[j] < mem.Length
      modifies this
      ensures var prev := i > 0 && list[i - 1] + mem[list[i - 1]].size == node;
              && r == (if prev then list[i - 1] else node)
              && freeList == list[..i] + (if prev then [] else [node]) + old(freeList)[i + 1..]
              && total == size + (if prev then mem[r].size else 0)
              && starts == old(starts) - (if prev then {node} else {})
    {
      r, total := node, size;
      if i > 0 {
        assert freeList[i - 1] == freeList[..i][i - 1];
        if freeList[i - 1] + mem[freeList[i - 1]].size == node {
          r := freeList[i - 1];
          total := total + mem[r].size;
          starts := starts - {node};
          freeList := RemoveAt(freeList, i);
        }
      }
    }

    method RecoverFromGC()
      requires mem.Length <= MAX_SIZE && Tiled(mem[..], starts)
      requires forall p: nat | Survives(mem[..], starts, p) :: !mem[..][p].IsFree()
      modifies this, mem
      ensures Valid()
      ensures Swept(old(mem[..]), old(starts), mem[..], starts)
    {
      ghost var m0, s0 := mem[..], starts;
      var ptr := 0;
      freeList := [];
      while ptr < mem.Length
        invariant 0 <= ptr <= mem.Length
        invariant Sweeping(m0, s0, mem[..], starts, freeList, ptr)
        decreases mem.Length - ptr
      {
        ghost var m, s, list := mem[..], starts, freeList;
        assert BlockOk(m, s, ptr);
        if !mem[ptr].IsAlive() {
          var next, lenTot := ptr, 0;
          assert BlockOk(m0, s0, ptr);
          while next < mem.Length && !mem[next].IsAlive()
            invariant ptr <= next <= mem.Length && lenTot == next - ptr
            invariant next == mem.Length || next in s0
            invariant forall p: nat | p in s0 && ptr <= p < next :: p < |m0| && !m0[p].IsAlive()
            invariant next == ptr ==> !mem[next].IsAlive()
            decreases mem.Length - next
          {
            assert BlockOk(m0, s0, next);
            var len := mem[next].size;
            next := next + len;
            lenTot := lenTot + len;
          }
          SweepDead(m0, s0, m, s, list, ptr, next);
          mem[ptr] := mem[ptr].SetDataId(FreeBlock, FREE_FLAGS, lenTot);
          freeList := freeList + [ptr];
          starts := starts - Interval(ptr + 1, next);
          assert mem[..] == m[ptr := m[ptr].SetDataId(FreeBlock, FREE_FLAGS, next - ptr)];
          ptr := next;
        } else {
          assert Survives(m0, s0, ptr);
          SweepAlive(m0, s0, m, s, list, ptr);
          if !mem[ptr].IsEvent() { mem[ptr] := mem[ptr].MarkDead(); }
          assert mem[..] == m[ptr := if m[ptr].IsEvent() then m[ptr] else m[ptr].MarkDead()];
          ptr := ptr + mem[ptr].size;
        }
      }
      SweepEnd(m0, s0, mem[..], starts, freeList);
    }
  }

  /** The state of the formatting loop: blocks of dead cells tile the first ptr cells. */
  ghost predicate Formatted(m: Memory, starts: set<nat>, ptr: nat) {
    && ptr <= |m|
    && Tiled(m[..ptr], starts)
    && forall p | p in starts && p < ptr :: !m[p].IsAlive()
  }

  lemma {:induction false} FormatOne(m: Memory, starts: set<nat>, ptr: nat, m': Memory, n: nat)
    requires Formatted(m, starts, ptr) && 1 <= n && ptr + n <= |m| && |m'| == |m|
    requires m'[ptr].size == n && !m'[ptr].IsAlive()
    requires forall x | 0 <= x < |m| && x != ptr :: m'[x] == m[x]
    ensures ptr !in starts && Formatted(m', starts + {ptr}, ptr + n)
  {
    var s' := starts + {ptr};
    forall q | q in starts ensures q < ptr {
      assert BlockOk(m[..ptr], starts, q);
    }
    forall p | p in s' ensures BlockOk(m'[..ptr + n], s', p) {
      if p in starts { assert BlockOk(m[..ptr], starts, p); }
    }
  }
}
