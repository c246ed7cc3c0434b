/** The managed heap's raw memory: an array of fixed-size cells in which blocks are
    laid end to end.  A block is a header cell followed by its data cells; only the
    header says how long the block is, so a set of start addresses together with the
    headers determines the layout. */
module HeapModel {

  /** A pointer stored in a cell.  Pointers name whole blocks by the address of their header. */
  datatype Ref = Null | To(addr: nat)

  /** The data types the collector distinguishes.  `Reference` stands for the cells that hold
      one pointer (object references, by-refs and array by-refs). */
  datatype Kind =
    | FreeBlock
    | CachedBlock
    | Reference
    | Class
    | SzArray(fReference: bool, numOfElements: nat)
    | DelegateHead
    | DelegateList(weak: bool, length: nat)
    | WeakClass
    | Opaque(value: int)

  datatype Flags = Flags(alive: bool, event: bool, pinned: bool)

  datatype Cell = Cell(kind: Kind, flags: Flags, size: nat, target: Ref) {
    predicate IsFree() { kind.FreeBlock? }

    predicate IsAlive() { flags.alive }

    predicate IsEvent() { flags.event }

    predicate IsUnmovable() { flags.pinned || flags.event }

    /** Rewrites the identification word and leaves the payload word alone. */
    function SetDataId(k: Kind, f: Flags, n: nat): Cell { Cell(k, f, n, target) }

    function MarkAlive(): Cell { this.(flags := flags.(alive := true)) }

    function MarkDead(): Cell { this.(flags := flags.(alive := false)) }
  }

  const FREE_FLAGS := Flags(false, false, true)
  const ZERO_CELL := Cell(Opaque(0), Flags(false, false, false), 0, Null)

  /** A block's size must fit the 16-bit size field of its header. */
  const MAX_SIZE: nat := 0xFFFF

  type Memory = seq<Cell>

  function End(m: Memory, p: nat): nat
    requires p < |m|
  {
    p + m[p].size
  }

  ghost predicate BlockOk(m: Memory, starts: set<nat>, p: nat) {
    && p < |m|
    && 1 <= m[p].size
    && End(m, p) <= |m|
    && (End(m, p) == |m| || End(m, p) in starts)
    && forall q | q in starts :: !(p < q < End(m, p))
  }

  /** The blocks starting at `starts` cover the memory end to end. */
  ghost predicate Tiled(m: Memory, starts: set<nat>) {
    && (|m| > 0 ==> 0 in starts)
    && forall p {:trigger BlockOk(m, starts, p)} | p in starts :: BlockOk(m, starts, p)
  }

  /** Cell x lies inside the block that starts at p. */
  ghost predicate Inside(m: Memory, p: nat, x: nat) {
    p < |m| && p <= x < End(m, p)
  }

  predicate IsAddress(x: nat) { true }

  /** The addresses from lo up to but not including hi. */
  function Interval(lo: nat, hi: nat): (r: set<nat>)
    ensures forall x :: x in r <==> lo <= x < hi
  {
    set x: nat | lo <= x < hi && IsAddress(x)
  }

  lemma {:induction false} IntervalSize(lo: nat, hi: nat)
    requires lo <= hi
    ensures |Interval(lo, hi)| == hi - lo
    decreases hi - lo
  {
    if lo < hi {
      IntervalSize(lo + 1, hi);
      assert Interval(lo, hi) == {lo} + Interval(lo + 1, hi);
    } else {
      assert Interval(lo, hi) == {};
    }
  }

  /** Every cell of a tiled memory lies in exactly one block. */
  lemma {:induction false} EveryCellHasABlock(m: Memory, starts: set<nat>, x: nat) returns (p: nat)
    requires Tiled(m, starts) && x < |m|
    ensures p in starts && Inside(m, p, x)
    ensures forall q | q in starts && Inside(m, q, x) :: q == p
  {
    p := FindBlock(m, starts, 0, x);
    forall q | q in starts && Inside(m, q, x) ensures q == p {
      assert BlockOk(m, starts, p) && BlockOk(m, starts, q);
    }
  }

  lemma {:induction false} FindBlock(m: Memory, starts: set<nat>, from: nat, x: nat) returns (p: nat)
    requires Tiled(m, starts) && from in starts && from <= x < |m|
    ensures p in starts && Inside(m, p, x)
    decreases x - from
  {
    assert BlockOk(m, starts, from);
    if x < End(m, from) {
      p := from;
    } else {
      p := FindBlock(m, starts, End(m, from), x);
    }
  }

  /** The cells covered by free blocks. */
  ghost function FreeCells(m: Memory, starts: set<nat>): set<nat>
  {
    set x | x in Interval(0, |m|) && exists p :: p in starts && Inside(m, p, x) && m[p].IsFree()
  }

  ghost predicate Live(m: Memory, starts: set<nat>, p: nat) {
    p in starts && p < |m| && !m[p].IsFree()
  }

  /** The block at p has the same cells in both memories. */
  ghost predicate SameBlock(m: Memory, m': Memory, p: nat) {
    && p < |m| && p < |m'|
    && End(m, p) <= |m| && End(m, p) <= |m'|
    && forall x | p <= x < End(m, p) :: m'[x] == m[x]
  }

  /** A cell is free exactly when no live block covers it. */
  lemma {:induction false} FreeIsNotLive(m: Memory, starts: set<nat>, x: nat)
    requires Tiled(m, starts) && x < |m|
    ensures x in FreeCells(m, starts) <==> forall p: nat :: Live(m, starts, p) ==> !Inside(m, p, x)
  {
    var b := EveryCellHasABlock(m, starts, x);
    if x in FreeCells(m, starts) {
      assert m[b].IsFree();
    } else {
      assert Live(m, starts, b);
    }
  }

  /** Memories with the same live blocks have the same free cells. */
  lemma {:induction false} SameLiveSameFree(m: Memory, starts: set<nat>, m': Memory, starts': set<nat>)
    requires Tiled(m, starts) && Tiled(m', starts') && |m'| == |m|
    requires forall p: nat :: Live(m', starts', p) <==> Live(m, starts, p)
    requires forall p: nat | Live(m, starts, p) :: m'[p].size == m[p].size
    ensures FreeCells(m', starts') == FreeCells(m, starts)
  {
    forall x: nat | x < |m| ensures x in FreeCells(m', starts') <==> x in FreeCells(m, starts) {
      FreeIsNotLive(m, starts, x);
      FreeIsNotLive(m', starts', x);
      assert forall p: nat | Live(m, starts, p) :: Inside(m', p, x) <==> Inside(m, p, x);
    }
  }

  /** One more live block, at a: its cells stop being free. */
  lemma {:induction false} OneMoreLive(m: Memory, starts: set<nat>, m': Memory, starts': set<nat>, a: nat)
    requires Tiled(m, starts) && Tiled(m', starts') && |m'| == |m|
    requires forall p: nat :: Live(m', starts', p) <==> Live(m, starts, p) || p == a
    requires forall p: nat | Live(m, starts, p) :: m'[p].size == m[p].size
    requires a < |m| && !Live(m, starts, a)
    ensures FreeCells(m', starts') == FreeCells(m, starts) - Interval(a, End(m', a))
  {
    forall x: nat | x < |m|
      ensures x in FreeCells(m', starts') <==> x in FreeCells(m, starts) && !Inside(m', a, x)
    {
      FreeIsNotLive(m, starts, x);
      FreeIsNotLive(m', starts', x);
      assert Live(m', starts', a);
      assert forall p: nat | Live(m, starts, p) :: Inside(m', p, x) <==> Inside(m, p, x);
    }
  }
}
