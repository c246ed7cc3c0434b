/** The relocation table: regions of memory that moved, searched by `Heap_Relocate(void**)`. */
module Relocation {
  import opened HeapModel

  /** Addresses are 32-bit words; the offset of a region is their wrapped difference. */
  const WORD: nat := 0x1_0000_0000

  /** The cells from `start` up to `end` now begin at `destination`. */
  datatype RelocationRegion = RelocationRegion(start: nat, end: nat, destination: nat) {
    function Offset(): nat { (destination - start) % WORD }

    /** A region of the address space whose destination also fits. */
    predicate Fits() { start <= end && end <= WORD && destination + (end - start) <= WORD }
  }

  ghost predicate Covers(r: RelocationRegion, x: nat) {
    r.start <= x < r.end
  }

  /** Where the address x is found once the cells of region r have moved. */
  function Shift(r: RelocationRegion, x: nat): nat {
    if r.start <= x < r.end then x - r.start + r.destination else x
  }

  /** The regions are disjoint and ascending by start. */
  ghost predicate TableOk(t: seq<RelocationRegion>) {
    && (forall i | 0 <= i < |t| :: t[i].Fits())
    && forall i, j | 0 <= i < j < |t| :: t[i].end <= t[j].start
  }

  /** The reference meaning of a table, by linear scan from the end. */
  function Lookup(t: seq<RelocationRegion>, x: nat): nat {
    if t == [] then x
    else
      var r := t[|t| - 1];
      if r.start <= x < r.end then Shift(r, x) else Lookup(t[..|t| - 1], x)
  }

  /** In a sound table at most one region covers an address, so any search that finds one agrees
      with the linear scan. */
  lemma {:induction false} LookupHit(t: seq<RelocationRegion>, i: nat, x: nat)
    requires TableOk(t) && i < |t| && Covers(t[i], x)
    ensures Lookup(t, x) == Shift(t[i], x)
  {
    var n := |t| - 1;
    if i < n {
      assert t[..n][i] == t[i];
      LookupHit(t[..n], i, x);
    }
  }

  lemma {:induction false} LookupMiss(t: seq<RelocationRegion>, x: nat)
    requires forall i | 0 <= i < |t| :: !Covers(t[i], x)
    ensures Lookup(t, x) == x
  {
    if t != [] {
      var n := |t| - 1;
      assert !Covers(t[n], x);
      forall i | 0 <= i < n ensures !Covers(t[..n][i], x) {
        assert t[..n][i] == t[i];
      }
      LookupMiss(t[..n], x);
    }
  }

  class RelocationTable {
    const blocks: array<RelocationRegion>
    var count: nat
    var minimum: nat
    var maximum: nat

    ghost predicate Valid()
      reads this, blocks
    {
      count <= blocks.Length && TableOk(blocks[..count])
    }

    /** The table as a sequence. */
    ghost function Regions(): seq<RelocationRegion>
      requires count <= blocks.Length
      reads this, blocks
    {
      blocks[..count]
    }

    constructor (total: nat)
      ensures Valid() && fresh(blocks) && blocks.Length == total && Regions() == []
    {
      blocks := new RelocationRegion[total](_ => RelocationRegion(0, 0, 0));
      count, minimum, maximum := 0, 0, 0;
    }

    /** Every covered address lies between `minimum` and `maximum`. */
    ghost predicate Bounded()
      requires count <= blocks.Length
      reads this, blocks
    {
      forall i | 0 <= i < count :: minimum <= blocks[i].start && blocks[i].end <= maximum
    }

    method ComputeBounds()
      requires Valid() && 0 < count
      modifies this`minimum, this`maximum
      ensures Valid() && Bounded()
    {
      minimum, maximum := blocks[0].start, blocks[0].end;
      for i := 0 to count
        invariant forall j | 0 <= j < i :: minimum <= blocks[j].start && blocks[j].end <= maximum
      {
        if minimum > blocks[i].start { minimum := blocks[i].start; }
        if maximum < blocks[i].end { maximum := blocks[i].end; }
      }
    }

    /** Rewrites one pointer by binary search. */
    method Relocate(ref: Ref) returns (r: Ref)
      requires Valid() && Bounded()
      ensures r == RelocatedRef(Regions(), ref)
    {
      r := ref;
      if ref.To? {
        var dst := ref.addr;
        var i := count;
        if minimum <= dst < maximum { i := Search(dst); }
        if i < count {
          assert Regions()[i] == blocks[i];
          LookupHit(Regions(), i, dst);
          OffsetAdds(blocks[i], dst);
          r := To((dst + blocks[i].Offset()) % WORD);
        } else {
          forall k | 0 <= k < count ensures !Covers(Regions()[k], dst) {
            assert Regions()[k] == blocks[k];
          }
          LookupMiss(Regions(), dst);
        }
      }
    }

    /** The region that covers dst, or `count` when there is none. */
    method Search(dst: nat) returns (center: nat)
      requires Valid()
      ensures center <= count
      ensures center < count ==> Covers(blocks[center], dst)
      ensures center == count ==> forall i | 0 <= i < count :: !Covers(blocks[i], dst)
    {
      var left, right := 0, count;
      while left < right
        invariant 0 <= left <= right <= count
        invariant forall i | 0 <= i < left :: blocks[i].end <= dst
        invariant forall i | right <= i < count :: dst < blocks[i].start
      {
        center := (left + right) / 2;
        var current := blocks[center];
        if dst < current.start {
          AscendingFrom(center);
          right := center;
        } else if dst >= current.end {
          AscendingTo(center);
          left := center + 1;
        } else {
          return;
        }
      }
      center := count;
    }

    lemma AscendingFrom(c: nat)
      requires Valid() && c < count
      ensures forall i | c <= i < count :: blocks[c].start <= blocks[i].start
    {
      forall i | c <= i < count ensures blocks[c].start <= blocks[i].start {
        assert blocks[..count][i] == blocks[i] && blocks[..count][c] == blocks[c];
      }
    }

    lemma AscendingTo(c: nat)
      requires Valid() && c < count
      ensures forall i | 0 <= i <= c :: blocks[i].end <= blocks[c].end
    {
      forall i | 0 <= i <= c ensures blocks[i].end <= blocks[c].end {
        assert blocks[..count][i] == blocks[i] && blocks[..count][c] == blocks[c];
      }
    }

    /** Inserts a region so that the table stays sorted by start; `full` says that it must now be flushed. */
    method AddBlock(dst: nat, src: nat, length: nat) returns (full: bool)
      requires Valid() && count < blocks.Length && 1 <= length
      requires RelocationRegion(src, src + length, dst).Fits()
      requires forall i | 0 <= i < count :: blocks[i].end <= src || src + length <= blocks[i].start
      modifies this`count, blocks
      ensures Valid() && full == (count == blocks.Length)
      ensures var r := RelocationRegion(src, src + length, dst);
              exists i: nat :: Fitting(old(Regions()), i, r) && Regions() == Inserted(old(Regions()), i, r)
    {
      ghost var t := Regions();
      var r := RelocationRegion(src, src + length, dst);
      var i := Position(src);
      FittingBySearch(t, i, r);
      InsertedOrder(t, i, r);
      forall j | i < j <= count { blocks[j] := blocks[j - 1]; }
      blocks[i] := r;
      count := count + 1;
      assert Regions() == Inserted(t, i, r);
      full := count == blocks.Length;
    }

    /** The index of the first region that starts above src. */
    method Position(src: nat) returns (i: nat)
      requires Valid()
      ensures i <= count
      ensures forall j | 0 <= j < i :: blocks[j].start <= src
      ensures i < count ==> src < blocks[i].start
    {
      i := 0;
      var left := count;
      while left > 0
        invariant 0 <= left && i + left == count
        invariant forall j | 0 <= j < i :: blocks[j].start <= src
      {
        if blocks[i].start > src { break; }
        i, left := i + 1, left - 1;
      }
    }
  }

  /** Adding the wrapped offset moves an address to its new place. */
  lemma OffsetAdds(r: RelocationRegion, x: nat)
    requires r.Fits() && Covers(r, x)
    ensures (x + r.Offset()) % WORD == Shift(r, x)
  {
  }

  function RelocatedRef(t: seq<RelocationRegion>, ref: Ref): Ref {
    if ref.To? then To(Lookup(t, ref.addr)) else Null
  }

  function Inserted(t: seq<RelocationRegion>, i: nat, r: RelocationRegion): seq<RelocationRegion>
    requires i <= |t|
  {
    t[..i] + [r] + t[i..]
  }

  /** Region r may be inserted before the i-th one. */
  ghost predicate Fitting(t: seq<RelocationRegion>, i: nat, r: RelocationRegion) {
    && TableOk(t) && i <= |t| && r.Fits() && r.start < r.end
    && (forall j | 0 <= j < i :: t[j].end <= r.start)
    && (forall j | i <= j < |t| :: r.end <= t[j].start)
  }

  lemma {:induction false} FittingBySearch(t: seq<RelocationRegion>, i: nat, r: RelocationRegion)
    requires TableOk(t) && i <= |t| && r.Fits() && r.start < r.end
    requires forall j | 0 <= j < |t| :: t[j].end <= r.start || r.end <= t[j].start
    requires forall j | 0 <= j < i :: t[j].start <= r.start
    requires i < |t| ==> r.start < t[i].start
    ensures Fitting(t, i, r)
  {
    forall j | i <= j < |t| ensures r.end <= t[j].start {
      if j > i { assert t[i].Fits() && t[i].end <= t[j].start; }
      assert t[j].Fits();
    }
  }

  lemma {:induction false} InsertedOrder(t: seq<RelocationRegion>, i: nat, r: RelocationRegion)
    requires Fitting(t, i, r)
    ensures TableOk(Inserted(t, i, r))
  {
    var t' := Inserted(t, i, r);
    forall j, k | 0 <= j < k < |t'| ensures t'[j].end <= t'[k].start {
      if k != i && j != i {
        assert t[if j < i then j else j - 1].end <= t[if k < i then k else k - 1].start;
      }
    }
  }

  lemma {:induction false} InsertedLookup(t: seq<RelocationRegion>, i: nat, r: RelocationRegion, x: nat)
    requires Fitting(t, i, r)
    ensures Lookup(Inserted(t, i, r), x) == if Covers(r, x) then Shift(r, x) else Lookup(t, x)
  {
    var t' := Inserted(t, i, r);
    InsertedOrder(t, i, r);
    if Covers(r, x) {
      LookupHit(t', i, x);
    } else if k :| 0 <= k < |t| && Covers(t[k], x) {
      LookupHit(t, k, x);
      LookupHit(t', if k < i then k else k + 1, x);
    } else {
      LookupMiss(t, x);
      forall k | 0 <= k < |t'| ensures !Covers(t'[k], x) {
        if k != i { assert !Covers(t[if k < i then k else k - 1], x); }
      }
      LookupMiss(t', x);
    }
  }
}
