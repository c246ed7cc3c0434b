/** Weak delegate lists when a collection clears them: entry by entry, in the order in which marking
    has come upon the lists.  A delegate that is kept may be what a later entry is bound to. */
module WeakDelegates {
  import opened HeapModel
  import opened Marking

  /** The object that the delegate in entry c is bound to. */
  function BoundObject(m: Memory, c: nat): Ref
    requires c < |m|
  {
    if m[c].target.Null? then Null
    else
      var d := m[c].target.addr;
      if d + 1 < |m| && m[d + 1].kind.Reference? then m[d + 1].target else Null
  }

  /** One of the first k entries still holds delegate r. */
  ghost predicate KeptBefore(m: Memory, es: seq<nat>, k: nat, r: nat) {
    exists j :: 0 <= j < k && j < |es| && es[j] < |m| && m[es[j]].target == To(r)
  }

  /** Entry k is bound to an object that is not marked in m0 and that no earlier entry has kept. */
  ghost predicate Lost(m0: Memory, m: Memory, es: seq<nat>, k: nat)
    requires k < |es| && es[k] < |m0|
  {
    var r := BoundObject(m0, es[k]);
    r.To? && r.addr < |m0| && !m0[r.addr].IsAlive() && !KeptBefore(m, es, k, r.addr)
  }

  ghost predicate EntryDecided(m0: Memory, m: Memory, es: seq<nat>, k: nat) {
    && k < |es| && es[k] < |m0| && |m| == |m0|
    && m[es[k]].target == if Lost(m0, m, es, k) then Null else m0[es[k]].target
  }

  ghost predicate EntryUntouched(m0: Memory, m: Memory, es: seq<nat>, k: nat) {
    k < |es| && es[k] < |m0| && |m| == |m0| && m[es[k]].target == m0[es[k]].target
  }

  ghost predicate AliveAsKept(m0: Memory, m: Memory, es: seq<nat>, k: nat, r: nat) {
    r < |m0| && |m| == |m0| && (m[r].IsAlive() <==> m0[r].IsAlive() || KeptBefore(m, es, k, r))
  }

  /** The first k entries have been dealt with: what they have lost and what they have kept alive is
      exactly as their turns demand, and everything else is as it was in m0. */
  ghost predicate Decided(m0: Memory, starts: set<nat>, m: Memory, es: seq<nat>, k: nat) {
    && |m| == |m0| && k <= |es|
    && (forall j: nat {:trigger EntryDecided(m0, m, es, j)} | j < k :: EntryDecided(m0, m, es, j))
    && (forall j: nat {:trigger EntryUntouched(m0, m, es, j)} | k <= j < |es| :: EntryUntouched(m0, m, es, j))
    && (forall r: nat {:trigger AliveAsKept(m0, m, es, k, r)} | r in starts && r < |m0| :: AliveAsKept(m0, m, es, k, r))
    && (forall x | 0 <= x < |m0| && x !in starts && x !in es :: m[x] == m0[x])
  }

  /** Entry c is no header; its delegate and what that is bound to are blocks. */
  ghost predicate EntryShape(m0: Memory, starts: set<nat>, c: nat) {
    && c < |m0| && c !in starts
    && (m0[c].target.To? ==> m0[c].target.addr in starts && m0[c].target.addr < |m0|)
    && (BoundObject(m0, c).To? ==> BoundObject(m0, c).addr in starts && BoundObject(m0, c).addr < |m0|)
  }

  ghost predicate Entries(m0: Memory, starts: set<nat>, es: seq<nat>) {
    Once(es) && forall j: nat {:trigger EntryShape(m0, starts, es[j])} | j < |es| :: EntryShape(m0, starts, es[j])
  }

  /** The memory after the turn of entry c. */
  function Turned(m: Memory, c: nat, bound: Ref): Memory
    requires c < |m|
    requires m[c].target.To? ==> m[c].target.addr < |m|
    requires bound.To? ==> bound.addr < |m|
  {
    if m[c].target.Null? then m
    else if bound.To? && !m[bound.addr].IsAlive() then m[c := m[c].(target := Null)]
    else m[m[c].target.addr := m[m[c].target.addr].MarkAlive()]
  }

  /** The turn of one entry. */
  lemma {:induction false} DecideStep(m0: Memory, starts: set<nat>, m: Memory, es: seq<nat>, k: nat)
    requires Entries(m0, starts, es) && Decided(m0, starts, m, es, k) && k < |es|
    ensures es[k] < |m| && (m[es[k]].target.To? ==> m[es[k]].target.addr < |m|)
    ensures BoundObject(m0, es[k]).To? ==> BoundObject(m0, es[k]).addr < |m|
    ensures Decided(m0, starts, Turned(m, es[k], BoundObject(m0, es[k])), es, k + 1)
  {
    assert EntryShape(m0, starts, es[k]) && EntryUntouched(m0, m, es, k);
    var m' := Turned(m, es[k], BoundObject(m0, es[k]));
    forall j: nat | j < |es| && j != k ensures es[j] < |m| && m'[es[j]].target == m[es[j]].target {
      assert EntryShape(m0, starts, es[j]);
    }
    forall j: nat | k < j < |es| ensures EntryUntouched(m0, m', es, j) {
      assert EntryUntouched(m0, m, es, j);
    }
    forall j: nat | j < k ensures EntryDecided(m0, m', es, j) {
      assert EntryDecided(m0, m, es, j);
      SameKept(m, m', es, j, BoundObject(m0, es[j]));
    }
    SameKept(m, m', es, k, BoundObject(m0, es[k]));
    var r := BoundObject(m0, es[k]);
    if r.To? { assert AliveAsKept(m0, m, es, k, r.addr); }
    assert EntryDecided(m0, m', es, k);
    forall r: nat | r in starts && r < |m0| ensures AliveAsKept(m0, m', es, k + 1, r) {
      assert AliveAsKept(m0, m, es, k, r);
      SameKept(m, m', es, k, To(r));
      OneMoreKept(m', es, k, r);
    }
  }

  lemma SameKept(m: Memory, m': Memory, es: seq<nat>, k: nat, r: Ref)
    requires |m'| == |m| && forall j: nat | j < k && j < |es| && es[j] < |m| :: m'[es[j]].target == m[es[j]].target
    ensures r.To? ==> (KeptBefore(m', es, k, r.addr) <==> KeptBefore(m, es, k, r.addr))
  {
  }

  lemma OneMoreKept(m: Memory, es: seq<nat>, k: nat, r: nat)
    requires k < |es| && es[k] < |m|
    ensures KeptBefore(m, es, k + 1, r) <==> KeptBefore(m, es, k, r) || m[es[k]].target == To(r)
  {
  }

  lemma NothingDecided(m0: Memory, starts: set<nat>, es: seq<nat>)
    requires Entries(m0, starts, es)
    ensures Decided(m0, starts, m0, es, 0)
  {
    forall j: nat | j < |es| ensures EntryUntouched(m0, m0, es, j) {
      assert EntryShape(m0, starts, es[j]);
    }
    forall r: nat | r in starts && r < |m0| ensures AliveAsKept(m0, m0, es, 0, r) {
    }
  }

  // ---------------------------------------------------------------- the entries of several lists

  /** The entries of the list at p, in order. */
  function EntriesOf(m: Memory, p: nat): (r: seq<nat>) {
    if p < |m| && IsWeakList(m[p]) then seq(m[p].kind.length, i requires 0 <= i => p + 1 + i) else []
  }

  /** The entries of all the lists, in order. */
  function AllEntries(m: Memory, lists: seq<nat>): seq<nat> {
    if lists == [] then [] else AllEntries(m, lists[..|lists| - 1]) + EntriesOf(m, lists[|lists| - 1])
  }

  lemma {:induction false} EntriesUpTo(m: Memory, lists: seq<nat>, i: nat)
    requires i < |lists|
    ensures AllEntries(m, lists[..i + 1]) == AllEntries(m, lists[..i]) + EntriesOf(m, lists[i])
  {
    assert lists[..i + 1][..i] == lists[..i];
  }

  lemma {:induction false} FirstEntries(m: Memory, lists: seq<nat>, i: nat)
    requires i <= |lists|
    ensures AllEntries(m, lists[..i]) <= AllEntries(m, lists)
    decreases |lists| - i
  {
    if i == |lists| {
      assert lists[..i] == lists;
    } else {
      EntriesUpTo(m, lists, i);
      FirstEntries(m, lists, i + 1);
    }
  }

  /** Entry n of list i stands behind the entries of the lists before. */
  lemma {:induction false} EntryAt(m: Memory, lists: seq<nat>, i: nat)
    requires i < |lists| && lists[i] < |m| && IsWeakList(m[lists[i]])
    ensures
      var b, es := |AllEntries(m, lists[..i])|, AllEntries(m, lists);
      && b + m[lists[i]].kind.length == |AllEntries(m, lists[..i + 1])| <= |es|
      && forall x: nat | b <= x < b + m[lists[i]].kind.length :: es[x] == lists[i] + 1 + (x - b)
  {
    EntriesUpTo(m, lists, i);
    FirstEntries(m, lists, i + 1);
    var b, upTo, es := |AllEntries(m, lists[..i])|, AllEntries(m, lists[..i + 1]), AllEntries(m, lists);
    forall x: nat | b <= x < b + m[lists[i]].kind.length ensures es[x] == lists[i] + 1 + (x - b) {
      assert es[x] == upTo[x] == EntriesOf(m, lists[i])[x - b];
    }
  }

  /** The entries of list p are those from b up to e. */
  ghost predicate ListAt(m: Memory, es: seq<nat>, p: nat, b: nat, e: nat) {
    && p < |m| && IsWeakList(m[p]) && e == b + m[p].kind.length && e <= |es|
    && forall x: nat | b <= x < e :: es[x] == p + 1 + (x - b)
  }

  /** Where the entries of each list begin. */
  ghost predicate EntriesLaid(m: Memory, lists: seq<nat>, es: seq<nat>, at: seq<nat>) {
    && |at| == |lists| + 1 && at[0] == 0 && at[|lists|] == |es|
    && forall i: nat {:trigger at[i]} | i < |lists| :: ListAt(m, es, lists[i], at[i], at[i + 1])
  }

  lemma {:induction false} LayEntries(m: Memory, lists: seq<nat>) returns (at: seq<nat>)
    requires forall p | p in lists :: p < |m| && IsWeakList(m[p])
    ensures EntriesLaid(m, lists, AllEntries(m, lists), at)
  {
    at := seq(|lists| + 1, i requires 0 <= i <= |lists| => |AllEntries(m, lists[..i])|);
    assert lists[..0] == [] && lists[..|lists|] == lists;
    forall i: nat | i < |lists| ensures ListAt(m, AllEntries(m, lists), lists[i], at[i], at[i + 1]) {
      assert lists[i] in lists;
      EntryAt(m, lists, i);
    }
  }

  lemma {:induction false} WhoseEntry(m: Memory, lists: seq<nat>, c: nat)
    ensures c in AllEntries(m, lists) <==> exists p :: p in lists && c in EntriesOf(m, p)
  {
    if lists != [] {
      var last := |lists| - 1;
      assert lists == lists[..last] + [lists[last]];
      WhoseEntry(m, lists[..last], c);
    }
  }

  ghost predicate RoomForEntries(m: Memory, starts: set<nat>, p: nat) {
    p in starts && p < |m| && p + |EntriesOf(m, p)| < End(m, p)
  }

  /** The entries of different lists are different cells. */
  lemma {:induction false} EntriesOnce(m: Memory, starts: set<nat>, lists: seq<nat>)
    requires Tiled(m, starts) && Once(lists) && forall p | p in lists :: RoomForEntries(m, starts, p)
    ensures Once(AllEntries(m, lists))
  {
    if lists != [] {
      var last := |lists| - 1;
      var before, own := AllEntries(m, lists[..last]), EntriesOf(m, lists[last]);
      EntriesOnce(m, starts, lists[..last]);
      forall i, j | 0 <= i < |before| && 0 <= j < |own| ensures before[i] != own[j] {
        WhoseEntry(m, lists[..last], before[i]);
        var p :| p in lists[..last] && before[i] in EntriesOf(m, p);
        assert p in lists && p != lists[last];
        Apart(m, starts, p, lists[last], before[i], own[j]);
      }
    }
  }

  lemma {:induction false} Apart(m: Memory, starts: set<nat>, p: nat, q: nat, c: nat, d: nat)
    requires Tiled(m, starts) && RoomForEntries(m, starts, p) && RoomForEntries(m, starts, q) && p != q
    requires c in EntriesOf(m, p) && d in EntriesOf(m, q)
    ensures c != d
  {
    assert BlockOk(m, starts, p) && BlockOk(m, starts, q);
  }
}
