/** Marking: `ComputeReachabilityGraphForMultipleBlocks`, `MarkSlow` and `Mark`.

    The marker keeps pending field lists on an explicit stack that may refuse to grow.  A
    list that does not fit is dropped, and the heap is rescanned later.  The theorem is that
    the marks are nevertheless exact: a block is marked if and only if it is reachable. */
module Marking {
  import opened HeapModel

  // ---------------------------------------------------------------- the object graph

  /** The number of cells after the header that hold the fields the marker follows. */
  function NumFields(c: Cell): nat {
    match c.kind
    case Class => if c.size > 0 then c.size - 1 else 0
    case SzArray(fReference, n) => if fReference then n else 0
    case DelegateHead => 1
    case DelegateList(weak, n) => if weak then 0 else n
    case _ => 0
  }

  /** A cell that may appear in a field list: it holds a reference to a live block, or plain data. */
  ghost predicate FieldOk(m: Memory, starts: set<nat>, c: nat) {
    && c < |m| && c !in starts
    && (m[c].kind.Reference? || m[c].kind.Opaque?)
    && (m[c].kind.Reference? && m[c].target.To? ==> Live(m, starts, m[c].target.addr))
  }

  ghost predicate BlockGraphOk(m: Memory, starts: set<nat>, p: nat)
    requires p < |m|
  {
    && !m[p].kind.Reference?
    && (m[p].IsEvent() ==> m[p].IsAlive() && NumFields(m[p]) == 0 && !m[p].kind.DelegateList?)
    && NumFields(m[p]) < m[p].size
    && forall c | c in Fields(m, p) :: FieldOk(m, starts, c)
  }

  function Fields(m: Memory, p: nat): set<nat>
    requires p < |m|
  {
    Interval(p + 1, p + 1 + NumFields(m[p]))
  }

  /** The heap as the marker expects it: fields lie inside their block and refer to live blocks.
      Blocks of the event heap are always alive; the references they hold are presented as roots. */
  ghost predicate GraphOk(m: Memory, starts: set<nat>) {
    && Tiled(m, starts)
    && forall p: nat {:trigger BlockGraphOk(m, starts, p)} | Live(m, starts, p) :: BlockGraphOk(m, starts, p)
  }

  /** Cell c refers to block q, which the collector manages. */
  ghost predicate Refers(m: Memory, c: nat, q: nat) {
    && c < |m| && m[c].kind.Reference? && m[c].target == To(q)
    && q < |m| && !m[q].IsEvent()
  }

  ghost predicate Edge(m: Memory, p: nat, q: nat) {
    p < |m| && exists c :: c in Fields(m, p) && Refers(m, c, q)
  }

  ghost predicate ReachIn(m: Memory, roots: set<nat>, n: nat, q: nat) {
    if n == 0 then q in roots else exists p: nat :: ReachIn(m, roots, n - 1, p) && Edge(m, p, q)
  }

  /** There is a path of field references from one of the root blocks to q. */
  ghost predicate Reachable(m: Memory, roots: set<nat>, q: nat) {
    exists n: nat :: ReachIn(m, roots, n, q)
  }

  lemma {:induction false} ReachStep(m: Memory, roots: set<nat>, p: nat, q: nat)
    requires Reachable(m, roots, p) && Edge(m, p, q)
    ensures Reachable(m, roots, q)
  {
    var n: nat :| ReachIn(m, roots, n, p);
    assert ReachIn(m, roots, n + 1, q);
  }

  lemma {:induction false} ReachRoot(m: Memory, roots: set<nat>, q: nat)
    requires q in roots
    ensures Reachable(m, roots, q)
  {
    assert ReachIn(m, roots, 0, q);
  }

  /** A set that holds the roots and is closed under edges holds everything reachable. */
  lemma {:induction false} ClosedHoldsReachable(m: Memory, roots: set<nat>, closed: set<nat>, q: nat)
    requires roots <= closed
    requires forall p, r | p in closed && Edge(m, p, r) :: r in closed
    requires Reachable(m, roots, q)
    ensures q in closed
  {
    var n: nat :| ReachIn(m, roots, n, q);
    ClosedHoldsReachIn(m, roots, closed, n, q);
  }

  lemma {:induction false} ClosedHoldsReachIn(m: Memory, roots: set<nat>, closed: set<nat>, n: nat, q: nat)
    requires roots <= closed
    requires forall p, r | p in closed && Edge(m, p, r) :: r in closed
    requires ReachIn(m, roots, n, q)
    ensures q in closed
  {
    if n > 0 {
      var p: nat :| ReachIn(m, roots, n - 1, p) && Edge(m, p, q);
      ClosedHoldsReachIn(m, roots, closed, n - 1, p);
    }
  }

  // ---------------------------------------------------------------- marks

  /** The memories differ at most in marks, and `m` has all the marks of `m0`. */
  ghost predicate SameGraph(m0: Memory, m: Memory) {
    |m| == |m0| && forall x | 0 <= x < |m| :: m[x] == m0[x] || m[x] == m0[x].MarkAlive()
  }

  /** Block p, which the collector manages, is marked. */
  ghost predicate Marked(m: Memory, starts: set<nat>, p: nat) {
    Live(m, starts, p) && !m[p].IsEvent() && m[p].IsAlive()
  }

  /** Free blocks are never marked. */
  ghost predicate FreeDead(m: Memory, starts: set<nat>) {
    forall p | p in starts && p < |m| && m[p].IsFree() :: !m[p].IsAlive()
  }

  /** Every managed block that cell c refers to is marked in m. */
  ghost predicate Served(m0: Memory, m: Memory, c: nat) {
    forall q: nat | Refers(m0, c, q) :: q < |m| && m[q].IsAlive()
  }

  /** The blocks not marked yet. */
  ghost function Unmarked(m: Memory, starts: set<nat>): set<nat> {
    set p | p in starts && p < |m| && !m[p].IsAlive()
  }

  // ---------------------------------------------------------------- the pending work

  /** An entry of the mark stack: `num` consecutive cells from `ptr` on are still to be visited. */
  datatype MarkStackElement = MarkStackElement(ptr: nat, num: nat)

  /** The marker's whole agenda: the stack and the list in hand. */
  datatype Work = Work(stack: seq<MarkStackElement>, lst: nat, num: nat)

  ghost function StackCells(stack: seq<MarkStackElement>): set<nat> {
    if stack == [] then {}
    else var top := stack[|stack| - 1]; StackCells(stack[..|stack| - 1]) + Interval(top.ptr, top.ptr + top.num)
  }

  ghost function StackTotal(stack: seq<MarkStackElement>): nat {
    if stack == [] then 0 else StackTotal(stack[..|stack| - 1]) + stack[|stack| - 1].num
  }

  /** The list in hand is a single block header rather than field cells. */
  ghost predicate Head(starts: set<nat>, lst: nat, num: nat) {
    num == 1 && lst in starts
  }

  ghost function ListCells(starts: set<nat>, lst: nat, num: nat): set<nat> {
    if Head(starts, lst, num) then {} else Interval(lst, lst + num)
  }

  ghost function Pending(starts: set<nat>, w: Work): set<nat> {
    StackCells(w.stack) + ListCells(starts, w.lst, w.num)
  }

  /** What one call of the marker works on: the graph, the root blocks, the marks on entry and
      the list it was given. */
  datatype Call = Call(m0: Memory, starts: set<nat>, roots: set<nat>, entry: Memory, lst: nat, num: nat)

  /** Visiting cell c can only reach reachable blocks. */
  ghost predicate Justified(k: Call, c: nat) {
    FieldOk(k.m0, k.starts, c) && forall q: nat | Refers(k.m0, c, q) :: Reachable(k.m0, k.roots, q)
  }

  ghost predicate HeadJustified(k: Call, p: nat) {
    Live(k.m0, k.starts, p) && (k.m0[p].IsEvent() || Reachable(k.m0, k.roots, p))
  }

  ghost predicate ListJustified(k: Call, lst: nat, num: nat) {
    if Head(k.starts, lst, num) then HeadJustified(k, lst)
    else forall c {:trigger Justified(k, c)} | c in Interval(lst, lst + num) :: Justified(k, c)
  }

  /** The block cell c refers to is marked, or is the header in hand. */
  ghost predicate ServedOrInHand(k: Call, m: Memory, w: Work, c: nat) {
    forall q: nat | Refers(k.m0, c, q) ::
      q < |m| && (m[q].IsAlive() || (Head(k.starts, w.lst, w.num) && w.lst == q))
  }

  /** Every field of block p has been visited or is on the agenda. */
  ghost predicate Expanded(k: Call, m: Memory, w: Work, p: nat) {
    p < |k.m0| && forall c | c in Fields(k.m0, p) :: c in Pending(k.starts, w) || ServedOrInHand(k, m, w, c)
  }

  ghost predicate NewlyMarked(k: Call, m: Memory, p: nat) {
    Marked(m, k.starts, p) && !Marked(k.entry, k.starts, p)
  }

  ghost predicate Sound(k: Call, m: Memory) {
    && SameGraph(k.m0, m) && SameGraph(k.entry, m) && SameGraph(k.m0, k.entry)
    && forall p: nat | NewlyMarked(k, m, p) :: Reachable(k.m0, k.roots, p)
  }

  /** No cell of the given list is forgotten, whatever is dropped: it can be lost only with the
      list in hand, and that is dropped only when it is long and the stack is not empty. */
  ghost predicate GivenListKept(k: Call, m: Memory, w: Work) {
    if Head(k.starts, k.lst, k.num) then
      (k.lst < |m| && m[k.lst].IsAlive()) || (Head(k.starts, w.lst, w.num) && w.lst == k.lst)
    else
      forall c | c in Interval(k.lst, k.lst + k.num) ::
        || c in StackCells(w.stack)
        || (c in ListCells(k.starts, w.lst, w.num) && (w.stack == [] || w.num <= 1))
        || ServedOrInHand(k, m, w, c)
  }

  /** The marker's loop invariant.  `done` are the headers processed in this call. */
  ghost predicate Inv(k: Call, m: Memory, w: Work, done: set<nat>, dropped: bool) {
    && GraphOk(k.m0, k.starts)
    && Sound(k, m) && FreeDead(m, k.starts)
    && (forall c {:trigger Justified(k, c)} | c in StackCells(w.stack) :: Justified(k, c))
    && ListJustified(k, w.lst, w.num)
    && (forall p: nat | NewlyMarked(k, m, p) :: p in done)
    && (!dropped ==> forall p {:trigger Expanded(k, m, w, p)} | p in done :: Expanded(k, m, w, p))
    && GivenListKept(k, m, w)
    && (Head(k.starts, k.lst, k.num) ==> k.lst in done || (Head(k.starts, w.lst, w.num) && w.lst == k.lst))
    && (dropped || (w.num > 1 && w.stack != []) ==> exists p: nat :: NewlyMarked(k, m, p))
    && (Head(k.starts, w.lst, w.num) && w.lst < |m| && m[w.lst].IsAlive() ==> w.stack == [])
    && (forall i | 0 <= i < |w.stack| :: w.stack[i].num >= 1)
  }

  /** The stack once the first cell of its top element has been taken. */
  function Popped(stack: seq<MarkStackElement>): seq<MarkStackElement>
    requires stack != []
  {
    var n := |stack| - 1;
    if stack[n].num <= 1 then stack[..n] else stack[n := MarkStackElement(stack[n].ptr + 1, stack[n].num - 1)]
  }

  lemma {:induction false} PoppedCells(stack: seq<MarkStackElement>)
    requires stack != [] && forall i | 0 <= i < |stack| :: stack[i].num >= 1
    ensures StackCells(stack) == StackCells(Popped(stack)) + {stack[|stack| - 1].ptr}
    ensures StackTotal(stack) == StackTotal(Popped(stack)) + 1
    ensures forall i | 0 <= i < |Popped(stack)| :: Popped(stack)[i].num >= 1
  {
    var n := |stack| - 1;
    if stack[n].num > 1 {
      assert Popped(stack)[..n] == stack[..n];
    }
  }

  lemma {:induction false} PushedCells(stack: seq<MarkStackElement>, e: MarkStackElement)
    ensures StackCells(stack + [e]) == StackCells(stack) + Interval(e.ptr, e.ptr + e.num)
    ensures StackTotal(stack + [e]) == StackTotal(stack) + e.num
  {
    assert (stack + [e])[..|stack|] == stack;
  }

  lemma {:induction false} PopStep(k: Call, m: Memory, w: Work, done: set<nat>, dropped: bool)
    requires Inv(k, m, w, done, dropped) && w.num == 0 && w.stack != []
    ensures
      var ptr := w.stack[|w.stack| - 1].ptr;
      && Inv(k, m, Work(Popped(w.stack), ptr, 1), done, dropped)
      && ptr !in k.starts && StackTotal(Popped(w.stack)) + 1 == StackTotal(w.stack)
  {
    var ptr := w.stack[|w.stack| - 1].ptr;
    var w' := Work(Popped(w.stack), ptr, 1);
    PoppedCells(w.stack);
    assert Justified(k, ptr);
    PoppedPending(k.starts, w, w');
    SamePending(k, m, w, w', done, dropped);
    PopGiven(k, m, w, w');
  }

  /** The cell popped is in hand now, and still on the agenda. */
  lemma PoppedPending(starts: set<nat>, w: Work, w': Work)
    requires w.num == 0 && w'.num == 1 && w'.lst !in starts && StackCells(w.stack) == StackCells(w'.stack) + {w'.lst}
    ensures Pending(starts, w') == Pending(starts, w)
    ensures !Head(starts, w.lst, w.num) && !Head(starts, w'.lst, w'.num)
  {
    assert ListCells(starts, w'.lst, w'.num) == {w'.lst};
  }

  /** With the same cells on the agenda, and no header in hand, the same blocks are expanded. */
  lemma {:induction false} SamePending(k: Call, m: Memory, w: Work, w': Work, done: set<nat>, dropped: bool)
    requires Pending(k.starts, w') == Pending(k.starts, w)
    requires !Head(k.starts, w.lst, w.num) && !Head(k.starts, w'.lst, w'.num)
    requires !dropped ==> forall p {:trigger Expanded(k, m, w, p)} | p in done :: Expanded(k, m, w, p)
    ensures !dropped ==> forall p {:trigger Expanded(k, m, w', p)} | p in done :: Expanded(k, m, w', p)
  {
    forall p | !dropped && p in done ensures Expanded(k, m, w', p) {
      assert Expanded(k, m, w, p);
      forall c | c in Fields(k.m0, p) && c !in Pending(k.starts, w') ensures ServedOrInHand(k, m, w', c) {
        assert ServedOrInHand(k, m, w, c);
      }
    }
  }

  lemma {:induction false} PopGiven(k: Call, m: Memory, w: Work, w': Work)
    requires GivenListKept(k, m, w) && w.num == 0 && w.stack != []
               && w' == Work(Popped(w.stack), w.stack[|w.stack| - 1].ptr, 1)
    requires w'.lst !in k.starts && StackCells(w.stack) == StackCells(w'.stack) + {w'.lst}
    ensures GivenListKept(k, m, w')
  {
    if !Head(k.starts, k.lst, k.num) {
      forall c | c in Interval(k.lst, k.lst + k.num) && c !in StackCells(w'.stack) && c != w'.lst
        ensures ServedOrInHand(k, m, w', c)
      {
        assert ServedOrInHand(k, m, w, c);
      }
    }
  }

  lemma {:induction false} PushStep(k: Call, m: Memory, w: Work, done: set<nat>, dropped: bool)
    requires Inv(k, m, w, done, dropped) && w.num > 1
    ensures
      var stack' := w.stack + [MarkStackElement(w.lst + 1, w.num - 1)];
      && Inv(k, m, Work(stack', w.lst, 1), done, dropped)
      && w.lst !in k.starts && StackTotal(stack') + 1 == StackTotal(w.stack) + w.num
  {
    var e := MarkStackElement(w.lst + 1, w.num - 1);
    var w' := Work(w.stack + [e], w.lst, 1);
    PushedCells(w.stack, e);
    assert Justified(k, w.lst);
    assert forall c | c in Interval(e.ptr, e.ptr + e.num) :: Justified(k, c);
    assert Pending(k.starts, w') == Pending(k.starts, w);
    SamePending(k, m, w, w', done, dropped);
    PushGiven(k, m, w, w');
  }

  lemma {:induction false} PushGiven(k: Call, m: Memory, w: Work, w': Work)
    requires GivenListKept(k, m, w) && w.num > 1 && w'.num == 1 && w'.lst == w.lst && w.lst !in k.starts
    requires StackCells(w'.stack) == StackCells(w.stack) + Interval(w.lst + 1, w.lst + w.num)
    ensures GivenListKept(k, m, w')
  {
    if !Head(k.starts, k.lst, k.num) {
      forall c | c in Interval(k.lst, k.lst + k.num) && c !in StackCells(w'.stack) && c != w'.lst
        ensures ServedOrInHand(k, m, w', c)
      {
        assert ServedOrInHand(k, m, w, c);
      }
    }
  }

  /** No room on the stack: the list in hand is forgotten. */
  lemma {:induction false} DropStep(k: Call, m: Memory, w: Work, done: set<nat>, dropped: bool)
    requires Inv(k, m, w, done, dropped) && w.num > 1 && w.stack != []
    ensures Inv(k, m, Work(w.stack, 0, 0), done, true)
    ensures Cost(k.starts, Work(w.stack, 0, 0)) < Cost(k.starts, w)
  {
  }

  lemma {:induction false} FieldMarks(k: Call, m: Memory, c: nat, m': Memory)
    requires c < |m| && c !in k.starts && m' == m[c := m[c].MarkAlive()]
    ensures SameGraph(k.m0, m) ==> SameGraph(k.m0, m')
    ensures SameGraph(k.entry, m) ==> SameGraph(k.entry, m')
    ensures FreeDead(m, k.starts) ==> FreeDead(m', k.starts)
    ensures forall p: nat :: NewlyMarked(k, m', p) <==> NewlyMarked(k, m, p)
    ensures Unmarked(m', k.starts) == Unmarked(m, k.starts)
  {
  }

  lemma {:induction false} FieldStep(k: Call, m: Memory, w: Work, done: set<nat>, dropped: bool)
      returns (m': Memory, w': Work)
    requires Inv(k, m, w, done, dropped) && w.num == 1 && w.lst !in k.starts
    ensures w.lst < |m| && m' == m[w.lst := m[w.lst].MarkAlive()]
    ensures
      var c := m[w.lst];
      && (c.kind.Reference? && c.target.To? ==> c.target.addr < |m| && c.target.addr in k.starts)
      && w' == (if c.kind.Reference? && c.target.To? && !m'[c.target.addr].IsAlive()
                then Work(w.stack, c.target.addr, 1)
                else Work(w.stack, 0, 0))
    ensures m[w.lst].kind.Reference? || m[w.lst].kind.Opaque?
    ensures Inv(k, m', w', done, dropped)
    ensures Unmarked(m', k.starts) == Unmarked(m, k.starts)
  {
    var c := w.lst;
    assert c in Interval(w.lst, w.lst + w.num);
    assert Justified(k, c);
    m' := m[c := m[c].MarkAlive()];
    var t := m[c].target;
    w' := if m[c].kind.Reference? && t.To? && !m'[t.addr].IsAlive() then Work(w.stack, t.addr, 1)
          else Work(w.stack, 0, 0);
    FieldMarks(k, m, c, m');
    FieldServes(k, m, w, m', w');
    FieldExpands(k, m, w, done, dropped, m', w');
    FieldGiven(k, m, w, m', w');
  }

  /** Cell `w.lst` has been visited: the block it refers to is marked or in hand. */
  ghost predicate FieldVisited(k: Call, m: Memory, w: Work, m': Memory, w': Work) {
    && w.num == 1 && w.lst !in k.starts && w.lst < |m| && w'.stack == w.stack
    && ServedOrInHand(k, m', w', w.lst)
    && (forall x: nat | ServedOrInHand(k, m, w, x) :: ServedOrInHand(k, m', w', x))
    && (forall x | x in Pending(k.starts, w) && x != w.lst :: x in Pending(k.starts, w'))
  }

  lemma {:induction false} FieldServes(k: Call, m: Memory, w: Work, m': Memory, w': Work)
    requires SameGraph(k.m0, m) && GraphOk(k.m0, k.starts) && w.num == 1 && w.lst !in k.starts && w.lst < |m|
    requires Justified(k, w.lst) && m' == m[w.lst := m[w.lst].MarkAlive()]
    requires m[w.lst].kind.Reference? && m[w.lst].target.To? ==>
               m[w.lst].target.addr < |m| && m[w.lst].target.addr in k.starts
    requires w' == (if m[w.lst].kind.Reference? && m[w.lst].target.To? && !m'[m[w.lst].target.addr].IsAlive()
                    then Work(w.stack, m[w.lst].target.addr, 1)
                    else Work(w.stack, 0, 0))
    ensures FieldVisited(k, m, w, m', w')
  {
    forall x: nat | ServedOrInHand(k, m, w, x) ensures ServedOrInHand(k, m', w', x) {
      forall q: nat | Refers(k.m0, x, q) ensures q < |m'| && m'[q].IsAlive() {
        assert m[q].IsAlive();
      }
    }
  }

  lemma {:induction false} FieldExpands(k: Call, m: Memory, w: Work, done: set<nat>, dropped: bool, m': Memory,
      w': Work)
    requires FieldVisited(k, m, w, m', w')
    requires !dropped ==> forall p {:trigger Expanded(k, m, w, p)} | p in done :: Expanded(k, m, w, p)
    ensures !dropped ==> forall p {:trigger Expanded(k, m', w', p)} | p in done :: Expanded(k, m', w', p)
  {
    forall p | !dropped && p in done ensures Expanded(k, m', w', p) {
      assert Expanded(k, m, w, p);
      forall c | c in Fields(k.m0, p) && c !in Pending(k.starts, w') ensures ServedOrInHand(k, m', w', c) {
        assert c == w.lst || ServedOrInHand(k, m, w, c);
      }
    }
  }

  lemma {:induction false} FieldGiven(k: Call, m: Memory, w: Work, m': Memory, w': Work)
    requires FieldVisited(k, m, w, m', w') && GivenListKept(k, m, w) && m' == m[w.lst := m[w.lst].MarkAlive()]
    ensures GivenListKept(k, m', w')
  {
    if !Head(k.starts, k.lst, k.num) {
      forall c | c in Interval(k.lst, k.lst + k.num) && c !in StackCells(w'.stack)
        ensures ServedOrInHand(k, m', w', c)
      {
        assert c == w.lst || ServedOrInHand(k, m, w, c);
      }
    }
  }

  lemma {:induction false} HeadStep(k: Call, m: Memory, w: Work, done: set<nat>, dropped: bool, w': Work)
      returns (m': Memory)
    requires Inv(k, m, w, done, dropped) && Head(k.starts, w.lst, w.num)
    requires w.lst < |m| && w'.stack == w.stack && w'.num == NumFields(m[w.lst]) && (w'.num > 0 ==> w'.lst == w.lst + 1)
    ensures m' == m[w.lst := m[w.lst].MarkAlive()]
    ensures Inv(k, m', w', done + {w.lst}, dropped)
    ensures !Head(k.starts, w'.lst, w'.num)
    ensures m[w.lst].IsAlive() ==> Unmarked(m', k.starts) == Unmarked(m, k.starts)
    ensures !m[w.lst].IsAlive() ==> Unmarked(m', k.starts) < Unmarked(m, k.starts)
  {
    var p := w.lst;
    m' := m[p := m[p].MarkAlive()];
    assert BlockGraphOk(k.m0, k.starts, p);
    HeadFields(k, w, w');
    HeadMarks(k, m, w, m', w');
    var done' := done + {p};
    if !dropped {
      forall x | x in done' ensures Expanded(k, m', w', x) {
        if x != p { assert Expanded(k, m, w, x); }
      }
    }
    assert p in Unmarked(m, k.starts) <==> !m[p].IsAlive();
    assert Unmarked(m', k.starts) == Unmarked(m, k.starts) - {p};
  }

  lemma {:induction false} HeadFields(k: Call, w: Work, w': Work)
    requires GraphOk(k.m0, k.starts) && Head(k.starts, w.lst, w.num) && ListJustified(k, w.lst, w.num)
    requires w.lst < |k.m0| && w'.num == NumFields(k.m0[w.lst]) && (w'.num > 0 ==> w'.lst == w.lst + 1)
    ensures !Head(k.starts, w'.lst, w'.num)
    ensures ListCells(k.starts, w'.lst, w'.num) == Fields(k.m0, w.lst)
    ensures ListJustified(k, w'.lst, w'.num)
  {
    var p := w.lst;
    assert BlockGraphOk(k.m0, k.starts, p);
    assert w'.num == 1 ==> p + 1 in Fields(k.m0, p);
    forall c | c in Fields(k.m0, p) ensures Justified(k, c) {
      assert FieldOk(k.m0, k.starts, c);
      forall q: nat | Refers(k.m0, c, q) ensures Reachable(k.m0, k.roots, q) {
        assert Edge(k.m0, p, q);
        ReachStep(k.m0, k.roots, p, q);
      }
    }
  }

  lemma {:induction false} HeadMarks(k: Call, m: Memory, w: Work, m': Memory, w': Work)
    requires GraphOk(k.m0, k.starts) && Sound(k, m) && Head(k.starts, w.lst, w.num) && ListJustified(k, w.lst, w.num)
    requires w.lst < |m| && m' == m[w.lst := m[w.lst].MarkAlive()]
    ensures Sound(k, m')
    ensures forall p: nat | NewlyMarked(k, m, p) :: NewlyMarked(k, m', p)
    ensures forall p: nat | NewlyMarked(k, m', p) :: p == w.lst || NewlyMarked(k, m, p)
    ensures !m[w.lst].IsAlive() ==> NewlyMarked(k, m', w.lst)
  {
    assert BlockGraphOk(k.m0, k.starts, w.lst);
  }

  // ---------------------------------------------------------------- the marker object

  /** The elements of the mark stack's first segment; one of them is the sentinel. */
  const MINIMUM_SPACE_FOR_GC: nat := 128

  predicate IsWeakList(c: Cell) {
    c.kind.DelegateList? && c.kind.weak
  }

  ghost predicate Once(s: seq<nat>) {
    forall i, j | 0 <= i < j < |s| :: s[i] != s[j]
  }

  /** `weak` lists exactly the marked weak delegate lists, each of them once. */
  ghost predicate WeakOk(m: Memory, starts: set<nat>, weak: seq<nat>) {
    && Once(weak)
    && forall p: nat :: p in weak <==> Marked(m, starts, p) && IsWeakList(m[p])
  }

  /** What a call has achieved when nothing is pending any more. */
  ghost predicate GivenListServed(k: Call, m: Memory) {
    if Head(k.starts, k.lst, k.num) then k.lst < |m| && m[k.lst].IsAlive()
    else forall c | c in Interval(k.lst, k.lst + k.num) :: Served(k.m0, m, c)
  }

  /** The blocks that the call marked, and the header it was given, refer to marked blocks only. */
  ghost predicate NewlyClosed(k: Call, m: Memory) {
    forall p: nat, c | (NewlyMarked(k, m, p) || (Head(k.starts, k.lst, k.num) && p == k.lst)) && p < |k.m0|
        && c in Fields(k.m0, p)
      :: Served(k.m0, m, c)
  }

  lemma {:induction false} AgendaEmpty(k: Call, m: Memory, w: Work, done: set<nat>, dropped: bool)
    requires Inv(k, m, w, done, dropped) && w.num == 0 && w.stack == []
    ensures Sound(k, m) && GivenListServed(k, m) && FreeDead(m, k.starts)
    ensures !dropped ==> NewlyClosed(k, m)
  {
    if !Head(k.starts, k.lst, k.num) {
      forall c | c in Interval(k.lst, k.lst + k.num) ensures Served(k.m0, m, c) {
        assert ServedOrInHand(k, m, w, c);
      }
    }
    if !dropped {
      forall p: nat, c | (NewlyMarked(k, m, p) || (Head(k.starts, k.lst, k.num) && p == k.lst)) && p < |k.m0|
          && c in Fields(k.m0, p)
        ensures Served(k.m0, m, c)
      {
        assert Expanded(k, m, w, p);
        assert ServedOrInHand(k, m, w, c);
      }
    }
  }

  lemma {:induction false} CallStarts(k: Call)
    requires GraphOk(k.m0, k.starts) && SameGraph(k.m0, k.entry) && FreeDead(k.entry, k.starts)
               && ListJustified(k, k.lst, k.num)
    ensures Inv(k, k.entry, Work([], k.lst, k.num), {}, false)
  {
    if !Head(k.starts, k.lst, k.num) {
      assert ListCells(k.starts, k.lst, k.num) == Interval(k.lst, k.lst + k.num);
    }
  }

  /** The number of field cells on the agenda. */
  ghost function Cost(starts: set<nat>, w: Work): nat {
    StackTotal(w.stack) + if Head(starts, w.lst, w.num) then 0 else w.num
  }

  lemma {:induction false} CallShrinks(k: Call, m: Memory, w: Work, done: set<nat>, dropped: bool)
    requires Inv(k, m, w, done, dropped)
    ensures Unmarked(m, k.starts) <= Unmarked(k.entry, k.starts)
    ensures dropped ==> Unmarked(m, k.starts) < Unmarked(k.entry, k.starts)
  {
    assert Unmarked(m, k.starts) <= Unmarked(k.entry, k.starts);
    if dropped {
      var p: nat :| NewlyMarked(k, m, p);
      assert p in Unmarked(k.entry, k.starts);
    }
  }

  /** The marker's termination order: blocks still to be marked first, then cells still to be visited. */
  ghost predicate Progress(starts: set<nat>, m: Memory, w: Work, m': Memory, w': Work) {
    var head, head' := Head(starts, w.lst, w.num), Head(starts, w'.lst, w'.num);
    var again, again' := head && w.lst < |m| && m[w.lst].IsAlive(), head' && w'.lst < |m'| && m'[w'.lst].IsAlive();
    if again || again' then again && !again'
    else
      || Unmarked(m', starts) < Unmarked(m, starts)
      || (Unmarked(m', starts) == Unmarked(m, starts)
          && (Cost(starts, w') < Cost(starts, w) || (Cost(starts, w') == Cost(starts, w) && head && !head')))
  }

  /** w' has the next cell of the agenda w in hand. */
  ghost predicate NextFrom(w: Work, w': Work) {
    && w'.num == 1
    && if w.num == 0 then w.stack != [] && w'.stack == Popped(w.stack) && w'.lst == w.stack[|w.stack| - 1].ptr
       else if w.num == 1 then w' == w
       else w'.stack == w.stack + [MarkStackElement(w.lst + 1, w.num - 1)] && w'.lst == w.lst
  }

  /** What is to be visited after cell p. */
  ghost predicate VisitedTo(m: Memory, p: nat, lst: nat, num: nat)
    requires p < |m| && (m[p].kind.Reference? && m[p].target.To? ==> m[p].target.addr < |m|)
  {
    var c := m[p];
    if c.kind.Reference? then
      if c.target.To? && !m[c.target.addr].IsAlive() then lst == c.target.addr && num == 1 else lst == num == 0
    else num == NumFields(c) && (num > 0 ==> lst == p + 1) && (c.kind.Opaque? ==> lst == 0)
  }

  class Marker {
    const mem: array<Cell>
    ghost const starts: set<nat>
    /** The memory when the collection started. */
    ghost const base: Memory
    var stack: seq<MarkStackElement>
    var capacity: nat
    var outOfStackSpace: bool
    var weakDelegatesReachable: seq<nat>

    constructor (memory: array<Cell>, ghost blockStarts: set<nat>)
      ensures mem == memory && starts == blockStarts && base == memory[..]
    {
      mem := memory;
      starts := blockStarts;
      base := memory[..];
      stack, capacity, outOfStackSpace, weakDelegatesReachable := [], MINIMUM_SPACE_FOR_GC - 1, false, [];
    }

    ghost predicate Valid()
      reads this, mem
    {
      && 1 <= capacity
      && GraphOk(base, starts) && SameGraph(base, mem[..]) && FreeDead(mem[..], starts)
      && WeakOk(mem[..], starts, weakDelegatesReachable)
    }

    method ComputeReachabilityGraphForMultipleBlocks(lst0: nat, num0: nat, ghost roots: set<nat>)
      requires Valid() && stack == []
      requires ListJustified(Call(base, starts, roots, mem[..], lst0, num0), lst0, num0)
      modifies this, mem
      ensures Valid() && stack == []
      ensures
        var k := Call(base, starts, roots, old(mem[..]), lst0, num0);
        && Sound(k, mem[..])
        && GivenListServed(k, mem[..])
        && (!outOfStackSpace ==> NewlyClosed(k, mem[..]))
      ensures old(outOfStackSpace) ==> outOfStackSpace
      ensures Unmarked(mem[..], starts) <= Unmarked(old(mem[..]), starts)
      ensures outOfStackSpace && !old(outOfStackSpace) ==> Unmarked(mem[..], starts) < Unmarked(old(mem[..]), starts)
    {
      ghost var k := Call(base, starts, roots, mem[..], lst0, num0);
      var lst: nat, num: nat := lst0, num0;
      ghost var done: set<nat>, dropped := {}, false;
      CallStarts(k);
      while true
        invariant 1 <= capacity
        invariant Inv(k, mem[..], Work(stack, lst, num), done, dropped)
        invariant WeakOk(mem[..], starts, weakDelegatesReachable)
        invariant outOfStackSpace == (dropped || old(outOfStackSpace))
        decreases Head(starts, lst, num) && lst < mem.Length && mem[lst].IsAlive(), Unmarked(mem[..], starts),
                  Cost(starts, Work(stack, lst, num)), Head(starts, lst, num)
      {
        if num == 0 && stack == [] { break; }
        lst, num, done, dropped := Turn(lst, num, k, done, dropped);
      }
      AgendaEmpty(k, mem[..], Work(stack, lst, num), done, dropped);
      CallShrinks(k, mem[..], Work(stack, lst, num), done, dropped);
    }

    /** One turn of the marker's loop: takes the next cell and visits it. */
    method Turn(lst: nat, num: nat, ghost k: Call, ghost done: set<nat>, ghost dropped: bool)
        returns (lst': nat, num': nat, ghost done': set<nat>, ghost dropped': bool)
      requires k.starts == starts && 1 <= capacity && !(num == 0 && stack == [])
      requires Inv(k, mem[..], Work(stack, lst, num), done, dropped)
      requires WeakOk(mem[..], starts, weakDelegatesReachable) && (dropped ==> outOfStackSpace)
      modifies this, mem
      ensures 1 <= capacity
      ensures Inv(k, mem[..], Work(stack, lst', num'), done', dropped')
      ensures WeakOk(mem[..], starts, weakDelegatesReachable)
      ensures dropped ==> dropped'
      ensures outOfStackSpace == (old(outOfStackSpace) || dropped')
      ensures Progress(starts, old(mem[..]), Work(old(stack), lst, num), mem[..], Work(stack, lst', num'))
    {
      ghost var m, w := mem[..], Work(stack, lst, num);
      var ptr, full := NextCell(lst, num);
      if full {
        // Out of stack space: ignore the list; the mark completes later in MarkSlow.
        DropStep(k, m, w, done, dropped);
        outOfStackSpace, dropped' := true, true;
        lst', num', done' := 0, 0, done;
      } else {
        lst', num', done' := Visit(ptr, k, w, done, dropped);
        dropped' := dropped;
      }
    }

    /** Visits the cell that comes next on the agenda w. */
    method Visit(ptr: nat, ghost k: Call, ghost w: Work, ghost done: set<nat>, ghost dropped: bool)
        returns (lst: nat, num: nat, ghost done': set<nat>)
      requires k.starts == starts && NextFrom(w, Work(stack, ptr, 1)) && Inv(k, mem[..], w, done, dropped)
      requires WeakOk(mem[..], starts, weakDelegatesReachable)
      modifies mem, this`weakDelegatesReachable
      ensures Inv(k, mem[..], Work(stack, lst, num), done', dropped)
      ensures WeakOk(mem[..], starts, weakDelegatesReachable)
      ensures Progress(starts, old(mem[..]), w, mem[..], Work(stack, lst, num))
    {
      ghost var m, w1 := mem[..], Work(stack, ptr, 1);
      NextBounds(k, m, w, done, dropped, w1);
      lst, num := MarkCell(ptr);
      done' := done + if ptr in starts then {ptr} else {};
      TurnStep(k, m, w, w1, done, dropped, Work(stack, lst, num), mem[..]);
      WeakStep(k, m, ptr, old(weakDelegatesReachable), weakDelegatesReachable);
    }

    /** Asks for another stack segment, smaller and smaller; the heap may refuse every time. */
    method Grow() returns (granted: bool)
      modifies this`capacity
      ensures granted ==> capacity > old(capacity)
      ensures !granted ==> capacity == old(capacity)
    {
      var elements: nat := MINIMUM_SPACE_FOR_GC;
      granted := false;
      while elements >= 1 && !granted
        invariant granted ==> capacity > old(capacity)
        invariant !granted ==> capacity == old(capacity)
      {
        granted := *;
        if granted { capacity := capacity + elements; }
        elements := elements / 2;
      }
    }

    /** Takes the next cell to visit from the list in hand or from the stack; `full` says that the
        rest of the list in hand could not be stacked. */
    method NextCell(lst: nat, num: nat) returns (ptr: nat, full: bool)
      requires 1 <= capacity && !(num == 0 && stack == [])
      modifies this`stack, this`capacity
      ensures 1 <= capacity
      ensures full ==> num > 1 && stack == old(stack) && stack != []
      ensures !full ==> NextFrom(Work(old(stack), lst, num), Work(stack, ptr, 1))
    {
      ptr, full := lst, false;
      if num == 0 {
        ptr := stack[|stack| - 1].ptr;
        stack := Popped(stack);
      } else if num > 1 {
        var room := |stack| < capacity;
        if !room && !outOfStackSpace { room := Grow(); }
        if room {
          stack := stack + [MarkStackElement(lst + 1, num - 1)];
        } else {
          full := true;
        }
      }
    }

    method MarkCell(ptr: nat) returns (lst: nat, num: nat)
      requires ptr < mem.Length
      requires mem[ptr].kind.Reference? && mem[ptr].target.To? ==> mem[ptr].target.addr < mem.Length
      modifies mem, this`weakDelegatesReachable
      ensures mem[..] == old(mem[..])[ptr := old(mem[ptr]).MarkAlive()]
      ensures VisitedTo(mem[..], ptr, lst, num)
      ensures weakDelegatesReachable ==
              if IsWeakList(mem[ptr]) && ptr !in old(weakDelegatesReachable) then old(weakDelegatesReachable) + [ptr]
              else old(weakDelegatesReachable)
    {
      lst, num := 0, 0;
      var sub := Null;
      mem[ptr] := mem[ptr].MarkAlive();
      match mem[ptr].kind {
        case Reference => sub := mem[ptr].target;
        case Class => if mem[ptr].size > 0 { lst, num := ptr + 1, mem[ptr].size - 1; }
        case SzArray(fReference, numOfElements) =>
          if fReference { lst, num := ptr + 1, numOfElements; }
        case DelegateHead => lst, num := ptr + 1, 1;
        case DelegateList(weak, length) =>
          if weak {
            if ptr !in weakDelegatesReachable { weakDelegatesReachable := weakDelegatesReachable + [ptr]; }
          } else {
            lst, num := ptr + 1, length;
          }
        case _ =>
      }
      if sub.To? && !mem[sub.addr].IsAlive() {
        lst, num := sub.addr, 1;
      }
    }

    /** Rescans the heap until a whole pass drops nothing. */
    method MarkSlow(ghost roots: set<nat>)
      requires Valid() && stack == []
      requires MarksSound(base, starts, roots, mem[..])
      requires !outOfStackSpace ==> ClosedHeap(base, starts, mem[..])
      modifies this, mem
      ensures Valid() && stack == [] && !outOfStackSpace
      ensures MarksSound(base, starts, roots, mem[..]) && ClosedHeap(base, starts, mem[..])
      ensures SameGraph(old(mem[..]), mem[..])
    {
      while outOfStackSpace
        invariant Valid() && stack == []
        invariant MarksSound(base, starts, roots, mem[..])
        invariant !outOfStackSpace ==> ClosedHeap(base, starts, mem[..])
        invariant SameGraph(old(mem[..]), mem[..])
        decreases Unmarked(mem[..], starts), outOfStackSpace
      {
        Rescan(roots);
      }
    }

    /** One pass over the heap: forces every marked block again. */
    method Rescan(ghost roots: set<nat>)
      requires Valid() && stack == []
      requires MarksSound(base, starts, roots, mem[..])
      modifies this, mem
      ensures Valid() && stack == []
      ensures MarksSound(base, starts, roots, mem[..])
      ensures !outOfStackSpace ==> ClosedHeap(base, starts, mem[..])
      ensures SameGraph(old(mem[..]), mem[..])
      ensures Unmarked(mem[..], starts) <= Unmarked(old(mem[..]), starts)
      ensures outOfStackSpace ==> Unmarked(mem[..], starts) < Unmarked(old(mem[..]), starts)
    {
      outOfStackSpace := false;
      ghost var first := mem[..];
      var ptr := 0;
      while ptr < mem.Length
        invariant 0 <= ptr <= mem.Length && (ptr == mem.Length || ptr in starts)
        invariant Valid() && stack == []
        invariant MarksSound(base, starts, roots, mem[..])
        invariant SameGraph(first, mem[..])
        invariant !outOfStackSpace ==> ClosedUpTo(base, starts, first, mem[..], ptr)
        invariant Unmarked(mem[..], starts) <= Unmarked(first, starts)
        invariant outOfStackSpace ==> Unmarked(mem[..], starts) < Unmarked(first, starts)
        decreases mem.Length - ptr
      {
        ghost var m := mem[..];
        assert BlockOk(base, starts, ptr);
        if mem[ptr].IsAlive() && !mem[ptr].IsEvent() {
          ForceStarts(base, starts, roots, m, ptr);
          ComputeReachabilityGraphForMultipleBlocks(ptr, 1, roots);
          RescanStep(Call(base, starts, roots, m, ptr, 1), first, mem[..], outOfStackSpace);
        } else {
          SkipStep(base, starts, first, m, ptr);
        }
        ptr := ptr + mem[ptr].size;
      }
    }

    /** Marks what one root refers to. */
    method CheckRoot(root: Root, ghost roots: set<nat>)
      requires Valid() && stack == []
      requires RootOk(base, starts, root) && forall q: nat | RootRefers(base, starts, root, q) :: q in roots
      requires MarksSound(base, starts, roots, mem[..])
      requires !outOfStackSpace ==> ClosedHeap(base, starts, mem[..])
      modifies this, mem
      ensures Valid() && stack == []
      ensures MarksSound(base, starts, roots, mem[..])
      ensures !outOfStackSpace ==> ClosedHeap(base, starts, mem[..])
      ensures SameGraph(old(mem[..]), mem[..])
      ensures RootServed(base, starts, root, mem[..])
    {
      var lst, num := 0, 0;
      match root {
        case Single(ptr) =>
          // ComputeReachabilityGraphForSingleBlock
          if ptr == Null || mem[ptr.addr].IsAlive() { return; }
          lst, num := ptr.addr, 1;
        case Multiple(l, n) => lst, num := l, n;
      }
      ghost var k := Call(base, starts, roots, mem[..], lst, num);
      RootStarts(k, root);
      ComputeReachabilityGraphForMultipleBlocks(lst, num, roots);
      RootDone(k, root, mem[..], outOfStackSpace);
    }

    /** Marks everything reachable, brings dead finalizable objects back for one last time, and
        says which finalizers are now due. */
    method Mark(roots: seq<Root>, finalizersAlive: seq<nat>) returns (pending: seq<nat>, remaining: seq<nat>)
      requires mem[..] == base && GraphOk(base, starts) && FreeDead(base, starts)
      requires forall p: nat :: !Marked(base, starts, p)
      requires forall root | root in roots :: RootOk(base, starts, root)
      requires forall p | p in finalizersAlive :: Managed(base, starts, p)
      modifies this, mem
      ensures Valid()
      ensures var due := Elements(pending);
              MarksExact(base, starts, RootBlocks(base, starts, roots) + due, mem[..])
      ensures ClosedHeap(base, starts, mem[..])
      ensures forall p | p in pending :: !Reachable(base, RootBlocks(base, starts, roots), p)
      ensures forall p | p in finalizersAlive :: Marked(mem[..], starts, p)
      ensures multiset(pending) + multiset(remaining) == multiset(finalizersAlive)
      ensures forall p: nat, x, q: nat | Marked(mem[..], starts, p) && Follows(base, p, x) && PointsTo(base, x, q) ::
                q < mem.Length && mem[..][q].flags.alive
      ensures forall root | root in roots :: NamedAlive(base, starts, root, mem[..])
    {
      outOfStackSpace := false;
      weakDelegatesReachable := [];
      stack, capacity := [], MINIMUM_SPACE_FOR_GC - 1;
      ghost var R := RootBlocks(base, starts, roots);
      MarkRoots(roots);
      pending, remaining := Resurrect(finalizersAlive, R);
      ghost var due := Elements(pending);
      MarkSlow(R + due);
      MarksExactFrom(base, starts, R + due, mem[..]);
      FollowedAreMarked(base, starts, mem[..]);
      forall root | root in roots ensures NamedAlive(base, starts, root, mem[..]) {
        NamedAreMarked(base, starts, roots, R + due, mem[..], root);
      }
    }

    method MarkRoots(roots: seq<Root>)
      requires Valid() && stack == [] && mem[..] == base && !outOfStackSpace
      requires forall p: nat :: !Marked(base, starts, p)
      requires forall root | root in roots :: RootOk(base, starts, root)
      modifies this, mem
      ensures Valid() && stack == [] && !outOfStackSpace
      ensures MarksSound(base, starts, RootBlocks(base, starts, roots), mem[..]) && ClosedHeap(base, starts, mem[..])
      ensures forall q | q in RootBlocks(base, starts, roots) ::
                Managed(base, starts, q) && q < mem.Length && mem[..][q].IsAlive()
    {
      ghost var R := RootBlocks(base, starts, roots);
      for i := 0 to |roots|
        invariant Valid() && stack == []
        invariant MarksSound(base, starts, R, mem[..])
        invariant !outOfStackSpace ==> ClosedHeap(base, starts, mem[..])
        invariant forall j | 0 <= j < i :: RootServed(base, starts, roots[j], mem[..])
      {
        ghost var m := mem[..];
        RootBlocksHold(base, starts, roots, i);
        CheckRoot(roots[i], R);
        forall j | 0 <= j < i ensures RootServed(base, starts, roots[j], mem[..]) {
          RootStaysServed(base, starts, roots[j], m, mem[..]);
        }
      }
      ghost var m := mem[..];
      MarkSlow(R);
      forall q | q in R ensures Managed(base, starts, q) && q < mem.Length && mem[..][q].IsAlive() {
        RootBlockAlive(base, starts, roots, m, q);
      }
    }

    method Resurrect(finalizersAlive: seq<nat>, ghost R: set<nat>) returns (pending: seq<nat>, remaining: seq<nat>)
      requires Valid() && stack == []
      requires !outOfStackSpace && MarksSound(base, starts, R, mem[..]) && ClosedHeap(base, starts, mem[..])
      requires forall q | q in R :: Managed(base, starts, q) && q < mem.Length && mem[..][q].IsAlive()
      requires forall p | p in finalizersAlive :: Managed(base, starts, p)
      modifies this, mem
      ensures Valid() && stack == []
      ensures var due := Elements(pending);
              && MarksSound(base, starts, R + due, mem[..])
              && (forall q | q in R + due :: Managed(base, starts, q) && q < mem.Length && mem[..][q].IsAlive())
      ensures !outOfStackSpace ==> ClosedHeap(base, starts, mem[..])
      ensures forall p | p in pending :: !Reachable(base, R, p)
      ensures forall p | p in finalizersAlive :: Marked(mem[..], starts, p)
      ensures multiset(pending) + multiset(remaining) == multiset(finalizersAlive)
    {
      ghost var m1 := mem[..];
      MarksExactFrom(base, starts, R, m1);
      pending, remaining := [], [];
      ghost var due: set<nat> := {};
      assert R + due == R;
      for i := 0 to |finalizersAlive|
        invariant Valid() && stack == []
        invariant due == Elements(pending)
        invariant SameGraph(m1, mem[..])
        invariant MarksSound(base, starts, R + due, mem[..])
        invariant !outOfStackSpace ==> ClosedHeap(base, starts, mem[..])
        invariant forall p | p in pending :: !Reachable(base, R, p) && Managed(base, starts, p)
        invariant forall j | 0 <= j < i :: Marked(mem[..], starts, finalizersAlive[j])
        invariant multiset(pending) + multiset(remaining) == multiset(finalizersAlive[..i])
      {
        var fin := finalizersAlive[i];
        assert finalizersAlive[..i + 1] == finalizersAlive[..i] + [fin];
        assert Managed(base, starts, fin);
        ghost var m := mem[..];
        var dead := CheckFinalizable(fin, R + due);
        NotMarkedYet(base, starts, R, m1, m, fin);
        if dead {
          assert Elements(pending + [fin]) == due + {fin};
          pending := pending + [fin];
          assert R + due + {fin} == R + (due + {fin});
          due := due + {fin};
        } else {
          remaining := remaining + [fin];
        }
      }
      assert finalizersAlive[..|finalizersAlive|] == finalizersAlive;
      ResurrectedAlive(base, starts, finalizersAlive, pending, remaining, mem[..]);
    }

    method CheckFinalizable(fin: nat, ghost roots: set<nat>) returns (dead: bool)
      requires Valid() && stack == [] && Managed(base, starts, fin)
      requires MarksSound(base, starts, roots, mem[..])
      requires !outOfStackSpace ==> ClosedHeap(base, starts, mem[..])
      modifies this, mem
      ensures Valid() && stack == []
      ensures dead == !old(mem[..])[fin].IsAlive()
      ensures MarksSound(base, starts, if dead then roots + {fin} else roots, mem[..])
      ensures !outOfStackSpace ==> ClosedHeap(base, starts, mem[..])
      ensures SameGraph(old(mem[..]), mem[..])
      ensures Marked(mem[..], starts, fin)
    {
      dead := !mem[fin].IsAlive();
      if dead {
        SoundForMore(base, starts, roots, roots + {fin}, mem[..]);
        CheckRoot(Single(To(fin)), roots + {fin});
        assert RootRefers(base, starts, Single(To(fin)), fin);
      }
    }
  }

  function Elements(s: seq<nat>): set<nat> {
    set p | p in s
  }

  lemma NotMarkedYet(m0: Memory, starts: set<nat>, R: set<nat>, m1: Memory, m: Memory, fin: nat)
    requires MarksExact(m0, starts, R, m1) && SameGraph(m0, m1) && SameGraph(m1, m) && Managed(m0, starts, fin)
    ensures !m[fin].IsAlive() ==> !Reachable(m0, R, fin)
  {
  }

  lemma ResurrectedAlive(m0: Memory, starts: set<nat>, all: seq<nat>, pending: seq<nat>, remaining: seq<nat>, m: Memory)
    requires multiset(pending) + multiset(remaining) == multiset(all)
    requires forall j | 0 <= j < |all| :: Marked(m, starts, all[j])
    ensures forall p | p in pending :: Marked(m, starts, p)
  {
    forall p | p in pending ensures Marked(m, starts, p) {
      assert p in multiset(pending) + multiset(remaining);
      assert p in multiset(all);
      assert p in all;
    }
  }

  // ---------------------------------------------------------------- roots

  /** A place the collector starts from: a pointer to a block, marked unless it already is; or a
      run of cells, or a block header that is visited whether or not it is already marked. */
  datatype Root = Single(ptr: Ref) | Multiple(lst: nat, num: nat)

  /** A live block outside the event heap. */
  ghost predicate Managed(m: Memory, starts: set<nat>, p: nat) {
    Live(m, starts, p) && !m[p].IsEvent()
  }

  ghost predicate RootOk(m: Memory, starts: set<nat>, root: Root) {
    match root
    case Single(ptr) => ptr.To? ==> Live(m, starts, ptr.addr)
    case Multiple(lst, num) =>
      if Head(starts, lst, num) then Live(m, starts, lst)
      else forall c | c in Interval(lst, lst + num) :: FieldOk(m, starts, c)
  }

  ghost predicate RootRefers(m: Memory, starts: set<nat>, root: Root, q: nat) {
    match root
    case Single(ptr) => ptr == To(q) && Managed(m, starts, q)
    case Multiple(lst, num) =>
      if Head(starts, lst, num) then q == lst && Managed(m, starts, q)
      else exists c :: c in Interval(lst, lst + num) && Refers(m, c, q)
  }

  /** The managed blocks that the roots refer to directly. */
  ghost function RootBlocks(m: Memory, starts: set<nat>, roots: seq<Root>): set<nat> {
    set q | q in starts && exists i :: 0 <= i < |roots| && RootRefers(m, starts, roots[i], q)
  }

  ghost predicate RootServed(m0: Memory, starts: set<nat>, root: Root, m: Memory) {
    forall q: nat | RootRefers(m0, starts, root, q) :: q < |m| && m[q].IsAlive()
  }

  lemma {:induction false} RootBlocksHold(m: Memory, starts: set<nat>, roots: seq<Root>, i: nat)
    requires i < |roots| && RootOk(m, starts, roots[i])
    ensures forall q: nat | RootRefers(m, starts, roots[i], q) :: q in RootBlocks(m, starts, roots)
  {
    forall q: nat | RootRefers(m, starts, roots[i], q) ensures q in starts {
      if roots[i].Multiple? && !Head(starts, roots[i].lst, roots[i].num) {
        var c :| c in Interval(roots[i].lst, roots[i].lst + roots[i].num) && Refers(m, c, q);
        assert FieldOk(m, starts, c);
      }
    }
  }

  lemma {:induction false} RootBlockAlive(m0: Memory, starts: set<nat>, roots: seq<Root>, m: Memory, q: nat)
    requires q in RootBlocks(m0, starts, roots) && forall root | root in roots :: RootOk(m0, starts, root)
    requires forall j | 0 <= j < |roots| :: RootServed(m0, starts, roots[j], m)
    ensures q < |m| && m[q].IsAlive() && Managed(m0, starts, q)
  {
    var i :| 0 <= i < |roots| && RootRefers(m0, starts, roots[i], q);
    assert RootServed(m0, starts, roots[i], m) && RootOk(m0, starts, roots[i]);
    if roots[i].Multiple? && !Head(starts, roots[i].lst, roots[i].num) {
      var c :| c in Interval(roots[i].lst, roots[i].lst + roots[i].num) && Refers(m0, c, q);
      assert FieldOk(m0, starts, c);
    }
  }

  lemma {:induction false} RootStaysServed(m0: Memory, starts: set<nat>, root: Root, m: Memory, m': Memory)
    requires RootServed(m0, starts, root, m) && SameGraph(m, m')
    ensures RootServed(m0, starts, root, m')
  {
  }

  lemma {:induction false} RootStarts(k: Call, root: Root)
    requires RootOk(k.m0, k.starts, root)
    requires forall q: nat | RootRefers(k.m0, k.starts, root, q) :: q in k.roots
    requires if root.Single? then root.ptr == To(k.lst) && k.num == 1 else root == Multiple(k.lst, k.num)
    ensures ListJustified(k, k.lst, k.num)
  {
    if Head(k.starts, k.lst, k.num) {
      if Managed(k.m0, k.starts, k.lst) { ReachRoot(k.m0, k.roots, k.lst); }
    } else {
      forall c | c in Interval(k.lst, k.lst + k.num) ensures Justified(k, c) {
        forall q: nat | Refers(k.m0, c, q) ensures Reachable(k.m0, k.roots, q) {
          assert RootRefers(k.m0, k.starts, root, q);
          ReachRoot(k.m0, k.roots, q);
        }
      }
    }
  }

  lemma {:induction false} RootDone(k: Call, root: Root, m': Memory, out: bool)
    requires RootOk(k.m0, k.starts, root)
    requires if root.Single? then root.ptr == To(k.lst) && k.num == 1 else root == Multiple(k.lst, k.num)
    requires Sound(k, m') && GivenListServed(k, m') && MarksSound(k.m0, k.starts, k.roots, k.entry)
    requires !out ==> NewlyClosed(k, m') && ClosedHeap(k.m0, k.starts, k.entry)
    ensures MarksSound(k.m0, k.starts, k.roots, m') && RootServed(k.m0, k.starts, root, m')
    ensures !out ==> ClosedHeap(k.m0, k.starts, m')
  {
    if !out {
      forall p: nat | Marked(m', k.starts, p) ensures ClosedBlock(k.m0, m', p) {
        if Marked(k.entry, k.starts, p) {
          ServedGrows(k.m0, k.entry, m', p);
        } else {
          assert NewlyMarked(k, m', p);
        }
      }
    }
    forall q: nat | RootRefers(k.m0, k.starts, root, q) ensures q < |m'| && m'[q].IsAlive() {
      if !Head(k.starts, k.lst, k.num) {
        var c :| c in Interval(k.lst, k.lst + k.num) && Refers(k.m0, c, q);
        assert Served(k.m0, m', c);
      }
    }
  }

  lemma {:induction false} SoundForMore(m0: Memory, starts: set<nat>, roots: set<nat>, more: set<nat>, m: Memory)
    requires MarksSound(m0, starts, roots, m) && roots <= more
    ensures MarksSound(m0, starts, more, m)
  {
    forall p: nat | Marked(m, starts, p) ensures Reachable(m0, more, p) {
      var n: nat :| ReachIn(m0, roots, n, p);
      ReachInMore(m0, roots, more, n, p);
    }
  }

  lemma {:induction false} ReachInMore(m0: Memory, roots: set<nat>, more: set<nat>, n: nat, p: nat)
    requires ReachIn(m0, roots, n, p) && roots <= more
    ensures ReachIn(m0, more, n, p)
  {
    if n > 0 {
      var x: nat :| ReachIn(m0, roots, n - 1, x) && Edge(m0, x, p);
      ReachInMore(m0, roots, more, n - 1, x);
    }
  }

  /** A managed block is marked if and only if it is reachable. */
  ghost predicate MarksExact(m0: Memory, starts: set<nat>, roots: set<nat>, m: Memory) {
    forall p: nat | Managed(m0, starts, p) :: p < |m| && (m[p].IsAlive() <==> Reachable(m0, roots, p))
  }

  lemma {:induction false} MarksExactFrom(m0: Memory, starts: set<nat>, roots: set<nat>, m: Memory)
    requires GraphOk(m0, starts) && SameGraph(m0, m)
    requires MarksSound(m0, starts, roots, m) && ClosedHeap(m0, starts, m)
    requires forall q | q in roots :: q < |m| && m[q].IsAlive() && Managed(m0, starts, q)
    ensures MarksExact(m0, starts, roots, m)
  {
    var closed := set p | p in starts && Marked(m, starts, p);
    forall p, r | p in closed && Edge(m0, p, r) ensures r in closed {
      EdgeMarked(m0, starts, m, p, r);
    }
    forall p: nat | Managed(m0, starts, p) ensures p < |m| && (m[p].IsAlive() <==> Reachable(m0, roots, p)) {
      if Reachable(m0, roots, p) {
        ClosedHoldsReachable(m0, roots, closed, p);
      }
      if m[p].IsAlive() { assert Marked(m, starts, p); }
    }
  }

  // ---------------------------------------------------------------- kind by kind

  /** Cell x is one through which the block at p keeps others alive: any cell behind the header of a class
      instance, an element of an array of references, the object of a delegate, an entry of a list of
      delegates that is not weak. */
  predicate Follows(m: Memory, p: nat, x: int) {
    p < x < |m| &&
    match m[p].kind
    case Class => x < p + m[p].size
    case SzArray(fReference, numOfElements) => fReference && x <= p + numOfElements
    case DelegateHead => x == p + 1
    case DelegateList(weak, length) => !weak && x <= p + length
    case _ => false
  }

  /** Cell x holds a reference to the block at q. */
  predicate PointsTo(m: Memory, x: int, q: nat) {
    0 <= x < |m| && m[x].kind.Reference? && m[x].target == To(q)
  }

  /** A root names block q: as its one pointer, as the header to be visited, or from one of its cells. */
  ghost predicate RootNames(m: Memory, starts: set<nat>, root: Root, q: nat) {
    match root
    case Single(ptr) => ptr == To(q)
    case Multiple(lst, num) =>
      || (num == 1 && lst in starts && q == lst)
      || exists x :: lst <= x < lst + num && PointsTo(m, x, q)
  }

  /** The cells followed are the fields, and all of them lie in the block. */
  lemma {:induction false} FollowsFields(m: Memory, starts: set<nat>, p: nat, x: nat)
    requires GraphOk(m, starts) && Live(m, starts, p)
    ensures Follows(m, p, x) <==> x in Fields(m, p)
    ensures Follows(m, p, x) ==> x < End(m, p)
  {
    assert BlockOk(m, starts, p) && BlockGraphOk(m, starts, p);
  }

  /** Reachability goes along the references in the cells followed, to blocks that are not event blocks. */
  lemma {:induction false} EdgeIs(m: Memory, starts: set<nat>, p: nat, q: nat)
    requires GraphOk(m, starts) && Live(m, starts, p)
    ensures Edge(m, p, q) <==> exists x :: Follows(m, p, x) && PointsTo(m, x, q) && q < |m| && !m[q].flags.event
  {
    if Edge(m, p, q) {
      var c :| c in Fields(m, p) && Refers(m, c, q);
      FollowsFields(m, starts, p, c);
      assert PointsTo(m, c, q);
    }
    if x :| Follows(m, p, x) && PointsTo(m, x, q) && q < |m| && !m[q].flags.event {
      FollowsFields(m, starts, p, x);
      assert Refers(m, x, q);
    }
  }

  lemma {:induction false} FollowedAreMarked(m0: Memory, starts: set<nat>, m: Memory)
    requires GraphOk(m0, starts) && SameGraph(m0, m) && ClosedHeap(m0, starts, m)
    ensures forall p: nat, x, q: nat | Marked(m, starts, p) && Follows(m0, p, x) && PointsTo(m0, x, q) ::
              q < |m| && m[q].flags.alive
  {
    forall p: nat, x, q: nat | Marked(m, starts, p) && Follows(m0, p, x) && PointsTo(m0, x, q)
      ensures q < |m| && m[q].flags.alive
    {
      FollowsFields(m0, starts, p, x);
      assert BlockGraphOk(m0, starts, p);
      assert FieldOk(m0, starts, x);
      assert BlockGraphOk(m0, starts, q);
      if !m0[q].IsEvent() {
        EdgeIs(m0, starts, p, q);
        EdgeMarked(m0, starts, m, p, q);
      }
    }
  }

  /** Whatever a root names is alive. */
  ghost predicate NamedAlive(m0: Memory, starts: set<nat>, root: Root, m: Memory) {
    forall q: nat | RootNames(m0, starts, root, q) :: q < |m| && m[q].flags.alive
  }

  lemma {:induction false} NamedAreMarked(m0: Memory, starts: set<nat>, roots: seq<Root>, more: set<nat>, m: Memory,
      root: Root)
    requires GraphOk(m0, starts) && SameGraph(m0, m) && RootBlocks(m0, starts, roots) <= more
    requires MarksExact(m0, starts, more, m) && root in roots && RootOk(m0, starts, root)
    ensures NamedAlive(m0, starts, root, m)
  {
    var i :| 0 <= i < |roots| && roots[i] == root;
    forall q: nat | RootNames(m0, starts, root, q) ensures q < |m| && m[q].flags.alive {
      NamedIsMarked(m0, starts, roots, more, m, i, q);
    }
  }

  lemma {:induction false} NamedIsMarked(m0: Memory, starts: set<nat>, roots: seq<Root>, more: set<nat>, m: Memory,
      i: nat, q: nat)
    requires GraphOk(m0, starts) && SameGraph(m0, m) && RootBlocks(m0, starts, roots) <= more
    requires MarksExact(m0, starts, more, m)
    requires i < |roots| && RootOk(m0, starts, roots[i]) && RootNames(m0, starts, roots[i], q)
    ensures q < |m| && m[q].flags.alive
  {
    NamedIsLive(m0, starts, roots[i], q);
    assert BlockGraphOk(m0, starts, q);
    if m0[q].IsEvent() {
      assert m[q] == m0[q] || m[q] == m0[q].MarkAlive();
    } else {
      assert RootRefers(m0, starts, roots[i], q);
      assert q in RootBlocks(m0, starts, roots);
      ReachRoot(m0, more, q);
      assert Managed(m0, starts, q);
    }
  }

  /** What a root names is a live block; if it is not an event block, the root refers to it. */
  lemma {:induction false} NamedIsLive(m: Memory, starts: set<nat>, root: Root, q: nat)
    requires GraphOk(m, starts) && RootOk(m, starts, root) && RootNames(m, starts, root, q)
    ensures Live(m, starts, q) && (!m[q].IsEvent() ==> RootRefers(m, starts, root, q))
  {
    if root.Multiple? && !Head(starts, root.lst, root.num) {
      var x: nat :| root.lst <= x < root.lst + root.num && PointsTo(m, x, q);
      assert x in Interval(root.lst, root.lst + root.num);
      assert FieldOk(m, starts, x);
      if !m[q].IsEvent() { assert Refers(m, x, q); }
    } else if root.Multiple? {
      assert BlockGraphOk(m, starts, root.lst);
    }
  }

  lemma {:induction false} EdgeMarked(m0: Memory, starts: set<nat>, m: Memory, p: nat, r: nat)
    requires GraphOk(m0, starts) && SameGraph(m0, m) && ClosedHeap(m0, starts, m)
    requires Marked(m, starts, p) && Edge(m0, p, r)
    ensures Marked(m, starts, r)
  {
    assert BlockGraphOk(m0, starts, p);
    var c :| c in Fields(m0, p) && Refers(m0, c, r);
    assert ClosedBlock(m0, m, p) && FieldOk(m0, starts, c);
    assert Served(m0, m, c);
  }

  /** Only reachable blocks are marked. */
  ghost predicate MarksSound(m0: Memory, starts: set<nat>, roots: set<nat>, m: Memory) {
    forall p: nat | Marked(m, starts, p) :: Reachable(m0, roots, p)
  }

  ghost predicate ClosedBlock(m0: Memory, m: Memory, p: nat) {
    p < |m0| ==> forall c | c in Fields(m0, p) :: Served(m0, m, c)
  }

  /** Every marked block refers to marked blocks only. */
  ghost predicate ClosedHeap(m0: Memory, starts: set<nat>, m: Memory) {
    forall p: nat | Marked(m, starts, p) :: ClosedBlock(m0, m, p)
  }

  /** The rescan has dealt with the blocks below ptr and with those marked since it began. */
  ghost predicate ClosedUpTo(m0: Memory, starts: set<nat>, first: Memory, m: Memory, ptr: nat) {
    forall p: nat | Marked(m, starts, p) && (p < ptr || !Marked(first, starts, p)) :: ClosedBlock(m0, m, p)
  }

  lemma {:induction false} ForceStarts(m0: Memory, starts: set<nat>, roots: set<nat>, m: Memory, p: nat)
    requires SameGraph(m0, m) && FreeDead(m, starts) && MarksSound(m0, starts, roots, m)
    requires p in starts && p < |m| && m[p].IsAlive() && !m[p].IsEvent()
    ensures ListJustified(Call(m0, starts, roots, m, p, 1), p, 1)
  {
    assert Marked(m, starts, p);
  }

  lemma {:induction false} ServedGrows(m0: Memory, m: Memory, m': Memory, p: nat)
    requires SameGraph(m, m') && ClosedBlock(m0, m, p)
    ensures ClosedBlock(m0, m', p)
  {
    if p < |m0| {
      forall c | c in Fields(m0, p) ensures Served(m0, m', c) {
        assert Served(m0, m, c);
      }
    }
  }

  lemma {:induction false} RescanStep(k: Call, first: Memory, m': Memory, out: bool)
    requires GraphOk(k.m0, k.starts) && Sound(k, m') && Head(k.starts, k.lst, k.num)
    requires MarksSound(k.m0, k.starts, k.roots, k.entry)
    requires SameGraph(first, k.entry)
    requires k.lst < |k.m0|
    requires !out ==> NewlyClosed(k, m') && ClosedUpTo(k.m0, k.starts, first, k.entry, k.lst)
    ensures MarksSound(k.m0, k.starts, k.roots, m') && SameGraph(first, m')
    ensures !out ==> ClosedUpTo(k.m0, k.starts, first, m', End(k.m0, k.lst))
  {
    if !out {
      forall p: nat | Marked(m', k.starts, p) && (p < End(k.m0, k.lst) || !Marked(first, k.starts, p))
        ensures ClosedBlock(k.m0, m', p)
      {
        assert BlockOk(k.m0, k.starts, k.lst);
        if p == k.lst || !Marked(k.entry, k.starts, p) {
          assert p == k.lst || NewlyMarked(k, m', p);
        } else {
          ServedGrows(k.m0, k.entry, m', p);
        }
      }
    }
  }

  lemma {:induction false} SkipStep(m0: Memory, starts: set<nat>, first: Memory, m: Memory, ptr: nat)
    requires Tiled(m0, starts) && SameGraph(m0, m) && ptr in starts && ptr < |m|
               && (!m[ptr].IsAlive() || m[ptr].IsEvent())
    ensures ClosedUpTo(m0, starts, first, m, ptr) ==> ClosedUpTo(m0, starts, first, m, End(m, ptr))
  {
    assert BlockOk(m0, starts, ptr);
  }

  lemma {:induction false} NextStep(k: Call, m: Memory, w: Work, done: set<nat>, dropped: bool, w': Work)
    requires Inv(k, m, w, done, dropped) && NextFrom(w, w')
    ensures Inv(k, m, w', done, dropped)
    ensures if w.num == 1 then w' == w else w'.lst !in k.starts && Cost(k.starts, w') == Cost(k.starts, w)
  {
    if w.num == 0 {
      PopStep(k, m, w, done, dropped);
    } else if w.num > 1 {
      PushStep(k, m, w, done, dropped);
    }
  }

  lemma {:induction false} NextBounds(k: Call, m: Memory, w: Work, done: set<nat>, dropped: bool, w': Work)
    requires Inv(k, m, w, done, dropped) && NextFrom(w, w')
    ensures
      var p := w'.lst;
      && p < |m|
      && (m[p].kind.Reference? && m[p].target.To? ==> m[p].target.addr < |m|)
      && (p !in k.starts ==> !m[p].kind.DelegateList?)
      && (p in k.starts ==> Live(m, k.starts, p) && (m[p].kind.DelegateList? ==> !m[p].IsEvent()))
  {
    NextStep(k, m, w, done, dropped, w');
    VisitStarts(k, m, w', done, dropped);
  }

  lemma {:induction false} VisitStep(k: Call, m: Memory, w: Work, done: set<nat>, dropped: bool, w': Work, m': Memory)
    requires Inv(k, m, w, done, dropped) && w.num == 1
    requires w.lst < |m| && m' == m[w.lst := m[w.lst].MarkAlive()]
    requires m[w.lst].kind.Reference? && m[w.lst].target.To? ==> m[w.lst].target.addr < |m|
    requires w'.stack == w.stack && VisitedTo(m', w.lst, w'.lst, w'.num)
    ensures Inv(k, m', w', done + (if w.lst in k.starts then {w.lst} else {}), dropped)
    ensures w.lst !in k.starts ==> Unmarked(m', k.starts) == Unmarked(m, k.starts)
    ensures w.lst !in k.starts ==>
              w'.num == 0 || (Head(k.starts, w'.lst, w'.num) && w'.lst < |m'| && !m'[w'.lst].IsAlive())
    ensures w.lst in k.starts ==> !Head(k.starts, w'.lst, w'.num)
    ensures w.lst in k.starts ==> if m[w.lst].IsAlive() then Unmarked(m', k.starts) == Unmarked(m, k.starts)
                                  else Unmarked(m', k.starts) < Unmarked(m, k.starts)
  {
    VisitStarts(k, m, w, done, dropped);
    if w.lst in k.starts {
      var m2 := HeadStep(k, m, w, done, dropped, w');
    } else {
      var m2, w2 := FieldStep(k, m, w, done, dropped);
      assert done + {} == done;
    }
  }

  /** The effect of one turn that drops nothing. */
  lemma {:induction false} TurnStep(k: Call, m: Memory, w: Work, w1: Work, done: set<nat>, dropped: bool, w': Work,
      m': Memory)
    requires Inv(k, m, w, done, dropped) && NextFrom(w, w1)
    requires w1.lst < |m| && m' == m[w1.lst := m[w1.lst].MarkAlive()]
    requires m[w1.lst].kind.Reference? && m[w1.lst].target.To? ==> m[w1.lst].target.addr < |m|
    requires w'.stack == w1.stack && VisitedTo(m', w1.lst, w'.lst, w'.num)
    ensures Inv(k, m', w', done + (if w1.lst in k.starts then {w1.lst} else {}), dropped)
    ensures Progress(k.starts, m, w, m', w')
  {
    NextStep(k, m, w, done, dropped, w1);
    VisitStep(k, m, w1, done, dropped, w', m');
  }

  lemma {:induction false} VisitStarts(k: Call, m: Memory, w: Work, done: set<nat>, dropped: bool)
    requires Inv(k, m, w, done, dropped) && w.num == 1
    ensures w.lst < |m|
    ensures m[w.lst].kind.Reference? ==> w.lst !in k.starts
    ensures m[w.lst].kind.Reference? && m[w.lst].target.To? ==> m[w.lst].target.addr < |m|
    ensures w.lst !in k.starts ==> m[w.lst].kind.Reference? || m[w.lst].kind.Opaque?
    ensures w.lst in k.starts ==> Live(m, k.starts, w.lst) && (m[w.lst].kind.DelegateList? ==> !m[w.lst].IsEvent())
  {
    if w.lst in k.starts {
      assert HeadJustified(k, w.lst);
      assert BlockGraphOk(k.m0, k.starts, w.lst);
    } else {
      assert w.lst in Interval(w.lst, w.lst + w.num);
      assert Justified(k, w.lst);
    }
  }

  lemma {:induction false} WeakStep(k: Call, m: Memory, p: nat, weak: seq<nat>, weak': seq<nat>)
    requires WeakOk(m, k.starts, weak) && p < |m|
    requires p !in k.starts ==> !m[p].kind.DelegateList?
    requires p in k.starts ==> Live(m, k.starts, p) && (m[p].kind.DelegateList? ==> !m[p].IsEvent())
    requires weak' == if IsWeakList(m[p]) && p !in weak then weak + [p] else weak
    ensures WeakOk(m[p := m[p].MarkAlive()], k.starts, weak')
  {
    var m' := m[p := m[p].MarkAlive()];
    forall x: nat ensures x in weak' <==> Marked(m', k.starts, x) && IsWeakList(m'[x]) {
      assert x in weak <==> Marked(m, k.starts, x) && IsWeakList(m[x]);
    }
  }
}
