/** Multicast delegates: lists of delegates, some of whose entries may have been nulled by the
    garbage collector. */
module DelegateLists {
  import opened Options

  /** A delegate object: its identity, its method and its target object. */
  datatype Delegate = Delegate(id: nat, ftn: nat, object_: nat)

  /** Two delegate objects count as the same when they call the same method on the same object. */
  predicate Same(d: Delegate, e: Delegate) {
    d.ftn == e.ftn && d.object_ == e.object_
  }

  // ---------------------------------------------------------------- what a list denotes

  function OneLive(e: Option<Delegate>): (r: seq<Delegate>)
    ensures |r| <= 1
  {
    if e.Some? then [e.value] else []
  }

  /** The delegates that are left, in order. */
  function Live(entries: seq<Option<Delegate>>): (r: seq<Delegate>)
    ensures |r| <= |entries|
  {
    if entries == [] then [] else OneLive(entries[0]) + Live(entries[1..])
  }

  function Entries(s: seq<Delegate>): seq<Option<Delegate>> {
    seq(|s|, i requires 0 <= i < |s| => Some(s[i]))
  }

  lemma {:induction false} LiveAdds(a: seq<Option<Delegate>>, b: seq<Option<Delegate>>)
    ensures Live(a + b) == Live(a) + Live(b)
  {
    if a == [] {
      assert a + b == b;
    } else {
      LiveAdds(a[1..], b);
      assert (a + b)[0] == a[0] && (a + b)[1..] == a[1..] + b;
      Regroup(OneLive(a[0]), Live(a[1..]), Live(b));
    }
  }

  lemma Regroup(x: seq<Delegate>, y: seq<Delegate>, z: seq<Delegate>)
    ensures x + (y + z) == (x + y) + z
  {
  }

  lemma {:induction false} LiveEntries(s: seq<Delegate>)
    ensures Live(Entries(s)) == s
  {
    if s != [] {
      LiveEntries(s[1..]);
      assert Entries(s)[1..] == Entries(s[1..]);
      assert s == [s[0]] + s[1..];
    }
  }

  /** Deletes the first delegate that is the same as d. */
  function DeleteFirst(s: seq<Delegate>, d: Delegate): (r: seq<Delegate>)
    ensures |r| <= |s|
  {
    if s == [] then [] else if Same(s[0], d) then s[1..] else [s[0]] + DeleteFirst(s[1..], d)
  }

  /** Deletes the first match of each delegate in turn. */
  function DeleteEach(s: seq<Delegate>, ds: seq<Delegate>): seq<Delegate>
    decreases |ds|
  {
    if ds == [] then s else DeleteEach(DeleteFirst(s, ds[0]), ds[1..])
  }

  /** The i-th entry is the first one that is the same as d, or there is none and i is the length. */
  ghost predicate FirstMatch(entries: seq<Option<Delegate>>, d: Delegate, i: nat) {
    && i <= |entries|
    && (forall j | 0 <= j < i :: !Matches(entries[j], d))
    && (i < |entries| ==> Matches(entries[i], d))
  }

  predicate Matches(e: Option<Delegate>, d: Delegate) {
    e.Some? && Same(e.value, d)
  }

  lemma {:induction false} LiveWithout(entries: seq<Option<Delegate>>, d: Delegate, i: nat)
    requires FirstMatch(entries, d, i)
    ensures DeleteFirst(Live(entries), d)
              == if i < |entries| then Live(entries[..i]) + Live(entries[i + 1..]) else Live(entries)
  {
    if entries != [] {
      if i == 0 {
        assert Live(entries) == [entries[0].value] + Live(entries[1..]);
      } else {
        assert !Matches(entries[0], d);
        forall j | 0 <= j < i - 1 ensures !Matches(entries[1..][j], d) {
          assert entries[1..][j] == entries[j + 1];
        }
        LiveWithout(entries[1..], d, i - 1);
        DeleteAfter(entries[0], Live(entries[1..]), d);
        if i < |entries| {
          assert entries[..i][1..] == entries[1..][..i - 1] && entries[1..][i..] == entries[i + 1..];
          Regroup(OneLive(entries[0]), Live(entries[..i][1..]), Live(entries[i + 1..]));
        }
      }
    }
  }

  lemma DeleteAfter(e: Option<Delegate>, s: seq<Delegate>, d: Delegate)
    requires !Matches(e, d)
    ensures DeleteFirst(OneLive(e) + s, d) == OneLive(e) + DeleteFirst(s, d)
  {
    if e.Some? {
      assert (OneLive(e) + s)[1..] == s;
    } else {
      assert OneLive(e) + s == s;
    }
  }

  /** Removing what was appended gives the list back, unless an equal delegate stood in it before. */
  lemma {:induction false} DeleteAppended(s: seq<Delegate>, d: Delegate)
    ensures (forall i | 0 <= i < |s| :: !Same(s[i], d)) ==> DeleteFirst(s + [d], d) == s
    ensures (exists i :: 0 <= i < |s| && Same(s[i], d)) ==> DeleteFirst(s + [d], d) == DeleteFirst(s, d) + [d]
  {
    if s != [] {
      assert (s + [d])[1..] == s[1..] + [d];
      if !Same(s[0], d) {
        DeleteAppended(s[1..], d);
        if i :| 0 <= i < |s| && Same(s[i], d) { assert Same(s[1..][i - 1], d); }
      }
    }
  }

  /** The first delegate with the method and the object of d is out; without one nothing is. */
  ghost predicate TookOut(s: seq<Delegate>, d: Delegate, r: seq<Delegate>) {
    || (r == s && forall i | 0 <= i < |s| :: s[i].ftn != d.ftn || s[i].object_ != d.object_)
    || (exists i: nat :: TookOutAt(s, d, r, i))
  }

  ghost predicate TookOutAt(s: seq<Delegate>, d: Delegate, r: seq<Delegate>, i: nat) {
    && i < |s| && s[i].ftn == d.ftn && s[i].object_ == d.object_
    && (forall j | 0 <= j < i :: s[j].ftn != d.ftn || s[j].object_ != d.object_)
    && r == s[..i] + s[i + 1..]
  }

  lemma {:induction false} DeleteFirstIs(s: seq<Delegate>, d: Delegate)
    ensures TookOut(s, d, DeleteFirst(s, d))
  {
    if s != [] {
      if Same(s[0], d) {
        assert s[..0] + s[1..] == s[1..];
        assert TookOutAt(s, d, s[1..], 0);
      } else {
        DeleteFirstIs(s[1..], d);
        TookOutLater(s, d, DeleteFirst(s[1..], d));
      }
    }
  }

  lemma {:induction false} TookOutLater(s: seq<Delegate>, d: Delegate, r: seq<Delegate>)
    requires s != [] && (s[0].ftn != d.ftn || s[0].object_ != d.object_) && TookOut(s[1..], d, r)
    ensures TookOut(s, d, [s[0]] + r)
  {
    if i: nat :| TookOutAt(s[1..], d, r, i) {
      LaterAt(s, d, r, i);
    } else {
      forall j | 0 <= j < |s| ensures s[j].ftn != d.ftn || s[j].object_ != d.object_ {
        if 0 < j { assert s[j] == s[1..][j - 1]; }
      }
      assert [s[0]] + s[1..] == s;
    }
  }

  lemma {:induction false} LaterAt(s: seq<Delegate>, d: Delegate, r: seq<Delegate>, i: nat)
    requires s != [] && (s[0].ftn != d.ftn || s[0].object_ != d.object_) && TookOutAt(s[1..], d, r, i)
    ensures TookOutAt(s, d, [s[0]] + r, i + 1)
  {
    assert s[1..][..i] == s[1..i + 1] && s[1..][i + 1..] == s[i + 2..];
    assert [s[0]] + (s[1..i + 1] + s[i + 2..]) == s[..i + 1] + s[i + 2..];
    forall j | 0 <= j < i + 1 ensures s[j].ftn != d.ftn || s[j].object_ != d.object_ {
      if 0 < j { assert s[j] == s[1..][j - 1]; }
    }
  }

  /** The first match of each of ds is taken out, one after the other. */
  ghost predicate TookEach(s: seq<Delegate>, ds: seq<Delegate>, r: seq<Delegate>) {
    exists steps: seq<seq<Delegate>> :: Steps(s, ds, r, steps)
  }

  ghost predicate Steps(s: seq<Delegate>, ds: seq<Delegate>, r: seq<Delegate>, steps: seq<seq<Delegate>>) {
    && |steps| == |ds| + 1 && steps[0] == s && steps[|ds|] == r
    && forall k | 0 <= k < |ds| :: TookOut(steps[k], ds[k], steps[k + 1])
  }

  lemma {:induction false} DeleteEachIs(s: seq<Delegate>, ds: seq<Delegate>)
    ensures TookEach(s, ds, DeleteEach(s, ds))
    decreases |ds|
  {
    var r := DeleteEach(s, ds);
    if ds == [] {
      assert Steps(s, ds, r, [s]);
    } else {
      var next := DeleteFirst(s, ds[0]);
      DeleteFirstIs(s, ds[0]);
      DeleteEachIs(next, ds[1..]);
      var steps :| Steps(next, ds[1..], r, steps);
      var all := [s] + steps;
      forall k | 0 <= k < |ds| ensures TookOut(all[k], ds[k], all[k + 1]) {
        if 0 < k { assert TookOut(steps[k - 1], ds[1..][k - 1], steps[k]); }
      }
      assert Steps(s, ds, r, all);
    }
  }

  /** The delegates that are left stand at these places of the list, in order, and nothing else does. */
  lemma {:induction false} LiveIs(entries: seq<Option<Delegate>>) returns (at: seq<nat>)
    ensures |at| == |Live(entries)|
    ensures forall i | 0 <= i < |at| :: at[i] < |entries| && entries[at[i]] == Some(Live(entries)[i])
    ensures forall i, j | 0 <= i < j < |at| :: at[i] < at[j]
    ensures forall k: nat | k < |entries| && entries[k].Some? :: k in at
  {
    at := [];
    if entries != [] {
      var before := |entries| - 1;
      var front := entries[..before];
      var up := LiveIs(front);
      LivePrefix(entries, before);
      assert entries[..before + 1] == entries && forall k | 0 <= k < before :: front[k] == entries[k];
      if entries[before].Some? {
        at := up + [before];
        assert at[|up|] == before && forall k | k in up :: k in at;
      } else {
        at := up;
      }
    }
  }

  /** Some entry has the method and the object of d. */
  ghost predicate HasMatch(entries: seq<Option<Delegate>>, d: Delegate) {
    exists i :: 0 <= i < |entries| && entries[i].Some? && entries[i].value.ftn == d.ftn
                && entries[i].value.object_ == d.object_
  }

  // ---------------------------------------------------------------- the objects

  class DelegateList {
    const delegates: array<Option<Delegate>>
    var length: nat
    var weak: bool

    constructor CreateInstance(n: nat)
      ensures Valid() && length == n && delegates.Length == n && !weak && fresh(delegates)
    {
      delegates := new Option<Delegate>[n](_ => None);
      length, weak := n, false;
    }

    ghost predicate Valid()
      reads this
    {
      length <= delegates.Length
    }

    /** Copies the entries that have not been nulled, and shortens the list by the others. */
    method CopyAndCompress(src: seq<Option<Delegate>>, dst: nat) returns (dst': nat)
      requires dst + |src| <= delegates.Length && |src| <= length
      modifies this`length, delegates
      ensures dst' == dst + |Live(src)| && length == old(length) - (|src| - |Live(src)|)
      ensures delegates[dst..dst'] == Entries(Live(src)) && delegates[..dst] == old(delegates[..dst])
    {
      dst' := dst;
      ghost var live: seq<Delegate> := [];
      assert src[..0] == [];
      for i := 0 to |src|
        invariant live == Live(src[..i]) && |live| <= i
        invariant dst' == dst + |live| && length == old(length) - (i - |live|)
        invariant delegates[dst..dst'] == Entries(live) && delegates[..dst] == old(delegates[..dst])
      {
        LivePrefix(src, i);
        if src[i].Some? {
          delegates[dst'] := src[i];
          dst' := dst' + 1;
          EntriesAdd(live, [src[i].value]);
          live := live + [src[i].value];
        } else {
          length := length - 1;
        }
      }
      assert src[..|src|] == src;
    }
  }

  /** A cell as the caller passes it: no object, a single delegate, a list, an object of another
      type, or no reference to an object at all. */
  datatype Ref = Null | Single(d: Delegate) | Many(list: DelegateList) | Other | Value

  ghost predicate ValidRef(r: Ref)
    reads if r.Many? then {r.list} else {}
  {
    r.Many? ==> r.list.Valid()
  }

  /** The entries of a reference. */
  ghost function EntriesOf(r: Ref): seq<Option<Delegate>>
    requires ValidRef(r)
    reads if r.Many? then {r.list, r.list.delegates} else {}
  {
    match r
    case Single(d) => [Some(d)]
    case Many(list) => list.delegates[..list.length]
    case _ => []
  }

  /** The live delegates that a reference denotes. */
  ghost function Denotes(r: Ref): seq<Delegate>
    requires ValidRef(r)
    reads if r.Many? then {r.list, r.list.delegates} else {}
  {
    Live(EntriesOf(r))
  }

  datatype Result = Ok(reference: Ref) | WrongType | OutOfMemory

  ghost predicate IsWeak(r: Ref)
    reads if r.Many? then {r.list} else {}
  {
    r.Many? && r.list.weak
  }

  predicate Contains(entries: seq<Option<Delegate>>, d: Delegate) {
    exists i :: 0 <= i < |entries| && Matches(entries[i], d)
  }

  /** A removal needs a list of its own only if enough is left for one: two entries, or one in a weak list. */
  predicate RemovalTakesList(entries: seq<Option<Delegate>>, weak: bool, d: Delegate) {
    Contains(entries, d) && |entries| >= if weak then 2 else 3
  }

  /** The entries once the first match has been removed. */
  function Cut(entries: seq<Option<Delegate>>, d: Delegate): (r: seq<Option<Delegate>>) {
    if Contains(entries, d) then Entries(DeleteFirst(Live(entries), d)) else entries
  }

  /** How many lists are created while each of ds is combined with the entries or removed from them. */
  function ListsTaken(entries: seq<Option<Delegate>>, srcWeak: bool, ds: seq<Delegate>, combine: bool, weak: bool): nat
  {
    if combine then |ds| - (if entries == [] && !weak && ds != [] then 1 else 0) else Removals(entries, srcWeak, ds)
  }

  function Removals(entries: seq<Option<Delegate>>, srcWeak: bool, ds: seq<Delegate>): nat
    decreases |ds|
  {
    if ds == [] then 0
    else (if RemovalTakesList(entries, srcWeak, ds[0]) then 1 else 0) + Removals(Cut(entries, ds[0]), srcWeak, ds[1..])
  }

  /** No list is created, and so memory cannot run out, while fewer than two entries are removed from. */
  lemma {:induction false} ShortListsTakeNothing(entries: seq<Option<Delegate>>, srcWeak: bool, ds: seq<Delegate>)
    requires |entries| <= 1
    ensures Removals(entries, srcWeak, ds) == 0
    decreases |ds|
  {
    if ds != [] { ShortListsTakeNothing(Cut(entries, ds[0]), srcWeak, ds[1..]); }
  }

  /** The weak flag once a change has been made: a combination sets it if it is asked to, and never else
      where there was none; a removal keeps it on every list of two entries or more. */
  ghost predicate FlagKept(before: bool, combine: bool, weak: bool, n: nat, after: bool) {
    && (combine && weak ==> after)
    && (combine && !weak && !before ==> !after)
    && (!combine && n >= 2 ==> after == before)
  }

  /** Memory ran out exactly if there was room for fewer than n lists. */
  ghost predicate Charged(res: Result, room: nat, left: nat, n: nat) {
    && (res.OutOfMemory? <==> room < n)
    && (res.Ok? ==> left + n == room)
  }

  /** The entries to change, as the caller sees them. */
  method OldDelegates(src: Ref) returns (old_: seq<Option<Delegate>>, weak: bool)
    requires ValidRef(src) && !src.Other? && !src.Value?
    ensures old_ == EntriesOf(src) && weak == IsWeak(src)
  {
    match src {
      case Null => old_, weak := [], false;
      case Single(d) => old_, weak := [Some(d)], false;
      case Many(list) => old_, weak := list.delegates[..list.length], list.weak;
    }
  }

  /** A new list: the live ones among the old entries, and then perhaps one more. */
  method Rebuilt(first: seq<Option<Delegate>>, second: seq<Option<Delegate>>, added: Option<Delegate>, weak: bool)
      returns (list: DelegateList)
    requires 0 < |first| + |second| + (if added.Some? then 1 else 0)
    ensures fresh(list) && fresh(list.delegates) && list.Valid() && list.weak == weak
    ensures list.delegates[..list.length]
              == Entries(Live(first) + Live(second) + if added.Some? then [added.value] else [])
  {
    list := new DelegateList.CreateInstance(|first| + |second| + if added.Some? then 1 else 0);
    var dst := list.CopyAndCompress(first, 0);
    ghost var written := list.delegates[..dst];
    var dst2 := list.CopyAndCompress(second, dst);
    assert list.delegates[..dst2] == written + list.delegates[dst..dst2];
    EntriesAdd(Live(first), Live(second));
    if added.Some? {
      EntriesAdd(Live(first) + Live(second), [added.value]);
      list.delegates[dst2] := added;
    } else {
      assert Live(first) + Live(second) + [] == Live(first) + Live(second);
    }
    list.weak := weak;
  }

  lemma EntriesAdd(a: seq<Delegate>, b: seq<Delegate>)
    ensures Entries(a + b) == Entries(a) + Entries(b)
    ensures |b| == 1 ==> Entries(b) == [Some(b[0])]
  {
  }

  /** Appends a single delegate.  Memory has room for that many more lists before it runs out. */
  method CombineOne(src: Ref, d: Delegate, weak: bool, room: nat) returns (res: Result, left: nat)
    requires ValidRef(src) && !src.Value?
    ensures res.WrongType? <==> src.Other?
    ensures !src.Other? ==> Charged(res, room, left, if EntriesOf(src) == [] && !weak then 0 else 1)
    ensures res.Ok? ==>
              ValidRef(res.reference) && EntriesOf(res.reference) != [] && Denotes(res.reference) == Denotes(src) + [d]
    ensures res.Ok? && res.reference.Many? ==>
              fresh(res.reference.list) && fresh(res.reference.list.delegates)
                  && forall e | e in EntriesOf(res.reference) :: e.Some?
    ensures res.Ok? ==> (res.reference.Single? <==> EntriesOf(src) == [] && !weak)
    ensures res.Ok? ==> res.reference.Single? || res.reference.Many?
    ensures res.Ok? && res.reference.Many? ==>
              res.reference.list.weak == (weak || (|EntriesOf(src)| > 1 && IsWeak(src)))
  {
    left := room;
    if src.Other? { return WrongType, left; }
    var old_, oldWeak := OldDelegates(src);
    if |old_| == 0 && !weak { return Ok(Single(d)), left; }
    if room == 0 { return OutOfMemory, left; }
    left := room - 1;
    var list := Rebuilt(old_, [], Some(d), weak || (|old_| > 1 && oldWeak));
    LiveEntries(Live(old_) + [d]);
    assert Live(old_) + Live([]) + [d] == Live(old_) + [d];
    res := Ok(Many(list));
  }

  lemma OtherOne(entries: seq<Option<Delegate>>, i: nat)
    requires |entries| == 2 && i < 2
    ensures Live(entries[..i]) + Live(entries[i + 1..]) == OneLive(entries[1 - i])
    ensures Live([entries[1 - i]]) == OneLive(entries[1 - i])
  {
    if i == 0 {
      assert entries[1..] == [entries[1]];
    } else {
      assert entries[..1] == [entries[0]];
    }
  }

  /** Where the first match is, or the length if there is none. */
  method FirstMatchOf(entries: seq<Option<Delegate>>, d: Delegate) returns (num: nat)
    ensures FirstMatch(entries, d, num)
  {
    num := 0;
    while num < |entries| && !Matches(entries[num], d)
      invariant 0 <= num <= |entries| && forall j | 0 <= j < num :: !Matches(entries[j], d)
    {
      num := num + 1;
    }
  }

  lemma {:induction false} CutTwo(entries: seq<Option<Delegate>>, i: nat)
    requires |entries| == 2 && i < 2
    ensures Entries(Live(entries[..i]) + Live(entries[i + 1..]))
              == if entries[1 - i].Some? then [entries[1 - i]] else []
  {
    OtherOne(entries, i);
    EntriesAdd([], OneLive(entries[1 - i]));
  }

  lemma {:induction false} CutAt(entries: seq<Option<Delegate>>, d: Delegate, i: nat)
    requires FirstMatch(entries, d, i)
    ensures Contains(entries, d) <==> i < |entries|
    ensures Cut(entries, d)
            == if i < |entries| then Entries(Live(entries[..i]) + Live(entries[i + 1..]) + []) else entries
    ensures |entries| == 1 && i < |entries| ==> Cut(entries, d) == []
    ensures |entries| == 2 && i < |entries| ==> Cut(entries, d) == if entries[1 - i].Some? then [entries[1 - i]] else []
  {
    LiveWithout(entries, d, i);
    if i < |entries| {
      assert Live(entries[..i]) + Live(entries[i + 1..]) + [] == Live(entries[..i]) + Live(entries[i + 1..]);
      if |entries| == 1 { assert Live(entries[..i]) + Live(entries[i + 1..]) == []; }
      if |entries| == 2 { CutTwo(entries, i); }
    }
  }

  /** Cutting the first match out of the entries deletes the first match among the live ones. */
  lemma {:induction false} LiveCut(entries: seq<Option<Delegate>>, d: Delegate)
    ensures Live(Cut(entries, d)) == DeleteFirst(Live(entries), d)
  {
    var i := 0;
    while i < |entries| && !Matches(entries[i], d)
      invariant 0 <= i <= |entries| && forall j | 0 <= j < i :: !Matches(entries[j], d)
    {
      i := i + 1;
    }
    CutAt(entries, d, i);
    LiveWithout(entries, d, i);
    LiveEntries(DeleteFirst(Live(entries), d));
  }

  lemma {:induction false} CutIs(entries: seq<Option<Delegate>>, d: Delegate)
    ensures TookOut(Live(entries), d, Live(Cut(entries, d)))
    ensures HasMatch(entries, d) <==> Contains(entries, d)
  {
    LiveCut(entries, d);
    DeleteFirstIs(Live(entries), d);
    if i :| 0 <= i < |entries| && Matches(entries[i], d) {
      assert entries[i].Some? && entries[i].value.ftn == d.ftn && entries[i].value.object_ == d.object_;
    }
    if HasMatch(entries, d) {
      var i :| 0 <= i < |entries| && entries[i].Some? && entries[i].value.ftn == d.ftn
               && entries[i].value.object_ == d.object_;
      assert Matches(entries[i], d);
    }
  }

  /** Removes the first match of a single delegate. */
  method RemoveOne(src: Ref, d: Delegate, room: nat) returns (res: Result, left: nat)
    requires ValidRef(src) && !src.Value?
    ensures res.WrongType? <==> src.Other?
    ensures !src.Other? ==> Charged(res, room, left, if RemovalTakesList(EntriesOf(src), IsWeak(src), d) then 1 else 0)
    ensures res.Ok? ==> ValidRef(res.reference) && EntriesOf(res.reference) == Cut(EntriesOf(src), d)
    ensures res.Ok? ==> !res.reference.Other? && !res.reference.Value?
    ensures !src.Other? && !HasMatch(EntriesOf(src), d) ==> res == Ok(src)
    ensures res.Ok? && HasMatch(EntriesOf(src), d) ==>
              var n := |EntriesOf(src)|;
              && (n == 1 ==> res.reference.Null?)
              && (n == 2 && !IsWeak(src) ==> res.reference.Single? || res.reference.Null?)
              && (n > 2 || (n == 2 && IsWeak(src)) ==>
                    && res.reference.Many? && src.Many? && res.reference.list.weak == src.list.weak
                    && fresh(res.reference.list) && fresh(res.reference.list.delegates))
    ensures res.OutOfMemory? <==>
              && room == 0 && HasMatch(EntriesOf(src), d) && !src.Other?
              && (|EntriesOf(src)| > 2 || (|EntriesOf(src)| == 2 && IsWeak(src)))
  {
    left := room;
    if src.Other? { return WrongType, left; }
    var old_, oldWeak := OldDelegates(src);
    var num := FirstMatchOf(old_, d);
    CutAt(old_, d, num);
    CutIs(old_, d);
    assert num < |old_| ==> Matches(old_[num], d);
    if num == |old_| { return Ok(src), left; }
    if |old_| == 2 && !oldWeak {
      return Ok(if old_[1 - num].Some? then Single(old_[1 - num].value) else Null), left;
    }
    if |old_| == 1 { return Ok(Null), left; }
    if room == 0 { return OutOfMemory, left; }
    left := room - 1;
    var list := Rebuilt(old_[..num], old_[num + 1..], None, oldWeak);
    res := Ok(Many(list));
  }

  /** Nothing is left of the target: it is a list, and all its entries have been nulled. */
  ghost predicate DeadList(target: Ref)
    requires ValidRef(target)
    reads if target.Many? then {target.list, target.list.delegates} else {}
  {
    target.Many? && Denotes(target) == []
  }

  /** What the operation should make of the two lists of delegates. */
  function Changed(src: seq<Delegate>, target: seq<Delegate>, combine: bool): seq<Delegate> {
    if combine then src + target else DeleteEach(src, target)
  }

  lemma {:induction false} DeleteLast(s: seq<Delegate>, ds: seq<Delegate>, d: Delegate)
    ensures DeleteEach(s, ds + [d]) == DeleteFirst(DeleteEach(s, ds), d)
    decreases |ds|
  {
    if ds == [] {
      assert [d][1..] == [];
    } else {
      assert (ds + [d])[1..] == ds[1..] + [d];
      DeleteLast(DeleteFirst(s, ds[0]), ds[1..], d);
    }
  }

  lemma ChangedStep(src: seq<Delegate>, ds: seq<Delegate>, d: Delegate, combine: bool)
    ensures Changed(src, ds + [d], combine)
              == if combine then Changed(src, ds, combine) + [d] else DeleteFirst(Changed(src, ds, combine), d)
  {
    DeleteLast(src, ds, d);
    assert src + (ds + [d]) == src + ds + [d];
  }

  /** What is left of the entries after one more change, as far as the next one depends on it. */
  predicate Followed(entries: seq<Option<Delegate>>, d: Delegate, combine: bool, next: seq<Option<Delegate>>) {
    if combine then next != [] else next == Cut(entries, d)
  }

  lemma OneTaken(entries: seq<Option<Delegate>>, isWeak: bool, d: Delegate, combine: bool, weak: bool)
    ensures ListsTaken(entries, isWeak, [d], combine, weak)
            == if combine then (if entries == [] && !weak then 0 else 1)
               else if RemovalTakesList(entries, isWeak, d) then 1 else 0
  {
    assert Removals(entries, isWeak, [d]) == (if RemovalTakesList(entries, isWeak, d) then 1 else 0)
        + Removals(Cut(entries, d), isWeak, [d][1..]);
    assert [d][1..] == [];
  }

  lemma {:induction false} OneMoreTaken(entries: seq<Option<Delegate>>, isWeak: bool, srcWeak: bool, d: Delegate,
      rest: seq<Delegate>, combine: bool, weak: bool, next: seq<Option<Delegate>>)
    requires Followed(entries, d, combine, next)
    requires !combine && |entries| >= 2 ==> isWeak == srcWeak
    ensures ListsTaken(entries, srcWeak, [d] + rest, combine, weak)
            == ListsTaken(entries, isWeak, [d], combine, weak) + ListsTaken(next, srcWeak, rest, combine, weak)
  {
    assert ([d] + rest)[1..] == rest;
    if !combine {
      assert Removals(Cut(entries, d), isWeak, [d][1..]) == 0;
    }
  }

  method ChangeOne(src: Ref, d: Delegate, combine: bool, weak: bool, room: nat) returns (res: Result, left: nat)
    requires ValidRef(src) && !src.Value?
    ensures res.WrongType? <==> src.Other?
    ensures !src.Other? ==> Charged(res, room, left, ListsTaken(EntriesOf(src), IsWeak(src), [d], combine, weak))
    ensures res.Ok? ==> ValidRef(res.reference) && Followed(EntriesOf(src), d, combine, EntriesOf(res.reference))
    ensures res.Ok? ==> FlagKept(IsWeak(src), combine, weak, |EntriesOf(res.reference)|, IsWeak(res.reference))
    ensures res.Ok? ==> ValidRef(res.reference) && !res.reference.Other? && !res.reference.Value?
    ensures res.Ok? ==> Denotes(res.reference) == Changed(Denotes(src), [d], combine)
    ensures res.Ok? && !combine ==> TookOut(Denotes(src), d, Denotes(res.reference))
  {
    CutIs(EntriesOf(src), d);
    ChangedStep(Denotes(src), [], d, combine);
    assert [] + [d] == [d];
    OneTaken(EntriesOf(src), IsWeak(src), d, combine, weak);
    LiveCut(EntriesOf(src), d);
    if combine { res, left := CombineOne(src, d, weak, room); } else { res, left := RemoveOne(src, d, room); }
  }

  /** Combines with, or removes, every live delegate of the target, one after the other.  A target
      list of which nothing is left loses the source: the result is null. */
  method Change(src: Ref, target: Ref, combine: bool, weak: bool, room: nat) returns (res: Result, left: nat)
    requires ValidRef(src) && ValidRef(target) && !target.Other?
    ensures res.WrongType? <==> src.Value? || target.Value? || (src.Other? && Denotes(target) != [])
    ensures !res.WrongType? ==>
              Charged(res, room, left, ListsTaken(EntriesOf(src), IsWeak(src), Denotes(target), combine, weak))
    ensures res.Ok? ==> ValidRef(res.reference)
    ensures target.Null? && !src.Value? ==> res == Ok(src)
    ensures DeadList(target) && !src.Value? ==> res == Ok(Null)
    ensures res.Ok? && !DeadList(target) ==> Denotes(res.reference) == Changed(Denotes(src), Denotes(target), combine)
    ensures res.Ok? && Denotes(target) != [] ==>
              FlagKept(IsWeak(src), combine, weak, |EntriesOf(res.reference)|, IsWeak(res.reference))
  {
    left := room;
    if src.Value? || target.Value? { return WrongType, left; }
    match target {
      case Null =>
        assert Denotes(src) + [] == Denotes(src);
        res := Ok(src);
      case Single(d) =>
        assert Denotes(target) == [d];
        res, left := ChangeOne(src, d, combine, weak, room);
      case Many(list) =>
        res, left := ChangeEach(src, list, combine, weak, room);
    }
  }

  method ChangeEach(src: Ref, list: DelegateList, combine: bool, weak: bool, room: nat) returns (res: Result, left: nat)
    requires ValidRef(src) && !src.Value? && list.Valid()
    ensures res.WrongType? <==> src.Other? && Live(list.delegates[..list.length]) != []
    ensures res.Ok? ==> ValidRef(res.reference)
    ensures Live(list.delegates[..list.length]) == [] ==> res == Ok(Null)
    ensures Done(Job(EntriesOf(src), IsWeak(src), list.delegates[..list.length], combine, weak, room), res,
                if res.Ok? then EntriesOf(res.reference) else [], res.Ok? && IsWeak(res.reference), left)
  {
    var intermediate := src;
    ghost var entries := list.delegates[..list.length];
    ghost var now, isWeak := EntriesOf(src), IsWeak(src);
    ghost var job := Job(now, isWeak, entries, combine, weak, room);
    res, left := Ok(Null), room;
    UnderwayStart(job);
    for num := 0 to list.length
      invariant list.delegates[..list.length] == entries && list.Valid()
      invariant ValidRef(intermediate) && !intermediate.Value?
      invariant now == EntriesOf(intermediate) && isWeak == IsWeak(intermediate)
      invariant Underway(job, num, now, isWeak, left)
      invariant Live(entries[..num]) == [] ==> intermediate == src && res == Ok(Null)
      invariant Live(entries[..num]) != [] ==> res == Ok(intermediate) && !intermediate.Other? && !src.Other?
    {
      assert list.delegates[num] == entries[num];
      if list.delegates[num].Some? {
        StillLive(entries, num);
        res, left := ChangeNext(intermediate, list.delegates[num].value, combine, weak, left, job, num);
        if !res.Ok? { return; }
        intermediate := res.reference;
        now, isWeak := EntriesOf(intermediate), IsWeak(intermediate);
      } else {
        UnderwaySkip(job, num, now, isWeak, left);
      }
    }
    assert entries[..|entries|] == entries;
    UnderwayDone(job, now, isWeak, left, res, if Live(entries) == [] then [] else now, Live(entries) != [] && isWeak);
  }

  method ChangeNext(src: Ref, d: Delegate, combine: bool, weak: bool, room: nat, ghost job: Job, ghost i: nat)
      returns (res: Result, left: nat)
    requires ValidRef(src) && !src.Value? && job.combine == combine && job.weak == weak
    requires Underway(job, i, EntriesOf(src), IsWeak(src), room) && i < |job.target| && job.target[i] == Some(d)
    ensures res.WrongType? <==> src.Other?
    ensures !res.Ok? ==> Done(job, res, [], false, left)
    ensures res.Ok? ==> ValidRef(res.reference) && !res.reference.Other? && !res.reference.Value?
    ensures res.Ok? ==>
              Underway(job, i + 1, EntriesOf(res.reference), IsWeak(res.reference), left)
              && Live(job.target[..i + 1]) != []
  {
    ghost var now, isWeak := EntriesOf(src), IsWeak(src);
    res, left := ChangeOne(src, d, combine, weak, room);
    if !res.WrongType? {
      UnderwayNext(job, i, now, isWeak, room, res, left,
          if res.Ok? then EntriesOf(res.reference) else [], res.Ok? && IsWeak(res.reference));
    }
  }

  /** One call: the source's entries and whether they are a weak list, the target's entries, what is
      to be done, and the room there is for lists. */
  datatype Job = Job(src: seq<Option<Delegate>>, srcWeak: bool, target: seq<Option<Delegate>>, combine: bool,
      weak: bool, room: nat)
  {
    ghost function All(): nat {
      ListsTaken(src, srcWeak, Live(target), combine, weak)
    }
  }

  /** Between the entries of the target: the source has been changed by those before i, and the room
      that is left pays for the others exactly if the room at the start paid for all. */
  ghost predicate Underway(job: Job, i: nat, now: seq<Option<Delegate>>, isWeak: bool, left: nat) {
    && i <= |job.target|
    && Live(now) == Changed(Live(job.src), Live(job.target[..i]), job.combine)
    && left + job.All() == job.room + ListsTaken(now, job.srcWeak, Live(job.target[i..]), job.combine, job.weak)
    && (if Live(job.target[..i]) == [] then isWeak == job.srcWeak
        else FlagKept(job.srcWeak, job.combine, job.weak, |now|, isWeak))
  }

  /** All live entries of the target have been dealt with, or one of them has met with an error. */
  ghost predicate Done(job: Job, res: Result, now: seq<Option<Delegate>>, isWeak: bool, left: nat) {
    && (!res.WrongType? ==> Charged(res, job.room, left, job.All()))
    && (res.Ok? && Live(job.target) != [] ==>
          && Live(now) == Changed(Live(job.src), Live(job.target), job.combine)
          && FlagKept(job.srcWeak, job.combine, job.weak, |now|, isWeak))
  }

  lemma UnderwayStart(job: Job)
    ensures Underway(job, 0, job.src, job.srcWeak, job.room)
  {
    NothingChanged(Live(job.src), job.combine);
    assert job.target[0..] == job.target;
  }

  lemma UnderwayDone(job: Job, now: seq<Option<Delegate>>, isWeak: bool, left: nat, res: Result,
      end: seq<Option<Delegate>>, endWeak: bool)
    requires Underway(job, |job.target|, now, isWeak, left) && res.Ok?
    requires Live(job.target) != [] ==> end == now && endWeak == isWeak
    ensures Done(job, res, end, endWeak, left)
  {
    assert job.target[..|job.target|] == job.target && job.target[|job.target|..] == [];
  }

  lemma {:induction false} UnderwaySkip(job: Job, i: nat, now: seq<Option<Delegate>>, isWeak: bool, left: nat)
    requires Underway(job, i, now, isWeak, left) && i < |job.target| && job.target[i].None?
    ensures Underway(job, i + 1, now, isWeak, left) && Live(job.target[..i + 1]) == Live(job.target[..i])
  {
    LivePrefix(job.target, i);
    LiveFrom(job.target, i);
  }

  lemma {:induction false} UnderwayNext(job: Job, i: nat, now: seq<Option<Delegate>>, isWeak: bool, left: nat,
      res: Result, left': nat, next: seq<Option<Delegate>>, nextWeak: bool)
    requires Underway(job, i, now, isWeak, left) && i < |job.target| && job.target[i].Some?
    requires Charged(res, left, left', ListsTaken(now, isWeak, [job.target[i].value], job.combine, job.weak))
    requires res.Ok? ==> Followed(now, job.target[i].value, job.combine, next)
    requires res.Ok? ==> Live(next) == Changed(Live(now), [job.target[i].value], job.combine)
    requires res.Ok? ==> FlagKept(isWeak, job.combine, job.weak, |next|, nextWeak)
    requires res.Ok? && !job.combine ==> |next| <= |now|
    ensures res.OutOfMemory? ==> job.room < job.All()
    ensures res.Ok? ==> Underway(job, i + 1, next, nextWeak, left') && Live(job.target[..i + 1]) != []
  {
    Charge(job.target, i, now, isWeak, job.srcWeak, job.combine, job.weak, job.room, left, job.All(), res, left', next);
    NextChanged(Live(job.src), job.target, i, job.combine, Live(now));
  }

  /** What one more live entry of the target takes from the room that is left. */
  lemma {:induction false} Charge(entries: seq<Option<Delegate>>, i: nat, now: seq<Option<Delegate>>, isWeak: bool,
      srcWeak: bool, combine: bool, weak: bool, room: nat, left: nat, all: nat, res: Result, left': nat,
      next: seq<Option<Delegate>>)
    requires i < |entries| && entries[i].Some? && (!combine && |now| >= 2 ==> isWeak == srcWeak)
    requires left + all == room + ListsTaken(now, srcWeak, Live(entries[i..]), combine, weak)
    requires Charged(res, left, left', ListsTaken(now, isWeak, [entries[i].value], combine, weak))
    requires res.Ok? ==> Followed(now, entries[i].value, combine, next)
    ensures res.OutOfMemory? ==> room < all
    ensures res.Ok? ==> left' + all == room + ListsTaken(next, srcWeak, Live(entries[i + 1..]), combine, weak)
  {
    var d, rest := entries[i].value, Live(entries[i + 1..]);
    LiveFrom(entries, i);
    var any := if res.Ok? then next else if combine then [None] else Cut(now, d);
    OneMoreTaken(now, isWeak, srcWeak, d, rest, combine, weak, any);
  }

  lemma LiveFrom(entries: seq<Option<Delegate>>, i: nat)
    requires i < |entries|
    ensures Live(entries[i..])
            == if entries[i].Some? then [entries[i].value] + Live(entries[i + 1..]) else Live(entries[i + 1..])
  {
    assert entries[i..][1..] == entries[i + 1..];
    assert [] + Live(entries[i + 1..]) == Live(entries[i + 1..]);
  }

  /** One more live entry of the target. */
  lemma {:induction false} NextChanged(s: seq<Delegate>, entries: seq<Option<Delegate>>, i: nat, combine: bool,
      mid: seq<Delegate>)
    requires i < |entries| && entries[i].Some? && mid == Changed(s, Live(entries[..i]), combine)
    ensures Changed(mid, [entries[i].value], combine) == Changed(s, Live(entries[..i + 1]), combine)
    ensures Live(entries) != [] && Live(entries[..i + 1]) != []
  {
    StillLive(entries, i);
    LivePrefix(entries, i);
    ChangedTwice(s, Live(entries[..i]), entries[i].value, combine, mid, Changed(mid, [entries[i].value], combine));
  }

  lemma NothingChanged(s: seq<Delegate>, combine: bool)
    ensures Changed(s, [], combine) == s
  {
    assert s + [] == s;
  }

  lemma {:induction false} LivePrefix(entries: seq<Option<Delegate>>, i: nat)
    requires i < |entries|
    ensures Live(entries[..i + 1])
              == if entries[i].Some? then Live(entries[..i]) + [entries[i].value] else Live(entries[..i])
  {
    LiveAdds(entries[..i], [entries[i]]);
    assert entries[..i + 1] == entries[..i] + [entries[i]];
    assert Live([entries[i]]) == OneLive(entries[i]);
  }

  lemma {:induction false} ChangedTwice(s: seq<Delegate>, done: seq<Delegate>, d: Delegate, combine: bool,
      mid: seq<Delegate>, after: seq<Delegate>)
    requires mid == Changed(s, done, combine) && after == Changed(mid, [d], combine)
    ensures after == Changed(s, done + [d], combine)
  {
    ChangedStep(s, done, d, combine);
    ChangedStep(mid, [], d, combine);
    assert [] + [d] == [d];
    NothingChanged(mid, combine);
  }

  lemma {:induction false} StillLive(entries: seq<Option<Delegate>>, i: nat)
    requires i < |entries| && entries[i].Some?
    ensures Live(entries) != []
  {
    assert entries == entries[..i] + ([entries[i]] + entries[i + 1..]);
    LiveAdds(entries[..i], [entries[i]] + entries[i + 1..]);
    LiveAdds([entries[i]], entries[i + 1..]);
  }

  method Combine(src: Ref, added: Ref, weak: bool, room: nat) returns (res: Result)
    requires ValidRef(src) && ValidRef(added) && !added.Other?
    ensures res.Ok? ==> ValidRef(res.reference)
    ensures res.Ok? ==>
              (Denotes(res.reference) == Denotes(src) + Denotes(added) <==> !DeadList(added) || Denotes(src) == [])
    ensures res.Ok? && Denotes(added) != [] ==>
              && (weak ==> IsWeak(res.reference)) && (!weak && !IsWeak(src) ==> !IsWeak(res.reference))
    ensures res.WrongType? <==> src.Value? || added.Value? || (src.Other? && Denotes(added) != [])
    ensures !res.WrongType? ==>
              (res.OutOfMemory? <==>
                  room < |Denotes(added)| - if EntriesOf(src) == [] && !weak && Denotes(added) != [] then 1 else 0)
  {
    var left;
    res, left := Change(src, added, true, weak, room);
  }

  method Remove(src: Ref, removed: Ref, room: nat) returns (res: Result)
    requires ValidRef(src) && ValidRef(removed) && !removed.Other?
    ensures res.Ok? ==> ValidRef(res.reference)
    ensures res.Ok? ==>
              (Denotes(res.reference) == DeleteEach(Denotes(src), Denotes(removed)) <==>
              !DeadList(removed) || Denotes(src) == [])
    ensures res.Ok? && !DeadList(removed) ==> TookEach(Denotes(src), Denotes(removed), Denotes(res.reference))
    ensures res.Ok? && Denotes(removed) != [] && |EntriesOf(res.reference)| >= 2 ==>
              IsWeak(res.reference) == IsWeak(src)
    ensures res.WrongType? <==> src.Value? || removed.Value? || (src.Other? && Denotes(removed) != [])
    ensures !res.WrongType? ==> (res.OutOfMemory? <==> room < Removals(EntriesOf(src), IsWeak(src), Denotes(removed)))
  {
    var left;
    DeleteEachIs(Denotes(src), Denotes(removed));
    res, left := Change(src, removed, false, false, room);
  }
}
