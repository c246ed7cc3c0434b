/** Monitors: locks owned by a thread through its subthreads, with recursion, a queue of requests
    and a hand-over to the oldest one. */
module Locks {
  import opened Options

  datatype Owner = Owner(sub: nat, recursion: nat)

  datatype Lock = Free | Held(thread: nat, owners: seq<Owner>, requests: seq<nat>)

  /** Which thread each subthread belongs to. */
  datatype Config = Config(threadOf: seq<nat>, threads: nat)

  /** All locks, the request counts of subthreads and of threads, and which threads wait for a lock. */
  datatype System = System(locks: seq<Lock>, subCounts: seq<int>, threadCounts: seq<int>, waiting: seq<bool>)

  datatype Status = Ok | ThreadWaiting | SynchronizationException

  // ---------------------------------------------------------------- counting requests

  function InQueue(requests: seq<nat>, s: nat): nat {
    if requests == [] then 0 else (if requests[0] == s then 1 else 0) + InQueue(requests[1..], s)
  }

  function InQueueBy(c: Config, requests: seq<nat>, t: nat): nat {
    if requests == [] then 0
    else (if requests[0] < |c.threadOf| && c.threadOf[requests[0]] == t then 1 else 0) + InQueueBy(c, requests[1..], t)
  }

  function Requests(l: Lock): seq<nat> {
    if l.Held? then l.requests else []
  }

  function Total(locks: seq<Lock>, s: nat): nat {
    if locks == [] then 0 else InQueue(Requests(locks[0]), s) + Total(locks[1..], s)
  }

  function TotalBy(c: Config, locks: seq<Lock>, t: nat): nat {
    if locks == [] then 0 else InQueueBy(c, Requests(locks[0]), t) + TotalBy(c, locks[1..], t)
  }

  lemma {:induction false} TotalUpdate(c: Config, locks: seq<Lock>, r: nat, l: Lock, s: nat, t: nat)
    requires r < |locks|
    ensures Total(locks[r := l], s) + InQueue(Requests(locks[r]), s) == Total(locks, s) + InQueue(Requests(l), s)
    ensures TotalBy(c, locks[r := l], t) + InQueueBy(c, Requests(locks[r]), t) == TotalBy(c, locks, t)
              + InQueueBy(c, Requests(l), t)
    ensures InQueue(Requests(locks[r]), s) <= Total(locks, s)
    ensures InQueueBy(c, Requests(locks[r]), t) <= TotalBy(c, locks, t)
    decreases |locks|
  {
    if r == 0 {
      assert locks[r := l][1..] == locks[1..];
    } else {
      TotalUpdate(c, locks[1..], r - 1, l, s, t);
      assert locks[r := l][1..] == locks[1..][r - 1 := l];
    }
  }

  lemma {:induction false} QueueAppend(c: Config, requests: seq<nat>, x: nat, s: nat, t: nat)
    ensures InQueue(requests + [x], s) == InQueue(requests, s) + if x == s then 1 else 0
    ensures InQueueBy(c, requests + [x], t) == InQueueBy(c, requests, t)
              + if x < |c.threadOf| && c.threadOf[x] == t then 1 else 0
  {
    if requests != [] {
      QueueAppend(c, requests[1..], x, s, t);
      assert (requests + [x])[1..] == requests[1..] + [x];
    } else {
      assert requests + [x] == [x];
    }
  }

  lemma {:induction false} QueueWithout(c: Config, requests: seq<nat>, i: nat, s: nat, t: nat)
    requires i < |requests|
    ensures InQueue(requests, s) == InQueue(requests[..i] + requests[i + 1..], s) + if requests[i] == s then 1 else 0
    ensures InQueueBy(c, requests, t) ==
            InQueueBy(c, requests[..i] + requests[i + 1..], t)
                + if requests[i] < |c.threadOf| && c.threadOf[requests[i]] == t then 1 else 0
  {
    var rest := requests[..i] + requests[i + 1..];
    if i == 0 {
      assert rest == requests[1..];
    } else {
      QueueWithout(c, requests[1..], i - 1, s, t);
      assert rest[1..] == requests[1..][..i - 1] + requests[1..][i..];
    }
  }

  lemma {:induction false} NotInQueue(c: Config, requests: seq<nat>, t: nat)
    requires InQueueBy(c, requests, t) == 0
    ensures forall i | 0 <= i < |requests| && requests[i] < |c.threadOf| :: c.threadOf[requests[i]] != t
  {
    if requests != [] {
      NotInQueue(c, requests[1..], t);
      forall i | 0 <= i < |requests| && requests[i] < |c.threadOf| ensures c.threadOf[requests[i]] != t {
        if i > 0 { assert requests[i] == requests[1..][i - 1]; }
      }
    }
  }

  // ---------------------------------------------------------------- the operations

  /** The index of the owner record of subthread s, or the number of records. */
  function FindOwner(owners: seq<Owner>, s: nat): (i: nat)
    ensures i <= |owners| && (i < |owners| ==> owners[i].sub == s) && forall j | 0 <= j < i :: owners[j].sub != s
  {
    if owners == [] || owners[0].sub == s then 0
    else
      assert forall j | 0 < j < |owners| :: owners[j] == owners[1..][j - 1];
      1 + FindOwner(owners[1..], s)
  }

  function RemoveOwner(owners: seq<Owner>, i: nat): seq<Owner>
    requires i < |owners|
  {
    owners[..i] + owners[i + 1..]
  }

  function ThreadOf(c: Config, s: nat): nat {
    if s < |c.threadOf| then c.threadOf[s] else 0
  }

  predicate Fits(c: Config, sys: System) {
    && |sys.subCounts| == |c.threadOf| && |sys.threadCounts| == c.threads && |sys.waiting| == c.threads
    && forall s | 0 <= s < |c.threadOf| :: c.threadOf[s] < c.threads
  }

  function ChangeLockRequestCount(c: Config, sys: System, s: nat, diff: int): System
    requires Fits(c, sys)
  {
    if s >= |c.threadOf| then sys
    else
      var t := c.threadOf[s];
      sys.(subCounts := sys.subCounts[s := sys.subCounts[s] + diff],
           threadCounts := sys.threadCounts[t := sys.threadCounts[t] + diff],
           waiting := sys.waiting[t := sys.threadCounts[t] + diff != 0])
  }

  /** Nobody owns the lock any more: it goes to the oldest request, or away. */
  function ChangeOwner(c: Config, sys: System, r: nat): System
    requires Fits(c, sys) && r < |sys.locks|
  {
    var requests := Requests(sys.locks[r]);
    if requests == [] then sys.(locks := sys.locks[r := Free])
    else
      var s := requests[0];
      ChangeLockRequestCount(c, sys, s, -1).(locks := sys.locks[r := Held(ThreadOf(c, s), [Owner(s, 1)],
          requests[1..])])
  }

  /** The owner records of a lock after an acquisition by subthread s of the owning thread. */
  function Entered(owners: seq<Owner>, s: nat): seq<Owner> {
    var i := FindOwner(owners, s);
    if i < |owners| then owners[i := Owner(s, owners[i].recursion + 1)] else [Owner(s, 1)] + owners
  }

  function LockObject(c: Config, sys: System, r: nat, s: nat): (System, Status)
    requires Fits(c, sys) && r < |sys.locks| && s < |c.threadOf|
  {
    var t := c.threadOf[s];
    match sys.locks[r]
    case Free => (sys.(locks := sys.locks[r := Held(t, [Owner(s, 1)], [])]), Ok)
    case Held(thread, owners, requests) =>
      if thread == t then (sys.(locks := sys.locks[r := Held(t, Entered(owners, s), requests)]), Ok)
      else (ChangeLockRequestCount(c, sys, s, 1).(locks := sys.locks[r := Held(thread, owners, requests + [s])]),
          ThreadWaiting)
  }

  /** The owner records once the i-th one has been left once. */
  function Left(owners: seq<Owner>, i: nat): seq<Owner>
    requires i < |owners|
  {
    if owners[i].recursion <= 1 then RemoveOwner(owners, i)
    else owners[i := owners[i].(recursion := owners[i].recursion - 1)]
  }

  function UnlockObject(c: Config, sys: System, r: nat, s: nat): (System, Status)
    requires Fits(c, sys) && r < |sys.locks| && s < |c.threadOf|
  {
    var l := sys.locks[r];
    if l.Free? || l.thread != c.threadOf[s] || FindOwner(l.owners, s) == |l.owners| then (sys, SynchronizationException)
    else
      var owners := Left(l.owners, FindOwner(l.owners, s));
      var sys1 := sys.(locks := sys.locks[r := l.(owners := owners)]);
      (if owners == [] then ChangeOwner(c, sys1, r) else sys1, Ok)
  }

  function WithoutOwner(owners: seq<Owner>, s: nat): (r: seq<Owner>)
    ensures forall o :: o in r <==> o in owners && o.sub != s
    ensures |r| <= |owners|
  {
    if owners == [] then [] else (if owners[0].sub == s then [] else [owners[0]]) + WithoutOwner(owners[1..], s)
  }

  /** Subthread s of the owning thread goes away. */
  function DestroyOwner(c: Config, sys: System, r: nat, s: nat): System
    requires Fits(c, sys) && r < |sys.locks| && s < |c.threadOf|
  {
    var l := sys.locks[r];
    if l.Free? || l.thread != c.threadOf[s] then sys
    else
      var sys1 := sys.(locks := sys.locks[r := l.(owners := WithoutOwner(l.owners, s))]);
      if sys1.locks[r].owners == [] then ChangeOwner(c, sys1, r) else sys1
  }

  /** The i-th request is withdrawn: it has timed out, or its subthread goes away. */
  function DropRequest(c: Config, sys: System, r: nat, i: nat): System
    requires Fits(c, sys) && r < |sys.locks|
  {
    var l := sys.locks[r];
    if l.Free? || |l.requests| <= i then sys
    else ChangeLockRequestCount(c, sys, l.requests[i],
        -1).(locks := sys.locks[r := l.(requests := l.requests[..i] + l.requests[i + 1..])])
  }

  // ---------------------------------------------------------------- the invariant

  ghost predicate OwnerOk(c: Config, thread: nat, o: Owner) {
    o.sub < |c.threadOf| && c.threadOf[o.sub] == thread && 1 <= o.recursion
  }

  /** Owner records belong to the owning thread, one for each subthread; requests come from others. */
  ghost predicate LockOk(c: Config, l: Lock) {
    l.Held? ==>
      && l.owners != [] && l.thread < c.threads
      && (forall i | 0 <= i < |l.owners| :: OwnerOk(c, l.thread, l.owners[i]))
      && (forall i, j | 0 <= i < j < |l.owners| :: l.owners[i].sub != l.owners[j].sub)
      && (forall i | 0 <= i < |l.requests| :: l.requests[i] < |c.threadOf| && c.threadOf[l.requests[i]] != l.thread)
  }

  /** The counts are right, and a thread waits exactly while it has a request queued, which it can
      have only once. */
  ghost predicate SystemOk(c: Config, sys: System) {
    && Fits(c, sys)
    && (forall r | 0 <= r < |sys.locks| :: LockOk(c, sys.locks[r]))
    && (forall s: nat | s < |c.threadOf| :: sys.subCounts[s] == Total(sys.locks, s))
    && (forall t: nat | t < c.threads :: ThreadOk(c, sys, t))
  }

  ghost predicate ThreadOk(c: Config, sys: System, t: nat)
    requires |sys.threadCounts| == |sys.waiting| == c.threads && t < c.threads
  {
    && sys.threadCounts[t] == TotalBy(c, sys.locks, t) <= 1
    && sys.waiting[t] == (sys.threadCounts[t] != 0)
  }

  /** Subthread s has `diff` more requests in the second queue. */
  ghost predicate QueueShift(c: Config, q: seq<nat>, q': seq<nat>, s: nat, diff: int) {
    && (forall x: nat :: ShiftOf(q, q', s, diff, x))
    && (forall t: nat :: ShiftBy(c, q, q', s, diff, t))
  }

  ghost predicate ShiftOf(q: seq<nat>, q': seq<nat>, s: nat, diff: int, x: nat) {
    InQueue(q', x) == InQueue(q, x) + if x == s then diff else 0
  }

  ghost predicate ShiftBy(c: Config, q: seq<nat>, q': seq<nat>, s: nat, diff: int, t: nat) {
    InQueueBy(c, q', t) == InQueueBy(c, q, t) + if s < |c.threadOf| && t == c.threadOf[s] then diff else 0
  }

  lemma AppendShift(c: Config, q: seq<nat>, s: nat)
    ensures QueueShift(c, q, q + [s], s, 1)
  {
    forall x: nat ensures ShiftOf(q, q + [s], s, 1, x) {
      QueueAppend(c, q, s, x, 0);
    }
    forall t: nat ensures ShiftBy(c, q, q + [s], s, 1, t) {
      QueueAppend(c, q, s, 0, t);
    }
  }

  lemma WithoutShift(c: Config, q: seq<nat>, i: nat, q': seq<nat>)
    requires i < |q| && q' == q[..i] + q[i + 1..]
    ensures QueueShift(c, q, q', q[i], -1)
  {
    forall x: nat ensures ShiftOf(q, q', q[i], -1, x) {
      QueueWithout(c, q, i, x, 0);
    }
    forall t: nat ensures ShiftBy(c, q, q', q[i], -1, t) {
      QueueWithout(c, q, i, 0, t);
    }
  }

  lemma CountsAfter(c: Config, sys: System, r: nat, l: Lock, s: nat, diff: int)
    requires SystemOk(c, sys) && r < |sys.locks| && s < |c.threadOf|
    requires QueueShift(c, Requests(sys.locks[r]), Requests(l), s, diff)
    requires TotalBy(c, sys.locks, c.threadOf[s]) + diff <= 1
    requires LockOk(c, l)
    ensures SystemOk(c, ChangeLockRequestCount(c, sys, s, diff).(locks := sys.locks[r := l]))
  {
    var sys' := ChangeLockRequestCount(c, sys, s, diff).(locks := sys.locks[r := l]);
    forall x: nat | x < |c.threadOf| ensures sys'.subCounts[x] == Total(sys'.locks, x) {
      TotalUpdate(c, sys.locks, r, l, x, 0);
      assert ShiftOf(Requests(sys.locks[r]), Requests(l), s, diff, x);
    }
    forall t: nat | t < c.threads ensures ThreadOk(c, sys', t) {
      TotalUpdate(c, sys.locks, r, l, 0, t);
      assert ThreadOk(c, sys, t) && ShiftBy(c, Requests(sys.locks[r]), Requests(l), s, diff, t);
    }
  }

  /** Changing a lock but not its queue. */
  lemma SameQueue(c: Config, sys: System, r: nat, l: Lock)
    requires SystemOk(c, sys) && r < |sys.locks| && Requests(l) == Requests(sys.locks[r]) && LockOk(c, l)
    ensures SystemOk(c, sys.(locks := sys.locks[r := l]))
  {
    var sys' := sys.(locks := sys.locks[r := l]);
    forall x: nat | x < |c.threadOf| ensures sys'.subCounts[x] == Total(sys'.locks, x) {
      TotalUpdate(c, sys.locks, r, l, x, 0);
    }
    forall t: nat | t < c.threads ensures ThreadOk(c, sys', t) {
      TotalUpdate(c, sys.locks, r, l, 0, t);
      assert ThreadOk(c, sys, t);
    }
  }

  lemma {:induction false} EnteredOk(c: Config, thread: nat, owners: seq<Owner>, s: nat)
    requires s < |c.threadOf| && c.threadOf[s] == thread
    requires forall i | 0 <= i < |owners| :: OwnerOk(c, thread, owners[i])
    requires forall i, j | 0 <= i < j < |owners| :: owners[i].sub != owners[j].sub
    ensures Entered(owners, s) != []
    ensures forall i | 0 <= i < |Entered(owners, s)| :: OwnerOk(c, thread, Entered(owners, s)[i])
    ensures forall i, j | 0 <= i < j < |Entered(owners, s)| :: Entered(owners, s)[i].sub != Entered(owners, s)[j].sub
  {
  }

  /** A lock operation keeps the invariant, if the thread that asks is running. */
  lemma {:induction false} LockKeeps(c: Config, sys: System, r: nat, s: nat)
    requires SystemOk(c, sys) && r < |sys.locks| && s < |c.threadOf| && !sys.waiting[c.threadOf[s]]
    ensures SystemOk(c, LockObject(c, sys, r, s).0)
  {
    var t := c.threadOf[s];
    assert LockOk(c, sys.locks[r]) && ThreadOk(c, sys, t);
    match sys.locks[r] {
      case Free => SameQueue(c, sys, r, Held(t, [Owner(s, 1)], []));
      case Held(thread, owners, requests) =>
        if thread == t {
          EnteredOk(c, t, owners, s);
          SameQueue(c, sys, r, Held(t, Entered(owners, s), requests));
        } else {
          AppendShift(c, requests, s);
          CountsAfter(c, sys, r, Held(thread, owners, requests + [s]), s, 1);
        }
    }
  }

  lemma {:induction false} HandedOver(c: Config, sys: System, r: nat, l: Lock, l': Lock)
    requires SystemOk(c, sys) && r < |sys.locks| && l == sys.locks[r] && LockOk(c, l) && l.Held? && l.requests != []
    requires l' == Held(c.threadOf[l.requests[0]], [Owner(l.requests[0], 1)], l.requests[1..])
    ensures LockOk(c, l') && QueueShift(c, l.requests, l'.requests, l.requests[0], -1)
    ensures TotalBy(c, sys.locks, c.threadOf[l.requests[0]]) == 1
  {
    var t := c.threadOf[l.requests[0]];
    assert ThreadOk(c, sys, t);
    TotalUpdate(c, sys.locks, r, l', 0, t);
    NotInQueue(c, l.requests[1..], t);
    FirstServed(c, l.requests);
  }

  lemma FirstServed(c: Config, q: seq<nat>)
    requires q != []
    ensures QueueShift(c, q, q[1..], q[0], -1)
  {
    assert q[..0] + q[1..] == q[1..];
    WithoutShift(c, q, 0, q[1..]);
  }

  /** A hand-over keeps the invariant. */
  lemma {:induction false} HandOverKeeps(c: Config, sys: System, r: nat)
    requires SystemOk(c, sys) && r < |sys.locks| && sys.locks[r].Held?
    ensures SystemOk(c, ChangeOwner(c, sys, r))
  {
    var l := sys.locks[r];
    assert LockOk(c, l);
    if l.requests == [] {
      SameQueue(c, sys, r, Free);
    } else {
      var l' := Held(ThreadOf(c, l.requests[0]), [Owner(l.requests[0], 1)], l.requests[1..]);
      HandedOver(c, sys, r, l, l');
      CountsAfter(c, sys, r, l', l.requests[0], -1);
    }
  }

  /** Of the lock's records only the queue matters to a hand-over. */
  lemma OwnersForgotten(c: Config, sys: System, r: nat)
    requires Fits(c, sys) && r < |sys.locks| && sys.locks[r].Held?
    ensures ChangeOwner(c, sys.(locks := sys.locks[r := sys.locks[r].(owners := [])]), r) == ChangeOwner(c, sys, r)
  {
    var l := sys.locks[r];
    var locks1 := sys.locks[r := l.(owners := [])];
    var l' := if l.requests == [] then Free
              else Held(ThreadOf(c, l.requests[0]), [Owner(l.requests[0], 1)], l.requests[1..]);
    assert locks1[r := l'] == sys.locks[r := l'];
  }

  lemma {:induction false} LeftOk(c: Config, thread: nat, owners: seq<Owner>, i: nat)
    requires i < |owners| && forall i | 0 <= i < |owners| :: OwnerOk(c, thread, owners[i])
    requires forall i, j | 0 <= i < j < |owners| :: owners[i].sub != owners[j].sub
    ensures forall j | 0 <= j < |Left(owners, i)| :: OwnerOk(c, thread, Left(owners, i)[j])
    ensures forall j, k | 0 <= j < k < |Left(owners, i)| :: Left(owners, i)[j].sub != Left(owners, i)[k].sub
  {
  }

  lemma {:induction false} UnlockKeeps(c: Config, sys: System, r: nat, s: nat)
    requires SystemOk(c, sys) && r < |sys.locks| && s < |c.threadOf|
    ensures SystemOk(c, UnlockObject(c, sys, r, s).0)
  {
    var l := sys.locks[r];
    assert LockOk(c, l);
    if l.Held? && l.thread == c.threadOf[s] && FindOwner(l.owners, s) < |l.owners| {
      var owners := Left(l.owners, FindOwner(l.owners, s));
      LeftOk(c, l.thread, l.owners, FindOwner(l.owners, s));
      if owners == [] {
        OwnersForgotten(c, sys, r);
        HandOverKeeps(c, sys, r);
      } else {
        SameQueue(c, sys, r, l.(owners := owners));
      }
    }
  }

  lemma {:induction false} WithoutOwnerOk(c: Config, thread: nat, owners: seq<Owner>, s: nat)
    requires forall i, j | 0 <= i < j < |owners| :: owners[i].sub != owners[j].sub
    ensures forall i, j | 0 <= i < j < |WithoutOwner(owners, s)| ::
              WithoutOwner(owners, s)[i].sub != WithoutOwner(owners, s)[j].sub
  {
    if owners != [] {
      WithoutOwnerOk(c, thread, owners[1..], s);
      forall o | o in WithoutOwner(owners[1..], s) ensures o.sub != owners[0].sub {
        var k :| 0 <= k < |owners[1..]| && owners[1..][k] == o;
        assert owners[k + 1] == o;
      }
    }
  }

  lemma {:induction false} DestroyKeeps(c: Config, sys: System, r: nat, s: nat)
    requires SystemOk(c, sys) && r < |sys.locks| && s < |c.threadOf|
    ensures SystemOk(c, DestroyOwner(c, sys, r, s))
  {
    var l := sys.locks[r];
    assert LockOk(c, l);
    if l.Held? && l.thread == c.threadOf[s] {
      var owners := WithoutOwner(l.owners, s);
      if owners == [] {
        OwnersForgotten(c, sys, r);
        HandOverKeeps(c, sys, r);
      } else {
        WithoutOwnerOk(c, l.thread, l.owners, s);
        forall i | 0 <= i < |owners| ensures OwnerOk(c, l.thread, owners[i]) {
          assert owners[i] in owners;
        }
        SameQueue(c, sys, r, l.(owners := owners));
      }
    }
  }

  lemma {:induction false} DropKeeps(c: Config, sys: System, r: nat, i: nat)
    requires SystemOk(c, sys) && r < |sys.locks|
    ensures SystemOk(c, DropRequest(c, sys, r, i))
  {
    var l := sys.locks[r];
    assert LockOk(c, l);
    if l.Held? && i < |l.requests| {
      var s := l.requests[i];
      var rest := l.requests[..i] + l.requests[i + 1..];
      assert ThreadOk(c, sys, c.threadOf[s]);
      WithoutShift(c, l.requests, i, rest);
      CountsAfter(c, sys, r, l.(requests := rest), s, -1);
    }
  }

  /** Unlocking undoes a lock that was granted. */
  lemma {:induction false} UnlockUndoes(c: Config, sys: System, r: nat, s: nat)
    requires SystemOk(c, sys) && r < |sys.locks| && s < |c.threadOf| && LockObject(c, sys, r, s).1.Ok?
    ensures UnlockObject(c, LockObject(c, sys, r, s).0, r, s) == (sys, Ok)
  {
    var l := sys.locks[r];
    assert LockOk(c, l);
    var owners := if l.Free? then [Owner(s, 1)] else Entered(l.owners, s);
    var l1 := Held(c.threadOf[s], owners, Requests(l));
    assert LockObject(c, sys, r, s).0 == sys.(locks := sys.locks[r := l1]);
    var i := FindOwner(owners, s);
    if l.Free? {
      assert Left(owners, 0) == [];
      UndoneFree(c, sys, r, l1);
    } else {
      EnteredThenLeft(l.owners, s);
      assert sys.locks[r := l1][r := l] == sys.locks;
    }
  }

  lemma UndoneFree(c: Config, sys: System, r: nat, l1: Lock)
    requires Fits(c, sys) && r < |sys.locks| && sys.locks[r].Free? && l1.Held? && l1.requests == []
    ensures ChangeOwner(c, sys.(locks := sys.locks[r := l1][r := l1.(owners := [])]), r) == sys
  {
    assert sys.locks[r := l1][r := l1.(owners := [])][r := Free] == sys.locks;
  }

  lemma {:induction false} EnteredThenLeft(owners: seq<Owner>, s: nat)
    requires owners != [] && forall i | 0 <= i < |owners| :: 1 <= owners[i].recursion
    ensures FindOwner(Entered(owners, s), s) < |Entered(owners, s)|
    ensures Left(Entered(owners, s), FindOwner(Entered(owners, s), s)) == owners
  {
    var i := FindOwner(owners, s);
    if i < |owners| {
      var entered := Entered(owners, s);
      assert entered[i].sub == s && forall k | 0 <= k < i :: entered[k] == owners[k];
      assert FindOwner(entered, s) == i;
    } else {
      assert FindOwner([Owner(s, 1)] + owners, s) == 0;
    }
  }

  // ---------------------------------------------------------------- what the invariant and the steps give

  /** A waiting thread is queued on a lock that another thread owns: nobody waits for a free lock. */
  lemma {:induction false} WaitsForOther(c: Config, sys: System, t: nat) returns (r: nat)
    requires SystemOk(c, sys) && t < c.threads && sys.waiting[t]
    ensures r < |sys.locks| && sys.locks[r].Held? && sys.locks[r].thread != t && sys.locks[r].owners != []
    ensures exists i :: 0 <= i < |sys.locks[r].requests| && ThreadOf(c, sys.locks[r].requests[i]) == t
  {
    assert ThreadOk(c, sys, t);
    r := QueuedSomewhere(c, sys.locks, t);
    assert LockOk(c, sys.locks[r]);
    QueuedHere(c, Requests(sys.locks[r]), t);
  }

  lemma {:induction false} QueuedSomewhere(c: Config, locks: seq<Lock>, t: nat) returns (r: nat)
    requires TotalBy(c, locks, t) > 0
    ensures r < |locks| && InQueueBy(c, Requests(locks[r]), t) > 0
    decreases |locks|
  {
    r := 0;
    if InQueueBy(c, Requests(locks[0]), t) == 0 {
      r := QueuedSomewhere(c, locks[1..], t);
      r := r + 1;
    }
  }

  lemma {:induction false} QueuedHere(c: Config, requests: seq<nat>, t: nat)
    requires InQueueBy(c, requests, t) > 0
    ensures exists i :: 0 <= i < |requests| && requests[i] < |c.threadOf| && c.threadOf[requests[i]] == t
  {
    if !(requests[0] < |c.threadOf| && c.threadOf[requests[0]] == t) {
      QueuedHere(c, requests[1..], t);
      var i :| 0 <= i < |requests| - 1 && requests[1..][i] < |c.threadOf| && c.threadOf[requests[1..][i]] == t;
      assert requests[i + 1] == requests[1..][i];
    }
  }

  /** The lock goes to the oldest request with recursion 1, or is free when there is none. */
  ghost predicate HandedTo(c: Config, l: Lock, l': Lock)
    requires l.Held?
  {
    if l.requests == [] then l'.Free?
    else l' == Held(ThreadOf(c, l.requests[0]), [Owner(l.requests[0], 1)], l.requests[1..])
  }

  datatype Step = Acquire(r: nat, s: nat) | Release(r: nat, s: nat) | Destroy(r: nat, s: nat) | Withdraw(r: nat, i: nat)

  /** A step that names existing things; only a running thread can ask for a lock. */
  ghost predicate Enabled(c: Config, sys: System, step: Step) {
    && Fits(c, sys) && step.r < |sys.locks|
    && (!step.Withdraw? ==> step.s < |c.threadOf|)
    && (step.Acquire? ==> !sys.waiting[c.threadOf[step.s]])
  }

  ghost function Next(c: Config, sys: System, step: Step): System
    requires Enabled(c, sys, step)
  {
    match step
    case Acquire(r, s) => LockObject(c, sys, r, s).0
    case Release(r, s) => UnlockObject(c, sys, r, s).0
    case Destroy(r, s) => DestroyOwner(c, sys, r, s)
    case Withdraw(r, i) => DropRequest(c, sys, r, i)
  }

  ghost predicate Reaches(c: Config, sys: System, steps: seq<Step>, sys': System)
    decreases |steps|
  {
    if steps == [] then sys' == sys
    else Enabled(c, sys, steps[0]) && Reaches(c, Next(c, sys, steps[0]), steps[1..], sys')
  }

  lemma {:induction false} StepKeeps(c: Config, sys: System, step: Step)
    requires SystemOk(c, sys) && Enabled(c, sys, step)
    ensures SystemOk(c, Next(c, sys, step))
  {
    match step {
      case Acquire(r, s) => LockKeeps(c, sys, r, s);
      case Release(r, s) => UnlockKeeps(c, sys, r, s);
      case Destroy(r, s) => DestroyKeeps(c, sys, r, s);
      case Withdraw(r, i) => DropKeeps(c, sys, r, i);
    }
  }

  /** Over any run: owners, queues and counts agree, and nobody waits for a free lock. */
  lemma {:induction false} RunsKeep(c: Config, sys: System, steps: seq<Step>, sys': System)
    requires SystemOk(c, sys) && Reaches(c, sys, steps, sys')
    ensures SystemOk(c, sys')
    decreases |steps|
  {
    if steps != [] {
      StepKeeps(c, sys, steps[0]);
      RunsKeep(c, Next(c, sys, steps[0]), steps[1..], sys');
    }
  }

  /** The step takes away the lock's last owner record: its one owner leaves it for the last time, or
      goes away itself. */
  ghost predicate LastOwnerGone(l: Lock, step: Step)
    requires l.Held?
  {
    && !step.Acquire? && !step.Withdraw?
    && |l.owners| == 1 && l.owners[0].sub == step.s && (step.Release? ==> l.owners[0].recursion == 1)
  }

  /** A step hands the lock over if it takes the last owner record away, and then to the oldest request;
      any other step leaves a held lock with its thread, and frees none. */
  ghost predicate Changes(c: Config, l: Lock, step: Step, l': Lock) {
    if l.Free? then l' == l || (step.Acquire? && l' == Held(ThreadOf(c, step.s), [Owner(step.s, 1)], []))
    else if LastOwnerGone(l, step) then HandedTo(c, l, l')
    else l'.Held? && l'.thread == l.thread
  }

  /** Some owner record is that of subthread s. */
  ghost predicate Owns(l: Lock, s: nat) {
    l.Held? && exists i :: 0 <= i < |l.owners| && l.owners[i].sub == s
  }

  /** A free lock is taken; the lock of another thread gets a request at the back of its queue; in a
      lock of the thread's own the subthread's record counts one more, or a new one comes first. */
  ghost predicate Acquired(c: Config, l: Lock, s: nat, l': Lock)
    requires s < |c.threadOf|
  {
    if l.Free? then l' == Held(c.threadOf[s], [Owner(s, 1)], [])
    else if l.thread != c.threadOf[s] then l' == Held(l.thread, l.owners, l.requests + [s])
    else
      && (forall i | 0 <= i < |l.owners| && l.owners[i].sub == s ::
            l' == Held(l.thread, l.owners[i := Owner(s, l.owners[i].recursion + 1)], l.requests))
      && (!Owns(l, s) ==> l' == Held(l.thread, [Owner(s, 1)] + l.owners, l.requests))
  }

  /** Without an owner record of the subthread nothing changes. Otherwise the record counts one less; at 0
      it goes, and with the last one the lock is handed over. */
  ghost predicate Released(c: Config, l: Lock, s: nat, l': Lock)
    requires s < |c.threadOf|
  {
    if l.Free? || l.thread != c.threadOf[s] || !Owns(l, s) then l' == l
    else
      forall i | 0 <= i < |l.owners| && l.owners[i].sub == s ::
        if l.owners[i].recursion > 1 then
          l' == Held(l.thread, l.owners[i := Owner(s, l.owners[i].recursion - 1)], l.requests)
        else if |l.owners| > 1 then l' == Held(l.thread, l.owners[..i] + l.owners[i + 1..], l.requests)
        else HandedTo(c, l, l')
  }

  /** The record of the subthread goes, whatever its count, and with the last one the lock is handed over. */
  ghost predicate Deserted(c: Config, l: Lock, s: nat, l': Lock)
    requires s < |c.threadOf|
  {
    if l.Free? || l.thread != c.threadOf[s] || !Owns(l, s) then l' == l
    else
      forall i | 0 <= i < |l.owners| && l.owners[i].sub == s ::
        if |l.owners| > 1 then l' == Held(l.thread, l.owners[..i] + l.owners[i + 1..], l.requests)
        else HandedTo(c, l, l')
  }

  /** The i-th request is out of the queue; the others stay in their order. */
  ghost predicate Withdrawn(l: Lock, i: nat, l': Lock) {
    if l.Free? || |l.requests| <= i then l' == l
    else
      && l'.Held? && l'.thread == l.thread && l'.owners == l.owners && |l'.requests| == |l.requests| - 1
      && (forall j | 0 <= j < i :: l'.requests[j] == l.requests[j])
      && (forall j | i <= j < |l'.requests| :: l'.requests[j] == l.requests[j + 1])
  }

  ghost predicate StepIs(c: Config, l: Lock, step: Step, l': Lock)
    requires !step.Withdraw? ==> step.s < |c.threadOf|
  {
    match step
    case Acquire(r, s) => Acquired(c, l, s, l')
    case Release(r, s) => Released(c, l, s, l')
    case Destroy(r, s) => Deserted(c, l, s, l')
    case Withdraw(r, i) => Withdrawn(l, i, l')
  }

  lemma {:induction false} AcquireIs(c: Config, sys: System, r: nat, s: nat)
    requires SystemOk(c, sys) && r < |sys.locks| && s < |c.threadOf|
    ensures Acquired(c, sys.locks[r], s, LockObject(c, sys, r, s).0.locks[r])
    ensures LockObject(c, sys, r, s).1
              == if sys.locks[r].Held? && sys.locks[r].thread != c.threadOf[s] then ThreadWaiting else Ok
  {
    var l := sys.locks[r];
    assert LockOk(c, l);
    if l.Held? && l.thread == c.threadOf[s] {
      FoundOwner(l.owners, s);
    }
  }

  lemma {:induction false} FoundOwner(owners: seq<Owner>, s: nat)
    requires forall i, j | 0 <= i < j < |owners| :: owners[i].sub != owners[j].sub
    ensures forall i | 0 <= i < |owners| && owners[i].sub == s :: FindOwner(owners, s) == i
  {
    var k := FindOwner(owners, s);
    forall i | 0 <= i < |owners| && owners[i].sub == s ensures k == i {
      assert k <= i;
    }
  }

  lemma {:induction false} ReleaseIs(c: Config, sys: System, r: nat, s: nat)
    requires SystemOk(c, sys) && r < |sys.locks| && s < |c.threadOf|
    ensures Released(c, sys.locks[r], s, UnlockObject(c, sys, r, s).0.locks[r])
    ensures
      if Owns(sys.locks[r], s) then UnlockObject(c, sys, r, s).1 == Ok
      else UnlockObject(c, sys, r, s) == (sys, SynchronizationException)
  {
    var l := sys.locks[r];
    assert LockOk(c, l);
    if Owns(l, s) {
      FoundOwner(l.owners, s);
      var i := FindOwner(l.owners, s);
      assert OwnerOk(c, l.thread, l.owners[i]);
      assert Left(l.owners, i) == [] <==> |l.owners| == 1 && l.owners[i].recursion == 1;
    }
  }

  lemma {:induction false} DestroyIs(c: Config, sys: System, r: nat, s: nat)
    requires SystemOk(c, sys) && r < |sys.locks| && s < |c.threadOf|
    ensures Deserted(c, sys.locks[r], s, DestroyOwner(c, sys, r, s).locks[r])
  {
    var l := sys.locks[r];
    assert LockOk(c, l);
    if l.Held? && l.thread == c.threadOf[s] {
      if Owns(l, s) {
        var i :| 0 <= i < |l.owners| && l.owners[i].sub == s;
        OneRemoved(l.owners, s, i);
        FoundOwner(l.owners, s);
      } else {
        NoneRemoved(l.owners, s);
        assert l.(owners := l.owners) == l;
      }
    }
  }

  lemma {:induction false} NoneRemoved(owners: seq<Owner>, s: nat)
    requires forall i | 0 <= i < |owners| :: owners[i].sub != s
    ensures WithoutOwner(owners, s) == owners
  {
    if owners != [] {
      NoneRemoved(owners[1..], s);
    }
  }

  lemma {:induction false} OneRemoved(owners: seq<Owner>, s: nat, i: nat)
    requires i < |owners| && owners[i].sub == s && forall i, j | 0 <= i < j < |owners| :: owners[i].sub != owners[j].sub
    ensures WithoutOwner(owners, s) == owners[..i] + owners[i + 1..]
  {
    if i == 0 {
      NoneRemoved(owners[1..], s);
      assert owners[..0] + owners[1..] == owners[1..];
    } else {
      OneRemoved(owners[1..], s, i - 1);
      assert [owners[0]] + (owners[1..][..i - 1] + owners[1..][i..]) == owners[..i] + owners[i + 1..];
    }
  }

  /** Every step does to its lock what it is meant to do, and leaves the other locks alone. */
  lemma {:induction false} StepDoes(c: Config, sys: System, step: Step)
    requires SystemOk(c, sys) && Enabled(c, sys, step)
    ensures |Next(c, sys, step).locks| == |sys.locks|
    ensures StepIs(c, sys.locks[step.r], step, Next(c, sys, step).locks[step.r])
    ensures forall q | 0 <= q < |sys.locks| && q != step.r :: Next(c, sys, step).locks[q] == sys.locks[q]
  {
    StepChanges(c, sys, step);
    match step {
      case Acquire(r, s) => AcquireIs(c, sys, r, s);
      case Release(r, s) => ReleaseIs(c, sys, r, s);
      case Destroy(r, s) => DestroyIs(c, sys, r, s);
      case Withdraw(r, i) =>
    }
  }

  /** A contended lock stops the thread that asks, and no other. */
  lemma {:induction false} ContentionStops(c: Config, sys: System, r: nat, s: nat)
    requires SystemOk(c, sys) && r < |sys.locks| && s < |c.threadOf| && !sys.waiting[c.threadOf[s]]
    ensures
      var (sys', status) := LockObject(c, sys, r, s);
      && |sys'.waiting| == |sys.waiting|
      && forall t | 0 <= t < c.threads ::
          sys'.waiting[t] == (sys.waiting[t] || (status == ThreadWaiting && t == c.threadOf[s]))
  {
    assert ThreadOk(c, sys, c.threadOf[s]);
  }

  /** A hand-over lets the thread of the oldest request go on, and no other. */
  lemma {:induction false} HandOverWakes(c: Config, sys: System, r: nat)
    requires SystemOk(c, sys) && r < |sys.locks| && sys.locks[r].Held?
    ensures
      var sys', requests := ChangeOwner(c, sys, r), sys.locks[r].requests;
      && |sys'.waiting| == |sys.waiting|
      && forall t | 0 <= t < c.threads ::
          sys'.waiting[t] == (sys.waiting[t] && (requests == [] || t != ThreadOf(c, requests[0])))
  {
    var l := sys.locks[r];
    assert LockOk(c, l);
    if l.requests != [] {
      var t := c.threadOf[l.requests[0]];
      HandedOver(c, sys, r, l, Held(t, [Owner(l.requests[0], 1)], l.requests[1..]));
      assert ThreadOk(c, sys, t);
    }
  }

  /** A withdrawal lets the thread of the request go on, and no other. */
  lemma {:induction false} DropWakes(c: Config, sys: System, r: nat, i: nat)
    requires SystemOk(c, sys) && r < |sys.locks| && sys.locks[r].Held? && i < |sys.locks[r].requests|
    ensures
      var sys', s := DropRequest(c, sys, r, i), sys.locks[r].requests[i];
      && |sys'.waiting| == |sys.waiting| && s < |c.threadOf|
      && forall t | 0 <= t < c.threads :: sys'.waiting[t] == (sys.waiting[t] && t != c.threadOf[s])
  {
    var l := sys.locks[r];
    assert LockOk(c, l);
    var s := l.requests[i];
    var l' := l.(requests := l.requests[..i] + l.requests[i + 1..]);
    assert ThreadOk(c, sys, c.threadOf[s]);
    WithoutShift(c, l.requests, i, l'.requests);
    TotalUpdate(c, sys.locks, r, l', 0, c.threadOf[s]);
    assert ShiftBy(c, l.requests, l'.requests, s, -1, c.threadOf[s]);
  }

  lemma {:induction false} StepChanges(c: Config, sys: System, step: Step)
    requires SystemOk(c, sys) && Enabled(c, sys, step)
    ensures |Next(c, sys, step).locks| == |sys.locks|
    ensures Changes(c, sys.locks[step.r], step, Next(c, sys, step).locks[step.r])
    ensures forall q | 0 <= q < |sys.locks| && q != step.r :: Next(c, sys, step).locks[q] == sys.locks[q]
  {
    assert LockOk(c, sys.locks[step.r]);
    if step.Release? { ReleaseChanges(c, sys, step); }
    if step.Destroy? { DestroyChanges(c, sys, step); }
  }

  lemma {:induction false} ReleaseChanges(c: Config, sys: System, step: Step)
    requires SystemOk(c, sys) && Enabled(c, sys, step) && step.Release?
    ensures |Next(c, sys, step).locks| == |sys.locks|
    ensures Changes(c, sys.locks[step.r], step, Next(c, sys, step).locks[step.r])
    ensures forall q | 0 <= q < |sys.locks| && q != step.r :: Next(c, sys, step).locks[q] == sys.locks[q]
  {
    var l := sys.locks[step.r];
    assert LockOk(c, l);
    if l.Held? && l.thread == c.threadOf[step.s] {
      var i := FindOwner(l.owners, step.s);
      if i < |l.owners| {
        assert Left(l.owners, i) == [] <==> |l.owners| == 1 && l.owners[0].recursion == 1;
      }
    }
  }

  lemma {:induction false} DestroyChanges(c: Config, sys: System, step: Step)
    requires SystemOk(c, sys) && Enabled(c, sys, step) && step.Destroy?
    ensures |Next(c, sys, step).locks| == |sys.locks|
    ensures Changes(c, sys.locks[step.r], step, Next(c, sys, step).locks[step.r])
    ensures forall q | 0 <= q < |sys.locks| && q != step.r :: Next(c, sys, step).locks[q] == sys.locks[q]
  {
    var l := sys.locks[step.r];
    assert LockOk(c, l);
    if l.Held? {
      AllRemoved(l.owners, step.s);
    }
  }

  lemma {:induction false} AllRemoved(owners: seq<Owner>, s: nat)
    requires owners != [] && forall i, j | 0 <= i < j < |owners| :: owners[i].sub != owners[j].sub
    ensures WithoutOwner(owners, s) == [] <==> |owners| == 1 && owners[0].sub == s
  {
    var r := WithoutOwner(owners, s);
    if r == [] {
      forall i | 0 <= i < |owners| ensures owners[i].sub == s {
        assert owners[i] in owners;
        assert owners[i] !in r;
      }
    } else {
      assert r[0] in r;
    }
  }

  // ---------------------------------------------------------------- the engine's part

  class LockSystem {
    const c: Config
    const locks: array<Lock>
    const subCounts: array<int>
    const threadCounts: array<int>
    const waiting: array<bool>

    constructor (config: Config, resources: nat)
      requires forall s | 0 <= s < |config.threadOf| :: config.threadOf[s] < config.threads
      ensures c == config && Valid() && locks.Length == resources && forall r | 0 <= r < resources :: locks[r] == Free
      ensures fresh(locks) && fresh(subCounts) && fresh(threadCounts) && fresh(waiting)
    {
      c := config;
      locks := new Lock[resources](_ => Free);
      subCounts := new int[|config.threadOf|](_ => 0);
      threadCounts := new int[config.threads](_ => 0);
      waiting := new bool[config.threads](_ => false);
      new;
      ghost var sys := Current();
      forall s: nat | s < |c.threadOf| ensures sys.subCounts[s] == Total(sys.locks, s) {
        NothingQueued(c, sys.locks, s, 0);
      }
      forall t: nat | t < c.threads ensures ThreadOk(c, sys, t) {
        NothingQueued(c, sys.locks, 0, t);
      }
    }

    ghost function Current(): System
      reads locks, subCounts, threadCounts, waiting
    {
      System(locks[..], subCounts[..], threadCounts[..], waiting[..])
    }

    ghost predicate Valid()
      reads locks, subCounts, threadCounts, waiting
    {
      subCounts != threadCounts && SystemOk(c, Current())
    }

    ghost predicate Shaped()
      reads locks, subCounts, threadCounts, waiting
    {
      subCounts != threadCounts && Fits(c, Current())
    }

    method ChangeCount(s: nat, diff: int)
      requires Shaped() && s < |c.threadOf|
      modifies subCounts, threadCounts, waiting
      ensures Shaped() && Current() == ChangeLockRequestCount(c, old(Current()), s, diff)
    {
      var t := c.threadOf[s];
      subCounts[s] := subCounts[s] + diff;
      threadCounts[t] := threadCounts[t] + diff;
      waiting[t] := threadCounts[t] != 0;
    }

    /** Queues a request and stops the calling thread. */
    method CreateRequest(r: nat, s: nat)
      requires Shaped() && r < locks.Length && s < |c.threadOf| && locks[r].Held?
      modifies locks, subCounts, threadCounts, waiting
      ensures Shaped()
      ensures Current() == ChangeLockRequestCount(c, old(Current()), s,
                1).(locks := old(locks[..])[r := old(locks[r]).(requests := old(locks[r]).requests + [s])])
    {
      locks[r] := locks[r].(requests := locks[r].requests + [s]);
      ChangeCount(s, 1);
    }

    method IncrementOwnership(r: nat, s: nat) returns (status: Status)
      requires Shaped() && r < locks.Length && s < |c.threadOf| && locks[r].Held?
      modifies locks, subCounts, threadCounts, waiting
      ensures Shaped()
      ensures (Current(), status) == LockObject(c, old(Current()), r, s)
    {
      var l := locks[r];
      if l.thread == c.threadOf[s] {
        var i := 0;
        while i < |l.owners| && l.owners[i].sub != s
          invariant 0 <= i <= |l.owners| && forall j | 0 <= j < i :: l.owners[j].sub != s
        {
          i := i + 1;
        }
        assert i == FindOwner(l.owners, s);
        if i < |l.owners| {
          locks[r] := l.(owners := l.owners[i := Owner(s, l.owners[i].recursion + 1)]);
        } else {
          locks[r] := l.(owners := [Owner(s, 1)] + l.owners);
        }
        status := Ok;
      } else {
        CreateRequest(r, s);
        status := ThreadWaiting;
      }
    }

    /** Takes the lock for a thread, creating it if the resource has none. */
    method Lock(r: nat, s: nat) returns (status: Status)
      requires Valid() && r < locks.Length && s < |c.threadOf| && !waiting[c.threadOf[s]]
      modifies locks, subCounts, threadCounts, waiting
      ensures Valid() && (Current(), status) == LockObject(c, old(Current()), r, s)
      ensures Acquired(c, old(locks[r]), s, locks[r])
      ensures status == if old(locks[r]).Held? && old(locks[r]).thread != c.threadOf[s] then ThreadWaiting else Ok
      ensures forall t | 0 <= t < c.threads ::
                waiting[t] == (old(waiting[t]) || (status == ThreadWaiting && t == c.threadOf[s]))
    {
      LockKeeps(c, Current(), r, s);
      AcquireIs(c, Current(), r, s);
      ContentionStops(c, Current(), r, s);
      if locks[r].Free? {
        locks[r] := Held(c.threadOf[s], [Owner(s, 1)], []);
        status := Ok;
      } else {
        status := IncrementOwnership(r, s);
      }
    }

    /** Hands a lock without owners to the oldest request. */
    method HandOver(r: nat)
      requires Shaped() && r < locks.Length && locks[r].Held? && forall i | 0 <= i < |locks[r].requests| ::
                 locks[r].requests[i] < |c.threadOf|
      modifies locks, subCounts, threadCounts, waiting
      ensures Shaped() && Current() == ChangeOwner(c, old(Current()), r)
    {
      ghost var before := locks[..];
      var requests := locks[r].requests;
      if requests == [] {
        locks[r] := Free;
      } else {
        var s := requests[0];
        ChangeCount(s, -1);
        locks[r] := Held(c.threadOf[s], [], requests[1..]);
        var status := IncrementOwnership(r, s);
        assert Entered([], s) == [Owner(s, 1)];
        assert locks[..] == before[r := locks[r]];
      }
    }

    method DecrementOwnership(r: nat, s: nat) returns (status: Status)
      requires Valid() && r < locks.Length && s < |c.threadOf|
      modifies locks, subCounts, threadCounts, waiting
      ensures Valid() && (Current(), status) == UnlockObject(c, old(Current()), r, s)
      ensures Released(c, old(locks[r]), s, locks[r])
      ensures status == if Owns(old(locks[r]), s) then Ok else SynchronizationException
      ensures status == SynchronizationException ==> Current() == old(Current())
    {
      UnlockKeeps(c, Current(), r, s);
      ReleaseIs(c, Current(), r, s);
      var l := locks[r];
      assert LockOk(c, l);
      if l.Held? && l.thread == c.threadOf[s] {
        var i := 0;
        while i < |l.owners| && l.owners[i].sub != s
          invariant 0 <= i <= |l.owners| && forall j | 0 <= j < i :: l.owners[j].sub != s
        {
          i := i + 1;
        }
        assert i == FindOwner(l.owners, s);
        if i < |l.owners| {
          LeaveOnce(r, i);
          if locks[r].owners == [] { HandOver(r); }
          return Ok;
        }
      }
      status := SynchronizationException;
    }

    method LeaveOnce(r: nat, i: nat)
      requires Shaped() && r < locks.Length && locks[r].Held? && i < |locks[r].owners|
      modifies locks
      ensures Shaped() && locks[..] == old(locks[..])[r := old(locks[r]).(owners := Left(old(locks[r]).owners, i))]
    {
      var l := locks[r];
      if l.owners[i].recursion <= 1 {
        locks[r] := l.(owners := RemoveOwner(l.owners, i));
      } else {
        locks[r] := l.(owners := l.owners[i := Owner(l.owners[i].sub, l.owners[i].recursion - 1)]);
      }
    }

    /** Gives back every owner record of subthread s. */
    method RemoveRecords(r: nat, s: nat)
      requires Shaped() && r < locks.Length && locks[r].Held?
      modifies locks
      ensures Shaped() && locks[..] == old(locks[..])[r := old(locks[r]).(owners := WithoutOwner(old(locks[r]).owners,
                s))]
    {
      ghost var before := locks[..];
      var l, i := locks[r], 0;
      var owners := l.owners;
      assert before[r := l] == before;
      while i < |owners|
        invariant Shaped() && locks[..] == before[r := l.(owners := owners)]
        invariant 0 <= i && Passed(l.owners, owners, i, s)
        decreases |owners| - i
      {
        if owners[i].sub == s {
          PassRemoved(l.owners, owners, i, s);
          owners := RemoveOwner(owners, i);
          locks[r] := l.(owners := owners);
        } else {
          PassKept(l.owners, owners, i, s);
          i := i + 1;
        }
      }
      AllPassed(l.owners, owners, i, s);
    }

    method DestroyOwnerOf(r: nat, s: nat)
      requires Valid() && r < locks.Length && s < |c.threadOf|
      modifies locks, subCounts, threadCounts, waiting
      ensures Valid() && Current() == DestroyOwner(c, old(Current()), r, s)
      ensures Deserted(c, old(locks[r]), s, locks[r])
    {
      DestroyKeeps(c, Current(), r, s);
      DestroyIs(c, Current(), r, s);
      var l := locks[r];
      assert LockOk(c, l);
      if l.Held? && l.thread == c.threadOf[s] {
        RemoveRecords(r, s);
        if locks[r].owners == [] { HandOver(r); }
      }
    }

    /** Takes the i-th request out of the queue: it has timed out, or its subthread goes away. */
    method Withdraw(r: nat, i: nat)
      requires Valid() && r < locks.Length && locks[r].Held? && i < |locks[r].requests|
      modifies locks, subCounts, threadCounts, waiting
      ensures Valid() && Current() == DropRequest(c, old(Current()), r, i)
      ensures Withdrawn(old(locks[r]), i, locks[r])
      ensures forall t | 0 <= t < c.threads ::
                waiting[t] == (old(waiting[t]) && t != c.threadOf[old(locks[r]).requests[i]])
    {
      DropKeeps(c, Current(), r, i);
      var l := locks[r];
      assert LockOk(c, l);
      var s := l.requests[i];
      DropWakes(c, Current(), r, i);
      ChangeCount(s, -1);
      locks[r] := l.(requests := l.requests[..i] + l.requests[i + 1..]);
    }
  }

  /** The first i records have been passed; those of s among the others have still to go. */
  ghost predicate Passed(all: seq<Owner>, owners: seq<Owner>, i: nat, s: nat) {
    i <= |owners| && owners[..i] + WithoutOwner(owners[i..], s) == WithoutOwner(all, s)
  }

  lemma PassRemoved(all: seq<Owner>, owners: seq<Owner>, i: nat, s: nat)
    requires i < |owners| && Passed(all, owners, i, s) && owners[i].sub == s
    ensures Passed(all, RemoveOwner(owners, i), i, s)
  {
    var left := RemoveOwner(owners, i);
    assert left[..i] == owners[..i] && left[i..] == owners[i..][1..];
    assert WithoutOwner(owners[i..], s) == WithoutOwner(owners[i..][1..], s);
  }

  lemma PassKept(all: seq<Owner>, owners: seq<Owner>, i: nat, s: nat)
    requires i < |owners| && Passed(all, owners, i, s) && owners[i].sub != s
    ensures Passed(all, owners, i + 1, s)
  {
    var rest := WithoutOwner(owners[i..][1..], s);
    assert owners[i + 1..] == owners[i..][1..] && owners[..i + 1] == owners[..i] + [owners[i]];
    assert WithoutOwner(owners[i..], s) == [owners[i]] + rest;
    assert owners[..i] + ([owners[i]] + rest) == owners[..i] + [owners[i]] + rest;
  }

  lemma AllPassed(all: seq<Owner>, owners: seq<Owner>, i: nat, s: nat)
    requires |owners| <= i && Passed(all, owners, i, s)
    ensures owners == WithoutOwner(all, s)
  {
    assert owners[i..] == [] && owners[..i] == owners;
  }

  lemma {:induction false} NothingQueued(c: Config, locks: seq<Lock>, s: nat, t: nat)
    requires forall r | 0 <= r < |locks| :: locks[r] == Free
    ensures Total(locks, s) == 0 && TotalBy(c, locks, t) == 0
  {
    if locks != [] { NothingQueued(c, locks[1..], s, t); }
  }
}
