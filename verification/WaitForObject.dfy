/** Waiting for events: auto- and manual-reset events, threads that wait for any or for all of
    several events, and the signal that wakes them. */
module WaitForObject {
  import opened Options

  datatype Event = Event(signaled: bool, autoReset: bool)

  datatype WaitResult = HandleAll | Handle(i: nat)

  /** A blocked thread and what it waits for. */
  datatype Waiter = Waiter(thread: nat, objects: seq<nat>, all: bool)

  /** A wait that is over, and how it ended. */
  datatype Woken = Woken(thread: nat, objects: seq<nat>, result: WaitResult)

  const MAX_OBJECTS: nat := 64

  predicate Signaled(ev: seq<Event>, k: nat) {
    k < |ev| && ev[k].signaled
  }

  /** The wait would be over at once. */
  ghost predicate Satisfied(ev: seq<Event>, objects: seq<nat>, all: bool) {
    if all then forall i | 0 <= i < |objects| :: Signaled(ev, objects[i])
    else exists i :: 0 <= i < |objects| && Signaled(ev, objects[i])
  }

  /** The events once the auto-reset ones among the given objects have been reset. */
  function Consumed(ev: seq<Event>, objects: seq<nat>): (r: seq<Event>)
    ensures |r| == |ev|
  {
    seq(|ev|, k requires 0 <= k < |ev| => if k in objects && ev[k].autoReset then ev[k].(signaled := false) else ev[k])
  }

  /** The index of the first signaled object from i on, or the number of objects. */
  function FirstFrom(ev: seq<Event>, objects: seq<nat>, i: nat): (r: nat)
    requires i <= |objects|
    ensures i <= r <= |objects| && (r < |objects| ==> Signaled(ev, objects[r]))
    ensures forall k | i <= k < r :: !Signaled(ev, objects[k])
    decreases |objects| - i
  {
    if i == |objects| || Signaled(ev, objects[i]) then i else FirstFrom(ev, objects, i + 1)
  }

  predicate AllSignaled(ev: seq<Event>, objects: seq<nat>) {
    forall k | 0 <= k < |objects| :: Signaled(ev, objects[k])
  }

  datatype Attempt = Attempt(ev: seq<Event>, res: Option<WaitResult>)

  /** One attempt to end a wait. */
  function Try(ev: seq<Event>, objects: seq<nat>, all: bool): (a: Attempt)
    ensures |a.ev| == |ev|
  {
    if all then
      if AllSignaled(ev, objects) then Attempt(Consumed(ev, objects), Some(HandleAll)) else Attempt(ev, None)
    else
      var i := FirstFrom(ev, objects, 0);
      if i < |objects| then Attempt(Consumed(ev, [objects[i]]), Some(Handle(i))) else Attempt(ev, None)
  }

  /** A wait that ended with this result was released by event k. */
  predicate Uses(objects: seq<nat>, res: WaitResult, k: nat) {
    match res
    case HandleAll => k in objects
    case Handle(i) => i < |objects| && objects[i] == k
  }

  /** No event of ev' is signaled that is not signaled in ev. */
  ghost predicate FewerSignals(ev: seq<Event>, ev': seq<Event>) {
    |ev'| == |ev| && forall k | 0 <= k < |ev| ::
        ev'[k].autoReset == ev[k].autoReset && (ev'[k].signaled ==> ev[k].signaled)
  }

  /** An attempt succeeds exactly when the wait is satisfied.  A wait for all then resets all its
      auto-reset events, a wait for any the one auto-reset event that released it; a failed attempt
      resets none. */
  lemma {:induction false} TryMeans(ev: seq<Event>, objects: seq<nat>, all: bool)
    ensures
      var a := Try(ev, objects, all);
      && FewerSignals(ev, a.ev)
      && (a.res.Some? <==> Satisfied(ev, objects, all))
      && (a.res.None? ==> a.ev == ev)
      && (forall k | 0 <= k < |ev| ::
          a.ev[k].signaled == (ev[k].signaled && !(ev[k].autoReset && a.res.Some? && Uses(objects, a.res.value, k))))
      && (a.res.Some? && !all ==>
          a.res.value.Handle? && a.res.value.i < |objects| && Signaled(ev, objects[a.res.value.i])
                                  && forall j | 0 <= j < a.res.value.i :: !Signaled(ev, objects[j]))
  {
    var i := FirstFrom(ev, objects, 0);
    if !all && Satisfied(ev, objects, all) {
      var j :| 0 <= j < |objects| && Signaled(ev, objects[j]);
      assert i <= j;
    }
  }

  ghost predicate Blocked(ev: seq<Event>, w: Waiter) {
    !Satisfied(ev, w.objects, w.all)
  }

  /** No blocked thread could go on. */
  ghost predicate NoneReady(ev: seq<Event>, waiting: seq<Waiter>) {
    forall t | 0 <= t < |waiting| :: Blocked(ev, waiting[t])
  }

  lemma {:induction false} StillBlocked(ev: seq<Event>, ev': seq<Event>, w: Waiter)
    requires Blocked(ev, w) && FewerSignals(ev, ev')
    ensures Blocked(ev', w)
  {
    if w.all {
      var i :| 0 <= i < |w.objects| && !Signaled(ev, w.objects[i]);
      assert !Signaled(ev', w.objects[i]);
    }
  }

  // ---------------------------------------------------------------- the signal

  datatype Outcome = Outcome(ev: seq<Event>, rest: seq<Waiter>, woken: seq<Woken>)

  /** The waiting threads are tried in order, until event o is no longer signaled. */
  function Wake(ev: seq<Event>, waiting: seq<Waiter>, o: nat): (out: Outcome)
    ensures |out.ev| == |ev|
    decreases |waiting|
  {
    if waiting == [] then Outcome(ev, [], [])
    else
      var w := waiting[0];
      var a := Try(ev, w.objects, w.all);
      if a.res.None? then
        var out := Wake(ev, waiting[1..], o);
        Outcome(out.ev, [w] + out.rest, out.woken)
      else if Signaled(a.ev, o) then
        var out := Wake(a.ev, waiting[1..], o);
        Outcome(out.ev, out.rest, [Woken(w.thread, w.objects, a.res.value)] + out.woken)
      else
        Outcome(a.ev, waiting[1..], [Woken(w.thread, w.objects, a.res.value)])
  }

  function SetSignal(ev: seq<Event>, o: nat): seq<Event>
    requires o < |ev|
  {
    ev[o := ev[o].(signaled := true)]
  }

  /** After a signal nobody is left blocked who could go on. */
  lemma {:induction false} NobodyMissed(ev0: seq<Event>, ev: seq<Event>, waiting: seq<Waiter>, o: nat)
    requires o < |ev0| && NoneReady(ev0, waiting) && FewerSignals(SetSignal(ev0, o), ev) && Signaled(ev, o)
    ensures FewerSignals(ev, Wake(ev, waiting, o).ev) && NoneReady(Wake(ev, waiting, o).ev, Wake(ev, waiting, o).rest)
    decreases |waiting|
  {
    if waiting != [] {
      var w := waiting[0];
      var a := Try(ev, w.objects, w.all);
      assert Blocked(ev0, w);
      TryMeans(ev, w.objects, w.all);
      if a.res.None? {
        NobodyMissed(ev0, ev, waiting[1..], o);
        StillBlocked(ev, Wake(ev, waiting[1..], o).ev, w);
      } else if Signaled(a.ev, o) {
        NobodyMissed(ev0, a.ev, waiting[1..], o);
      } else {
        assert FewerSignals(ev0, a.ev);
        forall t | 0 <= t < |waiting| - 1 ensures Blocked(a.ev, waiting[1..][t]) {
          assert Blocked(ev0, waiting[t + 1]);
          StillBlocked(ev0, a.ev, waiting[t + 1]);
        }
      }
    }
  }

  /** How often a thread stands in the queue, and how often it has been woken. */
  function Queued(waiting: seq<Waiter>, th: nat): nat {
    if waiting == [] then 0 else (if waiting[0].thread == th then 1 else 0) + Queued(waiting[1..], th)
  }

  function Released(woken: seq<Woken>, th: nat): nat {
    if woken == [] then 0 else (if woken[0].thread == th then 1 else 0) + Released(woken[1..], th)
  }

  /** The queue parts into those that are left and those that have been woken, both in the order of
      the queue; a woken thread is told of all its objects exactly if it waited for all. */
  ghost predicate Parts(waiting: seq<Waiter>, rest: seq<Waiter>, woken: seq<Woken>) {
    if waiting == [] then rest == [] && woken == []
    else
      || (rest != [] && rest[0] == waiting[0] && Parts(waiting[1..], rest[1..], woken))
      || (woken != [] && IsOf(woken[0], waiting[0]) && Parts(waiting[1..], rest, woken[1..]))
  }

  ghost predicate IsOf(w: Woken, was: Waiter) {
    w.thread == was.thread && w.objects == was.objects && (w.result.HandleAll? <==> was.all)
  }

  /** The objects the wait ended with were signaled. */
  ghost predicate Rightly(ev: seq<Event>, w: Woken) {
    match w.result
    case HandleAll => forall i | 0 <= i < |w.objects| :: Signaled(ev, w.objects[i])
    case Handle(i) => i < |w.objects| && Signaled(ev, w.objects[i])
  }

  /** A signal parts the queue, and it wakes nobody whose wait is not over. */
  lemma {:induction false} WakeParts(ev: seq<Event>, waiting: seq<Waiter>, o: nat)
    ensures
      var out := Wake(ev, waiting, o);
      && Parts(waiting, out.rest, out.woken) && FewerSignals(ev, out.ev)
      && forall j | 0 <= j < |out.woken| :: Rightly(ev, out.woken[j])
    decreases |waiting|
  {
    if waiting != [] {
      var w := waiting[0];
      var a := Try(ev, w.objects, w.all);
      var out := Wake(ev, waiting, o);
      TryMeans(ev, w.objects, w.all);
      if a.res.None? {
        WakeParts(ev, waiting[1..], o);
        assert out.rest[1..] == Wake(ev, waiting[1..], o).rest;
      } else if Signaled(a.ev, o) {
        WakeParts(a.ev, waiting[1..], o);
        var tail := Wake(a.ev, waiting[1..], o);
        assert out.woken[1..] == tail.woken;
        forall j | 0 <= j < |out.woken| ensures Rightly(ev, out.woken[j]) {
          if 0 < j { RightlyBefore(ev, a.ev, tail.woken[j - 1]); }
        }
      } else {
        assert out.woken[1..] == [];
        AllLeft(waiting[1..]);
      }
    }
  }

  lemma RightlyBefore(ev: seq<Event>, ev': seq<Event>, w: Woken)
    requires FewerSignals(ev, ev') && Rightly(ev', w)
    ensures Rightly(ev, w)
  {
  }

  lemma {:induction false} AllLeft(waiting: seq<Waiter>)
    ensures Parts(waiting, waiting, [])
  {
    if waiting != [] { AllLeft(waiting[1..]); }
  }

  /** No thread is lost: each one is either woken or still in the queue. */
  lemma {:induction false} NobodyLost(waiting: seq<Waiter>, rest: seq<Waiter>, woken: seq<Woken>, th: nat)
    requires Parts(waiting, rest, woken)
    ensures Queued(waiting, th) == Queued(rest, th) + Released(woken, th)
  {
    if waiting != [] {
      if rest != [] && rest[0] == waiting[0] && Parts(waiting[1..], rest[1..], woken) {
        NobodyLost(waiting[1..], rest[1..], woken, th);
      } else {
        NobodyLost(waiting[1..], rest, woken[1..], th);
      }
    }
  }

  /** The entries of part are those of whole at these places, which ascend. */
  ghost predicate Picks(part: seq<Waiter>, whole: seq<Waiter>, at: seq<nat>) {
    && |at| == |part|
    && (forall i | 0 <= i < |part| :: at[i] < |whole| && part[i] == whole[at[i]])
    && forall i, j | 0 <= i < j < |at| :: at[i] < at[j]
  }

  ghost predicate InOrderOf(part: seq<Waiter>, whole: seq<Waiter>) {
    exists at: seq<nat> :: Picks(part, whole, at)
  }

  /** Those that are left keep their order. */
  lemma {:induction false} LeftInOrder(waiting: seq<Waiter>, rest: seq<Waiter>, woken: seq<Woken>)
    requires Parts(waiting, rest, woken)
    ensures InOrderOf(rest, waiting)
  {
    if waiting == [] {
      assert Picks(rest, waiting, []);
    } else if rest != [] && rest[0] == waiting[0] && Parts(waiting[1..], rest[1..], woken) {
      LeftInOrder(waiting[1..], rest[1..], woken);
      var at: seq<nat> :| Picks(rest[1..], waiting[1..], at);
      var up := seq(|rest|, i requires 0 <= i < |rest| => if i == 0 then 0 else at[i - 1] + 1);
      forall i | 0 <= i < |rest| ensures up[i] < |waiting| && rest[i] == waiting[up[i]] {
        if 0 < i { assert rest[1..][i - 1] == waiting[1..][at[i - 1]]; }
      }
      assert Picks(rest, waiting, up);
    } else {
      LeftInOrder(waiting[1..], rest, woken[1..]);
      var at: seq<nat> :| Picks(rest, waiting[1..], at);
      var up := seq(|rest|, i requires 0 <= i < |rest| => at[i] + 1);
      assert Picks(rest, waiting, up);
    }
  }

  /** The wait is over once event o is set. */
  ghost predicate FreedBy(ev0: seq<Event>, o: nat, w: Waiter)
    requires o < |ev0|
  {
    Satisfied(SetSignal(ev0, o), w.objects, w.all)
  }

  /** Only a wait that uses o can be ended by setting o. */
  lemma {:induction false} FreedUses(ev0: seq<Event>, o: nat, w: Waiter)
    requires o < |ev0| && Blocked(ev0, w) && FreedBy(ev0, o, w)
    ensures
      var a := Try(SetSignal(ev0, o), w.objects, w.all);
      a.res.Some? && Uses(w.objects, a.res.value, o)
  {
    var ev := SetSignal(ev0, o);
    TryMeans(ev, w.objects, w.all);
    if w.all {
      var i :| 0 <= i < |w.objects| && !Signaled(ev0, w.objects[i]);
      assert Signaled(ev, w.objects[i]);
    } else {
      var i := Try(ev, w.objects, w.all).res.value.i;
      assert Signaled(ev, w.objects[i]) && !Signaled(ev0, w.objects[i]);
    }
  }

  ghost predicate FirstFreed(ev0: seq<Event>, waiting: seq<Waiter>, o: nat, t: int)
    requires o < |ev0|
  {
    0 <= t < |waiting| && FreedBy(ev0, o, waiting[t]) && forall j | 0 <= j < t :: !FreedBy(ev0, o, waiting[j])
  }

  /** Thread t of the queue has been woken, and no other; event o is reset again. */
  ghost predicate WokeOnly(waiting: seq<Waiter>, o: nat, t: nat, out: Outcome) {
    && t < |waiting| && out.rest == waiting[..t] + waiting[t + 1..]
    && |out.woken| == 1 && out.woken[0].thread == waiting[t].thread && !Signaled(out.ev, o)
  }

  /** A signal to an auto-reset event wakes exactly the first thread that it frees, and then the event
      is reset again; if it frees none it wakes none, and the event stays signaled. */
  lemma {:induction false} AutoResetWakesOne(ev0: seq<Event>, waiting: seq<Waiter>, o: nat)
    requires o < |ev0| && NoneReady(ev0, waiting) && ev0[o].autoReset
    ensures (forall t | 0 <= t < |waiting| :: !FreedBy(ev0, o, waiting[t])) ==>
              Wake(SetSignal(ev0, o), waiting, o) == Outcome(SetSignal(ev0, o), waiting, [])
    ensures forall t | FirstFreed(ev0, waiting, o, t) :: WokeOnly(waiting, o, t, Wake(SetSignal(ev0, o), waiting, o))
    decreases |waiting|
  {
    if waiting != [] {
      assert Blocked(ev0, waiting[0]);
      TryMeans(SetSignal(ev0, o), waiting[0].objects, waiting[0].all);
      if FreedBy(ev0, o, waiting[0]) {
        FreedUses(ev0, o, waiting[0]);
        forall t | FirstFreed(ev0, waiting, o, t) ensures WokeOnly(waiting, o, t, Wake(SetSignal(ev0, o), waiting, o)) {
          assert t == 0;
          assert waiting[..0] + waiting[1..] == waiting[1..];
        }
      } else {
        AutoResetWakesOne(ev0, waiting[1..], o);
        forall t | FirstFreed(ev0, waiting, o, t) ensures WokeOnly(waiting, o, t, Wake(SetSignal(ev0, o), waiting, o)) {
          ShiftFirst(ev0, waiting, o, t);
          SkipFirst(waiting, t);
        }
        SkipNone(ev0, waiting, o);
      }
    }
  }

  lemma ShiftFirst(ev0: seq<Event>, waiting: seq<Waiter>, o: nat, t: int)
    requires o < |ev0| && FirstFreed(ev0, waiting, o, t) && !FreedBy(ev0, o, waiting[0])
    ensures 0 < t && FirstFreed(ev0, waiting[1..], o, t - 1)
  {
    forall j | 0 <= j < t - 1 ensures !FreedBy(ev0, o, waiting[1..][j]) {
      assert waiting[1..][j] == waiting[j + 1];
    }
  }

  lemma SkipFirst(waiting: seq<Waiter>, t: nat)
    requires 0 < t < |waiting|
    ensures [waiting[0]] + (waiting[1..][..t - 1] + waiting[1..][t..]) == waiting[..t] + waiting[t + 1..]
  {
  }

  lemma SkipNone(ev0: seq<Event>, waiting: seq<Waiter>, o: nat)
    requires o < |ev0| && waiting != []
    ensures [waiting[0]] + waiting[1..] == waiting
    ensures (forall t | 0 <= t < |waiting| :: !FreedBy(ev0, o, waiting[t])) ==>
              forall t | 0 <= t < |waiting| - 1 :: !FreedBy(ev0, o, waiting[1..][t])
  {
  }

  /** A manual-reset event stays signaled. */
  lemma {:induction false} ManualResetStays(ev: seq<Event>, waiting: seq<Waiter>, o: nat)
    requires Signaled(ev, o) && !ev[o].autoReset
    ensures Signaled(Wake(ev, waiting, o).ev, o) && !Wake(ev, waiting, o).ev[o].autoReset
    decreases |waiting|
  {
    if waiting != [] {
      TryMeans(ev, waiting[0].objects, waiting[0].all);
      ManualResetStays(Try(ev, waiting[0].objects, waiting[0].all).ev, waiting[1..], o);
      ManualResetStays(ev, waiting[1..], o);
    }
  }

  // ---------------------------------------------------------------- whole runs

  datatype Step = Set(o: nat) | Reset(o: nat) | Wait(thread: nat, objects: seq<nat>, all: bool)

  /** The events, the queue of blocked threads, and the waits that are over. */
  datatype State = State(ev: seq<Event>, waiting: seq<Waiter>, done: seq<Woken>)

  function Next(s: State, step: Step): State {
    match step
    case Set(o) =>
      if o < |s.ev| then
        var out := Wake(SetSignal(s.ev, o), s.waiting, o);
        State(out.ev, out.rest, s.done + out.woken)
      else s
    case Reset(o) => if o < |s.ev| then s.(ev := s.ev[o := s.ev[o].(signaled := false)]) else s
    case Wait(thread, objects, all) =>
      var a := Try(s.ev, objects, all);
      match a.res
      case Some(r) => State(a.ev, s.waiting, s.done + [Woken(thread, objects, r)])
      case None => s.(waiting := s.waiting + [Waiter(thread, objects, all)])
  }

  function Run(s: State, steps: seq<Step>): State {
    if steps == [] then s else Next(Run(s, steps[..|steps| - 1]), steps[|steps| - 1])
  }

  lemma {:induction false} StepMissesNobody(s: State, step: Step)
    requires NoneReady(s.ev, s.waiting)
    ensures NoneReady(Next(s, step).ev, Next(s, step).waiting)
  {
    var s' := Next(s, step);
    match step {
      case Set(o) =>
        if o < |s.ev| { NobodyMissed(s.ev, SetSignal(s.ev, o), s.waiting, o); }
      case Reset(o) =>
        forall t | 0 <= t < |s.waiting| ensures Blocked(s'.ev, s.waiting[t]) {
          StillBlocked(s.ev, s'.ev, s.waiting[t]);
        }
      case Wait(thread, objects, all) =>
        TryMeans(s.ev, objects, all);
        forall t | 0 <= t < |s.waiting| ensures Blocked(s'.ev, s.waiting[t]) {
          StillBlocked(s.ev, s'.ev, s.waiting[t]);
        }
    }
  }

  /** No wakeup is lost: after any run of sets, resets and waits nobody is blocked who could go on. */
  lemma {:induction false} NoLostWakeup(s: State, steps: seq<Step>)
    requires NoneReady(s.ev, s.waiting)
    ensures NoneReady(Run(s, steps).ev, Run(s, steps).waiting)
  {
    if steps != [] {
      NoLostWakeup(s, steps[..|steps| - 1]);
      StepMissesNobody(Run(s, steps[..|steps| - 1]), steps[|steps| - 1]);
    }
  }

  /** A reset event lets nobody go on who waits for it alone or for all of several with it. */
  lemma {:induction false} ResetBlocks(s: State, o: nat, thread: nat, objects: seq<nat>, all: bool)
    requires o in objects && (all || forall i | 0 <= i < |objects| :: objects[i] == o)
    ensures
      var s' := Next(s, Reset(o));
      && !Signaled(s'.ev, o) && s'.waiting == s.waiting && s'.done == s.done
      && (forall k | 0 <= k < |s.ev| && k != o :: s'.ev[k] == s.ev[k])
      && Next(s', Wait(thread, objects, all)) == s'.(waiting := s.waiting + [Waiter(thread, objects, all)])
  {
    var s' := Next(s, Reset(o));
    var i :| 0 <= i < |objects| && objects[i] == o;
    assert !Signaled(s'.ev, objects[i]);
    TryMeans(s'.ev, objects, all);
  }

  /** If nobody waits, a signal stays for the next one who waits for the event; that one goes on at
      once, and the signal stays beyond exactly if the event is a manual-reset one. */
  lemma {:induction false} SetLetsGo(s: State, o: nat, thread: nat)
    requires o < |s.ev| && s.waiting == []
    ensures
      var s' := Next(Next(s, Set(o)), Wait(thread, [o], false));
      && s'.waiting == [] && s'.done == s.done + [Woken(thread, [o], Handle(0))]
      && (Signaled(s'.ev, o) <==> !s.ev[o].autoReset)
      && forall k | 0 <= k < |s.ev| && k != o :: s'.ev[k] == s.ev[k]
  {
    TryMeans(SetSignal(s.ev, o), [o], false);
    assert [o][0] == o && Signaled(SetSignal(s.ev, o), [o][0]);
    var s1 := Next(s, Set(o));
    assert s1 == State(SetSignal(s.ev, o), [], s.done);
  }

  lemma {:induction false} ReleasedAdds(a: seq<Woken>, b: seq<Woken>, th: nat)
    ensures Released(a + b, th) == Released(a, th) + Released(b, th)
  {
    if a == [] {
      assert a + b == b;
    } else {
      ReleasedAdds(a[1..], b, th);
      assert (a + b)[1..] == a[1..] + b;
    }
  }

  lemma {:induction false} QueuedAdds(a: seq<Waiter>, b: seq<Waiter>, th: nat)
    ensures Queued(a + b, th) == Queued(a, th) + Queued(b, th)
  {
    if a == [] {
      assert a + b == b;
    } else {
      QueuedAdds(a[1..], b, th);
      assert (a + b)[1..] == a[1..] + b;
    }
  }

  /** How often a thread is in the system: blocked, or done with a wait. */
  ghost function Accounted(s: State, th: nat): nat {
    Queued(s.waiting, th) + Released(s.done, th)
  }

  /** Sets and resets lose no thread and invent none; a wait adds the one that waits. */
  lemma {:induction false} StepKeepsThreads(s: State, step: Step, th: nat)
    ensures Accounted(Next(s, step), th)
              == Accounted(s, th) + if step.Wait? && step.thread == th then 1 else 0
  {
    match step {
      case Set(o) =>
        if o < |s.ev| {
          var out := Wake(SetSignal(s.ev, o), s.waiting, o);
          WakeParts(SetSignal(s.ev, o), s.waiting, o);
          NobodyLost(s.waiting, out.rest, out.woken, th);
          ReleasedAdds(s.done, out.woken, th);
        }
      case Reset(o) =>
      case Wait(thread, objects, all) =>
        var a := Try(s.ev, objects, all);
        if a.res.Some? {
          ReleasedAdds(s.done, [Woken(thread, objects, a.res.value)], th);
        } else {
          QueuedAdds(s.waiting, [Waiter(thread, objects, all)], th);
        }
    }
  }

  /** How often a thread waits in a run. */
  function Waits(steps: seq<Step>, th: nat): nat {
    if steps == [] then 0
    else
      var last := steps[|steps| - 1];
      Waits(steps[..|steps| - 1], th) + if last.Wait? && last.thread == th then 1 else 0
  }

  /** Over any run each wait is still pending or done, none twice. */
  lemma {:induction false} EveryWaitAccounted(s: State, steps: seq<Step>, th: nat)
    ensures Accounted(Run(s, steps), th) == Accounted(s, th) + Waits(steps, th)
  {
    if steps != [] {
      EveryWaitAccounted(s, steps[..|steps| - 1], th);
      StepKeepsThreads(Run(s, steps[..|steps| - 1]), steps[|steps| - 1], th);
    }
  }

  /** The waits of a run in the order they were asked for. */
  function Arrivals(steps: seq<Step>): seq<Waiter> {
    if steps == [] then []
    else
      var before := Arrivals(steps[..|steps| - 1]);
      match steps[|steps| - 1]
      case Wait(thread, objects, all) => before + [Waiter(thread, objects, all)]
      case _ => before
  }

  lemma {:induction false} OrderThrough(part: seq<Waiter>, mid: seq<Waiter>, whole: seq<Waiter>)
    requires InOrderOf(part, mid) && InOrderOf(mid, whole)
    ensures InOrderOf(part, whole)
  {
    var a: seq<nat> :| Picks(part, mid, a);
    var b: seq<nat> :| Picks(mid, whole, b);
    var c := seq(|part|, i requires 0 <= i < |part| => b[a[i]]);
    assert Picks(part, whole, c);
  }

  /** A waiter that comes last may be added to both or to the whole alone. */
  lemma {:induction false} OrderGrows(part: seq<Waiter>, whole: seq<Waiter>, w: Waiter)
    requires InOrderOf(part, whole)
    ensures InOrderOf(part, whole + [w]) && InOrderOf(part + [w], whole + [w])
  {
    var at: seq<nat> :| Picks(part, whole, at);
    assert Picks(part, whole + [w], at);
    assert Picks(part + [w], whole + [w], at + [|whole|]);
  }

  lemma SameOrder(whole: seq<Waiter>)
    ensures InOrderOf(whole, whole + [])
  {
    var at: seq<nat> := seq(|whole|, i => i);
    assert Picks(whole, whole + [], at);
  }

  lemma ArrivalOf(step: Step)
    ensures Arrivals([step]) == if step.Wait? then [Waiter(step.thread, step.objects, step.all)] else []
  {
    assert [step][..0] == [] && [step][0] == step;
  }

  /** One step leaves the queue in order; only a wait adds to it, at the end. */
  lemma {:induction false} StepKeepsOrder(s: State, step: Step)
    ensures InOrderOf(Next(s, step).waiting, s.waiting + Arrivals([step]))
  {
    ArrivalOf(step);
    SameOrder(s.waiting);
    match step {
      case Set(o) =>
        if o < |s.ev| {
          var out := Wake(SetSignal(s.ev, o), s.waiting, o);
          WakeParts(SetSignal(s.ev, o), s.waiting, o);
          LeftInOrder(s.waiting, out.rest, out.woken);
          assert s.waiting + [] == s.waiting;
        }
      case Reset(o) =>
      case Wait(thread, objects, all) =>
        assert s.waiting + [] == s.waiting;
        OrderGrows(s.waiting, s.waiting, Waiter(thread, objects, all));
    }
  }

  lemma {:induction false} OrderBefore(part: seq<Waiter>, whole: seq<Waiter>, more: seq<Waiter>)
    requires InOrderOf(part, whole)
    ensures InOrderOf(part + more, whole + more)
  {
    var at: seq<nat> :| Picks(part, whole, at);
    var up := seq(|part| + |more|, i requires 0 <= i < |part| + |more| =>
      if i < |part| then at[i] else |whole| + (i - |part|));
    assert Picks(part + more, whole + more, up);
  }

  /** First come, first in the queue: after any run the blocked threads stand in the order in which
      they asked. */
  lemma {:induction false} QueueInOrder(s: State, steps: seq<Step>)
    ensures InOrderOf(Run(s, steps).waiting, s.waiting + Arrivals(steps))
  {
    if steps == [] {
      SameOrder(s.waiting);
    } else {
      var before, last := steps[..|steps| - 1], steps[|steps| - 1];
      var mid := Run(s, before);
      QueueInOrder(s, before);
      StepKeepsOrder(mid, last);
      OrderBefore(mid.waiting, s.waiting + Arrivals(before), Arrivals([last]));
      OrderThrough(Next(mid, last).waiting, mid.waiting + Arrivals([last]),
        s.waiting + Arrivals(before) + Arrivals([last]));
      assert [last][..0] == [];
      assert s.waiting + Arrivals(before) + Arrivals([last]) == s.waiting + Arrivals(steps);
    }
  }

  /** How many waits event o has ended. */
  function Ended(done: seq<Woken>, o: nat): nat {
    if done == [] then 0
    else Ended(done[..|done| - 1], o) + if Uses(done[|done| - 1].objects, done[|done| - 1].result, o) then 1 else 0
  }

  function Flag(ev: seq<Event>, o: nat): nat { if Signaled(ev, o) then 1 else 0 }

  function Sets(steps: seq<Step>, o: nat): nat {
    if steps == [] then 0 else Sets(steps[..|steps| - 1], o) + if steps[|steps| - 1] == Set(o) then 1 else 0
  }

  ghost predicate Auto(ev: seq<Event>, o: nat) {
    o < |ev| && ev[o].autoReset
  }

  lemma {:induction false} EndedAdds(a: seq<Woken>, b: seq<Woken>, o: nat)
    ensures Ended(a + b, o) == Ended(a, o) + Ended(b, o)
  {
    if b == [] {
      assert a + b == a;
    } else {
      assert (a + b)[..|a + b| - 1] == a + b[..|b| - 1];
      EndedAdds(a, b[..|b| - 1], o);
    }
  }

  /** A successful attempt that uses an auto-reset event takes its signal. */
  lemma {:induction false} TryTokens(ev: seq<Event>, objects: seq<nat>, all: bool, o: nat)
    requires Auto(ev, o)
    ensures
      var a := Try(ev, objects, all);
      Auto(a.ev, o) && Flag(ev, o) == Flag(a.ev, o) + if a.res.Some? && Uses(objects, a.res.value, o) then 1 else 0
  {
    TryMeans(ev, objects, all);
    var a := Try(ev, objects, all);
    if a.res.Some? && a.res.value.HandleAll? && o in objects {
      var i :| 0 <= i < |objects| && objects[i] == o;
      assert Signaled(ev, objects[i]);
    }
  }

  lemma {:induction false} WakeTokens(ev: seq<Event>, waiting: seq<Waiter>, p: nat, o: nat)
    requires Auto(ev, o)
    ensures Auto(Wake(ev, waiting, p).ev, o) && Flag(ev, o) == Flag(Wake(ev, waiting, p).ev, o)
              + Ended(Wake(ev, waiting, p).woken, o)
    decreases |waiting|
  {
    if waiting != [] {
      var w := waiting[0];
      var a := Try(ev, w.objects, w.all);
      TryTokens(ev, w.objects, w.all, o);
      if a.res.None? {
        WakeTokens(ev, waiting[1..], p, o);
      } else {
        var first := [Woken(w.thread, w.objects, a.res.value)];
        assert first[..0] == [];
        assert Ended(first, o) == if Uses(w.objects, a.res.value, o) then 1 else 0;
        if Signaled(a.ev, p) {
          WakeTokens(a.ev, waiting[1..], p, o);
          EndedAdds(first, Wake(a.ev, waiting[1..], p).woken, o);
        }
      }
    }
  }

  lemma {:induction false} StepTokens(s: State, step: Step, o: nat)
    requires Auto(s.ev, o)
    ensures Auto(Next(s, step).ev, o)
    ensures Ended(Next(s, step).done, o) + Flag(Next(s, step).ev, o) <= Ended(s.done, o) + Flag(s.ev, o)
              + if step == Set(o) then 1 else 0
  {
    match step {
      case Set(p) =>
        if p < |s.ev| {
          WakeTokens(SetSignal(s.ev, p), s.waiting, p, o);
          EndedAdds(s.done, Wake(SetSignal(s.ev, p), s.waiting, p).woken, o);
        }
      case Reset(p) =>
      case Wait(thread, objects, all) =>
        TryTokens(s.ev, objects, all, o);
        var a := Try(s.ev, objects, all);
        if a.res.Some? { assert (s.done + [Woken(thread, objects, a.res.value)])[..|s.done|] == s.done; }
    }
  }

  /** Each signal of an auto-reset event ends at most one wait, over any run. */
  lemma {:induction false} OneWaitPerSignal(s: State, steps: seq<Step>, o: nat)
    requires Auto(s.ev, o)
    ensures Auto(Run(s, steps).ev, o)
    ensures Ended(Run(s, steps).done, o) + Flag(Run(s, steps).ev, o) <= Ended(s.done, o) + Flag(s.ev, o)
              + Sets(steps, o)
  {
    if steps != [] {
      OneWaitPerSignal(s, steps[..|steps| - 1], o);
      StepTokens(Run(s, steps[..|steps| - 1]), steps[|steps| - 1], o);
    }
  }

  // ---------------------------------------------------------------- the engine's part

  /** The whole outcome: what has been decided so far, and then that of the threads still to be tried. */
  ghost predicate Continues(all: Outcome, rest: seq<Waiter>, woken: seq<Woken>, tail: Outcome) {
    all == Outcome(tail.ev, rest + tail.rest, woken + tail.woken)
  }

  lemma {:induction false} WakeHead(ev: seq<Event>, queue: seq<Waiter>, t: nat, o: nat, ev': seq<Event>,
      res: Option<WaitResult>, all: Outcome, rest: seq<Waiter>, woken: seq<Woken>)
    requires t < |queue| && Attempt(ev', res) == Try(ev, queue[t].objects, queue[t].all)
    requires Continues(all, rest, woken, Wake(ev, queue[t..], o))
    ensures res.None? ==> Continues(all, rest + [queue[t]], woken, Wake(ev', queue[t + 1..], o))
    ensures res.Some? ==>
              var woken' := woken + [Woken(queue[t].thread, queue[t].objects, res.value)];
              if Signaled(ev', o) then Continues(all, rest, woken', Wake(ev', queue[t + 1..], o))
              else all == Outcome(ev', rest + queue[t + 1..], woken')
  {
    assert queue[t..][0] == queue[t] && queue[t..][1..] == queue[t + 1..];
    var tail := Wake(ev', queue[t + 1..], o);
    TryMeans(ev, queue[t].objects, queue[t].all);
    assert rest + ([queue[t]] + tail.rest) == rest + [queue[t]] + tail.rest;
    if res.Some? {
      var w := Woken(queue[t].thread, queue[t].objects, res.value);
      assert woken + ([w] + tail.woken) == woken + [w] + tail.woken;
    }
  }

  /** What a signal does, on the values of the fields. */
  lemma {:induction false} SignalDone(s: State, o: nat)
    requires o < |s.ev| && NoneReady(s.ev, s.waiting)
    ensures
      var out := Wake(SetSignal(s.ev, o), s.waiting, o);
      && Parts(s.waiting, out.rest, out.woken) && InOrderOf(out.rest, s.waiting)
      && (forall j | 0 <= j < |out.woken| :: Rightly(SetSignal(s.ev, o), out.woken[j]))
      && (forall th: nat :: Queued(out.rest, th) + Released(s.done + out.woken, th)
                            == Queued(s.waiting, th) + Released(s.done, th))
      && out.ev[o].autoReset == s.ev[o].autoReset
      && (out.ev[o].signaled <==> !s.ev[o].autoReset || out.woken == [])
      && (s.ev[o].autoReset ==> |out.woken| <= 1)
      && forall k | 0 <= k < |s.ev| && k != o :: out.ev[k] == s.ev[k] || (
              && s.ev[k] == Event(true, true) && out.ev[k] == Event(false, true) && Ended(out.woken, k) == 1)
  {
    var ev := SetSignal(s.ev, o);
    var out := Wake(ev, s.waiting, o);
    WakeParts(ev, s.waiting, o);
    LeftInOrder(s.waiting, out.rest, out.woken);
    forall th: nat
      ensures Queued(out.rest, th) + Released(s.done + out.woken, th) == Queued(s.waiting, th) + Released(s.done, th)
    {
      NobodyLost(s.waiting, out.rest, out.woken, th);
      ReleasedAdds(s.done, out.woken, th);
    }
    if s.ev[o].autoReset { SignalOnce(s.ev, s.waiting, o); } else { ManualResetStays(ev, s.waiting, o); }
    forall k | 0 <= k < |s.ev| && k != o
      ensures out.ev[k] == s.ev[k] || (
                && s.ev[k] == Event(true, true) && out.ev[k] == Event(false, true) && Ended(out.woken, k) == 1)
    {
      if ev[k].autoReset { WakeTokens(ev, s.waiting, o, k); } else { ManualKeeps(ev, s.waiting, o, k); }
    }
  }

  /** A signal to an auto-reset event is taken by one thread or by none. */
  lemma {:induction false} SignalOnce(ev0: seq<Event>, waiting: seq<Waiter>, o: nat)
    requires o < |ev0| && NoneReady(ev0, waiting) && ev0[o].autoReset
    ensures
      var out := Wake(SetSignal(ev0, o), waiting, o);
      |out.woken| <= 1 && (out.ev[o].signaled <==> out.woken == [])
  {
    AutoResetWakesOne(ev0, waiting, o);
    if t :| 0 <= t < |waiting| && FreedBy(ev0, o, waiting[t]) {
      var first := FirstOf(ev0, waiting, o, t);
      assert WokeOnly(waiting, o, first, Wake(SetSignal(ev0, o), waiting, o));
    }
  }

  lemma {:induction false} FirstOf(ev0: seq<Event>, waiting: seq<Waiter>, o: nat, t: nat) returns (first: nat)
    requires o < |ev0| && t < |waiting| && FreedBy(ev0, o, waiting[t])
    ensures FirstFreed(ev0, waiting, o, first)
    decreases t
  {
    if j: nat :| j < t && FreedBy(ev0, o, waiting[j]) {
      first := FirstOf(ev0, waiting, o, j);
    } else {
      first := t;
    }
  }

  /** No signal changes another event that is a manual-reset one. */
  lemma {:induction false} ManualKeeps(ev: seq<Event>, waiting: seq<Waiter>, o: nat, k: nat)
    requires k < |ev| && !ev[k].autoReset
    ensures Wake(ev, waiting, o).ev[k] == ev[k]
    decreases |waiting|
  {
    if waiting != [] {
      TryMeans(ev, waiting[0].objects, waiting[0].all);
      ManualKeeps(Try(ev, waiting[0].objects, waiting[0].all).ev, waiting[1..], o, k);
    }
  }

  datatype WaitStatus = Over(result: WaitResult) | ThreadWaiting | InvalidParameter | NullReference

  class WaitSystem {
    const events: array<Event>
    var threadsWaiting: seq<Waiter>
    var done: seq<Woken>

    constructor (ev: array<Event>)
      ensures events == ev && Valid() && Current() == State(ev[..], [], [])
    {
      events, threadsWaiting, done := ev, [], [];
    }

    ghost function Current(): State
      reads this, events
    {
      State(events[..], threadsWaiting, done)
    }

    ghost predicate Valid()
      reads this, events
    {
      && NoneReady(events[..], threadsWaiting)
      && forall t | 0 <= t < |threadsWaiting| :: Known(threadsWaiting[t].objects)
    }

    ghost predicate Known(objects: seq<nat>) {
      forall i | 0 <= i < |objects| :: objects[i] < events.Length
    }

    method TryWaitForSignal(objects: seq<nat>, all: bool) returns (res: Option<WaitResult>)
      requires Known(objects)
      modifies events
      ensures Attempt(events[..], res) == Try(old(events[..]), objects, all)
    {
      ghost var ev := events[..];
      if all {
        for i := 0 to |objects|
          invariant forall j | 0 <= j < i :: Signaled(ev, objects[j])
        {
          if !events[objects[i]].signaled { return None; }
        }
        ResetAll(objects);
        res := Some(HandleAll);
      } else {
        for i := 0 to |objects|
          invariant FirstFrom(ev, objects, 0) == FirstFrom(ev, objects, i)
          invariant events[..] == ev
        {
          if events[objects[i]].signaled {
            if events[objects[i]].autoReset { events[objects[i]] := events[objects[i]].(signaled := false); }
            assert events[..] == Consumed(ev, [objects[i]]);
            return Some(Handle(i));
          }
        }
        res := None;
      }
    }

    /** Resets the auto-reset events among the objects. */
    method ResetAll(objects: seq<nat>)
      requires Known(objects)
      modifies events
      ensures events[..] == Consumed(old(events[..]), objects)
    {
      for i := 0 to |objects|
        invariant events[..] == Consumed(old(events[..]), objects[..i])
      {
        if events[objects[i]].autoReset { events[objects[i]] := events[objects[i]].(signaled := false); }
        assert forall k :: k in objects[..i + 1] <==> k in objects[..i] || k == objects[i];
      }
      assert objects[..|objects|] == objects;
    }

    /** Signals the event and wakes those whose waits are over now. Nobody else leaves the queue, and
        nobody changes places in it. */
    method SignalObject(o: nat)
      requires Valid() && o < events.Length
      modifies this, events
      ensures Valid() && Current() == Next(old(Current()), Set(o))
      ensures old(done) <= done && Parts(old(threadsWaiting), threadsWaiting, done[|old(done)|..])
      ensures forall j | |old(done)| <= j < |done| ::
                Rightly(old(events[..])[o := Event(true, old(events[o].autoReset))], done[j])
      ensures forall th: nat :: Queued(threadsWaiting, th) + Released(done, th)
                                == Queued(old(threadsWaiting), th) + Released(old(done), th)
      ensures InOrderOf(threadsWaiting, old(threadsWaiting))
      ensures events[o].autoReset == old(events[o].autoReset)
      ensures events[o].signaled <==> !events[o].autoReset || |done| == |old(done)|
      ensures events[o].autoReset ==> |done| <= |old(done)| + 1
      ensures forall k | 0 <= k < events.Length && k != o :: events[k] == old(events[k]) || (
                && old(events[k]) == Event(true, true) && events[k] == Event(false, true)
                && Ended(done[|old(done)|..], k) == 1)
    {
      ghost var s := Current();
      StepMissesNobody(s, Set(o));
      SignalDone(s, o);
      events[o] := events[o].(signaled := true);
      var rest, woken := WakeThreads(o);
      threadsWaiting, done := rest, done + woken;
      assert done[|s.done|..] == woken;
    }

    /** Tries the blocked threads in order, until the event is no longer signaled. */
    method WakeThreads(o: nat) returns (rest: seq<Waiter>, woken: seq<Woken>)
      requires o < events.Length && events[o].signaled && forall t | 0 <= t < |threadsWaiting| ::
                 Known(threadsWaiting[t].objects)
      modifies events
      ensures Outcome(events[..], rest, woken) == Wake(old(events[..]), threadsWaiting, o)
      ensures forall t | 0 <= t < |rest| :: Known(rest[t].objects)
    {
      ghost var all := Wake(events[..], threadsWaiting, o);
      rest, woken := [], [];
      var t := 0;
      while t < |threadsWaiting|
        invariant 0 <= t <= |threadsWaiting|
        invariant Continues(all, rest, woken, Wake(events[..], threadsWaiting[t..], o))
        invariant forall j | 0 <= j < |rest| :: Known(rest[j].objects)
      {
        ghost var ev := events[..];
        var th := threadsWaiting[t];
        var res := TryWaitForSignal(th.objects, th.all);
        WakeHead(ev, threadsWaiting, t, o, events[..], res, all, rest, woken);
        t := t + 1;
        match res {
          case None => rest := rest + [th];
          case Some(r) =>
            woken := woken + [Woken(th.thread, th.objects, r)];
            if !events[o].signaled {
              rest := rest + threadsWaiting[t..];
              return;
            }
        }
      }
    }

    method ResetObject(o: nat)
      requires Valid() && o < events.Length
      modifies events
      ensures Valid() && Current() == Next(old(Current()), Reset(o))
      ensures forall k | 0 <= k < events.Length ::
                events[k] == if k == o then Event(false, old(events[k].autoReset)) else old(events[k])
    {
      StepMissesNobody(Current(), Reset(o));
      events[o] := events[o].(signaled := false);
    }

    /** A thread waits; it goes on at once if it can, and is blocked otherwise. */
    method WaitForSignal(thread: nat, objects: seq<Option<nat>>, all: bool) returns (status: WaitStatus)
      requires Valid() && forall i | 0 <= i < |objects| && objects[i].Some? :: objects[i].value < events.Length
      modifies this, events
      ensures Valid()
      ensures status.InvalidParameter? <==> |objects| > 64
      ensures status.NullReference? <==> |objects| <= 64 && None in objects
      ensures status.Over? <==>
                |objects| <= 64 && None !in objects && Satisfied(old(events[..]), Values(objects), all)
      ensures status.InvalidParameter? || status.NullReference? ==> Current() == old(Current())
      ensures status.Over? || status.ThreadWaiting? ==>
                Current() == Next(old(Current()), Wait(thread, Values(objects), all))
      ensures status.Over? ==> done == old(done) + [Woken(thread, Values(objects), status.result)]
      ensures status.ThreadWaiting? ==> threadsWaiting == old(threadsWaiting) + [Waiter(thread, Values(objects), all)]
    {
      if |objects| > MAX_OBJECTS { return InvalidParameter; }
      for i := 0 to |objects|
        invariant None !in objects[..i]
      {
        if objects[i].None? { return NullReference; }
      }
      var values := Values(objects);
      StepMissesNobody(Current(), Wait(thread, values, all));
      TryMeans(events[..], values, all);
      var res := TryWaitForSignal(values, all);
      match res {
        case Some(r) =>
          done := done + [Woken(thread, values, r)];
          status := Over(r);
        case None =>
          threadsWaiting := threadsWaiting + [Waiter(thread, values, all)];
          status := ThreadWaiting;
      }
    }
  }

  /** The objects behind the references, as far as they are not null. */
  function Values(objects: seq<Option<nat>>): (r: seq<nat>)
    ensures |r| == |objects| && forall i | 0 <= i < |r| && objects[i].Some? :: Some(r[i]) == objects[i]
  {
    seq(|objects|, i requires 0 <= i < |objects| => if objects[i].Some? then objects[i].value else 0)
  }
}
