/**
 What every run of threads.c and synch.c keeps, said without the history
 variables of the model: about wait lists, lock holders, the ready list, the
 sleep queue and the sequence of steps.
 */
module KernelTheorems {
  import opened Sequences
  import opened KernelModel
  import opened KernelSteps
  import opened KernelRuns

  // ----- The scheduler

  /** One thread runs; the ready list is exactly the ready threads but the idle one, each once. */
  lemma OneRuns(ss: seq<State>, es: seq<Event>, i: nat)
    requires Trace(ss, es) && i < |ss|
    ensures var s := ss[i];
            && s.cur in s.threads
            && (forall t :: t in s.threads ==> (s.threads[t].status == Running <==> t == s.cur))
            && NoDup(s.ready)
            && (forall t :: t in s.ready <==> t in s.threads && s.threads[t].status == Ready && t != s.idle)
  {
    TraceGood(ss, es, i);
  }

  /** A thread's list element is in one list at most, and its list says what it waits for. */
  lemma InOneList(ss: seq<State>, es: seq<Event>, i: nat, t: Tid, id: SemId)
    requires Trace(ss, es) && i < |ss| && t in SemOf(ss[i], id).waiters
    ensures NoDup(SemOf(ss[i], id).waiters)
    ensures t in ss[i].threads && ss[i].threads[t].status == Blocked && ss[i].threads[t].doing.Down? && ss[i].threads[t].doing.sem == id
    ensures t !in ss[i].ready && forall j :: j != id ==> t !in SemOf(ss[i], j).waiters
  {
    TraceGood(ss, es, i);
    var s := ss[i];
    assert BlockedOn(s, t, id);
    forall j | j != id ensures t !in SemOf(s, j).waiters {
      assert !BlockedOn(s, t, j);
    }
  }

  // ----- Semaphores

  /** The number of `sema_up`s, and of completed `sema_down`s, in the first `n` steps. */
  ghost function Raised(ss: seq<State>, es: seq<Event>, id: SemId, n: nat): nat
    requires n <= |es| < |ss|
  {
    if n == 0 then 0 else Raised(ss, es, id, n - 1) + One(Raises(ss[n - 1], es[n - 1], id))
  }

  ghost function Lowered(ss: seq<State>, es: seq<Event>, id: SemId, n: nat): nat
    requires n <= |es| < |ss|
  {
    if n == 0 then 0 else Lowered(ss, es, id, n - 1) + One(Lowers(ss[n - 1], es[n - 1], id))
  }

  /** value = initial value + ups - completed downs. */
  lemma {:induction false} ValueCounts(ss: seq<State>, es: seq<Event>, id: SemId, n: nat)
    requires Trace(ss, es) && n <= |es| && !id.OfWait?
    ensures SemOf(ss[n], id).value == SemOf(ss[0], id).value + Raised(ss, es, id, n) - Lowered(ss, es, id, n)
  {
    if n > 0 {
      hide Good, Next, Enabled, Init, SemOf, Raises, Lowers;
      ValueCounts(ss, es, id, n - 1);
      TraceGood(ss, es, n - 1);
      EffectOk(ss[n - 1], es[n - 1]);
    }
  }

  /** While a thread is on the wait list, there are no more units than woken threads that have yet to look. */
  lemma NoLostWakeup(ss: seq<State>, es: seq<Event>, i: nat, id: SemId)
    requires Trace(ss, es) && i < |ss| && SemOf(ss[i], id).waiters != []
    ensures SemOf(ss[i], id).value <= |Woken(ss[i], id)|
    ensures forall t :: t in Woken(ss[i], id) ==> t == ss[i].cur || t in ss[i].ready
    ensures SemOf(ss[i], id).value > 0 ==> exists t :: t in Woken(ss[i], id) && (t == ss[i].cur || t in ss[i].ready)
  {
    TraceGood(ss, es, i);
    var s := ss[i];
    forall t | t in Woken(s, id) ensures t == s.cur || t in s.ready { }
    if SemOf(s, id).value > 0 {
      assert |Woken(s, id)| > 0;
      assert Woken(s, id) != {};
      var t :| t in Woken(s, id);
    }
  }

  // ----- Locks

  /** Thread `t` took the semaphore of lock `l` before step `n`, in `lock_acquire` or `lock_try_acquire`, and has not given it back. */
  ghost predicate Has(ss: seq<State>, es: seq<Event>, n: nat, l: nat, t: Tid)
    requires n <= |es| < |ss|
  {
    exists i :: 0 <= i < n && Takes(ss, es, i, l, t) && NotGiven(ss, es, i, n, l)
  }

  ghost predicate Takes(ss: seq<State>, es: seq<Event>, i: nat, l: nat, t: Tid)
    requires i < |es| < |ss|
  {
    Taken(ss[i], es[i]) == Some(l) && ss[i].cur == t
  }

  ghost predicate NotGiven(ss: seq<State>, es: seq<Event>, i: nat, n: nat, l: nat)
    requires n <= |es| < |ss|
  {
    forall k :: i < k < n ==> Given(ss[k], es[k]) != Some(l)
  }

  lemma TakenFree(s: State, e: Event, l: nat)
    requires Good(s) && Enabled(s, e) && Taken(s, e) == Some(l)
    ensures l !in s.owners && Given(s, e) == None
  {
    assert l in s.locks;
    assert LockOk(s, l);
  }

  lemma GivenOwned(s: State, e: Event, l: nat)
    requires Good(s) && Given(s, e) == Some(l)
    ensures Owns(s, s.cur, l)
  {
    IdleFree(s);
    assert Uses(s.threads[s.cur].doing) == Some(l);
  }

  lemma OwnersStep(s: State, e: Event, l: nat, t: Tid)
    requires Good(s) && Enabled(s, e)
    ensures Owns(Next(s, e), t, l) <==> (Taken(s, e) == Some(l) && s.cur == t) || (Owns(s, t, l) && Given(s, e) != Some(l))
  {
    hide Next, Enabled, Good;
    EffectOk(s, e);
    if Taken(s, e) == Some(l) { TakenFree(s, e, l); }
    if Given(s, e) == Some(l) { GivenOwned(s, e, l); }
    hide Taken, Given;
  }

  lemma HasStep(ss: seq<State>, es: seq<Event>, n: nat, l: nat, t: Tid)
    requires 0 < n <= |es| < |ss|
    ensures Has(ss, es, n, l, t) <==> Takes(ss, es, n - 1, l, t) || (Has(ss, es, n - 1, l, t) && Given(ss[n - 1], es[n - 1]) != Some(l))
  {
    hide Takes, Given;
    if Has(ss, es, n, l, t) && !Takes(ss, es, n - 1, l, t) {
      var i :| 0 <= i < n && Takes(ss, es, i, l, t) && NotGiven(ss, es, i, n, l);
      assert NotGiven(ss, es, i, n - 1, l);
    }
    if Takes(ss, es, n - 1, l, t) {
      assert NotGiven(ss, es, n - 1, n, l);
    } else if Has(ss, es, n - 1, l, t) && Given(ss[n - 1], es[n - 1]) != Some(l) {
      var i :| 0 <= i < n - 1 && Takes(ss, es, i, l, t) && NotGiven(ss, es, i, n - 1, l);
      assert NotGiven(ss, es, i, n, l);
    }
  }

  lemma {:induction false} OwnerHas(ss: seq<State>, es: seq<Event>, n: nat, l: nat, t: Tid)
    requires Trace(ss, es) && n <= |es|
    ensures Has(ss, es, n, l, t) <==> Owns(ss[n], t, l)
  {
    if n == 0 {
      assert ss[0].owners == map[];
    } else {
      hide *;
      TraceStep(ss, es, n - 1);
      OwnerHas(ss, es, n - 1, l, t);
      TraceGood(ss, es, n - 1);
      OwnersStep(ss[n - 1], es[n - 1], l, t);
      HasStep(ss, es, n, l, t);
      TakesMeans(ss, es, n - 1, l, t);
    }
  }

  lemma TakesMeans(ss: seq<State>, es: seq<Event>, i: nat, l: nat, t: Tid)
    requires i < |es| < |ss|
    ensures Takes(ss, es, i, l, t) <==> Taken(ss[i], es[i]) == Some(l) && ss[i].cur == t
  {
  }

  /** At most one thread has a lock. */
  lemma MutualExclusion(ss: seq<State>, es: seq<Event>, n: nat, l: nat, t: Tid, u: Tid)
    requires Trace(ss, es) && n <= |es| && Has(ss, es, n, l, t) && Has(ss, es, n, l, u)
    ensures t == u
  {
    OwnerHas(ss, es, n, l, t);
    OwnerHas(ss, es, n, l, u);
  }

  /** `holder` is the thread that has the lock, from when it has said so until it takes it back. */
  lemma HolderIsOwner(ss: seq<State>, es: seq<Event>, n: nat, l: nat, t: Tid)
    requires Trace(ss, es) && n <= |es|
    ensures Holder(ss[n], l) == Some(t) <==> Has(ss, es, n, l, t) && !Between(ThreadOf(ss[n], t).doing, l)
    ensures l in ss[n].locks ==> SemOf(ss[n], OfLock(l)).value == One(!exists u :: Has(ss, es, n, l, u))
  {
    hide Has;
    forall u ensures Has(ss, es, n, l, u) <==> Owns(ss[n], u, l) { OwnerHas(ss, es, n, l, u); }
    TraceGood(ss, es, n);
    assert LockOk(ss[n], l);
    assert l in ss[n].owners ==> Owns(ss[n], ss[n].owners[l], l);
  }

  // ----- Condition variables

  /** The condition whose first waiter a step signals. */
  function Signalled(s: State, e: Event): Option<nat> {
    var d := ThreadOf(s, s.cur).doing;
    match e
    case CallSignal(c, _) => if Waiting(s, c) != [] then Some(c) else None
    case Go => if d.Looping? && Waiting(s, d.c) != [] then Some(d.c) else None
    case _ => None
  }

  function WaitingAfter(s: State, e: Event, c: nat): seq<nat> {
    if Signalled(s, e) == Some(c) then (if Waiting(s, c) == [] then [] else Waiting(s, c)[1..])
    else if e.CallWait? && e.c == c then Waiting(s, c) + [s.nextWait]
    else Waiting(s, c)
  }

  ghost predicate CondEffect(s: State, e: Event, s': State) {
    && s'.nextWait == s.nextWait + One(e.CallWait? || e.CallSleep?)
    && forall c :: Waiting(s', c) == WaitingAfter(s, e, c)
  }

  lemma SameConds(s: State, s': State)
    requires s'.conds == s.conds
    ensures forall c :: Waiting(s', c) == Waiting(s, c)
  {
  }

  lemma ScheduleConds(s: State)
    ensures Schedule(s).conds == s.conds && Schedule(s).nextWait == s.nextWait
  {
  }

  lemma SemaUpConds(s: State, id: SemId)
    ensures SemaUp(s, id).conds == s.conds && SemaUp(s, id).nextWait == s.nextWait
  {
  }

  lemma TestConds(s: State, id: SemId, lock: Option<nat>)
    ensures Tests(s, id, lock).conds == s.conds && Tests(s, id, lock).nextWait == s.nextWait
  {
    hide Schedule;
    ScheduleConds(Enqueues(s, id, lock));
  }

  lemma UpsConds(s: State, id: SemId, next: Option<nat>)
    ensures Ups(s, id, next).conds == s.conds && Ups(s, id, next).nextWait == s.nextWait
  {
    hide SemaUp;
    SemaUpConds(s, id);
  }

  /** In one step a wait goes to the end of its condition's list, a signal takes the first off, and nothing else changes a list. */
  lemma CondFifo(s: State, e: Event)
    requires Good(s) && Enabled(s, e)
    ensures CondEffect(s, e, Next(s, e))
  {
    hide Good, Goes, Ticks, Schedule, SemaUp, InsertSleeper, CondEffect, Signals, CondWaits;
    match e {
      case Go => CondGo(s);
      case Tick => CondTick(s);
      case CallSleep(_) => CondSchedule(s, e);
      case CallYield => CondSchedule(s, e);
      case CallExit => CondSchedule(s, e);
      case IdleBlocks => CondSchedule(s, e);
      case CallUp(n) => SemaUpConds(s, Counting(n)); CondSame(s, e);
      case InterruptUp(n) => SemaUpConds(s, Counting(n)); CondSame(s, e);
      case CallSignal(c, _) => CondSignal(s, e, c, None);
      case CallWait(c, l) => CondWait(s, c, l);
      case _ => CondSame(s, e);
    }
  }

  lemma CondSchedule(s: State, e: Event)
    requires e.CallSleep? || e.CallYield? || e.CallExit? || e.IdleBlocks?
    ensures CondEffect(s, e, Next(s, e))
  {
    hide Schedule, CondEffect, InsertSleeper;
    var s1 := match e
      case CallSleep(until) => Sleeps(s, until)
      case CallYield => Yields(s)
      case CallExit => Dies(s)
      case _ => Blocks(s);
    ScheduleConds(s1);
    CondSame(s, e);
  }

  lemma CondSame(s: State, e: Event)
    requires Next(s, e).conds == s.conds && Signalled(s, e) == None && !e.CallWait?
    requires Next(s, e).nextWait == s.nextWait + One(e.CallSleep?)
    ensures CondEffect(s, e, Next(s, e))
  {
    hide Next;
    SameConds(s, Next(s, e));
    hide Waiting;
  }

  lemma CondTick(s: State)
    requires Good(s)
    ensures CondEffect(s, Tick, Ticks(s))
  {
    hide Inv, KnownLocks, OnTime, WakeAll, Schedule;
    var s0 := s.(now := s.now + 1);
    SliceOk(s);
    NowFrame(s, s0);
    var k := WakeAllOk(s0);
    ScheduleConds(Yields(WakeAll(s0).(slice := WakeAll(s0).slice + 1)));
  }

  lemma CondWait(s: State, c: nat, l: nat)
    ensures CondEffect(s, CallWait(c, l), CondWaits(s, c, l))
  {
  }

  lemma CondSignal(s: State, e: Event, c: nat, next: Option<nat>)
    requires e == CallSignal(c, if e.CallSignal? then e.l else 0) || (e == Go && ThreadOf(s, s.cur).doing == Looping(c))
    ensures CondEffect(s, e, Signals(s, c, next))
  {
  }

  lemma CondGo(s: State)
    requires Enabled(s, Go)
    ensures CondEffect(s, Go, Next(s, Go))
  {
    hide Schedule, SemaUp, Ups, Tests, CondEffect, SemOf, Signals;
    match ThreadOf(s, s.cur).doing {
      case Down(id, _, lock) => TestConds(s, id, lock); CondSame(s, Go);
      case Up(id, next) => UpsConds(s, id, next); CondSame(s, Go);
      case Looping(c) => CondSignal(s, Go, c, Some(c));
      case _ => CondSame(s, Go);
    }
  }

  /** Conditions list their semaphores in the order in which they were made. */
  ghost predicate InOrder(s: State) {
    forall c :: Ascending(Waiting(s, c), s.nextWait)
  }

  ghost predicate Ascending(q: seq<nat>, end: nat) {
    (forall i, j :: 0 <= i < j < |q| ==> q[i] < q[j]) && (forall i :: 0 <= i < |q| ==> q[i] < end)
  }

  lemma AscendingAfter(s: State, e: Event, c: nat, end: nat)
    requires Ascending(Waiting(s, c), s.nextWait) && s.nextWait <= end && (e.CallWait? ==> s.nextWait < end)
    ensures Ascending(WaitingAfter(s, e, c), end)
  {
  }

  lemma TraceCond(ss: seq<State>, es: seq<Event>, n: nat)
    requires Trace(ss, es) && n < |es|
    ensures |ss| == |es| + 1 && ss[n + 1].nextWait == ss[n].nextWait + One(es[n].CallWait? || es[n].CallSleep?)
    ensures forall c :: Waiting(ss[n + 1], c) == WaitingAfter(ss[n], es[n], c)
  {
    TraceGood(ss, es, n);
    hide Good, Next, Enabled, Init, Waiting, WaitingAfter;
    CondFifo(ss[n], es[n]);
  }

  lemma {:induction false} TraceInOrder(ss: seq<State>, es: seq<Event>, n: nat)
    requires Trace(ss, es) && n <= |es|
    ensures InOrder(ss[n])
  {
    if n > 0 {
      hide Trace, Waiting, WaitingAfter, Ascending;
      TraceCond(ss, es, n - 1);
      TraceInOrder(ss, es, n - 1);
      var s, e := ss[n - 1], es[n - 1];
      forall c ensures Ascending(Waiting(ss[n], c), ss[n].nextWait) {
        AscendingAfter(s, e, c, ss[n].nextWait);
      }
    } else {
      assert ss[0].conds == map[];
    }
  }

  /** Once it is listed, a semaphore is listed until its condition is signalled on its behalf. */
  lemma {:induction false} ListedUntilSignalled(ss: seq<State>, es: seq<Event>, i: nat, c: nat, n: nat)
    requires Trace(ss, es) && i < n <= |es| && es[i].CallWait? && es[i].c == c
    ensures ss[i].nextWait in Waiting(ss[n], c) || exists k :: i < k < n && SignalAt(ss, es, k, c, ss[i].nextWait)
  {
    hide Trace, Waiting, WaitingAfter, SignalAt;
    TraceCond(ss, es, n - 1);
    var w := ss[i].nextWait;
    if n > i + 1 {
      ListedUntilSignalled(ss, es, i, c, n - 1);
      if w in Waiting(ss[n - 1], c) && w !in Waiting(ss[n], c) {
        Unlists(ss, es, n - 1, c, w);
      }
    } else {
      NotSignalledYet(ss[i], es[i], c);
    }
  }

  lemma NotSignalledYet(s: State, e: Event, c: nat)
    requires e.CallWait? && e.c == c
    ensures s.nextWait in WaitingAfter(s, e, c)
  {
  }

  lemma Unlists(ss: seq<State>, es: seq<Event>, n: nat, c: nat, w: nat)
    requires n < |es| < |ss| && w in Waiting(ss[n], c) && w !in WaitingAfter(ss[n], es[n], c)
    ensures SignalAt(ss, es, n, c, w)
  {
  }

  /** A condition is first come, first served: who called `cond_wait` earlier is signalled earlier. */
  lemma SignalsInOrder(ss: seq<State>, es: seq<Event>, i: nat, j: nat, c: nat, n: nat)
    requires Trace(ss, es) && i < j < n < |es| && es[i].CallWait? && es[i].c == c && es[j].CallWait? && es[j].c == c
    requires SignalAt(ss, es, n, c, ss[j].nextWait)
    ensures exists k :: i < k < n && SignalAt(ss, es, k, c, ss[i].nextWait)
  {
    ListedUntilSignalled(ss, es, i, c, n);
    TraceInOrder(ss, es, n);
    LaterTicket(ss, es, i, j);
    var q := Waiting(ss[n], c);
    assert Ascending(q, ss[n].nextWait);
    assert ss[i].nextWait !in q;
  }

  lemma {:induction false} LaterTicket(ss: seq<State>, es: seq<Event>, i: nat, j: nat)
    requires Trace(ss, es) && i < j <= |es| && es[i].CallWait?
    ensures ss[i].nextWait < ss[j].nextWait
  {
    hide Trace, Waiting, WaitingAfter;
    TraceCond(ss, es, j - 1);
    if j > i + 1 { LaterTicket(ss, es, i, j - 1); }
  }

  /** The semaphore `w` is neither on the list of a condition nor in the sleep queue, and never will be. */
  ghost predicate Unlisted(s: State, w: nat) {
    w < s.nextWait && !InQueue(s.sleeping, w) && forall c :: w !in Waiting(s, c)
  }

  lemma UnlistedStays(s: State, e: Event, w: nat)
    requires Good(s) && Enabled(s, e) && Unlisted(s, w)
    ensures Unlisted(Next(s, e), w)
  {
    hide Next, Enabled, InsertSleeper, WaitingAfter, Inv, OnTime, KnownLocks;
    CondFifo(s, e);
    EffectOk(s, e);
    forall c ensures w !in Waiting(Next(s, e), c) { FewerWaiting(s, e, c, w); }
    hide Waiting;
    SleepersAfter(s, e, w);
  }

  lemma FewerWaiting(s: State, e: Event, c: nat, w: nat)
    requires w !in Waiting(s, c) && w < s.nextWait
    ensures w !in WaitingAfter(s, e, c)
  {
  }

  lemma SleepersAfter(s: State, e: Event, w: nat)
    requires Good(s) && Enabled(s, e) && w < s.nextWait && !InQueue(s.sleeping, w)
    ensures !InQueue(Next(s, e).sleeping, w)
  {
    hide Next, Enabled, InsertSleeper, Inv, OnTime, KnownLocks, InQueue;
    EffectOk(s, e);
    if e == Tick {
      NextTick(s);
      var k := TickShape(s);
      InSuffix(s.sleeping, k, w);
    } else if e.CallSleep? {
      QueueOk(s);
      NewSleeper(s);
      InsertedOrder(s.sleeping, Sleeper(e.until, s.nextWait, s.now));
    }
  }

  lemma InSuffix(q: seq<Sleeper>, k: nat, w: nat)
    requires k <= |q| && !InQueue(q, w)
    ensures !InQueue(q[k..], w)
  {
  }

  lemma NewSleeper(s: State)
    requires Inv(s, true)
    ensures !InQueue(s.sleeping, s.nextWait)
  {
    assert !AsleepTicket(s, s.nextWait);
  }

  /** A signalled waiter: either its `sema_up` is still to come, or it has its unit and is not blocked. */
  lemma SignalWaits(s: State, t: Tid, w: nat)
    requires Good(s) && Unlisted(s, w) && t in s.threads && Waits(s.threads[t].doing) == Some(w)
    ensures (exists u :: u in s.threads && Carries(s.threads[u].doing) == Some(w))
            || (SemOf(s, OfWait(w)).value == 1 && s.threads[t].status != Blocked)
  {
    var place := s.tickets[w].place;
    forall c ensures place != Listed(c) { assert w !in Waiting(s, c); }
    assert !AsleepTicket(s, w);
    if place.Carried? {
      assert Carries(s.threads[place.signaller].doing) == Some(w);
    } else {
      assert place == Posted;
      PostedAwake(s, t, w);
    }
  }

  lemma PostedAwake(s: State, t: Tid, w: nat)
    requires Inv(s, true) && w in s.tickets && s.tickets[w].owner == t && SemOf(s, OfWait(w)).value == 1
    ensures !BlockedOn(s, t, OfWait(w))
  {
    hide SchedInv, WaitInv, StartInv, WakeInv, LockInv, TicketInv, PlaceInv, SleepInv, SemOf, BlockedOn;
    WokenOrNone(s, OfWait(w));
    if SemOf(s, OfWait(w)).waiters != [] {
      var u :| u in Woken(s, OfWait(w));
      WaiterOwns(s, u, w);
      WokenAwake(s, u, OfWait(w));
    } else {
      NoWaiter(s, t, OfWait(w));
    }
  }

  lemma WokenOrNone(s: State, id: SemId)
    requires WakeInv(s) && SemOf(s, id).value > 0
    ensures SemOf(s, id).waiters == [] || Woken(s, id) != {}
  {
  }

  lemma WokenAwake(s: State, u: Tid, id: SemId)
    requires u in Woken(s, id)
    ensures !BlockedOn(s, u, id)
  {
  }

  lemma NoWaiter(s: State, t: Tid, id: SemId)
    requires WaitInv(s) && SemOf(s, id).waiters == []
    ensures !BlockedOn(s, t, id)
  {
    assert t !in SemOf(s, id).waiters;
  }

  /** Only its owner waits for a semaphore on a stack. */
  lemma WaiterOwns(s: State, u: Tid, w: nat)
    requires TicketInv(s) && u in Woken(s, OfWait(w)) && w in s.tickets
    ensures s.tickets[w].owner == u
  {
    assert Waits(s.threads[u].doing) == Some(w);
  }

  /** Step `i` of a run signals the first waiter of condition `c`. */
  ghost predicate SignalAt(ss: seq<State>, es: seq<Event>, i: nat, c: nat, w: nat)
    requires i < |es| < |ss|
  {
    Signalled(ss[i], es[i]) == Some(c) && Waiting(ss[i], c) != [] && w == Waiting(ss[i], c)[0]
  }

  lemma {:induction false} UnlistedFrom(ss: seq<State>, es: seq<Event>, i: nat, c: nat, w: nat, j: nat)
    requires Trace(ss, es) && i < j <= |es| && SignalAt(ss, es, i, c, w)
    ensures Unlisted(ss[j], w)
  {
    hide Good, Next, Enabled, Init, Unlisted;
    TraceGood(ss, es, j - 1);
    if j == i + 1 {
      SignalUnlists(ss[i], es[i], c, w);
    } else {
      UnlistedFrom(ss, es, i, c, w, j - 1);
      UnlistedStays(ss[j - 1], es[j - 1], w);
    }
  }

  lemma SignalUnlists(s: State, e: Event, c: nat, w: nat)
    requires Good(s) && Enabled(s, e) && Signalled(s, e) == Some(c) && Waiting(s, c) != [] && w == Waiting(s, c)[0]
    ensures Unlisted(Next(s, e), w)
  {
    hide Next, Enabled, InsertSleeper, OnTime, KnownLocks;
    hide SchedInv, WaitInv, StartInv, WakeInv, LockInv, TicketInv, PlaceInv, SleepInv;
    CondFifo(s, e);
    EffectOk(s, e);
    FirstListed(s, c);
    forall b ensures w !in WaitingAfter(s, e, b) { }
    hide Waiting, InQueue;
    SleepersAfter(s, e, w);
  }

  lemma FirstListed(s: State, c: nat)
    requires TicketInv(s) && PlaceInv(s) && SleepInv(s) && Waiting(s, c) != []
    ensures var w := Waiting(s, c)[0];
            w < s.nextWait && !InQueue(s.sleeping, w) && w !in Waiting(s, c)[1..] && forall b :: b != c ==> w !in Waiting(s, b)
  {
    hide TicketInv, PlaceInv, SleepInv, InQueue, Waiting;
    var w := Waiting(s, c)[0];
    ListedOnce(s, c);
    NotAsleep(s, w);
  }

  lemma ListedOnce(s: State, c: nat)
    requires TicketInv(s) && PlaceInv(s) && Waiting(s, c) != []
    ensures var w := Waiting(s, c)[0];
            && w in s.tickets && s.tickets[w].place == Listed(c) && w < s.nextWait
            && w !in Waiting(s, c)[1..] && forall b :: b != c ==> w !in Waiting(s, b)
  {
    hide TicketInv, PlaceInv;
    ListedOnlyOnce(s, c, Waiting(s, c)[0]);
    TicketBelow(s, Waiting(s, c)[0]);
    HeadOnce(s, c);
  }

  lemma HeadOnce(s: State, c: nat)
    requires PlaceInv(s) && Waiting(s, c) != []
    ensures Waiting(s, c)[0] !in Waiting(s, c)[1..]
  {
    hide Carries;
  }

  lemma TicketBelow(s: State, w: nat)
    requires TicketInv(s) && w in s.tickets
    ensures w < s.nextWait
  {
    hide Waits;
  }

  lemma NotAsleep(s: State, w: nat)
    requires SleepInv(s) && w in s.tickets && s.tickets[w].place != Asleep
    ensures !InQueue(s.sleeping, w)
  {
    hide InQueue;
    assert !AsleepTicket(s, w);
  }

  /**
   No signal is lost.  From a `cond_signal` on, as long as the waiter it chose is
   still in its `cond_wait`, between `lock_release` and `sema_down` or later, the
   signaller is about to raise its semaphore, or the unit is there and the waiter
   is not blocked: its next test succeeds.
   */
  lemma SignalNotLost(ss: seq<State>, es: seq<Event>, i: nat, c: nat, w: nat, j: nat, t: Tid)
    requires Trace(ss, es) && i < j <= |es| && SignalAt(ss, es, i, c, w)
    requires t in ss[j].threads && Waits(ss[j].threads[t].doing) == Some(w)
    ensures (exists u :: u in ss[j].threads && Carries(ss[j].threads[u].doing) == Some(w))
            || (SemOf(ss[j], OfWait(w)).value == 1 && ss[j].threads[t].status != Blocked)
  {
    hide Good, Unlisted, Next, Enabled, Init, SemOf;
    UnlistedFrom(ss, es, i, c, w, j);
    TraceGood(ss, es, j);
    SignalWaits(ss[j], t, w);
  }

  /** Only a signal ends a wait: a thread whose semaphore is still listed finds the value zero. */
  lemma NoSpuriousWakeup(ss: seq<State>, es: seq<Event>, i: nat, c: nat, w: nat)
    requires Trace(ss, es) && i < |ss| && w in Waiting(ss[i], c)
    ensures SemOf(ss[i], OfWait(w)).value == 0 && forall b :: b != c ==> w !in Waiting(ss[i], b)
    ensures exists t :: t in ss[i].threads && Waits(ss[i].threads[t].doing) == Some(w)
  {
    hide Trace, SchedInv, WaitInv, StartInv, WakeInv, LockInv, TicketInv, PlaceInv, SleepInv, SemOf, Waiting;
    TraceGood(ss, es, i);
    ListedTicketOf(ss[i], c, w);
    NotPosted(ss[i], w);
  }

  lemma ListedTicketOf(s: State, c: nat, w: nat)
    requires TicketInv(s) && PlaceInv(s) && w in Waiting(s, c)
    ensures w in s.tickets && s.tickets[w].place == Listed(c) && forall b :: b != c ==> w !in Waiting(s, b)
    ensures s.tickets[w].owner in s.threads && Waits(s.threads[s.tickets[w].owner].doing) == Some(w)
  {
    hide *;
    ListedOnlyOnce(s, c, w);
    OwnerWaits(s, w);
  }

  lemma ListedOnlyOnce(s: State, c: nat, w: nat)
    requires PlaceInv(s) && w in Waiting(s, c)
    ensures w in s.tickets && s.tickets[w].place == Listed(c) && forall b :: b != c ==> w !in Waiting(s, b)
  {
    hide Carries;
  }

  lemma OwnerWaits(s: State, w: nat)
    requires TicketInv(s) && w in s.tickets
    ensures s.tickets[w].owner in s.threads && Waits(s.threads[s.tickets[w].owner].doing) == Some(w)
  {
    hide Waits;
  }

  // ----- Sleeping

  /** A step drops a sleeper only if it is a tick and the sleeper's time is over. */
  lemma SleeperStays(s: State, e: Event, x: Sleeper)
    requires Good(s) && Enabled(s, e) && x in s.sleeping && (e == Tick ==> x.wakeup > s.now)
    ensures x in Next(s, e).sleeping
  {
    hide Next, Enabled, Good, InsertSleeper;
    EffectOk(s, e);
    if e == Tick {
      NextTick(s);
      SleeperTick(s, x);
    } else if e.CallSleep? {
      SleeperInserted(s, Sleeper(e.until, s.nextWait, s.now));
    }
  }

  lemma SleeperTick(s: State, x: Sleeper)
    requires Good(s) && x in s.sleeping
    ensures x in Ticks(s).sleeping <==> x.wakeup > s.now
  {
    hide Inv, OnTime, KnownLocks;
    var k := TickShape(s);
    hide Ticks;
    var i :| 0 <= i < |s.sleeping| && s.sleeping[i] == x;
    if i >= k { assert s.sleeping[k..][i - k] == x; }
  }

  lemma SleeperInserted(s: State, e: Sleeper)
    requires Good(s)
    ensures e in InsertSleeper(s.sleeping, e) && forall x :: x in s.sleeping ==> x in InsertSleeper(s.sleeping, e)
  {
    hide Inv, OnTime, KnownLocks;
    QueueOk(s);
    var k := InsertedAt(s.sleeping, e);
  }

  /** A thread whose entry is in the sleep queue stays blocked. */
  lemma SleeperBlocked(s: State, e: Event, x: Sleeper, t: Tid)
    requires Good(s) && Enabled(s, e) && BlockedOn(s, t, OfWait(x.w)) && x in Next(s, e).sleeping
    ensures BlockedOn(Next(s, e), t, OfWait(x.w))
  {
    hide Next, Enabled, OnTime, KnownLocks, KnownStep;
    var s' := Next(s, e);
    StillThere(s, e, t);
    NextInv(s, e);
    hide SchedInv, WaitInv, StartInv, WakeInv, LockInv, PlaceInv;
    EntryBlocked(s', x);
    assert Waits(s'.threads[t].doing) == Some(x.w);
  }

  lemma StillThere(s: State, e: Event, t: Tid)
    requires Good(s) && Enabled(s, e) && t in s.threads && s.threads[t].status == Blocked
    ensures t in Next(s, e).threads && Next(s, e).threads[t].doing == s.threads[t].doing
  {
    hide Next, Enabled, OnTime, KnownLocks;
    KnownOk(s, e);
  }

  lemma EntryBlocked(s: State, x: Sleeper)
    requires SleepInv(s) && x in s.sleeping
    ensures AsleepTicket(s, x.w) && BlockedOn(s, s.tickets[x.w].owner, OfWait(x.w))
  {
    assert InQueue(s.sleeping, x.w);
  }

  lemma SleepBegins(s: State, until: int)
    requires Good(s) && Enabled(s, CallSleep(until))
    ensures var s', x := Next(s, CallSleep(until)), Sleeper(until, s.nextWait, s.now);
            x in s'.sleeping && s'.now == s.now && BlockedOn(s', s.cur, OfWait(s.nextWait))
  {
    hide Good, Schedule, InsertSleeper, SemOf;
    EffectOk(s, CallSleep(until));
    SleeperInserted(s, Sleeper(until, s.nextWait, s.now));
    SleepBlocks(s, until);
  }

  lemma SleepBlocks(s: State, until: int)
    requires Good(s) && Enabled(s, CallSleep(until))
    ensures BlockedOn(Schedule(Sleeps(s, until)), s.cur, OfWait(s.nextWait))
  {
    hide Good, Schedule, Sleeps, BlockedOn, NextThread;
    NotReady(s);
    SleepsBlocked(s, until);
    ScheduleOthers(Sleeps(s, until), s.cur, OfWait(s.nextWait));
  }

  lemma SleepsBlocked(s: State, until: int)
    ensures BlockedOn(Sleeps(s, until), s.cur, OfWait(s.nextWait)) && NextThread(Sleeps(s, until)) == NextThread(s)
  {
    hide InsertSleeper;
  }

  lemma ScheduleOthers(s: State, t: Tid, id: SemId)
    requires BlockedOn(s, t, id) && NextThread(s) != t
    ensures BlockedOn(Schedule(s), t, id)
  {
  }

  lemma NotReady(s: State)
    requires Good(s) && s.cur != s.idle
    ensures NextThread(s) != s.cur
  {
    hide WaitInv, StartInv, WakeInv, LockInv, TicketInv, PlaceInv, SleepInv;
    assert s.cur !in s.ready;
  }

  /** The tick that ends a sleep makes the thread ready. */
  lemma TickReleases(s: State, x: Sleeper, t: Tid)
    requires Good(s) && x in s.sleeping && x.wakeup <= s.now && BlockedOn(s, t, OfWait(x.w))
    ensures t in Ticks(s).threads && Ticks(s).threads[t].status != Blocked
  {
    hide Ticks, OnTime, KnownLocks;
    hide SchedInv, WaitInv, StartInv, WakeInv, LockInv, TicketInv, PlaceInv, SleepInv;
    var s', w := Ticks(s), x.w;
    EntryBlocked(s, x);
    TickOk(s);
    EntryGone(s, x);
    assert SameDoing(s, s') by { var k := TickShape(s); }
    CondTick(s);
    TicketOf(s', t, w);
    NotElsewhere(s, s', w);
    PostedAwake(s', t, w);
  }

  lemma TicketOf(s: State, t: Tid, w: nat)
    requires TicketInv(s) && t in s.threads && Waits(s.threads[t].doing) == Some(w)
    ensures w in s.tickets && s.tickets[w].owner == t && SemOf(s, OfWait(w)).value == One(s.tickets[w].place == Posted)
  {
  }

  lemma EntryGone(s: State, x: Sleeper)
    requires Good(s) && x in s.sleeping && x.wakeup <= s.now
    ensures !InQueue(Ticks(s).sleeping, x.w)
  {
    hide Inv, OnTime, KnownLocks;
    QueueOk(s);
    var k := TickShape(s);
    hide Ticks;
  }

  /** A ticket that was in the sleep queue is not listed or carried after a tick. */
  lemma NotElsewhere(s: State, s': State, w: nat)
    requires PlaceInv(s) && PlaceInv(s') && SleepInv(s') && SameDoing(s, s') && AsleepTicket(s, w) && w in s'.tickets && !InQueue(s'.sleeping, w)
    requires forall c :: Waiting(s', c) == Waiting(s, c)
    ensures s'.tickets[w].place == Posted
  {
    var place := s'.tickets[w].place;
    assert !AsleepTicket(s', w);
    forall c ensures place != Listed(c) {
      assert w !in Waiting(s, c);
      assert w !in Waiting(s', c);
    }
    forall u ensures place != Carried(u) {
      assert u in s.threads ==> Carries(s.threads[u].doing) != Some(w);
    }
  }

  /** A sleeper called at time `b` with deadline `u` is blocked as long as the time is at most max(b, u). */
  lemma {:induction false} SleepsOn(ss: seq<State>, es: seq<Event>, i: nat, j: nat, until: int)
    requires Trace(ss, es) && i < j <= |es| && es[i] == CallSleep(until)
    ensures ss[i].now <= ss[j].now
    ensures ss[j].now <= Max(ss[i].now, until) ==>
              Sleeper(until, ss[i].nextWait, ss[i].now) in ss[j].sleeping && BlockedOn(ss[j], ss[i].cur, OfWait(ss[i].nextWait))
  {
    hide Trace, Good, Next, Enabled, BlockedOn;
    TraceStep(ss, es, j - 1);
    var x := Sleeper(until, ss[i].nextWait, ss[i].now);
    TraceGood(ss, es, j - 1);
    if j == i + 1 {
      SleepBegins(ss[i], until);
    } else {
      SleepsOn(ss, es, i, j - 1, until);
      var s, e := ss[j - 1], es[j - 1];
      EffectOk(s, e);
      if ss[j].now <= Max(ss[i].now, until) {
        SleeperStays(s, e, x);
        SleeperBlocked(s, e, x, ss[i].cur);
      }
    }
  }

  /** It sleeps until tick max(b, u) + 1, and that tick makes it ready: not earlier and not later. */
  lemma SleepExact(ss: seq<State>, es: seq<Event>, i: nat, j: nat, until: int)
    requires Trace(ss, es) && i < j <= |es| && es[i] == CallSleep(until)
    ensures var t, end := ss[i].cur, Max(ss[i].now, until);
            && (ss[j].now <= end ==> t in ss[j].threads && ss[j].threads[t].status == Blocked)
            && (ss[j].now == end + 1 && es[j - 1] == Tick ==> t in ss[j].threads && ss[j].threads[t].status != Blocked)
  {
    hide Trace, Good, Next, Enabled;
    TraceStep(ss, es, j - 1);
    var t, end := ss[i].cur, Max(ss[i].now, until);
    SleepsOn(ss, es, i, j, until);
    if ss[j].now == end + 1 && es[j - 1] == Tick {
      TraceGood(ss, es, j - 1);
      EffectOk(ss[j - 1], Tick);
      SleepsOn(ss, es, i, j - 1, until);
      NextTick(ss[j - 1]);
      TickReleases(ss[j - 1], Sleeper(until, ss[i].nextWait, ss[i].now), t);
    }
  }

  // ----- Round robin

  /** Step `e` calls `schedule`. */
  predicate Dispatches(s: State, e: Event) {
    match e
    case CallYield => true
    case CallExit => true
    case IdleBlocks => true
    case CallSleep(_) => true
    case Tick => s.slice + 1 >= TIME_SLICE
    case Go => ThreadOf(s, s.cur).doing.Down? && SemOf(s, ThreadOf(s, s.cur).doing.sem).value == 0
    case _ => false
  }

  /** The front of the ready list runs next; threads join at the back only; a time slice is four ticks. */
  ghost predicate ReadyEffect(s: State, e: Event, s': State) {
    if Dispatches(s, e) then
      (s.ready != [] ==> s'.cur == s.ready[0] && s.ready[1..] <= s'.ready) && s'.slice == 0
    else
      s'.cur == s.cur && s.ready <= s'.ready && s'.slice == s.slice + One(e == Tick)
  }

  lemma ScheduleFront(s: State, s1: State)
    requires s.ready <= s1.ready
    ensures s.ready != [] ==> Schedule(s1).cur == s.ready[0] && s.ready[1..] <= Schedule(s1).ready
    ensures Schedule(s1).slice == 0
  {
  }

  lemma SemaUpReady(s: State, id: SemId)
    ensures s.ready <= SemaUp(s, id).ready && SemaUp(s, id).cur == s.cur && SemaUp(s, id).slice == s.slice
  {
  }

  lemma UpsReady(s: State, id: SemId, next: Option<nat>)
    ensures s.ready <= Ups(s, id, next).ready && Ups(s, id, next).cur == s.cur && Ups(s, id, next).slice == s.slice
  {
    hide SemaUp;
    SemaUpReady(s, id);
  }

  lemma ReadyGo(s: State)
    requires Enabled(s, Go)
    ensures ReadyEffect(s, Go, Next(s, Go))
  {
    hide Schedule, SemaUp, Ups, SemOf;
    match ThreadOf(s, s.cur).doing {
      case Down(id, _, lock) => if SemOf(s, id).value == 0 { ScheduleFront(s, Enqueues(s, id, lock)); }
      case Up(id, next) => UpsReady(s, id, next);
      case _ =>
    }
  }

  lemma ReadyTick(s: State)
    requires Good(s)
    ensures ReadyEffect(s, Tick, Ticks(s))
  {
    hide Inv, KnownLocks, OnTime, WakeAll, Schedule;
    var s0 := s.(now := s.now + 1);
    SliceOk(s);
    NowFrame(s, s0);
    var k := WakeAllOk(s0);
    var s1 := WakeAll(s0);
    ScheduleFront(s, Yields(s1.(slice := s1.slice + 1)));
  }

  lemma ReadyCall(s: State, e: Event)
    requires !e.Go? && !e.Tick? && !e.CallYield? && !e.CallExit? && !e.IdleBlocks? && !e.CallSleep?
    ensures ReadyEffect(s, e, Next(s, e))
  {
    hide SemaUp, SemOf;
    match e {
      case CallUp(n) => SemaUpReady(s, Counting(n));
      case InterruptUp(n) => SemaUpReady(s, Counting(n));
      case _ =>
    }
  }

  lemma ReadyOk(s: State, e: Event)
    requires Good(s) && Enabled(s, e)
    ensures ReadyEffect(s, e, Next(s, e))
  {
    hide Good, Schedule, Goes, Ticks, ReadyEffect, Yields, Dies, Blocks, Sleeps;
    match e {
      case Go => ReadyGo(s);
      case Tick => ReadyTick(s);
      case CallYield => ReadyGives(s, e, Yields(s));
      case CallExit => ReadyGives(s, e, Dies(s));
      case IdleBlocks => ReadyGives(s, e, Blocks(s));
      case CallSleep(until) => ReadyGives(s, e, Sleeps(s, until));
      case _ => ReadyCall(s, e);
    }
  }

  lemma ReadyGives(s: State, e: Event, s1: State)
    requires (e == CallYield && s1 == Yields(s)) || (e == CallExit && s1 == Dies(s)) || (e == IdleBlocks && s1 == Blocks(s))
      || (e.CallSleep? && s1 == Sleeps(s, e.until))
    ensures ReadyEffect(s, e, Schedule(s1))
  {
    hide Schedule, InsertSleeper;
    ScheduleFront(s, s1);
  }

  /** The number of calls of `schedule`, and of timer ticks, in steps `i` to `j`. */
  ghost function Dispatched(ss: seq<State>, es: seq<Event>, i: nat, j: nat): nat
    requires i <= j <= |es| < |ss|
  {
    if j == i then 0 else Dispatched(ss, es, i, j - 1) + One(Dispatches(ss[j - 1], es[j - 1]))
  }

  ghost function Ticked(es: seq<Event>, i: nat, j: nat): nat
    requires i <= j <= |es|
  {
    if j == i then 0 else Ticked(es, i, j - 1) + One(es[j - 1] == Tick)
  }

  /** Until a ready thread is dispatched it moves up with every call of `schedule`, and every tick brings one nearer. */
  lemma {:induction false} MovesUp(ss: seq<State>, es: seq<Event>, i: nat, j: nat, k: nat)
    requires Trace(ss, es) && i <= j <= |es| && k < |ss[i].ready|
    requires forall m :: i < m <= j ==> ss[m].cur != ss[i].ready[k]
    ensures Dispatched(ss, es, i, j) <= k
    ensures var k' := k - Dispatched(ss, es, i, j);
            && k' < |ss[j].ready| && ss[j].ready[k'] == ss[i].ready[k]
            && ss[j].slice < TIME_SLICE
            && Ticked(es, i, j) <= 4 * (k - k') + ss[j].slice - ss[i].slice
  {
    hide Trace, Good, Next, Enabled, ReadyEffect, Dispatches;
    TraceLength(ss, es);
    TraceGood(ss, es, j);
    SliceKnown(ss[j]);
    if j > i {
      TraceStep(ss, es, j - 1);
      MovesUp(ss, es, i, j - 1, k);
      TraceGood(ss, es, j - 1);
      ReadyOk(ss[j - 1], es[j - 1]);
      OnePlace(ss[j - 1], es[j - 1], ss[j], k - Dispatched(ss, es, i, j - 1));
    }
  }

  lemma TraceLength(ss: seq<State>, es: seq<Event>)
    requires Trace(ss, es)
    ensures |ss| == |es| + 1
  {
  }

  lemma SliceKnown(s: State)
    requires Good(s)
    ensures s.slice < TIME_SLICE
  {
  }

  lemma OnePlace(s: State, e: Event, s': State, k: nat)
    requires ReadyEffect(s, e, s') && s.slice < TIME_SLICE && s'.slice < TIME_SLICE && k < |s.ready| && s'.cur != s.ready[k]
    ensures One(Dispatches(s, e)) <= k
    ensures var k' := k - One(Dispatches(s, e));
            && k' < |s'.ready| && s'.ready[k'] == s.ready[k]
            && One(e == Tick) <= 4 * One(Dispatches(s, e)) + s'.slice - s.slice
  {
    if Dispatches(s, e) && k > 0 {
      assert s.ready[1..][k - 1] == s'.ready[k - 1];
    }
  }

  /** A thread at index `k` of the ready list runs within k + 1 calls of `schedule` and 4 * (k + 1) ticks. */
  lemma BoundedWaiting(ss: seq<State>, es: seq<Event>, i: nat, j: nat, k: nat)
    requires Trace(ss, es) && i <= j <= |es| && k < |ss[i].ready|
    requires Dispatched(ss, es, i, j) >= k + 1 || Ticked(es, i, j) >= 4 * (k + 1)
    ensures exists m :: i < m <= j && ss[m].cur == ss[i].ready[k]
  {
    if forall m :: i < m <= j ==> ss[m].cur != ss[i].ready[k] {
      MovesUp(ss, es, i, j, k);
    }
  }
}
