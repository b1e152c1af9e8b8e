/**
 What the calls of synch.c and thread.c have done when they return, over all runs.
 A thread is in its own code again (`Free`) only after the steps that the call is
 for: a lock is taken, a unit is taken, a waiter was signalled, a list is empty.
 */
module KernelCalls {
  import opened Sequences
  import opened KernelModel
  import opened KernelSteps
  import opened KernelRuns
  import opened KernelTheorems

  /** Thread `t` has returned from what it called. */
  predicate Returned(s: State, t: Tid) { ThreadOf(s, t).doing == Free }

  /** Thread `t` gives lock `l` back in step `i`. */
  ghost predicate Gives(ss: seq<State>, es: seq<Event>, i: nat, l: nat, t: Tid)
    requires i < |es| < |ss|
  {
    Given(ss[i], es[i]) == Some(l) && ss[i].cur == t
  }

  // ----- Where a thread is after a step

  /** Where the running thread goes on to. */
  function DoingAfter(s: State, d: Doing): Doing {
    match d
    case Free => Free
    case Down(id, _, lock) =>
      if SemOf(s, id).value == 0 then Down(id, true, lock)
      else (match id
            case Counting(_) => Free
            case OfLock(l) => TakeLock(l)
            case OfWait(_) => if lock.Some? then Down(OfLock(lock.value), false, None) else Free)
    case TakeLock(_) => Free
    case ClearHolder(l, wait) => Up(OfLock(l), wait)
    case Up(id, next) => UpsTo(id, next)
    case Looping(c) => if Waiting(s, c) == [] then Free else Up(OfWait(Waiting(s, c)[0]), Some(c))
    case Start(_) => Free
  }

  lemma GoDoing(s: State)
    requires Good(s) && Enabled(s, Go)
    ensures s.cur in s.threads && s.cur in Goes(s).threads
    ensures Goes(s).threads[s.cur].doing == DoingAfter(s, s.threads[s.cur].doing)
  {
    hide Inv, KnownLocks, OnTime, SemOf, Ups, Waiting, UpsTo, Tests;
    IdleFree(s);
    match s.threads[s.cur].doing {
      case Down(id, _, lock) => TestDoing(s, id, lock);
      case Up(id, next) => UpsShape(s, id, next); UpsDoing(s, id, next);
      case Start(t) => StartDoing(s, t);
      case _ =>
    }
  }

  lemma TestDoing(s: State, id: SemId, lock: Option<nat>)
    requires Inv(s, true) && s.cur in s.threads && s.threads[s.cur].doing.Down?
    requires s.threads[s.cur].doing.sem == id && s.threads[s.cur].doing.lock == lock
    ensures s.cur in Tests(s, id, lock).threads
    ensures Tests(s, id, lock).threads[s.cur].doing == DoingAfter(s, s.threads[s.cur].doing)
  {
    hide Inv, SemOf, Schedule;
    if SemOf(s, id).value == 0 {
      ReadyKnown(s);
      ScheduleSwitches(Enqueues(s, id, lock));
    }
  }

  lemma UpsDoing(s: State, id: SemId, next: Option<nat>)
    requires s.cur in s.threads && Moved(s, Ups(s, id, next), UpsTo(id, next))
    ensures s.cur in Ups(s, id, next).threads && Ups(s, id, next).threads[s.cur].doing == UpsTo(id, next)
  {
    hide Ups, UpsTo;
  }

  lemma StartDoing(s: State, t: Tid)
    requires Inv(s, true) && s.cur in s.threads && s.cur != s.idle && s.threads[s.cur].doing == Start(t)
    ensures var s' := SetDoing(Unblock(s, t), Free); s.cur in s'.threads && s'.threads[s.cur].doing == Free
  {
  }

  /** A thread inside a call goes on by its own steps only. */
  lemma StepDoing(s: State, e: Event, t: Tid)
    requires Good(s) && Enabled(s, e) && t in s.threads && s.threads[t].doing != Free
    ensures t in Next(s, e).threads
    ensures Next(s, e).threads[t].doing == if e == Go && s.cur == t then DoingAfter(s, s.threads[t].doing) else s.threads[t].doing
  {
    hide Inv, OnTime, KnownLocks, KnownDoing, Goes, Ticks, SemOf, SemaUp, Take, DoingAfter;
    if s.cur != t {
      OthersStep(s, e, t);
    } else {
      BusyEvents(s, e);
      match e {
        case Go => GoDoing(s);
        case Tick => var k := TickShape(s);
        case InterruptUp(n) => RaiseShape(s, n);
        case InterruptTryDown(n) => TryShape(s, n);
      }
    }
  }

  lemma OthersStep(s: State, e: Event, t: Tid)
    requires Good(s) && Enabled(s, e) && t in s.threads && s.cur != t
    ensures t in Next(s, e).threads && Next(s, e).threads[t].doing == s.threads[t].doing
  {
    hide Good, Next, Enabled, KnownDoing;
    KnownOk(s, e);
  }

  /** What can happen while the running thread is inside a call. */
  lemma BusyEvents(s: State, e: Event)
    requires Inv(s, true) && Enabled(s, e) && s.cur in s.threads && s.threads[s.cur].doing != Free
    ensures e == Go || e == Tick || e.InterruptUp? || e.InterruptTryDown?
  {
    hide WaitInv, StartInv, WakeInv, LockInv, TicketInv, PlaceInv, SleepInv;
  }

  lemma RaiseShape(s: State, n: nat)
    requires Inv(s, true)
    ensures SameDoing(s, SemaUp(s, Counting(n)))
  {
    hide SemaUp;
    UpShape(s, Counting(n));
  }

  lemma TryShape(s: State, n: nat)
    ensures SameDoing(s, TryDowns(s, Counting(n)))
  {
  }

  /** A call begins. */
  lemma CallDoing(s: State, e: Event, d: Doing)
    requires Good(s) && Enabled(s, e)
    requires match e
             case CallDown(n) => d == Down(Counting(n), false, None)
             case CallAcquire(l) => d == Down(OfLock(l), false, None)
             case CallRelease(l) => d == ClearHolder(l, None)
             case CallWait(_, l) => d == ClearHolder(l, Some(s.nextWait))
             case CallBroadcast(c, _) => d == Looping(c)
             case CallCreate(t) => d == Start(t)
             case CallSignal(c, _) => Waiting(s, c) != [] && d == Up(OfWait(Waiting(s, c)[0]), None)
             case _ => false
    ensures s.cur in Next(s, e).threads && Next(s, e).threads[s.cur].doing == d
  {
    hide Inv, OnTime, KnownLocks, SemOf;
    AtLargeRuns(s);
  }

  /** A thread that is inside some part of a call at `i` and outside it at `j` leaves it in a step of its own. */
  lemma {:induction false} Leaves(ss: seq<State>, es: seq<Event>, i: nat, j: nat, t: Tid, inside: Doing -> bool) returns (k: nat)
    requires Trace(ss, es) && i <= j <= |es| && !inside(Free)
    requires t in ss[i].threads && inside(ss[i].threads[t].doing) && !inside(ThreadOf(ss[j], t).doing)
    ensures i <= k < j && es[k] == Go && ss[k].cur == t && t in ss[k].threads && t in ss[k + 1].threads
    ensures inside(ss[k].threads[t].doing) && !inside(ss[k + 1].threads[t].doing)
    ensures ss[k + 1].threads[t].doing == DoingAfter(ss[k], ss[k].threads[t].doing)
    decreases j
  {
    hide Good, Next, Enabled, Init, DoingAfter;
    assert i < j;
    if inside(ThreadOf(ss[j - 1], t).doing) {
      k := j - 1;
      TraceGood(ss, es, k);
      StepDoing(ss[k], es[k], t);
    } else {
      k := Leaves(ss, es, i, j - 1, t, inside);
    }
  }

  lemma Begins(ss: seq<State>, es: seq<Event>, i: nat, d: Doing)
    requires Trace(ss, es) && i < |es|
    requires match es[i]
             case CallDown(n) => d == Down(Counting(n), false, None)
             case CallAcquire(l) => d == Down(OfLock(l), false, None)
             case CallRelease(l) => d == ClearHolder(l, None)
             case CallWait(_, l) => d == ClearHolder(l, Some(ss[i].nextWait))
             case CallBroadcast(c, _) => d == Looping(c)
             case CallCreate(t) => d == Start(t)
             case CallSignal(c, _) => Waiting(ss[i], c) != [] && d == Up(OfWait(Waiting(ss[i], c)[0]), None)
             case _ => false
    ensures ss[i].cur in ss[i + 1].threads && ss[i + 1].threads[ss[i].cur].doing == d
  {
    hide Good, Next, Enabled, Init, Waiting;
    TraceGood(ss, es, i);
    CallDoing(ss[i], es[i], d);
  }

  // ----- Semaphores and locks

  /** `sema_down` returns with a unit that the thread took in between. */
  lemma DownReturns(ss: seq<State>, es: seq<Event>, i: nat, j: nat, n: nat) returns (k: nat)
    requires Trace(ss, es) && i < j <= |es| && es[i] == CallDown(n) && Returned(ss[j], ss[i].cur)
    ensures i < k < j && Lowers(ss[k], es[k], Counting(n)) && ss[k].cur == ss[i].cur
  {
    hide Good, Next, Enabled, Init;
    Begins(ss, es, i, Down(Counting(n), false, None));
    k := Leaves(ss, es, i + 1, j, ss[i].cur, (d: Doing) => d.Down? && d.sem == Counting(n));
  }

  /** From the loop test of `sema_down` for a lock on: the thread takes the lock. */
  lemma LockTaken(ss: seq<State>, es: seq<Event>, i: nat, j: nat, l: nat, t: Tid) returns (k: nat)
    requires Trace(ss, es) && i <= j <= |es| && t in ss[i].threads && ss[i].threads[t].doing == Down(OfLock(l), false, None)
    requires Returned(ss[j], t)
    ensures i <= k < j && Takes(ss, es, k, l, t)
  {
    hide Good, Next, Enabled, Init;
    k := Leaves(ss, es, i, j, t, (d: Doing) => d.Down? && d.sem == OfLock(l));
  }

  /**
   `lock_acquire` returns with the lock: in between the thread took it, while nobody
   had it, and until the thread gives it back it is the lock's holder.
   */
  lemma AcquireReturns(ss: seq<State>, es: seq<Event>, i: nat, j: nat, l: nat) returns (k: nat)
    requires Trace(ss, es) && i < j <= |es| && es[i] == CallAcquire(l) && Returned(ss[j], ss[i].cur)
    ensures i < k < j && Takes(ss, es, k, l, ss[i].cur) && forall u :: !Has(ss, es, k, l, u)
    ensures (forall m :: k < m < j ==> !Gives(ss, es, m, l, ss[i].cur)) ==> Holder(ss[j], l) == Some(ss[i].cur)
  {
    hide Good, Next, Enabled, Init, Takes, Gives, Has;
    var t := ss[i].cur;
    Begins(ss, es, i, Down(OfLock(l), false, None));
    k := LockTaken(ss, es, i + 1, j, l, t);
    NobodyHas(ss, es, k, l, t);
    if forall m :: k < m < j ==> !Gives(ss, es, m, l, t) {
      KeepsLock(ss, es, k, j, l, t);
      FreeHolder(ss, es, j, l, t);
    }
  }

  lemma NobodyHas(ss: seq<State>, es: seq<Event>, k: nat, l: nat, t: Tid)
    requires Trace(ss, es) && k < |es| && Takes(ss, es, k, l, t)
    ensures forall u :: !Has(ss, es, k, l, u)
  {
    hide Good, Next, Init, Enabled, Has;
    TraceGood(ss, es, k);
    TakenFree(ss[k], es[k], l);
    forall u ensures !Has(ss, es, k, l, u) { OwnerHas(ss, es, k, l, u); }
  }

  /** Nobody but the thread that has a lock can give it back. */
  lemma {:induction false} KeepsLock(ss: seq<State>, es: seq<Event>, k: nat, n: nat, l: nat, t: Tid)
    requires Trace(ss, es) && k < n <= |es| && Takes(ss, es, k, l, t)
    requires forall m :: k < m < n ==> !Gives(ss, es, m, l, t)
    ensures Has(ss, es, n, l, t)
    decreases n
  {
    hide Good, Next, Enabled, Init, Takes, Has, Given, Owns;
    HasStep(ss, es, n, l, t);
    if n > k + 1 {
      KeepsLock(ss, es, k, n - 1, l, t);
      assert !Gives(ss, es, n - 1, l, t);
      if Given(ss[n - 1], es[n - 1]) == Some(l) {
        TraceGood(ss, es, n - 1);
        GivenOwned(ss[n - 1], es[n - 1], l);
        OwnerHas(ss, es, n - 1, l, ss[n - 1].cur);
        MutualExclusion(ss, es, n - 1, l, ss[n - 1].cur, t);
        assert false;
      }
    }
  }

  lemma FreeHolder(ss: seq<State>, es: seq<Event>, n: nat, l: nat, t: Tid)
    requires Trace(ss, es) && n <= |es| && Has(ss, es, n, l, t) && Returned(ss[n], t)
    ensures Holder(ss[n], l) == Some(t)
  {
    HolderIsOwner(ss, es, n, l, t);
  }

  /** `lock_release` returns without the lock. */
  lemma ReleaseReturns(ss: seq<State>, es: seq<Event>, i: nat, j: nat, l: nat) returns (k: nat)
    requires Trace(ss, es) && i < j <= |es| && es[i] == CallRelease(l) && Returned(ss[j], ss[i].cur)
    ensures i < k < j && Gives(ss, es, k, l, ss[i].cur) && Holder(ss[k + 1], l) == None && SemOf(ss[k + 1], OfLock(l)).value == 1
  {
    hide Good, Next, Enabled, Init;
    Begins(ss, es, i, ClearHolder(l, None));
    k := Leaves(ss, es, i + 1, j, ss[i].cur, (d: Doing) => d == ClearHolder(l, None) || d == Up(OfLock(l), None));
    GivenFree(ss, es, k, l);
  }

  lemma GivenFree(ss: seq<State>, es: seq<Event>, k: nat, l: nat)
    requires Trace(ss, es) && k < |es| && Gives(ss, es, k, l, ss[k].cur)
    ensures Holder(ss[k + 1], l) == None && SemOf(ss[k + 1], OfLock(l)).value == 1
  {
    hide Next, Enabled, Init, SemOf, Good;
    TraceGood(ss, es, k);
    TraceGood(ss, es, k + 1);
    GivenOwned(ss[k], es[k], l);
    OwnedLock(ss[k], l);
    EffectOk(ss[k], es[k]);
    UnownedLock(ss[k + 1], l);
  }

  lemma OwnedLock(s: State, l: nat)
    requires Good(s) && Owns(s, s.cur, l)
    ensures l in s.locks
  {
    assert LockOk(s, l);
  }

  lemma UnownedLock(s: State, l: nat)
    requires Good(s) && l in s.locks && l !in s.owners
    ensures Holder(s, l) == None && SemOf(s, OfLock(l)).value == 1
  {
    assert LockOk(s, l);
  }

  // ----- Condition variables

  /**
   `cond_wait` returns only after the thread gave the lock back, was signalled, and
   took the lock again, in this order; it has the lock when it returns.
   */
  lemma WaitReturns(ss: seq<State>, es: seq<Event>, i: nat, j: nat, c: nat, l: nat) returns (g: nat, n: nat, k: nat)
    requires Trace(ss, es) && i < j <= |es| && es[i] == CallWait(c, l) && Returned(ss[j], ss[i].cur)
    ensures i < g < k < j && i < n < k && Gives(ss, es, g, l, ss[i].cur)
    ensures SignalAt(ss, es, n, c, ss[i].nextWait) && Takes(ss, es, k, l, ss[i].cur)
    ensures (forall m :: k < m < j ==> !Gives(ss, es, m, l, ss[i].cur)) ==> Holder(ss[j], l) == Some(ss[i].cur)
  {
    hide Good, Next, Enabled, Init, SignalAt, Takes, Has;
    var t, w := ss[i].cur, ss[i].nextWait;
    Begins(ss, es, i, ClearHolder(l, Some(w)));
    g := Leaves(ss, es, i + 1, j, t, (d: Doing) => d == ClearHolder(l, Some(w)) || d == Up(OfLock(l), Some(w)));
    var p := Leaves(ss, es, g + 1, j, t, (d: Doing) => d.Down? && d.sem == OfWait(w) && d.lock == Some(l));
    n := WasSignalled(ss, es, i, c, p);
    k := LockTaken(ss, es, p + 1, j, l, t);
    if forall m :: k < m < j ==> !Gives(ss, es, m, l, t) {
      KeepsLock(ss, es, k, j, l, t);
      FreeHolder(ss, es, j, l, t);
    }
  }

  lemma WasSignalled(ss: seq<State>, es: seq<Event>, i: nat, c: nat, p: nat) returns (n: nat)
    requires Trace(ss, es) && i < p <= |es| && es[i].CallWait? && es[i].c == c
    requires SemOf(ss[p], OfWait(ss[i].nextWait)).value > 0
    ensures i < n < p && SignalAt(ss, es, n, c, ss[i].nextWait)
  {
    hide Good, Next, Enabled, Init, SignalAt, SemOf, Waiting;
    var w := ss[i].nextWait;
    ListedUntilSignalled(ss, es, i, c, p);
    if w in Waiting(ss[p], c) { NoSpuriousWakeup(ss, es, p, c, w); }
    n :| i < n < p && SignalAt(ss, es, n, c, w);
  }

  /** A thread that signals a waiter, in `cond_signal` or `cond_broadcast`, raises its semaphore before it does anything else. */
  lemma SignalReturns(ss: seq<State>, es: seq<Event>, i: nat, j: nat, c: nat, w: nat) returns (k: nat)
    requires Trace(ss, es) && i < j <= |es| && SignalAt(ss, es, i, c, w) && Returned(ss[j], ss[i].cur)
    ensures i < k < j && Raises(ss[k], es[k], OfWait(w)) && ss[k].cur == ss[i].cur
  {
    hide Good, Next, Enabled, Init, Waiting, SignalAt, Raises;
    SignalBegins(ss, es, i, c, w);
    k := Leaves(ss, es, i + 1, j, ss[i].cur, (d: Doing) => d.Up? && d.sem == OfWait(w));
    RaisesHere(ss[k], OfWait(w));
  }

  lemma RaisesHere(s: State, id: SemId)
    requires ThreadOf(s, s.cur).doing.Up? && ThreadOf(s, s.cur).doing.sem == id
    ensures Raises(s, Go, id)
  {
  }

  lemma SignalBegins(ss: seq<State>, es: seq<Event>, i: nat, c: nat, w: nat)
    requires Trace(ss, es) && i < |es| && SignalAt(ss, es, i, c, w)
    ensures var t := ss[i].cur; t in ss[i + 1].threads && ss[i + 1].threads[t].doing.Up? && ss[i + 1].threads[t].doing.sem == OfWait(w)
  {
    hide Good, Next, Enabled, Init, Waiting;
    TraceGood(ss, es, i);
    if es[i].CallSignal? {
      Begins(ss, es, i, Up(OfWait(w), None));
    } else {
      GoDoing(ss[i]);
      NextGo(ss[i]);
    }
  }

  lemma NextGo(s: State)
    ensures Next(s, Go) == Goes(s)
  {
  }

  /** `cond_broadcast` returns when it has found the list empty: everyone who waited when it was called has been signalled. */
  lemma BroadcastReturns(ss: seq<State>, es: seq<Event>, i: nat, j: nat, c: nat, l: nat) returns (k: nat)
    requires Trace(ss, es) && i < j <= |es| && es[i] == CallBroadcast(c, l) && Returned(ss[j], ss[i].cur)
    ensures i < k < j && Waiting(ss[k], c) == []
    ensures forall w :: w in Waiting(ss[i], c) ==> exists n :: i < n < k && SignalAt(ss, es, n, c, w)
  {
    hide Good, Next, Enabled, Init, Waiting, SignalAt;
    Begins(ss, es, i, Looping(c));
    k := Leaves(ss, es, i + 1, j, ss[i].cur, (d: Doing) => d == Looping(c) || (d.Up? && d.sem.OfWait? && d.next == Some(c)));
    forall w | w in Waiting(ss[i], c) ensures exists n :: i < n < k && SignalAt(ss, es, n, c, w) {
      var n := OffTheList(ss, es, i, c, w, k);
      NoSignal(ss, es, i, c, w);
    }
  }

  lemma NoSignal(ss: seq<State>, es: seq<Event>, i: nat, c: nat, w: nat)
    requires i < |es| < |ss| && es[i].CallBroadcast?
    ensures !SignalAt(ss, es, i, c, w)
  {
  }

  /** What is off a condition's list has been signalled. */
  lemma {:induction false} OffTheList(ss: seq<State>, es: seq<Event>, i: nat, c: nat, w: nat, n: nat) returns (k: nat)
    requires Trace(ss, es) && i <= n <= |es| && w in Waiting(ss[i], c) && w !in Waiting(ss[n], c)
    ensures i <= k < n && SignalAt(ss, es, k, c, w)
    decreases n
  {
    hide Good, Next, Enabled, Init, Waiting, WaitingAfter, SignalAt;
    TraceCond(ss, es, n - 1);
    if w in Waiting(ss[n - 1], c) {
      k := n - 1;
      Unlists(ss, es, k, c, w);
    } else {
      k := OffTheList(ss, es, i, c, w, n - 1);
    }
  }

  // ----- Threads

  /** `thread_create` returns when the new thread, blocked until then, is the last on the ready list. */
  lemma CreateReturns(ss: seq<State>, es: seq<Event>, i: nat, j: nat, u: Tid) returns (k: nat)
    requires Trace(ss, es) && i < j <= |es| && es[i] == CallCreate(u) && Returned(ss[j], ss[i].cur)
    ensures i < k < j && u in ss[k].threads && ss[k].threads[u] == Thread(Blocked, Free)
    ensures u in ss[k + 1].threads && ss[k + 1].threads[u] == Thread(Ready, Free) && ss[k + 1].ready == ss[k].ready + [u]
  {
    hide Good, Next, Enabled, Init;
    Begins(ss, es, i, Start(u));
    k := Leaves(ss, es, i + 1, j, ss[i].cur, (d: Doing) => d == Start(u));
    TraceGood(ss, es, k);
    NextGo(ss[k]);
    StartReadies(ss[k], u);
  }

  lemma StartReadies(s: State, u: Tid)
    requires Good(s) && s.cur in s.threads && s.threads[s.cur].doing == Start(u)
    ensures u in s.threads && s.threads[u] == Thread(Blocked, Free)
    ensures var s' := Goes(s); u in s'.threads && s'.threads[u] == Thread(Ready, Free) && s'.ready == s.ready + [u]
  {
    hide WaitInv, WakeInv, LockInv, TicketInv, PlaceInv, SleepInv;
    IdleFree(s);
    Started(s, u);
  }

  // ----- Progress

  /** How many steps of its own a thread is away from its return, if it need not wait and the condition's list does not grow. */
  function Left(s: State, d: Doing): nat {
    match d
    case Free => 0
    case TakeLock(_) => 1
    case Start(_) => 1
    case Down(Counting(_), _, _) => 1
    case Down(OfLock(_), _, _) => 2
    case Down(OfWait(_), _, lock) => if lock.Some? then 3 else 1
    case Up(OfLock(_), next) => if next.Some? then 4 else 1
    case Up(OfWait(_), next) => if next.Some? then 2 * |Waiting(s, next.value)| + 2 else 1
    case Up(Counting(_), _) => 1
    case ClearHolder(_, wait) => if wait.Some? then 5 else 2
    case Looping(c) => 2 * |Waiting(s, c)| + 1
  }

  /** A thread that goes on inside a call comes nearer to its return, or blocks on a semaphore that is zero. */
  lemma Progress(ss: seq<State>, es: seq<Event>, i: nat)
    requires Trace(ss, es) && i < |es| && es[i] == Go
    ensures var t := ss[i].cur;
            && t in ss[i].threads && t in ss[i + 1].threads
            && var d, d' := ss[i].threads[t].doing, ss[i + 1].threads[t].doing;
               if d.Down? && SemOf(ss[i], d.sem).value == 0 then BlockedOn(ss[i + 1], t, d.sem)
               else Left(ss[i + 1], d') < Left(ss[i], d)
  {
    hide Good, Next, Enabled, Init, SemOf, Waiting, BlockedOn, Left;
    TraceGood(ss, es, i);
    NextGo(ss[i]);
    GoDoing(ss[i]);
    TraceCond(ss, es, i);
    var t := ss[i].cur;
    var d := ss[i].threads[t].doing;
    GoBusy(ss[i]);
    if d.Down? && SemOf(ss[i], d.sem).value == 0 {
      ZeroBlocks(ss[i]);
    } else {
      Nearer(ss[i], ss[i + 1], d);
    }
  }

  lemma GoBusy(s: State)
    requires Enabled(s, Go) && s.cur in s.threads
    ensures s.threads[s.cur].doing != Free
  {
  }

  lemma ZeroBlocks(s: State)
    requires Good(s) && s.cur in s.threads && s.threads[s.cur].doing.Down? && SemOf(s, s.threads[s.cur].doing.sem).value == 0
    ensures BlockedOn(Goes(s), s.cur, s.threads[s.cur].doing.sem)
  {
    hide WaitInv, StartInv, WakeInv, LockInv, TicketInv, PlaceInv, SleepInv;
    Head(s.ready);
  }

  lemma Nearer(s: State, s': State, d: Doing)
    requires s.cur in s.threads && d == s.threads[s.cur].doing && d != Free
    requires d.Down? ==> SemOf(s, d.sem).value > 0
    requires forall c :: Waiting(s', c) == WaitingAfter(s, Go, c)
    ensures Left(s', DoingAfter(s, d)) < Left(s, d)
  {
    hide SemOf, Waiting;
  }

  // ----- Exit

  /** The thread has ended. */
  predicate Dead(s: State, t: Tid) { t in s.threads && s.threads[t] == Thread(Dying, Free) && t != s.idle }

  /** A thread that has called `thread_exit` never runs again. */
  lemma {:induction false} DeadForever(ss: seq<State>, es: seq<Event>, i: nat, j: nat)
    requires Trace(ss, es) && i < j <= |es| && es[i] == CallExit
    ensures Dead(ss[j], ss[i].cur) && ss[j].cur != ss[i].cur
    decreases j
  {
    hide Inv, OnTime, KnownLocks, Next, Enabled, Init, Dead;
    TraceGood(ss, es, j - 1);
    TraceGood(ss, es, j);
    if j == i + 1 {
      Exits(ss[i]);
    } else {
      DeadForever(ss, es, i, j - 1);
      DeadStays(ss[j - 1], es[j - 1], ss[i].cur);
    }
    DeadAwake(ss[j], ss[i].cur);
  }

  lemma Exits(s: State)
    requires Good(s) && Enabled(s, CallExit)
    ensures Dead(Next(s, CallExit), s.cur)
  {
    hide WaitInv, StartInv, WakeInv, LockInv, TicketInv, PlaceInv, SleepInv;
    Head(s.ready);
  }

  /** A thread that is neither running, nor on a list, nor about to be started, stays as it is. */
  lemma DeadStays(s: State, e: Event, t: Tid)
    requires Good(s) && Enabled(s, e) && Dead(s, t)
    ensures Dead(Next(s, e), t)
  {
    hide Inv, OnTime, KnownLocks, Goes, Ticks, Schedule, SemaUp, Yields, Dies, Blocks, Sleeps, Creates, Passes, SemOf, Enabled, Signals, CondWaits;
    DeadAwake(s, t);
    match e {
      case Go => DeadGo(s, t);
      case Tick => DeadTick(s, t);
      case CallYield => DeadSchedule(s, Yields(s), t);
      case CallExit => DeadSchedule(s, Dies(s), t);
      case IdleBlocks => DeadSchedule(s, Blocks(s), t);
      case CallSleep(until) => DeadSleep(s, until, t);
      case CallUp(n) => DeadUp(s, n, t);
      case InterruptUp(n) => DeadUp(s, n, t);
      case CallCreate(u) => DeadCreate(s, u, t);
      case CallTryAcquire(l) => DeadTry(s, l, t);
      case CallWait(c, l) => DeadWait(s, c, l, t);
      case CallSignal(c, _) => DeadSignal(s, c, None, t);
      case _ =>
    }
  }

  lemma DeadCreate(s: State, u: Tid, t: Tid)
    requires Dead(s, t) && s.cur != t && Enabled(s, CallCreate(u))
    ensures Dead(Creates(s, u), t)
  {
  }

  lemma DeadTry(s: State, l: nat, t: Tid)
    requires Dead(s, t) && s.cur != t
    ensures Dead(Next(s, CallTryAcquire(l)), t)
  {
  }

  lemma DeadWait(s: State, c: nat, l: nat, t: Tid)
    requires Dead(s, t) && s.cur != t
    ensures Dead(CondWaits(s, c, l), t)
  {
  }

  lemma DeadSignal(s: State, c: nat, next: Option<nat>, t: Tid)
    requires Dead(s, t) && s.cur != t
    ensures Dead(Signals(s, c, next), t)
  {
  }

  lemma DeadUp(s: State, n: nat, t: Tid)
    requires Good(s) && Dead(s, t) && forall id :: !BlockedOn(s, t, id)
    ensures Dead(SemaUp(s, Counting(n)), t)
  {
    hide SemaUp, SchedInv, WaitInv, StartInv, WakeInv, LockInv, TicketInv, PlaceInv, SleepInv, BlockedOn;
    UpShape(s, Counting(n));
  }

  lemma DeadFront(s: State, t: Tid)
    requires t !in s.ready && t != s.idle && Dead(s, t)
    ensures Dead(Schedule(s), t)
  {
    Head(s.ready);
  }

  lemma DeadSchedule(s: State, s1: State, t: Tid)
    requires Dead(s, t) && t !in s.ready && s.cur != t && (s1 == Yields(s) || s1 == Dies(s) || s1 == Blocks(s))
    ensures Dead(Schedule(s1), t)
  {
    hide Schedule;
    DeadFront(s1, t);
  }

  lemma DeadSleep(s: State, until: int, t: Tid)
    requires Dead(s, t) && t !in s.ready && s.cur != t
    ensures Dead(Schedule(Sleeps(s, until)), t)
  {
    hide Schedule, InsertSleeper;
    DeadFront(Sleeps(s, until), t);
  }

  lemma DeadGo(s: State, t: Tid)
    requires Good(s) && Enabled(s, Go) && Dead(s, t) && s.cur != t && t !in s.ready && forall id :: !BlockedOn(s, t, id)
    ensures Dead(Goes(s), t)
  {
    hide Inv, KnownLocks, OnTime, SemOf, Ups, Tests, Signals, Enqueues, Schedule, Passes, Waiting, BlockedOn;
    IdleFree(s);
    match s.threads[s.cur].doing {
      case Down(id, _, lock) => DeadTest(s, id, lock, t);
      case Up(id, next) => DeadUps(s, id, next, t);
      case Looping(c) => DeadSignal(s, c, Some(c), t);
      case Start(u) => DeadStart(s, u, t);
      case _ =>
    }
  }

  lemma DeadStart(s: State, u: Tid, t: Tid)
    requires Good(s) && Dead(s, t) && s.cur != t && s.cur in s.threads && s.threads[s.cur].doing == Start(u)
    ensures Dead(SetDoing(Unblock(s, u), Free), t)
  {
    hide WaitInv, WakeInv, LockInv, TicketInv, PlaceInv, SleepInv;
    IdleFree(s);
    Started(s, u);
  }

  lemma DeadUps(s: State, id: SemId, next: Option<nat>, t: Tid)
    requires Inv(s, true) && s.cur in s.threads && s.cur != s.idle && s.threads[s.cur].doing == Up(id, next)
    requires Dead(s, t) && s.cur != t && forall id :: !BlockedOn(s, t, id)
    ensures Dead(Ups(s, id, next), t)
  {
    hide Inv, Ups, SemOf, BlockedOn;
    UpsShape(s, id, next);
  }

  lemma DeadTest(s: State, id: SemId, lock: Option<nat>, t: Tid)
    requires Dead(s, t) && s.cur != t && t !in s.ready
    ensures Dead(Tests(s, id, lock), t)
  {
    hide Schedule;
    if SemOf(s, id).value == 0 {
      DeadFront(Enqueues(s, id, lock), t);
    }
  }

  lemma DeadTick(s: State, t: Tid)
    requires Good(s) && Dead(s, t)
    ensures Dead(Ticks(s), t)
  {
    hide Inv, WakeAll, Schedule, Yields;
    var s0 := s.(now := s.now + 1);
    SliceOk(s);
    NowFrame(s, s0);
    DeadWakes(s0, t);
    var s1 := WakeAll(s0);
    DeadAwake(s1, t);
    if s1.slice + 1 >= TIME_SLICE {
      DeadSchedule(s1.(slice := s1.slice + 1), Yields(s1.(slice := s1.slice + 1)), t);
    }
  }

  lemma DeadAwake(s: State, t: Tid)
    requires Inv(s, true) && Dead(s, t)
    ensures s.cur != t && t !in s.ready && forall id :: !BlockedOn(s, t, id)
  {
    hide WaitInv, StartInv, WakeInv, LockInv, TicketInv, PlaceInv, SleepInv;
  }

  lemma {:induction false} DeadWakes(s: State, t: Tid)
    requires Inv(s, true) && Dead(s, t)
    ensures Inv(WakeAll(s), true) && Dead(WakeAll(s), t)
    decreases |s.sleeping|
  {
    hide Inv, WakeFirst, BlockedOn;
    if s.sleeping != [] && s.sleeping[0].wakeup < s.now {
      WakeFirstOk(s);
      WakeFirstShape(s);
      DeadAwake(s, t);
      OwnerBlocked(s);
      DeadWakes(WakeFirst(s), t);
    }
  }

  lemma OwnerBlocked(s: State)
    requires Inv(s, true) && s.sleeping != []
    ensures var w := s.sleeping[0].w; AsleepTicket(s, w) && BlockedOn(s, s.tickets[w].owner, OfWait(w))
  {
    hide SchedInv, StartInv, WakeInv, LockInv, PlaceInv, BlockedOn;
    FirstSleeper(s);
  }
}
