/** The variables of thread.c and synch.c, updated in place by the bodies that run with interrupts off. */
module ThreadSystem {
  import opened Sequences
  import opened KernelModel
  import opened KernelSteps
  import opened KernelRuns

  class Threads {
    var threads: map<Tid, Thread>
    var cur: Tid
    var idle: Tid
    var ready: seq<Tid>
    var semas: map<SemId, Sema>
    var holders: map<nat, Tid>
    var conds: map<nat, seq<nat>>
    var sleeping: seq<Sleeper>
    var now: nat
    var slice: nat
    var nextWait: nat
    ghost var tickets: map<nat, Ticket>
    ghost var locks: set<nat>
    ghost var owners: map<nat, Tid>

    ghost function Here(): State
      reads this
    {
      State(threads, cur, idle, ready, semas, holders, conds, sleeping, now, slice, nextWait, tickets, locks, owners)
    }

    ghost predicate Valid()
      reads this
    {
      Good(Here())
    }

    /** The end of `thread_start`. */
    constructor (main: Tid, idle: Tid, semas: map<SemId, Sema>, ghost locks: set<nat>)
      requires main != idle
      requires forall id :: id in semas ==> semas[id].waiters == []
      requires forall l :: l in locks ==> OfLock(l) in semas && semas[OfLock(l)].value == 1
      ensures Valid() && Init(Here()) && cur == main && this.idle == idle && this.semas == semas && this.locks == locks
    {
      threads := map[main := Thread(Running, Free), idle := Thread(Blocked, Free)];
      cur, this.idle, ready, slice, now := main, idle, [], 0, 0;
      this.semas, holders, conds, sleeping, nextWait := semas, map[], map[], [], 0;
      tickets, this.locks, owners := map[], locks, map[];
      new;
      InitGood(Here());
    }

    // ----- thread.c

    /** `schedule`, with `next_thread_to_run` and `thread_schedule_tail`. */
    method Schedule()
      requires Inv(Here(), false)
      modifies this
      ensures Inv(Here(), true) && Dispatched(old(ready), Here()) && idle == old(idle)
      ensures forall t :: t in old(threads) && t != cur ==> t in threads && threads[t] == old(threads[t])
      ensures Here() == KernelModel.Schedule(old(Here()))
    {
      hide Inv, Dispatched;
      Dispatches(Here());
      ScheduleOk(Here());
      var next := idle;
      if ready != [] {
        next := ready[0];
        ready := ready[1..];
      }
      cur := next;
      threads := threads[next := threads[next].(status := Running)];
      slice := 0;
    }

    /** `thread_unblock`, at its assertion. */
    method Unblock(t: Tid)
      requires SchedInv(Here(), true) && t in threads && threads[t].status == Blocked && t != idle
      modifies this
      ensures SchedInv(Here(), true) && t !in old(ready) && ready == old(ready) + [t] && threads[t].status == Ready && cur == old(cur)
      ensures threads.Keys == old(threads.Keys) && forall u :: u in threads && u != t ==> threads[u] == old(threads[u])
      ensures Here() == KernelModel.Unblock(old(Here()), t)
    {
      hide SchedInv;
      UnblockOk(Here(), t);
      ready := ready + [t];
      threads := threads[t := threads[t].(status := Ready)];
    }

    /** `thread_yield`. */
    method Yield()
      requires Valid() && AtLarge(Here())
      modifies this
      ensures Valid() && Dispatched(old(ready) + [old(cur)], Here())
      ensures Here() == Next(old(Here()), CallYield)
    {
      hide Good, Inv, KernelModel.Schedule, Dispatched;
      YieldKept(Here());
      if cur != idle {
        ready := ready + [cur];
      }
      threads := threads[cur := threads[cur].(status := Ready)];
      assert Here() == Yields(old(Here()));
      Schedule();
    }

    /** `thread_exit`. */
    method Exit()
      requires Valid() && AtLarge(Here())
      modifies this
      ensures Valid() && Dispatched(old(ready), Here())
      ensures OnNoList(Here(), old(cur)) && old(cur) in threads && threads[old(cur)] == Thread(Dying, Free)
      ensures Here() == Next(old(Here()), CallExit)
    {
      hide Good, Inv, KernelModel.Schedule, Dispatched, OnNoList;
      ExitKept(Here());
      threads := threads[cur := threads[cur].(status := Dying)];
      assert Here() == Dies(old(Here()));
      Schedule();
    }

    /** The interrupt handler's call of `thread_yield`. */
    method YieldOnReturn()
      requires Inv(Here().(slice := 0), true)
      modifies this
      ensures Inv(Here(), true) && Dispatched(if old(cur) == idle then old(ready) else old(ready) + [old(cur)], Here())
      ensures Here() == KernelModel.Schedule(Yields(old(Here())))
    {
      hide Inv, KernelModel.Schedule, Dispatched;
      ReturnYields(Here());
      if cur != idle {
        ready := ready + [cur];
      }
      threads := threads[cur := threads[cur].(status := Ready)];
      assert ready == if old(cur) == idle then old(ready) else old(ready) + [old(cur)];
      Schedule();
    }

    /** The wake-up of the first sleeper. */
    method WakeOne()
      requires Inv(Here(), true) && sleeping != []
      modifies this
      ensures Here() == WakeFirst(old(Here()))
    {
      hide Inv, Core, KernelModel.SemaUp, KernelModel.SemOf;
      QueueMoves(Here());
      var first := sleeping[0];
      sleeping := sleeping[1..];
      SemaUp(OfWait(first.w));
      tickets := Post(Here(), first.w).tickets;
    }

    /** `thread_tick`, called at each timer interrupt, and the yield on return that it may ask for. */
    method ThreadTick()
      requires Valid()
      modifies this
      ensures Valid() && Here() == Ticks(old(Here()))
    {
      hide Inv, OnTime, KnownLocks, Next, WakeAll, WakeFirst, KernelModel.Schedule, KernelModel.SemaUp, Yields;
      NextGood(Here(), Tick);
      NextTick(Here());
      now := now + 1;
      ghost var start := Here();
      ClockMoves(old(Here()), start);
      while sleeping != [] && sleeping[0].wakeup < now
        invariant Inv(Here(), true) && WakeAll(Here()) == WakeAll(start)
        decreases |sleeping|
      {
        WakesFirst(Here());
        WakeOne();
      }
      WakeEnds(Here());
      slice := slice + 1;
      if slice >= TIME_SLICE {
        SliceEnds(WakeAll(start), slice);
        YieldOnReturn();
      }
    }

    /** The loop of `thread_sleep`: the place in the queue is sought from the back. */
    method PlaceFor(until: int) returns (k: nat)
      ensures k <= |sleeping| && (k == 0 || sleeping[k - 1].wakeup <= until)
      ensures forall i :: k <= i < |sleeping| ==> sleeping[i].wakeup > until
    {
      k := |sleeping|;
      while k > 0 && sleeping[k - 1].wakeup > until
        invariant k <= |sleeping|
        invariant forall i :: k <= i < |sleeping| ==> sleeping[i].wakeup > until
      {
        k := k - 1;
      }
    }

    /** `thread_sleep`. */
    method ThreadSleep(until: int)
      requires Valid() && AtLarge(Here())
      modifies this
      ensures Valid() && Dispatched(old(ready), Here())
      ensures BlockedOn(Here(), old(cur), OfWait(old(nextWait))) && SemOf(Here(), OfWait(old(nextWait))) == Sema(0, [old(cur)])
      ensures Here() == Next(old(Here()), CallSleep(until))
    {
      hide Good, Inv, KernelModel.Schedule, InsertSleeper, Sleeps, Enqueues, WithSleeper, Dispatched, BlockedOn, KernelModel.SemOf;
      SleepKept(Here(), until);
      var sema := NewSleeper(until);
      SleepsMeans(old(Here()), until);
      Enqueue(sema, None);
      Schedule();
    }

    /** The entry on the stack of `thread_sleep` and its place in the queue. */
    method NewSleeper(until: int) returns (sema: SemId)
      modifies this
      ensures sema == OfWait(old(nextWait))
      ensures ready == old(ready) && Here() == WithSleeper(old(Here()), until)
    {
      hide InsertSleeper;
      var k := PlaceFor(until);
      var e := Sleeper(until, nextWait, now);
      InsertsAt(sleeping, e, k);
      sema := OfWait(nextWait);
      sleeping := sleeping[..k] + [e] + sleeping[k..];
      semas := semas[sema := Sema(0, [])];
      tickets := tickets[nextWait := Ticket(cur, Asleep)];
      nextWait := nextWait + 1;
    }

    // ----- synch.c

    function Value(id: SemId): (q: Sema)
      reads this
      ensures q == SemOf(Here(), id)
    {
      if id in semas then semas[id] else Sema(0, [])
    }

    function Waiters(c: nat): (q: seq<nat>)
      reads this
      ensures q == Waiting(Here(), c)
    {
      if c in conds then conds[c] else []
    }

    /** `sema_up`: no list but two changes, and no thread but the one that is woken. */
    method SemaUp(id: SemId)
      requires Core(Here(), true)
      modifies this
      ensures Core(Here(), true) && Raised(old(Here()), Here(), id) && cur == old(cur) && cur in threads
      ensures Here() == KernelModel.SemaUp(old(Here()), id)
    {
      hide Core, Raised;
      UpCore(Here(), id);
      UpRaises(Here(), id);
      UpWakes(Here(), id);
      var q := Value(id);
      if q.waiters != [] {
        Unblock(q.waiters[0]);
      }
      semas := semas[id := Sema(q.value + 1, if q.waiters == [] then [] else q.waiters[1..])];
    }

    /** The running thread goes on to `d`. */
    method GoTo(d: Doing)
      requires cur in threads
      modifies this
      ensures Here() == SetDoing(old(Here()), d)
    {
      threads := threads[cur := threads[cur].(doing := d)];
    }

    /** The body of the loop of `sema_down` up to `schedule`. */
    method Enqueue(id: SemId, lock: Option<nat>)
      requires cur in threads
      modifies this
      ensures ready == old(ready) && Here() == Enqueues(old(Here()), id, lock)
    {
      semas := semas[id := Sema(Value(id).value, Value(id).waiters + [cur])];
      threads := threads[cur := threads[cur].(status := Blocked)];
      GoTo(Down(id, true, lock));
    }

    /** `sema_down` from one loop test to the next, or to its end and the caller's next line. */
    method SemaDown(id: SemId, lock: Option<nat>)
      requires Valid() && InDown(Here(), id, lock)
      modifies this
      ensures Valid()
      ensures Lowered(old(Here()), Here(), id) && (SemOf(old(Here()), id).value == 0 ==> Dispatched(old(ready), Here()))
      ensures Here() == Tests(old(Here()), id, lock)
    {
      hide Good, Inv, KernelModel.Schedule, Enqueues, Passes, Dispatched, Lowered, KernelModel.SemOf;
      TestHere(Here(), id, lock);
      if Value(id).value == 0 {
        Enqueue(id, lock);
        Schedule();
      } else {
        Pass(id, lock);
      }
    }

    /** The end of `sema_down` and the caller's next line. */
    method Pass(id: SemId, lock: Option<nat>)
      requires cur in threads && SemOf(Here(), id).value > 0
      modifies this
      ensures Here() == Passes(old(Here()), id, lock)
    {
      semas := semas[id := Sema(Value(id).value - 1, Value(id).waiters)];
      match id {
        case Counting(_) =>
          GoTo(Free);
        case OfLock(l) =>
          owners := owners[l := cur];
          GoTo(TakeLock(l));
        case OfWait(w) =>
          tickets := tickets - {w};
          GoTo(if lock.Some? then Down(OfLock(lock.value), false, None) else Free);
      }
    }

    /** `sema_try_down`. */
    method SemaTryDown(n: nat) returns (success: bool)
      modifies this
      ensures success == (SemOf(old(Here()), Counting(n)).value > 0)
      ensures Here() == TryDowns(old(Here()), Counting(n))
    {
      success := Value(Counting(n)).value > 0;
      if success {
        semas := semas[Counting(n) := Sema(Value(Counting(n)).value - 1, Value(Counting(n)).waiters)];
      }
    }

    /** `lock_try_acquire` up to `lock->holder = thread_current ()`. */
    method LockTryAcquire(l: nat) returns (success: bool)
      requires cur in threads
      modifies this
      ensures success == (SemOf(old(Here()), OfLock(l)).value > 0)
      ensures Here() == Next(old(Here()), CallTryAcquire(l))
    {
      success := Value(OfLock(l)).value > 0;
      if success {
        semas := semas[OfLock(l) := Sema(Value(OfLock(l)).value - 1, Value(OfLock(l)).waiters)];
        owners := owners[l := cur];
        GoTo(TakeLock(l));
      }
    }

    /** The `sema_up` of `lock_release` and `cond_signal`, and the caller's next line. */
    method UpAndGo(id: SemId, next: Option<nat>)
      requires Valid() && cur in threads && threads[cur].doing == Up(id, next)
      modifies this
      ensures Valid() && Raised(old(Here()), Here(), id)
      ensures id.OfLock? ==> Value(id).value == 1 && id.l !in owners && id.l !in holders && Owns(old(Here()), old(cur), id.l)
      ensures id.OfWait? ==> Value(id).value == 1 && id.w in tickets && tickets[id.w].place == Posted
      ensures Here() == Ups(old(Here()), id, next)
    {
      hide Good, KernelModel.SemaUp, Core, Raised, KernelModel.SemOf, Owns, Ups;
      UpGood(Here(), id, next);
      UpGives(Here(), id, next);
      SemaUp(id);
      UpsGoes(old(Here()), id, next);
      AfterUp(id, next);
    }

    /** What follows `sema_up` in its caller. */
    method AfterUp(id: SemId, next: Option<nat>)
      requires cur in threads
      modifies this
      ensures Here() == GoesUp(old(Here()), id, next)
    {
      match id {
        case Counting(_) =>
          GoTo(Free);
        case OfLock(l) =>
          owners := owners - {l};
          GoTo(if next.Some? then Down(OfWait(next.value), false, Some(l)) else Free);
        case OfWait(w) =>
          tickets := Post(Here(), w).tickets;
          GoTo(if next.Some? then Looping(next.value) else Free);
      }
    }

    /** `cond_wait` up to `lock_release`. */
    method CondWait(c: nat, l: nat)
      requires Valid() && AtLarge(Here()) && Holder(Here(), l) == Some(cur)
      modifies this
      ensures Valid() && Owns(Here(), cur, l)
      ensures Joined(old(Here()), Here(), c) && OnlyMoved(old(Here()), Here(), ClearHolder(l, Some(old(nextWait))))
      ensures Here() == CondWaits(old(Here()), c, l)
    {
      hide Good, Owns, Joined, OnlyMoved, KernelModel.SemOf, AtLarge, Holder;
      WaitLists(Here(), c, l);
      var w := nextWait;
      semas := semas[OfWait(w) := Sema(0, [])];
      conds := conds[c := Waiters(c) + [w]];
      nextWait := w + 1;
      tickets := tickets[w := Ticket(cur, Listed(c))];
      GoTo(ClearHolder(l, Some(w)));
      assert Here() == CondWaits(old(Here()), c, l);
    }

    /** `cond_signal`, or one round of `cond_broadcast`, up to `sema_up`. */
    method CondSignal(c: nat, next: Option<nat>)
      requires Valid() && cur in threads && cur != idle && (threads[cur].doing == Free || threads[cur].doing.Looping?)
      modifies this
      ensures Valid() && semas == old(semas) && FirstChosen(old(Here()), Here(), c)
      ensures OnlyMoved(old(Here()), Here(), if old(Waiters(c)) == [] then Free else Up(OfWait(old(Waiters(c))[0]), next))
      ensures Here() == Signals(old(Here()), c, next)
    {
      hide Good, FirstChosen, OnlyMoved, KernelModel.SemOf, KernelModel.Waiting;
      SignalGood(Here(), c, next);
      SignalTakes(Here(), c, next);
      if Waiters(c) == [] {
        GoTo(Free);
      } else {
        var w := Waiters(c)[0];
        conds := conds[c := Waiters(c)[1..]];
        if w in tickets {
          tickets := tickets[w := tickets[w].(place := Carried(cur))];
        }
        GoTo(Up(OfWait(w), next));
      }
    }

    /** The running thread goes on inside synch.c. */
    method Go()
      requires Valid() && Enabled(Here(), Event.Go)
      modifies this
      ensures Valid() && Here() == Goes(old(Here()))
    {
      hide Good, Tests, Ups, Signals, SchedInv, KernelModel.Unblock;
      NextGood(Here(), Event.Go);
      GoesKnown(Here());
      match threads[cur].doing {
        case Free =>
        case Down(id, _, lock) =>
          SemaDown(id, lock);
        case TakeLock(l) =>
          holders := holders[l := cur];
          GoTo(Free);
        case ClearHolder(l, wait) =>
          holders := holders - {l};
          GoTo(Up(OfLock(l), wait));
        case Up(id, next) =>
          UpAndGo(id, next);
        case Looping(c) =>
          CondSignal(c, Some(c));
        case Start(t) =>
          Unblock(t);
          GoTo(Free);
      }
    }

    /** One event: a call, a step inside synch.c, or an interrupt. */
    method Step(e: Event)
      requires Valid() && Enabled(Here(), e)
      modifies this
      ensures Valid() && Here() == Next(old(Here()), e)
    {
      hide Good, Goes, Ticks, CondWaits, Signals, Creates, Sleeps, KernelModel.SemaUp, KernelModel.Schedule, TryDowns, Passes,
           Core, Raised, Joined, FirstChosen, OnlyMoved, OnNoList, Dispatched, KernelModel.SemOf, BlockedOn, Owns;
      NextGood(Here(), e);
      AllKnown(Here());
      match e {
        case CallDown(n) => GoTo(Down(Counting(n), false, None));
        case CallTryDown(n) => var success := SemaTryDown(n);
        case CallUp(n) => SemaUp(Counting(n));
        case CallAcquire(l) => GoTo(Down(OfLock(l), false, None));
        case CallTryAcquire(l) => var success := LockTryAcquire(l);
        case CallRelease(l) => GoTo(ClearHolder(l, None));
        case CallWait(c, l) => CondWait(c, l);
        case CallSignal(c, _) => CondSignal(c, None);
        case CallBroadcast(c, _) => GoTo(Looping(c));
        case CallYield => Yield();
        case CallExit => Exit();
        case CallCreate(t) => Create(t);
        case CallSleep(until) => ThreadSleep(until);
        case Go => Go();
        case IdleBlocks => IdleBlock();
        case Tick => ThreadTick();
        case InterruptUp(n) => SemaUp(Counting(n));
        case InterruptTryDown(n) => var success := SemaTryDown(n);
      }
    }

    /** `thread_create` up to `thread_unblock`. */
    method Create(t: Tid)
      requires Valid() && AtLarge(Here()) && t !in threads
      modifies this
      ensures Valid() && ready == old(ready) && semas == old(semas)
      ensures t in threads && threads[t] == Thread(Blocked, Free) && OnNoList(Here(), t)
      ensures forall u :: u in threads ==> (threads[u].doing == Start(t) <==> u == cur)
      ensures Here() == Creates(old(Here()), t)
    {
      hide Good, OnNoList;
      NewUnlisted(Here(), t);
      threads := threads[t := Thread(Blocked, Free)];
      GoTo(Start(t));
    }

    /** The loop body of `idle`. */
    method IdleBlock()
      requires Valid() && cur == idle
      modifies this
      ensures Valid() && Dispatched(old(ready), Here()) && OnNoList(Here(), idle)
      ensures idle in threads && (old(ready) != [] ==> threads[idle].status == Blocked)
      ensures Here() == KernelModel.Schedule(Blocks(old(Here())))
    {
      hide Good, Inv, KernelModel.Schedule, Dispatched, OnNoList;
      IdleUnlisted(Here());
      threads := threads[cur := threads[cur].(status := Blocked)];
      Schedule();
      assert Here() == Next(old(Here()), IdleBlocks);
    }
  }

  // ----- Which threads the lists hold

  lemma AllKnown(s: State)
    requires Good(s)
    ensures s.cur in s.threads && s.idle in s.threads && NextThread(s) in s.threads && Core(s, true)
    ensures forall id :: SemOf(s, id).waiters == [] || SemOf(s, id).waiters[0] in s.threads
  {
    forall id | SemOf(s, id).waiters != [] ensures SemOf(s, id).waiters[0] in s.threads { FirstWaiter(s, id); }
    Head(s.ready);
  }

  /** A tick moves the clock before it looks at the queue. */
  lemma ClockMoves(s: State, s': State)
    requires Good(s) && s' == s.(now := s.now + 1)
    ensures Inv(s', true)
  {
    hide Inv;
    SliceOk(s);
    NowFrame(s, s');
  }

  // ----- What the contracts say

  /** The front of the queue runs, or the idle thread if there is none, and no other thread does. */
  ghost predicate Dispatched(queue: seq<Tid>, s: State) {
    && (if queue == [] then s.cur == s.idle && s.ready == [] else [s.cur] + s.ready == queue && s.cur != s.idle)
    && s.slice == 0
    && forall t :: t in s.threads ==> (s.threads[t].status == Running <==> t == s.cur)
  }

  /** No way leads from a list to the thread. */
  ghost predicate OnNoList(s: State, t: Tid) {
    t !in s.ready && forall id :: t !in SemOf(s, id).waiters
  }

  /** One unit more, and the first waiter, if there is one, goes from the front of the one list to the back of the other. */
  ghost predicate Raised(s: State, s': State, id: SemId) {
    var q := SemOf(s, id).waiters;
    && (forall j :: SemOf(s', j).value == SemOf(s, j).value + One(j == id))
    && (forall j :: j != id ==> SemOf(s', j).waiters == SemOf(s, j).waiters)
    && (if q == [] then s'.ready == s.ready && SemOf(s', id).waiters == []
        else q == [q[0]] + SemOf(s', id).waiters && s'.ready == s.ready + [q[0]]
             && (forall j :: q[0] !in SemOf(s', j).waiters)
             && q[0] in s'.threads && s'.threads[q[0]].status == Ready)
    && (forall t :: t in s.threads && t != s.cur && (q == [] || t != q[0]) ==> t in s'.threads && s'.threads[t] == s.threads[t])
  }

  /** One loop test of `sema_down`: at zero the thread is the last on the list and blocked, else it has the unit that was free. */
  ghost predicate Lowered(s: State, s': State, id: SemId) {
    var q := SemOf(s, id);
    && (q.value == 0 ==>
          BlockedOn(s', s.cur, id) && SemOf(s', id) == Sema(0, q.waiters + [s.cur]) && s'.owners == s.owners)
    && (q.value > 0 ==>
          && s'.cur == s.cur && s'.ready == s.ready && SemOf(s', id) == Sema(q.value - 1, q.waiters)
          && s.cur in s'.threads && !(s'.threads[s.cur].doing.Down? && s'.threads[s.cur].doing.sem == id)
          && (id.OfLock? ==> id.l !in s.owners && Owns(s', s.cur, id.l))
          && (id.OfWait? ==> q.value == 1 && id.w !in s'.tickets))
    && forall j :: j != id ==> SemOf(s', j) == SemOf(s, j)
  }

  /** A new waiter, whose semaphore is fresh, is the last on the list of `c`; no other list changes. */
  ghost predicate Joined(s: State, s': State, c: nat) {
    var w := s.nextWait;
    && Waiting(s', c) == Waiting(s, c) + [w] && (forall d :: d != c ==> Waiting(s', d) == Waiting(s, d))
    && w !in s.tickets && w in s'.tickets && s'.tickets[w] == Ticket(s.cur, Listed(c)) && SemOf(s', OfWait(w)) == Sema(0, [])
  }

  /** The first waiter of `c`, if there is one, is on no list any more, and its signal is on the way but not there yet. */
  ghost predicate FirstChosen(s: State, s': State, c: nat) {
    && (forall d :: d != c ==> Waiting(s', d) == Waiting(s, d))
    && (if Waiting(s, c) == [] then Waiting(s', c) == [] && s'.tickets == s.tickets
        else
          var w := Waiting(s, c)[0];
          && [w] + Waiting(s', c) == Waiting(s, c) && (forall d :: w !in Waiting(s', d))
          && w in s'.tickets && s'.tickets[w].place == Carried(s.cur) && SemOf(s', OfWait(w)).value == 0)
  }

  /** The running thread goes on to `d`, and no other thread is concerned. */
  ghost predicate OnlyMoved(s: State, s': State, d: Doing) {
    && s'.cur == s.cur && s'.ready == s.ready && s'.threads.Keys == s.threads.Keys
    && s.cur in s.threads && s'.threads[s.cur].doing == d
    && forall t :: t in s.threads && t != s.cur ==> s'.threads[t] == s.threads[t]
  }

  lemma Dispatches(s: State)
    requires Inv(s, false)
    ensures NextThread(s) in s.threads && Dispatched(s.ready, Schedule(s))
  {
    hide WaitInv, StartInv, WakeInv, LockInv, TicketInv, PlaceInv, SleepInv;
    ScheduleOk(s);
    Head(s.ready);
  }

  lemma UnblockOk(s: State, t: Tid)
    requires SchedInv(s, true) && t in s.threads && s.threads[t].status == Blocked && t != s.idle
    ensures SchedInv(Unblock(s, t), true) && t !in s.ready
  {
  }

  /** The end of a time slice, whatever count it has reached. */
  lemma ReturnYields(s: State)
    requires Inv(s.(slice := 0), true)
    ensures s.cur in s.threads && Inv(Yields(s), false)
  {
    hide SchedInv, WaitInv, StartInv, WakeInv, LockInv, TicketInv, PlaceInv, SleepInv, Yields;
    var s0 := s.(slice := 0);
    CurRuns(s0);
    GiveUpKept(s0, Yields(s0));
    YieldsLate(s);
    SliceFrame(Yields(s0), Yields(s));
  }

  lemma YieldsLate(s: State)
    ensures Yields(s) == Yields(s.(slice := 0)).(slice := s.slice)
  {
  }

  lemma SliceFrame(s: State, s': State)
    requires Inv(s, false) && s' == s.(slice := s'.slice)
    ensures Inv(s', false)
  {
    hide WaitInv, StartInv, WakeInv, LockInv, TicketInv, PlaceInv, SleepInv;
    PlacesFrame(s, s');
    BlockedFrame(s, s');
  }

  lemma SliceEnds(s: State, slice: nat)
    requires Inv(s, true)
    ensures Inv(s.(slice := slice).(slice := 0), true)
  {
    hide Inv;
    NowFrame(s, s.(slice := 0));
  }

  lemma QueueMoves(s: State)
    requires Inv(s, true)
    ensures s.cur in s.threads && Core(s.(sleeping := if s.sleeping == [] then [] else s.sleeping[1..]), true)
  {
    hide SchedInv, WaitInv, StartInv, WakeInv, LockInv, TicketInv, PlaceInv, SleepInv, SemOf;
    CurRuns(s);
    var s' := s.(sleeping := if s.sleeping == [] then [] else s.sleeping[1..]);
    SameSem(s, s');
    MoveCore(s, s', s.threads[s.cur].doing, Counting(0), SemOf(s, Counting(0)));
  }

  /** A thread that is neither ready nor in a `sema_down` is on no list. */
  lemma Unlisted(s: State, t: Tid)
    requires Inv(s, true) && t in s.threads && !s.threads[t].doing.Down? && (s.threads[t].status != Ready || t == s.idle)
    ensures OnNoList(s, t)
  {
    hide StartInv, WakeInv, LockInv, TicketInv, PlaceInv, SleepInv;
    forall id ensures t !in SemOf(s, id).waiters { assert !BlockedOn(s, t, id); }
  }

  lemma YieldKept(s: State)
    requires Good(s) && AtLarge(s)
    ensures s.cur in s.threads && s.cur != s.idle && Inv(Yields(s), false) && Good(Next(s, CallYield))
  {
    hide Inv, Next, Yields;
    AtLargeRuns(s);
    GiveUpKept(s, Yields(s));
    NextGood(s, CallYield);
  }

  lemma ExitKept(s: State)
    requires Good(s) && AtLarge(s)
    ensures Inv(Dies(s), false) && Good(Next(s, CallExit))
    ensures var s' := Next(s, CallExit);
            s.cur in s.threads && s.cur in s'.threads && s'.threads[s.cur] == Thread(Dying, Free) && OnNoList(s', s.cur)
  {
    hide Inv, Next, Dies, OnNoList;
    AtLargeRuns(s);
    GiveUpKept(s, Dies(s));
    NextGood(s, CallExit);
    Dead(s);
    Unlisted(Next(s, CallExit), s.cur);
  }

  lemma Dead(s: State)
    requires Inv(s, true) && AtLarge(s)
    ensures var s' := Next(s, CallExit); s.cur in s'.threads && s'.threads[s.cur] == Thread(Dying, Free)
  {
    Head(s.ready);
  }

  lemma IdleUnlisted(s: State)
    requires Good(s) && s.cur == s.idle
    ensures Inv(Blocks(s), false) && Good(Next(s, IdleBlocks))
    ensures var s' := Next(s, IdleBlocks);
            && s.idle in s.threads && s.idle in s'.threads && OnNoList(s', s.idle)
            && (s.ready != [] ==> s'.threads[s.idle].status == Blocked)
  {
    hide Inv, Next, Blocks, OnNoList;
    GiveUpKept(s, Blocks(s));
    NextGood(s, IdleBlocks);
    IdleRests(s);
    Unlisted(Next(s, IdleBlocks), s.idle);
  }

  lemma IdleRests(s: State)
    requires Inv(s, true) && s.cur == s.idle
    ensures var s' := Next(s, IdleBlocks);
            && s.idle in s.threads && s.idle in s'.threads && s'.threads[s.idle].doing == Free && s'.idle == s.idle
            && (s.ready != [] ==> s'.threads[s.idle].status == Blocked)
  {
    Head(s.ready);
  }

  lemma NewUnlisted(s: State, t: Tid)
    requires Good(s) && AtLarge(s) && t !in s.threads
    ensures Good(Creates(s, t))
    ensures var s' := Creates(s, t);
            && s.cur in s.threads && s.cur in s'.threads && t in s'.threads && s'.threads[t] == Thread(Blocked, Free) && OnNoList(s', t)
            && forall u :: u in s'.threads ==> (s'.threads[u].doing == Start(t) <==> u == s.cur)
  {
    hide Inv, OnNoList;
    NextGood(s, CallCreate(t));
    NoStart(s, t);
    Unlisted(Creates(s, t), t);
  }

  lemma NoStart(s: State, t: Tid)
    requires Inv(s, true) && t !in s.threads
    ensures s.cur in s.threads && forall u :: u in s.threads ==> s.threads[u].doing != Start(t)
  {
  }

  lemma SleepKept(s: State, until: int)
    requires Good(s) && AtLarge(s)
    ensures s.cur in s.threads && Inv(Sleeps(s, until), false) && Good(Next(s, CallSleep(until)))
    ensures var s', id := Next(s, CallSleep(until)), OfWait(s.nextWait);
            BlockedOn(s', s.cur, id) && SemOf(s', id) == Sema(0, [s.cur])
  {
    hide Inv, Next, Sleeps, BlockedOn, SemOf;
    AtLargeRuns(s);
    SleepOk(s, until);
    NextGood(s, CallSleep(until));
    SleeperBlocks(s, until);
  }

  lemma SleeperBlocks(s: State, until: int)
    requires Inv(s, true) && AtLarge(s)
    ensures var s', id := Next(s, CallSleep(until)), OfWait(s.nextWait);
            BlockedOn(s', s.cur, id) && SemOf(s', id) == Sema(0, [s.cur])
  {
    hide InsertSleeper;
    Head(s.ready);
  }

  lemma UpWakes(s: State, id: SemId)
    requires Core(s, true)
    ensures SchedInv(s, true)
    ensures var q := SemOf(s, id).waiters;
            q != [] ==> q[0] in s.threads && s.threads[q[0]].status == Blocked && q[0] != s.idle
  {
    if SemOf(s, id).waiters != [] { FirstWaiter(s, id); }
  }

  lemma UpRaises(s: State, id: SemId)
    requires Core(s, true)
    ensures Raised(s, SemaUp(s, id), id) && SemaUp(s, id).cur == s.cur && s.cur in SemaUp(s, id).threads
  {
    hide StartInv, WakeInv, SchedInv;
    UpShape(s, id);
    UpWakes(s, id);
    UpCore(s, id);
    CurRuns(SemaUp(s, id));
    var q, s' := SemOf(s, id).waiters, SemaUp(s, id);
    if q != [] {
      forall j ensures q[0] !in SemOf(s', j).waiters { assert !BlockedOn(s', q[0], j); }
    }
  }

  /** The running thread is at the test of `sema_down`. */
  predicate InDown(s: State, id: SemId, lock: Option<nat>) {
    s.cur in s.threads && s.threads[s.cur].doing.Down? && s.threads[s.cur].doing.sem == id && s.threads[s.cur].doing.lock == lock
  }

  lemma TestGood(s: State, id: SemId, lock: Option<nat>)
    requires Good(s) && InDown(s, id, lock)
    ensures s.cur != s.idle && Good(Tests(s, id, lock))
  {
    hide Inv, Tests;
    IdleFree(s);
    NextGood(s, Event.Go);
  }

  lemma TestHere(s: State, id: SemId, lock: Option<nat>)
    requires Good(s) && InDown(s, id, lock)
    ensures Good(Tests(s, id, lock)) && Lowered(s, Tests(s, id, lock), id)
    ensures SemOf(s, id).value == 0 ==> Inv(Enqueues(s, id, lock), false)
  {
    hide Inv, Tests, Lowered, SemOf;
    TestGood(s, id, lock);
    if SemOf(s, id).value == 0 { EnqueueOk(s, id, lock); }
    TestLowers(s, id, lock);
  }

  lemma TestLowers(s: State, id: SemId, lock: Option<nat>)
    requires Good(s) && InDown(s, id, lock)
    ensures Lowered(s, Tests(s, id, lock), id)
  {
    hide WaitInv, StartInv, WakeInv, LockInv, TicketInv, PlaceInv, SleepInv, Lowered;
    if SemOf(s, id).value == 0 {
      Queued(s, id, lock);
    } else {
      CurLocks(s);
      if id.OfLock? { FreeLock(s, id.l); }
      if id.OfWait? { PostedTicket(s, id.w); }
      Passed(s, id, lock);
    }
  }

  lemma Queued(s: State, id: SemId, lock: Option<nat>)
    requires Inv(s, true) && InDown(s, id, lock) && SemOf(s, id).value == 0
    ensures Lowered(s, Schedule(Enqueues(s, id, lock)), id)
  {
    Head(s.ready);
  }

  lemma Passed(s: State, id: SemId, lock: Option<nat>)
    requires InDown(s, id, lock) && SemOf(s, id).value > 0
    requires id.OfLock? ==> id.l !in s.owners
    requires id.OfWait? ==> SemOf(s, id).value == 1
    ensures Lowered(s, Passes(s, id, lock), id)
  {
  }

  lemma UpGood(s: State, id: SemId, next: Option<nat>)
    requires Good(s) && s.cur in s.threads && s.threads[s.cur].doing == Up(id, next)
    ensures s.cur != s.idle && Good(Ups(s, id, next)) && Core(s, true)
  {
    hide SchedInv, WaitInv, StartInv, WakeInv, LockInv, TicketInv, PlaceInv, SleepInv, Ups;
    IdleFree(s);
    NextGood(s, Event.Go);
  }

  function GoesUp(s: State, id: SemId, next: Option<nat>): State {
    match id
    case Counting(_) => SetDoing(s, Free)
    case OfLock(l) => SetDoing(s.(owners := s.owners - {l}), if next.Some? then Down(OfWait(next.value), false, Some(l)) else Free)
    case OfWait(w) => SetDoing(Post(s, w), if next.Some? then Looping(next.value) else Free)
  }

  lemma UpsGoes(s: State, id: SemId, next: Option<nat>)
    ensures Ups(s, id, next) == GoesUp(SemaUp(s, id), id, next)
  {
    hide SemaUp;
    assert SemaUp(s, id).owners == s.owners by { UpOwners(s, id); }
  }

  lemma UpOwners(s: State, id: SemId)
    ensures SemaUp(s, id).owners == s.owners
  {
  }

  lemma UpGives(s: State, id: SemId, next: Option<nat>)
    requires Good(s) && s.cur in s.threads && s.threads[s.cur].doing == Up(id, next)
    ensures var s' := Ups(s, id, next);
            && Raised(s, s', id)
            && (id.OfLock? ==> SemOf(s', id).value == 1 && id.l !in s'.owners && id.l !in s'.holders && Owns(s, s.cur, id.l))
            && (id.OfWait? ==> SemOf(s', id).value == 1 && id.w in s'.tickets && s'.tickets[id.w].place == Posted)
  {
    hide SchedInv, WaitInv, StartInv, WakeInv, LockInv, TicketInv, PlaceInv, SleepInv, SemaUp, Ups, SemOf;
    IdleFree(s);
    CurRuns(s);
    UpsShape(s, id, next);
    UpsMoves(s, id, next);
    UpRaises(s, id);
    SameSem(SemaUp(s, id), Ups(s, id, next));
    if id.OfLock? { OwnLock(s, id.l); }
    if id.OfWait? { CarriedTicket(s, id.w); NotPosted(s, id.w); }
  }

  lemma WaitLists(s: State, c: nat, l: nat)
    requires Good(s) && AtLarge(s) && Holder(s, l) == Some(s.cur)
    ensures Good(CondWaits(s, c, l)) && s.cur in s.threads && Owns(CondWaits(s, c, l), s.cur, l)
    ensures Joined(s, CondWaits(s, c, l), c) && OnlyMoved(s, CondWaits(s, c, l), ClearHolder(l, Some(s.nextWait)))
  {
    hide SchedInv, WaitInv, StartInv, WakeInv, LockInv, TicketInv, PlaceInv, SleepInv;
    NextGood(s, CallWait(c, l));
    CurRuns(s);
    OwnLock(s, l);
    NewTicket(s);
  }

  lemma SignalGood(s: State, c: nat, next: Option<nat>)
    requires Good(s) && s.cur in s.threads && s.cur != s.idle && (s.threads[s.cur].doing == Free || s.threads[s.cur].doing.Looping?)
    ensures Good(Signals(s, c, next))
  {
    hide Inv, KnownLocks, KnownStep;
    SignalOk(s, c, next);
    KnownSignal(s, c, next);
    KnownFrom(s, Signals(s, c, next));
  }

  lemma SignalTakes(s: State, c: nat, next: Option<nat>)
    requires Good(s) && s.cur in s.threads && s.cur != s.idle && (s.threads[s.cur].doing == Free || s.threads[s.cur].doing.Looping?)
    ensures FirstChosen(s, Signals(s, c, next), c)
    ensures OnlyMoved(s, Signals(s, c, next), if Waiting(s, c) == [] then Free else Up(OfWait(Waiting(s, c)[0]), next))
  {
    hide SchedInv, WaitInv, StartInv, WakeInv, LockInv, TicketInv, PlaceInv, SleepInv, Signals, SemOf, Waiting;
    SignalLists(s, c, next);
    SignalMoves(s, c, next);
    hide OnlyMoved;
    if Waiting(s, c) != [] {
      var s', w := Signals(s, c, next), Waiting(s, c)[0];
      CurRuns(s);
      ListedTicket(s, c);
      SignalShape(s, c, next);
      SignalGood(s, c, next);
      TicketUnlisted(s', w);
      NotPosted(s', w);
    }
  }

  lemma SignalMoves(s: State, c: nat, next: Option<nat>)
    requires s.cur in s.threads
    ensures OnlyMoved(s, Signals(s, c, next), if Waiting(s, c) == [] then Free else Up(OfWait(Waiting(s, c)[0]), next))
  {
  }

  lemma SignalLists(s: State, c: nat, next: Option<nat>)
    ensures var s' := Signals(s, c, next);
            && (forall d :: d != c ==> Waiting(s', d) == Waiting(s, d))
            && (if Waiting(s, c) == [] then Waiting(s', c) == [] && s'.tickets == s.tickets else [Waiting(s, c)[0]] + Waiting(s', c) == Waiting(s, c))
  {
  }

  lemma TicketUnlisted(s: State, w: nat)
    requires PlaceInv(s) && w in s.tickets && !s.tickets[w].place.Listed?
    ensures forall d :: w !in Waiting(s, d)
  {
  }

  lemma WakeEnds(s: State)
    requires s.sleeping == [] || s.sleeping[0].wakeup >= s.now
    ensures WakeAll(s) == s
  {
  }

  lemma WakesFirst(s: State)
    requires Inv(s, true) && s.sleeping != [] && s.sleeping[0].wakeup < s.now
    ensures WakeAll(s) == WakeAll(WakeFirst(s)) && Inv(WakeFirst(s), true) && |WakeFirst(s).sleeping| < |s.sleeping|
    ensures var q := SemOf(s, OfWait(s.sleeping[0].w)).waiters; q != [] && q[0] in s.threads
  {
    FirstSleeper(s);
    hide Inv;
    WakeFirstOk(s);
  }

  ghost function WithSleeper(s: State, until: int): State {
    s.(semas := s.semas[OfWait(s.nextWait) := Sema(0, [])], nextWait := s.nextWait + 1,
       sleeping := InsertSleeper(s.sleeping, Sleeper(until, s.nextWait, s.now)),
       tickets := s.tickets[s.nextWait := Ticket(s.cur, Asleep)])
  }

  lemma SleepsMeans(s: State, until: int)
    ensures Sleeps(s, until) == Enqueues(WithSleeper(s, until), OfWait(s.nextWait), None)
    ensures WithSleeper(s, until).threads == s.threads && WithSleeper(s, until).cur == s.cur
  {
  }

  lemma {:induction false} InsertsAt(q: seq<Sleeper>, e: Sleeper, k: nat)
    requires k <= |q| && (k == 0 || q[k - 1].wakeup <= e.wakeup)
    requires forall i :: k <= i < |q| ==> q[i].wakeup > e.wakeup
    ensures InsertSleeper(q, e) == q[..k] + [e] + q[k..]
  {
    if k < |q| {
      var front := q[..|q| - 1];
      InsertsAt(front, e, k);
      assert front[..k] == q[..k] && front[k..] + [q[|q| - 1]] == q[k..];
    } else {
      assert q[..k] == q && q[k..] == [];
    }
  }

  lemma GoesKnown(s: State)
    requires Good(s) && Enabled(s, Event.Go)
    ensures s.cur in s.threads && s.cur != s.idle && SchedInv(s, true)
    ensures s.threads[s.cur].doing.Start? ==>
              var t := s.threads[s.cur].doing.t; t in s.threads && t != s.cur && t != s.idle && s.threads[t].status == Blocked
  {
    hide WaitInv, WakeInv, LockInv, TicketInv, PlaceInv, SleepInv;
    IdleFree(s);
    if s.threads[s.cur].doing.Start? { Started(s, s.threads[s.cur].doing.t); }
  }
}
