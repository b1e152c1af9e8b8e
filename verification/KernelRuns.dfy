/** Runs of the machine of `KernelModel`, in every interleaving, and what holds along all of them. */
module KernelRuns {
  import opened Sequences
  import opened KernelModel
  import opened KernelSteps

  /** A call by the running thread, its next step inside synch.c, or an interrupt. */
  datatype Event =
    | CallDown(n: nat) | CallTryDown(n: nat) | CallUp(n: nat)
    | CallAcquire(l: nat) | CallTryAcquire(l: nat) | CallRelease(l: nat)
    | CallWait(c: nat, l: nat) | CallSignal(c: nat, l: nat) | CallBroadcast(c: nat, l: nat)
    | CallYield | CallExit | CallCreate(t: Tid) | CallSleep(until: int)
    | Go
    | IdleBlocks
    | Tick | InterruptUp(n: nat) | InterruptTryDown(n: nat)

  predicate AtLarge(s: State) { s.cur != s.idle && ThreadOf(s, s.cur).doing == Free }

  /** The assertions that the code makes at each call, and nothing else. */
  predicate Enabled(s: State, e: Event) {
    match e
    case Tick => true
    case InterruptUp(_) => true
    case InterruptTryDown(_) => true
    case IdleBlocks => s.cur == s.idle
    case Go => ThreadOf(s, s.cur).doing != Free
    case CallAcquire(l) => AtLarge(s) && l in s.locks && Holder(s, l) != Some(s.cur)
    case CallTryAcquire(l) => AtLarge(s) && l in s.locks && Holder(s, l) != Some(s.cur)
    case CallRelease(l) => AtLarge(s) && Holder(s, l) == Some(s.cur)
    case CallWait(_, l) => AtLarge(s) && Holder(s, l) == Some(s.cur)
    case CallSignal(_, l) => AtLarge(s) && Holder(s, l) == Some(s.cur)
    case CallBroadcast(_, l) => AtLarge(s) && Holder(s, l) == Some(s.cur)
    case CallCreate(t) => AtLarge(s) && t !in s.threads
    case _ => AtLarge(s)
  }

  /** The loop test of `sema_down`. */
  function Tests(s: State, id: SemId, lock: Option<nat>): State {
    if SemOf(s, id).value == 0 then Schedule(Enqueues(s, id, lock)) else Passes(s, id, lock)
  }

  function TryDowns(s: State, id: SemId): State { if SemOf(s, id).value > 0 then Take(s, id) else s }

  function Goes(s: State): State {
    match ThreadOf(s, s.cur).doing
    case Free => s
    case Down(id, _, lock) => Tests(s, id, lock)
    case TakeLock(l) => SetDoing(s.(holders := s.holders[l := s.cur]), Free)
    case ClearHolder(l, wait) => SetDoing(s.(holders := s.holders - {l}), Up(OfLock(l), wait))
    case Up(id, next) => Ups(s, id, next)
    case Looping(c) => Signals(s, c, Some(c))
    case Start(t) => SetDoing(Unblock(s, t), Free)
  }

  function Next(s: State, e: Event): State {
    match e
    case CallDown(n) => SetDoing(s, Down(Counting(n), false, None))
    case CallTryDown(n) => TryDowns(s, Counting(n))
    case CallUp(n) => SemaUp(s, Counting(n))
    case CallAcquire(l) => SetDoing(s, Down(OfLock(l), false, None))
    case CallTryAcquire(l) => if SemOf(s, OfLock(l)).value > 0 then Passes(s, OfLock(l), None) else s
    case CallRelease(l) => SetDoing(s, ClearHolder(l, None))
    case CallWait(c, l) => CondWaits(s, c, l)
    case CallSignal(c, _) => Signals(s, c, None)
    case CallBroadcast(c, _) => SetDoing(s, Looping(c))
    case CallYield => Schedule(Yields(s))
    case CallExit => Schedule(Dies(s))
    case CallCreate(t) => Creates(s, t)
    case CallSleep(until) => Schedule(Sleeps(s, until))
    case Go => Goes(s)
    case IdleBlocks => Schedule(Blocks(s))
    case Tick => Ticks(s)
    case InterruptUp(n) => SemaUp(s, Counting(n))
    case InterruptTryDown(n) => TryDowns(s, Counting(n))
  }

  /** The end of `thread_start`: the main thread runs, the idle thread is blocked, the locks are free. */
  ghost predicate Init(s: State) {
    && s.cur != s.idle && s.threads == map[s.cur := Thread(Running, Free), s.idle := Thread(Blocked, Free)]
    && s.ready == [] && s.slice < TIME_SLICE && s.sleeping == []
    && (forall id :: SemOf(s, id).waiters == [])
    && (forall l :: l in s.locks ==> SemOf(s, OfLock(l)).value == 1)
    && s.holders == map[] && s.owners == map[] && s.conds == map[] && s.tickets == map[]
  }

  ghost predicate Trace(ss: seq<State>, es: seq<Event>) {
    |ss| == |es| + 1 && Init(ss[0])
    && forall i :: 0 <= i < |es| ==> Enabled(ss[i], es[i]) && ss[i + 1] == Next(ss[i], es[i])
  }

  /** Every lock that a thread is waiting for exists. */
  ghost predicate KnownLocks(s: State) {
    forall t :: t in s.threads ==> KnownDoing(s.locks, s.threads[t].doing)
  }

  predicate KnownDoing(locks: set<nat>, d: Doing) {
    d.Down? ==> (d.sem.OfLock? ==> d.sem.l in locks) && (d.lock.Some? ==> d.lock.value in locks)
  }

  ghost predicate Good(s: State) { Inv(s, true) && OnTime(s) && KnownLocks(s) }

  // ----- The invariant along runs

  lemma InitGood(s: State)
    requires Init(s)
    ensures Good(s)
  {
    InitCore(s);
    assert LockInv(s) by { hide Core; forall l: nat ensures LockOk(s, l) { } }
    hide Core, LockInv, SemOf;
    assert TicketInv(s) && PlaceInv(s) && SleepInv(s);
  }

  lemma InitCore(s: State)
    requires Init(s)
    ensures SchedInv(s, true) && WaitInv(s) && StartInv(s) && WakeInv(s)
  {
    forall id, t ensures !BlockedOn(s, t, id) { }
    assert forall id :: SemOf(s, id).waiters == [];
    assert WaitInv(s);
  }

  lemma GoKept(s: State)
    requires Good(s) && Enabled(s, Go)
    ensures Inv(Goes(s), true)
  {
    hide Inv, KnownLocks, OnTime, SemOf, Ups, Signals, Tests;
    IdleFree(s);
    CurLocks(s);
    match s.threads[s.cur].doing {
      case Down(id, _, lock) => TestKept(s, id, lock);
      case TakeLock(l) => TakeOk(s, l);
      case ClearHolder(l, wait) => ClearOk(s, l, wait);
      case Up(id, next) => UpsKept(s, id, next);
      case Looping(c) => SignalOk(s, c, Some(c));
      case Start(t) => StartOk(s, t);
    }
  }

  lemma IdleFree(s: State)
    requires Inv(s, true) && ThreadOf(s, s.cur).doing != Free
    ensures s.cur in s.threads && s.cur != s.idle
  {
  }

  lemma CurLocks(s: State)
    requires KnownLocks(s) && s.cur in s.threads
    ensures s.threads[s.cur].doing.Down? && s.threads[s.cur].doing.sem.OfLock? ==> s.threads[s.cur].doing.sem.l in s.locks
  {
  }

  lemma TestKept(s: State, id: SemId, lock: Option<nat>)
    requires Inv(s, true) && s.cur in s.threads && s.cur != s.idle && (id.OfLock? ==> id.l in s.locks)
    requires s.threads[s.cur].doing.Down? && s.threads[s.cur].doing.sem == id && s.threads[s.cur].doing.lock == lock
    ensures Inv(Tests(s, id, lock), true)
  {
    hide Inv, SemOf;
    if SemOf(s, id).value == 0 {
      EnqueueOk(s, id, lock);
      ScheduleOk(Enqueues(s, id, lock));
    } else {
      match id {
        case Counting(n) => PassCount(s, n, lock);
        case OfLock(l) => PassLock(s, l, lock);
        case OfWait(w) => PassWait(s, w, lock);
      }
    }
  }

  lemma UpsKept(s: State, id: SemId, next: Option<nat>)
    requires Inv(s, true) && s.cur in s.threads && s.cur != s.idle && s.threads[s.cur].doing == Up(id, next)
    ensures Inv(Ups(s, id, next), true)
  {
    hide Inv;
    match id {
      case Counting(n) => UpCountOk(s, n, next);
      case OfLock(l) => UpLockOk(s, l, next);
      case OfWait(w) => UpWaitOk(s, w, next);
    }
  }

  lemma UpCountOk(s: State, n: nat, next: Option<nat>)
    requires Inv(s, true) && s.cur in s.threads && s.cur != s.idle && s.threads[s.cur].doing == Up(Counting(n), next)
    ensures Inv(Ups(s, Counting(n), next), true)
  {
    hide SchedInv, WaitInv, StartInv, WakeInv, LockInv, TicketInv, PlaceInv, SleepInv, SemaUp, SemOf, Ups;
    CurRuns(s);
    var s' := Ups(s, Counting(n), next);
    UpsShape(s, Counting(n), next);
    LockMove(s, s', Free);
    TicketMove(s, s', Free);
    PlaceMove(s, s', Free);
    SleepFrame(s, s');
  }

  lemma AtLargeRuns(s: State)
    requires Inv(s, true)
    ensures s.cur in s.threads && (AtLarge(s) ==> s.cur != s.idle && s.threads[s.cur].doing == Free)
  {
  }

  lemma NextInv(s: State, e: Event)
    requires Good(s) && Enabled(s, e)
    ensures Inv(Next(s, e), true)
  {
    hide Inv, KnownLocks, OnTime, SemOf, Goes, Ticks, Schedule, CondWaits, Signals, Creates, Sleeps, SemaUp, Take, Passes, SetDoing, AtLarge;
    AtLargeRuns(s);
    match e {
      case Go => GoKept(s);
      case CallDown(n) => BeginOk(s, Down(Counting(n), false, None));
      case CallTryDown(n) => TryDownsKept(s, n);
      case CallUp(n) => RaiseOk(s, n);
      case CallAcquire(l) => BeginOk(s, Down(OfLock(l), false, None));
      case CallTryAcquire(l) => if SemOf(s, OfLock(l)).value > 0 { PassLock(s, l, None); }
      case CallRelease(l) => ReleaseOk(s, l);
      case CallWait(c, l) => CondWaitOk(s, c, l);
      case CallSignal(c, _) => SignalOk(s, c, None);
      case CallBroadcast(c, _) => BeginOk(s, Looping(c));
      case CallYield => GiveUpOk(s, Yields(s));
      case CallExit => GiveUpOk(s, Dies(s));
      case CallCreate(t) => CreateOk(s, t);
      case CallSleep(until) => SleepOk(s, until); ScheduleOk(Sleeps(s, until));
      case IdleBlocks => GiveUpOk(s, Blocks(s));
      case Tick => TickOk(s);
      case InterruptUp(n) => RaiseOk(s, n);
      case InterruptTryDown(n) => TryDownsKept(s, n);
    }
  }

  lemma TryDownsKept(s: State, n: nat)
    requires Inv(s, true)
    ensures Inv(TryDowns(s, Counting(n)), true)
  {
    hide Inv;
    if SemOf(s, Counting(n)).value > 0 { TryDownOk(s, n); }
  }

  // ----- What a step changes

  /** Step `e` is a `sema_up` of `id`. */
  predicate Raises(s: State, e: Event, id: SemId) {
    match e
    case CallUp(n) => id == Counting(n)
    case InterruptUp(n) => id == Counting(n)
    case Go => ThreadOf(s, s.cur).doing.Up? && ThreadOf(s, s.cur).doing.sem == id
    case _ => false
  }

  /** Step `e` is the end of a `sema_down`, or a successful `sema_try_down`, of `id`. */
  predicate Lowers(s: State, e: Event, id: SemId) {
    SemOf(s, id).value > 0 &&
    match e
    case CallTryDown(n) => id == Counting(n)
    case InterruptTryDown(n) => id == Counting(n)
    case CallTryAcquire(l) => id == OfLock(l)
    case Go => ThreadOf(s, s.cur).doing.Down? && ThreadOf(s, s.cur).doing.sem == id
    case _ => false
  }

  /** Only the processor goes elsewhere. */
  ghost predicate Switched(s: State, s': State) {
    SameRest(s, s') && s'.now == s.now && s'.idle == s.idle && SameDoing(s, s')
  }

  lemma ReadyKnown(s: State)
    requires Inv(s, true)
    ensures s.cur in s.threads && s.idle in s.threads && forall t :: t in s.ready ==> t in s.threads
  {
  }

  lemma ScheduleSwitches(s: State)
    requires s.idle in s.threads && forall t :: t in s.ready ==> t in s.threads
    ensures Switched(s, Schedule(s))
  {
    Head(s.ready);
  }

  lemma StatusSwitches(s: State, st: Status, ready: seq<Tid>)
    requires s.cur in s.threads && s.idle in s.threads
    requires (forall t :: t in s.ready ==> t in s.threads) && (ready == s.ready || ready == s.ready + [s.cur])
    ensures Switched(s, Schedule(SetStatus(s.(ready := ready), s.cur, st)))
  {
    var s' := SetStatus(s.(ready := ready), s.cur, st);
    assert Switched(s, s');
    assert forall t :: t in s'.ready ==> t in s'.threads;
    ScheduleSwitches(s');
    hide Schedule, SetStatus;
  }

  lemma GiveUpSwitches(s: State, s': State)
    requires Inv(s, true) && (s' == Yields(s) || s' == Blocks(s) || s' == Dies(s))
    ensures Switched(s, Schedule(s'))
  {
    hide Inv, Schedule, SetStatus, Switched;
    ReadyKnown(s);
    assert s.(ready := s.ready) == s;
    if s' == Yields(s) {
      StatusSwitches(s, Ready, if s.cur != s.idle then s.ready + [s.cur] else s.ready);
    } else if s' == Blocks(s) {
      StatusSwitches(s, Blocked, s.ready);
    } else {
      StatusSwitches(s, Dying, s.ready);
    }
  }

  lemma TickSwitches(s: State) returns (k: nat)
    requires Inv(s, true)
    ensures var s0 := s.(now := s.now + 1); Woke(s0, WakeAll(s0), k) && Switched(WakeAll(s0), Ticks(s))
  {
    hide Inv, WakeAll, Woke;
    var s0 := s.(now := s.now + 1);
    SliceOk(s);
    NowFrame(s, s0);
    k := WakeAllOk(s0);
    GiveUpSwitches(WakeAll(s0), Yields(WakeAll(s0)));
    assert Ticks(s).slice != 0 || Ticks(s) == Schedule(Yields(WakeAll(s0)));
  }

  lemma TickShape(s: State) returns (k: nat)
    requires Inv(s, true)
    ensures var s' := Ticks(s);
            && s'.locks == s.locks && s'.owners == s.owners && s'.now == s.now + 1
            && k <= |s.sleeping| && s'.sleeping == s.sleeping[k..]
            && (forall i :: 0 <= i < k ==> s.sleeping[i].wakeup <= s.now)
            && (forall i :: k <= i < |s.sleeping| ==> s.sleeping[i].wakeup > s.now)
            && (forall id: SemId :: !id.OfWait? ==> SemOf(s', id).value == SemOf(s, id).value)
            && SameDoing(s, s')
  {
    hide Inv, WakeAll, Ticks, SemOf;
    k := TickSwitches(s);
    var s0 := s.(now := s.now + 1);
    SameSem(s, s0);
    SameSem(WakeAll(s0), Ticks(s));
  }

  /** The lock whose semaphore a step takes, or gives back. */
  function Taken(s: State, e: Event): Option<nat> {
    match e
    case CallTryAcquire(l) => if SemOf(s, OfLock(l)).value > 0 then Some(l) else None
    case Go =>
      var d := ThreadOf(s, s.cur).doing;
      if d.Down? && d.sem.OfLock? && SemOf(s, d.sem).value > 0 then Some(d.sem.l) else None
    case _ => None
  }

  function Given(s: State, e: Event): Option<nat> {
    var d := ThreadOf(s, s.cur).doing;
    if e == Go && d.Up? && d.sem.OfLock? then Some(d.sem.l) else None
  }

  function OwnersAfter(s: State, e: Event): map<nat, Tid> {
    if Taken(s, e).Some? then s.owners[Taken(s, e).value := s.cur]
    else if Given(s, e).Some? then s.owners - {Given(s, e).value}
    else s.owners
  }

  ghost predicate Effect(s: State, e: Event, s': State) {
    && s'.locks == s.locks && s'.owners == OwnersAfter(s, e)
    && s'.now == s.now + One(e == Tick)
    && (e != Tick && !e.CallSleep? ==> s'.sleeping == s.sleeping)
    && (e.CallSleep? ==> s'.sleeping == InsertSleeper(s.sleeping, Sleeper(e.until, s.nextWait, s.now)))
    && (forall id: SemId :: !id.OfWait? ==> SemOf(s', id).value == SemOf(s, id).value + One(Raises(s, e, id)) - One(Lowers(s, e, id)))
  }

  ghost predicate SameValues(s: State, s': State) {
    forall id: SemId :: !id.OfWait? ==> SemOf(s', id).value == SemOf(s, id).value
  }

  lemma SwitchedEffect(s: State, s': State)
    requires Switched(s, s')
    ensures SameValues(s, s') && s'.locks == s.locks && s'.owners == s.owners && s'.now == s.now && s'.sleeping == s.sleeping
  {
  }

  lemma EffectTest(s: State, id: SemId, lock: Option<nat>)
    requires Inv(s, true) && s.cur in s.threads && s.threads[s.cur].doing.Down?
    requires s.threads[s.cur].doing.sem == id && s.threads[s.cur].doing.lock == lock
    ensures Effect(s, Go, Goes(s))
  {
    hide Inv, Schedule, InsertSleeper;
    if SemOf(s, id).value == 0 {
      ReadyKnown(s);
      ScheduleSwitches(Enqueues(s, id, lock));
      SwitchedEffect(Enqueues(s, id, lock), Goes(s));
      hide Switched;
    }
  }

  lemma EffectUps(s: State, id: SemId, next: Option<nat>)
    requires Inv(s, true) && s.cur in s.threads && s.cur != s.idle && s.threads[s.cur].doing == Up(id, next)
    ensures Effect(s, Go, Goes(s))
  {
    hide Inv, InsertSleeper, Ups, SemOf;
    UpsShape(s, id, next);
  }

  lemma EffectGo(s: State)
    requires Good(s) && Enabled(s, Go)
    ensures Effect(s, Go, Goes(s))
  {
    hide Inv, KnownLocks, OnTime, Effect, Goes;
    IdleFree(s);
    match s.threads[s.cur].doing {
      case Down(id, _, lock) => EffectTest(s, id, lock);
      case Up(id, next) => EffectUps(s, id, next);
      case _ => EffectSmall(s);
    }
  }

  lemma EffectSmall(s: State)
    requires s.cur in s.threads
    requires var d := s.threads[s.cur].doing; d.TakeLock? || d.ClearHolder? || d.Looping? || d.Start?
    ensures Effect(s, Go, Goes(s))
  {
    SmallKeeps(s);
    SameSem(s, Goes(s));
    hide SemOf, Goes;
  }

  lemma SmallKeeps(s: State)
    requires s.cur in s.threads
    requires var d := s.threads[s.cur].doing; d.TakeLock? || d.ClearHolder? || d.Looping? || d.Start?
    ensures var s' := Goes(s);
            s'.semas == s.semas && s'.locks == s.locks && s'.owners == s.owners && s'.now == s.now && s'.sleeping == s.sleeping
  {
  }

  lemma EffectSleep(s: State, until: int)
    requires Inv(s, true)
    ensures Effect(s, CallSleep(until), Next(s, CallSleep(until)))
  {
    hide Inv, Schedule, InsertSleeper;
    ReadyKnown(s);
    ScheduleSwitches(Sleeps(s, until));
    SwitchedEffect(Sleeps(s, until), Schedule(Sleeps(s, until)));
    hide Switched;
  }

  lemma EffectGiveUp(s: State, e: Event)
    requires Inv(s, true) && (e.CallYield? || e.CallExit? || e.IdleBlocks?)
    ensures Effect(s, e, Next(s, e))
  {
    hide Inv, Schedule, InsertSleeper, Yields, Dies, Blocks;
    var s' := match e case CallYield => Yields(s) case CallExit => Dies(s) case _ => Blocks(s);
    GiveUpSwitches(s, s');
    SwitchedEffect(s, Schedule(s'));
    hide Switched, SemOf;
  }

  lemma EffectTick(s: State)
    requires Inv(s, true)
    ensures Effect(s, Tick, Ticks(s))
  {
    hide Inv, Ticks;
    var k := TickShape(s);
    hide SemOf;
  }

  lemma EffectUp(s: State, n: nat, e: Event)
    requires Inv(s, true) && (e == CallUp(n) || e == InterruptUp(n))
    ensures Effect(s, e, SemaUp(s, Counting(n)))
  {
    hide SemaUp, SemOf, SchedInv, WaitInv, StartInv, WakeInv, LockInv, TicketInv, PlaceInv, SleepInv;
    UpShape(s, Counting(n));
  }

  lemma EffectCall(s: State, e: Event)
    requires e.CallDown? || e.CallAcquire? || e.CallRelease? || e.CallBroadcast? || e.CallCreate? || e.CallSignal?
    ensures Effect(s, e, Next(s, e))
  {
    CallKeeps(s, e);
    SameSem(s, Next(s, e));
    hide SemOf, Next;
  }

  lemma CallKeeps(s: State, e: Event)
    requires e.CallDown? || e.CallAcquire? || e.CallRelease? || e.CallBroadcast? || e.CallCreate? || e.CallSignal?
    ensures var s' := Next(s, e);
            s'.semas == s.semas && s'.locks == s.locks && s'.owners == s.owners && s'.now == s.now && s'.sleeping == s.sleeping
  {
  }

  lemma EffectWait(s: State, c: nat, l: nat)
    ensures Effect(s, CallWait(c, l), CondWaits(s, c, l))
  {
    var s' := CondWaits(s, c, l);
    assert SameValues(s, s');
    hide SemOf, CondWaits;
  }

  lemma TakeValues(s: State, s': State, id: SemId)
    requires SemOf(s, id).value > 0 && s'.semas == Take(s, id).semas
    ensures forall j :: SemOf(s', j).value == SemOf(s, j).value - One(j == id)
  {
  }

  lemma EffectTryDown(s: State, n: nat, e: Event)
    requires e == CallTryDown(n) || e == InterruptTryDown(n)
    ensures Effect(s, e, TryDowns(s, Counting(n)))
  {
    if SemOf(s, Counting(n)).value > 0 { TakeValues(s, Take(s, Counting(n)), Counting(n)); }
    hide SemOf;
  }

  lemma EffectTryAcquire(s: State, l: nat)
    ensures Effect(s, CallTryAcquire(l), Next(s, CallTryAcquire(l)))
  {
    if SemOf(s, OfLock(l)).value > 0 { TakeValues(s, Passes(s, OfLock(l), None), OfLock(l)); }
    hide SemOf, Raises;
    RaisesNone(s, l);
  }

  lemma RaisesNone(s: State, l: nat)
    ensures forall id :: !Raises(s, CallTryAcquire(l), id)
  {
  }

  lemma EffectOk(s: State, e: Event)
    requires Good(s) && Enabled(s, e)
    ensures Effect(s, e, Next(s, e))
  {
    hide Inv, KnownLocks, OnTime, Effect, Goes, Ticks, Schedule, Sleeps, SemaUp, InsertSleeper;
    match e {
      case Go => EffectGo(s);
      case Tick => EffectTick(s);
      case CallSleep(until) => EffectSleep(s, until);
      case CallYield => EffectGiveUp(s, e);
      case CallExit => EffectGiveUp(s, e);
      case IdleBlocks => EffectGiveUp(s, e);
      case CallUp(n) => EffectUp(s, n, e);
      case InterruptUp(n) => EffectUp(s, n, e);
      case CallTryDown(n) => EffectTryDown(s, n, e);
      case InterruptTryDown(n) => EffectTryDown(s, n, e);
      case CallTryAcquire(l) => EffectTryAcquire(s, l);
      case CallWait(c, l) => EffectWait(s, c, l);
      case _ => EffectCall(s, e);
    }
  }

  /** Only the running thread moves on in the code, to a place that names known locks only. */
  ghost predicate KnownStep(s: State, s': State) {
    && s'.locks == s.locks
    && (forall t :: t in s'.threads ==>
          (t in s.threads && s'.threads[t].doing == s.threads[t].doing) || KnownDoing(s.locks, s'.threads[t].doing))
    && (forall t :: t in s.threads && t != s.cur ==> t in s'.threads && s'.threads[t].doing == s.threads[t].doing)
  }

  lemma KnownGo(s: State)
    requires Inv(s, true) && KnownLocks(s) && Enabled(s, Go)
    ensures KnownStep(s, Goes(s))
  {
    hide Inv, KnownDoing, KnownStep, SetDoing, Signals, SemOf, Ups, Tests;
    IdleFree(s);
    KnownPlain(s.locks);
    match s.threads[s.cur].doing {
      case Down(id, _, lock) => KnownTest(s, id, lock);
      case Up(id, next) => KnownUps(s, id, next);
      case TakeLock(l) => KnownSet(s, s.(holders := s.holders[l := s.cur]), Free);
      case ClearHolder(l, wait) => KnownSet(s, s.(holders := s.holders - {l}), Up(OfLock(l), wait));
      case Looping(c) => KnownCall(s, Go);
      case Start(t) => Startable(s); KnownSet(s, Unblock(s, t), Free);
    }
  }

  lemma KnownSet(s: State, s1: State, d: Doing)
    requires SameDoing(s, s1) && s1.cur == s.cur && s.cur in s.threads && s1.locks == s.locks && KnownDoing(s.locks, d)
    ensures KnownStep(s, SetDoing(s1, d))
  {
  }

  lemma Startable(s: State)
    requires Inv(s, true) && s.cur in s.threads && s.threads[s.cur].doing.Start?
    ensures s.threads[s.cur].doing.t in s.threads
  {
  }

  lemma KnownPlain(locks: set<nat>)
    ensures forall d: Doing :: !d.Down? ==> KnownDoing(locks, d)
  {
  }

  lemma KnownTest(s: State, id: SemId, lock: Option<nat>)
    requires Inv(s, true) && s.cur in s.threads && s.threads[s.cur].doing.Down?
    requires s.threads[s.cur].doing.sem == id && s.threads[s.cur].doing.lock == lock && KnownDoing(s.locks, s.threads[s.cur].doing)
    ensures KnownStep(s, Goes(s))
  {
    hide Inv, SemOf, Schedule;
    if SemOf(s, id).value == 0 {
      ReadyKnown(s);
      ScheduleSwitches(Enqueues(s, id, lock));
    }
  }

  lemma KnownUps(s: State, id: SemId, next: Option<nat>)
    requires Inv(s, true) && s.cur in s.threads && s.cur != s.idle && s.threads[s.cur].doing == Up(id, next)
    ensures KnownStep(s, Goes(s))
  {
    hide Inv, Ups, SemOf;
    UpsShape(s, id, next);
    if id.OfLock? { OwnsKnown(s, id.l); }
  }

  lemma OwnsKnown(s: State, l: nat)
    requires Inv(s, true) && s.cur in s.threads && s.threads[s.cur].doing.Up? && s.threads[s.cur].doing.sem == OfLock(l)
    ensures l in s.locks
  {
    OwnLock(s, l);
  }

  lemma KnownOk(s: State, e: Event)
    requires Good(s) && Enabled(s, e)
    ensures KnownLocks(Next(s, e)) && KnownStep(s, Next(s, e))
  {
    hide Inv, OnTime, Effect, KnownDoing, Goes, Ticks, Schedule, Sleeps, SemaUp, InsertSleeper;
    KnownPlain(s.locks);
    AtLargeRuns(s);
    match e {
      case Go => KnownGo(s);
      case Tick => var k := TickShape(s);
      case CallSleep(until) => KnownSleep(s, until);
      case CallYield => GiveUpSwitches(s, Yields(s));
      case CallExit => GiveUpSwitches(s, Dies(s));
      case IdleBlocks => GiveUpSwitches(s, Blocks(s));
      case CallUp(n) => KnownUp(s, n);
      case InterruptUp(n) => KnownUp(s, n);
      case _ => KnownCall(s, e);
    }
    KnownFrom(s, Next(s, e));
  }

  lemma KnownFrom(s: State, s': State)
    requires KnownLocks(s) && KnownStep(s, s')
    ensures KnownLocks(s')
  {
  }

  lemma KnownSleep(s: State, until: int)
    requires Inv(s, true) && s.cur in s.threads
    ensures KnownStep(s, Next(s, CallSleep(until)))
  {
    hide Inv, Schedule, InsertSleeper;
    ReadyKnown(s);
    ScheduleSwitches(Sleeps(s, until));
  }

  lemma KnownUp(s: State, n: nat)
    requires Inv(s, true)
    ensures KnownStep(s, SemaUp(s, Counting(n)))
  {
    hide SemaUp;
    UpShape(s, Counting(n));
  }

  lemma KnownCall(s: State, e: Event)
    requires s.cur in s.threads && Enabled(s, e)
    requires e.CallDown? || e.CallAcquire? || e.CallRelease? || e.CallBroadcast? || e.CallCreate? || e.CallSignal? || e.CallWait?
      || e.CallTryDown? || e.InterruptTryDown? || e.CallTryAcquire? || (e == Go && s.threads[s.cur].doing.Looping?)
    ensures KnownStep(s, Next(s, e))
  {
    hide SemOf, SetDoing, KnownStep;
    match e {
      case CallDown(n) => KnownSet(s, s, Down(Counting(n), false, None));
      case CallAcquire(l) => KnownSet(s, s, Down(OfLock(l), false, None));
      case CallRelease(l) => KnownSet(s, s, ClearHolder(l, None));
      case CallBroadcast(c, _) => KnownSet(s, s, Looping(c));
      case CallSignal(c, _) => KnownSignal(s, c, None);
      case Go => KnownSignal(s, s.threads[s.cur].doing.c, Some(s.threads[s.cur].doing.c));
      case CallWait(c, l) => KnownWait(s, c, l);
      case CallCreate(t) => KnownCreate(s, t);
      case _ => KnownTake(s, e);
    }
  }

  lemma KnownSignal(s: State, c: nat, next: Option<nat>)
    requires s.cur in s.threads
    ensures KnownStep(s, Signals(s, c, next))
  {
  }

  lemma KnownWait(s: State, c: nat, l: nat)
    requires s.cur in s.threads
    ensures KnownStep(s, CondWaits(s, c, l))
  {
  }

  lemma KnownCreate(s: State, t: Tid)
    requires s.cur in s.threads && t !in s.threads
    ensures KnownStep(s, Creates(s, t))
  {
  }

  lemma KnownTake(s: State, e: Event)
    requires s.cur in s.threads && Enabled(s, e) && (e.CallTryDown? || e.InterruptTryDown? || e.CallTryAcquire?)
    ensures KnownStep(s, Next(s, e))
  {
    hide SemOf;
  }

  lemma OnTimeOk(s: State, e: Event)
    requires Good(s) && Enabled(s, e)
    ensures OnTime(Next(s, e))
  {
    hide Inv, KnownLocks, Next, InsertSleeper;
    EffectOk(s, e);
    if e == Tick {
      NextTick(s);
      var k := TickShape(s);
    } else if e.CallSleep? {
      QueueOk(s);
      var k := InsertedAt(s.sleeping, Sleeper(e.until, s.nextWait, s.now));
    }
  }

  lemma NextTick(s: State)
    ensures Next(s, Tick) == Ticks(s)
  {
  }

  lemma QueueOk(s: State)
    requires Inv(s, true)
    ensures Sorted(s.sleeping) && Distinct(s.sleeping)
  {
  }

  /** Whatever the running thread does and whatever interrupts arrive, the invariant is kept. */
  lemma NextGood(s: State, e: Event)
    requires Good(s) && Enabled(s, e)
    ensures Good(Next(s, e))
  {
    hide Inv, KnownLocks, OnTime, Next, Enabled;
    NextInv(s, e);
    KnownOk(s, e);
    OnTimeOk(s, e);
  }

  lemma TraceStep(ss: seq<State>, es: seq<Event>, i: nat)
    requires Trace(ss, es) && i < |es|
    ensures |ss| == |es| + 1 && Enabled(ss[i], es[i]) && ss[i + 1] == Next(ss[i], es[i])
  {
  }

  lemma {:induction false} TraceGood(ss: seq<State>, es: seq<Event>, i: nat)
    requires Trace(ss, es) && i < |ss|
    ensures Good(ss[i])
  {
    hide Good, Next, Enabled, Init;
    if i == 0 {
      InitGood(ss[0]);
    } else {
      TraceGood(ss, es, i - 1);
      NextGood(ss[i - 1], es[i - 1]);
    }
  }
}
