/** Every step of synch.c and thread.c keeps the invariant of `KernelModel`. */
module KernelSteps {
  import opened Sequences
  import opened KernelModel

  lemma CurRuns(s: State)
    requires SchedInv(s, true)
    ensures s.cur in s.threads && s.threads[s.cur].status == Running
  {
  }

  /** The running thread only moves on in the code. */
  lemma BeginOk(s: State, d: Doing)
    requires Inv(s, true) && s.cur != s.idle && s.threads[s.cur].doing == Free
    requires Plain(d) && Uses(d) == None && Waits(d) == None && Carries(d) == None
    ensures Inv(SetDoing(s, d), true)
  {
    hide SchedInv, WaitInv, StartInv, WakeInv, LockInv, TicketInv, PlaceInv, SleepInv;
    CurRuns(s);
    var s' := SetDoing(s, d);
    MoveCore(s, s', d, Counting(0), SemOf(s, Counting(0)));
    LockMove(s, s', d);
    TicketMove(s, s', d);
    PlaceMove(s, s', d);
    SleepFrame(s, s');
  }

  lemma TryDownOk(s: State, n: nat)
    requires Inv(s, true) && SemOf(s, Counting(n)).value > 0
    ensures Inv(Take(s, Counting(n)), true)
  {
    hide SchedInv, WaitInv, StartInv, WakeInv, LockInv, TicketInv, PlaceInv, SleepInv;
    CurRuns(s);
    var s' := Take(s, Counting(n));
    var d := s.threads[s.cur].doing;
    MoveCore(s, s', d, Counting(n), SemOf(s', Counting(n)));
    LockMove(s, s', d);
    TicketMove(s, s', d);
    PlaceMove(s, s', d);
    SleepFrame(s, s');
  }

  // ----- Semaphores

  ghost predicate SameLists(s: State, s': State) {
    s'.cur == s.cur && s'.idle == s.idle && s'.holders == s.holders && s'.conds == s.conds && s'.sleeping == s.sleeping
    && s'.tickets == s.tickets && s'.nextWait == s.nextWait && s'.owners == s.owners && s'.locks == s.locks
  }

  /** What `sema_up` does: one unit more, and the first waiter ready. */
  lemma UpShape(s: State, id: SemId)
    requires SchedInv(s, true) && WaitInv(s)
    ensures var s' := SemaUp(s, id);
            && SameLists(s, s') && SameDoing(s, s')
            && (forall t :: t in s.threads && !BlockedOn(s, t, id) ==> s'.threads[t] == s.threads[t])
            && (forall j :: SemOf(s', j).value == SemOf(s, j).value + One(j == id))
            && s'.now == s.now && s'.slice == s.slice
            && s'.ready == s.ready + (if SemOf(s, id).waiters == [] then [] else [SemOf(s, id).waiters[0]])
  {
    if SemOf(s, id).waiters != [] { FirstWaiter(s, id); }
  }

  /** `sema_up` on a semaphore by itself, by the running thread or an interrupt handler. */
  lemma RaiseOk(s: State, n: nat)
    requires Inv(s, true)
    ensures Inv(SemaUp(s, Counting(n)), true)
  {
    hide SchedInv, WaitInv, StartInv, WakeInv, LockInv, TicketInv, PlaceInv, SleepInv, SemaUp, SemOf;
    CurRuns(s);
    var s' := SemaUp(s, Counting(n));
    UpCore(s, Counting(n));
    UpShape(s, Counting(n));
    var d := s.threads[s.cur].doing;
    assert Moved(s, s', d);
    LockMove(s, s', d);
    TicketMove(s, s', d);
    PlaceMove(s, s', d);
    SleepFrame(s, s');
  }

  lemma FirstWaiter(s: State, id: SemId)
    requires SchedInv(s, true) && WaitInv(s) && SemOf(s, id).waiters != []
    ensures BlockedOn(s, SemOf(s, id).waiters[0], id) && SemOf(s, id).waiters[0] != s.cur && SemOf(s, id).waiters[0] != s.idle
  {
    assert SemOf(s, id).waiters[0] in SemOf(s, id).waiters;
  }

  /** The loop test of `sema_down` fails: the thread queues up. */
  lemma EnqueueOk(s: State, id: SemId, lock: Option<nat>)
    requires Inv(s, true) && s.cur != s.idle && SemOf(s, id).value == 0
    requires s.threads[s.cur].doing.Down? && s.threads[s.cur].doing.sem == id && s.threads[s.cur].doing.lock == lock
    ensures Inv(Enqueues(s, id, lock), false)
  {
    hide SchedInv, WaitInv, StartInv, WakeInv, LockInv, TicketInv, PlaceInv, SleepInv;
    CurRuns(s);
    var s', d := Enqueues(s, id, lock), Down(id, true, lock);
    EnqueueCore(s, id, lock);
    LockMove(s, s', d);
    TicketMove(s, s', d);
    PlaceMove(s, s', d);
    SleepFrame(s, s');
  }

  /** The loop test of `sema_down` succeeds, or `sema_try_down` does. */
  lemma PassCount(s: State, n: nat, lock: Option<nat>)
    requires Inv(s, true) && s.cur != s.idle && SemOf(s, Counting(n)).value > 0
    requires s.threads[s.cur].doing.Down? && s.threads[s.cur].doing.sem == Counting(n)
    ensures Inv(Passes(s, Counting(n), lock), true)
  {
    hide SchedInv, WaitInv, StartInv, WakeInv, LockInv, TicketInv, PlaceInv, SleepInv;
    CurRuns(s);
    var s' := Passes(s, Counting(n), lock);
    PassCore(s, s', Counting(n), Free);
    LockMove(s, s', Free);
    TicketMove(s, s', Free);
    PlaceMove(s, s', Free);
    SleepFrame(s, s');
  }

  lemma PassLock(s: State, l: nat, lock: Option<nat>)
    requires Inv(s, true) && s.cur != s.idle && SemOf(s, OfLock(l)).value > 0 && l in s.locks
    requires s.threads[s.cur].doing == Free || (s.threads[s.cur].doing.Down? && s.threads[s.cur].doing.sem == OfLock(l))
    ensures Inv(Passes(s, OfLock(l), lock), true)
  {
    hide SchedInv, WaitInv, StartInv, WakeInv, LockInv, TicketInv, PlaceInv, SleepInv;
    CurRuns(s);
    var s', d := Passes(s, OfLock(l), lock), TakeLock(l);
    if s.threads[s.cur].doing == Free {
      MoveCore(s, s', d, OfLock(l), SemOf(s', OfLock(l)));
    } else {
      PassCore(s, s', OfLock(l), d);
    }
    FreeLock(s, l);
    LockStep(s, s', d, l);
    TicketMove(s, s', d);
    PlaceMove(s, s', d);
    SleepFrame(s, s');
  }

  lemma FreeLock(s: State, l: nat)
    requires LockInv(s) && l in s.locks
    ensures SemOf(s, OfLock(l)).value == if l in s.owners then 0 else 1
    ensures l !in s.owners ==> l !in s.holders
  {
    assert LockOk(s, l);
  }

  lemma PassWait(s: State, w: nat, lock: Option<nat>)
    requires Inv(s, true) && s.cur != s.idle && SemOf(s, OfWait(w)).value > 0
    requires s.threads[s.cur].doing.Down? && s.threads[s.cur].doing.sem == OfWait(w)
    ensures Inv(Passes(s, OfWait(w), lock), true)
  {
    hide SchedInv, WaitInv, StartInv, WakeInv, LockInv, TicketInv, PlaceInv, SleepInv;
    CurRuns(s);
    var s' := Passes(s, OfWait(w), lock);
    var d := s'.threads[s.cur].doing;
    PassCore(s, s', OfWait(w), d);
    PostedTicket(s, w);
    LockMove(s, s', d);
    TicketGone(s, s', d, w);
    PlaceMove(s, s', d);
    SleepFrame(s, s');
  }

  lemma PostedTicket(s: State, w: nat)
    requires TicketInv(s) && s.cur in s.threads && Waits(s.threads[s.cur].doing) == Some(w)
    ensures w in s.tickets && s.tickets[w].owner == s.cur
    ensures SemOf(s, OfWait(w)).value == One(s.tickets[w].place == Posted)
  {
  }

  lemma NotPosted(s: State, w: nat)
    requires TicketInv(s) && w in s.tickets && s.tickets[w].place != Posted
    ensures SemOf(s, OfWait(w)).value == 0
  {
  }

  // ----- Locks

  lemma OwnLock(s: State, l: nat)
    requires LockInv(s) && s.cur in s.threads && (Uses(s.threads[s.cur].doing) == Some(l) || Holder(s, l) == Some(s.cur))
    ensures Owns(s, s.cur, l) && l in s.locks && SemOf(s, OfLock(l)).value == 0
    ensures Holder(s, l) == if Between(s.threads[s.cur].doing, l) then None else Some(s.cur)
  {
    assert LockOk(s, l);
  }

  /** `lock->holder = thread_current ()`. */
  lemma TakeOk(s: State, l: nat)
    requires Inv(s, true) && s.cur != s.idle && s.threads[s.cur].doing == TakeLock(l)
    ensures Inv(SetDoing(s.(holders := s.holders[l := s.cur]), Free), true)
  {
    hide SchedInv, WaitInv, StartInv, WakeInv, LockInv, TicketInv, PlaceInv, SleepInv;
    CurRuns(s);
    var s' := SetDoing(s.(holders := s.holders[l := s.cur]), Free);
    MoveCore(s, s', Free, OfLock(l), SemOf(s, OfLock(l)));
    OwnLock(s, l);
    LockStep(s, s', Free, l);
    TicketMove(s, s', Free);
    PlaceMove(s, s', Free);
    SleepFrame(s, s');
  }

  lemma ReleaseOk(s: State, l: nat)
    requires Inv(s, true) && s.cur != s.idle && s.threads[s.cur].doing == Free && Holder(s, l) == Some(s.cur)
    ensures Inv(SetDoing(s, ClearHolder(l, None)), true)
  {
    hide SchedInv, WaitInv, StartInv, WakeInv, LockInv, TicketInv, PlaceInv, SleepInv;
    CurRuns(s);
    var d := ClearHolder(l, None);
    var s' := SetDoing(s, d);
    MoveCore(s, s', d, OfLock(l), SemOf(s, OfLock(l)));
    OwnLock(s, l);
    LockStep(s, s', d, l);
    TicketMove(s, s', d);
    PlaceMove(s, s', d);
    SleepFrame(s, s');
  }

  /** `lock->holder = NULL`. */
  lemma ClearOk(s: State, l: nat, wait: Option<nat>)
    requires Inv(s, true) && s.cur != s.idle && s.threads[s.cur].doing == ClearHolder(l, wait)
    ensures Inv(SetDoing(s.(holders := s.holders - {l}), Up(OfLock(l), wait)), true)
  {
    hide SchedInv, WaitInv, StartInv, WakeInv, LockInv, TicketInv, PlaceInv, SleepInv;
    CurRuns(s);
    var d := Up(OfLock(l), wait);
    var s' := SetDoing(s.(holders := s.holders - {l}), d);
    MoveCore(s, s', d, OfLock(l), SemOf(s, OfLock(l)));
    OwnLock(s, l);
    LockStep(s, s', d, l);
    TicketMove(s, s', d);
    PlaceMove(s, s', d);
    SleepFrame(s, s');
  }

  lemma UpLockOk(s: State, l: nat, next: Option<nat>)
    requires Inv(s, true) && s.cur != s.idle && s.threads[s.cur].doing == Up(OfLock(l), next)
    ensures Inv(Ups(s, OfLock(l), next), true)
  {
    hide SchedInv, WaitInv, StartInv, WakeInv, LockInv, TicketInv, PlaceInv, SleepInv, SemaUp, SemOf, Ups;
    CurRuns(s);
    var s' := Ups(s, OfLock(l), next);
    var d := UpsTo(OfLock(l), next);
    UpsShape(s, OfLock(l), next);
    OwnLock(s, l);
    LockStep(s, s', d, l);
    TicketMove(s, s', d);
    PlaceMove(s, s', d);
    SleepFrame(s, s');
  }

  function UpsTo(id: SemId, next: Option<nat>): Doing {
    match id
    case Counting(_) => Free
    case OfLock(l) => if next.Some? then Down(OfWait(next.value), false, Some(l)) else Free
    case OfWait(w) => if next.Some? then Looping(next.value) else Free
  }

  /** What `sema_up` in `lock_release` and `cond_signal` does. */
  lemma UpsShape(s: State, id: SemId, next: Option<nat>)
    requires Inv(s, true) && s.cur != s.idle && s.threads[s.cur].doing == Up(id, next)
    ensures Core(Ups(s, id, next), true)
    ensures var s', d := Ups(s, id, next), UpsTo(id, next);
            && s.cur in s.threads && Moved(s, s', d) && s'.now == s.now
            && SameLists(s, s'.(tickets := s.tickets, owners := s.owners))
            && s'.owners == (if id.OfLock? then s.owners - {id.l} else s.owners)
            && s'.tickets == (if id.OfWait? then Post(s, id.w).tickets else s.tickets)
            && (forall t :: t in s.threads && t != s.cur && !BlockedOn(s, t, id) ==> s'.threads[t] == s.threads[t])
            && (forall j :: SemOf(s', j).value == SemOf(s, j).value + One(j == id))
  {
    hide SchedInv, WaitInv, StartInv, WakeInv, LockInv, TicketInv, PlaceInv, SleepInv, SemaUp, SemOf, UpsTo;
    CurRuns(s);
    UpShape(s, id);
    UpsMoves(s, id, next);
    UpsCore(s, id, next);
    SameSem(SemaUp(s, id), Ups(s, id, next));
    hide Ups;
  }

  lemma UpsMoves(s: State, id: SemId, next: Option<nat>)
    ensures var s1, s' := SemaUp(s, id), Ups(s, id, next);
            && s' == SetDoing(s1, UpsTo(id, next)).(tickets := s'.tickets, owners := s'.owners)
            && s'.owners == (if id.OfLock? then s.owners - {id.l} else s1.owners)
            && s'.tickets == (if id.OfWait? then Post(s1, id.w).tickets else s1.tickets)
  {
    hide SemaUp;
    match id {
      case Counting(_) =>
      case OfLock(_) =>
      case OfWait(w) => assert Post(SemaUp(s, id), w).threads == SemaUp(s, id).threads;
    }
  }

  lemma UpsCore(s: State, id: SemId, next: Option<nat>)
    requires Core(s, true) && s.cur in s.threads && s.cur != s.idle && s.threads[s.cur].doing == Up(id, next)
    ensures Core(Ups(s, id, next), true)
  {
    hide WaitInv, StartInv, WakeInv, SemaUp, SemOf, Ups;
    UpCore(s, id);
    UpShape(s, id);
    UpsMoves(s, id, next);
    var s1, s' := SemaUp(s, id), Ups(s, id, next);
    CurRuns(s1);
    SameSem(s1, s');
    MoveCore(s1, s', UpsTo(id, next), id, SemOf(s1, id));
  }

  lemma SameSem(s: State, s': State)
    requires s.semas == s'.semas
    ensures forall id :: SemOf(s', id) == SemOf(s, id)
  {
  }

  // ----- Condition variables

  lemma UpWaitOk(s: State, w: nat, next: Option<nat>)
    requires Inv(s, true) && s.cur != s.idle && s.threads[s.cur].doing == Up(OfWait(w), next)
    ensures Inv(Ups(s, OfWait(w), next), true)
  {
    hide SchedInv, WaitInv, StartInv, WakeInv, LockInv, TicketInv, PlaceInv, SleepInv, SemaUp, SemOf, Ups;
    CurRuns(s);
    var s' := Ups(s, OfWait(w), next);
    var d := UpsTo(OfWait(w), next);
    UpsShape(s, OfWait(w), next);
    CarriedTicket(s, w);
    LockMove(s, s', d);
    TicketMove(s, s', d);
    PlacePosted(s, s', d, w);
    SleepFrame(s, s');
  }

  lemma CarriedTicket(s: State, w: nat)
    requires PlaceInv(s) && s.cur in s.threads && Carries(s.threads[s.cur].doing) == Some(w)
    ensures w in s.tickets && s.tickets[w].place == Carried(s.cur)
  {
  }

  lemma CondWaitOk(s: State, c: nat, l: nat)
    requires Inv(s, true) && s.cur != s.idle && s.threads[s.cur].doing == Free && Holder(s, l) == Some(s.cur)
    ensures Inv(CondWaits(s, c, l), true)
  {
    hide SchedInv, WaitInv, StartInv, WakeInv, LockInv, TicketInv, PlaceInv, SleepInv;
    CurRuns(s);
    var s', d, w := CondWaits(s, c, l), ClearHolder(l, Some(s.nextWait)), s.nextWait;
    NewTicket(s);
    MoveCore(s, s', d, OfWait(w), Sema(0, []));
    OwnLock(s, l);
    LockStep(s, s', d, l);
    TicketNew(s, s', d, Listed(c));
    PlaceListed(s, s', d, c, w);
    SleepFrame(s, s');
  }

  lemma Head(q: seq<Tid>)
    ensures q == [] || q[0] in q
  {
  }

  lemma NewTicket(s: State)
    requires TicketInv(s) && WaitInv(s)
    ensures s.nextWait !in s.tickets && SemOf(s, OfWait(s.nextWait)).waiters == []
  {
    var q := SemOf(s, OfWait(s.nextWait)).waiters;
    Head(q);
  }

  lemma SignalOk(s: State, c: nat, next: Option<nat>)
    requires Inv(s, true) && s.cur != s.idle && (s.threads[s.cur].doing == Free || s.threads[s.cur].doing.Looping?)
    ensures Inv(Signals(s, c, next), true)
  {
    if Waiting(s, c) == [] {
      LoopEndOk(s);
    } else {
      SignalFirstOk(s, c, next);
    }
  }

  lemma LoopEndOk(s: State)
    requires Inv(s, true) && s.cur != s.idle && (s.threads[s.cur].doing == Free || s.threads[s.cur].doing.Looping?)
    ensures Inv(SetDoing(s, Free), true)
  {
    hide SchedInv, WaitInv, StartInv, WakeInv, LockInv, TicketInv, PlaceInv, SleepInv;
    CurRuns(s);
    var s' := SetDoing(s, Free);
    MoveCore(s, s', Free, OfLock(0), SemOf(s, OfLock(0)));
    LockMove(s, s', Free);
    TicketMove(s, s', Free);
    PlaceMove(s, s', Free);
    SleepFrame(s, s');
  }

  lemma SignalFirstOk(s: State, c: nat, next: Option<nat>)
    requires Inv(s, true) && s.cur != s.idle && (s.threads[s.cur].doing == Free || s.threads[s.cur].doing.Looping?)
    requires Waiting(s, c) != []
    ensures Inv(Signals(s, c, next), true)
  {
    hide SchedInv, WaitInv, StartInv, WakeInv, LockInv, TicketInv, PlaceInv, SleepInv, Signals, Waiting, SemOf;
    CurRuns(s);
    ListedTicket(s, c);
    var s', w := Signals(s, c, next), Waiting(s, c)[0];
    var d := Up(OfWait(w), next);
    SignalShape(s, c, next);
    SameSem(s, s');
    MoveCore(s, s', d, OfLock(0), SemOf(s, OfLock(0)));
    LockMove(s, s', d);
    TicketMove(s, s', d);
    PlaceSignalled(s, s', d, c, w);
    SleepFrame(s, s');
  }

  lemma SignalShape(s: State, c: nat, next: Option<nat>)
    requires Waiting(s, c) != [] && Waiting(s, c)[0] in s.tickets && s.cur in s.threads && s.threads[s.cur].status == Running
    ensures var s', w := Signals(s, c, next), Waiting(s, c)[0];
            && s'.semas == s.semas && s'.ready == s.ready && s'.slice == s.slice
            && SameLists(s, s'.(conds := s.conds, tickets := s.tickets))
            && s'.threads == s.threads[s.cur := Thread(Running, Up(OfWait(w), next))]
            && s'.conds == s.conds[c := Waiting(s, c)[1..]]
            && s'.tickets == s.tickets[w := s.tickets[w].(place := Carried(s.cur))]
  {
  }

  lemma ListedTicket(s: State, c: nat)
    requires PlaceInv(s) && Waiting(s, c) != []
    ensures Waiting(s, c)[0] in s.tickets && s.tickets[Waiting(s, c)[0]].place == Listed(c)
  {
    assert Waiting(s, c)[0] in s.conds[c];
  }

  // ----- Threads

  /** A thread gives the processor away, to be ready, blocked or dying. */
  lemma GiveUpKept(s: State, s': State)
    requires Inv(s, true)
    requires s' == Yields(s) || (s' == Blocks(s) && s.cur == s.idle) || (s' == Dies(s) && s.cur != s.idle && s.threads[s.cur].doing == Free)
    ensures Inv(s', false)
  {
    hide SchedInv, WaitInv, StartInv, WakeInv, LockInv, TicketInv, PlaceInv, SleepInv, Yields, Blocks, Dies;
    GivesUp(s, s');
    PlacesFrame(s, s');
    BlockedFrame(s, s');
  }

  lemma GiveUpOk(s: State, s': State)
    requires Inv(s, true)
    requires s' == Yields(s) || (s' == Blocks(s) && s.cur == s.idle) || (s' == Dies(s) && s.cur != s.idle && s.threads[s.cur].doing == Free)
    ensures Inv(Schedule(s'), true)
  {
    hide *;
    GiveUpKept(s, s');
    ScheduleOk(s');
  }

  lemma GivesUp(s: State, s': State)
    requires SchedInv(s, true)
    requires s' == Yields(s) || (s' == Blocks(s) && s.cur == s.idle) || (s' == Dies(s) && s.cur != s.idle && s.threads[s.cur].doing == Free)
    ensures SchedInv(s', false) && SameDoing(s, s') && SameRest(s, s') && SameBlocked(s, s')
    ensures s.idle in s.threads && s.threads[s.idle].doing == Free
  {
    if s' == Yields(s) {
      assert s'.ready == if s.cur != s.idle then s.ready + [s.cur] else s.ready;
    } else {
      assert s'.ready == s.ready;
    }
  }

  ghost predicate Added(s: State, s': State, t: Tid) {
    t !in s.threads && s' == s.(threads := s.threads[t := Thread(Blocked, Free)])
  }

  lemma AddedCore(s: State, s': State, t: Tid)
    requires Core(s, true) && Added(s, s', t)
    ensures Core(s', true)
  {
    AddedWait(s, s', t);
    hide WaitInv;
    assert SchedInv(s', true) by { hide StartInv, WakeInv; }
    assert StartInv(s') by { hide WakeInv; }
    forall id ensures Woken(s', id) == Woken(s, id) { }
  }

  lemma AddedWait(s: State, s': State, t: Tid)
    requires WaitInv(s) && Added(s, s', t)
    ensures WaitInv(s')
  {
    forall id ensures SemOf(s', id) == SemOf(s, id) && NoDup(SemOf(s', id).waiters) { }
    forall id, u ensures u in SemOf(s', id).waiters <==> BlockedOn(s', u, id) {
      assert BlockedOn(s', u, id) == BlockedOn(s, u, id);
    }
  }

  lemma AddedLock(s: State, s': State, t: Tid)
    requires LockInv(s) && Added(s, s', t)
    ensures LockInv(s')
  {
    forall k: nat ensures LockOk(s', k) { assert LockOk(s, k); }
  }

  lemma AddedTicket(s: State, s': State, t: Tid)
    requires TicketInv(s) && Added(s, s', t)
    ensures TicketInv(s')
  {
    assert Waits(Free) == None;
    hide Waits;
  }

  lemma AddedPlace(s: State, s': State, t: Tid)
    requires PlaceInv(s) && Added(s, s', t)
    ensures PlaceInv(s')
  {
    assert Carries(Free) == None;
    hide Carries;
  }

  /** `init_thread`: a blocked thread on no list. */
  lemma AddThread(s: State, t: Tid)
    requires Inv(s, true) && t !in s.threads
    ensures Inv(s.(threads := s.threads[t := Thread(Blocked, Free)]), true)
  {
    hide SchedInv, WaitInv, StartInv, WakeInv, LockInv, TicketInv, PlaceInv, SleepInv;
    var s' := s.(threads := s.threads[t := Thread(Blocked, Free)]);
    AddedCore(s, s', t);
    AddedLock(s, s', t);
    AddedTicket(s, s', t);
    AddedPlace(s, s', t);
    SleepFrame(s, s');
  }

  /** `thread_create` up to `thread_unblock`. */
  lemma CreateOk(s: State, t: Tid)
    requires Inv(s, true) && s.cur != s.idle && s.threads[s.cur].doing == Free && t !in s.threads
    ensures Inv(Creates(s, t), true)
  {
    hide SchedInv, WaitInv, StartInv, WakeInv, LockInv, TicketInv, PlaceInv, SleepInv;
    AddThread(s, t);
    CurRuns(s);
    var s1, s' := s.(threads := s.threads[t := Thread(Blocked, Free)]), Creates(s, t);
    StartKept(s, t);
    MoveWaits(s1, s', s.cur, Thread(Running, Start(t)));
    LockMove(s1, s', Start(t));
    TicketMove(s1, s', Start(t));
    PlaceMove(s1, s', Start(t));
    SleepFrame(s1, s');
  }

  /** A thread that waits for no semaphore changes. */
  lemma MoveWaits(s: State, s': State, t: Tid, th: Thread)
    requires WaitInv(s) && WakeInv(s)
    requires t in s.threads && s'.threads == s.threads[t := th] && s'.semas == s.semas && s'.idle == s.idle && s'.slice == s.slice && s'.cur == s.cur
    requires !s.threads[t].doing.Down? && !th.doing.Down?
    ensures WaitInv(s') && WakeInv(s')
  {
    var id := Counting(0);
    ChangeWait(s, s', t, th, id, SemOf(s, id));
    ChangeWake(s, s', t, th, id, SemOf(s, id));
  }

  lemma StartKept(s: State, t: Tid)
    requires SchedInv(s, true) && StartInv(s) && t !in s.threads && s.cur != s.idle
    ensures SchedInv(Creates(s, t), true) && StartInv(Creates(s, t))
  {
    var s' := Creates(s, t);
    assert SchedInv(s', true) by { hide StartInv; }
    assert StartInv(s') by { hide NoDup; }
  }

  /** `thread_create` ends with `thread_unblock`. */
  lemma StartOk(s: State, t: Tid)
    requires Inv(s, true) && s.cur != s.idle && s.threads[s.cur].doing == Start(t)
    ensures Inv(SetDoing(Unblock(s, t), Free), true)
  {
    hide SchedInv, WaitInv, StartInv, WakeInv, LockInv, TicketInv, PlaceInv, SleepInv;
    var s1, s' := SetDoing(s, Free), SetDoing(Unblock(s, t), Free);
    Started(s, t);
    CurRuns(s);
    MoveWaits(s, s1, s.cur, Thread(Running, Free));
    MoveWaits(s1, s', t, Thread(Ready, Free));
    LockMove(s, s', Free);
    TicketMove(s, s', Free);
    PlaceMove(s, s', Free);
    SleepFrame(s, s');
  }

  lemma Started(s: State, t: Tid)
    requires SchedInv(s, true) && StartInv(s) && s.cur != s.idle && s.threads[s.cur].doing == Start(t)
    ensures var s' := SetDoing(Unblock(s, t), Free); SchedInv(s', true) && StartInv(s')
    ensures t in s.threads && t != s.cur && s.threads[t] == Thread(Blocked, Free) && s.threads[s.cur].status == Running
  {
    var s' := SetDoing(Unblock(s, t), Free);
    assert t in s.threads && t != s.cur && t != s.idle && s.threads[t].status == Blocked;
    assert SchedInv(s', true) by { hide StartInv; }
    assert StartInv(s') by { hide SchedInv; }
  }

  // ----- The sleep queue

  lemma SleepOk(s: State, until: int)
    requires Inv(s, true) && s.cur != s.idle && s.threads[s.cur].doing == Free
    ensures Inv(Sleeps(s, until), false)
  {
    hide SchedInv, WaitInv, StartInv, WakeInv, LockInv, TicketInv, PlaceInv, SleepInv, InsertSleeper;
    CurRuns(s);
    NewTicket(s);
    var w, s', e := s.nextWait, Sleeps(s, until), Sleeper(until, s.nextWait, s.now);
    var d := Down(OfWait(w), true, None);
    var s0 := s.(semas := s.semas[OfWait(w) := Sema(0, [])], nextWait := w + 1, sleeping := InsertSleeper(s.sleeping, e),
                 tickets := s.tickets[w := Ticket(s.cur, Asleep)]);
    MoveCore(s, s0, Free, OfWait(w), Sema(0, []));
    EnqueueCore(s0, OfWait(w), None);
    LockMove(s, s', d);
    TicketNew(s, s', d, Asleep);
    PlaceMove(s, s', d);
    SleepNew(s, s', e);
  }

  /** What the wake-up of the first sleeper does. */
  lemma WakeFirstShape(s: State)
    requires Inv(s, true) && s.sleeping != []
    ensures var w, s' := s.sleeping[0].w, WakeFirst(s);
            && AsleepTicket(s, w) && s.tickets[w].owner in s.threads && s.tickets[w].owner != s.cur
            && s'.ready == s.ready + [s.tickets[w].owner] && s'.sleeping == s.sleeping[1..]
            && s'.tickets == s.tickets[w := s.tickets[w].(place := Posted)]
            && SameLists(s, s'.(sleeping := s.sleeping, tickets := s.tickets)) && SameDoing(s, s')
            && (forall t :: t in s.threads && t != s.tickets[w].owner ==> s'.threads[t] == s.threads[t])
            && (forall j :: SemOf(s', j).value == SemOf(s, j).value + One(j == OfWait(w)))
            && s'.now == s.now && s'.slice == s.slice
    ensures Core(WakeFirst(s), true)
  {
    hide SchedInv, WaitInv, StartInv, WakeInv, LockInv, TicketInv, PlaceInv, SleepInv, SemaUp, SemOf;
    CurRuns(s);
    var w := s.sleeping[0].w;
    var d := s.threads[s.cur].doing;
    var s0 := s.(sleeping := s.sleeping[1..]);
    FirstSleeper(s);
    SameSem(s, s0);
    MoveCore(s, s0, d, OfWait(w), SemOf(s, OfWait(w)));
    var s1, s' := SemaUp(s0, OfWait(w)), WakeFirst(s);
    UpCore(s0, OfWait(w));
    UpShape(s0, OfWait(w));
    assert forall t :: BlockedOn(s0, t, OfWait(w)) == BlockedOn(s, t, OfWait(w));
    assert s' == s1.(tickets := s.tickets[w := s.tickets[w].(place := Posted)]);
    hide WakeFirst, Post;
    SameSem(s1, s');
    CurRuns(s1);
    MoveCore(s1, s', d, OfWait(w), SemOf(s1, OfWait(w)));
  }

  lemma WakeFirstOk(s: State)
    requires Inv(s, true) && s.sleeping != []
    ensures Inv(WakeFirst(s), true)
  {
    hide SchedInv, WaitInv, StartInv, WakeInv, LockInv, TicketInv, PlaceInv, SleepInv, WakeFirst, SemOf;
    CurRuns(s);
    WakeFirstShape(s);
    var s', d, w := WakeFirst(s), s.threads[s.cur].doing, s.sleeping[0].w;
    LockMove(s, s', d);
    TicketMove(s, s', d);
    PlaceMove(s, s', d);
    SleepLess(s, s', s.tickets[w].owner);
  }

  /** The first of the sleep queue is the only one on the list of its semaphore. */
  lemma FirstSleeper(s: State)
    requires SchedInv(s, true) && WaitInv(s) && TicketInv(s) && SleepInv(s) && s.sleeping != []
    ensures var w := s.sleeping[0].w;
            && AsleepTicket(s, w) && s.tickets[w].owner in s.threads && s.tickets[w].owner != s.cur
            && (forall t :: BlockedOn(s, t, OfWait(w)) ==> t == s.tickets[w].owner)
            && SemOf(s, OfWait(w)).waiters == [s.tickets[w].owner]
  {
    var w := s.sleeping[0].w;
    assert InQueue(s.sleeping, w);
    var q, t := SemOf(s, OfWait(w)).waiters, s.tickets[w].owner;
    assert BlockedOn(s, t, OfWait(w));
    assert forall u :: u in q ==> BlockedOn(s, u, OfWait(w)) && u == t;
    Singleton(q, t);
  }

  lemma Singleton(q: seq<Tid>, t: Tid)
    requires NoDup(q) && t in q && forall u :: u in q ==> u == t
    ensures q == [t]
  {
    forall i | 0 <= i < |q| ensures q[i] == t { assert q[i] in q; }
    if |q| > 1 { TwoDiffer(q); }
  }

  lemma TwoDiffer(q: seq<Tid>)
    requires NoDup(q) && |q| > 1
    ensures q[0] != q[1]
  {
  }

  /** The wake-up loop made the first `k` sleepers ready, in their order; their time was over, and that of no others. */
  ghost predicate Woke(s: State, s': State, k: nat) {
    && k <= |s.sleeping| && s'.sleeping == s.sleeping[k..]
    && (forall i :: 0 <= i < k ==> s.sleeping[i].wakeup < s.now)
    && (forall i :: k <= i < |s.sleeping| ==> s.sleeping[i].wakeup >= s.now)
    && s'.slice == s.slice && s'.now == s.now && s.ready <= s'.ready && SameDoing(s, s')
    && |s'.ready| == |s.ready| + k
    && (forall i :: 0 <= i < k ==>
          s.sleeping[i].w in s.tickets && s'.ready[|s.ready| + i] == s.tickets[s.sleeping[i].w].owner)
    && SameLists(s, s'.(sleeping := s.sleeping, tickets := s.tickets))
    && (forall id: SemId :: !id.OfWait? ==> SemOf(s', id).value == SemOf(s, id).value)
  }

  lemma {:induction false} WakeAllOk(s: State) returns (k: nat)
    requires Inv(s, true)
    ensures Inv(WakeAll(s), true) && Woke(s, WakeAll(s), k)
    decreases |s.sleeping|
  {
    hide Inv, Woke, WakeFirst, SemOf;
    if s.sleeping == [] || s.sleeping[0].wakeup >= s.now {
      k := 0;
      WokeNone(s);
    } else {
      WakeFirstOk(s);
      WakeFirstShape(s);
      var n := WakeAllOk(WakeFirst(s));
      k := n + 1;
      WokeMore(s, WakeFirst(s), WakeAll(s), n);
    }
  }

  lemma WokeNone(s: State)
    requires Inv(s, true) && (s.sleeping == [] || s.sleeping[0].wakeup >= s.now)
    ensures Woke(s, s, 0)
  {
    QueueSorted(s);
    hide Inv;
  }

  lemma WokeMore(s: State, s1: State, s': State, n: nat)
    requires s.sleeping != [] && s.sleeping[0].wakeup < s.now && s1.sleeping == s.sleeping[1..] && Woke(s1, s', n)
    requires s1.slice == s.slice && s1.now == s.now && SameDoing(s, s1)
    requires s.sleeping[0].w in s.tickets && s1.ready == s.ready + [s.tickets[s.sleeping[0].w].owner]
    requires s1.tickets == s.tickets[s.sleeping[0].w := s.tickets[s.sleeping[0].w].(place := Posted)]
    requires SameLists(s, s1.(sleeping := s.sleeping, tickets := s.tickets))
    requires forall id: SemId :: !id.OfWait? ==> SemOf(s1, id).value == SemOf(s, id).value
    ensures Woke(s, s', n + 1)
  {
    hide SemOf;
    var q := s.sleeping;
    assert q[1..][n..] == q[n + 1..];
    forall i | 0 < i < |q| ensures q[i] == s1.sleeping[i - 1] { }
    forall i | 0 <= i <= n ensures q[i].w in s.tickets && s'.ready[|s.ready| + i] == s.tickets[q[i].w].owner {
      if i > 0 {
        assert s'.ready[|s1.ready| + (i - 1)] == s1.tickets[s1.sleeping[i - 1].w].owner;
      } else {
        assert s'.ready[|s.ready|] == s1.ready[|s.ready|];
      }
    }
  }

  lemma QueueSorted(s: State)
    requires SleepInv(s)
    ensures Sorted(s.sleeping)
  {
  }

  lemma TickOk(s: State)
    requires Inv(s, true)
    ensures Inv(Ticks(s), true)
  {
    hide WakeAll, Inv;
    var s0 := s.(now := s.now + 1);
    SliceOk(s);
    NowFrame(s, s0);
    var k := WakeAllOk(s0);
    var s1 := WakeAll(s0);
    if s1.slice + 1 >= TIME_SLICE {
      GiveUpOk(s1, Yields(s1));
      assert Ticks(s) == Schedule(Yields(s1));
    } else {
      NowFrame(s1, s1.(slice := s1.slice + 1));
    }
  }

  lemma SliceOk(s: State)
    requires Inv(s, true)
    ensures s.slice < TIME_SLICE
  {
  }

  /** Only the clock and the time slice differ. */
  lemma NowFrame(s: State, s': State)
    requires Inv(s, true) && s' == s.(now := s'.now, slice := s'.slice) && s'.slice < TIME_SLICE
    ensures Inv(s', true)
  {
    hide WaitInv, StartInv, WakeInv, LockInv, TicketInv, PlaceInv, SleepInv;
    PlacesFrame(s, s');
    BlockedFrame(s, s');
  }
}
