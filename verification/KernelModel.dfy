/**
 Threads, semaphores, locks, condition variables and the sleep queue
 (threads/thread.c, threads/synch.c) as one state machine.  Every body that runs
 with interrupts off is one step; between two steps any interrupt may arrive and
 any thread switch it causes may happen.
 */
module KernelModel {
  import opened Sequences

  const TIME_SLICE: nat := 4

  type Tid = nat

  datatype Status = Running | Ready | Blocked | Dying

  /** A semaphore by itself, the one inside a lock, or the one on the stack of a thread in `cond_wait` or `thread_sleep`. */
  datatype SemId = Counting(n: nat) | OfLock(l: nat) | OfWait(w: nat)

  /** Where a thread is in the code of synch.c. */
  datatype Doing =
    | Free                                                    // in its own code
    | Down(sem: SemId, woken: bool, lock: Option<nat>)        // at the test of sema_down; `lock` to acquire afterwards
    | TakeLock(l: nat)                                        // before lock->holder = thread_current ()
    | ClearHolder(l: nat, wait: Option<nat>)                  // before lock->holder = NULL
    | Up(sem: SemId, next: Option<nat>)                       // before sema_up; then the wait, or the broadcast, to go on with
    | Looping(c: nat)                                         // at the loop test of cond_broadcast
    | Start(t: Tid)                                           // in thread_create, before thread_unblock

  datatype Thread = Thread(status: Status, doing: Doing)

  datatype Sema = Sema(value: nat, waiters: seq<Tid>)

  /** `since` is history: the time of the call of `thread_sleep`. */
  datatype Sleeper = Sleeper(wakeup: int, w: nat, since: nat)

  /** History of a semaphore on a stack: whose it is and what became of the one signal it waits for. */
  datatype Where = Listed(c: nat) | Asleep | Carried(signaller: Tid) | Posted
  datatype Ticket = Ticket(owner: Tid, place: Where)

  /** `owners` is history too: who took a lock's semaphore and has not given it back. */
  datatype State = State(
    threads: map<Tid, Thread>, cur: Tid, idle: Tid, ready: seq<Tid>,
    semas: map<SemId, Sema>, holders: map<nat, Tid>, conds: map<nat, seq<nat>>,
    sleeping: seq<Sleeper>, now: nat, slice: nat,
    nextWait: nat, tickets: map<nat, Ticket>, locks: set<nat>, owners: map<nat, Tid>)

  // ----- thread.c

  function ThreadOf(s: State, t: Tid): Thread { if t in s.threads then s.threads[t] else Thread(Dying, Free) }

  function SetStatus(s: State, t: Tid, st: Status): State {
    s.(threads := s.threads[t := ThreadOf(s, t).(status := st)])
  }

  function SetDoing(s: State, d: Doing): State {
    s.(threads := s.threads[s.cur := ThreadOf(s, s.cur).(doing := d)])
  }

  function NextThread(s: State): Tid { if s.ready == [] then s.idle else s.ready[0] }

  /** `schedule` and `thread_schedule_tail`. */
  function Schedule(s: State): State {
    SetStatus(s.(ready := if s.ready == [] then [] else s.ready[1..], cur := NextThread(s), slice := 0), NextThread(s), Running)
  }

  function Unblock(s: State, t: Tid): State {
    SetStatus(s.(ready := s.ready + [t]), t, Ready)
  }

  /** What the running thread does to itself before `schedule`. */
  function Blocks(s: State): State {
    SetStatus(s, s.cur, Blocked)
  }

  function Yields(s: State): State {
    SetStatus(s.(ready := if s.cur != s.idle then s.ready + [s.cur] else s.ready), s.cur, Ready)
  }

  function Dies(s: State): State {
    SetStatus(s, s.cur, Dying)
  }

  /** `thread_create` up to the call of `thread_unblock`. */
  function Creates(s: State, t: Tid): State {
    SetDoing(s.(threads := s.threads[t := Thread(Blocked, Free)]), Start(t))
  }

  // ----- synch.c

  function SemOf(s: State, id: SemId): Sema { if id in s.semas then s.semas[id] else Sema(0, []) }

  function SemaUp(s: State, id: SemId): State {
    var q := SemOf(s, id);
    var s1 := if q.waiters == [] then s else Unblock(s, q.waiters[0]);
    s1.(semas := s.semas[id := Sema(q.value + 1, if q.waiters == [] then [] else q.waiters[1..])])
  }

  /** `value--`. */
  function Take(s: State, id: SemId): State
    requires SemOf(s, id).value > 0
  {
    s.(semas := s.semas[id := Sema(SemOf(s, id).value - 1, SemOf(s, id).waiters)])
  }

  function Holder(s: State, l: nat): Option<Tid> { if l in s.holders then Some(s.holders[l]) else None }

  /** The loop test of `sema_down` found the value zero. */
  function Enqueues(s: State, id: SemId, lock: Option<nat>): State {
    SetDoing(Blocks(s.(semas := s.semas[id := Sema(SemOf(s, id).value, SemOf(s, id).waiters + [s.cur])])),
             Down(id, true, lock))
  }

  /** The loop test of `sema_down` found the value positive. */
  function Passes(s: State, id: SemId, lock: Option<nat>): State
    requires SemOf(s, id).value > 0
  {
    match id
    case Counting(_) => SetDoing(Take(s, id), Free)
    case OfLock(l) => SetDoing(Take(s, id).(owners := s.owners[l := s.cur]), TakeLock(l))
    case OfWait(w) => SetDoing(Take(s, id).(tickets := s.tickets - {w}),
                               if lock.Some? then Down(OfLock(lock.value), false, None) else Free)
  }

  /** `sema_up` with what follows it in its caller. */
  function Ups(s: State, id: SemId, next: Option<nat>): State {
    var s1 := SemaUp(s, id);
    match id
    case Counting(_) => SetDoing(s1, Free)
    case OfLock(l) => SetDoing(s1.(owners := s.owners - {l}),
                               if next.Some? then Down(OfWait(next.value), false, Some(l)) else Free)
    case OfWait(w) => SetDoing(Post(s1, w), if next.Some? then Looping(next.value) else Free)
  }

  function Post(s: State, w: nat): State {
    if w in s.tickets then s.(tickets := s.tickets[w := s.tickets[w].(place := Posted)]) else s
  }

  function Waiting(s: State, c: nat): seq<nat> { if c in s.conds then s.conds[c] else [] }

  /** `cond_signal` up to the call of `sema_up`. */
  function Signals(s: State, c: nat, next: Option<nat>): State {
    if Waiting(s, c) == [] then SetDoing(s, Free)
    else
      var w := Waiting(s, c)[0];
      var s1 := s.(conds := s.conds[c := Waiting(s, c)[1..]],
                   tickets := if w in s.tickets then s.tickets[w := s.tickets[w].(place := Carried(s.cur))] else s.tickets);
      SetDoing(s1, Up(OfWait(w), next))
  }

  /** `cond_wait` up to the call of `lock_release`. */
  function CondWaits(s: State, c: nat, l: nat): State {
    var w := s.nextWait;
    SetDoing(s.(semas := s.semas[OfWait(w) := Sema(0, [])], conds := s.conds[c := Waiting(s, c) + [w]],
                nextWait := w + 1, tickets := s.tickets[w := Ticket(s.cur, Listed(c))]),
             ClearHolder(l, Some(w)))
  }

  // ----- The sleep queue

  /** Before the first entry with a later time, counted from the back. */
  function InsertSleeper(q: seq<Sleeper>, e: Sleeper): seq<Sleeper> {
    if q == [] || q[|q| - 1].wakeup <= e.wakeup then q + [e]
    else InsertSleeper(q[..|q| - 1], e) + [q[|q| - 1]]
  }

  /** `thread_sleep` up to `schedule`. */
  function Sleeps(s: State, until: int): State {
    var w := s.nextWait;
    Enqueues(s.(semas := s.semas[OfWait(w) := Sema(0, [])], nextWait := w + 1,
                sleeping := InsertSleeper(s.sleeping, Sleeper(until, w, s.now)),
                tickets := s.tickets[w := Ticket(s.cur, Asleep)]),
             OfWait(w), None)
  }

  function WakeFirst(s: State): State
    requires s.sleeping != []
  {
    Post(SemaUp(s.(sleeping := s.sleeping[1..]), OfWait(s.sleeping[0].w)), s.sleeping[0].w)
  }

  /** The wake-up loop of `thread_tick`. */
  function WakeAll(s: State): State
    decreases |s.sleeping|
  {
    if s.sleeping == [] || s.sleeping[0].wakeup >= s.now then s
    else WakeAll(WakeFirst(s))
  }

  /** A timer interrupt: `thread_tick`, and the yield on return that it may ask for. */
  function Ticks(s: State): State {
    var s1 := WakeAll(s.(now := s.now + 1));
    var s2 := s1.(slice := s1.slice + 1);
    if s2.slice >= TIME_SLICE then Schedule(Yields(s2)) else s2
  }

  // ----- Invariants.  `running` is false between a status change and `schedule`.

  /** A thread may be blocked or dying only where the code says so. */
  predicate StatusOk(th: Thread, runs: bool) {
    && (th.status == Running <==> runs)
    && (th.status == Dying ==> th.doing == Free)
    && (th.status == Blocked ==> th.doing.Down? || th.doing == Free)
  }

  /** One thread runs, and the ready list holds exactly the ready threads. */
  ghost predicate SchedInv(s: State, running: bool) {
    && s.cur in s.threads && s.idle in s.threads && (running ==> s.slice < TIME_SLICE)
    && s.threads[s.idle].doing == Free
    && (forall t :: t in s.threads ==> StatusOk(s.threads[t], running && t == s.cur))
    && NoDup(s.ready)
    && (forall t :: t in s.ready <==> t in s.threads && s.threads[t].status == Ready && t != s.idle)
  }

  predicate IsBlocked(th: Thread, id: SemId) { th.status == Blocked && th.doing.Down? && th.doing.sem == id }

  ghost predicate BlockedOn(s: State, t: Tid, id: SemId) { t in s.threads && IsBlocked(s.threads[t], id) }

  /** A semaphore's list holds exactly the threads blocked in its `sema_down`. */
  ghost predicate WaitInv(s: State) {
    && (forall id :: NoDup(SemOf(s, id).waiters))
    && (forall id, t :: t in SemOf(s, id).waiters <==> BlockedOn(s, t, id))
    && (forall t :: t in s.threads && s.threads[t].status == Blocked && s.threads[t].doing.Down? ==> s.threads[t].doing.woken)
  }

  /** A thread in `thread_create` is the only one that knows its child. */
  ghost predicate StartInv(s: State) {
    && (forall p :: p in s.threads && s.threads[p].doing.Start? ==>
          var t := s.threads[p].doing.t;
          t in s.threads && t != s.idle && s.threads[t].status == Blocked && s.threads[t].doing == Free)
    && (forall p, q :: p in s.threads && q in s.threads && p != q && s.threads[p].doing.Start? && s.threads[q].doing.Start? ==>
          s.threads[p].doing.t != s.threads[q].doing.t)
  }

  predicate IsWoken(th: Thread, id: SemId) { th.status != Blocked && th.doing.Down? && th.doing.sem == id && th.doing.woken }

  /** The threads that were woken and have not tested the value again. */
  ghost function Woken(s: State, id: SemId): set<Tid> { set t | t in s.threads && IsWoken(s.threads[t], id) }

  /** No wake-up is lost. */
  ghost predicate WakeInv(s: State) {
    forall id :: SemOf(s, id).waiters != [] ==> SemOf(s, id).value <= |Woken(s, id)|
  }

  predicate Between(d: Doing, l: nat) { d == TakeLock(l) || (d.Up? && d.sem == OfLock(l)) }

  /** A lock's semaphore is free or owned, and `holder` is its owner once and as long as the owner says so. */
  ghost predicate LockInv(s: State) {
    && (forall l: nat :: LockOk(s, l))
    && (forall t :: t in s.threads ==> Uses(s.threads[t].doing).Some? ==> Owns(s, t, Uses(s.threads[t].doing).value))
  }

  ghost predicate LockOk(s: State, l: nat) {
    && (l in s.locks ==> SemOf(s, OfLock(l)).value == if l in s.owners then 0 else 1)
    && (l in s.owners ==>
          l in s.locks && s.owners[l] in s.threads
          && Holder(s, l) == if Between(s.threads[s.owners[l]].doing, l) then None else Some(s.owners[l]))
    && (l in s.holders ==> l in s.owners)
  }

  predicate Owns(s: State, t: Tid, l: nat) { l in s.owners && s.owners[l] == t }

  /** The lock that a thread is taking or giving back. */
  function Uses(d: Doing): Option<nat> {
    match d
    case TakeLock(l) => Some(l)
    case ClearHolder(l, _) => Some(l)
    case Up(OfLock(l), _) => Some(l)
    case _ => None
  }

  /** The semaphore on its own stack that a thread is going to wait, or waits, for. */
  function Waits(d: Doing): Option<nat> {
    match d
    case ClearHolder(_, wait) => wait
    case Up(OfLock(_), next) => next
    case Down(OfWait(w), _, _) => Some(w)
    case _ => None
  }

  /** The one signal that a waiting thread gets is in one place. */
  ghost predicate TicketInv(s: State) {
    && (forall w :: w in s.tickets ==> w < s.nextWait && s.tickets[w].owner in s.threads
                                       && Waits(s.threads[s.tickets[w].owner].doing) == Some(w))
    && (forall t :: t in s.threads && Waits(s.threads[t].doing).Some? ==>
          Waits(s.threads[t].doing).value in s.tickets && s.tickets[Waits(s.threads[t].doing).value].owner == t)
    && (forall w :: w in s.tickets ==> SemOf(s, OfWait(w)).value == if s.tickets[w].place == Posted then 1 else 0)
  }

  ghost predicate PlaceInv(s: State) {
    && (forall c :: c in s.conds ==> NoDup(s.conds[c]))
    && (forall c, w :: c in s.conds && w in s.conds[c] ==> w in s.tickets && s.tickets[w].place == Listed(c))
    && (forall w :: w in s.tickets && s.tickets[w].place.Listed? ==>
          s.tickets[w].place.c in s.conds && w in s.conds[s.tickets[w].place.c])
    && (forall t :: t in s.threads && Carries(s.threads[t].doing).Some? ==>
          var w := Carries(s.threads[t].doing).value; w in s.tickets && s.tickets[w].place == Carried(t))
    && (forall w :: w in s.tickets && s.tickets[w].place.Carried? ==>
          var t := s.tickets[w].place.signaller; t in s.threads && Carries(s.threads[t].doing) == Some(w))
  }

  /** The semaphore that a signalling thread is about to raise. */
  function Carries(d: Doing): Option<nat> { if d.Up? && d.sem.OfWait? then Some(d.sem.w) else None }

  function Max(a: int, b: int): int { if a < b then b else a }

  /** The sleep queue is sorted, its threads are blocked, and none of them is late. */
  ghost predicate SleepInv(s: State) {
    && Sorted(s.sleeping) && Distinct(s.sleeping)
    && (forall w :: InQueue(s.sleeping, w) <==> AsleepTicket(s, w))
    && (forall w :: AsleepTicket(s, w) ==> BlockedOn(s, s.tickets[w].owner, OfWait(w)))
  }

  ghost predicate Sorted(q: seq<Sleeper>) { forall i, j :: 0 <= i < j < |q| ==> q[i].wakeup <= q[j].wakeup }

  ghost predicate Distinct(q: seq<Sleeper>) { forall i, j :: 0 <= i < j < |q| ==> q[i].w != q[j].w }

  predicate AsleepTicket(s: State, w: nat) { w in s.tickets && s.tickets[w].place == Asleep }

  ghost predicate InQueue(q: seq<Sleeper>, w: nat) { exists i :: 0 <= i < |q| && q[i].w == w }

  ghost predicate OnTime(s: State) {
    forall i :: 0 <= i < |s.sleeping| ==> s.sleeping[i].since <= s.now <= Max(s.sleeping[i].since, s.sleeping[i].wakeup)
  }

  ghost predicate Inv(s: State, running: bool) {
    SchedInv(s, running) && WaitInv(s) && StartInv(s) && WakeInv(s) && LockInv(s) && TicketInv(s) && PlaceInv(s) && SleepInv(s)
  }

  ghost predicate Core(s: State, running: bool) { SchedInv(s, running) && WaitInv(s) && StartInv(s) && WakeInv(s) }

  // ----- thread.c keeps the invariant

  /** Same threads at the same places in the code. */
  ghost predicate SameDoing(s: State, s': State) {
    s.threads.Keys == s'.threads.Keys
    && forall t :: t in s.threads ==> s'.threads[t].doing == s.threads[t].doing
  }

  ghost predicate SameBlocked(s: State, s': State)
    requires SameDoing(s, s')
  {
    s'.idle == s.idle
    && forall t :: t in s.threads && t != s.idle ==> (s'.threads[t].status == Blocked <==> s.threads[t].status == Blocked)
  }

  ghost predicate SameRest(s: State, s': State) {
    s'.semas == s.semas && s'.holders == s.holders && s'.conds == s.conds && s'.sleeping == s.sleeping
    && s'.tickets == s.tickets && s'.nextWait == s.nextWait && s'.owners == s.owners && s'.locks == s.locks
  }

  lemma SameWoken(s: State, s': State, id: SemId)
    requires s.threads.Keys == s'.threads.Keys
    requires forall t :: t in s.threads ==> (IsWoken(s.threads[t], id) <==> IsWoken(s'.threads[t], id))
    ensures Woken(s, id) == Woken(s', id)
  {
  }

  lemma LockFrame(s: State, s': State)
    requires LockInv(s) && SameDoing(s, s') && SameRest(s, s')
    ensures LockInv(s')
  {
    hide Uses, Between;
    forall k: nat ensures LockOk(s', k) { assert LockOk(s, k); }
  }

  lemma TicketFrame(s: State, s': State)
    requires TicketInv(s) && SameDoing(s, s') && SameRest(s, s')
    ensures TicketInv(s')
  {
    hide Waits;
  }

  lemma PlaceFrame(s: State, s': State)
    requires PlaceInv(s) && SameDoing(s, s') && SameRest(s, s')
    ensures PlaceInv(s')
  {
    hide Carries;
  }

  lemma PlacesFrame(s: State, s': State)
    requires LockInv(s) && TicketInv(s) && PlaceInv(s) && SameDoing(s, s') && SameRest(s, s')
    ensures LockInv(s') && TicketInv(s') && PlaceInv(s')
  {
    hide *;
    LockFrame(s, s');
    TicketFrame(s, s');
    PlaceFrame(s, s');
  }

  lemma WaitFrame(s: State, s': State)
    requires WaitInv(s) && SameDoing(s, s') && SameRest(s, s') && SameBlocked(s, s')
    requires s.idle in s.threads && s.threads[s.idle].doing == Free
    ensures WaitInv(s')
  {
    forall id ensures SemOf(s', id) == SemOf(s, id) && NoDup(SemOf(s', id).waiters) { }
    forall id, t ensures t in SemOf(s', id).waiters <==> BlockedOn(s', t, id) {
      assert BlockedOn(s', t, id) == BlockedOn(s, t, id);
    }
    assert forall t :: t in s'.threads && s'.threads[t].status == Blocked && s'.threads[t].doing.Down? ==> t != s.idle;
  }

  lemma BlockedFrame(s: State, s': State)
    requires WaitInv(s) && StartInv(s) && WakeInv(s) && SleepInv(s) && SameDoing(s, s') && SameRest(s, s') && SameBlocked(s, s')
    requires s.idle in s.threads && s.threads[s.idle].doing == Free
    ensures WaitInv(s') && StartInv(s') && WakeInv(s') && SleepInv(s')
  {
    WaitFrame(s, s');
    assert StartInv(s') by { hide WakeInv, SleepInv, WaitInv; }
    assert SleepInv(s') by { hide WakeInv, WaitInv; }
    forall id ensures Woken(s, id) == Woken(s', id) { SameWoken(s, s', id); }
  }

  lemma ScheduleOk(s: State)
    requires Inv(s, false)
    ensures Inv(Schedule(s), true)
  {
    hide WaitInv, StartInv, WakeInv, LockInv, TicketInv, PlaceInv, SleepInv;
    var s' := Schedule(s);
    assert SchedInv(s', true);
    PlacesFrame(s, s');
    BlockedFrame(s, s');
  }

  // ----- Frames: the running thread moves on in the code

  ghost predicate Moved(s: State, s': State, d: Doing) {
    && s.cur in s.threads && s'.cur == s.cur && s'.idle == s.idle
    && s'.threads.Keys == s.threads.Keys && s'.threads[s.cur].doing == d
    && (forall t :: t in s.threads && t != s.cur ==> s'.threads[t].doing == s.threads[t].doing)
  }

  predicate Plain(d: Doing) { !(d.Down? && d.woken) && !d.Start? }

  /** One thread and one semaphore change. */
  ghost predicate Change(s: State, s': State, t: Tid, th: Thread, id: SemId, q: Sema) {
    && t in s.threads && s'.threads == s.threads[t := th] && s'.idle == s.idle && s'.slice == s.slice && s'.cur == s.cur
    && (forall j :: SemOf(s', j) == if j == id then q else SemOf(s, j))
  }

  lemma ChangeWait(s: State, s': State, t: Tid, th: Thread, id: SemId, q: Sema)
    requires WaitInv(s) && Change(s, s', t, th, id, q) && NoDup(q.waiters)
    requires forall u :: u in q.waiters <==> if u == t then IsBlocked(th, id) else u in SemOf(s, id).waiters
    requires s.threads[t].status == Blocked && s.threads[t].doing.Down? ==> s.threads[t].doing.sem == id
    requires th.status == Blocked && th.doing.Down? ==> th.doing.sem == id && th.doing.woken
    ensures WaitInv(s')
  {
    hide SemOf;
  }

  lemma ChangeStart(s: State, s': State, t: Tid, th: Thread, id: SemId, q: Sema)
    requires StartInv(s) && Change(s, s', t, th, id, q) && (!th.doing.Start? || th == s.threads[t])
    requires th == s.threads[t] || s.threads[t].status != Blocked || s.threads[t].doing != Free
    ensures StartInv(s')
  {
  }

  function One(b: bool): nat { if b then 1 else 0 }

  lemma ChangeWoken(s: State, s': State, t: Tid, th: Thread, id: SemId, q: Sema, j: SemId)
    requires Change(s, s', t, th, id, q)
    ensures |Woken(s', j)| == |Woken(s, j)| - One(IsWoken(s.threads[t], j)) + One(IsWoken(th, j))
    ensures |Woken(s, j)| >= One(IsWoken(s.threads[t], j))
  {
    hide IsWoken;
    var rest := Woken(s, j) - {t};
    assert Woken(s, j) == if IsWoken(s.threads[t], j) then rest + {t} else rest;
    assert Woken(s', j) == if IsWoken(th, j) then rest + {t} else rest;
  }

  lemma ChangeWake(s: State, s': State, t: Tid, th: Thread, id: SemId, q: Sema)
    requires WakeInv(s) && Change(s, s', t, th, id, q)
    requires q.waiters != [] ==> q.value <= |Woken(s, id)| - One(IsWoken(s.threads[t], id)) + One(IsWoken(th, id))
    requires s.threads[t].doing.Down? && s.threads[t].doing.woken && s.threads[t].doing.sem != id ==> th == s.threads[t]
    ensures WakeInv(s')
  {
    forall j | SemOf(s', j).waiters != [] ensures SemOf(s', j).value <= |Woken(s', j)| {
      ChangeWoken(s, s', t, th, id, q, j);
    }
  }

  lemma MoveCore(s: State, s': State, d: Doing, id: SemId, q: Sema)
    requires Core(s, true) && Change(s, s', s.cur, Thread(Running, d), id, q) && s'.ready == s.ready
    requires d == s.threads[s.cur].doing || (s.cur != s.idle && Plain(s.threads[s.cur].doing) && Plain(d))
    requires q.waiters == SemOf(s, id).waiters && (q.waiters == [] || q.value <= SemOf(s, id).value)
    ensures Core(s', true)
  {
    var th := Thread(Running, d);
    ChangeWait(s, s', s.cur, th, id, q);
    ChangeStart(s, s', s.cur, th, id, q);
    ChangeWake(s, s', s.cur, th, id, q);
    hide WaitInv, StartInv, WakeInv;
  }

  lemma UpCore(s: State, id: SemId)
    requires Core(s, true)
    ensures Core(SemaUp(s, id), true)
  {
    var s' := SemaUp(s, id);
    var q := SemOf(s, id);
    if q.waiters != [] {
      var t, rest := q.waiters[0], q.waiters[1..];
      assert BlockedOn(s, t, id) && t != s.idle;
      var th := Thread(Ready, s.threads[t].doing);
      ChangeWait(s, s', t, th, id, Sema(q.value + 1, rest));
      ChangeStart(s, s', t, th, id, Sema(q.value + 1, rest));
      ChangeWake(s, s', t, th, id, Sema(q.value + 1, rest));
      assert SchedInv(s', true) by { hide WaitInv, StartInv, WakeInv; }
    } else {
      var t := s.cur;
      ChangeWait(s, s', t, s.threads[t], id, Sema(q.value + 1, []));
      ChangeWake(s, s', t, s.threads[t], id, Sema(q.value + 1, []));
    }
  }

  lemma PassCore(s: State, s': State, id: SemId, d: Doing)
    requires Core(s, true) && s.cur != s.idle && s.threads[s.cur].doing.Down? && s.threads[s.cur].doing.sem == id && Plain(d)
    requires SemOf(s, id).value > 0 && Change(s, s', s.cur, Thread(Running, d), id, Sema(SemOf(s, id).value - 1, SemOf(s, id).waiters))
    requires s'.ready == s.ready
    ensures Core(s', true)
  {
    var th, q := Thread(Running, d), Sema(SemOf(s, id).value - 1, SemOf(s, id).waiters);
    ChangeWait(s, s', s.cur, th, id, q);
    ChangeStart(s, s', s.cur, th, id, q);
    ChangeWake(s, s', s.cur, th, id, q);
    hide WaitInv, StartInv, WakeInv;
  }

  lemma EnqueueCore(s: State, id: SemId, lock: Option<nat>)
    requires Core(s, true) && s.cur != s.idle && SemOf(s, id).value == 0
    requires s.threads[s.cur].doing == Free || (s.threads[s.cur].doing.Down? && s.threads[s.cur].doing.sem == id)
    ensures Core(Enqueues(s, id, lock), false)
  {
    hide StartInv, WakeInv;
    var s' := Enqueues(s, id, lock);
    var th, q := Thread(Blocked, Down(id, true, lock)), Sema(0, SemOf(s, id).waiters + [s.cur]);
    NotWaiting(s, id);
    assert Change(s, s', s.cur, th, id, q);
    hide WaitInv;
    ChangeWait(s, s', s.cur, th, id, q);
    ChangeStart(s, s', s.cur, th, id, q);
    ChangeWoken(s, s', s.cur, th, id, q, id);
    ChangeWake(s, s', s.cur, th, id, q);
  }

  lemma NotWaiting(s: State, id: SemId)
    requires WaitInv(s) && s.cur in s.threads && s.threads[s.cur].status != Blocked
    ensures s.cur !in SemOf(s, id).waiters && NoDup(SemOf(s, id).waiters)
  {
    assert !BlockedOn(s, s.cur, id);
  }

  /** Neither is a thread of the sleep queue concerned. */
  lemma SleepFrame(s: State, s': State)
    requires SleepInv(s) && s'.sleeping == s.sleeping
    requires forall t :: t in s.threads && s.threads[t].status == Blocked && s.threads[t].doing.Down? && s.threads[t].doing.sem.OfWait? && AsleepTicket(s, s.threads[t].doing.sem.w) ==>
               t in s'.threads && s'.threads[t] == s.threads[t]
    requires forall w :: AsleepTicket(s, w) ==> w in s'.tickets && s'.tickets[w] == s.tickets[w]
    requires forall w :: AsleepTicket(s', w) ==> AsleepTicket(s, w)
    ensures SleepInv(s')
  {
    forall w ensures AsleepTicket(s', w) == AsleepTicket(s, w) { }
  }

  lemma LockMove(s: State, s': State, d: Doing)
    requires LockInv(s) && Moved(s, s', d) && (d == s.threads[s.cur].doing || Uses(s.threads[s.cur].doing) == None == Uses(d))
    requires s'.holders == s.holders && s'.owners == s.owners && s'.locks == s.locks
    requires s'.locks == s.locks && forall l: nat :: SemOf(s', OfLock(l)).value == SemOf(s, OfLock(l)).value
    ensures LockInv(s')
  {
    if d != s.threads[s.cur].doing {
      UsesNone(d);
      UsesNone(s.threads[s.cur].doing);
    }
    hide Uses, Between;
    forall k: nat ensures LockOk(s', k) { assert LockOk(s, k); }
  }

  lemma UsesNone(d: Doing)
    requires Uses(d) == None
    ensures forall l: nat :: !Between(d, l)
  {
  }

  lemma TicketMove(s: State, s': State, d: Doing)
    requires TicketInv(s) && Moved(s, s', d) && Waits(s.threads[s.cur].doing) == Waits(d)
    requires s'.nextWait == s.nextWait && s'.tickets.Keys == s.tickets.Keys
    requires forall w :: w in s.tickets ==>
               s'.tickets[w].owner == s.tickets[w].owner
               && SemOf(s', OfWait(w)).value - One(s'.tickets[w].place == Posted) == SemOf(s, OfWait(w)).value - One(s.tickets[w].place == Posted)
    ensures TicketInv(s')
  {
    hide Waits;
  }

  /** A ticket for the running thread. */
  lemma TicketNew(s: State, s': State, d: Doing, place: Where)
    requires TicketInv(s) && Moved(s, s', d) && Waits(s.threads[s.cur].doing) == None && Waits(d) == Some(s.nextWait)
    requires s'.nextWait == s.nextWait + 1 && s'.tickets == s.tickets[s.nextWait := Ticket(s.cur, place)] && place != Posted
    requires forall w: nat :: SemOf(s', OfWait(w)).value == if w == s.nextWait then 0 else SemOf(s, OfWait(w)).value
    ensures TicketInv(s')
  {
    hide Waits;
  }

  lemma TicketGone(s: State, s': State, d: Doing, w: nat)
    requires TicketInv(s) && Moved(s, s', d) && Waits(s.threads[s.cur].doing) == Some(w) && Waits(d) == None
    requires s'.nextWait == s.nextWait && s'.tickets == s.tickets - {w}
    requires forall v: nat :: v != w ==> SemOf(s', OfWait(v)).value == SemOf(s, OfWait(v)).value
    ensures TicketInv(s')
  {
    hide Waits;
  }

  predicate Tracked(s: State, w: nat, place: Where) { w in s.tickets && s.tickets[w].place == place }

  /** No ticket is listed or carried that was not before, and the other way round. */
  lemma PlaceMove(s: State, s': State, d: Doing)
    requires PlaceInv(s) && Moved(s, s', d) && Carries(s.threads[s.cur].doing) == Carries(d)
    requires s'.conds == s.conds
    requires forall w: nat, place: Where :: place.Listed? || place.Carried? ==> Tracked(s', w, place) == Tracked(s, w, place)
    ensures PlaceInv(s')
  {
    hide Carries;
    forall c, w | c in s.conds && w in s.conds[c] ensures w in s'.tickets && s'.tickets[w].place == Listed(c) {
      assert Tracked(s, w, Listed(c));
      assert Tracked(s', w, Listed(c));
    }
    forall t | t in s'.threads && Carries(s'.threads[t].doing).Some?
      ensures var w := Carries(s'.threads[t].doing).value; w in s'.tickets && s'.tickets[w].place == Carried(t)
    {
      assert Tracked(s, Carries(s.threads[t].doing).value, Carried(t));
      assert Tracked(s', Carries(s.threads[t].doing).value, Carried(t));
    }
    forall w | w in s'.tickets && (s'.tickets[w].place.Listed? || s'.tickets[w].place.Carried?)
      ensures w in s.tickets && s.tickets[w].place == s'.tickets[w].place
    {
      assert Tracked(s', w, s'.tickets[w].place);
      assert Tracked(s, w, s'.tickets[w].place);
    }
  }

  /** `cond_wait` lists its ticket. */
  lemma PlaceListed(s: State, s': State, d: Doing, c: nat, w: nat)
    requires PlaceInv(s) && Moved(s, s', d) && Carries(s.threads[s.cur].doing) == Carries(d) == None
    requires w !in s.tickets && s'.conds == s.conds[c := Waiting(s, c) + [w]] && s'.tickets == s.tickets[w := Ticket(s.cur, Listed(c))]
    ensures PlaceInv(s')
  {
    hide Carries;
    assert w !in Waiting(s, c);
  }

  /** `cond_signal` takes the first ticket of a condition. */
  lemma PlaceSignalled(s: State, s': State, d: Doing, c: nat, w: nat)
    requires PlaceInv(s) && Moved(s, s', d) && Carries(s.threads[s.cur].doing) == None && Carries(d) == Some(w)
    requires Waiting(s, c) != [] && w == Waiting(s, c)[0] && w in s.tickets
    requires s'.conds == s.conds[c := Waiting(s, c)[1..]] && s'.tickets == s.tickets[w := s.tickets[w].(place := Carried(s.cur))]
    ensures PlaceInv(s')
  {
    hide Carries;
    assert s.tickets[w].place == Listed(c);
    assert w !in Waiting(s, c)[1..];
  }

  /** `sema_up` hands the ticket over. */
  lemma PlacePosted(s: State, s': State, d: Doing, w: nat)
    requires PlaceInv(s) && Moved(s, s', d) && Carries(s.threads[s.cur].doing) == Some(w) && Carries(d) == None
    requires w in s.tickets && s'.conds == s.conds && s'.tickets == s.tickets[w := s.tickets[w].(place := Posted)]
    ensures PlaceInv(s')
  {
    hide Carries;
    assert s.tickets[w].place == Carried(s.cur);
  }

  // ----- Locks

  /** The running thread, which owns lock `l` or finds it without owner, works on it. */
  lemma LockStep(s: State, s': State, d: Doing, l: nat)
    requires LockInv(s) && Moved(s, s', d) && s'.locks == s.locks && l in s.locks
    requires Uses(s.threads[s.cur].doing) in {None, Some(l)} && Uses(d) in {None, Some(l)}
    requires forall k: nat :: k != l ==> SameLock(s, s', k)
    requires SemOf(s', OfLock(l)).value == if l in s'.owners then 0 else 1
    requires l in s'.owners ==> s'.owners[l] == s.cur && Holder(s', l) == if Between(d, l) then None else Some(s.cur)
    requires l in s'.holders || Uses(d) == Some(l) ==> l in s'.owners
    requires l in s.owners ==> s.owners[l] == s.cur
    ensures LockInv(s')
  {
    UsesOnly(d, l);
    UsesOnly(s.threads[s.cur].doing, l);
    hide Uses, Between, SemOf;
    forall k: nat ensures LockOk(s', k) {
      assert LockOk(s, k);
      assert k != l ==> SameLock(s, s', k);
    }
    forall t | t in s'.threads && Uses(s'.threads[t].doing).Some? ensures Owns(s', t, Uses(s'.threads[t].doing).value) {
      if t != s.cur {
        assert Owns(s, t, Uses(s.threads[t].doing).value);
        assert Uses(s.threads[t].doing).value != l ==> SameLock(s, s', Uses(s.threads[t].doing).value);
      }
    }
  }

  ghost predicate SameLock(s: State, s': State, k: nat) {
    && SemOf(s', OfLock(k)).value == SemOf(s, OfLock(k)).value
    && (k in s'.owners <==> k in s.owners) && (k in s.owners ==> s'.owners[k] == s.owners[k])
    && (k in s'.holders <==> k in s.holders) && (k in s.holders ==> s'.holders[k] == s.holders[k])
  }

  lemma UsesOnly(d: Doing, l: nat)
    requires Uses(d) in {None, Some(l)}
    ensures forall k: nat :: k != l ==> !Between(d, k)
  {
  }

  // ----- The sleep queue

  /** The new entry goes behind the entries that are due no later, and before the others. */
  lemma {:induction false} InsertedAt(q: seq<Sleeper>, e: Sleeper) returns (k: nat)
    requires Sorted(q)
    ensures k <= |q| && InsertSleeper(q, e) == q[..k] + [e] + q[k..]
    ensures forall i :: 0 <= i < k ==> q[i].wakeup <= e.wakeup
    ensures forall i :: k <= i < |q| ==> q[i].wakeup > e.wakeup
  {
    if q == [] || q[|q| - 1].wakeup <= e.wakeup {
      k := |q|;
    } else {
      var front := q[..|q| - 1];
      k := InsertedAt(front, e);
      assert front[..k] == q[..k] && front[k..] + [q[|q| - 1]] == q[k..];
    }
  }

  lemma SleepNew(s: State, s': State, e: Sleeper)
    requires SleepInv(s) && s'.sleeping == InsertSleeper(s.sleeping, e)
    requires e.w !in s.tickets && s'.tickets == s.tickets[e.w := Ticket(s.cur, Asleep)]
    requires BlockedOn(s', s.cur, OfWait(e.w))
    requires s'.threads.Keys == s.threads.Keys && s.cur in s.threads && s.threads[s.cur].status != Blocked
    requires forall t :: t in s.threads && t != s.cur ==> s'.threads[t] == s.threads[t]
    ensures SleepInv(s')
  {
    InsertedOrder(s.sleeping, e);
    hide InsertSleeper, InQueue;
    forall w ensures AsleepTicket(s', w) <==> AsleepTicket(s, w) || w == e.w { }
  }

  lemma InsertedOrder(q: seq<Sleeper>, e: Sleeper)
    requires Sorted(q) && Distinct(q) && !InQueue(q, e.w)
    ensures Sorted(InsertSleeper(q, e)) && Distinct(InsertSleeper(q, e))
    ensures forall w :: InQueue(InsertSleeper(q, e), w) <==> InQueue(q, w) || w == e.w
  {
    hide InsertSleeper;
    var k := InsertedAt(q, e);
    var r := InsertSleeper(q, e);
    assert forall i :: 0 <= i < |r| ==> r[i] == if i < k then q[i] else if i == k then e else q[i - 1];
    InsertedQueue(q, e, k);
    hide InQueue;
  }

  lemma InsertedQueue(q: seq<Sleeper>, e: Sleeper, k: nat)
    requires k <= |q|
    ensures forall w :: InQueue(q[..k] + [e] + q[k..], w) <==> InQueue(q, w) || w == e.w
  {
    var r := q[..k] + [e] + q[k..];
    forall w ensures InQueue(r, w) <==> InQueue(q, w) || w == e.w {
      if w == e.w {
        assert r[k].w == w;
      } else if InQueue(q, w) {
        var i :| 0 <= i < |q| && q[i].w == w;
        assert r[if i < k then i else i + 1] == q[i];
      }
    }
  }

  /** The first entry leaves the queue, its ticket is handed over, and its thread is woken. */
  lemma SleepLess(s: State, s': State, t: Tid)
    requires SleepInv(s) && s.sleeping != [] && s'.sleeping == s.sleeping[1..]
    requires s.sleeping[0].w in s.tickets
    requires s'.tickets == s.tickets[s.sleeping[0].w := s.tickets[s.sleeping[0].w].(place := Posted)]
    requires t == s.tickets[s.sleeping[0].w].owner
    requires s'.threads.Keys == s.threads.Keys && forall u :: u in s.threads && u != t ==> s'.threads[u] == s.threads[u]
    ensures SleepInv(s')
  {
    QueueTail(s.sleeping);
    hide InQueue;
    forall w ensures AsleepTicket(s', w) <==> AsleepTicket(s, w) && w != s.sleeping[0].w { }
  }

  lemma QueueTail(q: seq<Sleeper>)
    requires q != [] && Sorted(q) && Distinct(q)
    ensures Sorted(q[1..]) && Distinct(q[1..])
    ensures forall w :: InQueue(q[1..], w) <==> InQueue(q, w) && w != q[0].w
  {
    forall w ensures InQueue(q[1..], w) <==> InQueue(q, w) && w != q[0].w {
      if InQueue(q, w) && w != q[0].w {
        var i :| 0 <= i < |q| && q[i].w == w;
        assert q[1..][i - 1].w == w;
      }
    }
  }
}
