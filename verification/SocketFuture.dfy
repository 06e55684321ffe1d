/** `SocketFuture`: a poll that stores the task's waker, registers on the socket's wait queue and tries
    the operation, against any number of wait-queue callbacks that take the waker's `NoWaitLock`,
    clone the waker and wake the task. Each compare-exchange, swap, store and workqueue call is one
    step.

    The kernel is assumed to announce every change of the socket to ready with a key that meets the
    future's mask, after the change; to call back the entries that are on the wait queue when it
    scans it; and to finish the callbacks of an entry before `remove_wait_queue` returns.

    The future may be polled by several tasks in turn, each with its own waker. A poll that fails its
    try_lock does not store its waker, and leaves the one before it. */
module SocketFuture {

  import opened Wrappers
  import opened NoWaitLock

  /** A poll mask, as the set of its one bits. */
  type Events = set<nat>

  /** `key & mask != 0` */
  predicate Meets(key: Events, mask: Events) {
    key * mask != {}
  }

  datatype Poll =
    | NoPoll
    | PollFast      // try_lock: first compare-exchange
    | PollSlow      // try_lock: second compare-exchange
    | PollStore     // guard held: store the waker
    | PollUnlock    // guard held: drop it
    | PollRegister  // add_wait_queue unless already queued
    | PollOperate   // try the operation

  datatype Callback =
    | Announced(key: Events)     // the kernel has changed the socket and is about to scan the wait queue
    | CbMask(key: Events)        // callback entered: compare the key with the mask
    | CbFast                   // try_lock: first compare-exchange
    | CbSlow                   // try_lock: second compare-exchange
    | CbRead                   // guard held: look for a waker, clone it
    | CbUnlock(found: Option<nat>) // guard held: drop it
    | CbWake(task: nat)        // wake the cloned waker
    | CbDone                   // returned

  datatype Holder = Nobody | ByPoll | ByCallback(c: nat)

  /** Beside the shared state, the history: `holder` got the lock and has not released it, `poller` is the
      task of the last poll, `parked` says that it returned Pending. `waker` is the task whose waker is
      stored, `pending` the tasks that are queued to run. */
  datatype Sock = Sock(
    mask: Events, lock: Lock, holder: Holder, waker: Option<nat>, queued: bool, ready: bool, pending: set<nat>,
    poll: Poll, cbs: map<nat, Callback>, poller: nat, parked: bool, finished: bool, dropped: bool)

  datatype Move =
    | Event(c: nat, key: Events, nowReady: bool)
    | Unready
    | CallbackStep(c: nat)
    | WakeOther(task: nat)
    | RunBegin(task: nat)
    | PollStep
    | DropFuture

  /** A new future. */
  predicate Start(s: Sock) {
    && s.lock.Unlocked? && s.holder.Nobody? && s.waker.None? && !s.queued && s.poll.NoPoll? && s.cbs == map[]
    && !s.parked && !s.finished && !s.dropped
  }

  /** The callback has been called and has not returned. */
  predicate Inside(cb: Callback) {
    !cb.Announced? && !cb.CbDone?
  }

  predicate CanMove(s: Sock, m: Move) {
    match m
    case Event(c, key, nowReady) => c !in s.cbs && (nowReady && !s.ready ==> Meets(key, s.mask))
    case Unready => true
    case CallbackStep(c) => c in s.cbs && !s.cbs[c].CbDone?
    case WakeOther(_) => true
    case RunBegin(task) => task in s.pending && s.poll.NoPoll? && !s.finished && !s.dropped
    case PollStep => !s.poll.NoPoll?
    case DropFuture => s.poll.NoPoll? && !s.dropped && forall c :: c in s.cbs ==> !Inside(s.cbs[c])
  }

  /** Where a callback goes next. */
  function NextCallback(s: Sock, cb: Callback): Callback {
    match cb
    case Announced(key) => if s.queued then CbMask(key) else CbDone
    case CbMask(key) => if Meets(key, s.mask) then CbFast else CbDone
    case CbFast => if s.lock.Unlocked? then CbRead else CbSlow
    case CbSlow => CbDone
    case CbRead => CbUnlock(s.waker)
    case CbUnlock(found) => if found.Some? then CbWake(found.value) else CbDone
    case CbWake(_) => CbDone
    case CbDone => CbDone
  }

  /** What it does to the lock on the way. */
  function LockAfter(l: Lock, cb: Callback): Lock {
    match cb
    case CbFast => if l.Unlocked? then Locked else l
    case CbSlow => Contend(l)
    case CbUnlock(_) => Unlocked
    case _ => l
  }

  function HolderAfter(s: Sock, c: nat, cb: Callback): Holder {
    match cb
    case CbFast => if s.lock.Unlocked? then ByCallback(c) else s.holder
    case CbUnlock(_) => Nobody
    case _ => s.holder
  }

  function StepCallback(s: Sock, c: nat): Sock
    requires c in s.cbs
  {
    var cb := s.cbs[c];
    s.(lock := LockAfter(s.lock, cb), holder := HolderAfter(s, c, cb),
       pending := if cb.CbWake? then s.pending + {cb.task} else s.pending,
       cbs := s.cbs[c := NextCallback(s, cb)])
  }

  /** Where the poll goes next; at the end it returns. */
  function NextPoll(s: Sock): Poll {
    match s.poll
    case PollFast => if s.lock.Unlocked? then PollStore else PollSlow
    case PollSlow => PollRegister
    case PollStore => PollUnlock
    case PollUnlock => PollRegister
    case PollRegister => PollOperate
    case _ => NoPoll
  }

  /** What it does to the lock on the way. */
  function PollLock(s: Sock): Lock {
    match s.poll
    case PollFast => if s.lock.Unlocked? then Locked else s.lock
    case PollSlow => Contend(s.lock)
    case PollUnlock => Unlocked
    case _ => s.lock
  }

  function PollHolder(s: Sock): Holder {
    match s.poll
    case PollFast => if s.lock.Unlocked? then ByPoll else s.holder
    case PollUnlock => Nobody
    case _ => s.holder
  }

  /** The operation succeeds (or fails for good) when the socket is ready, and would block otherwise. */
  function StepPoll(s: Sock): Sock {
    s.(lock := PollLock(s), holder := PollHolder(s), poll := NextPoll(s),
       waker := if s.poll.PollStore? then Some(s.poller) else s.waker,
       queued := s.queued || s.poll.PollRegister?,
       finished := s.finished || (s.poll.PollOperate? && s.ready),
       parked := s.parked || (s.poll.PollOperate? && !s.ready))
  }

  function After(s: Sock, m: Move): Sock
    requires CanMove(s, m)
  {
    match m
    case Event(c, key, nowReady) => s.(cbs := s.cbs[c := Announced(key)], ready := nowReady)
    case Unready => s.(ready := false)
    case CallbackStep(c) => StepCallback(s, c)
    case WakeOther(task) => s.(pending := s.pending + {task})
    case RunBegin(task) => s.(pending := s.pending - {task}, poller := task, parked := false, poll := PollFast)
    case PollStep => StepPoll(s)
    case DropFuture => s.(queued := false, parked := false, dropped := true)
  }

  function Moves(s: Sock, ms: seq<Move>): Option<Sock> {
    if ms == [] then Some(s) else
    var n := |ms| - 1;
    match Moves(s, ms[..n])
    case None => None
    case Some(u) => if CanMove(u, ms[n]) then Some(After(u, ms[n])) else None
  }

  // ---- The invariant -----------------------------------------------------

  predicate PollHolds(s: Sock) {
    s.poll.PollStore? || s.poll.PollUnlock?
  }

  predicate CbHolds(s: Sock, c: nat) {
    c in s.cbs && (s.cbs[c].CbRead? || s.cbs[c].CbUnlock?)
  }

  /** A callback in flight that leads to a wake of the last poller, if its waker is the one stored. */
  predicate WillWake(s: Sock, c: nat) {
    && c in s.cbs
    && match s.cbs[c]
       case Announced(key) => Meets(key, s.mask)
       case CbMask(key) => Meets(key, s.mask)
       case CbFast => true
       case CbRead => true
       case CbUnlock(found) => found == Some(s.poller)
       case CbWake(task) => task == s.poller
       case _ => false
  }

  predicate HoldsWhenInside(s: Sock, c: nat) {
    CbHolds(s, c) <==> s.holder == ByCallback(c)
  }

  ghost predicate LockInv(s: Sock) {
    && (s.lock.Unlocked? <==> s.holder.Nobody?)
    && (PollHolds(s) <==> s.holder.ByPoll?)
    && (forall c :: HoldsWhenInside(s, c))
  }

  ghost predicate QueueInv(s: Sock) {
    && (forall c :: c in s.cbs && Inside(s.cbs[c]) ==> s.queued)
    && (forall c :: c in s.cbs && s.cbs[c].CbUnlock? ==> s.cbs[c].found == s.waker)
    && (s.queued ==> s.waker.Some? && !s.dropped)
    && (s.poll.PollUnlock? || s.poll.PollRegister? || s.poll.PollOperate? ==> s.waker.Some?)
    && (s.poll.PollSlow? ==> s.queued)
    && (s.poll.PollOperate? || s.parked ==> s.queued)
    && (s.parked ==> s.poll.NoPoll?)
    && (s.dropped ==> s.poll.NoPoll?)
  }

  ghost predicate WakeInv(s: Sock) {
    s.parked && s.ready && s.waker == Some(s.poller) ==> s.poller in s.pending || exists c :: WillWake(s, c)
  }

  ghost predicate SockInv(s: Sock) {
    LockInv(s) && QueueInv(s) && WakeInv(s)
  }

  // ---- Proofs ------------------------------------------------------------

  /** Callbacks other than `c` are as they were. */
  lemma OtherCallbacks(s: Sock, s': Sock, c: nat)
    requires c in s.cbs && c in s'.cbs && s'.cbs == s.cbs[c := s'.cbs[c]] && s'.mask == s.mask && s'.poller == s.poller
    ensures forall d :: d != c ==> (CbHolds(s', d) <==> CbHolds(s, d)) && (WillWake(s', d) <==> WillWake(s, d))
  {
  }

  lemma CallbackKeepsLock(s: Sock, c: nat)
    requires LockInv(s) && c in s.cbs
    ensures LockInv(StepCallback(s, c))
  {
    assert HoldsWhenInside(s, c);
    var s' := StepCallback(s, c);
    forall d ensures HoldsWhenInside(s', d) {
      assert HoldsWhenInside(s, d);
      assert d != c ==> CbHolds(s', d) == CbHolds(s, d);
    }
  }

  lemma CallbackKeepsQueue(s: Sock, c: nat)
    requires QueueInv(s) && c in s.cbs
    ensures QueueInv(StepCallback(s, c))
  {
    match s.cbs[c]
    case Announced(_) =>
    case CbMask(_) =>
    case CbFast =>
    case CbSlow =>
    case CbRead =>
    case CbUnlock(_) =>
    case CbWake(_) =>
    case CbDone =>
  }

  /** A callback that fails its try_lock leaves the wake to the holder: to another callback, which will
      wake, or to a poll, which has not yet tried the operation. */
  lemma CallbackKeepsWake(s: Sock, c: nat)
    requires SockInv(s) && c in s.cbs
    ensures WakeInv(StepCallback(s, c))
  {
    var s' := StepCallback(s, c);
    if s.parked && s.ready && s.waker == Some(s.poller) && s.poller !in s'.pending {
      var d :| WillWake(s, d);
      if d != c {
        OtherCallbacks(s, s', c);
        assert WillWake(s', d);
      } else {
        if s.cbs[c].CbFast? && !s.lock.Unlocked? {
          assert HoldsWhenInside(s, s.holder.c);
          assert WillWake(s', s.holder.c);
        } else {
          assert WillWake(s', c);
        }
      }
    }
  }

  lemma EventKeepsInv(s: Sock, m: Move)
    requires SockInv(s) && CanMove(s, m) && m.Event?
    ensures SockInv(After(s, m))
  {
    var s' := After(s, m);
    forall d ensures HoldsWhenInside(s', d) { assert HoldsWhenInside(s, d); }
    if s'.parked && s'.ready && s.waker == Some(s.poller) && s.poller !in s'.pending {
      if s.ready {
        var d :| WillWake(s, d);
        assert WillWake(s', d);
      } else {
        assert WillWake(s', m.c);
      }
    }
  }

  lemma PollKeepsLock(s: Sock)
    requires LockInv(s)
    ensures LockInv(StepPoll(s))
  {
    var s' := StepPoll(s);
    forall d ensures HoldsWhenInside(s', d) {
      assert HoldsWhenInside(s, d);
      assert CbHolds(s', d) == CbHolds(s, d);
    }
  }

  lemma PollKeepsQueue(s: Sock)
    requires LockInv(s) && QueueInv(s)
    ensures QueueInv(StepPoll(s))
  {
    if s.poll.PollFast? && !s.lock.Unlocked? {
      assert HoldsWhenInside(s, s.holder.c);
    }
    if s.poll.PollStore? {
      forall c | c in s.cbs ensures !s.cbs[c].CbUnlock? {
        assert HoldsWhenInside(s, c);
      }
    }
  }

  lemma WakeOtherKeepsInv(s: Sock, task: nat)
    requires SockInv(s)
    ensures SockInv(After(s, WakeOther(task)))
  {
    var s' := After(s, WakeOther(task));
    forall d ensures HoldsWhenInside(s', d) { assert HoldsWhenInside(s, d); }
    if s.parked && s.ready && s.waker == Some(s.poller) && s.poller !in s'.pending {
      var d :| WillWake(s, d);
      assert WillWake(s', d);
    }
  }

  lemma MoveKeepsInv(s: Sock, m: Move)
    requires SockInv(s) && CanMove(s, m)
    ensures SockInv(After(s, m))
  {
    match m
    case CallbackStep(c) =>
      CallbackKeepsLock(s, c);
      CallbackKeepsQueue(s, c);
      CallbackKeepsWake(s, c);
    case Event(_, _, _) => EventKeepsInv(s, m);
    case PollStep =>
      PollKeepsLock(s);
      PollKeepsQueue(s);
    case WakeOther(task) => WakeOtherKeepsInv(s, task);
    case _ => forall d ensures HoldsWhenInside(After(s, m), d) { assert HoldsWhenInside(s, d); }
  }

  lemma {:induction false} RunKeepsInv(s: Sock, ms: seq<Move>)
    requires Start(s) && Moves(s, ms).Some?
    ensures SockInv(Moves(s, ms).value)
  {
    if ms != [] {
      var n := |ms| - 1;
      RunKeepsInv(s, ms[..n]);
      MoveKeepsInv(Moves(s, ms[..n]).value, ms[n]);
    }
  }

  /** No lost wake-up: over every run, when the last poll returned Pending, its task's waker is the one
      stored and the socket is ready, then that task is queued for another poll or a callback in flight
      leads to its wake. So if it is not queued and no callback is in flight, the socket is not ready. */
  lemma NoLostWakeUp(s: Sock, ms: seq<Move>)
    requires Start(s) && Moves(s, ms).Some?
    ensures
      var t := Moves(s, ms).value;
      t.parked && (t.waker == Some(t.poller) || OneTask(ms)) ==>
        && (t.ready ==> t.poller in t.pending || exists c :: WillWake(t, c))
        && (t.poller !in t.pending && (forall c :: c in t.cbs ==> t.cbs[c].CbDone?) ==> !t.ready)
  {
    RunKeepsInv(s, ms);
    if OneTask(ms) {
      var k :| PolledBy(ms, k);
      OneTaskStoresItsWaker(s, ms, k);
    }
  }

  predicate PolledBy(ms: seq<Move>, k: nat) {
    forall i :: 0 <= i < |ms| && ms[i].RunBegin? ==> ms[i].task == k
  }

  /** All polls of the run are of one task, as those of a task's own future are. */
  ghost predicate OneTask(ms: seq<Move>) {
    exists k :: PolledBy(ms, k)
  }

  /** Only task `k` has stored a waker or polled. */
  predicate Owned(s: Sock, k: nat) {
    (s.waker.Some? ==> s.waker == Some(k)) && (!s.poll.NoPoll? || s.parked ==> s.poller == k)
  }

  lemma OwnedStays(s: Sock, m: Move, k: nat)
    requires Owned(s, k) && CanMove(s, m) && (m.RunBegin? ==> m.task == k)
    ensures Owned(After(s, m), k)
  {
  }

  lemma {:induction false} OneTaskStoresItsWaker(s: Sock, ms: seq<Move>, k: nat)
    requires Start(s) && Moves(s, ms).Some? && PolledBy(ms, k)
    ensures Owned(Moves(s, ms).value, k)
  {
    if ms != [] {
      var n := |ms| - 1;
      OneTaskStoresItsWaker(s, ms[..n], k);
      OwnedStays(Moves(s, ms[..n]).value, ms[n], k);
    }
  }

  /** Over every run: poll and callbacks exclude one another on the stored waker, a callback that got
      the lock always finds a waker, and no callback is inside once the callback state is freed. */
  lemma CallbacksFindWaker(s: Sock, ms: seq<Move>, c: nat)
    requires Start(s) && Moves(s, ms).Some?
    ensures
      var t := Moves(s, ms).value;
      && (c in t.cbs && Inside(t.cbs[c]) ==> !t.dropped)
      && (CbHolds(t, c) ==> t.waker.Some? && !PollHolds(t) && forall d :: CbHolds(t, d) ==> d == c)
  {
    RunKeepsInv(s, ms);
    var t := Moves(s, ms).value;
    assert forall d :: CbHolds(t, d) ==> HoldsWhenInside(t, d);
  }

  // ---- What callbacks and polls do ---------------------------------------

  /** A callback announced with this key that has not gone beyond comparing it with the mask. */
  predicate Unheard(cb: Callback, key: Events) {
    cb == Announced(key) || cb == CbMask(key) || cb == CbDone
  }

  /** A callback whose key has no event of the mask never takes the lock and wakes nobody. */
  lemma {:induction false} MissedKeyWakesNobody(s: Sock, ms: seq<Move>, c: nat, key: Events)
    requires c in s.cbs && Unheard(s.cbs[c], key) && key * s.mask == {} && Moves(s, ms).Some?
    ensures var t := Moves(s, ms).value; c in t.cbs && Unheard(t.cbs[c], key)
  {
    if ms != [] {
      var n := |ms| - 1;
      MissedKeyWakesNobody(s, ms[..n], c, key);
      MaskStays(s, ms[..n]);
      StillUnheard(Moves(s, ms[..n]).value, ms[n], c, key);
    }
  }

  lemma StillUnheard(s: Sock, m: Move, c: nat, key: Events)
    requires c in s.cbs && Unheard(s.cbs[c], key) && key * s.mask == {} && CanMove(s, m)
    ensures c in After(s, m).cbs && Unheard(After(s, m).cbs[c], key)
    ensures m == CallbackStep(c) ==> After(s, m).pending == s.pending && After(s, m).lock == s.lock
  {
  }

  /** A poll that comes to its operation finishes the future if and only if the socket is ready, and returns
      Pending otherwise; a finished future is not polled again. */
  lemma PollFinishesIffReady(s: Sock)
    requires s.poll.PollOperate? && !s.finished
    ensures
      var t := After(s, PollStep);
      && t.poll.NoPoll? && (t.finished <==> s.ready) && (!s.ready ==> t.parked)
      && (t.finished ==> forall task :: !CanMove(t, RunBegin(task)))
  {
  }

  // ---- Two tasks ---------------------------------------------------------

  lemma Then(s: Sock, ms: seq<Move>, m: Move) returns (longer: seq<Move>)
    requires Moves(s, ms).Some? && CanMove(Moves(s, ms).value, m)
    ensures Moves(s, longer) == Some(After(Moves(s, ms).value, m))
    ensures NoPolls(ms) && !m.RunBegin? ==> NoPolls(longer)
  {
    longer := ms + [m];
    assert longer[..|ms|] == ms;
  }

  /** A new future on a socket that is not ready, with no task queued. */
  predicate Quiet(s: Sock) {
    Start(s) && s.mask != {} && !s.ready && s.pending == {}
  }

  /** Task 0 polls and waits. */
  lemma FirstTaskWaits(s: Sock) returns (ms: seq<Move>)
    requires Quiet(s)
    ensures Moves(s, ms) == Some(s.(waker := Some(0), queued := true, poller := 0, parked := true))
  {
    ms := Then(s, [], WakeOther(0));
    ms := Then(s, ms, RunBegin(0));
    assert Moves(s, ms).value == s.(poller := 0, poll := PollFast);
    ms := Then(s, ms, PollStep);
    ms := Then(s, ms, PollStep);
    ms := Then(s, ms, PollStep);
    assert Moves(s, ms).value == s.(poller := 0, poll := PollRegister, waker := Some(0));
    ms := Then(s, ms, PollStep);
    ms := Then(s, ms, PollStep);
  }

  /** An event without readiness: its callback takes the lock. */
  lemma CallbackLocks(s: Sock) returns (ms: seq<Move>)
    requires Quiet(s)
    ensures Moves(s, ms) == Some(s.(waker := Some(0), queued := true, poller := 0, parked := true,
                                    lock := Locked, holder := ByCallback(0), cbs := map[0 := CbRead]))
  {
    ms := FirstTaskWaits(s);
    var w := s.(waker := Some(0), queued := true, poller := 0, parked := true);
    ms := Then(s, ms, Event(0, s.mask, false));
    assert Moves(s, ms).value == w.(cbs := map[0 := Announced(s.mask)]);
    ms := Then(s, ms, CallbackStep(0));
    assert Moves(s, ms).value == w.(cbs := map[0 := CbMask(s.mask)]);
    ms := Then(s, ms, CallbackStep(0));
    assert Moves(s, ms).value == w.(cbs := map[0 := CbFast]);
    ms := Then(s, ms, CallbackStep(0));
    assert Moves(s, ms).value.cbs == map[0 := CbRead];
  }

  /** Meanwhile task 1 polls: it fails its try_lock, does not store its waker, and waits. */
  lemma SecondTaskWaits(s: Sock) returns (ms: seq<Move>)
    requires Quiet(s)
    ensures Moves(s, ms) == Some(s.(waker := Some(0), queued := true, poller := 1, parked := true,
                                    lock := LockedContended, holder := ByCallback(0), cbs := map[0 := CbRead]))
  {
    ms := CallbackLocks(s);
    var w := s.(waker := Some(0), queued := true, poller := 1, holder := ByCallback(0), cbs := map[0 := CbRead]);
    ms := Then(s, ms, WakeOther(1));
    ms := Then(s, ms, RunBegin(1));
    assert Moves(s, ms).value == w.(lock := Locked, poll := PollFast);
    ms := Then(s, ms, PollStep);
    ms := Then(s, ms, PollStep);
    assert Moves(s, ms).value == w.(lock := LockedContended, poll := PollRegister);
    ms := Then(s, ms, PollStep);
    ms := Then(s, ms, PollStep);
  }

  /** The callback wakes task 0. */
  lemma FirstTaskWoken(s: Sock) returns (ms: seq<Move>)
    requires Quiet(s)
    ensures Moves(s, ms) == Some(s.(waker := Some(0), queued := true, poller := 1, parked := true,
                                    pending := {0}, cbs := map[0 := CbDone]))
  {
    ms := SecondTaskWaits(s);
    var w := s.(waker := Some(0), queued := true, poller := 1, parked := true);
    ms := Then(s, ms, CallbackStep(0));
    assert Moves(s, ms).value
        == w.(lock := LockedContended, holder := ByCallback(0), cbs := map[0 := CbUnlock(Some(0))]);
    ms := Then(s, ms, CallbackStep(0));
    assert Moves(s, ms).value == w.(cbs := map[0 := CbWake(0)]);
    ms := Then(s, ms, CallbackStep(0));
    assert Moves(s, ms).value.cbs == map[0 := CbDone] && Moves(s, ms).value.pending == {0};
  }

  lemma Updated(cbs: map<nat, Callback>, c: nat, a: Callback, b: Callback)
    ensures cbs[c := a][c := b] == cbs[c := b]
  {
  }

  /** A callback from its announcement to the lock. */
  lemma CallbackEnters(s: Sock, ms: seq<Move>, c: nat) returns (longer: seq<Move>)
    requires Moves(s, ms).Some?
    requires var t := Moves(s, ms).value;
             t.lock.Unlocked? && t.queued && t.mask != {} && c !in t.cbs
    ensures var t := Moves(s, ms).value;
            Moves(s, longer) == Some(t.(ready := true, lock := Locked, holder := ByCallback(c),
                                        cbs := t.cbs[c := CbRead]))
    ensures NoPolls(ms) ==> NoPolls(longer)
  {
    var t := Moves(s, ms).value;
    longer := Then(s, ms, Event(c, t.mask, true));
    longer := Then(s, longer, CallbackStep(c));
    Updated(t.cbs, c, Announced(t.mask), CbMask(t.mask));
    longer := Then(s, longer, CallbackStep(c));
    Updated(t.cbs, c, CbMask(t.mask), CbFast);
    assert Moves(s, longer).value == t.(ready := true, cbs := t.cbs[c := CbFast]);
    longer := Then(s, longer, CallbackStep(c));
    Updated(t.cbs, c, CbFast, CbRead);
  }

  /** And from there to its return, with the stored waker. */
  lemma CallbackLeaves(s: Sock, ms: seq<Move>, c: nat, task: nat) returns (longer: seq<Move>)
    requires Moves(s, ms).Some?
    requires var t := Moves(s, ms).value; t.waker == Some(task) && c in t.cbs && t.cbs[c].CbRead?
    ensures var t := Moves(s, ms).value;
            Moves(s, longer) == Some(t.(lock := Unlocked, holder := Nobody, pending := t.pending + {task},
                                        cbs := t.cbs[c := CbDone]))
    ensures NoPolls(ms) ==> NoPolls(longer)
  {
    var t := Moves(s, ms).value;
    longer := Then(s, ms, CallbackStep(c));
    longer := Then(s, longer, CallbackStep(c));
    Updated(t.cbs, c, CbUnlock(Some(task)), CbWake(task));
    assert Moves(s, longer).value == t.(lock := Unlocked, holder := Nobody, cbs := t.cbs[c := CbWake(task)]);
    longer := Then(s, longer, CallbackStep(c));
    Updated(t.cbs, c, CbWake(task), CbDone);
  }

  /** With two tasks a wake-up can be lost: the socket is ready, the task that waits for it is not queued,
      and no callback is in flight. */
  lemma WakeUpIsLost(s: Sock) returns (ms: seq<Move>)
    requires Quiet(s)
    ensures Moves(s, ms).Some?
    ensures Lost(Moves(s, ms).value)
  {
    var woken := FirstTaskWoken(s);
    var entered := CallbackEnters(s, woken, 1);
    ms := CallbackLeaves(s, entered, 1, 0);
  }

  // ---- When a wake-up can be lost ----------------------------------------

  predicate NoPolls(ms: seq<Move>) {
    forall i :: 0 <= i < |ms| ==> !ms[i].RunBegin?
  }

  /** A wake-up has been lost: the socket is ready and nothing will wake the task that waits for it. */
  predicate Lost(s: Sock) {
    s.parked && s.ready && s.poller !in s.pending && forall c :: c in s.cbs ==> s.cbs[c].CbDone?
  }

  /** The last poller's waker is neither stored nor about to be used, and the poller is not queued. */
  predicate Deaf(s: Sock) {
    s.waker != Some(s.poller) && s.poller !in s.pending && forall c :: c in s.cbs ==> s.cbs[c] != CbWake(s.poller)
  }

  lemma MoveKeepsHearing(s: Sock, m: Move)
    requires SockInv(s) && s.poll.NoPoll? && !Deaf(s) && CanMove(s, m) && !m.RunBegin?
    ensures After(s, m).poll.NoPoll? && !Deaf(After(s, m))
  {
    var s' := After(s, m);
    if s.waker != Some(s.poller) && s.poller !in s'.pending {
      var c :| c in s.cbs && s.cbs[c] == CbWake(s.poller);
      assert c in s'.cbs && s'.cbs[c] == CbWake(s'.poller);
    }
  }

  lemma {:induction false} HearingStays(s: Sock, ms: seq<Move>)
    requires SockInv(s) && s.poll.NoPoll? && !Deaf(s) && NoPolls(ms) && Moves(s, ms).Some?
    ensures var t := Moves(s, ms).value; SockInv(t) && t.poll.NoPoll? && !Deaf(t) && !Lost(t)
  {
    if ms != [] {
      var n := |ms| - 1;
      var u := Moves(s, ms[..n]).value;
      HearingStays(s, ms[..n]);
      MoveKeepsInv(u, ms[n]);
      MoveKeepsHearing(u, ms[n]);
    }
    HearingIsNotLost(Moves(s, ms).value);
  }

  lemma HearingIsNotLost(s: Sock)
    requires SockInv(s) && !Deaf(s)
    ensures !Lost(s)
  {
    assert (forall c :: c in s.cbs ==> s.cbs[c].CbDone?) ==> forall c :: !WillWake(s, c);
  }

  /** The same wait: only callbacks and other tasks have moved. */
  predicate SameWait(s: Sock, t: Sock) {
    && t.mask == s.mask && t.waker == s.waker && t.queued == s.queued && t.poller == s.poller && t.parked == s.parked
    && t.cbs.Keys == s.cbs.Keys
  }

  /** A bound on the steps a callback has left. */
  function Rank(cb: Callback): nat {
    match cb
    case Announced(_) => 7
    case CbMask(_) => 6
    case CbFast => 5
    case CbRead => 4
    case CbUnlock(_) => 3
    case CbWake(_) => 2
    case CbSlow => 1
    case CbDone => 0
  }

  lemma DeafStep(s: Sock, c: nat)
    requires SockInv(s) && Deaf(s) && c in s.cbs && !s.cbs[c].CbDone?
    ensures var t := StepCallback(s, c);
            && SockInv(t) && Deaf(t) && SameWait(s, t) && Rank(t.cbs[c]) < Rank(s.cbs[c])
            && forall d :: d in s.cbs && d != c ==> t.cbs[d] == s.cbs[d]
  {
    MoveKeepsInv(s, CallbackStep(c));
  }

  /** A callback can return without waking the poller. */
  lemma {:induction false} Finish(s: Sock, ms: seq<Move>, c: nat) returns (longer: seq<Move>)
    requires NoPolls(ms) && Moves(s, ms).Some?
    requires var t := Moves(s, ms).value; SockInv(t) && Deaf(t) && c in t.cbs
    ensures NoPolls(longer) && Moves(s, longer).Some?
    ensures var t, u := Moves(s, ms).value, Moves(s, longer).value;
            && SockInv(u) && Deaf(u) && SameWait(t, u) && u.cbs[c].CbDone?
            && forall d :: d in t.cbs && d != c ==> u.cbs[d] == t.cbs[d]
    decreases Rank(Moves(s, ms).value.cbs[c])
  {
    var t := Moves(s, ms).value;
    if t.cbs[c].CbDone? {
      longer := ms;
    } else {
      DeafStep(t, c);
      var next := Then(s, ms, CallbackStep(c));
      longer := Finish(s, next, c);
    }
  }

  function Unfinished(s: Sock): set<nat> {
    set c | c in s.cbs && !s.cbs[c].CbDone?
  }

  /** So can all of them. */
  lemma {:induction false} FinishAll(s: Sock, ms: seq<Move>) returns (longer: seq<Move>)
    requires NoPolls(ms) && Moves(s, ms).Some?
    requires var t := Moves(s, ms).value; SockInv(t) && Deaf(t)
    ensures NoPolls(longer) && Moves(s, longer).Some?
    ensures var t, u := Moves(s, ms).value, Moves(s, longer).value;
            SockInv(u) && Deaf(u) && SameWait(t, u) && Unfinished(u) == {}
    decreases Unfinished(Moves(s, ms).value)
  {
    var t := Moves(s, ms).value;
    if Unfinished(t) == {} {
      longer := ms;
    } else {
      var c :| c in Unfinished(t);
      var next := Finish(s, ms, c);
      assert Unfinished(Moves(s, next).value) <= Unfinished(t) - {c};
      longer := FinishAll(s, next);
    }
  }

  /** While a deaf poller waits, the socket can become ready unheard. */
  lemma DeafLoses(s: Sock) returns (ms: seq<Move>)
    requires SockInv(s) && s.parked && s.mask != {} && Deaf(s)
    ensures NoPolls(ms) && Moves(s, ms).Some? && Lost(Moves(s, ms).value)
  {
    var done := FinishAll(s, []);
    var t := Moves(s, done).value;
    assert forall c :: c in t.cbs ==> c !in Unfinished(t);
    AllDoneUnlocks(t);
    var c := Above(t.cbs.Keys);
    var entered := CallbackEnters(s, done, c);
    ms := CallbackLeaves(s, entered, c, t.waker.value);
  }

  lemma AllDoneUnlocks(s: Sock)
    requires SockInv(s) && s.parked && forall c :: c in s.cbs ==> s.cbs[c].CbDone?
    ensures s.lock.Unlocked? && s.queued && s.waker.Some?
  {
    forall c ensures s.holder != ByCallback(c) {
      assert HoldsWhenInside(s, c);
    }
  }

  /** Of every wait of every run: its wake-up can be lost, in some continuation without another poll, if and
      only if the poller's waker is neither stored nor about to be used and the poller is not queued. */
  lemma LostIffDeaf(s: Sock, ms: seq<Move>)
    requires Start(s) && s.mask != {} && Moves(s, ms).Some? && Moves(s, ms).value.parked
    ensures
      var t := Moves(s, ms).value;
      (exists more :: Loses(t, more)) <==> Deaf(t)
  {
    RunKeepsInv(s, ms);
    var t := Moves(s, ms).value;
    MaskStays(s, ms);
    if Deaf(t) {
      var more := DeafLoses(t);
      assert Loses(t, more);
    } else {
      forall more ensures !Loses(t, more) {
        if NoPolls(more) && Moves(t, more).Some? {
          HearingStays(t, more);
        }
      }
    }
  }

  predicate Loses(s: Sock, more: seq<Move>) {
    NoPolls(more) && Moves(s, more).Some? && Lost(Moves(s, more).value)
  }

  lemma {:induction false} MaskStays(s: Sock, ms: seq<Move>)
    requires Moves(s, ms).Some?
    ensures Moves(s, ms).value.mask == s.mask
  {
    if ms != [] {
      var n := |ms| - 1;
      MaskStays(s, ms[..n]);
      SameMask(Moves(s, ms[..n]).value, ms[n]);
    }
  }

  lemma SameMask(s: Sock, m: Move)
    requires CanMove(s, m)
    ensures After(s, m).mask == s.mask
  {
  }
}
