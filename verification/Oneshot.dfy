/** The async oneshot channel: a sender that writes the value, publishes it, takes and wakes the stored
    waker and releases its half; and a receiver that is polled any number of times and dropped at any
    point. Every load, store, take and decrement is one step; storing and taking the waker are atomic. */
module Oneshot {

  import opened Wrappers

  datatype Chan = Empty | Sent | Closed

  datatype Sender<T> =
    | SndIdle
    | SndWrite(v: T)  // send: write the value
    | SndStore        // send: store SENT
    | SndClose        // drop: store CLOSED
    | SndTake         // take the waker and wake it
    | SndDec          // decrement the reference count
    | SndFree         // the count reached zero: free the block
    | SndGone

  datatype Receiver =
    | RcvIdle         // not polled yet
    | RcvLoad         // poll: load the state
    | RcvStore        // poll: it was EMPTY, store the waker
    | RcvReload       // poll: load the state again
    | RcvRead         // poll: it was SENT, read the value
    | RcvPending      // the last poll returned Pending
    | RcvReady        // the last poll returned Ready
    | RcvDec          // drop: decrement the reference count
    | RcvFree         // the count reached zero: free the block
    | RcvGone

  /** `value`, `waker`, `chan` and `count` are the shared block; the waker of the k-th poll is k. The
      history: `polls` so far, `woken` wakers, the value `sent`, the values `got`, `repolls` after a
      Ready, `frees` of the block and `misuse` of it after a free. */
  datatype State<T> = State(
    value: Option<T>, waker: Option<nat>, chan: Chan, count: nat, snd: Sender<T>, rcv: Receiver,
    polls: nat, woken: set<nat>, sent: Option<T>, got: seq<T>, repolls: nat, frees: nat, misuse: bool)

  datatype Step<T> = Send(v: T) | DropSender | SenderStep | Poll | DropReceiver | ReceiverStep

  predicate Init<T>(s: State<T>) {
    && s.value.None? && s.waker.None? && s.chan.Empty? && s.count == 2 && s.snd.SndIdle? && s.rcv.RcvIdle?
    && s.polls == 0 && s.woken == {} && s.sent.None? && s.got == [] && s.repolls == 0 && s.frees == 0 && !s.misuse
  }

  predicate Enabled<T>(s: State<T>, st: Step<T>) {
    match st
    case Send(_) => s.snd.SndIdle?
    case DropSender => s.snd.SndIdle?
    case SenderStep => !s.snd.SndIdle? && !s.snd.SndGone?
    case Poll => s.rcv.RcvIdle? || s.rcv.RcvPending? || s.rcv.RcvReady?
    case DropReceiver => s.rcv.RcvIdle? || s.rcv.RcvPending? || s.rcv.RcvReady?
    case ReceiverStep => InPoll(s.rcv) || s.rcv.RcvDec? || s.rcv.RcvFree?
  }

  function NextSender<T>(s: State<T>): Sender<T> {
    match s.snd
    case SndWrite(_) => SndStore
    case SndStore => SndTake
    case SndClose => SndTake
    case SndTake => SndDec
    case SndDec => if s.count == 1 then SndFree else SndGone
    case _ => SndGone
  }

  function StepSender<T>(s: State<T>): State<T> {
    s.(snd := NextSender(s),
       value := if s.snd.SndWrite? then Some(s.snd.v) else s.value,
       chan := if s.snd.SndStore? then Sent else if s.snd.SndClose? then Closed else s.chan,
       woken := if s.snd.SndTake? && s.waker.Some? then s.woken + {s.waker.value} else s.woken,
       waker := if s.snd.SndTake? then None else s.waker,
       count := if s.snd.SndDec? && s.count > 0 then s.count - 1 else s.count,
       frees := s.frees + if s.snd.SndFree? then 1 else 0,
       misuse := s.misuse || s.frees > 0)
  }

  /** Where a poll goes after loading the state; `again` says it has stored its waker. */
  function Loaded(chan: Chan, again: bool): Receiver {
    match chan
    case Sent => RcvRead
    case Closed => RcvReady
    case Empty => if again then RcvPending else RcvStore
  }

  function NextReceiver<T>(s: State<T>): Receiver {
    match s.rcv
    case RcvLoad => Loaded(s.chan, false)
    case RcvStore => RcvReload
    case RcvReload => Loaded(s.chan, true)
    case RcvRead => RcvReady
    case RcvDec => if s.count == 1 then RcvFree else RcvGone
    case _ => RcvGone
  }

  function StepReceiver<T>(s: State<T>): State<T> {
    s.(rcv := NextReceiver(s),
       waker := if s.rcv.RcvStore? then Some(s.polls) else s.waker,
       got := if s.rcv.RcvRead? && s.value.Some? then s.got + [s.value.value] else s.got,
       count := if s.rcv.RcvDec? && s.count > 0 then s.count - 1 else s.count,
       frees := s.frees + if s.rcv.RcvFree? then 1 else 0,
       misuse := s.misuse || s.frees > 0)
  }

  function Apply<T>(s: State<T>, st: Step<T>): State<T>
    requires Enabled(s, st)
  {
    match st
    case Send(v) => s.(snd := SndWrite(v), sent := Some(v))
    case DropSender => s.(snd := SndClose)
    case SenderStep => StepSender(s)
    case Poll => s.(rcv := RcvLoad, polls := s.polls + 1, repolls := s.repolls + if s.rcv.RcvReady? then 1 else 0)
    case DropReceiver => s.(rcv := RcvDec)
    case ReceiverStep => StepReceiver(s)
  }

  function Exec<T>(s: State<T>, steps: seq<Step<T>>): Option<State<T>> {
    if steps == [] then Some(s) else
    var n := |steps| - 1;
    match Exec(s, steps[..n])
    case None => None
    case Some(u) => if Enabled(u, steps[n]) then Some(Apply(u, steps[n])) else None
  }

  // ---- The invariant -----------------------------------------------------

  predicate SenderLeft<T>(s: State<T>) {
    s.snd.SndFree? || s.snd.SndGone?
  }

  predicate ReceiverLeft<T>(s: State<T>) {
    s.rcv.RcvFree? || s.rcv.RcvGone?
  }

  /** The sender has not yet taken the waker. */
  predicate BeforeTake<T>(snd: Sender<T>) {
    snd.SndIdle? || snd.SndWrite? || snd.SndStore? || snd.SndClose? || snd.SndTake?
  }

  /** The block is freed by the half that leaves last, once, and not used afterwards. */
  predicate BlockInv<T>(s: State<T>) {
    && s.count == One(!SenderLeft(s)) + One(!ReceiverLeft(s))
    && s.frees + One(s.snd.SndFree?) + One(s.rcv.RcvFree?) == One(SenderLeft(s) && ReceiverLeft(s))
    && !s.misuse
  }

  ghost predicate AllAre<T>(values: seq<T>, sent: Option<T>) {
    forall i :: 0 <= i < |values| ==> sent == Some(values[i])
  }

  ghost predicate ValueInv<T>(s: State<T>) {
    && (s.chan.Empty? <==> s.snd.SndIdle? || s.snd.SndWrite? || s.snd.SndStore? || s.snd.SndClose?)
    && (s.snd.SndWrite? ==> s.sent == Some(s.snd.v))
    && (s.snd.SndStore? || s.chan.Sent? ==> s.sent.Some? && s.value == s.sent)
    && (s.rcv.RcvRead? ==> s.chan.Sent?)
    && (s.got != [] ==> s.chan.Sent?) && AllAre(s.got, s.sent)
    && CountInv(s)
  }

  /** A poll is between its call and its return. */
  predicate InPoll(rcv: Receiver) {
    rcv.RcvLoad? || rcv.RcvStore? || rcv.RcvReload? || rcv.RcvRead?
  }

  /** Every poll from the first Ready on has returned the value, if there is one. */
  predicate CountInv<T>(s: State<T>) {
    && (s.chan.Empty? || s.rcv.RcvIdle? || s.rcv.RcvStore? || s.rcv.RcvReload? || s.rcv.RcvPending? ==> s.repolls == 0)
    && (s.chan.Empty? ==> !s.rcv.RcvReady?)
    && (s.chan.Sent? ==>
          match s.rcv
          case RcvReady => |s.got| == s.repolls + 1
          case RcvDec => |s.got| == s.repolls + 1 || |s.got| == s.repolls == 0
          case RcvFree => |s.got| == s.repolls + 1 || |s.got| == s.repolls == 0
          case RcvGone => |s.got| == s.repolls + 1 || |s.got| == s.repolls == 0
          case _ => |s.got| == s.repolls)
  }

  /** A poll that stored its waker has been woken, or its waker is still there to be taken. */
  predicate WakeInv<T>(s: State<T>) {
    && (s.rcv.RcvReload? || s.rcv.RcvPending? ==> s.polls in s.woken || s.waker == Some(s.polls))
    && (s.rcv.RcvPending? && s.polls !in s.woken ==> BeforeTake(s.snd))
    && (forall k :: k in s.woken ==> !BeforeTake(s.snd))
  }

  ghost predicate Inv<T>(s: State<T>) {
    BlockInv(s) && ValueInv(s) && WakeInv(s)
  }

  // ---- Proofs ------------------------------------------------------------

  lemma SenderKeepsInv<T>(s: State<T>)
    requires Inv(s) && Enabled(s, SenderStep)
    ensures Inv(StepSender(s))
  {
  }

  lemma ReceiverKeepsInv<T>(s: State<T>)
    requires Inv(s) && Enabled(s, ReceiverStep)
    ensures Inv(StepReceiver(s))
  {
  }

  lemma StepKeepsInv<T>(s: State<T>, st: Step<T>)
    requires Inv(s) && Enabled(s, st)
    ensures Inv(Apply(s, st))
  {
    match st
    case SenderStep => SenderKeepsInv(s);
    case ReceiverStep => ReceiverKeepsInv(s);
    case _ => assert Apply(s, st).got == s.got && (s.got != [] ==> s.chan.Sent?);
  }

  lemma {:induction false} RunKeepsInv<T>(s: State<T>, steps: seq<Step<T>>)
    requires Init(s) && Exec(s, steps).Some?
    ensures Inv(Exec(s, steps).value)
  {
    if steps != [] {
      var n := |steps| - 1;
      RunKeepsInv(s, steps[..n]);
      StepKeepsInv(Exec(s, steps[..n]).value, steps[n]);
    }
  }

  /** No lost wake: over every run, when the last poll returned Pending, its waker has been woken or is
      stored and will be taken; so once a send or a drop of the sender is past its take, it was woken. */
  lemma NoLostWake<T>(s: State<T>, steps: seq<Step<T>>)
    requires Init(s) && Exec(s, steps).Some?
    ensures
      var t := Exec(s, steps).value;
      t.rcv.RcvPending? ==>
        && (t.polls in t.woken || (t.waker == Some(t.polls) && BeforeTake(t.snd)))
        && (!BeforeTake(t.snd) ==> t.polls in t.woken)
  {
    RunKeepsInv(s, steps);
  }

  /** Over every run: every value a poll returned is the one sent; once a poll has returned Ready, it has
      been returned once and then again by every later poll; so between polls it has been returned at
      most once if and only if the receiver was not polled after Ready or the sender was dropped. */
  lemma DeliveredOnceIff<T>(s: State<T>, steps: seq<Step<T>>)
    requires Init(s) && Exec(s, steps).Some?
    ensures
      var t := Exec(s, steps).value;
      && AllAre(t.got, t.sent) && (t.got != [] ==> t.chan.Sent?)
      && (t.rcv.RcvReady? ==> |t.got| == if t.chan.Sent? then t.repolls + 1 else 0)
      && (!InPoll(t.rcv) ==> (|t.got| <= 1 <==> t.repolls == 0 || t.chan.Closed?))
  {
    RunKeepsInv(s, steps);
  }

  /** In every good state, what a poll answers: Pending exactly when the channel is still empty at its second
      look; otherwise it is Ready, with the value that was sent, or with none if the sender was dropped. */
  lemma PollAnswers<T>(s: State<T>)
    requires Inv(s) && Enabled(s, ReceiverStep)
    ensures
      var t := Apply(s, ReceiverStep);
      && (s.rcv.RcvLoad? && s.chan.Empty? ==> t.rcv.RcvStore?)
      && (s.rcv.RcvReload? ==> (t.rcv.RcvPending? <==> s.chan.Empty?))
      && ((s.rcv.RcvLoad? || s.rcv.RcvReload?) && s.chan.Closed? ==> t.rcv.RcvReady? && t.got == s.got)
      && ((s.rcv.RcvLoad? || s.rcv.RcvReload?) && s.chan.Sent? ==>
            && t.rcv.RcvRead? && s.sent.Some?
            && Apply(t, ReceiverStep).rcv.RcvReady? && Apply(t, ReceiverStep).got == s.got + [s.sent.value])
  {
  }

  /** Over every run: the block is freed at most once, exactly once when both halves have left, never
      before, and neither half touches it afterwards. */
  lemma FreedOnceByTheLast<T>(s: State<T>, steps: seq<Step<T>>)
    requires Init(s) && Exec(s, steps).Some?
    ensures
      var t := Exec(s, steps).value;
      && !t.misuse && t.frees <= 1
      && (t.frees == 1 ==> SenderLeft(t) && ReceiverLeft(t))
      && (t.snd.SndGone? && t.rcv.RcvGone? ==> t.frees == 1)
  {
    RunKeepsInv(s, steps);
  }

  lemma Then<T>(s: State<T>, steps: seq<Step<T>>, st: Step<T>) returns (longer: seq<Step<T>>)
    requires Exec(s, steps).Some? && Enabled(Exec(s, steps).value, st)
    ensures Exec(s, longer) == Some(Apply(Exec(s, steps).value, st))
  {
    longer := steps + [st];
    assert longer[..|steps|] == steps;
  }

  /** Polled once more after Ready, the receiver hands out the sent value twice. */
  lemma RepollDeliversTwice<T>(s: State<T>, v: T) returns (steps: seq<Step<T>>)
    requires Init(s)
    ensures Exec(s, steps).Some? && Exec(s, steps).value.got == [v, v]
  {
    steps := Then(s, [], Send(v));
    steps := Then(s, steps, SenderStep);
    steps := Then(s, steps, SenderStep);
    steps := Then(s, steps, Poll);
    steps := Then(s, steps, ReceiverStep);
    steps := Then(s, steps, ReceiverStep);
    steps := Then(s, steps, Poll);
    steps := Then(s, steps, ReceiverStep);
    steps := Then(s, steps, ReceiverStep);
  }
}
