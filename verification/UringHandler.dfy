/** The io_uring bridge: request ids, response senders and per-queue backlogs, shared by the HTTP tasks and the
    commands from userspace. Every step is one critical section. */
module UringHandler {

  import opened Wrappers
  import opened Words

  const DEFAULT_MAX: nat := 256

  /** A task in `handle`: about to store its sender, about to buffer its request, waiting, or finished. */
  datatype Phase = Ready(queue: nat) | Stored(queue: nat) | Waiting | Done

  /** A request queue, with everything ever put into and taken out of its backlog. */
  datatype Queue = Queue(max: nat, buffered: seq<nat>, enqueued: seq<nat>, handed: seq<nat>)

  /** `issued` ids have been allocated. `resolved` lists the senders used or dropped, `delivered` the ids
      whose requests userspace has received, cut to the length of its buffer. */
  datatype State = State(
    issued: nat, next: nat, phase: map<nat, Phase>, pending: seq<nat>, resolved: seq<nat>,
    queues: map<nat, Queue>, nextQueue: nat, delivered: set<nat>)

  datatype Step =
    | Begin(route: Option<nat>, prepared: bool)
    | StoreSender(id: nat, granted: bool)
    | Buffer(id: nat, granted: bool)
    | Finish(id: nat)
    | CreateQueue(maxPending: nat, granted: bool)
    | DestroyQueue(queue: nat)
    | Recv(queue: nat, copied: bool)
    | SendResponse(id: nat, copied: bool)

  predicate Init(s: State) {
    && s.issued == 0 && s.next == 1 && s.phase == map[] && s.pending == [] && s.resolved == []
    && s.queues == map[] && s.nextQueue == 1 && s.delivered == {}
  }

  function NextId(id: nat): nat {
    if id + 1 == U64_SIZE then 0 else id + 1
  }

  /** Commands are always possible; a task moves through its phases. */
  predicate Enabled(s: State, st: Step) {
    match st
    case StoreSender(id, _) => id in s.phase && s.phase[id].Ready?
    case Buffer(id, _) => id in s.phase && s.phase[id].Stored?
    case Finish(id) => id in s.phase && s.phase[id].Waiting? && id in s.resolved
    case _ => true
  }

  function Without(s: seq<nat>, id: nat): seq<nat> {
    if s == [] then [] else if s[0] == id then s[1..] else [s[0]] + Without(s[1..], id)
  }

  /** The queue takes the request if it exists, is not full and can grow. */
  predicate Accepts(s: State, q: nat, granted: bool) {
    q in s.queues && |s.queues[q].buffered| < s.queues[q].max && granted
  }

  predicate HandsOut(s: State, q: nat) {
    q in s.queues && s.queues[q].buffered != []
  }

  function Enqueue(q: Queue, id: nat): Queue {
    q.(buffered := q.buffered + [id], enqueued := q.enqueued + [id])
  }

  function Dequeue(q: Queue): Queue
    requires q.buffered != []
  {
    q.(buffered := q.buffered[1..], handed := q.handed + [q.buffered[0]])
  }

  function PhaseAfter(s: State, st: Step): map<nat, Phase>
    requires Enabled(s, st)
  {
    match st
    case Begin(route, prepared) => s.phase[s.next := if route.Some? && prepared then Ready(route.value) else Done]
    case StoreSender(id, _) => s.phase[id := Stored(s.phase[id].queue)]
    case Buffer(id, _) => s.phase[id := Waiting]
    case Finish(id) => s.phase[id := Done]
    case _ => s.phase
  }

  function PendingAfter(s: State, st: Step): seq<nat> {
    match st
    case StoreSender(id, granted) => if granted then s.pending + [id] else s.pending
    case SendResponse(id, _) => if id in s.pending then Without(s.pending, id) else s.pending
    case _ => s.pending
  }

  /** A sender is used up by the response, and dropped if it cannot be stored or the response not copied. */
  function ResolvedAfter(s: State, st: Step): seq<nat> {
    match st
    case StoreSender(id, granted) => if granted then s.resolved else s.resolved + [id]
    case SendResponse(id, _) => if id in s.pending then s.resolved + [id] else s.resolved
    case _ => s.resolved
  }

  function QueuesAfter(s: State, st: Step): map<nat, Queue>
    requires Enabled(s, st)
  {
    match st
    case Buffer(id, granted) =>
      var q := s.phase[id].queue;
      if Accepts(s, q, granted) then s.queues[q := Enqueue(s.queues[q], id)] else s.queues
    case CreateQueue(max, granted) =>
      if granted then s.queues[s.nextQueue := Queue(if max == 0 then DEFAULT_MAX else max, [], [], [])] else s.queues
    case DestroyQueue(q) => s.queues - {q}
    case Recv(q, _) => if HandsOut(s, q) then s.queues[q := Dequeue(s.queues[q])] else s.queues
    case _ => s.queues
  }

  /** A request that cannot be copied out is gone all the same. */
  function DeliveredAfter(s: State, st: Step): set<nat> {
    match st
    case Recv(q, copied) => if HandsOut(s, q) && copied then s.delivered + {s.queues[q].buffered[0]} else s.delivered
    case _ => s.delivered
  }

  function Apply(s: State, st: Step): State
    requires Enabled(s, st)
  {
    State(
      s.issued + One(st.Begin?),
      if st.Begin? then NextId(s.next) else s.next,
      PhaseAfter(s, st), PendingAfter(s, st), ResolvedAfter(s, st), QueuesAfter(s, st),
      s.nextQueue + One(st.CreateQueue?),
      DeliveredAfter(s, st))
  }

  // ---- the invariant ------------------------------------------------------

  /** How many senders there are for an id, stored or resolved. */
  function Senders(s: State, id: nat): nat {
    multiset(s.pending)[id] + multiset(s.resolved)[id]
  }

  ghost predicate IdsInv(s: State) {
    && s.issued < U64_SIZE && s.next == NextId(s.issued)
    && forall id :: id in s.phase ==> 0 < id <= s.issued
  }

  /** Each id has at most one sender: exactly one once it is stored, none before. */
  ghost predicate SendersInv(s: State) {
    && (forall id :: Senders(s, id) <= 1)
    && (forall id :: Senders(s, id) == 1 ==> id in s.phase && !s.phase[id].Ready?)
    && (forall id :: id in s.phase && (s.phase[id].Stored? || s.phase[id].Waiting?) ==> Senders(s, id) == 1)
  }

  /** The request of `id` may be in a backlog: its sender came first. */
  ghost predicate Buffered(s: State, id: nat) {
    id in s.phase && (s.phase[id].Waiting? || s.phase[id].Done?) && Senders(s, id) == 1
  }

  /** A backlog is within its limit and holds, in order, what has been put in but not handed out; no request
      is put in twice. */
  ghost predicate QueueInv(s: State, q: Queue) {
    && |q.buffered| <= q.max && q.enqueued == q.handed + q.buffered
    && forall id :: id in q.enqueued ==> Buffered(s, id) && multiset(q.enqueued)[id] == 1
  }

  ghost predicate QueuesInv(s: State) {
    && (forall q :: q in s.queues ==> q < s.nextQueue && QueueInv(s, s.queues[q]))
    && (forall id :: id in s.delivered ==> Buffered(s, id))
  }

  ghost predicate Inv(s: State) {
    IdsInv(s) && SendersInv(s) && QueuesInv(s)
  }

  // ---- every step keeps it ------------------------------------------------

  lemma {:induction false} WithoutOne(s: seq<nat>, id: nat)
    requires id in s
    ensures multiset(s) == multiset(Without(s, id)) + multiset{id}
  {
    assert s == [s[0]] + s[1..];
    if s[0] != id {
      WithoutOne(s[1..], id);
    }
  }

  /** Senders come with `StoreSender` and stay, stored or resolved. */
  lemma SendersAfter(s: State, st: Step, id: nat)
    requires Enabled(s, st)
    ensures Senders(Apply(s, st), id) == Senders(s, id) + One(st.StoreSender? && st.id == id)
  {
    if st.SendResponse? && st.id in s.pending {
      WithoutOne(s.pending, st.id);
    }
  }

  lemma IdsKept(s: State, st: Step)
    requires Enabled(s, st) && IdsInv(s) && s.issued + One(st.Begin?) < U64_SIZE
    ensures IdsInv(Apply(s, st))
    ensures st.Begin? ==> s.next !in s.phase
  {
  }

  lemma SendersKept(s: State, st: Step)
    requires Enabled(s, st) && IdsInv(s) && SendersInv(s) && s.issued + One(st.Begin?) < U64_SIZE
    ensures SendersInv(Apply(s, st))
  {
    var s' := Apply(s, st);
    IdsKept(s, st);
    forall id
      ensures Senders(s', id) <= 1
      ensures Senders(s', id) == 1 ==> id in s'.phase && !s'.phase[id].Ready?
      ensures id in s'.phase && (s'.phase[id].Stored? || s'.phase[id].Waiting?) ==> Senders(s', id) == 1
    {
      SendersAfter(s, st, id);
    }
  }

  /** A buffered request stays one. */
  lemma BufferedStays(s: State, st: Step, id: nat)
    requires Enabled(s, st) && IdsInv(s) && SendersInv(s) && s.issued + One(st.Begin?) < U64_SIZE && Buffered(s, id)
    ensures Buffered(Apply(s, st), id)
  {
    SendersAfter(s, st, id);
    IdsKept(s, st);
  }

  lemma QueueStays(s: State, st: Step, q: Queue)
    requires Enabled(s, st) && IdsInv(s) && SendersInv(s) && s.issued + One(st.Begin?) < U64_SIZE && QueueInv(s, q)
    ensures QueueInv(Apply(s, st), q)
  {
    forall id | id in q.enqueued ensures Buffered(Apply(s, st), id) {
      BufferedStays(s, st, id);
    }
  }

  lemma EnqueueKeeps(s: State, q: Queue, id: nat)
    requires QueueInv(s, q) && |q.buffered| < q.max && Buffered(s, id) && id !in q.enqueued
    ensures QueueInv(s, Enqueue(q, id))
  {
  }

  lemma DequeueKeeps(s: State, q: Queue)
    requires QueueInv(s, q) && q.buffered != []
    ensures QueueInv(s, Dequeue(q))
  {
    assert q.buffered == [q.buffered[0]] + q.buffered[1..];
  }

  lemma QueuesKept(s: State, st: Step)
    requires Enabled(s, st) && Inv(s) && s.issued + One(st.Begin?) < U64_SIZE
    ensures QueuesInv(Apply(s, st))
  {
    var s' := Apply(s, st);
    forall q | q in s'.queues ensures q < s'.nextQueue && QueueInv(s', s'.queues[q]) {
      if q in s.queues {
        QueueStays(s, st, s.queues[q]);
        if st.Buffer? && s'.queues[q] != s.queues[q] {
          SendersAfter(s, st, st.id);
          assert !Buffered(s, st.id);
          EnqueueKeeps(s', s.queues[q], st.id);
        }
        if st.Recv? && s'.queues[q] != s.queues[q] {
          DequeueKeeps(s', s.queues[q]);
        }
      }
    }
    forall id | id in s'.delivered ensures Buffered(s', id) {
      if id !in s.delivered {
        assert id in s.queues[st.queue].enqueued;
      }
      BufferedStays(s, st, id);
    }
  }

  lemma StepKeepsInv(s: State, st: Step)
    requires Enabled(s, st) && Inv(s) && s.issued + One(st.Begin?) < U64_SIZE
    ensures Inv(Apply(s, st))
  {
    IdsKept(s, st);
    SendersKept(s, st);
    QueuesKept(s, st);
  }

  // ---- every run ----------------------------------------------------------

  /** The state after a run, if all its steps are possible. */
  function Exec(s: State, steps: seq<Step>): Option<State> {
    if steps == [] then Some(s) else
    var before := Exec(s, steps[..|steps| - 1]);
    var st := steps[|steps| - 1];
    if before.Some? && Enabled(before.value, st) then Some(Apply(before.value, st)) else None
  }

  lemma {:induction false} RunKeepsInv(s: State, steps: seq<Step>)
    requires Inv(s) && Exec(s, steps).Some? && Exec(s, steps).value.issued < U64_SIZE
    ensures Inv(Exec(s, steps).value)
  {
    if steps != [] {
      RunKeepsInv(s, steps[..|steps| - 1]);
      StepKeepsInv(Exec(s, steps[..|steps| - 1]).value, steps[|steps| - 1]);
    }
  }

  lemma InitInv(s: State)
    requires Init(s)
    ensures Inv(s)
  {
  }

  /** In every run of fewer than 2^64 requests: the next id has never been used; no sender is resolved twice
      or both stored and resolved; an id that has been delivered and not resolved is found by SEND_RESPONSE. */
  lemma SendersAreUsedOnce(s: State, steps: seq<Step>, id: nat)
    requires Init(s) && Exec(s, steps).Some? && Exec(s, steps).value.issued < U64_SIZE - 1
    ensures var t := Exec(s, steps).value;
            && t.next !in t.phase
            && multiset(t.pending)[id] + multiset(t.resolved)[id] <= 1
            && (id in t.delivered && id !in t.resolved ==> id in t.pending)
            && (id in t.phase && t.phase[id].Waiting? ==> id in t.pending || id in t.resolved)
  {
    InitInv(s);
    RunKeepsInv(s, steps);
    var t := Exec(s, steps).value;
    assert Senders(t, id) <= 1;
    IdsKept(t, Begin(None, false));
    if id in t.delivered {
      assert Buffered(t, id);
    }
  }

  /** In every run, what a queue has handed out is the beginning of what was put in, in order and without
      repetition, and its backlog is the rest and within the limit. */
  lemma BacklogIsFifo(s: State, steps: seq<Step>, q: nat)
    requires Init(s) && Exec(s, steps).Some? && Exec(s, steps).value.issued < U64_SIZE
    requires q in Exec(s, steps).value.queues
    ensures var queue := Exec(s, steps).value.queues[q];
            && queue.enqueued == queue.handed + queue.buffered && |queue.buffered| <= queue.max
            && forall id :: id in queue.enqueued ==> multiset(queue.enqueued)[id] == 1
  {
    InitInv(s);
    RunKeepsInv(s, steps);
    assert QueueInv(Exec(s, steps).value, Exec(s, steps).value.queues[q]);
  }

  // ---- where a request goes -----------------------------------------------

  /** In this run, the request that was given `id` had a route, and the route named queue `q`. */
  ghost predicate Named(s: State, steps: seq<Step>, id: nat, q: nat) {
    steps != [] &&
    var n := |steps| - 1;
    var before := Exec(s, steps[..n]);
    Named(s, steps[..n], id, q) || (before.Some? && before.value.next == id && steps[n] == Begin(Some(q), true))
  }

  /** In this run, queue `q` was created by a command that asked for the limit `max`. */
  ghost predicate Asked(s: State, steps: seq<Step>, q: nat, max: nat) {
    steps != [] &&
    var n := |steps| - 1;
    var before := Exec(s, steps[..n]);
    Asked(s, steps[..n], q, max)
    || (before.Some? && before.value.nextQueue == q && steps[n] == CreateQueue(max, true))
  }

  /** What `Named` and `Asked` say of the state the run has come to. */
  ghost predicate PlacesInv(s: State, steps: seq<Step>, t: State) {
    && (forall id :: id in t.phase && (t.phase[id].Ready? || t.phase[id].Stored?) ==>
          Named(s, steps, id, t.phase[id].queue))
    && (forall q, id :: q in t.queues && id in t.queues[q].enqueued ==> Named(s, steps, id, q))
    && (forall q :: q in t.queues ==> LimitAsked(s, steps, q, t.queues[q].max))
  }

  /** A queue created without a limit has room for 256 requests, any other for as many as were asked for. */
  ghost predicate LimitAsked(s: State, steps: seq<Step>, q: nat, max: nat) {
    if Asked(s, steps, q, 0) then max == 256 else max > 0 && Asked(s, steps, q, max)
  }

  lemma {:induction false} RunKeepsPlaces(s: State, steps: seq<Step>)
    requires Init(s) && Exec(s, steps).Some? && Exec(s, steps).value.issued < U64_SIZE
    ensures PlacesInv(s, steps, Exec(s, steps).value)
  {
    if steps != [] {
      var n := |steps| - 1;
      RunKeepsPlaces(s, steps[..n]);
      InitInv(s);
      RunKeepsInv(s, steps[..n]);
      PhasesKeepPlaces(s, steps);
      QueuesKeepPlaces(s, steps);
      var t := Exec(s, steps).value;
      forall q | q in t.queues ensures LimitAsked(s, steps, q, t.queues[q].max) {
        LimitKept(s, steps, q);
      }
    }
  }

  lemma PhasesKeepPlaces(s: State, steps: seq<Step>)
    requires steps != [] && Exec(s, steps).Some?
    requires PlacesInv(s, steps[..|steps| - 1], Exec(s, steps[..|steps| - 1]).value)
    ensures var t := Exec(s, steps).value;
            forall id :: id in t.phase && (t.phase[id].Ready? || t.phase[id].Stored?) ==>
                           Named(s, steps, id, t.phase[id].queue)
  {
  }

  lemma QueuesKeepPlaces(s: State, steps: seq<Step>)
    requires steps != [] && Exec(s, steps).Some?
    requires PlacesInv(s, steps[..|steps| - 1], Exec(s, steps[..|steps| - 1]).value)
    ensures var t := Exec(s, steps).value;
            forall q, id :: q in t.queues && id in t.queues[q].enqueued ==> Named(s, steps, id, q)
  {
  }

  /** Only the creation of a queue settles its limit. */
  lemma LimitKept(s: State, steps: seq<Step>, q: nat)
    requires Init(s) && steps != [] && Exec(s, steps).Some? && q in Exec(s, steps).value.queues
    requires PlacesInv(s, steps[..|steps| - 1], Exec(s, steps[..|steps| - 1]).value)
    requires Inv(Exec(s, steps[..|steps| - 1]).value)
    ensures LimitAsked(s, steps, q, Exec(s, steps).value.queues[q].max)
  {
    var n := |steps| - 1;
    var before := Exec(s, steps[..n]).value;
    if q in before.queues {
      assert q < before.nextQueue && LimitAsked(s, steps[..n], q, before.queues[q].max);
    } else if Asked(s, steps[..n], q, 0) {
      AskedIsCreated(s, steps[..n], q, 0);
    }
  }

  lemma {:induction false} AskedIsCreated(s: State, steps: seq<Step>, q: nat, max: nat)
    requires Exec(s, steps).Some? && Asked(s, steps, q, max)
    ensures q < Exec(s, steps).value.nextQueue
  {
    var n := |steps| - 1;
    if Asked(s, steps[..n], q, max) {
      AskedIsCreated(s, steps[..n], q, max);
    }
  }

  /** In every run: a request is put into the queue that its route named, and into no other; and a queue has
      the limit that it was created with, 256 if none was given. */
  lemma RoutedQueueAndLimit(s: State, steps: seq<Step>, q: nat)
    requires Init(s) && Exec(s, steps).Some? && Exec(s, steps).value.issued < U64_SIZE
    requires q in Exec(s, steps).value.queues
    ensures var queue := Exec(s, steps).value.queues[q];
            && (forall id :: id in queue.enqueued ==> Named(s, steps, id, q))
            && (forall id, other: nat :: id in queue.enqueued && Named(s, steps, id, other) ==> other == q)
            && (exists max: nat :: Asked(s, steps, q, max))
            && forall max: nat :: Asked(s, steps, q, max) ==> queue.max == if max == 0 then 256 else max
  {
    RunKeepsPlaces(s, steps);
    var queue := Exec(s, steps).value.queues[q];
    forall id, other: nat | id in queue.enqueued && Named(s, steps, id, other) ensures other == q {
      NamedOnce(s, steps, id, q, other);
    }
    assert LimitAsked(s, steps, q, queue.max);
    forall max: nat | Asked(s, steps, q, max) ensures queue.max == if max == 0 then 256 else max {
      AskedOnce(s, steps, q, max, if Asked(s, steps, q, 0) then 0 else queue.max);
    }
  }

  lemma {:induction false} NamedOnce(s: State, steps: seq<Step>, id: nat, q: nat, other: nat)
    requires Init(s) && Exec(s, steps).Some? && Exec(s, steps).value.issued < U64_SIZE
    requires Named(s, steps, id, q) && Named(s, steps, id, other)
    ensures q == other
  {
    var n := |steps| - 1;
    InitInv(s);
    RunKeepsInv(s, steps[..n]);
    if Named(s, steps[..n], id, q) {
      NamedIsIssued(s, steps[..n], id, q);
    }
    if Named(s, steps[..n], id, other) {
      NamedIsIssued(s, steps[..n], id, other);
      if Named(s, steps[..n], id, q) {
        NamedOnce(s, steps[..n], id, q, other);
      }
    }
  }

  lemma {:induction false} NamedIsIssued(s: State, steps: seq<Step>, id: nat, q: nat)
    requires Init(s) && Exec(s, steps).Some? && Exec(s, steps).value.issued < U64_SIZE
    requires Named(s, steps, id, q)
    ensures 0 < id <= Exec(s, steps).value.issued
  {
    var n := |steps| - 1;
    InitInv(s);
    RunKeepsInv(s, steps[..n]);
    if Named(s, steps[..n], id, q) {
      NamedIsIssued(s, steps[..n], id, q);
    }
  }

  lemma {:induction false} AskedOnce(s: State, steps: seq<Step>, q: nat, max: nat, other: nat)
    requires Exec(s, steps).Some? && Asked(s, steps, q, max) && Asked(s, steps, q, other)
    ensures max == other
  {
    var n := |steps| - 1;
    if Asked(s, steps[..n], q, max) {
      AskedIsCreated(s, steps[..n], q, max);
    }
    if Asked(s, steps[..n], q, other) {
      AskedIsCreated(s, steps[..n], q, other);
      if Asked(s, steps[..n], q, max) {
        AskedOnce(s, steps[..n], q, max, other);
      }
    }
  }

  // ---- requests that no queue takes ---------------------------------------

  /** `id` is past buffering and in no backlog. */
  ghost predicate Gone(s: State, id: nat) {
    && id in s.phase && (s.phase[id].Waiting? || s.phase[id].Done?) && id !in s.delivered
    && forall q :: q in s.queues ==> id !in s.queues[q].buffered
  }

  lemma {:induction false} GoneStaysGone(s: State, steps: seq<Step>, id: nat)
    requires Inv(s) && Gone(s, id) && Exec(s, steps).Some? && Exec(s, steps).value.issued < U64_SIZE
    ensures Gone(Exec(s, steps).value, id)
  {
    if steps != [] {
      var before, st := Exec(s, steps[..|steps| - 1]).value, steps[|steps| - 1];
      RunKeepsInv(s, steps[..|steps| - 1]);
      GoneStaysGone(s, steps[..|steps| - 1], id);
      IdsKept(before, st);
    }
  }

  /** `n` times RECV_REQUEST on a queue. */
  function Drain(q: nat, n: nat): seq<Step> {
    if n == 0 then [] else Drain(q, n - 1) + [Recv(q, true)]
  }

  lemma {:induction false} Drained(s: State, q: nat, n: nat)
    requires q in s.queues && n <= |s.queues[q].buffered|
    ensures Exec(s, Drain(q, n)).Some?
    ensures var t := Exec(s, Drain(q, n)).value;
            && t.issued == s.issued && q in t.queues && t.queues[q].buffered == s.queues[q].buffered[n..]
            && forall i :: 0 <= i < n ==> s.queues[q].buffered[i] in t.delivered
  {
    if n > 0 {
      Drained(s, q, n - 1);
      var t := Exec(s, Drain(q, n - 1)).value;
      DrainedOneMore(s, q, n);
      RecvOne(t, q);
      NextInLine(s.queues[q].buffered, t.queues[q].buffered, n);
    }
  }

  lemma DrainedOneMore(s: State, q: nat, n: nat)
    requires n > 0 && Exec(s, Drain(q, n - 1)).Some?
    ensures Exec(s, Drain(q, n)) == Some(Apply(Exec(s, Drain(q, n - 1)).value, Recv(q, true)))
  {
    var steps := Drain(q, n);
    assert steps[..|steps| - 1] == Drain(q, n - 1);
  }

  lemma NextInLine(all: seq<nat>, rest: seq<nat>, n: nat)
    requires 0 < n <= |all| && rest == all[n - 1..]
    ensures rest[0] == all[n - 1] && rest[1..] == all[n..]
  {
  }

  lemma RecvOne(s: State, q: nat)
    requires HandsOut(s, q)
    ensures var t := Apply(s, Recv(q, true));
            && t.issued == s.issued && q in t.queues && t.queues[q].buffered == s.queues[q].buffered[1..]
            && t.delivered == s.delivered + {s.queues[q].buffered[0]}
  {
  }

  ghost predicate InBacklog(s: State, id: nat) {
    exists q :: q in s.queues && id in s.queues[q].buffered
  }

  /** From any point after it was offered to its queue, userspace has received or can still receive a request
      if and only if it is delivered or in a backlog. Otherwise the task is left waiting for a response to
      a request nobody can see. */
  lemma DeliverableIff(s: State, id: nat)
    requires Inv(s) && id in s.phase && (s.phase[id].Waiting? || s.phase[id].Done?)
    ensures (exists steps :: Delivers(s, steps, id)) <==> id in s.delivered || InBacklog(s, id)
  {
    if id in s.delivered {
      assert Delivers(s, [], id);
    } else if InBacklog(s, id) {
      var q :| q in s.queues && id in s.queues[q].buffered;
      var i :| 0 <= i < |s.queues[q].buffered| && s.queues[q].buffered[i] == id;
      Drained(s, q, i + 1);
      assert Delivers(s, Drain(q, i + 1), id);
    } else {
      forall steps ensures !Delivers(s, steps, id) {
        if Exec(s, steps).Some? && Exec(s, steps).value.issued < U64_SIZE {
          GoneStaysGone(s, steps, id);
        }
      }
    }
  }

  /** At the moment it is offered: if and only if the queue exists, is not full and can grow. */
  lemma DeliverableIffAccepted(s: State, id: nat, granted: bool)
    requires Inv(s) && Enabled(s, Buffer(id, granted))
    ensures
      var q := s.phase[id].queue;
      (exists steps :: Delivers(Apply(s, Buffer(id, granted)), steps, id)) <==>
        q in s.queues && |s.queues[q].buffered| < s.queues[q].max && granted
  {
    var q := s.phase[id].queue;
    var t := Apply(s, Buffer(id, granted));
    StepKeepsInv(s, Buffer(id, granted));
    NotBuffered(s, id);
    DeliverableIff(t, id);
    if Accepts(s, q, granted) {
      var b := t.queues[q].buffered;
      assert b[|b| - 1] == id;
    }
  }

  ghost predicate Delivers(s: State, steps: seq<Step>, id: nat) {
    Exec(s, steps).Some? && Exec(s, steps).value.issued < U64_SIZE && id in Exec(s, steps).value.delivered
  }

  /** Before it is offered to its queue, a request is in no backlog and has not been delivered. */
  lemma NotBuffered(s: State, id: nat)
    requires Inv(s) && id in s.phase && s.phase[id].Stored?
    ensures id !in s.delivered && forall q :: q in s.queues ==> id !in s.queues[q].buffered
  {
    assert !Buffered(s, id);
    forall q | q in s.queues ensures id !in s.queues[q].buffered {
      assert QueueInv(s, s.queues[q]);
      assert id !in s.queues[q].enqueued;
    }
  }

  lemma Then(s: State, steps: seq<Step>, st: Step) returns (longer: seq<Step>)
    requires Exec(s, steps).Some? && Enabled(Exec(s, steps).value, st)
    ensures Exec(s, longer) == Some(Apply(Exec(s, steps).value, st))
  {
    longer := steps + [st];
    assert longer[..|steps|] == steps;
  }

  /** Queue 1 is the only one, request 1 the only task, and nothing is delivered or resolved. */
  predicate At(s: State, issued: nat, phase: map<nat, Phase>, pending: seq<nat>, queue: Queue) {
    && s.issued == issued && s.next == issued + 1 && s.phase == phase && s.pending == pending && s.resolved == []
    && s.delivered == {} && s.queues == map[1 := queue]
  }

  lemma Created(s: State)
    requires Init(s)
    ensures At(Apply(s, CreateQueue(0, true)), 0, map[], [], Queue(DEFAULT_MAX, [], [], []))
  {
    var q := Queue(DEFAULT_MAX, [], [], []);
    assert QueuesAfter(s, CreateQueue(0, true)) == s.queues[1 := q] == map[1 := q];
  }

  lemma Routed(s: State, q: Queue)
    requires At(s, 0, map[], [], q)
    ensures At(Apply(s, Begin(Some(1), true)), 1, map[1 := Ready(1)], [], q)
  {
  }

  lemma SenderStored(s: State, q: Queue)
    requires At(s, 1, map[1 := Ready(1)], [], q)
    ensures At(Apply(s, StoreSender(1, true)), 1, map[1 := Stored(1)], [1], q)
  {
    assert s.phase[1 := Stored(1)] == map[1 := Stored(1)];
  }

  lemma Accepted(s: State, q: Queue)
    requires At(s, 1, map[1 := Stored(1)], [1], q) && |q.buffered| < q.max
    ensures At(Apply(s, Buffer(1, true)), 1, map[1 := Waiting], [1], Enqueue(q, 1))
  {
    assert s.phase[1 := Waiting] == map[1 := Waiting];
  }

  /** Queue 1 is created, and request 1 is routed to it. */
  lemma RoutedRun(s: State) returns (steps: seq<Step>)
    requires Init(s)
    ensures Exec(s, steps).Some? && At(Exec(s, steps).value, 1, map[1 := Ready(1)], [], Queue(DEFAULT_MAX, [], [], []))
  {
    var created := Then(s, [], CreateQueue(0, true));
    Created(s);
    var t := Exec(s, created).value;
    assert t == Apply(s, CreateQueue(0, true));
    Routed(t, Queue(DEFAULT_MAX, [], [], []));
    steps := Then(s, created, Begin(Some(1), true));
  }

  /** Request 1 is accepted by queue 1. */
  lemma AcceptedRun(s: State) returns (steps: seq<Step>)
    requires Init(s)
    ensures Exec(s, steps).Some?
    ensures At(Exec(s, steps).value, 1, map[1 := Waiting], [1], Enqueue(Queue(DEFAULT_MAX, [], [], []), 1))
  {
    var q := Queue(DEFAULT_MAX, [], [], []);
    var routed := RoutedRun(s);
    SenderStored(Exec(s, routed).value, q);
    var stored := Then(s, routed, StoreSender(1, true));
    Accepted(Exec(s, stored).value, q);
    steps := Then(s, stored, Buffer(1, true));
  }

  /** An accepted request is lost when its queue is destroyed, or when it cannot be copied out: its task
      waits, its sender is pending, and no continuation delivers it. */
  lemma AcceptedRequestIsLost(s: State, destroy: bool) returns (steps: seq<Step>)
    requires Init(s)
    ensures Exec(s, steps).Some?
    ensures var t := Exec(s, steps).value;
            && 1 in t.phase && t.phase[1].Waiting? && t.pending == [1]
            && forall more :: !Delivers(t, more, 1)
  {
    var accepted := AcceptedRun(s);
    steps := Then(s, accepted, if destroy then DestroyQueue(1) else Recv(1, false));
    InitInv(s);
    RunKeepsInv(s, steps);
    var t := Exec(s, steps).value;
    assert !InBacklog(t, 1);
    DeliverableIff(t, 1);
  }
}
