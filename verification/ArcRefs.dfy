/** The reference count of an `Arc<Task>`: owners clone and drop it, wakers carry it as a raw pointer,
    `__enqueue` lends one reference to the workqueue, the work callback takes it back, and a flush that
    cancels a pending item leaves its reference behind for ever. Every fetch_add, fetch_sub, conversion
    and workqueue call is one step; the count is a wrapping 32-bit integer. */
module ArcRefs {

  import opened Wrappers
  import opened Words

  /** A mathematical count wrapped around to an `i32`. */
  function I32(x: int): (r: int)
    ensures -I32_LIMIT <= r < I32_LIMIT
  {
    (x + 0x8000_0000) % 0x1_0000_0000 - 0x8000_0000
  }

  datatype Ref =
    | Owned      // an Arc value
    | Raw        // the data pointer of a waker, from Arc::into_raw
    | Enqueuing  // the raw pointer inside __enqueue, before queue_work_on

  /** `lent` says the work item is pending and so owns a reference; `leaked` counts the references of
      items cancelled while pending; `freeing` counts the threads whose decrement reached zero and
      that have not freed yet; `misuse` records a use of the object after it was freed. */
  datatype State = State(count: int, refs: map<nat, Ref>, lent: bool, leaked: nat, freeing: nat, frees: nat,
                         misuse: bool)

  datatype Step =
    | Clone(h: nat, n: nat, kind: Ref)
    | IntoRaw(h: nat)
    | FromRaw(h: nat)
    | DropRef(h: nat)
    | Free
    | BeginEnqueue(h: nat)
    | QueueWork(h: nat)
    | WorkCallback(n: nat)
    | Flush(h: nat)

  /** A fresh `UniqueArc`, initialized and turned into an `Arc`. */
  predicate Init(s: State) {
    && s.count == 1 && s.refs == map[0 := Owned] && !s.lent && s.leaked == 0
    && s.freeing == 0 && s.frees == 0 && !s.misuse
  }

  predicate Is(s: State, h: nat, r: Ref) {
    h in s.refs && s.refs[h] == r
  }

  predicate Enabled(s: State, st: Step) {
    match st
    case Clone(h, n, kind) => (Is(s, h, Owned) || Is(s, h, Raw)) && n !in s.refs && !kind.Enqueuing?
    case IntoRaw(h) => Is(s, h, Owned)
    case FromRaw(h) => Is(s, h, Raw)
    case DropRef(h) => Is(s, h, Owned)
    case Free => s.freeing > 0
    case BeginEnqueue(h) => Is(s, h, Owned)
    case QueueWork(h) => Is(s, h, Enqueuing)
    case WorkCallback(n) => s.lent && n !in s.refs
    case Flush(h) => Is(s, h, Owned)
  }

  /** The object is used, which it must not be once freed. */
  function Use(s: State): State {
    s.(misuse := s.misuse || s.frees > 0)
  }

  function Apply(s: State, st: Step): State
    requires Enabled(s, st)
  {
    match st
    case Clone(h, n, kind) => Use(s).(count := I32(s.count + 1), refs := s.refs[n := kind])
    case IntoRaw(h) => s.(refs := s.refs[h := Raw])
    case FromRaw(h) => s.(refs := s.refs[h := Owned])
    case DropRef(h) =>
      Use(s).(count := I32(s.count - 1), refs := s.refs - {h}, freeing := s.freeing + if s.count == 1 then 1 else 0)
    case Free => Use(s).(freeing := s.freeing - 1, frees := s.frees + 1)
    case BeginEnqueue(h) => s.(refs := s.refs[h := Enqueuing])
    // the queue takes the reference, or hands it back because the item is already pending
    case QueueWork(h) =>
      if s.lent then Use(s).(refs := s.refs[h := Owned]) else Use(s).(lent := true, refs := s.refs - {h})
    case WorkCallback(n) => Use(s).(lent := false, refs := s.refs[n := Owned])
    case Flush(h) => if s.lent then Use(s).(lent := false, leaked := s.leaked + 1) else Use(s)
  }

  function Exec(s: State, steps: seq<Step>): Option<State> {
    if steps == [] then Some(s) else
    var n := |steps| - 1;
    match Exec(s, steps[..n])
    case None => None
    case Some(u) => if Enabled(u, steps[n]) then Some(Apply(u, steps[n])) else None
  }

  // ---- The invariant -----------------------------------------------------

  /** Everybody who can still reach the object, plus the references lost to cancelled items. */
  function Total(s: State): nat {
    |s.refs| + (if s.lent then 1 else 0) + s.leaked
  }

  /** Freed or about to be, once, exactly when nobody can reach the object. */
  predicate FreedOnceUnreachable(s: State) {
    s.freeing + s.frees == One(Total(s) == 0)
  }

  predicate Inv(s: State) {
    && s.count == I32(Total(s))
    && FreedOnceUnreachable(s)
    && !s.misuse
  }

  /** A decrement that reads one although the count has wrapped: a multiple of 2^32 references are left
      beside the dropped one. */
  predicate Misfires(s: State, st: Step) {
    st.DropRef? && Total(s) != 1 && I32(Total(s)) == 1
  }

  /** Counting on the wrapped count is counting and then wrapping. */
  lemma I32Steps(x: nat)
    ensures I32(I32(x) + 1) == I32(x + 1) && I32(I32(x) - 1) == I32(x - 1)
    ensures x <= U32_SIZE && I32(x) == 1 ==> x == 1
  {
    WrapTwice(x + 0x8000_0000, 1);
    WrapTwice(x + 0x8000_0000, -1);
  }

  lemma WrapTwice(y: nat, d: int)
    requires -1 <= d <= 1
    ensures (y % 0x1_0000_0000 + d) % 0x1_0000_0000 == (y + d) % 0x1_0000_0000
  {
    var q, r := y / 0x1_0000_0000, y % 0x1_0000_0000 + d;
    assert y + d == q * 0x1_0000_0000 + r;
    if r < 0 {
      assert y + d == (q - 1) * 0x1_0000_0000 + (0x1_0000_0000 - 1);
    } else if r == 0x1_0000_0000 {
      assert y + d == (q + 1) * 0x1_0000_0000;
    }
  }

  /** The count is the number of references, less a multiple of 2^32 that brings it into the range of an `i32`;
      and a drop misfires exactly at one more than a positive multiple of 2^32 references. */
  lemma MisfiresMeans(s: State, st: Step)
    ensures I32(Total(s)) == Total(s) - 0x1_0000_0000 * ((Total(s) + 0x8000_0000) / 0x1_0000_0000)
    ensures Misfires(s, st) <==> st.DropRef? && Total(s) > 1 && Total(s) % 0x1_0000_0000 == 1
  {
  }

  /** From every good state a step leads to a good state, except a decrement that misfires, which
      never does: it commits to freeing an object that other references still reach. */
  lemma StepKeepsInvIff(s: State, st: Step)
    requires Inv(s) && Enabled(s, st)
    ensures Inv(Apply(s, st)) <==> !Misfires(s, st)
  {
    TotalAfter(s, st);
    match st
    case DropRef(h) => DropKeepsInvIff(s, h);
    case Clone(_, _, _) => CloneKeepsInv(s, st);
    case _ =>
  }

  /** References come with clones and go with drops; every other step moves one. */
  lemma TotalAfter(s: State, st: Step)
    requires Enabled(s, st)
    ensures Total(Apply(s, st)) == Total(s) + One(st.Clone?) - One(st.DropRef?)
  {
    match st
    case DropRef(h) => RemoveCard(s.refs, h);
    case QueueWork(h) => RemoveCard(s.refs, h);
    case _ =>
  }

  lemma CloneKeepsInv(s: State, st: Step)
    requires Inv(s) && Enabled(s, st) && st.Clone?
    ensures Inv(Apply(s, st))
  {
    TotalAfter(s, st);
    assert |s.refs| > 0;
    I32Steps(Total(s));
  }

  lemma DropKeepsInvIff(s: State, h: nat)
    requires Inv(s) && Enabled(s, DropRef(h))
    ensures Inv(Apply(s, DropRef(h))) <==> !Misfires(s, DropRef(h))
  {
    I32Steps(Total(s));
    TotalAfter(s, DropRef(h));
  }

  lemma RemoveCard(m: map<nat, Ref>, h: nat)
    requires h in m
    ensures |m - {h}| == |m| - 1
  {
    assert (m - {h}).Keys == m.Keys - {h};
    assert |m| == |m.Keys| && |m - {h}| == |(m - {h}).Keys|;
  }

  /** Every state of the run has at most 2^32 references. */
  predicate RefsFit(s: State, steps: seq<Step>) {
    && (steps != [] ==> RefsFit(s, steps[..|steps| - 1]))
    && (Exec(s, steps).Some? ==> Total(Exec(s, steps).value) <= U32_SIZE)
  }

  lemma {:induction false} RunKeepsInv(s: State, steps: seq<Step>)
    requires Inv(s) && Exec(s, steps).Some? && RefsFit(s, steps)
    ensures Inv(Exec(s, steps).value) && Exec(s, steps).value.leaked >= s.leaked
  {
    if steps != [] {
      var n := |steps| - 1;
      RunKeepsInv(s, steps[..n]);
      var u := Exec(s, steps[..n]).value;
      assert Total(u) <= U32_SIZE;
      NoMisfire(u, steps[n]);
      StepKeepsInvIff(u, steps[n]);
    }
  }

  lemma NoMisfire(s: State, st: Step)
    requires Total(s) <= U32_SIZE
    ensures !Misfires(s, st)
  {
    I32Steps(Total(s));
  }

  lemma InitInv(s: State)
    requires Init(s)
    ensures Inv(s)
  {
  }

  /** The 32-bit count is the number of references, and the object is freed, or about to be, once when there
      are none. */
  predicate CountsReferences(s: State) {
    var total := |s.refs| + (if s.lent then 1 else 0) + s.leaked;
    && s.count == (if total < 0x8000_0000 then total else total - 0x1_0000_0000)
    && !s.misuse
    && s.freeing + s.frees == if total == 0 then 1 else 0
  }

  /** Over every history with at most 2^32 references: the count equals the live owners, raw pointers
      and enqueues, plus one for a lent reference, plus one for each item cancelled while pending; the
      object is freed only when nobody can reach it, never twice, and never used afterwards; and once
      nobody can reach it, it is freed or about to be. */
  lemma CountIsReachability(s0: State, steps: seq<Step>)
    requires Init(s0) && Exec(s0, steps).Some? && RefsFit(s0, steps)
    ensures CountsReferences(Exec(s0, steps).value)
  {
    InitInv(s0);
    RunCounts(s0, steps);
  }

  lemma RunCounts(s0: State, steps: seq<Step>)
    requires Inv(s0) && Exec(s0, steps).Some? && RefsFit(s0, steps)
    ensures CountsReferences(Exec(s0, steps).value)
  {
    RunKeepsInv(s0, steps);
    InvMeans(Exec(s0, steps).value);
  }

  lemma InvMeans(s: State)
    requires Inv(s) && Total(s) <= U32_SIZE
    ensures CountsReferences(s)
  {
    I32Value(Total(s));
  }

  lemma I32Value(x: nat)
    requires x <= 0x1_0000_0000
    ensures I32(x) == if x < 0x8000_0000 then x else x - 0x1_0000_0000
  {
  }

  // ---- Runs --------------------------------------------------------------

  lemma Then(s: State, steps: seq<Step>, st: Step) returns (longer: seq<Step>)
    requires Exec(s, steps).Some? && Enabled(Exec(s, steps).value, st)
    ensures Exec(s, longer) == Some(Apply(Exec(s, steps).value, st))
  {
    longer := steps + [st];
    assert longer[..|steps|] == steps;
  }

  /** A reference is enqueued, and the item is cancelled before it runs: the reference is lost. */
  lemma FlushLosesReference(s: State) returns (steps: seq<Step>)
    requires Init(s)
    ensures Exec(s, steps).Some? && Exec(s, steps).value.leaked == 1
  {
    steps := Then(s, [], Clone(0, 1, Owned));
    steps := Then(s, steps, BeginEnqueue(1));
    steps := Then(s, steps, QueueWork(1));
    steps := Then(s, steps, Flush(0));
  }

  /** The references 0 to `n` are owned, and nothing else has happened. */
  ghost predicate Cloned(s: State, n: nat) {
    && s.count == I32(|s.refs|) && |s.refs| == n + 1 && !s.lent && s.leaked == 0 && s.freeing == 0 && s.frees == 0
    && forall h: nat :: (h in s.refs <==> h <= n) && (h in s.refs ==> s.refs[h] == Owned)
  }

  lemma OneCloneMore(s: State, n: nat)
    requires Cloned(s, n)
    ensures Enabled(s, Clone(0, n + 1, Owned)) && Cloned(Apply(s, Clone(0, n + 1, Owned)), n + 1)
  {
    I32Steps(n + 1);
  }

  lemma NoneCloned(s: State)
    requires Init(s)
    ensures Cloned(s, 0)
  {
  }

  /** If the run has come to `n` clones, one more step brings it to the next. */
  lemma CloneNext(s: State, fewer: seq<Step>, n: nat) returns (steps: seq<Step>)
    requires Exec(s, fewer).Some? && Cloned(Exec(s, fewer).value, n)
    ensures Exec(s, steps).Some? && Cloned(Exec(s, steps).value, n + 1)
  {
    OneCloneMore(Exec(s, fewer).value, n);
    steps := Then(s, fewer, Clone(0, n + 1, Owned));
  }

  lemma {:induction false} ClonesRun(s: State, n: nat) returns (steps: seq<Step>)
    requires Init(s)
    ensures Exec(s, steps).Some? && Cloned(Exec(s, steps).value, n)
  {
    if n == 0 {
      NoneCloned(s);
      steps := [];
    } else {
      var fewer := ClonesRun(s, n - 1);
      steps := CloneNext(s, fewer, n - 1);
    }
  }

  lemma DropUnderOthers(s: State)
    requires Cloned(s, U32_SIZE)
    ensures Enabled(s, DropRef(0))
    ensures
      var t := Apply(s, DropRef(0));
      t.freeing == 1 && t.frees == 0 && 0 !in t.refs && 1 in t.refs && t.refs[1] == Owned
  {
  }

  /** With 2^32 + 1 references the count reads one: dropping one of them frees the object under the others,
      which then use it. */
  lemma WrappedCountFreesEarly(s: State) returns (steps: seq<Step>)
    requires Init(s)
    ensures Exec(s, steps).Some?
    ensures var t := Exec(s, steps).value; t.frees == 1 && t.misuse && 1 in t.refs && t.refs[1] == Owned
  {
    var cloned := ClonesRun(s, U32_SIZE);
    DropUnderOthers(Exec(s, cloned).value);
    var dropped := Then(s, cloned, DropRef(0));
    var freed := Then(s, dropped, Free);
    steps := Then(s, freed, Clone(1, 0, Owned));
  }

  /** An item cancelled while pending keeps its reference for ever: its task is never freed. */
  lemma CancelledIsNeverFreed(s: State, steps: seq<Step>)
    requires Inv(s) && s.leaked > 0 && Exec(s, steps).Some? && RefsFit(s, steps)
    ensures Exec(s, steps).value.frees == 0 && Exec(s, steps).value.freeing == 0
  {
    RunKeepsInv(s, steps);
  }
}
