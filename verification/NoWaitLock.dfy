/** `NoWaitLock`: a try-only lock over one three-state atomic. A failing `try_lock` marks the holder in
    a second compare-exchange, and `unlock` reports whether its swap saw the mark. Any number of
    threads; each compare-exchange and swap is one step. */
module NoWaitLock {

  import opened Wrappers

  datatype Lock = Unlocked | Locked | LockedContended

  /** The lock after the slow path's compare-exchange LOCKED -> LOCKED_CONTENDED. */
  function Contend(l: Lock): Lock {
    if l.Locked? then LockedContended else l
  }

  datatype Thread =
    | Fast                      // try_lock: first compare-exchange
    | Slow                      // try_lock: second compare-exchange, the first one failed
    | Held                      // holds the guard
    | Failed                    // try_lock returned None
    | Released(contended: bool) // unlock returned

  /** `marks` are the threads whose failing try_lock made its second compare-exchange during the
      current hold. */
  datatype State = State(lock: Lock, threads: map<nat, Thread>, marks: set<nat>)

  datatype Step = Begin(i: nat) | CasFast(i: nat) | CasSlow(i: nat) | Unlock(i: nat)

  const Init: State := State(Unlocked, map[], {})

  predicate Enabled(s: State, st: Step) {
    match st
    case Begin(i) => i !in s.threads
    case CasFast(i) => i in s.threads && s.threads[i].Fast?
    case CasSlow(i) => i in s.threads && s.threads[i].Slow?
    case Unlock(i) => i in s.threads && s.threads[i].Held?
  }

  function Apply(s: State, st: Step): State
    requires Enabled(s, st)
  {
    match st
    case Begin(i) => s.(threads := s.threads[i := Fast])
    case CasFast(i) =>
      if s.lock.Unlocked? then State(Locked, s.threads[i := Held], {}) else s.(threads := s.threads[i := Slow])
    case CasSlow(i) => State(Contend(s.lock), s.threads[i := Failed], s.marks + {i})
    case Unlock(i) => State(Unlocked, s.threads[i := Released(s.lock.LockedContended?)], {})
  }

  function Exec(s: State, steps: seq<Step>): Option<State> {
    if steps == [] then Some(s) else
    var n := |steps| - 1;
    match Exec(s, steps[..n])
    case None => None
    case Some(u) => if Enabled(u, steps[n]) then Some(Apply(u, steps[n])) else None
  }

  predicate Holds(s: State, i: nat) {
    i in s.threads && s.threads[i].Held?
  }

  ghost predicate Inv(s: State) {
    && (s.lock.Unlocked? <==> forall i :: !Holds(s, i))
    && (forall i, j :: Holds(s, i) && Holds(s, j) ==> i == j)
    && (!s.lock.Unlocked? ==> (s.lock.LockedContended? <==> s.marks != {}))
  }

  lemma StepKeepsInv(s: State, st: Step)
    requires Inv(s) && Enabled(s, st)
    ensures Inv(Apply(s, st))
  {
    var t := Apply(s, st);
    assert forall j :: j != st.i ==> (Holds(t, j) <==> Holds(s, j));
    if st.CasFast? && s.lock.Unlocked? { assert Holds(t, st.i); }
    if st.Unlock? { assert Holds(s, st.i); }
    if st.CasSlow? { assert st.i in t.marks; }
  }

  lemma {:induction false} RunKeepsInv(steps: seq<Step>)
    requires Exec(Init, steps).Some?
    ensures Inv(Exec(Init, steps).value)
  {
    if steps != [] {
      var n := |steps| - 1;
      RunKeepsInv(steps[..n]);
      StepKeepsInv(Exec(Init, steps[..n]).value, steps[n]);
    }
  }

  /** Over every run: at most one thread holds the lock, and `unlock` returns true exactly when some
      failing try_lock made its second compare-exchange while this guard was held. */
  lemma UnlockReportsMarks(steps: seq<Step>, i: nat)
    requires Exec(Init, steps).Some? && Holds(Exec(Init, steps).value, i)
    ensures
      var s := Exec(Init, steps).value;
      && (forall j :: Holds(s, j) ==> j == i)
      && Apply(s, Unlock(i)).threads[i] == Released(s.marks != {})
  {
    RunKeepsInv(steps);
  }

  /** Over every run: a try_lock gets the lock if and only if nobody holds it at its first compare-exchange, and
      fails otherwise. */
  lemma TryLockSucceedsIff(steps: seq<Step>, i: nat)
    requires Exec(Init, steps).Some? && Enabled(Exec(Init, steps).value, CasFast(i))
    ensures
      var s := Exec(Init, steps).value;
      var t := Apply(s, CasFast(i));
      && (Holds(t, i) <==> forall h :: !Holds(s, h))
      && (!Holds(t, i) ==> Enabled(t, CasSlow(i)) && forall u :: Enabled(u, CasSlow(i)) ==>
            Apply(u, CasSlow(i)).threads[i] == Failed)
  {
    RunKeepsInv(steps);
  }

  /** A failing try_lock marks a holder if and only if the lock is held at its second
      compare-exchange; whoever held it at the first may be gone. */
  lemma FailureMarksIff(steps: seq<Step>, i: nat)
    requires Exec(Init, steps).Some? && Enabled(Exec(Init, steps).value, CasSlow(i))
    ensures
      var s := Exec(Init, steps).value;
      (exists h :: Holds(s, h)) <==> Apply(s, CasSlow(i)).lock.LockedContended?
  {
    RunKeepsInv(steps);
    var s := Exec(Init, steps).value;
    if h :| Holds(s, h) { assert !s.lock.Unlocked?; }
  }

  lemma Then(steps: seq<Step>, st: Step) returns (longer: seq<Step>)
    requires Exec(Init, steps).Some? && Enabled(Exec(Init, steps).value, st)
    ensures Exec(Init, longer) == Some(Apply(Exec(Init, steps).value, st))
  {
    longer := steps + [st];
    assert longer[..|steps|] == steps;
  }

  /** The documented promise, that a failing try_lock is always reported to the holder it failed
      against, is false: the holder may release between the two compare-exchanges. */
  lemma FailureMayGoUnreported() returns (steps: seq<Step>)
    ensures Exec(Init, steps).Some?
    ensures
      var s := Exec(Init, steps).value;
      0 in s.threads && s.threads[0] == Released(false) && 1 in s.threads && s.threads[1].Failed? && s.lock.Unlocked?
  {
    steps := Then([], Begin(0));
    steps := Then(steps, CasFast(0));
    steps := Then(steps, Begin(1));
    steps := Then(steps, CasFast(1));
    steps := Then(steps, Unlock(0));
    steps := Then(steps, CasSlow(1));
  }
}
