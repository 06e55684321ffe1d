/** `AsyncRevocable`: a value behind one atomic word that packs a guard count (low 31 bits) and a
    revoked bit (bit 31). Any number of threads run `try_access`, `revoke`, guard accesses and guard
    drops; every load, compare-exchange, fetch_or, fetch_sub and drop in place is one step, and
    atomics are sequentially consistent. */
module Revocable {

  import opened Wrappers
  import opened RevocableWord

  // ---- States and steps --------------------------------------------------

  /** One operation in flight, or what it returned. */
  datatype Op =
    | TryLoad                // try_access: about to load
    | TryCas(val: U32)       // try_access: loaded `val`, revoked bit clear
    | Holding                // try_access returned a guard that is still alive
    | Refused                // try_access returned None
    | RevokeOr               // revoke: about to fetch_or
    | Dropping(first: bool)  // owes drop_in_place; `first` when it is revoke itself that found no guard
    | Done(result: bool)     // returned (for revoke: the returned value)

  /** Beside the word and the operations, the history: `revoked` once some revoke did its fetch_or,
      `drops` counts the drops of the value, `gone` once the wrapper itself was dropped, `misuse` once
      the value was accessed or dropped after a drop, or dropped while a guard was alive. */
  datatype State = State(word: U32, ops: map<nat, Op>, revoked: bool, drops: nat, gone: bool, misuse: bool)

  datatype Step =
    | StartTry(id: nat)
    | StartRevoke(id: nat)
    | Load(id: nat)
    | CasOk(id: nat)
    | CasFail(id: nat)
    | Access(id: nat)
    | GuardDrop(id: nat)
    | FetchOr(id: nat)
    | DropInPlace(id: nat)
    | DropWrapper

  const Init: State := State(0, map[], false, 0, false, false)

  predicate Finished(op: Op) {
    op.Refused? || op.Done?
  }

  predicate Enabled(s: State, st: Step) {
    match st
    case StartTry(id) => !s.gone && id !in s.ops
    case StartRevoke(id) => !s.gone && id !in s.ops
    case Load(id) => id in s.ops && s.ops[id].TryLoad?
    case CasOk(id) => id in s.ops && s.ops[id].TryCas? && s.ops[id].val == s.word
    case CasFail(id) => id in s.ops && s.ops[id].TryCas?
    case Access(id) => id in s.ops && s.ops[id].Holding?
    case GuardDrop(id) => id in s.ops && s.ops[id].Holding?
    case FetchOr(id) => id in s.ops && s.ops[id].RevokeOr?
    case DropInPlace(id) => id in s.ops && s.ops[id].Dropping?
    // `&mut self`: nobody borrows the wrapper any more
    case DropWrapper => !s.gone && forall id :: id in s.ops ==> Finished(s.ops[id])
  }

  function Apply(s: State, st: Step): State
    requires Enabled(s, st)
  {
    match st
    case StartTry(id) => s.(ops := s.ops[id := TryLoad])
    case StartRevoke(id) => s.(ops := s.ops[id := RevokeOr])
    case Load(id) => s.(ops := s.ops[id := if IsRevoked(s.word) then Refused else TryCas(s.word)])
    case CasOk(id) => s.(word := AddOne(s.word), ops := s.ops[id := Holding])
    case CasFail(id) => s.(ops := s.ops[id := TryLoad])
    case Access(id) => s.(misuse := s.misuse || s.drops > 0)
    case GuardDrop(id) =>
      s.(word := SubOne(s.word),
         ops := s.ops[id := if s.word == REVOKED_BIT + 1 then Dropping(false) else Done(false)])
    case FetchOr(id) =>
      s.(word := OrRevoked(s.word), revoked := true,
         ops := s.ops[id := if s.word == 0 then Dropping(true) else Done(false)])
    case DropInPlace(id) => DropValue(s).(ops := s.ops[id := Done(s.ops[id].first)])
    case DropWrapper => if IsRevoked(s.word) then s.(gone := true) else DropValue(s).(gone := true)
  }

  function DropValue(s: State): State {
    s.(drops := s.drops + 1, misuse := s.misuse || s.drops > 0 || Holders(s) != {})
  }

  /** The state after a run of steps, each enabled where it is taken. */
  function Exec(s: State, steps: seq<Step>): Option<State> {
    if steps == [] then Some(s) else
    var n := |steps| - 1;
    match Exec(s, steps[..n])
    case None => None
    case Some(u) => if Enabled(u, steps[n]) then Some(Apply(u, steps[n])) else None
  }

  // ---- The invariant -----------------------------------------------------

  function Holders(s: State): set<nat> {
    set id | id in s.ops && s.ops[id].Holding?
  }

  function Droppers(s: State): set<nat> {
    set id | id in s.ops && s.ops[id].Dropping?
  }

  /** A revoked bit that a revoke has set, above a guard count that fits. */
  predicate Kept(s: State) {
    |Holders(s)| < REVOKED_BIT && s.word == REVOKED_BIT + |Holders(s)|
  }

  /** The drops the protocol has committed to: one once the value is revoked and unguarded, or the
      wrapper is dropped. */
  function DropsDue(s: State): nat {
    if (Kept(s) && Holders(s) == {}) || s.gone then 1 else 0
  }

  /** Of every run, with any number of guards: the word is the guard count, or the guard count plus a
      revoked bit that was set by a revoke. At 2^31 guards the count itself looks like a revoked bit. */
  ghost predicate Inv(s: State) {
    && (Kept(s) || s.word == |Holders(s)| <= REVOKED_BIT)
    && (Kept(s) ==> s.revoked)
    && s.drops + |Droppers(s)| == DropsDue(s)
    && !s.misuse
    && (forall id :: id in s.ops && s.ops[id].TryCas? ==> !IsRevoked(s.ops[id].val))
    && (s.gone ==> forall id :: id in s.ops ==> Finished(s.ops[id]))
  }

  /** The word is the guard count plus the revoked bit. */
  ghost predicate Packed(s: State) {
    |Holders(s)| < REVOKED_BIT && s.word == Word(|Holders(s)|, s.revoked)
  }

  /** The one step that breaks the packing: a compare-exchange that succeeds on a full guard count. */
  predicate Overflows(s: State, st: Step) {
    st.CasOk? && s.word == REVOKED_BIT - 1
  }

  // ---- Proofs ------------------------------------------------------------

  predicate IsHolding(s: State, id: nat) {
    id in s.ops && s.ops[id].Holding?
  }

  predicate IsDropping(s: State, id: nat) {
    id in s.ops && s.ops[id].Dropping?
  }

  /** What one operation's move does to the two counts. */
  lemma Moved(s: State, t: State, id: nat, op: Op)
    requires t.ops == s.ops[id := op]
    ensures |Holders(t)| + One(IsHolding(s, id)) == |Holders(s)| + One(op.Holding?)
    ensures |Droppers(t)| + One(IsDropping(s, id)) == |Droppers(s)| + One(op.Dropping?)
    ensures Holders(t) <= Holders(s) + {id}
  {
    assert Holders(t) - {id} == Holders(s) - {id};
    assert Droppers(t) - {id} == Droppers(s) - {id};
    assert id in Holders(t) <==> op.Holding?;
    assert id in Droppers(t) <==> op.Dropping?;
    assert id in Holders(s) <==> IsHolding(s, id);
    assert id in Droppers(s) <==> IsDropping(s, id);
    CardWithout(Holders(s), id);
    CardWithout(Holders(t), id);
    CardWithout(Droppers(s), id);
    CardWithout(Droppers(t), id);
  }

  lemma CardWithout(a: set<nat>, x: nat)
    ensures |a - {x}| + One(x in a) == |a|
  {
    if x in a { assert a == (a - {x}) + {x}; } else { assert a - {x} == a; }
  }

  lemma OpKeepsInv(s: State, st: Step)
    requires Inv(s) && Enabled(s, st)
    requires st.StartTry? || st.StartRevoke? || st.Load? || st.CasFail? || st.CasOk?
    ensures Inv(Apply(s, st))
  {
    Moved(s, Apply(s, st), st.id, Apply(s, st).ops[st.id]);
  }

  lemma GuardDropKeepsInv(s: State, st: Step)
    requires Inv(s) && Enabled(s, st) && st.GuardDrop?
    ensures Inv(Apply(s, st))
  {
    assert st.id in Holders(s);
    Moved(s, Apply(s, st), st.id, Apply(s, st).ops[st.id]);
  }

  lemma FetchOrKeepsInv(s: State, st: Step)
    requires Inv(s) && Enabled(s, st) && st.FetchOr?
    ensures Inv(Apply(s, st))
    ensures Kept(Apply(s, st)) <==> |Holders(s)| < REVOKED_BIT
  {
    Moved(s, Apply(s, st), st.id, Apply(s, st).ops[st.id]);
    assert Holders(Apply(s, st)) == Holders(s);
  }

  lemma DropInPlaceKeepsInv(s: State, st: Step)
    requires Inv(s) && Enabled(s, st) && st.DropInPlace?
    ensures Inv(Apply(s, st))
  {
    assert st.id in Droppers(s);
    Moved(s, Apply(s, st), st.id, Apply(s, st).ops[st.id]);
  }

  lemma AccessKeepsInv(s: State, st: Step)
    requires Inv(s) && Enabled(s, st) && st.Access?
    ensures Inv(Apply(s, st))
  {
    assert st.id in Holders(s);
    assert Holders(Apply(s, st)) == Holders(s) && Droppers(Apply(s, st)) == Droppers(s);
  }

  lemma DropWrapperKeepsInv(s: State)
    requires Inv(s) && Enabled(s, DropWrapper)
    ensures Inv(Apply(s, DropWrapper))
  {
    var t := Apply(s, DropWrapper);
    assert Holders(s) == {} && Droppers(s) == {};
    assert Holders(t) == {} && Droppers(t) == {};
  }

  lemma StepKeepsInv(s: State, st: Step)
    requires Inv(s) && Enabled(s, st)
    ensures Inv(Apply(s, st))
  {
    match st
    case GuardDrop(_) => GuardDropKeepsInv(s, st);
    case FetchOr(_) => FetchOrKeepsInv(s, st);
    case DropInPlace(_) => DropInPlaceKeepsInv(s, st);
    case Access(_) => AccessKeepsInv(s, st);
    case DropWrapper => DropWrapperKeepsInv(s);
    case _ => OpKeepsInv(s, st);
  }

  lemma {:induction false} RunKeepsInv(s: State, steps: seq<Step>)
    requires Inv(s) && Exec(s, steps).Some?
    ensures Inv(Exec(s, steps).value)
  {
    if steps != [] {
      var n := |steps| - 1;
      RunKeepsInv(s, steps[..n]);
      StepKeepsInv(Exec(s, steps[..n]).value, steps[n]);
    }
  }

  lemma InitInv()
    ensures Inv(Init) && Packed(Init)
  {
    assert Holders(Init) == {} && Droppers(Init) == {};
  }

  // ---- When the packing holds --------------------------------------------

  /** From every state in which the word is the guard count plus the revoked bit, each step but the
      overflowing one leads to such a state, and the overflowing one never does. */
  lemma StepKeepsPackedIff(s: State, st: Step)
    requires Inv(s) && Packed(s) && Enabled(s, st)
    ensures Packed(Apply(s, st)) <==> !Overflows(s, st)
    ensures Overflows(s, st) ==> |Holders(Apply(s, st))| == REVOKED_BIT
  {
    var t := Apply(s, st);
    if st.DropWrapper? || st.Access? {
      assert Holders(t) == Holders(s);
    } else {
      if st.GuardDrop? { assert st.id in Holders(s); }
      Moved(s, t, st.id, t.ops[st.id]);
    }
  }

  /** Every state of the run has at most 2^31 - 1 guards alive. */
  ghost predicate GuardsFit(s: State, steps: seq<Step>) {
    forall k {:trigger steps[..k]} ::
      0 <= k <= |steps| && Exec(s, steps[..k]).Some? ==> |Holders(Exec(s, steps[..k]).value)| < REVOKED_BIT
  }

  lemma {:induction false} FittingRunsArePacked(steps: seq<Step>)
    requires Exec(Init, steps).Some? && GuardsFit(Init, steps)
    ensures Packed(Exec(Init, steps).value)
  {
    InitInv();
    if steps != [] {
      var n := |steps| - 1;
      var u, st := Exec(Init, steps[..n]).value, steps[n];
      forall k | 0 <= k <= n ensures steps[..n][..k] == steps[..k] {}
      FittingRunsArePacked(steps[..n]);
      RunKeepsInv(Init, steps[..n]);
      assert steps[..n + 1] == steps;
      StepKeepsPackedIff(u, st);
    }
  }

  // ---- Over every run ----------------------------------------------------

  /** Over every run, with any number of guards: the value is dropped at most once, never under a guard
      and never touched afterwards, and exactly once when the wrapper is gone. If the guards fit 31
      bits, the word is the guard count plus the revoked bit, and the value has been dropped exactly
      once when it is revoked, unguarded and no thread still owes the drop. */
  lemma ValueDroppedExactlyOnce(steps: seq<Step>)
    requires Exec(Init, steps).Some?
    ensures
      var s := Exec(Init, steps).value;
      && s.drops <= 1 && !s.misuse
      && (Holders(s) != {} ==> s.drops == 0 && Droppers(s) == {})
      && (s.gone ==> s.drops == 1)
      && (GuardsFit(Init, steps) ==>
            && s.word == Word(|Holders(s)|, s.revoked)
            && (s.revoked && Holders(s) == {} && Droppers(s) == {} ==> s.drops == 1))
  {
    InitInv();
    RunKeepsInv(Init, steps);
    if GuardsFit(Init, steps) {
      FittingRunsArePacked(steps);
    }
    var s := Exec(Init, steps).value;
    if s.gone {
      assert Holders(s) == {};
      assert Droppers(s) == {};
    }
  }

  /** Once a revoke has set the bit, no guard is ever handed out again, and the value is never accessed
      except through guards that were already alive. */
  lemma {:induction false} NoGuardAfterRevoke(s: State, steps: seq<Step>)
    requires Inv(s) && Kept(s) && Exec(s, steps).Some?
    ensures
      var t := Exec(s, steps).value;
      Inv(t) && Kept(t) && Holders(t) <= Holders(s)
  {
    if steps != [] {
      var n := |steps| - 1;
      NoGuardAfterRevoke(s, steps[..n]);
      var u, st := Exec(s, steps[..n]).value, steps[n];
      StepKeepsInv(u, st);
      KeptStays(u, st);
    }
  }

  lemma KeptStays(s: State, st: Step)
    requires Inv(s) && Kept(s) && Enabled(s, st)
    ensures Kept(Apply(s, st)) && Holders(Apply(s, st)) <= Holders(s)
  {
    var t := Apply(s, st);
    if st.DropWrapper? || st.Access? {
      assert Holders(t) == Holders(s);
    } else {
      if st.GuardDrop? { assert st.id in Holders(s); }
      Moved(s, t, st.id, t.ops[st.id]);
    }
  }

  // ---- What revoke returns -----------------------------------------------

  /** The revoke `id` has returned true, or will once it has dropped the value. */
  predicate Wins(s: State, id: nat) {
    id in s.ops && (s.ops[id] == Done(true) || s.ops[id] == Dropping(true))
  }

  /** At most one revoke wins, and it set the bit with no guard alive; when it has returned, the value is
      dropped. */
  ghost predicate AnswersInv(s: State) {
    && (forall a, b :: Wins(s, a) && Wins(s, b) ==> a == b)
    && (forall a :: Wins(s, a) ==> Kept(s) && Holders(s) == {})
    && (forall a :: a in s.ops && s.ops[a] == Done(true) ==> s.drops == 1)
  }

  /** In every good state: a revoke returns false at once if and only if the value is already revoked or a
      guard is alive; otherwise it drops the value and returns true. */
  lemma RevokeAnswers(s: State, id: nat)
    requires Inv(s) && Enabled(s, FetchOr(id))
    ensures Apply(s, FetchOr(id)).ops[id] == if Kept(s) || Holders(s) != {} then Done(false) else Dropping(true)
    ensures
      var t := Apply(s, FetchOr(id));
      t.ops[id].Dropping? ==>
        && Enabled(t, DropInPlace(id)) && Apply(t, DropInPlace(id)).ops[id] == Done(true)
        && Apply(t, DropInPlace(id)).drops == s.drops + 1
  {
  }

  /** In every good state: try_access is refused if and only if the value is revoked or 2^31 guards are alive. */
  lemma TryAccessAnswers(s: State, id: nat)
    requires Inv(s) && Enabled(s, Load(id))
    ensures Apply(s, Load(id)).ops[id] == Refused <==> Kept(s) || |Holders(s)| == REVOKED_BIT
    ensures Apply(s, Load(id)).ops[id] == Refused || Enabled(Apply(s, Load(id)), CasOk(id))
    ensures Enabled(Apply(s, Load(id)), CasOk(id)) ==> Apply(Apply(s, Load(id)), CasOk(id)).ops[id] == Holding
  {
  }

  lemma DroppersCount(s: State, id: nat)
    requires Inv(s) && id in s.ops && s.ops[id].Dropping?
    ensures s.drops == 0
  {
    assert id in Droppers(s);
  }

  lemma StepKeepsAnswers(s: State, st: Step)
    requires Inv(s) && AnswersInv(s) && Enabled(s, st)
    ensures AnswersInv(Apply(s, st))
  {
    var t := Apply(s, st);
    if st.DropInPlace? {
      DroppersCount(s, st.id);
    }
    if Kept(s) {
      KeptStays(s, st);
    }
    if st.FetchOr? {
      FetchOrKeepsInv(s, st);
      assert Holders(t) == Holders(s);
    }
    forall a | Wins(t, a) ensures Wins(s, a) || (st == FetchOr(a) && s.word == 0) {
    }
  }

  lemma {:induction false} RunKeepsAnswers(s: State, steps: seq<Step>)
    requires Inv(s) && AnswersInv(s) && Exec(s, steps).Some?
    ensures AnswersInv(Exec(s, steps).value)
  {
    if steps != [] {
      var n := |steps| - 1;
      RunKeepsAnswers(s, steps[..n]);
      RunKeepsInv(s, steps[..n]);
      StepKeepsAnswers(Exec(s, steps[..n]).value, steps[n]);
    }
  }

  /** Over every run: at most one revoke returns true, and when it has, the value has been dropped; and at
      every fetch_or, it returns false if and only if the value is already revoked or a guard is alive. */
  lemma OneRevokeWins(steps: seq<Step>, a: nat, b: nat)
    requires Exec(Init, steps).Some?
    ensures
      var s := Exec(Init, steps).value;
      && (Wins(s, a) && Wins(s, b) ==> a == b)
      && (a in s.ops && s.ops[a] == Done(true) ==> s.drops == 1)
      && (Enabled(s, FetchOr(a)) ==> (Apply(s, FetchOr(a)).ops[a] == Done(false) <==> Kept(s) || Holders(s) != {}))
  {
    InitInv();
    RunKeepsInv(Init, steps);
    RunKeepsAnswers(Init, steps);
    if Enabled(Exec(Init, steps).value, FetchOr(a)) {
      RevokeAnswers(Exec(Init, steps).value, a);
    }
  }

  // ---- Lost revokes ------------------------------------------------------

  ghost predicate StaysRevoked(s: State) {
    forall more :: Exec(s, more).Some? ==> IsRevoked(Exec(s, more).value.word)
  }

  /** In every reachable state: a revoke sets a bit that stays in every continuation if and only if fewer
      than 2^31 guards are alive at its fetch_or. */
  lemma RevokeStaysIff(steps: seq<Step>, id: nat)
    requires Exec(Init, steps).Some? && Enabled(Exec(Init, steps).value, FetchOr(id))
    ensures
      var s := Exec(Init, steps).value;
      StaysRevoked(Apply(s, FetchOr(id))) <==> |Holders(s)| < REVOKED_BIT
  {
    InitInv();
    RunKeepsInv(Init, steps);
    var s := Exec(Init, steps).value;
    var t := Apply(s, FetchOr(id));
    FetchOrKeepsInv(s, FetchOr(id));
    if |Holders(s)| < REVOKED_BIT {
      forall more | Exec(t, more).Some? ensures IsRevoked(Exec(t, more).value.word) {
        NoGuardAfterRevoke(t, more);
      }
    } else {
      assert Holders(t) == Holders(s);
      var more := DropOne(t);
      assert !IsRevoked(Exec(t, more).value.word);
    }
  }

  /** One guard is dropped. */
  lemma DropOne(s: State) returns (more: seq<Step>)
    requires Holders(s) != {}
    ensures |more| == 1 && Exec(s, more).Some? && Exec(s, more).value.word == SubOne(s.word)
  {
    var h :| h in Holders(s);
    more := [GuardDrop(h)];
    assert more[..0] == [];
  }

  lemma Then(s: State, steps: seq<Step>, st: Step) returns (longer: seq<Step>)
    requires Exec(s, steps).Some? && Enabled(Exec(s, steps).value, st)
    ensures Exec(s, longer) == Some(Apply(Exec(s, steps).value, st))
  {
    longer := steps + [st];
    assert longer[..|steps|] == steps;
  }

  /** Threads 0 to `n - 1` hold a guard each, and nothing else has happened. */
  ghost predicate Guarded(s: State, n: nat) {
    && s.word == n && |Holders(s)| == n && !s.gone && s.drops == 0
    && forall id: nat :: (id in s.ops <==> id < n) && (id in s.ops ==> s.ops[id].Holding?)
  }

  lemma OneGuardMore(s: State, n: nat)
    requires Guarded(s, n) && n < REVOKED_BIT
    ensures Guarded(s.(word := AddOne(n), ops := s.ops[n := Holding]), n + 1)
  {
    Moved(s, s.(word := AddOne(n), ops := s.ops[n := Holding]), n, Holding);
  }

  lemma TakeGuard(steps: seq<Step>, n: nat) returns (longer: seq<Step>)
    requires Exec(Init, steps).Some? && Guarded(Exec(Init, steps).value, n) && n < REVOKED_BIT
    ensures
      var s := Exec(Init, steps).value;
      Exec(Init, longer) == Some(s.(word := AddOne(n), ops := s.ops[n := Holding]))
  {
    var s := Exec(Init, steps).value;
    longer := Then(Init, steps, StartTry(n));
    longer := Then(Init, longer, Load(n));
    assert Exec(Init, longer).value.ops == s.ops[n := TryCas(n)];
    longer := Then(Init, longer, CasOk(n));
    assert Exec(Init, longer).value.ops == s.ops[n := Holding];
  }

  /** `n` threads take a guard, one after the other. */
  lemma {:induction false} GuardsRun(n: nat) returns (steps: seq<Step>)
    requires n <= REVOKED_BIT
    ensures Exec(Init, steps).Some? && Guarded(Exec(Init, steps).value, n)
  {
    if n == 0 {
      steps := [];
      assert Holders(Init) == {};
    } else {
      var fewer := GuardsRun(n - 1);
      steps := TakeGuard(fewer, n - 1);
      OneGuardMore(Exec(Init, fewer).value, n - 1);
    }
  }

  /** A revoke that is lost: with 2^31 guards alive it sets no bit, and once one of them is dropped the
      value can be accessed again although it was revoked. */
  lemma RevokeIsLost() returns (steps: seq<Step>)
    ensures Exec(Init, steps).Some?
    ensures
      var s := Exec(Init, steps).value;
      s.revoked && !IsRevoked(s.word) && REVOKED_BIT + 1 in s.ops && s.ops[REVOKED_BIT + 1].TryCas? && s.drops == 0
  {
    steps := GuardsRun(REVOKED_BIT);
    steps := Then(Init, steps, StartRevoke(REVOKED_BIT));
    steps := Then(Init, steps, FetchOr(REVOKED_BIT));
    steps := Then(Init, steps, GuardDrop(0));
    steps := Then(Init, steps, StartTry(REVOKED_BIT + 1));
    steps := Then(Init, steps, Load(REVOKED_BIT + 1));
  }
}
