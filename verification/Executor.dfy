/** `WorkqueueExecutor`: any number of threads spawn tasks, wake them, revoke them through handles and
    stop the executor, while the kernel's workers run the tasks' work items. Every load,
    compare-exchange, fetch_or, fetch_sub, drop in place, lock section and workqueue call is one step.

    The kernel is assumed to do three things: `queue_work_on` refuses exactly an item that is already
    pending; an item never runs concurrently with itself; `cancel_work_sync` clears pending and
    returns only when no run of the item is in flight. */
module Executor {

  import opened Wrappers
  import opened RevocableWord

  type TaskId = nat
  type AgentId = nat

  /** Where the one possible run of a task's work item is. */
  datatype Run =
    | Idle                   // no run in flight
    | RunLoad                // try_access: about to load
    | RunCas(val: U32)       // try_access: loaded, not revoked
    | Polling                // guard held, waker made, poll in progress
    | Polled(ready: bool)    // poll returned, guard not yet dropped
    | RunDrop(ready: bool)   // the guard's drop found the value revoked and owes its drop
    | RunRevoke              // poll was ready, guard dropped: about to fetch_or
    | RunRevokeDrop          // that revoke found no guard and owes the drop
    | RunExit                // about to return

  /** How far a spawn has brought the task. */
  datatype Life =
    | Fresh(spawner: AgentId) // allocated, known only to its spawner
    | Registered(spawner: AgentId) // pushed on the executor's list
    | Rejected(spawner: AgentId) // the second check saw the executor stopped
    | Abandoned(spawner: AgentId) // the push failed: the task was freed

  /** Who owes the drop of a revoked, unguarded future. */
  datatype Debt = NoDebt | ByRun | ByAgent(agent: AgentId)

  /** `word` is the future's AsyncRevocable word, `drops` counts the drops of the future, `waker` is
      set once a poll has made a waker. */
  datatype Task = Task(word: U32, drops: nat, debt: Debt, pending: bool, run: Run, waker: bool, life: Life)

  /** What `stop` does to the task at the front of its list. */
  datatype Phase = Revoking | StopOwes | Cancelling | Waiting

  datatype SpawnError = EBUSY | ENOMEM

  datatype Agent =
    | SpawnCheck                                    // spawn: first look at `stopped`
    | SpawnAlloc                                    // spawn: allocate the task
    | SpawnRegister(task: TaskId)                   // spawn: second lock section
    | SpawnRejectOr(task: TaskId)                   // spawn: stopped, revoking the new task
    | SpawnOwes(task: TaskId)                       // spawn: that revoke owes the drop
    | SpawnEnqueue(task: TaskId)                    // spawn: first enqueue
    | SpawnOk(task: TaskId)                         // spawn returned the handle
    | SpawnErr(error: SpawnError)                   // spawn returned an error
    | StopLock                                      // stop: lock section
    | Stopping(todo: seq<TaskId>, phase: Phase)     // stop: loop over the taken list
    | StopDone                                      // stop returned
    | HandleOr(task: TaskId)                        // a handle's revoke: fetch_or
    | HandleOwes(task: TaskId)                      // a handle's revoke: owes the drop
    | HandleDone                                    // a handle's revoke returned

  /** `first` is the stop that found the executor not yet stopped. */
  datatype State = State(
    stopped: bool, list: seq<TaskId>, tasks: map<TaskId, Task>, agents: map<AgentId, Agent>, first: Option<AgentId>)

  datatype Step =
    | BeginSpawn(a: AgentId)
    | BeginStop(a: AgentId)
    | BeginRevoke(a: AgentId, t: TaskId)
    | HandleCancel(t: TaskId)
    | Wake(t: TaskId)
    | WorkerStart(t: TaskId)
    | WorkerStep(t: TaskId)
    | CasLost(t: TaskId)
    | PollReturns(t: TaskId, ready: bool)
    | AllocTask(a: AgentId, t: TaskId)
    | AllocFails(a: AgentId)
    | PushFails(a: AgentId)
    | AgentStep(a: AgentId)

  const Init: State := State(false, [], map[], map[], None)

  // ---- What the steps do -------------------------------------------------

  /** The debt and word after a fetch_or by `who`. */
  function RevokeTask(k: Task, who: Debt): Task {
    k.(word := OrRevoked(k.word), debt := if k.word == 0 then who else k.debt)
  }

  function DropFuture(k: Task): Task {
    k.(drops := k.drops + 1, debt := NoDebt)
  }

  /** One step of `Task::run`, other than the poll's own return and a lost compare-exchange. */
  function RunStep(k: Task): Task {
    match k.run
    case RunLoad => k.(run := if IsRevoked(k.word) then RunExit else RunCas(k.word))
    case RunCas(val) =>
      if val == k.word then k.(word := AddOne(k.word), run := Polling, waker := true) else k.(run := RunLoad)
    case Polled(ready) =>
      if k.word == REVOKED_BIT + 1
      then k.(word := SubOne(k.word), run := RunDrop(ready), debt := ByRun)
      else k.(word := SubOne(k.word), run := if ready then RunRevoke else RunExit)
    case RunDrop(ready) => DropFuture(k).(run := if ready then RunRevoke else RunExit)
    case RunRevoke => RevokeTask(k, ByRun).(run := if k.word == 0 then RunRevokeDrop else RunExit)
    case RunRevokeDrop => DropFuture(k).(run := RunExit)
    case RunExit => k.(run := Idle)
    case _ => k
  }

  /** The pc of a stop after it has dealt with the front of its list. */
  function NextTask(todo: seq<TaskId>): Agent {
    if todo == [] then StopDone else Stopping(todo, Revoking)
  }

  predicate AgentCanStep(s: State, pc: Agent) {
    match pc
    case SpawnCheck => true
    case SpawnRegister(t) => t in s.tasks
    case SpawnRejectOr(t) => t in s.tasks
    case SpawnOwes(t) => t in s.tasks
    case SpawnEnqueue(t) => t in s.tasks
    case StopLock => true
    case Stopping(todo, phase) =>
      todo != [] && todo[0] in s.tasks && (phase == Waiting ==> s.tasks[todo[0]].run == Idle)
    case HandleOr(t) => t in s.tasks
    case HandleOwes(t) => t in s.tasks
    case _ => false
  }

  function SetTask(s: State, t: TaskId, k: Task, a: AgentId, pc: Agent): State {
    s.(tasks := s.tasks[t := k], agents := s.agents[a := pc])
  }

  function StepAgent(s: State, a: AgentId, pc: Agent): State
    requires AgentCanStep(s, pc)
  {
    match pc
    case SpawnCheck => s.(agents := s.agents[a := if s.stopped then SpawnErr(EBUSY) else SpawnAlloc])
    case SpawnRegister(t) =>
      if s.stopped then SetTask(s, t, s.tasks[t].(life := Rejected(a)), a, SpawnRejectOr(t))
      else SetTask(s, t, s.tasks[t].(life := Registered(a)), a, SpawnEnqueue(t)).(list := s.list + [t])
    case SpawnRejectOr(t) =>
      SetTask(s, t, RevokeTask(s.tasks[t], ByAgent(a)), a,
              if s.tasks[t].word == 0 then SpawnOwes(t) else SpawnErr(EBUSY))
    case SpawnOwes(t) => SetTask(s, t, DropFuture(s.tasks[t]), a, SpawnErr(EBUSY))
    case SpawnEnqueue(t) => SetTask(s, t, s.tasks[t].(pending := true), a, SpawnOk(t))
    case StopLock =>
      s.(stopped := true, list := [], agents := s.agents[a := NextTask(s.list)],
         first := if s.stopped then s.first else Some(a))
    case Stopping(todo, Revoking) =>
      var t := todo[0];
      SetTask(s, t, RevokeTask(s.tasks[t], ByAgent(a)), a,
              Stopping(todo, if s.tasks[t].word == 0 then StopOwes else Cancelling))
    case Stopping(todo, StopOwes) => SetTask(s, todo[0], DropFuture(s.tasks[todo[0]]), a, Stopping(todo, Cancelling))
    case Stopping(todo, Cancelling) =>
      SetTask(s, todo[0], s.tasks[todo[0]].(pending := false), a, Stopping(todo, Waiting))
    case Stopping(todo, Waiting) => s.(agents := s.agents[a := NextTask(todo[1..])])
    case HandleOr(t) =>
      SetTask(s, t, RevokeTask(s.tasks[t], ByAgent(a)), a, if s.tasks[t].word == 0 then HandleOwes(t) else HandleDone)
    case HandleOwes(t) => SetTask(s, t, DropFuture(s.tasks[t]), a, HandleDone)
    case _ => s
  }

  predicate Enabled(s: State, st: Step) {
    match st
    case BeginSpawn(a) => a !in s.agents
    case BeginStop(a) => a !in s.agents
    case BeginRevoke(a, t) => a !in s.agents && t in s.tasks && s.tasks[t].life.Registered?
    case HandleCancel(t) => t in s.tasks && s.tasks[t].life.Registered?
    case Wake(t) => t in s.tasks && s.tasks[t].waker
    case WorkerStart(t) => t in s.tasks && s.tasks[t].pending && s.tasks[t].run == Idle
    case WorkerStep(t) => t in s.tasks && !s.tasks[t].run.Idle? && !s.tasks[t].run.Polling?
    case CasLost(t) => t in s.tasks && s.tasks[t].run.RunCas?
    case PollReturns(t, _) => t in s.tasks && s.tasks[t].run.Polling?
    case AllocTask(a, t) => a in s.agents && s.agents[a].SpawnAlloc? && t !in s.tasks
    case AllocFails(a) => a in s.agents && s.agents[a].SpawnAlloc?
    case PushFails(a) => a in s.agents && s.agents[a].SpawnRegister? && s.agents[a].task in s.tasks && !s.stopped
    case AgentStep(a) => a in s.agents && AgentCanStep(s, s.agents[a])
  }

  function Apply(s: State, st: Step): State
    requires Enabled(s, st)
  {
    match st
    case BeginSpawn(a) => s.(agents := s.agents[a := SpawnCheck])
    case BeginStop(a) => s.(agents := s.agents[a := StopLock])
    case BeginRevoke(a, t) => s.(agents := s.agents[a := HandleOr(t)])
    case HandleCancel(t) => s.(tasks := s.tasks[t := s.tasks[t].(pending := false)])
    case Wake(t) => s.(tasks := s.tasks[t := s.tasks[t].(pending := true)])
    case WorkerStart(t) => s.(tasks := s.tasks[t := s.tasks[t].(pending := false, run := RunLoad)])
    case WorkerStep(t) => s.(tasks := s.tasks[t := RunStep(s.tasks[t])])
    case CasLost(t) => s.(tasks := s.tasks[t := s.tasks[t].(run := RunLoad)])
    case PollReturns(t, ready) => s.(tasks := s.tasks[t := s.tasks[t].(run := Polled(ready))])
    case AllocTask(a, t) =>
      SetTask(s, t, Task(0, 0, NoDebt, false, Idle, false, Fresh(a)), a, SpawnRegister(t))
    case AllocFails(a) => s.(agents := s.agents[a := SpawnErr(ENOMEM)])
    case PushFails(a) =>
      // the task's last Arc is dropped; AsyncRevocable::drop drops the unrevoked future
      var t := s.agents[a].task;
      SetTask(s, t, DropFuture(s.tasks[t]).(life := Abandoned(a)), a, SpawnErr(ENOMEM))
    case AgentStep(a) => StepAgent(s, a, s.agents[a])
  }

  function Exec(s: State, steps: seq<Step>): Option<State> {
    if steps == [] then Some(s) else
    var n := |steps| - 1;
    match Exec(s, steps[..n])
    case None => None
    case Some(u) => if Enabled(u, steps[n]) then Some(Apply(u, steps[n])) else None
  }

  // ---- The invariant -----------------------------------------------------

  /** A run holds the guard from the successful compare-exchange to the guard's drop. */
  predicate HoldsGuard(run: Run) {
    run.Polling? || run.Polled?
  }

  predicate RunOwes(run: Run) {
    run.RunDrop? || run.RunRevokeDrop?
  }

  /** A task whose future can neither be polled now nor ever again. */
  predicate Closed(k: Task) {
    IsRevoked(k.word) && (k.run == Idle || k.run == RunLoad || k.run == RunExit)
  }

  /** A task nobody but its spawner knows: never queued, never run. */
  predicate Untouched(k: Task) {
    !k.pending && k.run == Idle && !k.waker
  }

  /** Each future is dropped, or owed a drop by one debtor, exactly from the moment it is revoked and
      unguarded (or its task abandoned). */
  predicate TaskInv(k: Task) {
    && k.word == Word(One(HoldsGuard(k.run)), IsRevoked(k.word))
    && (k.run.RunCas? ==> !IsRevoked(k.run.val))
    && (HoldsGuard(k.run) ==> k.waker)
    && k.drops + One(!k.debt.NoDebt?)
       == One(k.life.Abandoned? || (IsRevoked(k.word) && !HoldsGuard(k.run)))
    && (k.debt.ByRun? <==> RunOwes(k.run))
    && (k.life.Registered? || Untouched(k))
    && (k.life.Fresh? || k.life.Abandoned? ==> k.word == 0)
  }

  /** The task, if any, whose future this agent owes a drop. */
  function Owes(pc: Agent): Option<TaskId> {
    match pc
    case SpawnOwes(t) => Some(t)
    case HandleOwes(t) => Some(t)
    case Stopping(todo, StopOwes) => if todo == [] then None else Some(todo[0])
    case _ => None
  }

  predicate AgentInv(s: State, a: AgentId, pc: Agent) {
    && (Owes(pc).Some? ==> Owes(pc).value in s.tasks && s.tasks[Owes(pc).value].debt == ByAgent(a))
    && match pc
       case SpawnRegister(t) => t in s.tasks && s.tasks[t].life == Fresh(a)
       case SpawnRejectOr(t) => t in s.tasks && s.tasks[t].life == Rejected(a)
       case SpawnOwes(t) => t in s.tasks && s.tasks[t].life == Rejected(a)
       case SpawnEnqueue(t) => t in s.tasks && s.tasks[t].life.Registered?
       case HandleOr(t) => t in s.tasks && s.tasks[t].life.Registered?
       case HandleOwes(t) => t in s.tasks && s.tasks[t].life.Registered?
       case Stopping(todo, phase) =>
         && s.first == Some(a) && todo != []
         && (forall i :: 0 <= i < |todo| ==> todo[i] in s.tasks && s.tasks[todo[i]].life.Registered?)
         && (phase != Revoking ==> IsRevoked(s.tasks[todo[0]].word))
       case _ => true
  }

  /** The tasks the first stop has still to close. */
  function Todo(s: State): seq<TaskId> {
    if s.first.Some? && s.first.value in s.agents && s.agents[s.first.value].Stopping?
    then s.agents[s.first.value].todo else []
  }

  predicate Handled(s: State, t: TaskId)
    requires t in s.tasks
  {
    s.tasks[t].life.Registered? ==>
      if s.stopped then t in Todo(s) || Closed(s.tasks[t]) else t in s.list
  }

  ghost predicate TasksInv(s: State) {
    forall t :: t in s.tasks ==> TaskInv(s.tasks[t])
  }

  ghost predicate DebtsInv(s: State) {
    forall t :: t in s.tasks && s.tasks[t].debt.ByAgent? ==>
      var a := s.tasks[t].debt.agent; a in s.agents && Owes(s.agents[a]) == Some(t)
  }

  ghost predicate AgentsInv(s: State) {
    forall a :: a in s.agents ==> AgentInv(s, a, s.agents[a])
  }

  ghost predicate HandledInv(s: State) {
    forall t :: t in s.tasks ==> Handled(s, t)
  }

  predicate ListInv(s: State) {
    forall i :: 0 <= i < |s.list| ==> s.list[i] in s.tasks && s.tasks[s.list[i]].life.Registered?
  }

  predicate StopInv(s: State) {
    && s.stopped == s.first.Some?
    && (s.stopped ==> s.list == [] && s.first.value in s.agents
                      && (s.agents[s.first.value].Stopping? || s.agents[s.first.value].StopDone?))
  }

  ghost predicate Inv(s: State) {
    TasksInv(s) && DebtsInv(s) && AgentsInv(s) && HandledInv(s) && ListInv(s) && StopInv(s)
  }

  // ---- Proofs ------------------------------------------------------------

  /** What a change of a task by agent `a` (or by its run) leaves alone for everybody else. */
  predicate Frame(k: Task, k': Task, a: AgentId) {
    && TaskInv(k')
    && (k'.life == k.life || k.life == Fresh(a))
    && (IsRevoked(k.word) ==> IsRevoked(k'.word))
    && (Closed(k) ==> Closed(k'))
    && (k.debt.ByAgent? && k.debt.agent != a ==> k'.debt == k.debt)
    && (k'.debt.ByAgent? && k'.debt.agent != a ==> k'.debt == k.debt)
  }

  /** Nothing changes but task `t` and agent `a`. */
  predicate Only(s: State, s': State, t: TaskId, a: AgentId) {
    && s'.stopped == s.stopped && s'.first == s.first
    && s'.tasks == (if t in s.tasks && t in s'.tasks then s.tasks[t := s'.tasks[t]] else s.tasks)
    && s'.agents == (if a in s'.agents then s.agents[a := s'.agents[a]] else s.agents)
    && (t in s.tasks ==> Frame(s.tasks[t], s'.tasks[t], a))
  }

  lemma OtherAgent(s: State, s': State, t: TaskId, a: AgentId, x: AgentId)
    requires Only(s, s', t, a) && x != a && x in s.agents && AgentInv(s, x, s.agents[x])
    ensures AgentInv(s', x, s.agents[x])
  {
  }

  lemma OnlyKeepsInv(s: State, s': State, t: TaskId, a: AgentId)
    requires Inv(s) && Only(s, s', t, a) && s'.list == s.list
    requires a in s'.agents ==> AgentInv(s', a, s'.agents[a])
    // the agent's debts are settled with this task only
    requires a in s.agents ==> Owes(s.agents[a]) == None || Owes(s.agents[a]) == Some(t) || s'.agents[a] == s.agents[a]
    requires t in s.tasks && s'.tasks[t].debt == ByAgent(a) ==> a in s'.agents && Owes(s'.agents[a]) == Some(t)
    requires s.first == Some(a) ==> a in s'.agents && (s'.agents[a].Stopping? || s'.agents[a].StopDone?)
    requires Todo(s') == Todo(s)
    requires t in s.tasks && s'.tasks[t].life.Registered? ==> s.tasks[t].life.Registered?
    requires t in s.tasks && s.tasks[t].life.Registered? ==> s'.tasks[t].life.Registered?
    ensures Inv(s')
  {
    forall x | x in s'.agents ensures AgentInv(s', x, s'.agents[x]) {
      if x != a { OtherAgent(s, s', t, a, x); }
    }
    OnlyKeepsDebts(s, s', t, a);
    forall x | x in s'.tasks ensures Handled(s', x) {
      assert Handled(s, x);
    }
  }

  lemma OnlyKeepsDebts(s: State, s': State, t: TaskId, a: AgentId)
    requires DebtsInv(s) && Only(s, s', t, a)
    requires a in s.agents ==> Owes(s.agents[a]) == None || Owes(s.agents[a]) == Some(t) || s'.agents[a] == s.agents[a]
    requires t in s.tasks && s'.tasks[t].debt == ByAgent(a) ==> a in s'.agents && Owes(s'.agents[a]) == Some(t)
    ensures DebtsInv(s')
  {
  }

  lemma RunStepFrame(k: Task, a: AgentId)
    requires TaskInv(k) && !k.run.Idle? && !k.run.Polling?
    ensures Frame(k, RunStep(k), a) && RunStep(k).life == k.life
    ensures RunStep(k).debt == ByAgent(a) <==> k.debt == ByAgent(a)
  {
    match k.run
    case RunLoad =>
    case RunCas(val) =>
    case Polled(ready) =>
    case RunDrop(ready) =>
    case RunRevoke =>
    case RunRevokeDrop =>
    case RunExit =>
  }

  lemma TaskStepKeepsInv(s: State, t: TaskId, k: Task)
    requires Inv(s) && t in s.tasks && k.life == s.tasks[t].life
    requires forall a: AgentId :: Frame(s.tasks[t], k, a)
    ensures Inv(s.(tasks := s.tasks[t := k]))
  {
    var s' := s.(tasks := s.tasks[t := k]);
    assert Frame(s.tasks[t], k, 0) && Frame(s.tasks[t], k, 1);
    if 0 in s.agents { OtherAgent(s, s', t, 1, 0); }
    OnlyKeepsInv(s, s', t, 0);
  }

  lemma RunStepKeepsInv(s: State, t: TaskId)
    requires Inv(s) && Enabled(s, WorkerStep(t))
    ensures Inv(Apply(s, WorkerStep(t)))
  {
    var k := s.tasks[t];
    assert TaskInv(k);
    forall a: AgentId ensures Frame(k, RunStep(k), a) { RunStepFrame(k, a); }
    RunStepFrame(k, 0);
    TaskStepKeepsInv(s, t, RunStep(k));
  }

  /** Wakes, cancellations and the steps of a run change one task, and nobody's debts but the run's. */
  lemma WorkerKeepsInv(s: State, st: Step)
    requires Inv(s) && Enabled(s, st)
    requires st.HandleCancel? || st.Wake? || st.WorkerStart? || st.CasLost? || st.PollReturns?
    ensures Inv(Apply(s, st))
  {
    var k := s.tasks[st.t];
    assert TaskInv(k);
    match st
    case HandleCancel(t) => TaskStepKeepsInv(s, t, k.(pending := false));
    case Wake(t) => TaskStepKeepsInv(s, t, k.(pending := true));
    case WorkerStart(t) => TaskStepKeepsInv(s, t, k.(pending := false, run := RunLoad));
    case CasLost(t) => TaskStepKeepsInv(s, t, k.(run := RunLoad));
    case PollReturns(t, ready) => TaskStepKeepsInv(s, t, k.(run := Polled(ready)));
  }

  /** An agent that moves without touching a task, a debt or the list. */
  lemma PlainMoveKeepsInv(s: State, a: AgentId, pc: Agent)
    requires Inv(s) && s.first != Some(a)
    requires a in s.agents ==> s.agents[a].SpawnCheck? || s.agents[a].SpawnAlloc?
    requires pc.SpawnCheck? || pc.SpawnAlloc? || pc.SpawnErr? || pc.StopLock?
             || (pc.HandleOr? && pc.task in s.tasks && s.tasks[pc.task].life.Registered?)
    ensures Inv(s.(agents := s.agents[a := pc]))
  {
    OnlyKeepsInv(s, s.(agents := s.agents[a := pc]), 0, a);
  }

  lemma AllocKeepsInv(s: State, a: AgentId, t: TaskId)
    requires Inv(s) && Enabled(s, AllocTask(a, t))
    ensures Inv(Apply(s, AllocTask(a, t)))
  {
    var s' := Apply(s, AllocTask(a, t));
    forall x | x in s'.agents ensures AgentInv(s', x, s'.agents[x]) {
      if x != a { assert AgentInv(s, x, s.agents[x]); }
    }
    assert TasksInv(s') && DebtsInv(s') && HandledInv(s');
  }

  lemma RegisterKeepsInv(s: State, a: AgentId)
    requires Inv(s) && Enabled(s, AgentStep(a)) && s.agents[a].SpawnRegister?
    ensures Inv(Apply(s, AgentStep(a)))
  {
    var s', t := Apply(s, AgentStep(a)), s.agents[a].task;
    assert AgentInv(s, a, s.agents[a]) && TaskInv(s.tasks[t]);
    if s.stopped {
      OnlyKeepsInv(s, s', t, a);
    } else {
      forall x | x in s'.agents ensures AgentInv(s', x, s'.agents[x]) {
        if x != a { OtherAgent(s, s', t, a, x); }
      }
      assert t == s'.list[|s.list|];
      assert DebtsInv(s') && HandledInv(s');
    }
  }

  lemma PushFailsKeepsInv(s: State, a: AgentId)
    requires Inv(s) && Enabled(s, PushFails(a))
    ensures Inv(Apply(s, PushFails(a)))
  {
    var t := s.agents[a].task;
    assert AgentInv(s, a, s.agents[a]) && TaskInv(s.tasks[t]);
    OnlyKeepsInv(s, Apply(s, PushFails(a)), t, a);
  }

  lemma RevokeFrame(k: Task, a: AgentId)
    requires TaskInv(k) && (k.life.Registered? || k.life.Rejected?)
    ensures Frame(k, RevokeTask(k, ByAgent(a)), a)
    ensures IsRevoked(RevokeTask(k, ByAgent(a)).word)
  {
  }

  lemma DropFrame(k: Task, a: AgentId)
    requires TaskInv(k) && k.debt == ByAgent(a)
    ensures Frame(k, DropFuture(k), a)
  {
  }

  /** A spawn that was rejected revokes its task. */
  lemma RejectKeepsInv(s: State, a: AgentId)
    requires Inv(s) && Enabled(s, AgentStep(a)) && s.agents[a].SpawnRejectOr?
    ensures Inv(Apply(s, AgentStep(a)))
  {
    var s', t := Apply(s, AgentStep(a)), s.agents[a].task;
    assert AgentInv(s, a, s.agents[a]) && TaskInv(s.tasks[t]);
    RevokeFrame(s.tasks[t], a);
    OnlyKeepsInv(s, s', t, a);
  }

  /** A handle revokes its task. */
  lemma HandleRevokeKeepsInv(s: State, a: AgentId)
    requires Inv(s) && Enabled(s, AgentStep(a)) && s.agents[a].HandleOr?
    ensures Inv(Apply(s, AgentStep(a)))
  {
    var s', t := Apply(s, AgentStep(a)), s.agents[a].task;
    assert AgentInv(s, a, s.agents[a]) && TaskInv(s.tasks[t]);
    RevokeFrame(s.tasks[t], a);
    OnlyKeepsInv(s, s', t, a);
  }

  /** A rejected spawn drops the future it owes. */
  lemma RejectDropKeepsInv(s: State, a: AgentId)
    requires Inv(s) && Enabled(s, AgentStep(a)) && s.agents[a].SpawnOwes?
    ensures Inv(Apply(s, AgentStep(a)))
  {
    var s', t := Apply(s, AgentStep(a)), s.agents[a].task;
    assert AgentInv(s, a, s.agents[a]) && TaskInv(s.tasks[t]);
    DropFrame(s.tasks[t], a);
    OnlyKeepsInv(s, s', t, a);
  }

  /** A handle drops the future it owes. */
  lemma HandleDropKeepsInv(s: State, a: AgentId)
    requires Inv(s) && Enabled(s, AgentStep(a)) && s.agents[a].HandleOwes?
    ensures Inv(Apply(s, AgentStep(a)))
  {
    var s', t := Apply(s, AgentStep(a)), s.agents[a].task;
    assert AgentInv(s, a, s.agents[a]) && TaskInv(s.tasks[t]);
    DropFrame(s.tasks[t], a);
    OnlyKeepsInv(s, s', t, a);
  }

  lemma FirstEnqueueKeepsInv(s: State, a: AgentId)
    requires Inv(s) && Enabled(s, AgentStep(a)) && s.agents[a].SpawnEnqueue?
    ensures Inv(Apply(s, AgentStep(a)))
  {
    var s', t := Apply(s, AgentStep(a)), s.agents[a].task;
    assert AgentInv(s, a, s.agents[a]) && TaskInv(s.tasks[t]);
    OnlyKeepsInv(s, s', t, a);
  }

  lemma StopLockKeepsInv(s: State, a: AgentId)
    requires Inv(s) && Enabled(s, AgentStep(a)) && s.agents[a].StopLock?
    ensures Inv(Apply(s, AgentStep(a)))
  {
    var s' := Apply(s, AgentStep(a));
    if s.stopped {
      OnlyKeepsInv(s, s', 0, a);
    } else {
      forall x | x in s'.agents ensures AgentInv(s', x, s'.agents[x]) {
        if x != a { assert AgentInv(s, x, s.agents[x]); }
      }
      assert Todo(s') == s.list;
      assert DebtsInv(s') && HandledInv(s');
    }
  }

  /** The loop of `stop` on the task at the front: revoke it, drop its future if owed, cancel its work. */
  lemma StopRevokeKeepsInv(s: State, a: AgentId)
    requires Inv(s) && Enabled(s, AgentStep(a)) && s.agents[a].Stopping? && s.agents[a].phase == Revoking
    ensures Inv(Apply(s, AgentStep(a)))
  {
    var s', t := Apply(s, AgentStep(a)), s.agents[a].todo[0];
    assert AgentInv(s, a, s.agents[a]) && TaskInv(s.tasks[t]);
    RevokeFrame(s.tasks[t], a);
    OnlyKeepsInv(s, s', t, a);
  }

  lemma StopDropKeepsInv(s: State, a: AgentId)
    requires Inv(s) && Enabled(s, AgentStep(a)) && s.agents[a].Stopping? && s.agents[a].phase == StopOwes
    ensures Inv(Apply(s, AgentStep(a)))
  {
    var s', t := Apply(s, AgentStep(a)), s.agents[a].todo[0];
    assert AgentInv(s, a, s.agents[a]) && TaskInv(s.tasks[t]);
    DropFrame(s.tasks[t], a);
    OnlyKeepsInv(s, s', t, a);
  }

  lemma StopCancelKeepsInv(s: State, a: AgentId)
    requires Inv(s) && Enabled(s, AgentStep(a)) && s.agents[a].Stopping? && s.agents[a].phase == Cancelling
    ensures Inv(Apply(s, AgentStep(a)))
  {
    var s', t := Apply(s, AgentStep(a)), s.agents[a].todo[0];
    assert AgentInv(s, a, s.agents[a]) && TaskInv(s.tasks[t]);
    OnlyKeepsInv(s, s', t, a);
  }

  /** When `cancel_work_sync` returns for the front task, that task is closed for good. */
  lemma WaitedKeepsInv(s: State, a: AgentId)
    requires Inv(s) && Enabled(s, AgentStep(a)) && s.agents[a].Stopping? && s.agents[a].phase == Waiting
    ensures Inv(Apply(s, AgentStep(a)))
  {
    var s', todo := Apply(s, AgentStep(a)), s.agents[a].todo;
    assert AgentInv(s, a, s.agents[a]);
    assert Closed(s.tasks[todo[0]]);
    assert Todo(s') == todo[1..];
    forall x | x in s'.agents ensures AgentInv(s', x, s'.agents[x]) {
      if x != a { assert AgentInv(s, x, s.agents[x]); }
    }
    forall t | t in s'.tasks ensures Handled(s', t) {
      assert Handled(s, t);
    }
    assert DebtsInv(s');
  }

  lemma StepKeepsInv(s: State, st: Step)
    requires Inv(s) && Enabled(s, st)
    ensures Inv(Apply(s, st))
  {
    match st
    case BeginSpawn(a) => PlainMoveKeepsInv(s, a, SpawnCheck);
    case BeginStop(a) => PlainMoveKeepsInv(s, a, StopLock);
    case BeginRevoke(a, t) => PlainMoveKeepsInv(s, a, HandleOr(t));
    case AllocTask(a, t) => AllocKeepsInv(s, a, t);
    case AllocFails(a) => PlainMoveKeepsInv(s, a, SpawnErr(ENOMEM));
    case PushFails(a) => PushFailsKeepsInv(s, a);
    case AgentStep(a) =>
      match s.agents[a] {
        case SpawnCheck => PlainMoveKeepsInv(s, a, if s.stopped then SpawnErr(EBUSY) else SpawnAlloc);
        case SpawnRegister(_) => RegisterKeepsInv(s, a);
        case StopLock => StopLockKeepsInv(s, a);
        case Stopping(_, Revoking) => StopRevokeKeepsInv(s, a);
        case Stopping(_, StopOwes) => StopDropKeepsInv(s, a);
        case Stopping(_, Cancelling) => StopCancelKeepsInv(s, a);
        case Stopping(_, Waiting) => WaitedKeepsInv(s, a);
        case SpawnEnqueue(_) => FirstEnqueueKeepsInv(s, a);
        case SpawnRejectOr(_) => RejectKeepsInv(s, a);
        case HandleOr(_) => HandleRevokeKeepsInv(s, a);
        case SpawnOwes(_) => RejectDropKeepsInv(s, a);
        case HandleOwes(_) => HandleDropKeepsInv(s, a);
      }
    case WorkerStep(t) => RunStepKeepsInv(s, t);
    case _ => WorkerKeepsInv(s, st);
  }

  lemma {:induction false} RunKeepsInv(s: State, steps: seq<Step>)
    requires Inv(s) && Exec(s, steps).Some?
    ensures Inv(Exec(s, steps).value)
  {
    if steps != [] {
      var n := |steps| - 1;
      RunKeepsInv(s, steps[..n]);
      StepKeepsInv(Exec(s, steps[..n]).value, steps[n]);
    }
  }

  lemma InitInv()
    ensures Inv(Init)
  {
  }

  // ---- What stop promises ------------------------------------------------

  /** The stop that took the lock first has returned. */
  predicate FirstStopReturned(s: State) {
    s.first.Some? && s.first.value in s.agents && s.agents[s.first.value].StopDone?
  }

  /** A handle holder's own revoke is between its fetch_or and its drop of the future. */
  ghost predicate HandleMidDrop(s: State, t: TaskId) {
    exists a :: a in s.agents && s.agents[a] == HandleOwes(t)
  }

  lemma ReturnedMeansClosed(s: State, t: TaskId)
    requires Inv(s) && FirstStopReturned(s) && t in s.tasks
    ensures !s.tasks[t].run.Polling? && !s.tasks[t].run.Polled?
    ensures s.tasks[t].life.Registered? ==> Closed(s.tasks[t])
    ensures s.tasks[t].life.Registered? ==> s.tasks[t].drops == 1 || HandleMidDrop(s, t)
  {
    var k := s.tasks[t];
    assert TaskInv(k) && Handled(s, t);
    if k.life.Registered? && k.drops == 0 {
      var a := k.debt.agent;
      assert AgentInv(s, a, s.agents[a]);
      assert s.agents[a] == HandleOwes(t);
    }
  }

  lemma {:induction false} StopStays(s: State, more: seq<Step>)
    requires Inv(s) && FirstStopReturned(s) && Exec(s, more).Some?
    ensures
      var s' := Exec(s, more).value;
      && Inv(s') && FirstStopReturned(s')
      && forall t :: t in s'.tasks && s'.tasks[t].life.Registered? ==> t in s.tasks && s.tasks[t].life.Registered?
  {
    if more != [] {
      var n := |more| - 1;
      StopStays(s, more[..n]);
      var u := Exec(s, more[..n]).value;
      StepKeepsInv(u, more[n]);
      StepAfterStop(u, more[n]);
    }
  }

  lemma StepAfterStop(u: State, st: Step)
    requires Inv(u) && FirstStopReturned(u) && Enabled(u, st)
    ensures FirstStopReturned(Apply(u, st))
    ensures forall t :: t in Apply(u, st).tasks && Apply(u, st).tasks[t].life.Registered? ==>
              t in u.tasks && u.tasks[t].life.Registered?
  {
    if st.AgentStep? {
      AgentAfterStop(u, st.a);
    }
  }

  lemma AgentAfterStop(u: State, a: AgentId)
    requires Inv(u) && FirstStopReturned(u) && Enabled(u, AgentStep(a))
    ensures FirstStopReturned(Apply(u, AgentStep(a)))
    ensures forall t :: t in Apply(u, AgentStep(a)).tasks && Apply(u, AgentStep(a)).tasks[t].life.Registered? ==>
              t in u.tasks && u.tasks[t].life.Registered?
  {
    assert a != u.first.value;
    match u.agents[a]
    case SpawnCheck =>
    case SpawnRegister(_) =>
    case SpawnRejectOr(_) =>
    case SpawnOwes(_) =>
    case SpawnEnqueue(_) =>
    case StopLock =>
    case Stopping(_, _) => assert AgentInv(u, a, u.agents[a]);
    case HandleOr(_) =>
    case HandleOwes(_) =>
  }

  /** In every interleaving of spawns, wakes, worker runs, handle revokes and stops: once the first
      stop to take the lock has returned, no poll of any task is running, none starts in any
      continuation, no task is registered any more, and every registered future has been dropped
      exactly once, unless a handle holder's own revoke is in the middle of dropping it. */
  lemma StopIsFinal(steps: seq<Step>, more: seq<Step>)
    requires Exec(Init, steps).Some? && FirstStopReturned(Exec(Init, steps).value)
    requires Exec(Exec(Init, steps).value, more).Some?
    ensures
      var s := Exec(Init, steps).value;
      var s' := Exec(s, more).value;
      && (forall t :: t in s'.tasks ==> !s'.tasks[t].run.Polling?)
      && (forall t :: t in s'.tasks && s'.tasks[t].life.Registered? ==>
            && t in s.tasks && s.tasks[t].life.Registered?
            && (s'.tasks[t].drops == 1 || HandleMidDrop(s', t)))
  {
    var s := Exec(Init, steps).value;
    InitInv();
    RunKeepsInv(Init, steps);
    StopStays(s, more);
    var s' := Exec(s, more).value;
    forall t | t in s'.tasks
      ensures !s'.tasks[t].run.Polling?
      ensures s'.tasks[t].life.Registered? ==> s'.tasks[t].drops == 1 || HandleMidDrop(s', t)
    {
      ReturnedMeansClosed(s', t);
    }
  }

  /** Over every run, stopped or not: a future is dropped at most once, and never polled once dropped,
      about to be dropped, or before its task was registered. */
  lemma PollsOnlyLiveFutures(steps: seq<Step>, t: TaskId)
    requires Exec(Init, steps).Some? && t in Exec(Init, steps).value.tasks
    ensures
      var k := Exec(Init, steps).value.tasks[t];
      && k.drops <= 1
      && (k.run.Polling? ==> k.drops == 0 && k.debt == NoDebt && k.life.Registered?)
  {
    InitInv();
    RunKeepsInv(Init, steps);
    assert TaskInv(Exec(Init, steps).value.tasks[t]);
  }

  lemma Then(steps: seq<Step>, st: Step) returns (longer: seq<Step>)
    requires Exec(Init, steps).Some? && Enabled(Exec(Init, steps).value, st)
    ensures Exec(Init, longer) == Some(Apply(Exec(Init, steps).value, st))
  {
    longer := steps + [st];
    assert longer[..|steps|] == steps;
  }

  /** Agent 0 spawns task 0, up to its registration. */
  lemma AllocatedRun() returns (steps: seq<Step>)
    ensures Exec(Init, steps).Some?
    ensures Exec(Init, steps).value ==
            State(false, [], map[0 := Task(0, 0, NoDebt, false, Idle, false, Fresh(0))],
                  map[0 := SpawnRegister(0)], None)
  {
    steps := Then([], BeginSpawn(0));
    steps := Then(steps, AgentStep(0));
    assert Exec(Init, steps).value == State(false, [], map[], map[0 := SpawnAlloc], None);
    steps := Then(steps, AllocTask(0, 0));
  }

  /** Agent 0 spawns task 0 and enqueues it. */
  lemma SpawnedRun() returns (steps: seq<Step>)
    ensures Exec(Init, steps).Some?
    ensures Exec(Init, steps).value ==
            State(false, [0], map[0 := Task(0, 0, NoDebt, true, Idle, false, Registered(0))], map[0 := SpawnOk(0)],
                  None)
  {
    steps := AllocatedRun();
    steps := Then(steps, AgentStep(0));
    var k := Task(0, 0, NoDebt, false, Idle, false, Registered(0));
    assert Exec(Init, steps).value == State(false, [0], map[0 := k], map[0 := SpawnEnqueue(0)], None);
    steps := Then(steps, AgentStep(0));
  }

  /** A worker starts to poll that task. */
  lemma PollingRun() returns (steps: seq<Step>)
    ensures Exec(Init, steps).Some?
    ensures Exec(Init, steps).value ==
            State(false, [0], map[0 := Task(1, 0, NoDebt, false, Polling, true, Registered(0))],
                  map[0 := SpawnOk(0)], None)
  {
    steps := SpawnedRun();
    steps := Then(steps, WorkerStart(0));
    steps := Then(steps, WorkerStep(0));
    var k := Task(0, 0, NoDebt, false, RunCas(0), false, Registered(0));
    assert Exec(Init, steps).value == State(false, [0], map[0 := k], map[0 := SpawnOk(0)], None);
    steps := Then(steps, WorkerStep(0));
  }

  /** A stop that is not the first finds the list empty and may return while a poll is running: the
      documented promise of `stop` holds only for the first. */
  lemma SecondStopReturnsEarly() returns (steps: seq<Step>)
    ensures Exec(Init, steps).Some?
    ensures
      var s := Exec(Init, steps).value;
      && 2 in s.agents && s.agents[2].StopDone? && s.first == Some(1)
      && 0 in s.tasks && s.tasks[0].run.Polling?
  {
    steps := PollingRun();
    steps := Then(steps, BeginStop(1));
    steps := Then(steps, AgentStep(1));
    steps := Then(steps, BeginStop(2));
    steps := Then(steps, AgentStep(2));
  }

  // ---- A task that is ready ----------------------------------------------

  /** A poll has returned Ready, or the future is revoked and not being polled. */
  predicate Over(k: Task) {
    k.run == Polled(true) || k.run == RunDrop(true) || k.run == RunRevoke || (IsRevoked(k.word) && !HoldsGuard(k.run))
  }

  lemma RunStaysOver(k: Task)
    requires TaskInv(k) && Over(k)
    ensures Over(RunStep(k))
  {
  }

  /** Agents leave the runs of tasks alone and never take a revoke back. */
  lemma AgentsLeaveRuns(s: State, a: AgentId, t: TaskId)
    requires a in s.agents && AgentCanStep(s, s.agents[a]) && t in s.tasks
    ensures
      var u := StepAgent(s, a, s.agents[a]);
      t in u.tasks && u.tasks[t].run == s.tasks[t].run && (IsRevoked(s.tasks[t].word) ==> IsRevoked(u.tasks[t].word))
  {
  }

  lemma StaysOver(s: State, st: Step, t: TaskId)
    requires Enabled(s, st) && t in s.tasks && TaskInv(s.tasks[t]) && Over(s.tasks[t])
    ensures t in Apply(s, st).tasks && Over(Apply(s, st).tasks[t])
  {
    match st
    case AgentStep(a) => AgentsLeaveRuns(s, a, t);
    case WorkerStep(_) => RunStaysOver(s.tasks[t]);
    case _ =>
  }

  /** From any reachable state in which a poll of a task has returned Ready: the task is never polled again,
      and once its run has ended its future is revoked and dropped exactly once, or about to be by one agent. */
  lemma {:induction false} ReadyIsFinal(s: State, more: seq<Step>, t: TaskId)
    requires Inv(s) && t in s.tasks && s.tasks[t].run == Polled(true) && Exec(s, more).Some?
    ensures
      var u := Exec(s, more).value;
      && Inv(u) && t in u.tasks && Over(u.tasks[t]) && !u.tasks[t].run.Polling?
      && (u.tasks[t].run == Idle ==> IsRevoked(u.tasks[t].word) && (u.tasks[t].drops == 1 || u.tasks[t].debt.ByAgent?))
  {
    if more != [] {
      var n := |more| - 1;
      ReadyIsFinal(s, more[..n], t);
      StepKeepsInv(Exec(s, more[..n]).value, more[n]);
      assert TaskInv(Exec(s, more[..n]).value.tasks[t]);
      StaysOver(Exec(s, more[..n]).value, more[n], t);
    }
    assert TaskInv(Exec(s, more).value.tasks[t]);
  }

  // ---- What a spawn answers ----------------------------------------------

  /** Where the spawner of a task is, by how far it has brought the task. */
  predicate SpawnerAt(s: State, t: TaskId, k: Task) {
    && k.life.spawner in s.agents
    && var pc := s.agents[k.life.spawner];
       match k.life
       case Fresh(_) => pc == SpawnRegister(t)
       case Registered(_) => pc == SpawnEnqueue(t) || pc == SpawnOk(t)
       case Rejected(_) =>
         s.stopped && (pc == SpawnRejectOr(t) || pc == SpawnOwes(t) || (pc == SpawnErr(EBUSY) && IsRevoked(k.word)))
       case Abandoned(_) => pc == SpawnErr(ENOMEM)
  }

  /** What a spawn that is about to return, or has, says about its task and the executor. */
  predicate Answered(s: State, a: AgentId, pc: Agent) {
    match pc
    case SpawnEnqueue(t) => t in s.tasks && s.tasks[t].life == Registered(a)
    case SpawnOk(t) => t in s.tasks && s.tasks[t].life == Registered(a)
    case SpawnErr(e) => e == EBUSY ==> s.stopped
    case _ => true
  }

  ghost predicate SpawnsInv(s: State) {
    && (forall t :: t in s.tasks ==> SpawnerAt(s, t, s.tasks[t]))
    && (forall a :: a in s.agents ==> Answered(s, a, s.agents[a]))
  }

  /** A step in which no spawn moves: tasks keep their life and stay revoked. */
  ghost predicate NoSpawnMoves(s: State, s': State) {
    && (s.stopped ==> s'.stopped)
    && (forall t :: t in s'.tasks <==> t in s.tasks)
    && (forall t :: t in s.tasks ==>
          s'.tasks[t].life == s.tasks[t].life && (IsRevoked(s.tasks[t].word) ==> IsRevoked(s'.tasks[t].word)))
    && (forall a :: a in s.agents ==> a in s'.agents && (Spawning(s.agents[a]) ==> s'.agents[a] == s.agents[a]))
    && (forall a :: a in s'.agents && Spawning(s'.agents[a]) ==>
          (a in s.agents && s'.agents[a] == s.agents[a]) || s'.agents[a].SpawnCheck?)
  }

  predicate Spawning(pc: Agent) {
    NotYetRegistered(pc) || pc.SpawnEnqueue? || pc.SpawnOk?
  }

  /** A spawn that has not passed its second check. */
  predicate NotYetRegistered(pc: Agent) {
    pc.SpawnCheck? || pc.SpawnAlloc? || pc.SpawnRegister? || pc.SpawnRejectOr? || pc.SpawnOwes? || pc.SpawnErr?
  }

  lemma OthersKeepSpawns(s: State, s': State)
    requires SpawnsInv(s) && NoSpawnMoves(s, s')
    ensures SpawnsInv(s')
  {
    forall t | t in s'.tasks ensures SpawnerAt(s', t, s'.tasks[t]) {
      assert SpawnerAt(s, t, s.tasks[t]);
    }
    forall a | a in s'.agents ensures Answered(s', a, s'.agents[a]) {
      if a in s.agents {
        assert Answered(s, a, s.agents[a]);
      }
    }
  }

  /** A step of the spawn `a`, whose only task is `t`. */
  lemma SpawnKeepsSpawns(s: State, s': State, a: AgentId, t: TaskId)
    requires SpawnsInv(s) && a in s'.agents && s'.stopped == s.stopped
    requires forall x :: x in s'.tasks && x != t ==> x in s.tasks && s'.tasks[x] == s.tasks[x]
    requires forall x :: x in s.tasks && x != t ==> s.tasks[x].life.spawner != a
    requires t in s.tasks ==> t in s'.tasks && s.tasks[t].life.spawner == a
    requires s'.agents == s.agents[a := s'.agents[a]] && Answered(s', a, s'.agents[a])
    requires forall x :: x in s.tasks ==> x in s'.tasks
    requires t in s'.tasks ==> SpawnerAt(s', t, s'.tasks[t])
    ensures SpawnsInv(s')
  {
    forall x | x in s'.tasks ensures SpawnerAt(s', x, s'.tasks[x]) {
      if x != t {
        assert SpawnerAt(s, x, s.tasks[x]);
      }
    }
    forall b | b in s'.agents ensures Answered(s', b, s'.agents[b]) {
      if b != a {
        assert Answered(s, b, s.agents[b]);
      }
    }
  }

  /** A spawn on its way has at most the task its position names. */
  lemma OnlyItsTask(s: State, a: AgentId, x: TaskId)
    requires SpawnsInv(s) && a in s.agents && x in s.tasks && s.tasks[x].life.spawner == a && !s.agents[a].SpawnErr?
    ensures (s.agents[a].SpawnRegister? || s.agents[a].SpawnRejectOr? || s.agents[a].SpawnOwes?
             || s.agents[a].SpawnEnqueue? || s.agents[a].SpawnOk?) && s.agents[a].task == x
  {
    assert SpawnerAt(s, x, s.tasks[x]);
  }

  /** The steps of a spawn that name a task. */
  lemma TaskStepKeepsSpawns(s: State, a: AgentId)
    requires Inv(s) && SpawnsInv(s) && Enabled(s, AgentStep(a))
    requires
      || s.agents[a].SpawnRegister? || s.agents[a].SpawnRejectOr?
      || s.agents[a].SpawnOwes? || s.agents[a].SpawnEnqueue?
    ensures SpawnsInv(Apply(s, AgentStep(a)))
  {
    var s', t := Apply(s, AgentStep(a)), s.agents[a].task;
    assert AgentInv(s, a, s.agents[a]) && Answered(s, a, s.agents[a]);
    assert SpawnerAt(s, t, s.tasks[t]) && TaskInv(s.tasks[t]);
    forall x | x in s.tasks && x != t ensures s.tasks[x].life.spawner != a {
      if s.tasks[x].life.spawner == a {
        OnlyItsTask(s, a, x);
      }
    }
    SpawnKeepsSpawns(s, s', a, t);
  }

  lemma PushFailsKeepsSpawns(s: State, a: AgentId)
    requires Inv(s) && SpawnsInv(s) && Enabled(s, PushFails(a))
    ensures SpawnsInv(Apply(s, PushFails(a)))
  {
    var t := s.agents[a].task;
    assert AgentInv(s, a, s.agents[a]);
    forall x | x in s.tasks && x != t ensures s.tasks[x].life.spawner != a {
      if s.tasks[x].life.spawner == a {
        OnlyItsTask(s, a, x);
      }
    }
    SpawnKeepsSpawns(s, Apply(s, PushFails(a)), a, t);
  }

  /** A spawn without a task moves on, with the new task `t` if it allocates one. */
  lemma TasklessKeepsSpawns(s: State, st: Step, a: AgentId, t: TaskId)
    requires SpawnsInv(s) && Enabled(s, st) && a in s.agents && (s.agents[a].SpawnCheck? || s.agents[a].SpawnAlloc?)
    requires st == AgentStep(a) || st == AllocFails(a) || st == AllocTask(a, t)
    requires t !in s.tasks
    ensures SpawnsInv(Apply(s, st))
  {
    forall x | x in s.tasks ensures s.tasks[x].life.spawner != a {
      if s.tasks[x].life.spawner == a {
        OnlyItsTask(s, a, x);
      }
    }
    SpawnKeepsSpawns(s, Apply(s, st), a, t);
  }

  lemma StepKeepsSpawns(s: State, st: Step)
    requires Inv(s) && SpawnsInv(s) && Enabled(s, st)
    ensures SpawnsInv(Apply(s, st))
  {
    match st
    case AllocTask(a, t) => TasklessKeepsSpawns(s, st, a, t);
    case AllocFails(a) =>
      var t := Above(s.tasks.Keys);
      TasklessKeepsSpawns(s, st, a, t);
    case PushFails(a) => PushFailsKeepsSpawns(s, a);
    case AgentStep(a) =>
      if s.agents[a].SpawnCheck? {
        var t := Above(s.tasks.Keys);
        TasklessKeepsSpawns(s, st, a, t);
      } else if NotYetRegistered(s.agents[a]) || s.agents[a].SpawnEnqueue? {
        TaskStepKeepsSpawns(s, a);
      } else {
        OtherAgentMoves(s, a);
        OthersKeepSpawns(s, Apply(s, st));
      }
    case _ =>
      WorkerMoves(s, st);
      OthersKeepSpawns(s, Apply(s, st));
  }

  /** Task `t` keeps its life and stays revoked, and no agent moves but `a`, which is not a spawn. */
  lemma OneTaskMoves(s: State, s': State, t: TaskId, a: AgentId)
    requires t in s.tasks && t in s'.tasks && s'.tasks == s.tasks[t := s'.tasks[t]] && s'.stopped == s.stopped
    requires s'.tasks[t].life == s.tasks[t].life && (IsRevoked(s.tasks[t].word) ==> IsRevoked(s'.tasks[t].word))
    requires s'.agents == s.agents
             || (a in s.agents && a in s'.agents && s'.agents == s.agents[a := s'.agents[a]]
                 && !Spawning(s.agents[a]) && !Spawning(s'.agents[a]))
    ensures NoSpawnMoves(s, s')
  {
  }

  /** No task changes, and no agent moves but `a`, which is not a spawn or begins as one. */
  lemma NoTaskMoves(s: State, s': State, a: AgentId)
    requires s'.tasks == s.tasks && (s.stopped ==> s'.stopped)
    requires a in s'.agents && s'.agents == s.agents[a := s'.agents[a]]
    requires a in s.agents ==> !Spawning(s.agents[a])
    requires s'.agents[a].SpawnCheck? || !Spawning(s'.agents[a])
    ensures NoSpawnMoves(s, s')
  {
  }

  lemma OtherAgentMoves(s: State, a: AgentId)
    requires Enabled(s, AgentStep(a)) && !Spawning(s.agents[a])
    ensures NoSpawnMoves(s, Apply(s, AgentStep(a)))
  {
    var s' := Apply(s, AgentStep(a));
    match s.agents[a]
    case StopLock => NoTaskMoves(s, s', a);
    case Stopping(todo, Waiting) => NoTaskMoves(s, s', a);
    case Stopping(todo, _) => OneTaskMoves(s, s', todo[0], a);
    case HandleOr(t) => OneTaskMoves(s, s', t, a);
    case HandleOwes(t) => OneTaskMoves(s, s', t, a);
  }

  lemma WorkerMoves(s: State, st: Step)
    requires Inv(s) && Enabled(s, st)
    requires !st.AgentStep? && !st.AllocTask? && !st.AllocFails? && !st.PushFails?
    ensures NoSpawnMoves(s, Apply(s, st))
  {
    var s' := Apply(s, st);
    if st.BeginSpawn? || st.BeginStop? || st.BeginRevoke? {
      NoTaskMoves(s, s', st.a);
    } else {
      assert TaskInv(s.tasks[st.t]);
      if st.WorkerStep? {
        RunStepFrame(s.tasks[st.t], 0);
      }
      OneTaskMoves(s, s', st.t, 0);
    }
  }

  lemma {:induction false} RunKeepsSpawns(steps: seq<Step>)
    requires Exec(Init, steps).Some?
    ensures SpawnsInv(Exec(Init, steps).value)
  {
    InitInv();
    if steps != [] {
      var n := |steps| - 1;
      RunKeepsSpawns(steps[..n]);
      RunKeepsInv(Init, steps[..n]);
      StepKeepsSpawns(Exec(Init, steps[..n]).value, steps[n]);
    }
  }

  /** Over every run: a spawn that returned a handle has registered the task; one that returned an error has
      left no task registered or about to be, and the future of any task it allocated has been dropped
      exactly once; and it returned EBUSY only if the executor was stopped. */
  lemma SpawnAnswers(steps: seq<Step>, a: AgentId, t: TaskId)
    requires Exec(Init, steps).Some? && a in Exec(Init, steps).value.agents
    ensures
      var s := Exec(Init, steps).value;
      && (s.agents[a] == SpawnOk(t) ==> t in s.tasks && s.tasks[t].life == Registered(a))
      && (s.agents[a].SpawnErr? && t in s.tasks && s.tasks[t].life.spawner == a ==>
            && (s.tasks[t].life.Rejected? || s.tasks[t].life.Abandoned?) && s.tasks[t].drops == 1
            && (s.agents[a].error == EBUSY <==> s.tasks[t].life.Rejected?))
      && (s.agents[a] == SpawnErr(EBUSY) ==> s.stopped)
  {
    var s := Exec(Init, steps).value;
    InitInv();
    RunKeepsInv(Init, steps);
    RunKeepsSpawns(steps);
    assert Answered(s, a, s.agents[a]);
    if t in s.tasks {
      assert SpawnerAt(s, t, s.tasks[t]);
      if s.agents[a].SpawnErr? && s.tasks[t].life.spawner == a {
        RefusedIsDropped(s, t);
      }
    }
  }

  lemma RefusedIsDropped(s: State, t: TaskId)
    requires Inv(s) && t in s.tasks && SpawnerAt(s, t, s.tasks[t]) && s.agents[s.tasks[t].life.spawner].SpawnErr?
    ensures s.tasks[t].drops == 1
  {
    var k := s.tasks[t];
    assert TaskInv(k);
    assert k.debt.ByAgent? ==> AgentInv(s, k.debt.agent, s.agents[k.debt.agent]);
  }

  /** Once the executor is stopped, a spawn that has not passed its second check never returns a handle. */
  lemma {:induction false} LateSpawnIsRefused(s: State, more: seq<Step>, a: AgentId)
    requires s.stopped && a in s.agents && NotYetRegistered(s.agents[a]) && Exec(s, more).Some?
    ensures
      var u := Exec(s, more).value;
      u.stopped && a in u.agents && NotYetRegistered(u.agents[a])
  {
    if more != [] {
      var n := |more| - 1;
      LateSpawnIsRefused(s, more[..n], a);
      StillRefused(Exec(s, more[..n]).value, more[n], a);
    }
  }

  lemma StillRefused(s: State, st: Step, a: AgentId)
    requires s.stopped && a in s.agents && NotYetRegistered(s.agents[a]) && Enabled(s, st)
    ensures Apply(s, st).stopped && a in Apply(s, st).agents && NotYetRegistered(Apply(s, st).agents[a])
  {
  }

  // ---- Polls after a stop ------------------------------------------------

  /** A spawn has registered the task and is about to enqueue it. */
  ghost predicate AboutToEnqueue(s: State, t: TaskId) {
    exists a :: a in s.agents && s.agents[a] == SpawnEnqueue(t)
  }

  /** A run that will revoke its task before it ends. */
  predicate Ending(run: Run) {
    run == Polled(true) || run == RunRevoke
  }

  /** The task is being polled, or it is registered, not revoked nor about to be by its own run, and
      something has queued it or will. */
  predicate OpenTask(k: Task, enqueuing: bool) {
    || k.run.Polling?
    || (k.life.Registered? && !IsRevoked(k.word) && !Ending(k.run)
        && (k.pending || k.waker || k.run.RunLoad? || k.run.RunCas? || enqueuing))
  }

  ghost predicate Open(s: State, t: TaskId) {
    t in s.tasks && OpenTask(s.tasks[t], AboutToEnqueue(s, t))
  }

  ghost predicate Polls(s: State, more: seq<Step>, t: TaskId) {
    Exec(s, more).Some? && t in Exec(s, more).value.tasks && Exec(s, more).value.tasks[t].run.Polling?
  }

  lemma NothingNewToEnqueue(s: State, st: Step, t: TaskId)
    requires s.stopped && Enabled(s, st) && AboutToEnqueue(Apply(s, st), t)
    ensures AboutToEnqueue(s, t)
  {
    var a :| a in Apply(s, st).agents && Apply(s, st).agents[a] == SpawnEnqueue(t);
    assert a in s.agents && s.agents[a] == SpawnEnqueue(t);
  }

  /** What agents can do to a task of a stopped executor opens nothing. */
  predicate NoMoreOpen(k: Task, k': Task, enqueuing: bool) {
    && k'.run == k.run && k'.waker == k.waker && (k'.life.Registered? ==> k.life.Registered?)
    && (IsRevoked(k.word) ==> IsRevoked(k'.word)) && (k'.pending ==> k.pending || enqueuing)
  }

  lemma AgentOpensNothing(s: State, a: AgentId, t: TaskId)
    requires s.stopped && Enabled(s, AgentStep(a)) && t in Apply(s, AgentStep(a)).tasks
    ensures t in s.tasks && NoMoreOpen(s.tasks[t], Apply(s, AgentStep(a)).tasks[t], AboutToEnqueue(s, t))
  {
    if s.agents[a] == SpawnEnqueue(t) {
      assert AboutToEnqueue(s, t);
    }
  }

  /** A task that is not open is not opened by a step of its own run. */
  lemma RunOpensNothing(k: Task, enqueuing: bool)
    requires TaskInv(k) && !k.run.Idle? && !k.run.Polling? && !OpenTask(k, enqueuing)
    ensures !OpenTask(RunStep(k), enqueuing)
  {
  }

  /** Once the executor is stopped, a task that is not open does not become so. */
  lemma ShutStays(s: State, st: Step, t: TaskId)
    requires Inv(s) && s.stopped && !Open(s, t) && Enabled(s, st)
    ensures Apply(s, st).stopped && !Open(Apply(s, st), t)
  {
    var s' := Apply(s, st);
    if t in s'.tasks {
      var enqueuing, enqueuing' := AboutToEnqueue(s, t), AboutToEnqueue(s', t);
      if enqueuing' {
        NothingNewToEnqueue(s, st, t);
      }
      if t in s.tasks {
        assert TaskInv(s.tasks[t]);
      }
      if st.AgentStep? {
        AgentOpensNothing(s, st.a, t);
      } else if st == WorkerStep(t) {
        RunOpensNothing(s.tasks[t], enqueuing);
      }
    }
  }

  lemma {:induction false} ShutForGood(s: State, more: seq<Step>, t: TaskId)
    requires Inv(s) && s.stopped && !Open(s, t) && Exec(s, more).Some?
    ensures var u := Exec(s, more).value; Inv(u) && u.stopped && !Open(u, t)
  {
    if more != [] {
      var n := |more| - 1;
      ShutForGood(s, more[..n], t);
      StepKeepsInv(Exec(s, more[..n]).value, more[n]);
      ShutStays(Exec(s, more[..n]).value, more[n], t);
    }
  }

  /** How far an open task is from its next poll. */
  function Distance(k: Task): nat {
    match k.run
    case Polling => 0
    case RunCas(val) => if val == k.word then 1 else 3
    case RunLoad => 2
    case Idle => if k.pending then 4 else 5
    case RunExit => 6
    case _ => 7
  }

  lemma RunComesCloser(k: Task, enqueuing: bool)
    requires TaskInv(k) && OpenTask(k, enqueuing) && !k.run.Idle? && !k.run.Polling?
    ensures OpenTask(RunStep(k), enqueuing) && Distance(RunStep(k)) < Distance(k)
  {
  }

  /** A step that brings an open task closer to its next poll. */
  lemma Closer(s: State, t: TaskId) returns (st: Step)
    requires Inv(s) && Open(s, t) && !s.tasks[t].run.Polling?
    ensures Enabled(s, st) && Open(Apply(s, st), t) && Distance(Apply(s, st).tasks[t]) < Distance(s.tasks[t])
  {
    var k := s.tasks[t];
    assert TaskInv(k);
    if !k.run.Idle? {
      st := WorkerStep(t);
      RunComesCloser(k, AboutToEnqueue(s, t));
      assert AboutToEnqueue(Apply(s, st), t) == AboutToEnqueue(s, t);
    } else if k.pending {
      st := WorkerStart(t);
    } else if k.waker {
      st := Wake(t);
    } else {
      var a :| a in s.agents && s.agents[a] == SpawnEnqueue(t);
      st := AgentStep(a);
    }
  }

  lemma {:induction false} PollFrom(s: State, steps: seq<Step>, t: TaskId) returns (longer: seq<Step>)
    requires Exec(s, steps).Some? && Inv(Exec(s, steps).value) && Open(Exec(s, steps).value, t)
    ensures Polls(s, longer, t)
    decreases Distance(Exec(s, steps).value.tasks[t])
  {
    var u := Exec(s, steps).value;
    if u.tasks[t].run.Polling? {
      longer := steps;
    } else {
      var st := Closer(u, t);
      StepKeepsInv(u, st);
      longer := steps + [st];
      assert longer[..|steps|] == steps;
      longer := PollFrom(s, longer, t);
    }
  }

  /** In every reachable state after the lock section of a stop, also one that was not the first and has
      returned: a task is polled in some continuation if and only if it is open. */
  lemma PolledLaterIffOpen(steps: seq<Step>, t: TaskId)
    requires Exec(Init, steps).Some? && Exec(Init, steps).value.stopped
    ensures
      var s := Exec(Init, steps).value;
      (exists more :: Polls(s, more, t)) <==> Open(s, t)
  {
    InitInv();
    RunKeepsInv(Init, steps);
    var s := Exec(Init, steps).value;
    if Open(s, t) {
      var more := PollFrom(s, [], t);
    } else {
      forall more ensures !Polls(s, more, t) {
        if Exec(s, more).Some? {
          ShutForGood(s, more, t);
        }
      }
    }
  }
}
