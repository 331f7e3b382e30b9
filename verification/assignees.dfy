/** Live tasks whose assignee has left the registry altogether. */
module Assignees {
  import opened AgentStore
  import opened Collections
  import opened Convergence
  import opened Gaps
  import opened Nexus
  import opened Reaper
  import opened TaskStore
  import opened TaskTypes
  import opened Uuids

  predicate IsRegistered(s: State, agent: Option<AgentId>) {
    agent.Some? ==> agent.value in s.agents.agents
  }

  ghost predicate AssigneesRegistered(s: State) {
    forall id :: id in s.tasks.tasks && s.tasks.tasks[id].Live() ==> IsRegistered(s, s.tasks.tasks[id].assignee)
  }

  /** An agent is deregistered with tasks in flight, or a task is created for an agent that was
      deregistered after it was checked or chosen. */
  predicate Strands(s: State, op: Op) {
    || (op.DoDeregister? && op.id in s.agents.agents && InFlight(s.tasks, op.id) != {})
    || (op.DoCreate? && op.ticket in s.pending && !IsRegistered(s, s.pending[op.ticket].assignee))
  }

  /** Only deregistering takes an agent out of the registry. */
  lemma RegistrySteps(boot: Agents, s: State, op: Op, agent: AgentId)
    requires Enabled(boot, s, op) && agent in s.agents.agents
    ensures agent in Next(boot, s, op).agents.agents <==> !(op.DoDeregister? && op.id == agent)
  {
    if op.FlipStale? {
      FlipAllEffect(s.agents, s.sweep.stale);
    }
  }

  lemma DeregisterStrands(boot: Agents, s: State, op: Op)
    requires Enabled(boot, s, op) && AssigneesRegistered(s) && op.DoDeregister?
    ensures AssigneesRegistered(Next(boot, s, op)) <==> !Strands(s, op)
  {
    var t, agent := Next(boot, s, op), op.id;
    if id :| id in InFlight(s.tasks, agent) && agent in s.agents.agents {
      assert id in t.tasks.tasks && t.tasks.tasks[id].Live() && !IsRegistered(t, t.tasks.tasks[id].assignee);
    } else {
      forall id | id in t.tasks.tasks && t.tasks.tasks[id].Live()
        ensures IsRegistered(t, t.tasks.tasks[id].assignee)
      {
        assert id in s.tasks.tasks && IsRegistered(s, s.tasks.tasks[id].assignee);
        assert !(id in InFlight(s.tasks, agent) && agent in s.agents.agents);
      }
    }
  }

  lemma CreateStrands(boot: Agents, s: State, op: Op)
    requires Enabled(boot, s, op) && AssigneesRegistered(s) && op.DoCreate?
    ensures AssigneesRegistered(Next(boot, s, op)) <==> !Strands(s, op)
  {
    var t := Next(boot, s, op);
    assert t.tasks.tasks[op.taskId].Live() && t.tasks.tasks[op.taskId].assignee == s.pending[op.ticket].assignee;
  }

  /** "Every live task's assignee is registered" is kept by every step except exactly those. */
  lemma StrandedExactly(boot: State, s: State, op: Op)
    requires Invariant(boot, s) && Enabled(boot.agents, s, op) && AssigneesRegistered(s)
    ensures AssigneesRegistered(Next(boot.agents, s, op)) <==> !Strands(s, op)
  {
    if op.DoDeregister? {
      DeregisterStrands(boot.agents, s, op);
    } else if op.DoCreate? {
      CreateStrands(boot.agents, s, op);
    } else {
      var t := Next(boot.agents, s, op);
      forall id | id in t.tasks.tasks && t.tasks.tasks[id].Live()
        ensures IsRegistered(t, t.tasks.tasks[id].assignee)
      {
        LiveBefore(boot, s, op, id);
        var assignee := s.tasks.tasks[id].assignee;
        if assignee.Some? {
          RegistrySteps(boot.agents, s, op, assignee.value);
        }
      }
    }
  }

  /** Over runs: all assignees are registered up to state `n` exactly when they are at first and
      no step before `n` strands a task. */
  lemma {:induction false} RegisteredInRuns(states: seq<State>, ops: seq<Op>, n: nat)
    requires Run(states, ops) && n < |states|
    ensures (forall i :: 0 <= i <= n ==> AssigneesRegistered(states[i])) <==>
      AssigneesRegistered(states[0]) && forall k :: 0 <= k < n ==> !Strands(states[k], ops[k])
  {
    hide Enabled, Next, Boot, Invariant, AssigneesRegistered, Strands;
    if n > 0 {
      RegisteredInRuns(states, ops, n - 1);
      RunInvariant(states, ops, n - 1);
      if AssigneesRegistered(states[n - 1]) {
        StrandedExactly(states[0], states[n - 1], ops[n - 1]);
        assert AssigneesRegistered(states[n]) <==> !Strands(states[n - 1], ops[n - 1]);
      }
      if AssigneesRegistered(states[0]) && forall k :: 0 <= k < n ==> !Strands(states[k], ops[k]) {
        forall i | 0 <= i <= n ensures AssigneesRegistered(states[i]) {
          assert i == n || i <= n - 1;
        }
      }
    }
  }

  lemma StrandingStep(s: State, t: Task)
    requires s.agents.agents == map[AgentId(ID) := WORKER] && s.tasks.tasks == map[t.id := t]
    requires t.Live() && t.assignee == Some(AgentId(ID))
    ensures var op := DoDeregister(AgentId(ID));
      && Enabled(s.agents, s, op) && AssigneesRegistered(s) && Strands(s, op)
      && Next(s.agents, s, op).tasks == s.tasks && Next(s.agents, s, op).sweep == s.sweep
      && Next(s.agents, s, op).agents.agents == map[]
  {
    assert t.id in InFlight(s.tasks, AgentId(ID));
  }

  /** A daemon that boots with one agent and a live task of that agent. */
  ghost predicate WorkerHasTask(s: State, t: Task) {
    && Run([s], []) && s.sweep.Idle?
    && s.agents.agents == map[AgentId(ID) := WORKER] && s.tasks.tasks == map[t.id := t]
    && t.Live() && t.assignee == Some(AgentId(ID)) && t.deadline.None?
  }

  lemma WorkerEnrolled()
    ensures NamesAgree(Enrolled(NO_AGENTS, WORKER))
    ensures Enrolled(NO_AGENTS, WORKER).agents == map[AgentId(ID) := WORKER]
  {
    assert ValidName("worker");
    EnrolledKeepsNames(NO_AGENTS, WORKER);
  }

  lemma WorkerWithTask()
    ensures exists s, t :: WorkerHasTask(s, t)
  {
    var t := NewTask(TaskId(ID), ContextId(ID), MESSAGE, Some(AgentId(ID)), None, None, None, 0);
    WorkerEnrolled();
    IndexedKeepsIndex(EMPTY_STORE, t);
    var tasks, agents := Indexed(EMPTY_STORE, t), Enrolled(NO_AGENTS, WORKER);
    assert tasks.tasks == map[t.id := t];
    hide Indexed, Enrolled, IndexAgrees, NamesAgree, Enabled, Next;
    var s := State(agents, tasks, [], [], 0, Idle, map[]);
    BootRuns(s);
    hide Boot, Run;
    assert WorkerHasTask(s, t);
  }

  /** Deregistering an agent with a task in flight strands the task. */
  lemma DeregisteringCanStrand() returns (states: seq<State>, ops: seq<Op>, id: TaskId)
    ensures Run(states, ops) && |ops| == 1 && ops[0].DoDeregister?
    ensures AssigneesRegistered(states[0]) && !AssigneesRegistered(states[1])
    ensures OutOfReach(states[1], id)
  {
    hide Enabled, Next, Boot, Strands;
    WorkerWithTask();
    var s, t :| WorkerHasTask(s, t);
    id := t.id;
    StrandingStep(s, t);
    RunOn([s], [], DoDeregister(AgentId(ID)));
    states, ops := Onward([s], DoDeregister(AgentId(ID))), [DoDeregister(AgentId(ID))];
    assert !IsRegistered(states[1], states[1].tasks.tasks[id].assignee);
  }

  /** A live task that no watchdog step can find: its assignee is gone, it has no deadline, and
      the sweep under way, if there is one, has neither of them on its list. */
  ghost predicate OutOfReach(s: State, id: TaskId) {
    && id in s.tasks.tasks && s.tasks.tasks[id].Live() && s.tasks.tasks[id].deadline.None?
    && s.tasks.tasks[id].assignee.Some? && s.tasks.tasks[id].assignee.value !in s.agents.agents
    && (s.sweep.Collected? ==> s.tasks.tasks[id].assignee.value !in s.sweep.stale)
    && (s.sweep.Failing? ==> s.tasks.tasks[id].assignee.value !in s.sweep.remaining)
    && (s.sweep.Expired? ==> !IsTarget(id, s.sweep.expired))
  }

  predicate IsWatchdogStep(op: Op) {
    op.BeginSweep? || op.CollectStale? || op.FlipStale? || op.FailAgent? || op.ScanDeadlines? || op.FailExpired?
  }

  /** No step of any sweep halts such a task, or brings it within reach. */
  lemma SweepsPassBy(boot: Agents, s: State, op: Op, id: TaskId)
    requires Enabled(boot, s, op) && IsWatchdogStep(op) && OutOfReach(s, id)
    ensures OutOfReach(Next(boot, s, op), id)
    ensures Next(boot, s, op).tasks.tasks[id] == s.tasks.tasks[id]
  {
    match op {
      case CollectStale(order) =>
        Listed(order, StaleAgents(s.agents, s.sweep.cutoff));
      case FlipStale =>
        FlipAllEffect(s.agents, s.sweep.stale);
      case FailAgent(tasks, mints) =>
        Listed(tasks, InFlight(s.tasks, s.sweep.remaining[0]));
        var targets := Remember(s.tasks, tasks);
        assert forall i :: 0 <= i < |targets| ==> targets[i].0 in tasks;
        ReapUntouched(s.tasks, targets, DisconnectReason(s.sweep.remaining[0]), mints, id);
      case ScanDeadlines(tasks) =>
        Listed(tasks, OverdueTasks(s.tasks, s.sweep.now));
        assert forall i :: 0 <= i < |tasks| ==> tasks[i] in tasks;
      case FailExpired(mints) =>
        ReapUntouched(s.tasks, s.sweep.expired, DEADLINE_REASON, mints, id);
      case _ =>
    }
  }

  /** What may bring such a task back: a client's update, or its agent. */
  predicate Revives(op: Op, id: TaskId, assignee: Option<AgentId>) {
    (op.DoUpdate? && op.taskId == id) || (op.DoRegister? && Some(op.id) == assignee)
  }

  lemma OthersPassBy(boot: Agents, s: State, op: Op, id: TaskId)
    requires Enabled(boot, s, op) && !IsWatchdogStep(op) && OutOfReach(s, id)
    requires !Revives(op, id, s.tasks.tasks[id].assignee)
    ensures var t := Next(boot, s, op);
      && OutOfReach(t, id)
      && t.tasks.tasks[id].status == s.tasks.tasks[id].status
      && t.tasks.tasks[id].assignee == s.tasks.tasks[id].assignee
  {
  }

  /** In every run a task out of reach stays so, and in its state, for as long as no client
      updates it and no agent is registered under its assignee's id. */
  lemma {:induction false} StaysOutOfReach(states: seq<State>, ops: seq<Op>, i: nat, k: nat, id: TaskId)
    requires Run(states, ops) && i <= k < |states| && OutOfReach(states[i], id)
    requires forall m :: i <= m < k ==> !Revives(ops[m], id, states[i].tasks.tasks[id].assignee)
    ensures OutOfReach(states[k], id)
    ensures states[k].tasks.tasks[id].status == states[i].tasks.tasks[id].status
    ensures states[k].tasks.tasks[id].assignee == states[i].tasks.tasks[id].assignee
    decreases k
  {
    hide Enabled, Next, Boot, OutOfReach, Revives, IsWatchdogStep;
    InStore(states[i], id);
    if i < k {
      StaysOutOfReach(states, ops, i, k - 1, id);
      if IsWatchdogStep(ops[k - 1]) {
        SweepsPassBy(states[0].agents, states[k - 1], ops[k - 1], id);
      } else {
        OthersPassBy(states[0].agents, states[k - 1], ops[k - 1], id);
      }
      InStore(states[k], id);
    }
  }

  lemma InStore(s: State, id: TaskId)
    ensures OutOfReach(s, id) ==> id in s.tasks.tasks && s.tasks.tasks[id].assignee.Some?
  {
  }

  /** Once its agent has been in the registry, only a client's update can change the state of a
      stranded task: ids are never registered twice. */
  lemma StrandedForGood(states: seq<State>, ops: seq<Op>, c: nat, i: nat, k: nat, id: TaskId)
    requires Run(states, ops) && c <= i <= k < |states| && OutOfReach(states[i], id)
    requires states[i].tasks.tasks[id].assignee.value in states[c].agents.agents
    requires forall m :: i <= m < k ==> !(ops[m].DoUpdate? && ops[m].taskId == id)
    ensures id in states[k].tasks.tasks
    ensures states[k].tasks.tasks[id].status == states[i].tasks.tasks[id].status
  {
    hide Enabled, Next, Boot, OutOfReach;
    InStore(states[i], id);
    forall m | i <= m < k
      ensures !Revives(ops[m], id, states[i].tasks.tasks[id].assignee)
    {
      Gone(states, ops, c, m, states[i].tasks.tasks[id].assignee.value);
    }
    StaysOutOfReach(states, ops, i, k, id);
    InStore(states[k], id);
  }
}
