/** What the watchdog achieves when anything may happen between its steps. */
module Convergence {
  import opened AgentStore
  import opened Collections
  import opened Nexus
  import opened Reaper
  import opened TaskStore
  import opened TaskTypes
  import opened Uuids

  /** A sweep that begins with operation `b` and is over in state `e`, for the first time. */
  ghost predicate SweepSpan(states: seq<State>, ops: seq<Op>, b: nat, e: nat) {
    && |states| == |ops| + 1
    && b < e < |states|
    && ops[b].BeginSweep?
    && states[e].sweep.Idle?
    && forall k :: b < k < e ==> !states[k].sweep.Idle?
  }

  function StateOf(s: State, id: TaskId): TaskState
    requires id in s.tasks.tasks
  {
    s.tasks.tasks[id].status.state
  }

  // ---- exactly which overdue tasks a sweep misses ---------------------------------------------

  /** What the watchdog remembers from the deadline scan: each task once, tasks that exist and
      whose deadline is past, and of a task that had left Submitted, that it has not come back. */
  ghost predicate MemorySound(s: State) {
    s.sweep.Expired? ==>
      && DistinctTargets(s.sweep.expired)
      && forall i :: 0 <= i < |s.sweep.expired| ==>
           && s.sweep.expired[i].0 in s.tasks.tasks
           && (StateOf(s, s.sweep.expired[i].0).Submitted? ==> s.sweep.expired[i].1.Submitted?)
           && s.tasks.tasks[s.sweep.expired[i].0].deadline.Some?
           && s.tasks.tasks[s.sweep.expired[i].0].deadline.value < s.sweep.now
  }

  lemma ScanIsSound(boot: Agents, s: State, op: Op)
    requires Enabled(boot, s, op) && op.ScanDeadlines?
    ensures MemorySound(Next(boot, s, op))
  {
    Listed(op.tasks, OverdueTasks(s.tasks, s.sweep.now));
    assert forall i :: 0 <= i < |op.tasks| ==> op.tasks[i] in op.tasks;
  }

  lemma OtherStepSound(s: State, t: State)
    requires MemorySound(s) && StoreEvolves(s.tasks, t.tasks)
    requires t.sweep == s.sweep || !t.sweep.Expired?
    ensures MemorySound(t)
  {
    hide DistinctTargets;
    if t.sweep.Expired? {
      forall i | 0 <= i < |t.sweep.expired|
        ensures t.sweep.expired[i].0 in t.tasks.tasks
        ensures StateOf(t, t.sweep.expired[i].0).Submitted? ==> t.sweep.expired[i].1.Submitted?
        ensures t.tasks.tasks[t.sweep.expired[i].0].deadline == s.tasks.tasks[t.sweep.expired[i].0].deadline
      {
        assert Evolves(s.tasks.tasks[t.sweep.expired[i].0], t.tasks.tasks[t.sweep.expired[i].0]);
      }
    }
  }

  lemma SweepUnlessScanned(boot: Agents, s: State, op: Op)
    ensures Enabled(boot, s, op) && !op.ScanDeadlines? ==>
      Next(boot, s, op).sweep == s.sweep || !Next(boot, s, op).sweep.Expired?
  {
  }

  lemma BootMemory(s: State)
    ensures Boot(s) ==> MemorySound(s)
  {
  }

  /** In every state of every run the watchdog's memory is sound. */
  lemma {:induction false} MemoryInRuns(states: seq<State>, ops: seq<Op>, i: nat)
    requires Run(states, ops) && i < |states|
    ensures MemorySound(states[i])
  {
    hide Enabled, Next, Boot, Invariant, MemorySound, StoreEvolves;
    if i == 0 {
      BootMemory(states[0]);
    } else {
      MemoryInRuns(states, ops, i - 1);
      RunInvariant(states, ops, i - 1);
      StepInvariant(states[0], states[i - 1], ops[i - 1]);
      if ops[i - 1].ScanDeadlines? {
        ScanIsSound(states[0].agents, states[i - 1], ops[i - 1]);
      } else {
        SweepUnlessScanned(states[0].agents, states[i - 1], ops[i - 1]);
        OtherStepSound(states[i - 1], states[i]);
      }
    }
  }

  /** Halting by a remembered state leaves a task live exactly when that state is an outdated Submitted. */
  lemma ReapedLives(t: Task, remembered: TaskState, text: string, mint: Mint)
    requires !remembered.Submitted? ==> !t.status.state.Submitted?
    ensures Reaped(t, remembered, text, mint).Live() <==>
      remembered.Submitted? && t.Live() && !t.status.state.Submitted?
  {
  }

  lemma FailedBatch(boot: Agents, s: State, op: Op)
    requires Enabled(boot, s, op) && op.FailExpired?
    ensures s.sweep.Expired? && |op.mints| == |s.sweep.expired|
    ensures Next(boot, s, op).tasks == Reap(s.tasks, s.sweep.expired, DEADLINE_REASON, op.mints).store
    ensures Next(boot, s, op).sweep == Idle
  {
  }

  /** The final step leaves a remembered task live exactly when it was remembered as Submitted
      and has been picked up since. */
  lemma FinalStepMisses(boot: Agents, s: State, op: Op, i: nat)
    requires MemorySound(s) && Enabled(boot, s, op) && op.FailExpired? && i < |s.sweep.expired|
    ensures var (id, remembered) := s.sweep.expired[i];
      && id in s.tasks.tasks && id in Next(boot, s, op).tasks.tasks
      && (Next(boot, s, op).tasks.tasks[id].Live() <==>
            remembered.Submitted? && s.tasks.tasks[id].Live() && !StateOf(s, id).Submitted?)
  {
    FailedBatch(boot, s, op);
    hide Enabled, Next;
    ReapAt(s.tasks, s.sweep.expired, DEADLINE_REASON, op.mints, i);
    ReapedLives(s.tasks.tasks[s.sweep.expired[i].0], s.sweep.expired[i].1, DEADLINE_REASON, op.mints[i]);
  }

  /** A sweep's phases come in order, up to and including its deadline scan. */
  ghost predicate BeforeScan(w: Sweep) {
    !w.Idle? && !w.Expired?
  }

  lemma PhaseStep(boot: Agents, s: State, op: Op)
    requires Enabled(boot, s, op)
    ensures var t := Next(boot, s, op).sweep;
      && (op.BeginSweep? ==> BeforeScan(t) && t.now == op.now)
      && (op.ScanDeadlines? ==> BeforeScan(s.sweep))
      && (BeforeScan(s.sweep) && !op.ScanDeadlines? ==> BeforeScan(t) && t.now == s.sweep.now)
      && (s.sweep.Expired? && !t.Idle? ==> t == s.sweep)
      && (s.sweep.Expired? && t.Idle? ==> op.FailExpired?)
  {
  }

  /** Step `k` is the deadline scan, if there was one by state `j`. */
  ghost predicate ScanAt(states: seq<State>, ops: seq<Op>, b: nat, e: nat, j: nat, k: nat) {
    && SweepSpan(states, ops, b, e) && b < k <= j <= e
    && BeforeScan(states[k].sweep) && states[k].sweep.now == ops[b].now
    && (k < j ==> ops[k].ScanDeadlines?)
    && (k < j < e ==> states[j].sweep.Expired? && states[j].sweep == states[k + 1].sweep)
    && (k < j == e ==> e == k + 1 || (ops[e - 1].FailExpired? && states[e - 1].sweep == states[k + 1].sweep))
  }

  /** Every complete sweep has a deadline scan. Up to it the clock reading stands, and from it to
      the final step its list does. */
  lemma {:induction false} ScanOf(states: seq<State>, ops: seq<Op>, b: nat, e: nat, j: nat)
    requires Run(states, ops) && SweepSpan(states, ops, b, e) && b < j <= e
    ensures exists k :: ScanAt(states, ops, b, e, j, k)
    decreases j
  {
    hide Enabled, Next, Boot, BeforeScan;
    PhaseStep(states[0].agents, states[j - 1], ops[j - 1]);
    if j == b + 1 {
      assert ScanAt(states, ops, b, e, j, j);
    } else {
      ScanOf(states, ops, b, e, j - 1);
      var k: nat :| ScanAt(states, ops, b, e, j - 1, k);
      if k == j - 1 && !ops[k].ScanDeadlines? {
        assert ScanAt(states, ops, b, e, j, j);
      } else {
        if k == j - 1 && j < e {
          ScanOutcome(states[0].agents, states[k], ops[k]);
        } else if k < j - 1 {
          ExpiredIsPast(states[j - 1].sweep);
        }
        assert ScanAt(states, ops, b, e, j, k);
      }
    }
  }

  lemma ScanOutcome(boot: Agents, s: State, op: Op)
    ensures Enabled(boot, s, op) && op.ScanDeadlines? ==>
      var after := Next(boot, s, op).sweep;
      after.Idle? || (after.Expired? && after.now == s.sweep.now)
  {
  }

  lemma ExpiredIsPast(w: Sweep)
    ensures w.Expired? ==> !BeforeScan(w)
    ensures w.Idle? ==> !BeforeScan(w)
  {
  }

  /** What the scan remembers about a task that is overdue and live. */
  lemma ScanRemembersState(boot: Agents, s: State, op: Op, id: TaskId)
    requires Enabled(boot, s, op) && op.ScanDeadlines?
    requires id in s.tasks.tasks && Overdue(s.tasks.tasks[id], s.sweep.now)
    ensures var w := Next(boot, s, op).sweep;
      w.Expired? && (id, StateOf(s, id)) in w.expired
  {
    Listed(op.tasks, OverdueTasks(s.tasks, s.sweep.now));
    assert id in OverdueTasks(s.tasks, s.sweep.now);
    var i :| 0 <= i < |op.tasks| && op.tasks[i] == id;
    assert Next(boot, s, op).sweep.expired[i] == (id, StateOf(s, id));
  }

  lemma NeverBack(before: Task, after: Task)
    requires Evolves(before, after)
    ensures after.deadline == before.deadline && (!before.Live() ==> after == before)
    ensures !before.status.state.Submitted? ==> !after.status.state.Submitted?
  {
  }

  lemma RunStep(states: seq<State>, ops: seq<Op>, i: nat)
    requires Run(states, ops) && i < |ops|
    ensures |states| == |ops| + 1
    ensures Enabled(states[0].agents, states[i], ops[i]) && states[i + 1] == Next(states[0].agents, states[i], ops[i])
  {
  }

  /** Over a complete sweep in any run: a task that was overdue when the sweep began is still live
      when it is over exactly when the deadline scan, step `k`, saw it Submitted, and just before
      the sweep's last step it was live and Submitted no more. */
  lemma MissedExactlyWhenPickedUp(states: seq<State>, ops: seq<Op>, b: nat, e: nat, id: TaskId) returns (k: nat)
    requires Run(states, ops) && SweepSpan(states, ops, b, e) && id in states[b].tasks.tasks
    requires states[b].tasks.tasks[id].deadline.Some? && states[b].tasks.tasks[id].deadline.value < ops[b].now
    ensures b < k < e && ops[k].ScanDeadlines? && forall j :: b <= j <= e ==> id in states[j].tasks.tasks
    ensures states[e].tasks.tasks[id].Live() <==>
      && StateOf(states[k], id).Submitted?
      && states[e - 1].tasks.tasks[id].Live() && !StateOf(states[e - 1], id).Submitted?
  {
    hide Run, Enabled, Next, MemorySound, BeforeScan, Evolves;
    RunStep(states, ops, e - 1);
    forall j | b <= j <= e ensures id in states[j].tasks.tasks {
      RunEvolves(states, ops, b, j);
    }
    ScanOf(states, ops, b, e, e);
    k :| ScanAt(states, ops, b, e, e, k);
    ExpiredIsPast(states[e].sweep);
    RunEvolves(states, ops, b, k);
    RunEvolves(states, ops, k, e - 1);
    RunEvolves(states, ops, e - 1, e);
    NeverBack(states[b].tasks.tasks[id], states[k].tasks.tasks[id]);
    NeverBack(states[k].tasks.tasks[id], states[e - 1].tasks.tasks[id]);
    NeverBack(states[e - 1].tasks.tasks[id], states[e].tasks.tasks[id]);
    RunStep(states, ops, k);
    if states[k].tasks.tasks[id].Live() {
      ScanRemembersState(states[0].agents, states[k], ops[k], id);
      var expired := states[k + 1].sweep.expired;
      var i :| 0 <= i < |expired| && expired[i] == (id, StateOf(states[k], id));
      MemoryInRuns(states, ops, e - 1);
      FinalStepMisses(states[0].agents, states[e - 1], ops[e - 1], i);
    }
  }

  /** In any run: the last step of a sweep changes only tasks whose deadline was before the time at
      which the sweep began. */
  lemma ChangedWereOverdue(states: seq<State>, ops: seq<Op>, b: nat, e: nat, id: TaskId)
    requires Run(states, ops) && SweepSpan(states, ops, b, e) && ops[e - 1].FailExpired?
    requires id in states[e - 1].tasks.tasks
    ensures id in states[e].tasks.tasks
    ensures states[e].tasks.tasks[id] != states[e - 1].tasks.tasks[id] ==>
      var deadline := states[e - 1].tasks.tasks[id].deadline;
      deadline.Some? && deadline.value < ops[b].now
  {
    hide Run, Next, BeforeScan;
    RunEvolves(states, ops, e - 1, e);
    RunStep(states, ops, e - 1);
    FailedBatch(states[0].agents, states[e - 1], ops[e - 1]);
    MemoryInRuns(states, ops, e - 1);
    ScanOf(states, ops, b, e, e - 1);
    var k: nat :| ScanAt(states, ops, b, e, e - 1, k);
    ExpiredIsPast(states[e - 1].sweep);
    RunStep(states, ops, k);
    ScanOutcome(states[0].agents, states[k], ops[k]);
    hide Enabled, MemorySound;
    var s := states[e - 1];
    if !IsTarget(id, s.sweep.expired) {
      ReapUntouched(s.tasks, s.sweep.expired, DEADLINE_REASON, ops[e - 1].mints, id);
    } else {
      TargetIsOverdue(s, id);
    }
  }

  lemma TargetIsOverdue(s: State, id: TaskId)
    ensures MemorySound(s) && s.sweep.Expired? && IsTarget(id, s.sweep.expired) ==>
      id in s.tasks.tasks && s.tasks.tasks[id].deadline.Some? && s.tasks.tasks[id].deadline.value < s.sweep.now
  {
  }

  /** One complete sweep, whatever is interleaved: a task already overdue when it began is
      terminal afterwards, or at least has left Submitted. */
  lemma OneSweepMoves(states: seq<State>, ops: seq<Op>, b: nat, e: nat, id: TaskId)
    requires Run(states, ops) && SweepSpan(states, ops, b, e)
    requires id in states[b].tasks.tasks
    requires states[b].tasks.tasks[id].deadline.Some? && states[b].tasks.tasks[id].deadline.value < ops[b].now
    ensures id in states[e].tasks.tasks && !StateOf(states[e], id).Submitted?
    ensures !StateOf(states[b], id).Submitted? ==> StateOf(states[e], id).IsTerminal()
  {
    hide Enabled, Next, Boot;
    var k := MissedExactlyWhenPickedUp(states, ops, b, e, id);
    RunEvolves(states, ops, b, k);
    RunEvolves(states, ops, e - 1, e);
    assert Evolves(states[b].tasks.tasks[id], states[k].tasks.tasks[id]);
    assert Evolves(states[e - 1].tasks.tasks[id], states[e].tasks.tasks[id]);
  }

  /** Bounded convergence: a task overdue when a sweep begins is terminal once that sweep and
      the next one are complete, under every interleaving, and stays exactly as it then is. */
  lemma TwoSweepsSettle(states: seq<State>, ops: seq<Op>, b1: nat, e1: nat, b2: nat, e2: nat, k: nat, id: TaskId)
    requires Run(states, ops) && SweepSpan(states, ops, b1, e1) && SweepSpan(states, ops, b2, e2)
    requires e1 <= b2 && e2 <= k < |states|
    requires id in states[b1].tasks.tasks
    requires states[b1].tasks.tasks[id].deadline.Some? && states[b1].tasks.tasks[id].deadline.value < ops[b1].now
    ensures id in states[e2].tasks.tasks && StateOf(states[e2], id).IsTerminal()
    ensures id in states[k].tasks.tasks && states[k].tasks.tasks[id] == states[e2].tasks.tasks[id]
  {
    OneSweepMoves(states, ops, b1, e1, id);
    RunEvolves(states, ops, b1, e1);
    RunEvolves(states, ops, e1, b2);
    RunClock(states, ops, b1 + 1, b2);
    assert Evolves(states[e1].tasks.tasks[id], states[b2].tasks.tasks[id]);
    assert Evolves(states[b1].tasks.tasks[id], states[e1].tasks.tasks[id]);
    OneSweepMoves(states, ops, b2, e2, id);
    RunEvolves(states, ops, e2, k);
    assert Evolves(states[e2].tasks.tasks[id], states[k].tasks.tasks[id]);
  }

  // ---- tasks of disconnected agents ----------------------------------------------------------

  predicate IsDisconnected(s: State, agent: Option<AgentId>) {
    agent.Some? && agent.value in s.agents.agents && s.agents.agents[agent.value].status.Disconnected?
  }

  predicate ToBeFailed(s: State, agent: Option<AgentId>) {
    s.sweep.Failing? && agent.Some? && agent.value in s.sweep.remaining
  }

  /** No live task belongs to a disconnected agent, except to one the sweep is about to deal with. */
  ghost predicate NoOrphans(s: State) {
    forall id :: id in s.tasks.tasks && s.tasks.tasks[id].Live() && IsDisconnected(s, s.tasks.tasks[id].assignee) ==>
      ToBeFailed(s, s.tasks.tasks[id].assignee)
  }

  /** A task is created for an agent that was lost after it was checked or chosen. */
  ghost predicate FiledTooLate(s: State, op: Op) {
    && op.DoCreate? && op.ticket in s.pending
    && IsDisconnected(s, s.pending[op.ticket].assignee)
    && !ToBeFailed(s, s.pending[op.ticket].assignee)
  }

  /** Reaping everything an agent has in flight leaves it no live task. */
  lemma ReapInFlight(s: Store, agent: AgentId, tasks: seq<TaskId>, text: string, mints: seq<Mint>, id: TaskId)
    requires IsListing(tasks, InFlight(s, agent)) && |mints| == |tasks|
    requires id in s.tasks && s.tasks[id].assignee == Some(agent)
    ensures (forall i :: i in tasks ==> i in s.tasks)
    ensures var after := Reap(s, Remember(s, tasks), text, mints).store;
      id in after.tasks && !after.tasks[id].Live()
  {
    Listed(tasks, InFlight(s, agent));
    var targets := Remember(s, tasks);
    assert forall i :: 0 <= i < |targets| ==> targets[i].0 == tasks[i] && tasks[i] in tasks;
    if s.tasks[id].Live() {
      assert id in InFlight(s, agent);
      var i :| 0 <= i < |tasks| && tasks[i] == id;
      ReapAt(s, targets, text, mints, i);
    } else {
      ReapUntouched(s, targets, text, mints, id);
    }
  }

  lemma FailAgentLeavesNone(boot: State, s: State, op: Op, id: TaskId)
    requires Enabled(boot.agents, s, op) && op.FailAgent?
    requires id in s.tasks.tasks && s.tasks.tasks[id].assignee == Some(s.sweep.remaining[0])
    ensures id in Next(boot.agents, s, op).tasks.tasks && !Next(boot.agents, s, op).tasks.tasks[id].Live()
  {
    var agent := s.sweep.remaining[0];
    ReapInFlight(s.tasks, agent, op.tasks, DisconnectReason(agent), op.mints, id);
  }

  /** The tasks of one agent are failed under one lock: no update is refused, and one status
      event per task is published. */
  lemma FailAgentNeverErrs(boot: State, s: State, op: Op)
    requires Enabled(boot.agents, s, op) && op.FailAgent?
    ensures (forall id :: id in op.tasks ==> id in s.tasks.tasks)
    ensures var targets := Remember(s.tasks, op.tasks);
      && Reap(s.tasks, targets, DisconnectReason(s.sweep.remaining[0]), op.mints).errors == []
      && TaskEffect(boot.agents, s, op).1 == ReapEvents(targets)
  {
    var tasks := op.tasks;
    Listed(tasks, InFlight(s.tasks, s.sweep.remaining[0]));
    var targets := Remember(s.tasks, tasks);
    assert forall i :: 0 <= i < |targets| ==> targets[i].0 == tasks[i] && tasks[i] in tasks;
    ReapCurrent(s.tasks, targets, DisconnectReason(s.sweep.remaining[0]), op.mints);
  }

  /** The registry steps never disconnect an agent that is not about to be dealt with. */
  lemma DisconnectedBefore(boot: State, s: State, op: Op, agent: Option<AgentId>)
    requires Invariant(boot, s) && Enabled(boot.agents, s, op)
    requires var t := Next(boot.agents, s, op); IsDisconnected(t, agent) && !ToBeFailed(t, agent)
    ensures IsDisconnected(s, agent)
    ensures ToBeFailed(s, agent) ==> op.FailAgent? && agent == Some(s.sweep.remaining[0])
  {
    hide TaskEffect, Invariant;
    if op.FlipStale? {
      FlipAllEffect(s.agents, s.sweep.stale);
      hide FlipAll;
    }
  }

  /** A task that is live after a step other than its creation was there, and live, before. */
  lemma LiveBefore(boot: State, s: State, op: Op, id: TaskId)
    requires Invariant(boot, s) && Enabled(boot.agents, s, op)
    requires var t := Next(boot.agents, s, op); id in t.tasks.tasks && t.tasks.tasks[id].Live()
    requires !(op.DoCreate? && op.taskId == id)
    ensures id in s.tasks.tasks && s.tasks.tasks[id].Live()
    ensures s.tasks.tasks[id].assignee == Next(boot.agents, s, op).tasks.tasks[id].assignee
  {
    if op.FailAgent? {
      Listed(op.tasks, InFlight(s.tasks, s.sweep.remaining[0]));
      ReapFrame(s.tasks, Remember(s.tasks, op.tasks), DisconnectReason(s.sweep.remaining[0]), op.mints);
    } else if op.FailExpired? {
      ReapFrame(s.tasks, s.sweep.expired, DEADLINE_REASON, op.mints);
    }
    assert id in s.tasks.tasks;
    TaskEffectKeeps(boot.agents, s, op);
    assert Evolves(s.tasks.tasks[id], Next(boot.agents, s, op).tasks.tasks[id]);
  }

  lemma KeepsNoOrphans(boot: State, s: State, op: Op, id: TaskId)
    requires Invariant(boot, s) && Enabled(boot.agents, s, op) && NoOrphans(s)
    requires !FiledTooLate(s, op)
    requires var t := Next(boot.agents, s, op);
      id in t.tasks.tasks && t.tasks.tasks[id].Live() && IsDisconnected(t, t.tasks.tasks[id].assignee)
    ensures var t := Next(boot.agents, s, op); ToBeFailed(t, t.tasks.tasks[id].assignee)
  {
    var t := Next(boot.agents, s, op);
    var agent := t.tasks.tasks[id].assignee;
    if !(op.DoCreate? && op.taskId == id) {
      LiveBefore(boot, s, op, id);
    }
    if !ToBeFailed(t, agent) {
      DisconnectedBefore(boot, s, op, agent);
      if op.FailAgent? && agent == Some(s.sweep.remaining[0]) {
        FailAgentLeavesNone(boot, s, op, id);
      }
    }
  }

  /** "No live task belongs to a disconnected agent" is kept by every step except exactly one
      kind: creating a task whose assignee was lost between the two locks of a submission. */
  lemma OrphansExactlyWhenFiledTooLate(boot: State, s: State, op: Op)
    requires Invariant(boot, s) && Enabled(boot.agents, s, op) && NoOrphans(s)
    ensures NoOrphans(Next(boot.agents, s, op)) <==> !FiledTooLate(s, op)
  {
    var t := Next(boot.agents, s, op);
    if FiledTooLate(s, op) {
      assert t.tasks.tasks[op.taskId].Live() && t.sweep == s.sweep;
      assert IsDisconnected(t, t.tasks.tasks[op.taskId].assignee);
    } else {
      forall id | id in t.tasks.tasks && t.tasks.tasks[id].Live() && IsDisconnected(t, t.tasks.tasks[id].assignee)
        ensures ToBeFailed(t, t.tasks.tasks[id].assignee)
      {
        KeepsNoOrphans(boot, s, op, id);
      }
    }
  }

  /** Over runs: no state up to `n` has an orphan exactly when the first has none and no task is
      filed too late before `n`. */
  lemma {:induction false} NoOrphansInRuns(states: seq<State>, ops: seq<Op>, n: nat)
    requires Run(states, ops) && n < |states|
    ensures (forall i :: 0 <= i <= n ==> NoOrphans(states[i])) <==>
      NoOrphans(states[0]) && forall k :: 0 <= k < n ==> !FiledTooLate(states[k], ops[k])
  {
    hide Enabled, Next, Boot, Invariant, NoOrphans, FiledTooLate;
    if n > 0 {
      NoOrphansInRuns(states, ops, n - 1);
      RunInvariant(states, ops, n - 1);
      if NoOrphans(states[n - 1]) {
        OrphansExactlyWhenFiledTooLate(states[0], states[n - 1], ops[n - 1]);
        assert NoOrphans(states[n]) <==> !FiledTooLate(states[n - 1], ops[n - 1]);
      }
      if NoOrphans(states[0]) && forall k :: 0 <= k < n ==> !FiledTooLate(states[k], ops[k]) {
        forall i | 0 <= i <= n ensures NoOrphans(states[i]) {
          assert i == n || i <= n - 1;
        }
      }
    }
  }
}
