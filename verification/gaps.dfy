/** What the gaps between the watchdog's locks allow: concrete runs, and when they happen. */
module Gaps {
  import opened AgentStore
  import opened AgentTypes
  import opened Collections
  import opened Convergence
  import opened Nexus
  import opened Reaper
  import Streaming
  import opened TaskStore
  import opened TaskTypes
  import opened Uuids

  const ID: Uuid := NIL_UUID
  const MESSAGE := TaskMessage(MessageId(ID), User, [], None)
  const WORKER := AgentInfo(AgentId(ID), "worker", 0, 0, Connected, None)

  /** One step more. */
  ghost function Onward(states: seq<State>, op: Op): seq<State>
    requires states != [] && Enabled(states[0].agents, states[|states| - 1], op)
  {
    states + [Next(states[0].agents, states[|states| - 1], op)]
  }

  lemma RunOn(states: seq<State>, ops: seq<Op>, op: Op)
    requires Run(states, ops) && Enabled(states[0].agents, states[|ops|], op)
    ensures Run(Onward(states, op), ops + [op])
  {
    hide Enabled, Next, Boot;
  }

  lemma BootRuns(s: State)
    ensures Boot(s) ==> Run([s], [])
  {
  }

  /** A step that publishes nothing and changes neither store. */
  lemma Quiet(boot: Agents, s: State, op: Op)
    requires Enabled(boot, s, op)
    requires TaskEffect(boot, s, op) == (s.tasks, []) && AgentEffect(boot, s, op) == (s.agents, [])
    ensures Next(boot, s, op) ==
      s.(clock := NextClock(s, op), sweep := NextSweep(boot, s, op), pending := NextPending(boot, s, op))
  {
    assert s.bus + [] + MirrorAll([]) == s.bus;
    assert s.channel + [] == s.channel;
  }

  lemma ReapNothing(s: Store, text: string)
    ensures Reap(s, Remember(s, []), text, []) == Batch(s, [], [])
  {
    assert Remember(s, []) == [];
  }

  /** A quiet first half of a sweep when there is no agent. */
  lemma NothingStale(boot: Agents, s: State)
    requires s.agents == NO_AGENTS && s.sweep.Idle? && s.clock <= 1
    ensures var t := s.(clock := 1, sweep := Started(1, 1));
      && Enabled(boot, s, BeginSweep(1, 0)) && Next(boot, s, BeginSweep(1, 0)) == t
      && Enabled(boot, t, CollectStale([])) && Next(boot, t, CollectStale([])) == t.(sweep := Scanning(1))
  {
    Quiet(boot, s, BeginSweep(1, 0));
    var t := s.(clock := 1, sweep := Started(1, 1));
    assert StaleAgents(NO_AGENTS, 1) == {} && Elements<AgentId>([]) == {};
    assert Enabled(boot, t, CollectStale([]));
    Quiet(boot, t, CollectStale([]));
  }

  function Picked(t: Task): Task {
    WithStatus(t, Working, None, 1)
  }

  /** The second half: the deadline scan, the task picked up, the refused update. */
  lemma MissedStep(boot: State, s: State, t: Task)
    requires s.tasks.tasks == map[t.id := t] && t.status.state.Submitted? && t.deadline == Some(0)
    requires s.sweep == Scanning(1) && s.clock == 1
    ensures var s3 := s.(sweep := Expired(1, [(t.id, Submitted)]));
      Enabled(boot.agents, s, ScanDeadlines([t.id])) && Next(boot.agents, s, ScanDeadlines([t.id])) == s3
  {
    assert OverdueTasks(s.tasks, 1) == {t.id};
    assert Elements([t.id]) == {t.id};
    assert Enabled(boot.agents, s, ScanDeadlines([t.id]));
    Quiet(boot.agents, s, ScanDeadlines([t.id]));
    assert Remember(s.tasks, [t.id]) == [(t.id, Submitted)];
  }

  lemma PickedUpStep(boot: State, s: State, t: Task)
    requires s.tasks.tasks == map[t.id := t] && t.status.state.Submitted? && s.clock == 1
    ensures var op := DoUpdate(t.id, Working, None, 1);
      && Enabled(boot.agents, s, op)
      && Next(boot.agents, s, op).tasks.tasks == map[t.id := Picked(t)]
      && Next(boot.agents, s, op).sweep == s.sweep && Next(boot.agents, s, op).clock == 1
  {
  }

  lemma RefusedStep(boot: State, s: State, t: Task)
    requires s.tasks.tasks == map[t.id := t] && t.status.state.Working? && s.sweep == Expired(1, [(t.id, Submitted)])
    ensures var op := FailExpired([Mint(MessageId(ID), 1)]);
      && Enabled(boot.agents, s, op)
      && Next(boot.agents, s, op).tasks.tasks == map[t.id := t]
      && Next(boot.agents, s, op).sweep == Idle
  {
    var targets, mints := s.sweep.expired, [Mint(MessageId(ID), 1)];
    assert targets[..0] == [] && mints[..0] == [];
    assert Reap(s.tasks, targets[..0], DEADLINE_REASON, mints[..0]).store == s.tasks;
  }

  const TARGET := NewTask(TaskId(ID), ContextId(ID), MESSAGE, None, None, None, Some(0), 0)

  /** A sweep at time 1 is under way over an overdue task. */
  ghost predicate MissStarted(states: seq<State>, ops: seq<Op>) {
    && Run(states, ops) && ops == [BeginSweep(1, 0), CollectStale([])]
    && states[0].tasks.tasks == map[TARGET.id := TARGET] && !states[1].sweep.Idle?
    && states[2].sweep == Scanning(1) && states[2].clock == 1 && states[2].tasks == states[0].tasks
  }

  lemma MissStart()
    ensures exists states, ops :: MissStarted(states, ops)
  {
    var s0 := State(NO_AGENTS, Indexed(EMPTY_STORE, TARGET), [], [], 0, Idle, map[]);
    IndexedKeepsIndex(EMPTY_STORE, TARGET);
    assert s0.tasks.tasks == map[TARGET.id := TARGET];
    hide Enabled, Next, IndexAgrees, NamesAgree, Indexed;
    BootRuns(s0);
    hide Run, Boot;
    var op0, op1 := BeginSweep(1, 0), CollectStale([]);
    var s1 := s0.(clock := 1, sweep := Started(1, 1));
    var s2 := s1.(sweep := Scanning(1));
    NothingStale(s0.agents, s0);
    RunOn([s0], [], op0);
    assert Onward([s0], op0) == [s0, s1] && [] + [op0] == [op0];
    RunOn([s0, s1], [op0], op1);
    assert Onward([s0, s1], op1) == [s0, s1, s2] && [op0] + [op1] == [op0, op1];
    hide Onward;
    assert MissStarted([s0, s1, s2], [op0, op1]);
  }

  /** One sweep is not enough: a task picked up between the deadline scan and the final step is
      still live when the sweep is over. */
  lemma OneSweepCanMiss() returns (states: seq<State>, ops: seq<Op>, id: TaskId)
    ensures Run(states, ops) && |ops| == 5 && SweepSpan(states, ops, 0, 5)
    ensures id in states[0].tasks.tasks && Overdue(states[0].tasks.tasks[id], ops[0].now)
    ensures id in states[5].tasks.tasks && Overdue(states[5].tasks.tasks[id], ops[0].now)
  {
    hide Enabled, Next, Boot;
    id := TARGET.id;
    MissStart();
    states, ops :| MissStarted(states, ops);
    MissedStep(states[0], states[2], TARGET);
    RunOn(states, ops, ScanDeadlines([TARGET.id]));
    states, ops := Onward(states, ScanDeadlines([TARGET.id])), ops + [ScanDeadlines([TARGET.id])];
    PickedUpStep(states[0], states[3], TARGET);
    RunOn(states, ops, DoUpdate(TARGET.id, Working, None, 1));
    states, ops := Onward(states, DoUpdate(TARGET.id, Working, None, 1)), ops + [DoUpdate(TARGET.id, Working, None, 1)];
    RefusedStep(states[0], states[4], Picked(TARGET));
    RunOn(states, ops, FailExpired([Mint(MessageId(ID), 1)]));
    states, ops := Onward(states, FailExpired([Mint(MessageId(ID), 1)])), ops + [FailExpired([Mint(MessageId(ID), 1)])];
  }

  /** One agent goes stale and is dealt with while a checked submission to it is pending. */
  lemma LoseWorker(boot: Agents, s: State, a: AgentId)
    requires s.sweep.Idle? && s.clock <= 100 && s.tasks == EMPTY_STORE
    requires s.agents.agents == map[a := WORKER]
    ensures var s1 := s.(clock := 100, sweep := Started(100, 90));
      Enabled(boot, s, BeginSweep(100, 10)) && Next(boot, s, BeginSweep(100, 10)) == s1
    ensures var s1 := s.(clock := 100, sweep := Started(100, 90));
      && Enabled(boot, s1, CollectStale([a]))
      && Next(boot, s1, CollectStale([a])) == s1.(sweep := Collected(100, [a]))
  {
    Quiet(boot, s, BeginSweep(100, 10));
    var s1 := s.(clock := 100, sweep := Started(100, 90));
    assert StaleAgents(s.agents, 90) == {a} && Elements([a]) == {a};
    assert Enabled(boot, s1, CollectStale([a]));
    Quiet(boot, s1, CollectStale([a]));
  }

  lemma FlipWorker(boot: Agents, s: State, a: AgentId)
    requires s.sweep == Collected(100, [a]) && s.agents.agents == map[a := WORKER]
    ensures Enabled(boot, s, FlipStale)
    ensures var t := Next(boot, s, FlipStale);
      && t.agents.agents == map[a := WORKER.(status := Disconnected)]
      && t.sweep == Failing(100, [a]) && t.tasks == s.tasks && t.pending == s.pending && t.clock == s.clock
  {
    FlipAllEffect(s.agents, [a]);
  }

  lemma NothingInFlight(boot: Agents, s: State, a: AgentId)
    requires s.sweep == Failing(100, [a]) && s.tasks == EMPTY_STORE
    ensures Enabled(boot, s, FailAgent([], [])) && Next(boot, s, FailAgent([], [])) == s.(sweep := Scanning(100))
  {
    assert InFlight(EMPTY_STORE, a) == {} && Elements<TaskId>([]) == {};
    assert Enabled(boot, s, FailAgent([], []));
    ReapNothing(s.tasks, DisconnectReason(a));
    Quiet(boot, s, FailAgent([], []));
  }

  lemma NothingOverdue(boot: Agents, s: State)
    requires s.sweep == Scanning(100) && s.tasks == EMPTY_STORE
    ensures Enabled(boot, s, ScanDeadlines([])) && Next(boot, s, ScanDeadlines([])) == s.(sweep := Idle)
  {
    assert OverdueTasks(EMPTY_STORE, 100) == {} && Elements<TaskId>([]) == {};
    assert Enabled(boot, s, ScanDeadlines([]));
    Quiet(boot, s, ScanDeadlines([]));
  }

  lemma CheckedStep(s: State, a: AgentId, request: Submission)
    requires s.agents.agents == map[a := WORKER] && s.pending == map[] && request.assignee == Some(a)
    ensures var op := DoResolve(0, request, [a]);
      Enabled(s.agents, s, op) && Next(s.agents, s, op) == s.(pending := map[0 := request])
  {
    var op := DoResolve(0, request, [a]);
    assert Elements([a]) == {a} == s.agents.agents.Keys;
    assert Enabled(s.agents, s, op);
    Quiet(s.agents, s, op);
  }

  /** A submission to the worker has been checked. */
  ghost predicate WorkerChecked(states: seq<State>, ops: seq<Op>) {
    && Run(states, ops) && |ops| == 1
    && states[1].agents.agents == map[AgentId(ID) := WORKER] && states[1].tasks == EMPTY_STORE
    && states[1].sweep.Idle? && states[1].clock == 0 && states[1].pending == map[0 := REQUEST]
    && NoOrphans(states[0])
  }

  lemma OrphanCheck()
    ensures exists states, ops :: WorkerChecked(states, ops)
  {
    assert ValidName("worker");
    EnrolledKeepsNames(NO_AGENTS, WORKER);
    var s0 := State(Enrolled(NO_AGENTS, WORKER), EMPTY_STORE, [], [], 0, Idle, map[]);
    assert s0.agents.agents == map[AgentId(ID) := WORKER];
    assert Run([s0], []);
    hide Enabled, Next, Boot, ValidName, NamesAgree, IndexAgrees;
    CheckedStep(s0, AgentId(ID), REQUEST);
    RunOn([s0], [], DoResolve(0, REQUEST, [AgentId(ID)]));
    var states, ops := Onward([s0], DoResolve(0, REQUEST, [AgentId(ID)])), [DoResolve(0, REQUEST, [AgentId(ID)])];
    assert WorkerChecked(states, ops);
  }

  const REQUEST := Submission(MESSAGE, None, Some(AgentId(ID)), None, None)

  /** A sweep has found the worker stale since. */
  ghost predicate WorkerCollected(states: seq<State>, ops: seq<Op>) {
    && Run(states, ops) && |ops| == 3 && ops[1].BeginSweep?
    && states[2].sweep == Started(100, 90) && states[3].sweep == Collected(100, [AgentId(ID)])
    && ops[2].CollectStale?
    && states[3].agents.agents == map[AgentId(ID) := WORKER] && states[3].tasks == EMPTY_STORE
    && states[3].clock == 100 && states[3].pending == map[0 := REQUEST]
  }

  lemma OrphanCollect()
    ensures exists states, ops :: WorkerCollected(states, ops)
  {
    hide Enabled, Next, Boot, NoOrphans;
    OrphanCheck();
    var states: seq<State>, ops: seq<Op> :| WorkerChecked(states, ops);
    LoseWorker(states[0].agents, states[1], AgentId(ID));
    RunOn(states, ops, BeginSweep(100, 10));
    states, ops := Onward(states, BeginSweep(100, 10)), ops + [BeginSweep(100, 10)];
    RunOn(states, ops, CollectStale([AgentId(ID)]));
    states, ops := Onward(states, CollectStale([AgentId(ID)])), ops + [CollectStale([AgentId(ID)])];
    assert WorkerCollected(states, ops);
  }

  /** The gap in a submission: its agent is lost after the check, and the complete sweep that
      loses the agent is over before the task appears. */
  lemma SubmissionCanOrphan() returns (states: seq<State>, ops: seq<Op>)
    ensures Run(states, ops) && |ops| == 7 && SweepSpan(states, ops, 1, 6)
    ensures NoOrphans(states[6]) && FiledTooLate(states[6], ops[6]) && !NoOrphans(states[7])
  {
    hide Enabled, Next, Invariant, NoOrphans, FiledTooLate, Boot;
    OrphanCollect();
    states, ops :| WorkerCollected(states, ops);
    FlipWorker(states[0].agents, states[3], AgentId(ID));
    RunOn(states, ops, FlipStale);
    states, ops := Onward(states, FlipStale), ops + [FlipStale];
    NothingInFlight(states[0].agents, states[4], AgentId(ID));
    RunOn(states, ops, FailAgent([], []));
    states, ops := Onward(states, FailAgent([], [])), ops + [FailAgent([], [])];
    NothingOverdue(states[0].agents, states[5]);
    RunOn(states, ops, ScanDeadlines([]));
    states, ops := Onward(states, ScanDeadlines([])), ops + [ScanDeadlines([])];
    RunInvariant(states, ops, 6);
    var late := DoCreate(0, TaskId(ID), ContextId(ID), 100);
    LateStep(states[0].agents, states[6]);
    OrphansExactlyWhenFiledTooLate(states[0], states[6], late);
    RunOn(states, ops, late);
    states, ops := Onward(states, late), ops + [late];
  }

  lemma LateStep(boot: Agents, s: State)
    requires s.tasks == EMPTY_STORE && s.sweep.Idle? && s.clock == 100 && s.pending == map[0 := REQUEST]
    requires s.agents.agents == map[AgentId(ID) := WORKER.(status := Disconnected)]
    ensures var late := DoCreate(0, TaskId(ID), ContextId(ID), 100);
      Enabled(boot, s, late) && FiledTooLate(s, late) && NoOrphans(s)
  {
  }

  // ---- a stream that starts too late -----------------------------------------------------------

  /** The gap in a stream: the snapshot shows state 0, the task is picked up, the worker
      subscribes in state 1. It misses no event after that, and the client is wrong for good. */
  lemma SnapshotCanMiss() returns (states: seq<State>, ops: seq<Op>, id: TaskId)
    ensures Run(states, ops) && |ops| == 1
    ensures Streaming.Served(states, ops, 1, 1, [], [])
    ensures id in states[0].tasks.tasks && id in states[1].tasks.tasks
    ensures var snapshot := states[0].tasks.tasks[id];
      Streaming.Picture(TaskHistory.ViewOf(snapshot), Streaming.Sent(Some(snapshot), [], id, snapshot.contextId))
      != TaskHistory.ViewOf(states[1].tasks.tasks[id])
  {
    var s := State(NO_AGENTS, Indexed(EMPTY_STORE, TARGET), [], [], 1, Idle, map[]);
    IndexedKeepsIndex(EMPTY_STORE, TARGET);
    assert Run([s], []);
    PickedUpStep(s, s, TARGET);
    hide Enabled, Next, Boot, IndexAgrees, Indexed;
    RunOn([s], [], DoUpdate(TARGET.id, Working, None, 1));
    states, ops := Onward([s], DoUpdate(TARGET.id, Working, None, 1)), [DoUpdate(TARGET.id, Working, None, 1)];
    id := TARGET.id;
    var sent := Streaming.Sent(Some(TARGET), [], id, TARGET.contextId);
    assert sent == [Streaming.TaskSnapshot(TARGET)] && sent[..0] == [];
    assert Streaming.Picture(TaskHistory.ViewOf(TARGET), sent) == TaskHistory.ViewOf(TARGET);
    assert TaskHistory.ViewOf(TARGET).state.Submitted? && TaskHistory.ViewOf(Picked(TARGET)).state.Working?;
  }

  // ---- agents flipped although they are back ---------------------------------------------------

  lemma BeatThenFlip(boot: Agents, s: State, a: AgentId)
    requires s.sweep == Collected(100, [a]) && s.agents.agents == map[a := WORKER] && s.clock == 100
    ensures Enabled(boot, s, DoHeartbeat(a, 100))
    ensures var t := Next(boot, s, DoHeartbeat(a, 100));
      && t.agents.agents == map[a := WORKER.(lastHeartbeatAt := 100)] && t.sweep == s.sweep
      && Enabled(boot, t, FlipStale)
      && Next(boot, t, FlipStale).agents.agents
         == map[a := WORKER.(lastHeartbeatAt := 100, status := Disconnected)]
  {
    var t := Next(boot, s, DoHeartbeat(a, 100));
    FlipAllEffect(t.agents, [a]);
  }

  /** The gap in a flip: an agent that has just sent a heartbeat is flipped. */
  lemma FreshAgentCanBeFlipped() returns (states: seq<State>, ops: seq<Op>, id: AgentId)
    ensures Run(states, ops) && |ops| == 5 && ops[2].CollectStale? && ops[3].DoHeartbeat? && ops[4].FlipStale?
    ensures states[2].sweep.Started? && id in states[5].agents.agents
    ensures states[5].agents.agents[id].status.Disconnected?
    ensures states[5].agents.agents[id].lastHeartbeatAt >= states[2].sweep.cutoff
  {
    hide Enabled, Next, Boot;
    id := AgentId(ID);
    OrphanCollect();
    states, ops :| WorkerCollected(states, ops);
    BeatThenFlip(states[0].agents, states[3], id);
    RunOn(states, ops, DoHeartbeat(id, 100));
    states, ops := Onward(states, DoHeartbeat(id, 100)), ops + [DoHeartbeat(id, 100)];
    RunOn(states, ops, FlipStale);
    states, ops := Onward(states, FlipStale), ops + [FlipStale];
  }

  ghost predicate CutoffPast(s: State) {
    s.sweep.Started? ==> s.sweep.cutoff <= s.clock
  }

  lemma CutoffIsPast(s: State)
    ensures CutoffPast(s) && s.sweep.Started? ==> s.sweep.cutoff <= s.clock
  {
  }

  lemma {:induction false} CutoffsPast(states: seq<State>, ops: seq<Op>, i: nat)
    requires Run(states, ops) && i < |states|
    ensures CutoffPast(states[i])
  {
    hide Enabled, Next, CutoffPast;
    if i == 0 {
      BootCutoff(states[0]);
    } else {
      CutoffsPast(states, ops, i - 1);
      CutoffStep(states[0].agents, states[i - 1], ops[i - 1]);
    }
  }

  lemma BootCutoff(s: State)
    ensures Boot(s) ==> CutoffPast(s)
  {
  }

  lemma CutoffStep(boot: Agents, s: State, op: Op)
    ensures Enabled(boot, s, op) && CutoffPast(s) ==> CutoffPast(Next(boot, s, op))
  {
    hide TaskEffect, AgentEffect;
  }

  ghost predicate Beat(ops: seq<Op>, c: nat, f: nat, id: AgentId) {
    exists k :: c < k < f <= |ops| && ops[k].DoHeartbeat? && ops[k].id == id
  }

  /** The watchdog waits between reading heartbeats (step `c`) and flipping. */
  ghost predicate Waiting(states: seq<State>, ops: seq<Op>, c: nat, k: nat) {
    && |states| == |ops| + 1 && c < k < |states| && ops[c].CollectStale?
    && forall j :: c < j <= k ==> states[j].sweep.Collected?
  }

  /** While the watchdog waits, only an agent's own heartbeat refreshes it. */
  lemma HeartbeatStep(boot: Agents, s: State, op: Op, id: AgentId, cutoff: Timestamp)
    requires Enabled(boot, s, op) && s.sweep.Collected? && cutoff <= s.clock
    requires !op.FlipStale? && !(op.DoRegister? && op.id == id)
    ensures var agents := Next(boot, s, op).agents;
      id in agents.agents ==>
        && id in s.agents.agents
        && (agents.agents[id].lastHeartbeatAt >= cutoff <==>
             s.agents.agents[id].lastHeartbeatAt >= cutoff || (op.DoHeartbeat? && op.id == id))
  {
  }

  lemma BeatNext(ops: seq<Op>, c: nat, k: nat, id: AgentId)
    ensures c + 1 < k <= |ops| ==>
      (Beat(ops, c, k, id) <==> Beat(ops, c, k - 1, id) || (ops[k - 1].DoHeartbeat? && ops[k - 1].id == id))
  {
  }

  lemma {:induction false} StaleKept(states: seq<State>, ops: seq<Op>, c: nat, k: nat)
    requires Run(states, ops) && Waiting(states, ops, c, k)
    ensures states[k].sweep == states[c + 1].sweep
    decreases k
  {
    hide Enabled, Next, Boot;
    if k > c + 1 {
      StaleKept(states, ops, c, k - 1);
      assert states[k - 1].sweep.Collected? && states[k].sweep.Collected?;
      WaitStep(states[0].agents, states[k - 1], ops[k - 1]);
    }
  }

  lemma WaitStep(boot: Agents, s: State, op: Op)
    ensures Enabled(boot, s, op) && s.sweep.Collected? && Next(boot, s, op).sweep.Collected? ==>
      Next(boot, s, op).sweep == s.sweep && !op.FlipStale?
  {
  }

  /** In state `k`, agent `id` is fresh again exactly when it sent a heartbeat since step `c`. */
  ghost predicate FreshIffBeat(s: State, cutoff: Timestamp, ops: seq<Op>, c: nat, k: nat, id: AgentId) {
    id in s.agents.agents ==> (s.agents.agents[id].lastHeartbeatAt >= cutoff <==> Beat(ops, c, k, id))
  }

  lemma FreshStep(boot: Agents, s: State, ops: seq<Op>, c: nat, k: nat, cutoff: Timestamp, id: AgentId)
    requires c + 1 < k <= |ops| && Enabled(boot, s, ops[k - 1])
    requires s.sweep.Collected? && Next(boot, s, ops[k - 1]).sweep.Collected? && cutoff <= s.clock
    requires !(ops[k - 1].DoRegister? && ops[k - 1].id == id)
    requires FreshIffBeat(s, cutoff, ops, c, k - 1, id)
    ensures FreshIffBeat(Next(boot, s, ops[k - 1]), cutoff, ops, c, k, id)
  {
    WaitStep(boot, s, ops[k - 1]);
    HeartbeatStep(boot, s, ops[k - 1], id, cutoff);
    BeatNext(ops, c, k, id);
    hide Enabled, Next, Beat;
  }

  lemma {:induction false} BackIffBeat(states: seq<State>, ops: seq<Op>, c: nat, k: nat, id: AgentId)
    requires Run(states, ops) && Waiting(states, ops, c, k)
    requires id in states[c + 1].sweep.stale
    ensures FreshIffBeat(states[k], states[c].sweep.cutoff, ops, c, k, id)
    decreases k
  {
    hide Enabled, Next, Boot, CutoffPast;
    CollectStep(states[0].agents, states[c], ops[c], id);
    if k == c + 1 {
      assert !Beat(ops, c, k, id);
    } else {
      hide FreshIffBeat, Beat;
      assert Waiting(states, ops, c, k - 1) && states[k - 1].sweep.Collected? && states[k].sweep.Collected?;
      BackIffBeat(states, ops, c, k - 1, id);
      CutoffsPast(states, ops, c);
      CutoffIsPast(states[c]);
      RunClock(states, ops, c, k - 1);
      Gone(states, ops, c, k - 1, id);
      FreshStep(states[0].agents, states[k - 1], ops, c, k, states[c].sweep.cutoff, id);
    }
  }

  lemma CollectStep(boot: Agents, s: State, op: Op, id: AgentId)
    requires Enabled(boot, s, op) && op.CollectStale? && Next(boot, s, op).sweep.Collected?
    requires id in Next(boot, s, op).sweep.stale
    ensures id in s.agents.agents && Stale(s.agents.agents[id], s.sweep.cutoff)
    ensures Next(boot, s, op).agents == s.agents && s.sweep.Started?
  {
    Listed(op.order, StaleAgents(s.agents, s.sweep.cutoff));
  }

  /** An id that was registered once is never registered again. */
  lemma Gone(states: seq<State>, ops: seq<Op>, c: nat, k: nat, id: AgentId)
    requires Run(states, ops) && c <= k < |ops| && id in states[c].agents.agents
    ensures !(ops[k].DoRegister? && ops[k].id == id)
  {
    hide Next, Boot;
    RunInvariant(states, ops, c);
    Streaming.BusGrows(states, ops, c, k);
    assert Enabled(states[0].agents, states[k], ops[k]);
    hide Run;
    KnownIsNotFresh(states[0].agents, states[c].agents, states[c].bus, states[k].bus, id);
  }

  lemma KnownIsNotFresh(boot: Agents, s: Agents, earlier: seq<Bus.Event>, bus: seq<Bus.Event>, id: AgentId)
    requires Told(boot, s, earlier) && IsPrefix(earlier, bus) && id in s.agents
    ensures !FreshAgent(boot, bus, id)
  {
    assert bus == earlier + bus[|earlier|..];
    WordGrows(earlier, bus[|earlier|..], id);
    assert ToldBy(s, id, Life(boot, earlier, id));
  }

  lemma {:induction false} WordGrows(a: seq<Bus.Event>, b: seq<Bus.Event>, id: AgentId)
    ensures |Word(a, id)| <= |Word(a + b, id)|
  {
    if b == [] {
      assert a + b == a;
    } else {
      WordGrows(a, b[..|b| - 1], id);
      assert (a + b)[..|a + b| - 1] == a + b[..|b| - 1];
    }
  }

  /** Flipping does not look at the heartbeat again: an agent still registered is flipped with a
      fresh heartbeat exactly when it sent one between the two locks. */
  lemma FlippedWhileFreshIffBeat(states: seq<State>, ops: seq<Op>, c: nat, f: nat, id: AgentId)
    requires Run(states, ops) && Waiting(states, ops, c, f) && f < |ops| && ops[f].FlipStale?
    requires id in states[c + 1].sweep.stale && id in states[f].agents.agents
    ensures id in states[f + 1].agents.agents && states[f + 1].agents.agents[id].status.Disconnected?
    ensures states[f + 1].agents.agents[id].lastHeartbeatAt >= states[c].sweep.cutoff <==> Beat(ops, c, f, id)
  {
    BackIffBeat(states, ops, c, f, id);
    StaleKept(states, ops, c, f);
    FlipAllEffect(states[f].agents, states[f].sweep.stale);
  }
}
