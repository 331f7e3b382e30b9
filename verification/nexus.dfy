/** The nexus as an interleaved transition system. Every section that holds a lock is one
    atomic step; the watchdog's sweep and a task submission are several steps each, with
    anything in between. */
module Nexus {
  import opened AgentStore
  import opened AgentTypes
  import opened Bus
  import opened Collections
  import opened Json
  import opened Reaper
  import opened Router
  import opened TaskHistory
  import opened TaskStore
  import opened TaskTypes
  import opened Uuids

  /** A task submission between its steps: the assignee is resolved, the task not yet created. */
  datatype Submission = Submission(
    message: TaskMessage, contextId: Option<ContextId>, assignee: Option<AgentId>,
    metadata: Option<Json>, deadline: Option<Timestamp>)

  /** Where the watchdog is, with what it remembers from earlier steps. */
  datatype Sweep =
    | Idle
    | Started(now: Timestamp, cutoff: Timestamp)             // clock read
    | Collected(now: Timestamp, stale: seq<AgentId>)         // phase 1 done, some agent is stale
    | Failing(now: Timestamp, remaining: seq<AgentId>)       // phase 2 done, phase 3 under way
    | Scanning(now: Timestamp)                               // phase 3 done or skipped
    | Expired(now: Timestamp, expired: seq<(TaskId, TaskState)>)  // deadlines read, some have passed

  datatype State = State(
    agents: Agents, tasks: Store, bus: seq<Event>, channel: seq<TaskEvent>,
    clock: Timestamp, sweep: Sweep, pending: map<nat, Submission>)

  datatype Op =
    | DoRegister(id: AgentId, name: string, capabilities: Option<AgentCapabilities>, now: Timestamp)
    | DoHeartbeat(id: AgentId, now: Timestamp)
    | DoDeregister(id: AgentId)
    | DoResolve(ticket: nat, request: Submission, order: seq<AgentId>)
    | DoCreate(ticket: nat, taskId: TaskId, freshContext: ContextId, now: Timestamp)
    | DoUpdate(taskId: TaskId, state: TaskState, message: Option<TaskMessage>, now: Timestamp)
    | DoArtifact(taskId: TaskId, artifact: Artifact)
    | DoOther(event: Event)                                  // chat and tool traffic on the bus
    | BeginSweep(now: Timestamp, timeout: nat)
    | CollectStale(order: seq<AgentId>)
    | FlipStale
    | FailAgent(tasks: seq<TaskId>, mints: seq<Mint>)
    | ScanDeadlines(tasks: seq<TaskId>)
    | FailExpired(mints: seq<Mint>)

  // ---- pieces of steps --------------------------------------------------------------------

  /** The stand-in task the router looks at. */
  function Draft(request: Submission): Task {
    Task(TaskId(NIL_UUID), ContextId(NIL_UUID), TaskStatus(Submitted, None, 0), [], [],
         request.metadata, None, None, request.deadline)
  }

  /** Checking a pinned assignee, or routing, under the registry's read lock. */
  function Resolve(s: Agents, request: Submission, order: seq<AgentId>): Result<Option<AgentId>, AgentError>
    requires forall id :: id in order ==> id in s.agents
  {
    if request.assignee.Some? then
      var id := request.assignee.value;
      if id !in s.agents then Err(AgentNotFound(id))
      else if s.agents[id].status.Disconnected? then Err(AgentNotConnected(s.agents[id].name))
      else Ok(request.assignee)
    else Ok(SelectAgent(Draft(request), Values(s.agents, order)))
  }

  function Filed(p: Submission, id: TaskId, freshContext: ContextId, now: Timestamp): Task {
    NewTask(id, if p.contextId.Some? then p.contextId.value else freshContext, p.message, p.assignee,
            None, p.metadata, p.deadline, now)
  }

  function InFlight(s: Store, agent: AgentId): set<TaskId> {
    set id | id in s.tasks && s.tasks[id].assignee == Some(agent) && s.tasks[id].Live()
  }

  predicate Overdue(t: Task, now: Timestamp) {
    t.Live() && t.deadline.Some? && t.deadline.value < now
  }

  function OverdueTasks(s: Store, now: Timestamp): set<TaskId> {
    set id | id in s.tasks && Overdue(s.tasks[id], now)
  }

  /** Task ids paired with the states they have now. */
  function Remember(s: Store, ids: seq<TaskId>): seq<(TaskId, TaskState)>
    requires forall id :: id in ids ==> id in s.tasks
  {
    seq(|ids|, i requires 0 <= i < |ids| => (ids[i], s.tasks[ids[i]].status.state))
  }

  function DisconnectReason(agent: AgentId): string {
    "assignee " + Render(agent.uuid) + " disconnected"
  }

  const DEADLINE_REASON := "task deadline exceeded"

  // ---- steps ------------------------------------------------------------------------------

  /** Whether `op` can happen in `s`: the clock never goes back, generated ids are fresh,
      every hash-map order lists the map's keys, and the watchdog's steps come in order. */
  ghost predicate Enabled(boot: Agents, s: State, op: Op) {
    match op
    case DoRegister(id, _, _, now) => s.clock <= now && FreshAgent(boot, s.bus, id)
    case DoHeartbeat(_, now) => s.clock <= now
    case DoDeregister(_) => true
    case DoResolve(ticket, _, order) => ticket !in s.pending && IsListing(order, s.agents.agents.Keys)
    case DoCreate(ticket, id, _, now) => s.clock <= now && ticket in s.pending && id !in s.tasks.tasks
    case DoUpdate(_, _, _, now) => s.clock <= now
    case DoArtifact(_, _) => true
    case DoOther(e) => e.NewMessage? || e.ToolRegistered? || e.ToolDeregistered?
    case BeginSweep(now, _) => s.clock <= now && s.sweep.Idle?
    case CollectStale(order) => s.sweep.Started? && IsListing(order, StaleAgents(s.agents, s.sweep.cutoff))
    case FlipStale => s.sweep.Collected?
    case FailAgent(tasks, mints) =>
      && s.sweep.Failing? && s.sweep.remaining != []
      && IsListing(tasks, InFlight(s.tasks, s.sweep.remaining[0])) && |mints| == |tasks|
    case ScanDeadlines(tasks) => s.sweep.Scanning? && IsListing(tasks, OverdueTasks(s.tasks, s.sweep.now))
    case FailExpired(mints) => s.sweep.Expired? && |mints| == |s.sweep.expired|
  }

  lemma Listed<T>(order: seq<T>, s: set<T>)
    requires IsListing(order, s)
    ensures forall x :: x in order <==> x in s
  {
    assert forall x :: x in order <==> x in Elements(order);
  }

  /** What the step does to the task store, and the events it publishes on the task channel. */
  ghost function TaskEffect(boot: Agents, s: State, op: Op): (Store, seq<TaskEvent>)
    requires Enabled(boot, s, op)
  {
    match op
    case DoCreate(ticket, id, freshContext, now) =>
      var c := Create(s.tasks, Filed(s.pending[ticket], id, freshContext, now));
      (c.store, c.events)
    case DoUpdate(id, state, message, now) =>
      var c := UpdateStatus(s.tasks, id, state, message, now);
      (c.store, c.events)
    case DoArtifact(id, a) =>
      var c := AddArtifact(s.tasks, id, a);
      (c.store, c.events)
    case FailAgent(tasks, mints) =>
      Listed(tasks, InFlight(s.tasks, s.sweep.remaining[0]));
      var b := Reap(s.tasks, Remember(s.tasks, tasks), DisconnectReason(s.sweep.remaining[0]), mints);
      (b.store, b.events)
    case FailExpired(mints) =>
      var b := Reap(s.tasks, s.sweep.expired, DEADLINE_REASON, mints);
      (b.store, b.events)
    case _ => (s.tasks, [])
  }

  /** What the step does to the registry, and the other events it puts on the bus. */
  ghost function AgentEffect(boot: Agents, s: State, op: Op): (Agents, seq<Event>)
    requires Enabled(boot, s, op)
  {
    match op
    case DoRegister(id, name, capabilities, now) =>
      var c := Register(s.agents, id, name, capabilities, now);
      (c.store, c.events)
    case DoHeartbeat(id, now) =>
      var c := Heartbeat(s.agents, id, now);
      (c.store, c.events)
    case DoDeregister(id) =>
      var c := Deregister(s.agents, id);
      (c.store, c.events)
    case DoOther(e) => (s.agents, [e])
    case FlipStale => FlipAll(s.agents, s.sweep.stale)
    case _ => (s.agents, [])
  }

  ghost function NextSweep(boot: Agents, s: State, op: Op): Sweep
    requires Enabled(boot, s, op)
  {
    match op
    case BeginSweep(now, timeout) => Started(now, now - timeout)
    case CollectStale(order) => if order == [] then Scanning(s.sweep.now) else Collected(s.sweep.now, order)
    case FlipStale => if s.sweep.stale == [] then Scanning(s.sweep.now) else Failing(s.sweep.now, s.sweep.stale)
    case FailAgent(_, _) =>
      if |s.sweep.remaining| == 1 then Scanning(s.sweep.now) else Failing(s.sweep.now, s.sweep.remaining[1..])
    case ScanDeadlines(tasks) =>
      Listed(tasks, OverdueTasks(s.tasks, s.sweep.now));
      if tasks == [] then Idle else Expired(s.sweep.now, Remember(s.tasks, tasks))
    case FailExpired(_) => Idle
    case _ => s.sweep
  }

  ghost function NextPending(boot: Agents, s: State, op: Op): map<nat, Submission>
    requires Enabled(boot, s, op)
  {
    match op
    case DoResolve(ticket, request, order) =>
      Listed(order, s.agents.agents.Keys);
      var r := Resolve(s.agents, request, order);
      if r.Ok? then s.pending[ticket := request.(assignee := r.value)] else s.pending
    case DoCreate(ticket, _, _, _) => s.pending - {ticket}
    case _ => s.pending
  }

  function NextClock(s: State, op: Op): Timestamp {
    match op
    case DoRegister(_, _, _, now) => now
    case DoHeartbeat(_, now) => now
    case DoCreate(_, _, _, now) => now
    case DoUpdate(_, _, _, now) => now
    case BeginSweep(now, _) => now
    case _ => s.clock
  }

  ghost function Next(boot: Agents, s: State, op: Op): State
    requires Enabled(boot, s, op)
  {
    var (tasks, taskEvents) := TaskEffect(boot, s, op);
    var (agents, otherEvents) := AgentEffect(boot, s, op);
    State(agents, tasks, s.bus + otherEvents + MirrorAll(taskEvents), s.channel + taskEvents,
          NextClock(s, op), NextSweep(boot, s, op), NextPending(boot, s, op))
  }

  // ---- runs -------------------------------------------------------------------------------

  /** The daemon has booted, empty or from a snapshot; nothing has been published yet. */
  ghost predicate Boot(s: State) {
    && s.bus == [] && s.channel == [] && s.sweep.Idle? && s.pending == map[]
    && IndexAgrees(s.tasks) && NamesAgree(s.agents)
  }

  ghost predicate Run(states: seq<State>, ops: seq<Op>) {
    && |states| == |ops| + 1
    && Boot(states[0])
    && forall i :: 0 <= i < |ops| ==>
         Enabled(states[0].agents, states[i], ops[i]) && states[i + 1] == Next(states[0].agents, states[i], ops[i])
  }

  // ---- what every step keeps ----------------------------------------------------------------

  /** The task events on the bus. */
  function TaskEvents(bus: seq<Event>): seq<TaskEvent> {
    if bus == [] then []
    else
      TaskEvents(bus[..|bus| - 1]) +
      match bus[|bus| - 1]
      case TaskCreated(t) => [Created(t)]
      case TaskStatusChanged(id, o, n) => [StatusChanged(id, o, n)]
      case TaskArtifactAdded(id, a) => [ArtifactAdded(id, a)]
      case _ => []
  }

  lemma TaskEventsAppend(bus: seq<Event>, e: Event)
    ensures TaskEvents(bus + [e]) == TaskEvents(bus) +
      match e
      case TaskCreated(t) => [Created(t)]
      case TaskStatusChanged(id, o, n) => [StatusChanged(id, o, n)]
      case TaskArtifactAdded(id, a) => [ArtifactAdded(id, a)]
      case _ => []
  {
    assert (bus + [e])[..|bus|] == bus;
  }

  lemma {:induction false} MirroredEvents(bus: seq<Event>, events: seq<TaskEvent>)
    ensures TaskEvents(bus + MirrorAll(events)) == TaskEvents(bus) + events
  {
    hide TaskEvents;
    if events == [] {
      assert bus + MirrorAll(events) == bus;
    } else {
      var n := |events| - 1;
      MirroredEvents(bus, events[..n]);
      TaskEventsAppend(bus + MirrorAll(events[..n]), Mirror(events[n]));
      assert bus + MirrorAll(events) == bus + MirrorAll(events[..n]) + [Mirror(events[n])];
    }
  }

  predicate AboutTasks(e: Event) {
    e.TaskCreated? || e.TaskStatusChanged? || e.TaskArtifactAdded?
  }

  lemma {:induction false} OtherEvents(bus: seq<Event>, events: seq<Event>)
    requires forall e :: e in events ==> !AboutTasks(e)
    ensures TaskEvents(bus + events) == TaskEvents(bus)
  {
    if events == [] {
      assert bus + events == bus;
    } else {
      var n := |events| - 1;
      OtherEvents(bus, events[..n]);
      assert events[n] in events;
      TaskEventsAppend(bus + events[..n], events[n]);
      assert bus + events == bus + events[..n] + [events[n]];
    }
  }

  lemma {:induction false} FlipEvents(s: Agents, ids: seq<AgentId>)
    ensures forall e :: e in FlipAll(s, ids).1 ==> e.AgentDisconnected?
  {
    if ids != [] {
      FlipEvents(s, ids[..|ids| - 1]);
    }
  }

  /** Task events tell nothing about agents. */
  lemma {:induction false} ToldTaskEvents(boot: Agents, s: Agents, bus: seq<Event>, events: seq<Event>)
    requires Told(boot, s, bus) && forall e :: e in events ==> AboutTasks(e)
    ensures Told(boot, s, bus + events)
  {
    hide Told;
    if events == [] {
      assert bus + events == bus;
    } else {
      var init, e := events[..|events| - 1], events[|events| - 1];
      assert events == init + [e] && e in events;
      ToldTaskEvents(boot, s, bus, init);
      ToldOther(boot, s, bus + init, e);
      assert bus + events == bus + init + [e];
    }
  }

  /** Indexes agree with what they index; replaying the channel gives the task store; the bus
      carries the channel's events in the channel's order; the bus tells every agent's life. */
  ghost predicate Invariant(boot: State, s: State) {
    && IndexAgrees(s.tasks)
    && NamesAgree(s.agents)
    && Replay(ViewsOf(boot.tasks), s.channel) == Some(ViewsOf(s.tasks))
    && TaskEvents(s.bus) == s.channel
    && Told(boot.agents, s.agents, s.bus)
  }

  /** A creation step files the submission as it was asked for and resolved. */
  lemma CreatedAsAsked(boot: Agents, s: State, op: Op)
    ensures Enabled(boot, s, op) && op.DoCreate? ==>
      var p := s.pending[op.ticket];
      && op.taskId in Next(boot, s, op).tasks.tasks
      && Next(boot, s, op).tasks.tasks[op.taskId] ==
           Task(op.taskId, if p.contextId.Some? then p.contextId.value else op.freshContext,
                TaskStatus(Submitted, Some(p.message), op.now), [], [p.message],
                p.metadata, p.assignee, None, p.deadline)
  {
  }

  lemma {:induction false} BootInvariant(s: State)
    ensures Boot(s) ==> Invariant(s, s)
  {
    ToldAtStart(s.agents);
  }

  lemma TaskEffectKeeps(boot: Agents, s: State, op: Op)
    requires Enabled(boot, s, op) && IndexAgrees(s.tasks)
    ensures var (tasks, events) := TaskEffect(boot, s, op);
      && IndexAgrees(tasks)
      && StoreEvolves(s.tasks, tasks)
      && Replay(ViewsOf(s.tasks), events) == Some(ViewsOf(tasks))
  {
    match op {
      case DoCreate(ticket, id, freshContext, now) =>
        var t := Filed(s.pending[ticket], id, freshContext, now);
        IndexedKeepsIndex(s.tasks, t);
        CreateEvolves(s.tasks, t);
        CreateReplays(s.tasks, t);
      case DoUpdate(id, state, message, now) =>
        UpdateStatusKeepsIndex(s.tasks, id, state, message, now);
        UpdateStatusEvolves(s.tasks, id, state, message, now);
        UpdateStatusReplays(s.tasks, id, state, message, now);
      case DoArtifact(id, a) =>
        AddArtifactKeepsIndex(s.tasks, id, a);
        AddArtifactEvolves(s.tasks, id, a);
        AddArtifactReplays(s.tasks, id, a);
      case FailAgent(tasks, mints) =>
        var agent := s.sweep.remaining[0];
        Listed(tasks, InFlight(s.tasks, agent));
        ReapKeeps(s.tasks, Remember(s.tasks, tasks), DisconnectReason(agent), mints);
        ReapReplays(s.tasks, Remember(s.tasks, tasks), DisconnectReason(agent), mints);
      case FailExpired(mints) =>
        ReapKeeps(s.tasks, s.sweep.expired, DEADLINE_REASON, mints);
        ReapReplays(s.tasks, s.sweep.expired, DEADLINE_REASON, mints);
      case _ =>
    }
  }

  lemma AgentEffectKeeps(boot: Agents, s: State, op: Op)
    requires Enabled(boot, s, op) && NamesAgree(s.agents) && Told(boot, s.agents, s.bus)
    ensures var (agents, events) := AgentEffect(boot, s, op);
      && NamesAgree(agents)
      && Told(boot, agents, s.bus + events)
      && forall e :: e in events ==> !AboutTasks(e)
  {
    match op {
      case DoRegister(id, name, capabilities, now) =>
        assert ToldBy(s.agents, id, Life(boot, s.bus, id));
        RegisterTold(boot, s.agents, s.bus, id, name, capabilities, now);
        if ValidName(name) && name !in s.agents.nameIndex {
          EnrolledKeepsNames(s.agents, AgentInfo(id, name, now, now, Connected, capabilities));
        }
      case DoHeartbeat(id, now) =>
        HeartbeatTold(boot, s.agents, s.bus, id, now);
        HeartbeatKeepsNames(s.agents, id, now);
      case DoDeregister(id) =>
        DeregisterTold(boot, s.agents, s.bus, id);
        DeregisterKeepsNames(s.agents, id);
      case DoOther(e) =>
        ToldOther(boot, s.agents, s.bus, e);
      case FlipStale =>
        FlipAllTold(boot, s.agents, s.bus, s.sweep.stale);
        FlipAllKeepsNames(s.agents, s.sweep.stale);
        FlipEvents(s.agents, s.sweep.stale);
      case _ =>
        ToldSilently(boot, s.agents, s.bus, s.agents);
    }
  }

  lemma StepInvariant(boot: State, s: State, op: Op)
    requires Invariant(boot, s) && Enabled(boot.agents, s, op)
    ensures Invariant(boot, Next(boot.agents, s, op))
    ensures StoreEvolves(s.tasks, Next(boot.agents, s, op).tasks)
  {
    hide Enabled, TaskEffect, AgentEffect, Told, IndexAgrees, NamesAgree, StoreEvolves, Replay, TaskEvents;
    var (tasks, taskEvents) := TaskEffect(boot.agents, s, op);
    var (agents, otherEvents) := AgentEffect(boot.agents, s, op);
    TaskEffectKeeps(boot.agents, s, op);
    AgentEffectKeeps(boot.agents, s, op);
    ReplayConcat(ViewsOf(boot.tasks), s.channel, taskEvents);
    OtherEvents(s.bus, otherEvents);
    MirroredEvents(s.bus + otherEvents, taskEvents);
    assert forall e :: e in MirrorAll(taskEvents) ==> AboutTasks(e);
    ToldTaskEvents(boot.agents, agents, s.bus + otherEvents, MirrorAll(taskEvents));
  }

  // ---- what every run keeps -------------------------------------------------------------------

  lemma {:induction false} RunInvariant(states: seq<State>, ops: seq<Op>, i: nat)
    requires Run(states, ops) && i < |states|
    ensures Invariant(states[0], states[i])
  {
    hide Enabled, Next, Invariant, Boot;
    if i == 0 {
      BootInvariant(states[0]);
    } else {
      RunInvariant(states, ops, i - 1);
      StepInvariant(states[0], states[i - 1], ops[i - 1]);
    }
  }

  /** Tasks are never lost; their histories and artifacts only grow; terminal tasks are frozen. */
  lemma {:induction false} RunEvolves(states: seq<State>, ops: seq<Op>, i: nat, j: nat)
    requires Run(states, ops) && i <= j < |states|
    ensures StoreEvolves(states[i].tasks, states[j].tasks)
    decreases j
  {
    hide Enabled, Next, Invariant, Boot, StoreEvolves;
    if i == j {
      StoreEvolvesIdle(states[i].tasks);
    } else {
      RunEvolves(states, ops, i, j - 1);
      RunInvariant(states, ops, j - 1);
      StepInvariant(states[0], states[j - 1], ops[j - 1]);
      StoreEvolvesTransitive(states[i].tasks, states[j - 1].tasks, states[j].tasks);
    }
  }

  lemma ClockStep(boot: Agents, s: State, op: Op)
    ensures Enabled(boot, s, op) ==> s.clock <= Next(boot, s, op).clock
  {
  }

  lemma {:induction false} RunClock(states: seq<State>, ops: seq<Op>, i: nat, j: nat)
    requires Run(states, ops) && i <= j < |states|
    ensures states[i].clock <= states[j].clock
    decreases j
  {
    hide Enabled, Next, Boot;
    if i < j {
      RunClock(states, ops, i, j - 1);
      ClockStep(states[0].agents, states[j - 1], ops[j - 1]);
    }
  }

  /** In every run the published task events are a legal history whose replay is the store,
      on the task channel and on the bus alike. */
  lemma EventLogIsState(states: seq<State>, ops: seq<Op>, i: nat)
    requires Run(states, ops) && i < |states|
    ensures LegalHistory(ViewsOf(states[0].tasks), states[i].channel)
    ensures Replay(ViewsOf(states[0].tasks), states[i].channel) == Some(ViewsOf(states[i].tasks))
    ensures TaskEvents(states[i].bus) == states[i].channel
  {
    hide Run;
    RunInvariant(states, ops, i);
    ReplayIffLegal(ViewsOf(states[0].tasks), states[i].channel);
  }

  /** In every run each agent's events spell a lifecycle, and the last one tells its status;
      the name index finds exactly what a search of all agents finds. */
  lemma AgentLives(states: seq<State>, ops: seq<Op>, i: nat, id: AgentId, name: string)
    requires Run(states, ops) && i < |states|
    ensures Lifecycle(Life(states[0].agents, states[i].bus, id))
    ensures ToldBy(states[i].agents, id, Life(states[0].agents, states[i].bus, id))
    ensures FindByName(states[i].agents, name).Some? <==>
      exists a :: a in states[i].agents.agents && states[i].agents.agents[a].name == name
    ensures forall a :: a in states[i].agents.agents && states[i].agents.agents[a].name == name ==>
      FindByName(states[i].agents, name) == Some(states[i].agents.agents[a])
  {
    hide Run;
    RunInvariant(states, ops, i);
    FindByNameIsSearch(states[i].agents, name);
  }
}
