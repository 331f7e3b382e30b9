/** One uninterrupted pass of the watchdog over the real stores. */
module Watchdog {
  import opened AgentStore
  import opened AgentTypes
  import opened Bus
  import opened Collections
  import opened Nexus
  import opened Reaper
  import opened Registries
  import opened TaskHistory
  import opened TaskManagers
  import opened TaskStore
  import opened TaskTypes
  import opened Uuids

  /** A wall clock that does not go back. */
  class Clock {
    var last: Timestamp

    method Now() returns (t: Timestamp)
      modifies this
      ensures t >= old(last) && last == t
    {
      t := *;
      if t < last {
        t := last;
      }
      last := t;
    }
  }

  // ---- what a pass amounts to ------------------------------------------------------------

  function Flipped(agents: map<AgentId, AgentInfo>, cutoff: Timestamp): map<AgentId, AgentInfo> {
    map id | id in agents ::
      if Stale(agents[id], cutoff) then agents[id].(status := Disconnected) else agents[id]
  }

  predicate AssignedTo(t: Task, gone: set<AgentId>) {
    t.assignee.Some? && t.assignee.value in gone
  }

  /** `after` is `before` halted once, with one message that gives `text` as the reason. */
  ghost predicate HaltedBecause(before: Task, after: Task, text: string) {
    exists mint :: after == Reaped(before, before.status.state, text, mint)
  }

  ghost predicate Abandoned(before: Task, after: Task, gone: set<AgentId>) {
    if before.Live() && AssignedTo(before, gone) then
      HaltedBecause(before, after, DisconnectReason(before.assignee.value))
    else after == before
  }

  /** Live tasks of lost agents are halted for that reason, other overdue live tasks for
      theirs, and every other task is untouched. */
  ghost predicate Swept(before: Task, after: Task, gone: set<AgentId>, now: Timestamp) {
    if before.Live() && AssignedTo(before, gone) then
      HaltedBecause(before, after, DisconnectReason(before.assignee.value))
    else if Overdue(before, now) then HaltedBecause(before, after, DEADLINE_REASON)
    else after == before
  }

  ghost predicate SweepDone(agents: Agents, agents': Agents, tasks: Store, tasks': Store, now: Timestamp,
                            timeout: nat) {
    var gone := StaleAgents(agents, now - timeout);
    && agents'.nameIndex == agents.nameIndex
    && agents'.agents == Flipped(agents.agents, now - timeout)
    && tasks'.contextIndex == tasks.contextIndex
    && tasks'.tasks.Keys == tasks.tasks.Keys
    && forall id :: id in tasks.tasks ==> Swept(tasks.tasks[id], tasks'.tasks[id], gone, now)
  }

  /** Halting always succeeds: Submitted tasks are rejected, other live tasks fail, and exactly
      one message is added to the history. */
  lemma HaltedMeans(before: Task, after: Task, text: string)
    requires before.Live() && HaltedBecause(before, after, text)
    ensures after.status.state == if before.status.state.Submitted? then Rejected else Failed
    ensures |after.history| == |before.history| + 1 && IsPrefix(before.history, after.history)
    ensures after.status.message == Some(after.history[|before.history|])
    ensures var told := after.history[|before.history|];
      told.parts == [Text(text)] && told.role.Agent? && told.metadata.None?
    ensures after == before.(status := after.status, history := after.history)
  {
  }

  predicate WasFlipped(agents: Agents, agents': Agents, id: AgentId) {
    id in agents.agents && id in agents'.agents && agents.agents[id].status != agents'.agents[id].status
  }

  /** After a pass every connected agent is fresh, no live task belongs to an agent this pass
      flipped, and no live task is overdue. */
  lemma SweepMeans(agents: Agents, agents': Agents, tasks: Store, tasks': Store, now: Timestamp, timeout: nat)
    requires SweepDone(agents, agents', tasks, tasks', now, timeout)
    ensures forall id :: id in agents'.agents && agents'.agents[id].status.Connected? ==>
      agents'.agents[id].lastHeartbeatAt >= now - timeout
    ensures forall id, a ::
      id in tasks'.tasks && tasks'.tasks[id].assignee == Some(a) && WasFlipped(agents, agents', a) ==>
      !tasks'.tasks[id].Live()
    ensures OverdueTasks(tasks', now) == {}
  {
    var gone := StaleAgents(agents, now - timeout);
    forall id | id in tasks'.tasks
      ensures !Overdue(tasks'.tasks[id], now)
      ensures tasks'.tasks[id].assignee == tasks.tasks[id].assignee
      ensures AssignedTo(tasks'.tasks[id], gone) ==> !tasks'.tasks[id].Live()
    {
      assert Swept(tasks.tasks[id], tasks'.tasks[id], gone, now);
      SweptMeans(tasks.tasks[id], tasks'.tasks[id], gone, now);
    }
    assert forall a :: WasFlipped(agents, agents', a) ==> a in gone;
  }

  lemma SweptMeans(before: Task, after: Task, gone: set<AgentId>, now: Timestamp)
    requires Swept(before, after, gone, now)
    ensures !Overdue(after, now)
    ensures after.assignee == before.assignee
    ensures AssignedTo(after, gone) ==> !after.Live()
  {
    if before.Live() && AssignedTo(before, gone) {
      HaltedMeans(before, after, DisconnectReason(before.assignee.value));
    } else if Overdue(before, now) {
      HaltedMeans(before, after, DEADLINE_REASON);
    }
  }

  /** Exactly which tasks a pass changes, and which agents: live tasks whose deadline is past or
      whose agent is connected but has been silent too long, and those agents. */
  lemma SweepChangesExactly(agents: Agents, agents': Agents, tasks: Store, tasks': Store, now: Timestamp, timeout: nat,
                            id: TaskId)
    requires SweepDone(agents, agents', tasks, tasks', now, timeout) && id in tasks.tasks
    ensures var t := tasks.tasks[id];
      tasks'.tasks[id] != t <==>
        && t.status.state in {Submitted, Working, InputRequired, AuthRequired}
        && ((t.deadline.Some? && t.deadline.value < now)
            || (t.assignee.Some? && t.assignee.value in agents.agents
                && agents.agents[t.assignee.value].status == Connected
                && agents.agents[t.assignee.value].lastHeartbeatAt < now - timeout))
    ensures forall a :: a in agents.agents ==>
      a in agents'.agents &&
      agents'.agents[a] == if agents.agents[a].status == Connected && agents.agents[a].lastHeartbeatAt < now - timeout
        then agents.agents[a].(status := Disconnected) else agents.agents[a]
  {
    var t := tasks.tasks[id];
    var gone := StaleAgents(agents, now - timeout);
    assert Swept(t, tasks'.tasks[id], gone, now);
    if t.Live() && AssignedTo(t, gone) {
      HaltedMeans(t, tasks'.tasks[id], DisconnectReason(t.assignee.value));
    } else if Overdue(t, now) {
      HaltedMeans(t, tasks'.tasks[id], DEADLINE_REASON);
    }
  }

  /** What a halted task is told: that its deadline is past, or which agent it lost. */
  lemma SweepTells(before: Task, after: Task, gone: set<AgentId>, now: Timestamp)
    requires Swept(before, after, gone, now) && after != before
    ensures |after.history| == |before.history| + 1 && |after.history[|before.history|].parts| == 1
    ensures var told := after.history[|before.history|].parts[0];
      if AssignedTo(before, gone) then
        exists agent :: told == Text("assignee " + agent + " disconnected") && Small(agent) == agent
                        && Parse(agent) == Some(before.assignee.value.uuid)
      else told == Text("task deadline exceeded")
  {
    if before.Live() && AssignedTo(before, gone) {
      HaltedMeans(before, after, DisconnectReason(before.assignee.value));
      RenderParses(before.assignee.value.uuid);
      ParsesExactly(Render(before.assignee.value.uuid), before.assignee.value.uuid);
    } else {
      HaltedMeans(before, after, DEADLINE_REASON);
    }
  }

  // ---- the pass ----------------------------------------------------------------------------

  /** A batch of one more target. */
  lemma ReapNext(s: Store, targets: seq<(TaskId, TaskState)>, i: nat, text: string, mints: seq<Mint>, mint: Mint)
    requires |mints| == i < |targets|
    ensures var b := Reap(s, targets[..i], text, mints);
      var c := UpdateStatus(b.store, targets[i].0, ReapTarget(targets[i].1), Some(ReapReason(mint, text)), mint.at);
      Reap(s, targets[..i + 1], text, mints + [mint]) ==
        Batch(c.store, b.events + c.events, b.errors + if c.result.Err? then [c.result.error] else [])
  {
    assert targets[..i + 1][..i] == targets[..i] && (mints + [mint])[..i] == mints;
  }

  lemma MirrorConcat(channel: seq<TaskEvent>, log: seq<Event>, a: seq<TaskEvent>, b: seq<TaskEvent>)
    ensures channel + a + b == channel + (a + b)
    ensures log + MirrorAll(a) + MirrorAll(b) == log + MirrorAll(a + b)
  {
    assert MirrorAll(a + b) == MirrorAll(a) + MirrorAll(b);
  }

  /** `events` are halts, and replaying them moves the one store's views to the other's. */
  ghost predicate HaltLog(before: Store, events: seq<TaskEvent>, after: Store) {
    && (forall e :: e in events ==> IsHalt(e))
    && Replay(ViewsOf(before), events) == Some(ViewsOf(after))
  }

  lemma HaltLogConcat(a: Store, x: seq<TaskEvent>, b: Store, y: seq<TaskEvent>, c: Store)
    requires HaltLog(a, x, b) && HaltLog(b, y, c)
    ensures HaltLog(a, x + y, c)
  {
    ReplayConcat(ViewsOf(a), x, y);
  }

  /** A batch of live tasks by their present states is a log of halts. */
  lemma ListedHaltLog(s: Store, hit: seq<Task>, text: string, mints: seq<Mint>)
    requires |mints| == |hit| && NoDuplicates(hit)
    requires forall t :: t in hit ==> t.id in s.tasks && s.tasks[t.id] == t && t.Live()
    ensures var b := Reap(s, Targets(hit), text, mints); HaltLog(s, b.events, b.store)
  {
    var targets := Targets(hit);
    assert forall i :: 0 <= i < |hit| ==> hit[i] in hit;
    ReapCurrent(s, targets, text, mints);
    ReapReplays(s, targets, text, mints);
  }

  /** One update of a batch; a refusal is logged and otherwise ignored. */
  method HaltOne(manager: TaskManager, clock: Clock, targets: seq<(TaskId, TaskState)>, i: nat, text: string,
                 ghost start: Store, ghost mints: seq<Mint>)
    returns (refusal: nat, ghost mint: Mint, ghost events: seq<TaskEvent>)
    requires manager.Valid() && |mints| == i < |targets|
    requires manager.Contents() == Reap(start, targets[..i], text, mints).store
    modifies manager, manager.bus, clock
    ensures manager.Valid() && clock.last >= old(clock.last)
    ensures var b := Reap(start, targets[..i], text, mints);
      var b' := Reap(start, targets[..i + 1], text, mints + [mint]);
      && manager.Contents() == b'.store && |b'.errors| == |b.errors| + refusal
      && b'.events == b.events + events
      && manager.channel == old(manager.channel) + events
      && manager.bus.log == old(manager.bus.log) + MirrorAll(events)
  {
    var (taskId, current) := targets[i];
    var target := if current == Submitted then Rejected else Failed;
    var messageId: MessageId := *;
    var at := clock.Now();
    mint := Mint(messageId, at);
    ReapNext(start, targets, i, text, mints, mint);
    events := UpdateStatus(manager.Contents(), taskId, target, Some(ReapReason(mint, text)), at).events;
    var r := manager.UpdateTaskStatus(taskId, target, Some(TaskMessage(messageId, Agent, [Text(text)], None)), at);
    refusal := if r.Err? then 1 else 0;
  }

  /** Update every target in turn; `refused` counts the updates that err. */
  method HaltAll(manager: TaskManager, clock: Clock, targets: seq<(TaskId, TaskState)>, text: string)
    returns (refused: nat, ghost mints: seq<Mint>)
    requires manager.Valid()
    modifies manager, manager.bus, clock
    ensures manager.Valid() && |mints| == |targets| && clock.last >= old(clock.last)
    ensures var b := Reap(old(manager.Contents()), targets, text, mints);
      && manager.Contents() == b.store && refused == |b.errors|
      && manager.channel == old(manager.channel) + b.events
      && manager.bus.log == old(manager.bus.log) + MirrorAll(b.events)
  {
    refused, mints := 0, [];
    ghost var start, channel, log := manager.Contents(), manager.channel, manager.bus.log;
    ghost var published: seq<TaskEvent> := [];
    for i := 0 to |targets|
      invariant manager.Valid() && |mints| == i && clock.last >= old(clock.last)
      invariant manager.Contents() == Reap(start, targets[..i], text, mints).store
      invariant refused == |Reap(start, targets[..i], text, mints).errors|
      invariant published == Reap(start, targets[..i], text, mints).events
      invariant manager.channel == channel + published
      invariant manager.bus.log == log + MirrorAll(published)
    {
      ghost var mint, events;
      var refusal;
      refusal, mint, events := HaltOne(manager, clock, targets, i, text, start, mints);
      refused := refused + refusal;
      MirrorConcat(channel, log, published, events);
      mints, published := mints + [mint], published + events;
    }
    assert targets[..|targets|] == targets;
  }

  function Targets(tasks: seq<Task>): seq<(TaskId, TaskState)> {
    seq(|tasks|, i requires 0 <= i < |tasks| => (tasks[i].id, tasks[i].status.state))
  }

  /** Halting a list of live tasks, read in the same state, never errs and halts exactly those. */
  lemma HaltListed(s: Store, hit: seq<Task>, text: string, mints: seq<Mint>)
    requires |mints| == |hit| && NoDuplicates(hit)
    requires forall t :: t in hit ==> t.id in s.tasks && s.tasks[t.id] == t && t.Live()
    ensures var b := Reap(s, Targets(hit), text, mints);
      && b.errors == []
      && b.store.contextIndex == s.contextIndex
      && b.store.tasks.Keys == s.tasks.Keys
      && forall id :: id in s.tasks ==>
           if s.tasks[id] in hit && s.tasks[id].id == id then HaltedBecause(s.tasks[id], b.store.tasks[id], text)
           else b.store.tasks[id] == s.tasks[id]
  {
    var targets := Targets(hit);
    assert forall i :: 0 <= i < |hit| ==> hit[i] in hit;
    ReapFrame(s, targets, text, mints);
    ReapCurrent(s, targets, text, mints);
    var b := Reap(s, targets, text, mints);
    forall id | id in s.tasks
      ensures if s.tasks[id] in hit && s.tasks[id].id == id then HaltedBecause(s.tasks[id], b.store.tasks[id], text)
              else b.store.tasks[id] == s.tasks[id]
    {
      if s.tasks[id] in hit && s.tasks[id].id == id {
        var k :| 0 <= k < |hit| && hit[k] == s.tasks[id];
        ReapAt(s, targets, text, mints, k);
      } else {
        assert !IsTarget(id, targets);
        ReapUntouched(s, targets, text, mints, id);
      }
    }
  }

  function LiveOnly(tasks: seq<Task>): (r: seq<Task>)
    ensures forall t :: t in r <==> t in tasks && t.Live()
    ensures NoDuplicates(tasks) ==> NoDuplicates(r)
  {
    if tasks == [] then []
    else
      var n := |tasks| - 1;
      assert tasks == tasks[..n] + [tasks[n]];
      LiveOnly(tasks[..n]) + if tasks[n].Live() then [tasks[n]] else []
  }

  /** Phase 3 for one agent: one lock, read and update. */
  method HaltTasksOf(manager: TaskManager, clock: Clock, agent: AgentId)
    returns (refused: nat, ghost events: seq<TaskEvent>)
    requires manager.Valid()
    modifies manager, manager.bus, clock
    ensures manager.Valid() && refused == 0 && clock.last >= old(clock.last)
    ensures manager.contextIndex == old(manager.contextIndex) && manager.tasks.Keys == old(manager.tasks).Keys
    ensures forall id :: id in manager.tasks ==> Abandoned(old(manager.tasks)[id], manager.tasks[id], {agent})
    ensures HaltLog(old(manager.Contents()), events, manager.Contents())
    ensures manager.channel == old(manager.channel) + events
    ensures manager.bus.log == old(manager.bus.log) + MirrorAll(events)
  {
    hide Reap, HaltLog, ViewsOf, HaltedBecause, NoDuplicates;
    var listed := manager.ListFiltered(TaskFilter(None, None, Some(agent)));
    var inFlight := LiveOnly(listed);
    ghost var mints;
    refused, mints := HaltAll(manager, clock, Targets(inFlight), DisconnectReason(agent));
    HaltListed(old(manager.Contents()), inFlight, DisconnectReason(agent), mints);
    ListedHaltLog(old(manager.Contents()), inFlight, DisconnectReason(agent), mints);
    events := Reap(old(manager.Contents()), Targets(inFlight), DisconnectReason(agent), mints).events;
  }

  function StaleOnly(infos: seq<AgentInfo>, cutoff: Timestamp): seq<AgentId> {
    if infos == [] then []
    else
      var info := infos[|infos| - 1];
      StaleOnly(infos[..|infos| - 1], cutoff) + if Stale(info, cutoff) then [info.id] else []
  }

  lemma {:induction false} StaleOnlyMember(infos: seq<AgentInfo>, cutoff: Timestamp, id: AgentId)
    ensures id in StaleOnly(infos, cutoff) <==>
      exists i :: 0 <= i < |infos| && infos[i].id == id && Stale(infos[i], cutoff)
  {
    if infos != [] {
      var n := |infos| - 1;
      StaleOnlyMember(infos[..n], cutoff, id);
      if i :| 0 <= i < n && infos[i].id == id && Stale(infos[i], cutoff) {
        assert infos[..n][i] == infos[i];
      }
    }
  }

  /** Phase 1 finds exactly the stale agents. */
  method CollectStaleAgents(registry: AgentRegistry, cutoff: Timestamp) returns (ids: seq<AgentId>)
    requires registry.Valid()
    ensures Elements(ids) == StaleAgents(registry.Contents(), cutoff)
  {
    var infos := registry.List();
    ids := StaleOnly(infos, cutoff);
    forall id
      ensures id in ids <==> id in StaleAgents(registry.Contents(), cutoff)
    {
      StaleOnlyMember(infos, cutoff, id);
      if id in registry.agents {
        assert registry.agents[id] in infos;
      }
    }
  }

  lemma FlipNext(s: Agents, ids: seq<AgentId>, i: nat)
    requires i < |ids|
    ensures var (before, events) := FlipAll(s, ids[..i]);
      var c := MarkDisconnected(before, ids[i]);
      FlipAll(s, ids[..i + 1]) == (c.store, events + c.events)
  {
    assert ids[..i + 1][..i] == ids[..i];
  }

  /** Phase 2. */
  method FlipAllStale(registry: AgentRegistry, ids: seq<AgentId>)
    requires registry.Valid()
    modifies registry, registry.bus
    ensures registry.Valid()
    ensures registry.Contents() == FlipAll(old(registry.Contents()), ids).0
    ensures registry.bus.log == old(registry.bus.log) + FlipAll(old(registry.Contents()), ids).1
  {
    ghost var start, log := registry.Contents(), registry.bus.log;
    for i := 0 to |ids|
      invariant registry.Valid()
      invariant registry.Contents() == FlipAll(start, ids[..i]).0
      invariant registry.bus.log == log + FlipAll(start, ids[..i]).1
    {
      FlipNext(start, ids, i);
      var flipped := registry.FlipToDisconnected(ids[i]);
    }
    assert ids[..|ids|] == ids;
  }

  lemma AbandonedNext(t0: Task, t1: Task, t2: Task, gone: set<AgentId>, agent: AgentId)
    requires Abandoned(t0, t1, gone) && Abandoned(t1, t2, {agent})
    ensures Abandoned(t0, t2, gone + {agent})
  {
    if t0.Live() && AssignedTo(t0, gone) {
      HaltedMeans(t0, t1, DisconnectReason(t0.assignee.value));
    }
  }

  /** Phase 3: the in-flight tasks of each lost agent, one lock per agent. */
  method HaltTasksOfAll(manager: TaskManager, clock: Clock, ids: seq<AgentId>)
    returns (refused: nat, ghost published: seq<TaskEvent>)
    requires manager.Valid()
    modifies manager, manager.bus, clock
    ensures manager.Valid() && refused == 0
    ensures manager.contextIndex == old(manager.contextIndex) && manager.tasks.Keys == old(manager.tasks).Keys
    ensures forall id :: id in manager.tasks ==> Abandoned(old(manager.tasks)[id], manager.tasks[id], Elements(ids))
    ensures HaltLog(old(manager.Contents()), published, manager.Contents())
    ensures manager.channel == old(manager.channel) + published
    ensures manager.bus.log == old(manager.bus.log) + MirrorAll(published)
  {
    refused, published := 0, [];
    ghost var start, channel, log := manager.Contents(), manager.channel, manager.bus.log;
    for i := 0 to |ids|
      invariant manager.Valid() && refused == 0
      invariant manager.contextIndex == start.contextIndex && manager.tasks.Keys == start.tasks.Keys
      invariant forall id :: id in manager.tasks ==> Abandoned(start.tasks[id], manager.tasks[id], Elements(ids[..i]))
      invariant HaltLog(start, published, manager.Contents())
      invariant manager.channel == channel + published
      invariant manager.bus.log == log + MirrorAll(published)
    {
      ghost var before, middle := manager.tasks, manager.Contents();
      ghost var events;
      var more;
      more, events := HaltTasksOf(manager, clock, ids[i]);
      refused := refused + more;
      MirrorConcat(channel, log, published, events);
      HaltLogConcat(start, published, middle, events, manager.Contents());
      published := published + events;
      assert Elements(ids[..i + 1]) == Elements(ids[..i]) + {ids[i]} by {
        assert ids[..i + 1] == ids[..i] + [ids[i]];
      }
      forall id | id in manager.tasks
        ensures Abandoned(start.tasks[id], manager.tasks[id], Elements(ids[..i + 1]))
      {
        AbandonedNext(start.tasks[id], before[id], manager.tasks[id], Elements(ids[..i]), ids[i]);
      }
    }
    assert ids[..|ids|] == ids;
  }

  function OverdueOnly(tasks: seq<Task>, now: Timestamp): (r: seq<Task>)
    ensures forall t :: t in r <==> t in tasks && Overdue(t, now)
    ensures NoDuplicates(tasks) ==> NoDuplicates(r)
  {
    if tasks == [] then []
    else
      var n := |tasks| - 1;
      assert tasks == tasks[..n] + [tasks[n]];
      OverdueOnly(tasks[..n], now) + if Overdue(tasks[n], now) then [tasks[n]] else []
  }

  ghost predicate Expired(before: Task, after: Task, now: Timestamp) {
    if Overdue(before, now) then HaltedBecause(before, after, DEADLINE_REASON) else after == before
  }

  /** Phase 4. */
  method HaltOverdue(manager: TaskManager, clock: Clock, now: Timestamp)
    returns (refused: nat, ghost events: seq<TaskEvent>)
    requires manager.Valid()
    modifies manager, manager.bus, clock
    ensures manager.Valid() && refused == 0
    ensures manager.contextIndex == old(manager.contextIndex) && manager.tasks.Keys == old(manager.tasks).Keys
    ensures forall id :: id in manager.tasks ==> Expired(old(manager.tasks)[id], manager.tasks[id], now)
    ensures HaltLog(old(manager.Contents()), events, manager.Contents())
    ensures manager.channel == old(manager.channel) + events
    ensures manager.bus.log == old(manager.bus.log) + MirrorAll(events)
  {
    var listed := manager.List();
    var expired := OverdueOnly(listed, now);
    ghost var mints;
    refused, mints := HaltAll(manager, clock, Targets(expired), DEADLINE_REASON);
    HaltListed(old(manager.Contents()), expired, DEADLINE_REASON, mints);
    ListedHaltLog(old(manager.Contents()), expired, DEADLINE_REASON, mints);
    events := Reap(old(manager.Contents()), Targets(expired), DEADLINE_REASON, mints).events;
  }

  lemma SweptFrom(t0: Task, t1: Task, t2: Task, gone: set<AgentId>, now: Timestamp)
    requires Abandoned(t0, t1, gone) && Expired(t1, t2, now)
    ensures Swept(t0, t2, gone, now)
  {
    if t0.Live() && AssignedTo(t0, gone) {
      HaltedMeans(t0, t1, DisconnectReason(t0.assignee.value));
    }
  }

  lemma FlippedStale(agents: Agents, ids: seq<AgentId>, cutoff: Timestamp)
    requires Elements(ids) == StaleAgents(agents, cutoff)
    ensures FlipAll(agents, ids).0 == Agents(Flipped(agents.agents, cutoff), agents.nameIndex)
    ensures NamesAgree(agents) ==> FlipsTold(agents, StaleAgents(agents, cutoff), FlipAll(agents, ids).1)
  {
    FlipAllEffect(agents, ids);
    assert forall id :: id in agents.agents ==> (id in ids <==> id in Elements(ids));
    assert forall id :: id in agents.agents && id in ids ==> agents.agents[id].status.Connected?;
    assert FlipAll(agents, ids).0.agents == Flipped(agents.agents, cutoff);
    if NamesAgree(agents) {
      FlipAllTells(agents, ids);
      assert ConnectedOf(agents, ids) == StaleAgents(agents, cutoff);
    }
  }

  lemma EmptyHaltLog(s: Store)
    ensures HaltLog(s, [], s)
  {
  }

  /** Phases 1 to 3. */
  method DropStale(registry: AgentRegistry, manager: TaskManager, clock: Clock, cutoff: Timestamp)
    returns (refused: nat, ghost flips: seq<Event>, ghost halts: seq<TaskEvent>)
    requires registry.Valid() && manager.Valid() && registry.bus == manager.bus
    modifies registry, manager, manager.bus, clock
    ensures registry.Valid() && manager.Valid() && refused == 0
    ensures registry.agents == Flipped(old(registry.agents), cutoff) && registry.nameIndex == old(registry.nameIndex)
    ensures manager.contextIndex == old(manager.contextIndex) && manager.tasks.Keys == old(manager.tasks).Keys
    ensures forall id :: id in manager.tasks ==>
      Abandoned(old(manager.tasks)[id], manager.tasks[id], StaleAgents(old(registry.Contents()), cutoff))
    ensures FlipsTold(old(registry.Contents()), StaleAgents(old(registry.Contents()), cutoff), flips)
    ensures HaltLog(old(manager.Contents()), halts, manager.Contents())
    ensures manager.channel == old(manager.channel) + halts
    ensures manager.bus.log == old(manager.bus.log) + flips + MirrorAll(halts)
  {
    var staleIds := CollectStaleAgents(registry, cutoff);
    refused, flips, halts := 0, [], [];
    FlippedStale(registry.Contents(), staleIds, cutoff);
    EmptyHaltLog(manager.Contents());
    if staleIds != [] {
      FlipAllStale(registry, staleIds);
      flips := FlipAll(old(registry.Contents()), staleIds).1;
      refused, halts := HaltTasksOfAll(manager, clock, staleIds);
    }
  }

  /** A pass with nothing in between: what it does to both stores, that no update errs, and what
      it publishes: each flipped agent's loss, once, and then each halted task's change, once. */
  method Sweep(registry: AgentRegistry, manager: TaskManager, clock: Clock, timeout: nat)
    returns (now: Timestamp, refused: nat, ghost flips: seq<Event>, ghost halts: seq<TaskEvent>)
    requires registry.Valid() && manager.Valid() && registry.bus == manager.bus
    modifies registry, manager, manager.bus, clock
    ensures registry.Valid() && manager.Valid()
    ensures now >= old(clock.last) && refused == 0
    ensures SweepDone(old(registry.Contents()), registry.Contents(), old(manager.Contents()), manager.Contents(),
                      now, timeout)
    ensures FlipsTold(old(registry.Contents()), StaleAgents(old(registry.Contents()), now - timeout), flips)
    ensures HaltsTold(ViewsOf(old(manager.Contents())), ViewsOf(manager.Contents()), halts)
    ensures manager.channel == old(manager.channel) + halts
    ensures manager.bus.log == old(manager.bus.log) + flips + MirrorAll(halts)
  {
    hide Abandoned, Expired, Swept, Replay, HaltsTold, Flipped, FlipsTold;
    hide StaleAgents, ViewsOf, IndexAgrees, NamesAgree;
    now := clock.Now();
    ghost var agents, tasks := registry.Contents(), manager.Contents();
    ghost var channel, log := manager.channel, manager.bus.log;
    refused, flips, halts := DropStale(registry, manager, clock, now - timeout);
    ghost var before, middle := manager.tasks, manager.Contents();
    ghost var events;
    var more;
    more, events := HaltOverdue(manager, clock, now);
    refused := refused + more;
    HaltLogConcat(tasks, halts, middle, events, manager.Contents());
    MirrorConcat(channel, log + flips, halts, events);
    halts := halts + events;
    HaltsTellAll(ViewsOf(tasks), halts);
    forall id | id in tasks.tasks
      ensures Swept(tasks.tasks[id], manager.tasks[id], StaleAgents(agents, now - timeout), now)
    {
      SweptFrom(tasks.tasks[id], before[id], manager.tasks[id], StaleAgents(agents, now - timeout), now);
    }
  }
}
