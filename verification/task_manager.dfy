/** The task manager: two maps updated in place, and two channels it publishes to. */
module TaskManagers {
  import opened Bus
  import opened Collections
  import opened Json
  import opened TaskStore
  import opened TaskTypes
  import opened Uuids

  /** `r` is the matching tasks, each once, in some order. */
  ghost predicate ListsMatching(r: seq<Task>, s: Store, filter: TaskFilter) {
    && NoDuplicates(r)
    && forall t :: t in r <==>
         && t.id in s.tasks && s.tasks[t.id] == t
         && (filter.contextId.Some? ==> t.contextId == filter.contextId.value)
         && (filter.state.Some? ==> t.status.state == filter.state.value)
         && (filter.assignee.Some? ==> t.assignee == filter.assignee)
  }

  class TaskManager {
    var tasks: map<TaskId, Task>
    var contextIndex: map<ContextId, seq<TaskId>>
    const bus: MessageBus
    var channel: seq<TaskEvent>

    function Contents(): Store
      reads this
    {
      Store(tasks, contextIndex)
    }

    ghost predicate Valid()
      reads this
    {
      IndexAgrees(Contents())
    }

    constructor (bus: MessageBus)
      ensures Valid() && Contents() == EMPTY_STORE && channel == [] && this.bus == bus
    {
      tasks, contextIndex, channel := map[], map[], [];
      this.bus := bus;
    }

    /** Mirror to the global bus, then send on the task channel. */
    method PublishEvent(event: TaskEvent)
      modifies this`channel, bus
      ensures channel == old(channel) + [event]
      ensures bus.log == old(bus.log) + MirrorAll([event])
    {
      assert MirrorAll([event]) == [Mirror(event)];
      bus.Publish(Mirror(event));
      channel := channel + [event];
    }

    /** `id`, `freshContext` and `now` are what the id generator and the clock return. */
    method CreateTaskWithDeadline(id: TaskId, freshContext: ContextId, now: Timestamp,
                                  message: TaskMessage, contextId: Option<ContextId>, assignee: Option<AgentId>,
                                  creator: Option<AgentId>, metadata: Option<Json>, deadline: Option<Timestamp>)
      returns (r: Result<Task, TaskError>)
      requires Valid()
      modifies this, bus
      ensures var context := if contextId.Some? then contextId.value else freshContext;
        var t := NewTask(id, context, message, assignee, creator, metadata, deadline, now);
        var c := Create(old(Contents()), t);
        && Contents() == c.store && r == c.result
        && channel == old(channel) + c.events && bus.log == old(bus.log) + MirrorAll(c.events)
      ensures r == Ok(Task(id, if contextId.Some? then contextId.value else freshContext,
                           TaskStatus(Submitted, Some(message), now), [], [message],
                           metadata, assignee, creator, deadline))
      ensures id !in old(tasks) ==> Valid()
    {
      var context := if contextId.Some? then contextId.value else freshContext;
      var task := Task(id, context, TaskStatus(Submitted, Some(message), now), [], [message],
                       metadata, assignee, creator, deadline);
      if id !in tasks {
        IndexedKeepsIndex(Contents(), task);
      }
      var entry := if context in contextIndex then contextIndex[context] else [];
      contextIndex := contextIndex[context := entry + [id]];
      tasks := tasks[id := task];
      PublishEvent(Created(task));
      r := Ok(task);
    }

    method UpdateTaskStatus(taskId: TaskId, newState: TaskState, message: Option<TaskMessage>, now: Timestamp)
      returns (r: Result<Task, TaskError>)
      requires Valid()
      modifies this, bus
      ensures var c := UpdateStatus(old(Contents()), taskId, newState, message, now);
        && Contents() == c.store && r == c.result
        && channel == old(channel) + c.events && bus.log == old(bus.log) + MirrorAll(c.events)
      ensures Valid()
    {
      if taskId !in tasks {
        return Err(TaskNotFound(taskId));
      }
      var task := tasks[taskId];
      var oldState := task.status.state;
      if oldState.IsTerminal() {
        return Err(TaskAlreadyTerminal(taskId, oldState));
      }
      if !oldState.CanTransitionTo(newState) {
        return Err(TaskInvalidTransition(taskId, oldState, newState));
      }
      UpdateStatusKeepsIndex(Contents(), taskId, newState, message, now);
      task := task.(status := TaskStatus(newState, message, now));
      if message.Some? {
        task := task.(history := task.history + [message.value]);
      }
      tasks := tasks[taskId := task];
      PublishEvent(StatusChanged(taskId, oldState, newState));
      r := Ok(task);
    }

    method AddTaskArtifact(taskId: TaskId, artifact: Artifact) returns (r: Result<Task, TaskError>)
      requires Valid()
      modifies this, bus
      ensures var c := AddArtifact(old(Contents()), taskId, artifact);
        && Contents() == c.store && r == c.result
        && channel == old(channel) + c.events && bus.log == old(bus.log) + MirrorAll(c.events)
      ensures Valid()
    {
      if taskId !in tasks {
        return Err(TaskNotFound(taskId));
      }
      var task := tasks[taskId];
      if task.status.state.IsTerminal() {
        return Err(TaskAlreadyTerminal(taskId, task.status.state));
      }
      task := task.(artifacts := task.artifacts + [artifact]);
      tasks := tasks[taskId := task];
      PublishEvent(ArtifactAdded(taskId, artifact.id));
      r := Ok(task);
    }

    method Cancel(taskId: TaskId, message: Option<TaskMessage>, now: Timestamp) returns (r: Result<Task, TaskError>)
      requires Valid()
      modifies this, bus
      ensures var c := UpdateStatus(old(Contents()), taskId, Canceled, message, now);
        && Contents() == c.store && r == c.result
        && channel == old(channel) + c.events && bus.log == old(bus.log) + MirrorAll(c.events)
      ensures Valid()
    {
      r := UpdateTaskStatus(taskId, Canceled, message, now);
    }

    /** All tasks, in the map's order. */
    method List() returns (r: seq<Task>)
      requires Valid()
      ensures NoDuplicates(r) && DistinctIds(r)
      ensures forall t :: t in r <==> t.id in tasks && tasks[t.id] == t
    {
      var order := ListKeys(tasks);
      assert Elements(order) == tasks.Keys;
      r := [];
      for i := 0 to |order|
        invariant |r| == i
        invariant forall k :: 0 <= k < i ==> order[k] in tasks && r[k] == tasks[order[k]]
      {
        assert order[i] in Elements(order);
        r := r + [tasks[order[i]]];
      }
      forall t: Task | t.id in tasks && tasks[t.id] == t
        ensures t in r
      {
        assert t.id in Elements(order);
        var k :| 0 <= k < |order| && order[k] == t.id;
        assert r[k] == t;
      }
    }

    /** The candidates of a filter: the context's entry when a context is named, all tasks otherwise. */
    method Candidates(filter: TaskFilter) returns (r: seq<Task>)
      requires Valid()
      ensures NoDuplicates(r)
      ensures forall t :: t in r <==>
        t.id in tasks && tasks[t.id] == t && (filter.contextId.Some? ==> t.contextId == filter.contextId.value)
    {
      if filter.contextId.None? {
        r := List();
        return;
      }
      var ids := if filter.contextId.value in contextIndex then contextIndex[filter.contextId.value] else [];
      r := [];
      ghost var context := filter.contextId.value;
      assert ids == IndexEntry(Contents(), context);
      for i := 0 to |ids|
        invariant |r| == i
        invariant forall k :: 0 <= k < i ==> ids[k] in tasks && r[k] == tasks[ids[k]]
      {
        assert ids[i] in ids;
        // Ids without a task would be skipped here; the index holds none.
        if ids[i] in tasks {
          r := r + [tasks[ids[i]]];
        }
      }
      forall t: Task | t.id in tasks && tasks[t.id] == t && t.contextId == context
        ensures t in r
      {
        assert t.id in ids;
        var k :| 0 <= k < |ids| && ids[k] == t.id;
        assert r[k] == t;
      }
      forall t: Task | t in r
        ensures t.id in tasks && tasks[t.id] == t && t.contextId == context
      {
        var k :| 0 <= k < |r| && r[k] == t;
        assert ids[k] in ids;
      }
    }

    /** The context index gives the same answer as a scan of every task against the whole filter. */
    method ListFiltered(filter: TaskFilter) returns (r: seq<Task>)
      requires Valid()
      ensures ListsMatching(r, Contents(), filter)
    {
      var candidates := Candidates(filter);
      r := [];
      for i := 0 to |candidates|
        invariant NoDuplicates(r)
        invariant forall t :: t in r <==> t in candidates[..i] && filter.MatchesStateAndAssignee(t)
      {
        ListingPrefix(candidates, i);
        assert candidates[..i + 1] == candidates[..i] + [candidates[i]];
        if filter.MatchesStateAndAssignee(candidates[i]) {
          r := r + [candidates[i]];
        }
      }
      assert candidates[..|candidates|] == candidates;
    }

    method TasksForAgent(agentId: AgentId) returns (r: seq<Task>)
      requires Valid()
      ensures NoDuplicates(r)
      ensures forall t :: t in r <==> t.id in tasks && tasks[t.id] == t && t.assignee == Some(agentId) && t.Live()
    {
      var all := List();
      r := [];
      for i := 0 to |all|
        invariant NoDuplicates(r)
        invariant forall t :: t in r <==> t in all[..i] && t.assignee == Some(agentId) && t.Live()
      {
        ListingPrefix(all, i);
        assert all[..i + 1] == all[..i] + [all[i]];
        if all[i].assignee == Some(agentId) && all[i].Live() {
          r := r + [all[i]];
        }
      }
      assert all[..|all|] == all;
    }

    /** Repopulate from a snapshot; nothing is published. */
    method Restore(saved: seq<Task>)
      modifies this`tasks, this`contextIndex
      ensures Contents() == Restored(saved)
      ensures DistinctIds(saved) ==> Valid()
    {
      tasks, contextIndex := map[], map[];
      for i := 0 to |saved|
        invariant Contents() == Restored(saved[..i])
      {
        assert saved[..i + 1][..i] == saved[..i];
        var task := saved[i];
        var entry := if task.contextId in contextIndex then contextIndex[task.contextId] else [];
        contextIndex := contextIndex[task.contextId := entry + [task.id]];
        tasks := tasks[task.id := task];
      }
      assert saved[..|saved|] == saved;
      if DistinctIds(saved) {
        RestoredKeepsIndex(saved);
      }
    }
  }
}
