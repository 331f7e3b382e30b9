/** What the task manager's operations do to its two maps, and the events they publish. */
module TaskStore {
  import opened Bus
  import opened Collections
  import opened Json
  import opened TaskTypes
  import opened Uuids

  /** Events of the task-scoped channel. */
  datatype TaskEvent =
    | Created(task: Task)
    | StatusChanged(taskId: TaskId, oldState: TaskState, newState: TaskState)
    | ArtifactAdded(taskId: TaskId, artifactId: ArtifactId)
  {
    function Subject(): TaskId {
      match this
      case Created(t) => t.id
      case StatusChanged(id, _, _) => id
      case ArtifactAdded(id, _) => id
    }
  }

  /** The copy of a task event that goes to the global bus. */
  function Mirror(e: TaskEvent): Event {
    match e
    case Created(t) => TaskCreated(t)
    case StatusChanged(id, o, n) => TaskStatusChanged(id, o, n)
    case ArtifactAdded(id, a) => TaskArtifactAdded(id, a)
  }

  function MirrorAll(events: seq<TaskEvent>): seq<Event> {
    seq(|events|, i requires 0 <= i < |events| => Mirror(events[i]))
  }

  datatype TaskError =
    | TaskNotFound(id: TaskId)
    | TaskAlreadyTerminal(id: TaskId, state: TaskState)
    | TaskInvalidTransition(id: TaskId, from: TaskState, to: TaskState)

  datatype Store = Store(tasks: map<TaskId, Task>, contextIndex: map<ContextId, seq<TaskId>>)

  const EMPTY_STORE := Store(map[], map[])

  /** The outcome of one operation under the write lock. */
  datatype Change = Change(store: Store, events: seq<TaskEvent>, result: Result<Task, TaskError>)

  // ---- operations -------------------------------------------------------------

  function IndexEntry(s: Store, context: ContextId): seq<TaskId> {
    if context in s.contextIndex then s.contextIndex[context] else []
  }

  function Indexed(s: Store, t: Task): Store {
    Store(s.tasks[t.id := t], s.contextIndex[t.contextId := IndexEntry(s, t.contextId) + [t.id]])
  }

  function NewTask(id: TaskId, context: ContextId, message: TaskMessage, assignee: Option<AgentId>,
                   creator: Option<AgentId>, metadata: Option<Json>, deadline: Option<Timestamp>,
                   now: Timestamp): Task
  {
    Task(id, context, TaskStatus(Submitted, Some(message), now), [], [message], metadata, assignee, creator, deadline)
  }

  function Create(s: Store, t: Task): Change {
    Change(Indexed(s, t), [Created(t)], Ok(t))
  }

  function WithStatus(t: Task, state: TaskState, message: Option<TaskMessage>, now: Timestamp): Task {
    t.(status := TaskStatus(state, message, now),
       history := if message.Some? then t.history + [message.value] else t.history)
  }

  /** The checks of a status update, in the order they are made. */
  function StatusRefusal(s: Store, id: TaskId, state: TaskState): Option<TaskError> {
    if id !in s.tasks then Some(TaskNotFound(id))
    else if s.tasks[id].status.state.IsTerminal() then Some(TaskAlreadyTerminal(id, s.tasks[id].status.state))
    else if !s.tasks[id].status.state.CanTransitionTo(state) then
      Some(TaskInvalidTransition(id, s.tasks[id].status.state, state))
    else None
  }

  /** An update is accepted exactly along the edges, and refused for the first reason that applies:
      no such task, no edge leaves its state, no edge leads to the new one. */
  lemma AcceptedExactly(s: Store, id: TaskId, state: TaskState, message: Option<TaskMessage>, now: Timestamp)
    ensures var r := UpdateStatus(s, id, state, message, now).result;
      && (r.Ok? <==> id in s.tasks && IsEdge(s.tasks[id].status.state, state))
      && (id !in s.tasks ==> r == Err(TaskNotFound(id)))
      && (id in s.tasks ==>
            var from := s.tasks[id].status.state;
            && ((forall to :: !IsEdge(from, to)) ==> r == Err(TaskAlreadyTerminal(id, from)))
            && ((exists to :: IsEdge(from, to)) && !IsEdge(from, state) ==>
                  r == Err(TaskInvalidTransition(id, from, state))))
  {
    if id in s.tasks {
      EdgesLeave(s.tasks[id].status.state);
    }
  }

  /** The terminal states are those that no edge leaves. */
  lemma EdgesLeave(state: TaskState)
    ensures state.IsTerminal() <==> forall to :: !IsEdge(state, to)
  {
    if !state.IsTerminal() {
      assert IsEdge(state, Canceled);
    }
  }

  function UpdateStatus(s: Store, id: TaskId, state: TaskState, message: Option<TaskMessage>, now: Timestamp): Change {
    var refusal := StatusRefusal(s, id, state);
    if refusal.Some? then Change(s, [], Err(refusal.value))
    else
      var t := WithStatus(s.tasks[id], state, message, now);
      Change(s.(tasks := s.tasks[id := t]), [StatusChanged(id, s.tasks[id].status.state, state)], Ok(t))
  }

  function WithArtifact(t: Task, a: Artifact): Task {
    t.(artifacts := t.artifacts + [a])
  }

  function AddArtifact(s: Store, id: TaskId, a: Artifact): Change {
    if id !in s.tasks then Change(s, [], Err(TaskNotFound(id)))
    else if s.tasks[id].status.state.IsTerminal() then
      Change(s, [], Err(TaskAlreadyTerminal(id, s.tasks[id].status.state)))
    else
      var t := WithArtifact(s.tasks[id], a);
      Change(s.(tasks := s.tasks[id := t]), [ArtifactAdded(id, a.id)], Ok(t))
  }

  /** Repopulating an emptied store from a snapshot's task list. */
  function Restored(tasks: seq<Task>): Store {
    if tasks == [] then EMPTY_STORE else Indexed(Restored(tasks[..|tasks| - 1]), tasks[|tasks| - 1])
  }

  // ---- the context index agrees with the tasks ---------------------------------------

  ghost predicate IndexAgrees(s: Store) {
    && (forall id :: id in s.tasks ==> s.tasks[id].id == id)
    && (forall id :: id in s.tasks ==> id in IndexEntry(s, s.tasks[id].contextId))
    && (forall c :: c in s.contextIndex ==> NoDuplicates(s.contextIndex[c]))
    && (forall c, id :: c in s.contextIndex && id in s.contextIndex[c] ==> id in s.tasks && s.tasks[id].contextId == c)
  }

  lemma IndexedKeepsIndex(s: Store, t: Task)
    requires IndexAgrees(s) && t.id !in s.tasks
    ensures IndexAgrees(Indexed(s, t))
  {
    var entry := IndexEntry(s, t.contextId);
    assert t.id !in entry && NoDuplicates(entry);
    hide NoDuplicates;
    AppendDistinct(entry, t.id);
    assert forall id :: id in entry + [t.id] <==> id in entry || id == t.id;
  }

  lemma UpdateStatusKeepsIndex(s: Store, id: TaskId, state: TaskState, message: Option<TaskMessage>, now: Timestamp)
    ensures IndexAgrees(s) ==> IndexAgrees(UpdateStatus(s, id, state, message, now).store)
  {
  }

  lemma AddArtifactKeepsIndex(s: Store, id: TaskId, a: Artifact)
    ensures IndexAgrees(s) ==> IndexAgrees(AddArtifact(s, id, a).store)
  {
  }

  ghost predicate DistinctIds(tasks: seq<Task>) {
    forall i, j :: 0 <= i < j < |tasks| ==> tasks[i].id != tasks[j].id
  }

  /** Restoring distinct tasks keeps each of them and nothing else. */
  lemma {:induction false} RestoredTasks(tasks: seq<Task>)
    requires DistinctIds(tasks)
    ensures forall t :: t in tasks ==> t.id in Restored(tasks).tasks && Restored(tasks).tasks[t.id] == t
    ensures forall id :: id in Restored(tasks).tasks ==>
      Restored(tasks).tasks[id] in tasks && Restored(tasks).tasks[id].id == id
  {
    if tasks != [] {
      var n := |tasks| - 1;
      var init := tasks[..n];
      RestoredTasks(init);
      assert tasks == init + [tasks[n]];
      assert forall t :: t in init ==> t.id != tasks[n].id;
    }
  }

  lemma {:induction false} RestoredKeepsIndex(tasks: seq<Task>)
    requires DistinctIds(tasks)
    ensures IndexAgrees(Restored(tasks))
  {
    if tasks != [] {
      var n := |tasks| - 1;
      var init := tasks[..n];
      RestoredKeepsIndex(init);
      RestoredTasks(init);
      assert forall t :: t in init ==> t.id != tasks[n].id;
      IndexedKeepsIndex(Restored(init), tasks[n]);
    }
  }

  // ---- how a task may change ---------------------------------------------------------

  /** Identity fields are fixed, history and artifacts only grow, a terminal task is frozen,
      and a task that left Submitted never returns to it. */
  ghost predicate Evolves(before: Task, after: Task) {
    && after.id == before.id
    && after.contextId == before.contextId
    && after.metadata == before.metadata
    && after.assignee == before.assignee
    && after.creator == before.creator
    && after.deadline == before.deadline
    && IsPrefix(before.history, after.history)
    && IsPrefix(before.artifacts, after.artifacts)
    && (!before.Live() ==> after == before)
    && (!before.status.state.Submitted? ==> !after.status.state.Submitted?)
  }

  /** No task is ever lost, and each one evolves. */
  ghost predicate StoreEvolves(before: Store, after: Store) {
    forall id :: id in before.tasks ==> id in after.tasks && Evolves(before.tasks[id], after.tasks[id])
  }

  lemma StoreEvolvesTransitive(a: Store, b: Store, c: Store)
    requires StoreEvolves(a, b) && StoreEvolves(b, c)
    ensures StoreEvolves(a, c)
  {
    forall id | id in a.tasks
      ensures id in c.tasks && Evolves(a.tasks[id], c.tasks[id])
    {
      PrefixTransitive(a.tasks[id].history, b.tasks[id].history, c.tasks[id].history);
      PrefixTransitive(a.tasks[id].artifacts, b.tasks[id].artifacts, c.tasks[id].artifacts);
    }
  }

  lemma StoreEvolvesIdle(s: Store)
    ensures StoreEvolves(s, s)
  {
  }

  lemma CreateEvolves(s: Store, t: Task)
    ensures t.id !in s.tasks ==> StoreEvolves(s, Create(s, t).store)
  {
  }

  lemma UpdateStatusEvolves(s: Store, id: TaskId, state: TaskState, message: Option<TaskMessage>, now: Timestamp)
    ensures StoreEvolves(s, UpdateStatus(s, id, state, message, now).store)
  {
  }

  lemma AddArtifactEvolves(s: Store, id: TaskId, a: Artifact)
    ensures StoreEvolves(s, AddArtifact(s, id, a).store)
  {
  }
}
