/** How the watchdog halts a batch of tasks under one lock. */
module Reaper {
  import opened Collections
  import opened TaskStore
  import opened TaskTypes
  import opened Uuids

  /** What `MessageId::new()` and `Utc::now()` return for one update. */
  datatype Mint = Mint(id: MessageId, at: Timestamp)

  function ReapTarget(remembered: TaskState): TaskState {
    if remembered.Submitted? then Rejected else Failed
  }

  function ReapReason(mint: Mint, text: string): TaskMessage {
    TaskMessage(mint.id, Agent, [Text(text)], None)
  }

  datatype Batch = Batch(store: Store, events: seq<TaskEvent>, errors: seq<TaskError>)

  /** Update every target, in order, to the state its remembered state calls for.
      Refused updates are logged and skipped. */
  function Reap(s: Store, targets: seq<(TaskId, TaskState)>, text: string, mints: seq<Mint>): Batch
    requires |mints| == |targets|
  {
    if targets == [] then Batch(s, [], [])
    else
      var n := |targets| - 1;
      var b := Reap(s, targets[..n], text, mints[..n]);
      var c := UpdateStatus(b.store, targets[n].0, ReapTarget(targets[n].1),
                            Some(ReapReason(mints[n], text)), mints[n].at);
      Batch(c.store, b.events + c.events, b.errors + if c.result.Err? then [c.result.error] else [])
  }

  // ---- what a batch does -------------------------------------------------------------

  function Reaped(t: Task, remembered: TaskState, text: string, mint: Mint): Task {
    if t.status.state.CanTransitionTo(ReapTarget(remembered)) then
      WithStatus(t, ReapTarget(remembered), Some(ReapReason(mint, text)), mint.at)
    else t
  }

  ghost predicate DistinctTargets(targets: seq<(TaskId, TaskState)>) {
    forall i, j :: 0 <= i < j < |targets| ==> targets[i].0 != targets[j].0
  }

  ghost predicate IsTarget(id: TaskId, targets: seq<(TaskId, TaskState)>) {
    exists i :: 0 <= i < |targets| && targets[i].0 == id
  }

  lemma {:induction false} ReapFrame(s: Store, targets: seq<(TaskId, TaskState)>, text: string, mints: seq<Mint>)
    requires |mints| == |targets|
    ensures Reap(s, targets, text, mints).store.contextIndex == s.contextIndex
    ensures Reap(s, targets, text, mints).store.tasks.Keys == s.tasks.Keys
  {
    if targets != [] {
      var n := |targets| - 1;
      ReapFrame(s, targets[..n], text, mints[..n]);
    }
  }

  /** Tasks that are not targets stay as they are. */
  lemma {:induction false} ReapUntouched(s: Store, targets: seq<(TaskId, TaskState)>, text: string,
                                         mints: seq<Mint>, id: TaskId)
    requires |mints| == |targets| && !IsTarget(id, targets) && id in s.tasks
    ensures id in Reap(s, targets, text, mints).store.tasks
    ensures Reap(s, targets, text, mints).store.tasks[id] == s.tasks[id]
  {
    if targets != [] {
      var n := |targets| - 1;
      assert targets[n].0 != id;
      assert forall i :: 0 <= i < n ==> targets[..n][i] == targets[i];
      ReapUntouched(s, targets[..n], text, mints[..n], id);
    }
  }

  /** A target is updated once, from the state it has now, to the state its remembered state
      calls for, if the state machine has that edge. */
  lemma {:induction false} ReapAt(s: Store, targets: seq<(TaskId, TaskState)>, text: string, mints: seq<Mint>, k: nat)
    requires |mints| == |targets| && DistinctTargets(targets)
    requires k < |targets| && targets[k].0 in s.tasks
    ensures targets[k].0 in Reap(s, targets, text, mints).store.tasks
    ensures Reap(s, targets, text, mints).store.tasks[targets[k].0] ==
      Reaped(s.tasks[targets[k].0], targets[k].1, text, mints[k])
  {
    var n := |targets| - 1;
    var init := targets[..n];
    assert forall i :: 0 <= i < n ==> init[i] == targets[i];
    if k == n {
      assert !IsTarget(targets[n].0, init);
      ReapUntouched(s, init, text, mints[..n], targets[n].0);
    } else {
      ReapAt(s, init, text, mints[..n], k);
      assert mints[..n][k] == mints[k];
    }
  }

  /** The remembered states are the present ones, as when they are read under the same lock. */
  ghost predicate Current(s: Store, targets: seq<(TaskId, TaskState)>) {
    forall i :: 0 <= i < |targets| ==>
      && targets[i].0 in s.tasks
      && s.tasks[targets[i].0].status.state == targets[i].1
      && !targets[i].1.IsTerminal()
  }

  function ReapEvent(target: (TaskId, TaskState)): TaskEvent {
    StatusChanged(target.0, target.1, ReapTarget(target.1))
  }

  function ReapEvents(targets: seq<(TaskId, TaskState)>): seq<TaskEvent> {
    seq(|targets|, i requires 0 <= i < |targets| => ReapEvent(targets[i]))
  }

  lemma HaltAccepted(s: Store, target: (TaskId, TaskState), message: Option<TaskMessage>, now: Timestamp)
    requires target.0 in s.tasks && s.tasks[target.0].status.state == target.1 && !target.1.IsTerminal()
    ensures var c := UpdateStatus(s, target.0, ReapTarget(target.1), message, now);
      c.result.Ok? && c.events == [ReapEvent(target)]
  {
  }

  lemma CurrentInit(s: Store, targets: seq<(TaskId, TaskState)>)
    ensures targets != [] && DistinctTargets(targets) && Current(s, targets) ==>
      var n := |targets| - 1;
      && DistinctTargets(targets[..n]) && Current(s, targets[..n])
      && !IsTarget(targets[n].0, targets[..n])
      && targets[n].0 in s.tasks && s.tasks[targets[n].0].status.state == targets[n].1 && !targets[n].1.IsTerminal()
  {
  }

  /** With present states every update is accepted: no errors, and one event per target. */
  lemma {:induction false} ReapCurrent(s: Store, targets: seq<(TaskId, TaskState)>, text: string, mints: seq<Mint>)
    requires |mints| == |targets| && DistinctTargets(targets) && Current(s, targets)
    ensures Reap(s, targets, text, mints).errors == []
    ensures Reap(s, targets, text, mints).events == ReapEvents(targets)
  {
    hide DistinctTargets, IsTarget, Current, UpdateStatus;
    if targets != [] {
      var n := |targets| - 1;
      var init := targets[..n];
      CurrentInit(s, targets);
      ReapCurrent(s, init, text, mints[..n]);
      ReapUntouched(s, init, text, mints[..n], targets[n].0);
      HaltAccepted(Reap(s, init, text, mints[..n]).store, targets[n], Some(ReapReason(mints[n], text)), mints[n].at);
      assert ReapEvents(targets) == ReapEvents(init) + [ReapEvent(targets[n])];
    }
  }

  lemma {:induction false} ReapKeeps(s: Store, targets: seq<(TaskId, TaskState)>, text: string, mints: seq<Mint>)
    requires |mints| == |targets|
    ensures IndexAgrees(s) ==> IndexAgrees(Reap(s, targets, text, mints).store)
    ensures StoreEvolves(s, Reap(s, targets, text, mints).store)
  {
    if targets != [] {
      var n := |targets| - 1;
      var b := Reap(s, targets[..n], text, mints[..n]);
      ReapKeeps(s, targets[..n], text, mints[..n]);
      var m := Some(ReapReason(mints[n], text));
      if IndexAgrees(s) {
        UpdateStatusKeepsIndex(b.store, targets[n].0, ReapTarget(targets[n].1), m, mints[n].at);
      }
      UpdateStatusEvolves(b.store, targets[n].0, ReapTarget(targets[n].1), m, mints[n].at);
      StoreEvolvesTransitive(s, b.store, Reap(s, targets, text, mints).store);
    }
  }
}
