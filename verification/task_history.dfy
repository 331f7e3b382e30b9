/** Event sourcing: the published task events, replayed, are the task store. */
module TaskHistory {
  import opened Collections
  import opened Reaper
  import opened TaskStore
  import opened TaskTypes
  import opened Uuids

  /** What a listener can know about a task from its events. */
  datatype View = View(state: TaskState, artifactIds: seq<ArtifactId>)

  type Views = map<TaskId, View>

  function ArtifactIds(artifacts: seq<Artifact>): seq<ArtifactId> {
    seq(|artifacts|, i requires 0 <= i < |artifacts| => artifacts[i].id)
  }

  function ViewOf(t: Task): View {
    View(t.status.state, ArtifactIds(t.artifacts))
  }

  function ViewsOf(s: Store): Views {
    map id | id in s.tasks :: ViewOf(s.tasks[id])
  }

  /** One event, or None when the event is impossible in the listener's view. */
  function Observe(v: Views, e: TaskEvent): Option<Views> {
    match e
    case Created(t) =>
      if t.id in v || ViewOf(t) != View(Submitted, []) then None else Some(v[t.id := ViewOf(t)])
    case StatusChanged(id, o, n) =>
      if id in v && v[id].state == o && o.CanTransitionTo(n) then Some(v[id := v[id].(state := n)]) else None
    case ArtifactAdded(id, a) =>
      if id in v && !v[id].state.IsTerminal() then Some(v[id := v[id].(artifactIds := v[id].artifactIds + [a])])
      else None
  }

  function Replay(v: Views, log: seq<TaskEvent>): Option<Views> {
    if log == [] then Some(v)
    else
      var before := Replay(v, log[..|log| - 1]);
      if before.None? then None else Observe(before.value, log[|log| - 1])
  }

  lemma {:induction false} ReplayConcat(v: Views, a: seq<TaskEvent>, b: seq<TaskEvent>)
    requires Replay(v, a).Some?
    ensures Replay(v, a + b) == Replay(Replay(v, a).value, b)
  {
    if b == [] {
      assert a + b == a;
    } else {
      ReplayConcat(v, a, b[..|b| - 1]);
      assert (a + b)[..|a + b| - 1] == a + b[..|b| - 1];
    }
  }

  // ---- every operation publishes exactly what it does ------------------------------------

  lemma ReplayOne(v: Views, e: TaskEvent)
    ensures Replay(v, [e]) == Observe(v, e)
  {
    assert [e][..0] == [];
  }

  lemma CreateReplays(s: Store, t: Task)
    requires t.id !in s.tasks && t.status.state.Submitted? && t.artifacts == []
    ensures Replay(ViewsOf(s), Create(s, t).events) == Some(ViewsOf(Create(s, t).store))
  {
    ReplayOne(ViewsOf(s), Created(t));
    assert ViewOf(t) == View(Submitted, []);
    assert ViewsOf(Create(s, t).store) == ViewsOf(s)[t.id := ViewOf(t)];
  }

  lemma UpdateStatusReplays(s: Store, id: TaskId, state: TaskState, message: Option<TaskMessage>, now: Timestamp)
    ensures var c := UpdateStatus(s, id, state, message, now);
      Replay(ViewsOf(s), c.events) == Some(ViewsOf(c.store))
  {
    var c := UpdateStatus(s, id, state, message, now);
    if c.result.Ok? {
      ReplayOne(ViewsOf(s), c.events[0]);
      assert ViewsOf(c.store) == ViewsOf(s)[id := ViewsOf(s)[id].(state := state)];
    }
  }

  lemma AddArtifactReplays(s: Store, id: TaskId, a: Artifact)
    ensures var c := AddArtifact(s, id, a);
      Replay(ViewsOf(s), c.events) == Some(ViewsOf(c.store))
  {
    var c := AddArtifact(s, id, a);
    if c.result.Ok? {
      ReplayOne(ViewsOf(s), c.events[0]);
      assert ArtifactIds(c.result.value.artifacts) == ArtifactIds(s.tasks[id].artifacts) + [a.id];
      assert ViewsOf(c.store) == ViewsOf(s)[id := ViewOf(c.result.value)];
    }
  }

  lemma {:induction false} ReapReplays(s: Store, targets: seq<(TaskId, TaskState)>, text: string, mints: seq<Mint>)
    requires |mints| == |targets|
    ensures var b := Reap(s, targets, text, mints);
      Replay(ViewsOf(s), b.events) == Some(ViewsOf(b.store))
  {
    if targets != [] {
      var n := |targets| - 1;
      var b := Reap(s, targets[..n], text, mints[..n]);
      ReapReplays(s, targets[..n], text, mints[..n]);
      var c := UpdateStatus(b.store, targets[n].0, ReapTarget(targets[n].1),
                            Some(ReapReason(mints[n], text)), mints[n].at);
      UpdateStatusReplays(b.store, targets[n].0, ReapTarget(targets[n].1),
                          Some(ReapReason(mints[n], text)), mints[n].at);
      ReplayConcat(ViewsOf(s), b.events, c.events);
    }
  }

  // ---- legal histories, read straight off the log --------------------------------------------

  /** The state the log last announced for `id`, starting from the views `v`. */
  function LastState(v: Views, log: seq<TaskEvent>, id: TaskId): Option<TaskState> {
    if log == [] then if id in v then Some(v[id].state) else None
    else
      match log[|log| - 1]
      case Created(t) => if t.id == id then Some(t.status.state) else LastState(v, log[..|log| - 1], id)
      case StatusChanged(i, _, n) => if i == id then Some(n) else LastState(v, log[..|log| - 1], id)
      case ArtifactAdded(_, _) => LastState(v, log[..|log| - 1], id)
  }

  /** Event `e` is a legal next word about its task after `log`: a task appears once, in
      Submitted and without artifacts; each change starts where the previous one ended and
      follows an edge of the state machine; artifacts arrive only while the task is live. */
  ghost predicate LegalNext(v: Views, log: seq<TaskEvent>, e: TaskEvent) {
    var last := LastState(v, log, e.Subject());
    match e
    case Created(t) => last.None? && t.status.state.Submitted? && t.artifacts == []
    case StatusChanged(_, o, n) => last == Some(o) && IsEdge(o, n)
    case ArtifactAdded(_, _) => last.Some? && !last.value.IsTerminal()
  }

  ghost predicate LegalHistory(v: Views, log: seq<TaskEvent>) {
    forall j :: 0 <= j < |log| ==> LegalNext(v, log[..j], log[j])
  }

  lemma {:induction false} ReplayLastState(v: Views, log: seq<TaskEvent>, id: TaskId)
    requires Replay(v, log).Some?
    ensures var w := Replay(v, log).value;
      LastState(v, log, id) == if id in w then Some(w[id].state) else None
  {
    if log != [] {
      ReplayLastState(v, log[..|log| - 1], id);
    }
  }

  lemma ObserveIffLegal(v: Views, log: seq<TaskEvent>, e: TaskEvent)
    requires Replay(v, log).Some?
    ensures Observe(Replay(v, log).value, e).Some? <==> LegalNext(v, log, e)
  {
    ReplayLastState(v, log, e.Subject());
    if e.Created? {
      assert ViewOf(e.task) == View(Submitted, []) <==> e.task.status.state.Submitted? && |e.task.artifacts| == 0;
    }
  }

  lemma LegalSnoc(v: Views, log: seq<TaskEvent>)
    ensures log == [] ==> LegalHistory(v, log)
    ensures log != [] ==>
      (LegalHistory(v, log) <==> LegalHistory(v, log[..|log| - 1]) && LegalNext(v, log[..|log| - 1], log[|log| - 1]))
  {
    hide LegalNext;
    if log != [] {
      var n := |log| - 1;
      assert forall j :: 0 <= j < n ==> log[..n][..j] == log[..j] && log[..n][j] == log[j];
    }
  }

  /** A log can be replayed exactly when it is a legal history. */
  lemma {:induction false} ReplayIffLegal(v: Views, log: seq<TaskEvent>)
    ensures Replay(v, log).Some? <==> LegalHistory(v, log)
  {
    hide LegalNext, LegalHistory, Observe;
    LegalSnoc(v, log);
    if log != [] {
      var n := |log| - 1;
      var init, e := log[..n], log[n];
      ReplayIffLegal(v, init);
      if Replay(v, init).Some? {
        ObserveIffLegal(v, init, e);
      }
    }
  }

  predicate IsHalt(e: TaskEvent) {
    e.StatusChanged? && e.newState.IsTerminal()
  }

  /** `halts` announces each task whose state differs between the two views, once, with its old
      and new state, and nothing else. */
  ghost predicate HaltsTold(v: Views, w: Views, halts: seq<TaskEvent>) {
    && w.Keys == v.Keys
    && (forall i, j :: 0 <= i < j < |halts| ==> halts[i].Subject() != halts[j].Subject())
    && (forall e :: e in halts ==>
          IsHalt(e) && e.taskId in v && e.oldState == v[e.taskId].state != e.newState == w[e.taskId].state)
    && (forall id :: id in v && v[id].state != w[id].state ==> StatusChanged(id, v[id].state, w[id].state) in halts)
  }

  /** A replayable log of nothing but halts tells exactly what it changed. */
  lemma {:induction false} HaltsTellAll(v: Views, halts: seq<TaskEvent>)
    requires Replay(v, halts).Some? && forall e :: e in halts ==> IsHalt(e)
    ensures HaltsTold(v, Replay(v, halts).value, halts)
  {
    if halts != [] {
      var init, e := halts[..|halts| - 1], halts[|halts| - 1];
      assert halts == init + [e] && e in halts;
      HaltsTellAll(v, init);
      HaltTold(v, Replay(v, init).value, init, e);
    }
  }

  lemma HaltTold(v: Views, w: Views, init: seq<TaskEvent>, e: TaskEvent)
    requires HaltsTold(v, w, init) && IsHalt(e) && Observe(w, e).Some?
    ensures HaltsTold(v, Observe(w, e).value, init + [e])
  {
    var halts := init + [e];
    assert e !in init && forall d :: d in init ==> d.Subject() != e.Subject();
    assert v[e.taskId].state == w[e.taskId].state;
    assert forall d :: d in halts <==> d in init || d == e;
  }

  /** A terminal announcement is the last word about a task. */
  lemma {:induction false} TerminalIsLast(v: Views, log: seq<TaskEvent>, i: nat, j: nat)
    requires LegalHistory(v, log) && i < j < |log|
    requires log[i].StatusChanged? && log[i].newState.IsTerminal()
    ensures log[j].Subject() != log[i].Subject()
  {
    hide IsEdge;
    EdgesLeave(log[i].newState);
    assert LegalNext(v, log[..j], log[j]);
    StaysTerminal(v, log, i, j);
  }

  lemma {:induction false} StaysTerminal(v: Views, log: seq<TaskEvent>, i: nat, j: nat)
    requires LegalHistory(v, log) && i < j <= |log|
    requires log[i].StatusChanged? && log[i].newState.IsTerminal()
    ensures LastState(v, log[..j], log[i].taskId) == Some(log[i].newState)
    decreases j
  {
    hide IsEdge;
    assert log[..j][..j - 1] == log[..j - 1];
    if i < j - 1 {
      StaysTerminal(v, log, i, j - 1);
      EdgesLeave(log[i].newState);
      assert LegalNext(v, log[..j - 1], log[j - 1]);
    }
  }
}
