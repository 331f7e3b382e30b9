/** The per-task event stream: a worker that reads the bus from its own position and looks
    artifacts up in the task manager when it handles them. */
module Streaming {
  import opened AgentStore
  import opened Bus
  import opened Collections
  import opened Nexus
  import opened TaskHistory
  import opened TaskStore
  import opened TaskTypes
  import opened Uuids

  datatype Envelope =
    | TaskSnapshot(task: Task)
    | StatusUpdate(taskId: TaskId, contextId: ContextId, state: TaskState)
    | ArtifactUpdate(taskId: TaskId, contextId: ContextId, artifact: Artifact)

  /** What a receive on the bus yields, with the task store as it is when the event is handled. */
  datatype Received = Got(event: Event, tasks: map<TaskId, Task>) | Lagged(skipped: nat)

  function FindArtifact(artifacts: seq<Artifact>, id: ArtifactId): Option<Artifact> {
    if artifacts == [] then None
    else if artifacts[0].id == id then Some(artifacts[0])
    else FindArtifact(artifacts[1..], id)
  }

  function ToEnvelope(event: Event, taskId: TaskId, contextId: ContextId, task: Option<Task>): Option<Envelope> {
    match event
    case TaskCreated(t) => if t.id == taskId then Some(TaskSnapshot(t)) else None
    case TaskStatusChanged(id, _, n) => if id == taskId then Some(StatusUpdate(taskId, contextId, n)) else None
    case TaskArtifactAdded(id, a) =>
      if id == taskId && task.Some? then
        var found := FindArtifact(task.value.artifacts, a);
        if found.Some? then Some(ArtifactUpdate(taskId, contextId, found.value)) else None
      else None
    case _ => None
  }

  /** The cached task: refreshed on each artifact event about it. */
  function Refreshed(latest: Option<Task>, r: Received, taskId: TaskId): Option<Task> {
    if r.Got? && r.event.TaskArtifactAdded? && r.event.taskId == taskId && taskId in r.tasks then Some(r.tasks[taskId])
    else latest
  }

  function Latest(initial: Option<Task>, received: seq<Received>, taskId: TaskId): Option<Task> {
    if received == [] then initial
    else Refreshed(Latest(initial, received[..|received| - 1], taskId), received[|received| - 1], taskId)
  }

  function Sent(initial: Option<Task>, received: seq<Received>, taskId: TaskId, contextId: ContextId): seq<Envelope> {
    if received == [] then if initial.Some? then [TaskSnapshot(initial.value)] else []
    else
      var n := |received| - 1;
      var envelope :=
        if received[n].Lagged? then None
        else ToEnvelope(received[n].event, taskId, contextId, Latest(initial, received, taskId));
      Sent(initial, received[..n], taskId, contextId) + if envelope.Some? then [envelope.value] else []
  }

  function Take<T>(s: seq<T>, n: nat): seq<T> {
    if n <= |s| then s[..n] else s
  }

  /** The worker, until the bus closes or the client is gone; the client takes `accepts` sends. */
  method RunStream(received: seq<Received>, taskId: TaskId, contextId: ContextId, initial: Option<Task>, accepts: nat)
    returns (sent: seq<Envelope>)
    ensures sent == Take(Sent(initial, received, taskId, contextId), accepts)
  {
    hide Sent, Latest, ToEnvelope, Refreshed, IsPrefix;
    sent := [];
    StreamStarts(initial, taskId, contextId);
    if initial.Some? {
      if accepts == 0 {
        assert received[..0] == [];
        SentGrows(initial, received, 0, taskId, contextId);
        return;
      }
      sent := sent + [TaskSnapshot(initial.value)];
    }
    var latest := initial;
    assert received[..0] == [];
    for i := 0 to |received|
      invariant sent == Sent(initial, received[..i], taskId, contextId) && |sent| <= accepts
      invariant latest == Latest(initial, received[..i], taskId)
    {
      StreamSteps(initial, received, i, taskId, contextId);
      RefreshedMeans(latest, received[i], taskId);
      if received[i].Lagged? {
        continue;
      }
      var event := received[i].event;
      if event.TaskArtifactAdded? && event.taskId == taskId && taskId in received[i].tasks {
        latest := Some(received[i].tasks[taskId]);
      }
      var envelope := ToEnvelope(event, taskId, contextId, latest);
      if envelope.Some? {
        if |sent| == accepts {
          SentGrows(initial, received, i + 1, taskId, contextId);
          TakeAt(sent, envelope.value, Sent(initial, received, taskId, contextId));
          return;
        }
        sent := sent + [envelope.value];
      }
    }
    assert received[..|received|] == received;
  }

  lemma StreamStarts(initial: Option<Task>, taskId: TaskId, contextId: ContextId)
    ensures Latest(initial, [], taskId) == initial
    ensures Sent(initial, [], taskId, contextId) == if initial.Some? then [TaskSnapshot(initial.value)] else []
  {
  }

  /** One receive more. */
  lemma StreamSteps(initial: Option<Task>, received: seq<Received>, i: nat, taskId: TaskId, contextId: ContextId)
    requires i < |received|
    ensures Latest(initial, received[..i + 1], taskId) ==
      Refreshed(Latest(initial, received[..i], taskId), received[i], taskId)
    ensures var envelope :=
        if received[i].Lagged? then None
        else ToEnvelope(received[i].event, taskId, contextId, Latest(initial, received[..i + 1], taskId));
      Sent(initial, received[..i + 1], taskId, contextId) ==
        Sent(initial, received[..i], taskId, contextId) + if envelope.Some? then [envelope.value] else []
  {
    assert received[..i + 1][..i] == received[..i];
  }

  lemma RefreshedMeans(latest: Option<Task>, r: Received, taskId: TaskId)
    ensures Refreshed(latest, r, taskId) ==
      if r.Got? && r.event.TaskArtifactAdded? && r.event.taskId == taskId && taskId in r.tasks
      then Some(r.tasks[taskId])
      else latest
  {
  }

  lemma TakeAt(sent: seq<Envelope>, next: Envelope, all: seq<Envelope>)
    ensures IsPrefix(sent + [next], all) ==> Take(all, |sent|) == sent
  {
  }

  lemma {:induction false} SentGrows(initial: Option<Task>, received: seq<Received>, i: nat, taskId: TaskId,
                                     contextId: ContextId)
    requires i <= |received|
    ensures IsPrefix(Sent(initial, received[..i], taskId, contextId), Sent(initial, received, taskId, contextId))
    decreases |received|
  {
    if i == |received| {
      assert received[..i] == received;
    } else {
      var n := |received| - 1;
      SentGrows(initial, received[..n], i, taskId, contextId);
      assert received[..n][..i] == received[..i];
    }
  }

  // ---- no artifact event is dropped, however late it is handled ---------------------------------

  lemma {:induction false} FindFirst(artifacts: seq<Artifact>, id: ArtifactId)
    ensures FindArtifact(artifacts, id).Some? <==> id in ArtifactIds(artifacts)
    ensures FindArtifact(artifacts, id).Some? ==>
      FindArtifact(artifacts, id).value in artifacts && FindArtifact(artifacts, id).value.id == id
  {
    if artifacts != [] {
      FindFirst(artifacts[1..], id);
      assert ArtifactIds(artifacts) == [artifacts[0].id] + ArtifactIds(artifacts[1..]);
    }
  }

  /** What is found is the first artifact with that id, as it is stored. */
  lemma {:induction false} FoundIsFirst(artifacts: seq<Artifact>, id: ArtifactId, i: nat)
    requires i < |artifacts| && artifacts[i].id == id && forall j :: 0 <= j < i ==> artifacts[j].id != id
    ensures FindArtifact(artifacts, id) == Some(artifacts[i])
  {
    if i > 0 {
      FoundIsFirst(artifacts[1..], id, i - 1);
    }
  }

  /** The first artifact with an id stays the first as artifacts are appended. */
  lemma {:induction false} FindStable(a: seq<Artifact>, b: seq<Artifact>, id: ArtifactId)
    requires IsPrefix(a, b) && FindArtifact(a, id).Some?
    ensures FindArtifact(b, id) == FindArtifact(a, id)
  {
    if a[0].id != id {
      assert b[..|a|][1..] == b[1..][..|a| - 1];
      FindStable(a[1..], b[1..], id);
    }
  }

  lemma {:induction false} ReplayKeepsArtifact(v: Views, log: seq<TaskEvent>, j: nat)
    requires Replay(v, log).Some? && j < |log| && log[j].ArtifactAdded?
    ensures log[j].taskId in Replay(v, log).value
    ensures log[j].artifactId in Replay(v, log).value[log[j].taskId].artifactIds
  {
    var n := |log| - 1;
    if j < n {
      ReplayKeepsArtifact(v, log[..n], j);
      assert log[..n][j] == log[j];
    }
  }

  lemma {:induction false} OnChannel(bus: seq<Event>, p: nat)
    requires p < |bus| && bus[p].TaskArtifactAdded?
    ensures ArtifactAdded(bus[p].taskId, bus[p].artifactId) in TaskEvents(bus)
  {
    var n := |bus| - 1;
    if p < n {
      OnChannel(bus[..n], p);
    }
  }

  /** Once an artifact event is on the bus, the task and the artifact are in the store. */
  lemma ArtifactIsThere(states: seq<State>, ops: seq<Op>, h: nat, p: nat)
    requires Run(states, ops) && h < |states| && p < |states[h].bus| && states[h].bus[p].TaskArtifactAdded?
    ensures var e := states[h].bus[p];
      e.taskId in states[h].tasks.tasks && FindArtifact(states[h].tasks.tasks[e.taskId].artifacts, e.artifactId).Some?
  {
    hide Run;
    RunInvariant(states, ops, h);
    OnChannel(states[h].bus, p);
    var e := states[h].bus[p];
    var added := ArtifactAdded(e.taskId, e.artifactId);
    var j :| 0 <= j < |states[h].channel| && states[h].channel[j] == added;
    ReplayKeepsArtifact(ViewsOf(states[0].tasks), states[h].channel, j);
    FindFirst(states[h].tasks.tasks[e.taskId].artifacts, e.artifactId);
  }

  lemma {:induction false} BusGrows(states: seq<State>, ops: seq<Op>, i: nat, j: nat)
    requires Run(states, ops) && i <= j < |states|
    ensures IsPrefix(states[i].bus, states[j].bus) && IsPrefix(states[i].channel, states[j].channel)
    decreases j
  {
    hide Enabled, Boot;
    if i < j {
      BusGrows(states, ops, i, j - 1);
      NextGrows(states[0].agents, states[j - 1], ops[j - 1]);
      PrefixTransitive(states[i].bus, states[j - 1].bus, states[j].bus);
      PrefixTransitive(states[i].channel, states[j - 1].channel, states[j].channel);
    }
  }

  lemma NextGrows(boot: Agents, s: State, op: Op)
    ensures Enabled(boot, s, op) ==>
      IsPrefix(s.bus, Next(boot, s, op).bus) && IsPrefix(s.channel, Next(boot, s, op).channel)
  {
    hide Enabled, TaskEffect, AgentEffect;
  }

  /** The worker subscribed in state `b`, never lags, and handles the event at bus position `p`
      in some state `at[p - start]` in which that event has been published. */
  ghost predicate Served(states: seq<State>, ops: seq<Op>, b: nat, e: nat, received: seq<Received>, at: seq<nat>) {
    && Run(states, ops) && b <= e < |states|
    && |states[b].bus| + |received| == |states[e].bus| && |at| == |received|
    && forall i :: 0 <= i < |received| ==>
         && at[i] < |states| && |states[b].bus| + i < |states[at[i]].bus|
         && received[i] == Got(states[at[i]].bus[|states[b].bus| + i], states[at[i]].tasks.tasks)
  }

  /** The envelope an event about the task calls for, by the store of a later state. */
  function Expected(event: Event, taskId: TaskId, contextId: ContextId, task: Task): seq<Envelope> {
    match event
    case TaskCreated(t) => if t.id == taskId then [TaskSnapshot(t)] else []
    case TaskStatusChanged(id, _, n) => if id == taskId then [StatusUpdate(taskId, contextId, n)] else []
    case TaskArtifactAdded(id, a) =>
      if id == taskId then
        var found := FindArtifact(task.artifacts, a);
        [ArtifactUpdate(taskId, contextId, if found.Some? then found.value else Artifact(a, None, None, [], None))]
      else []
    case _ => []
  }

  function ExpectedAll(events: seq<Event>, taskId: TaskId, contextId: ContextId, task: Task): seq<Envelope> {
    if events == [] then []
    else
      var n := |events| - 1;
      ExpectedAll(events[..n], taskId, contextId, task) + Expected(events[n], taskId, contextId, task)
  }

  lemma HandledEvent(states: seq<State>, ops: seq<Op>, b: nat, e: nat, received: seq<Received>, at: seq<nat>, i: nat)
    requires Served(states, ops, b, e, received, at) && i < |received|
    ensures received[i].Got? && received[i].event == states[e].bus[|states[b].bus| + i]
  {
    var p := |states[b].bus| + i;
    if at[i] <= e {
      BusGrows(states, ops, at[i], e);
    } else {
      BusGrows(states, ops, e, at[i]);
    }
  }

  /** Handling an artifact event at any time finds the artifact every later state would find. */
  lemma HandledArtifact(states: seq<State>, ops: seq<Op>, h: nat, e: nat, p: nat)
    requires Run(states, ops) && h < |states| && e < |states|
    requires p < |states[h].bus| && p < |states[e].bus| && states[h].bus[p] == states[e].bus[p]
    requires states[h].bus[p].TaskArtifactAdded?
    ensures var (id, a) := (states[h].bus[p].taskId, states[h].bus[p].artifactId);
      && id in states[h].tasks.tasks && id in states[e].tasks.tasks
      && FindArtifact(states[h].tasks.tasks[id].artifacts, a).Some?
      && FindArtifact(states[h].tasks.tasks[id].artifacts, a) == FindArtifact(states[e].tasks.tasks[id].artifacts, a)
  {
    hide Run;
    var id, a := states[h].bus[p].taskId, states[h].bus[p].artifactId;
    ArtifactIsThere(states, ops, h, p);
    ArtifactIsThere(states, ops, e, p);
    if h <= e {
      RunEvolves(states, ops, h, e);
      FindStable(states[h].tasks.tasks[id].artifacts, states[e].tasks.tasks[id].artifacts, a);
    } else {
      RunEvolves(states, ops, e, h);
      FindStable(states[e].tasks.tasks[id].artifacts, states[h].tasks.tasks[id].artifacts, a);
    }
  }

  /** `r` delivers `event`, and if it is an artifact of the task, a store in which the worker
      finds what `task` has. */
  ghost predicate Delivers(r: Received, event: Event, taskId: TaskId, task: Task) {
    && r.Got? && r.event == event
    && (event.TaskArtifactAdded? && event.taskId == taskId ==>
         && taskId in r.tasks
         && FindArtifact(r.tasks[taskId].artifacts, event.artifactId) == FindArtifact(task.artifacts, event.artifactId)
         && FindArtifact(task.artifacts, event.artifactId).Some?)
  }

  /** Each event about the task gets exactly the envelope it calls for, other events get none. */
  lemma OneEnvelope(r: Received, event: Event, taskId: TaskId, contextId: ContextId, task: Task, latest: Option<Task>)
    requires Delivers(r, event, taskId, task)
    ensures var envelope := ToEnvelope(event, taskId, contextId, Refreshed(latest, r, taskId));
      (if envelope.Some? then [envelope.value] else []) == Expected(event, taskId, contextId, task)
  {
  }

  lemma {:induction false} SentIsExpected(received: seq<Received>, events: seq<Event>, taskId: TaskId,
                                          contextId: ContextId, initial: Option<Task>, task: Task)
    requires |received| == |events| && forall i :: 0 <= i < |events| ==> Delivers(received[i], events[i], taskId, task)
    ensures Sent(initial, received, taskId, contextId) ==
      Sent(initial, [], taskId, contextId) + ExpectedAll(events, taskId, contextId, task)
  {
    hide Expected, ToEnvelope, Refreshed, FindArtifact;
    if events != [] {
      var n := |events| - 1;
      SentIsExpected(received[..n], events[..n], taskId, contextId, initial, task);
      OneEnvelope(received[n], events[n], taskId, contextId, task, Latest(initial, received[..n], taskId));
      StreamSteps(initial, received, n, taskId, contextId);
      assert received[..n + 1] == received;
    }
  }

  /** With no lag and a live client the stream is the snapshot and then exactly one envelope per
      event of the task published after subscription, in bus order, no matter when each event
      is handled: no artifact event is dropped. */
  lemma StreamIsProjection(states: seq<State>, ops: seq<Op>, b: nat, e: nat, received: seq<Received>, at: seq<nat>,
                           taskId: TaskId, contextId: ContextId, initial: Option<Task>)
    requires Served(states, ops, b, e, received, at) && taskId in states[e].tasks.tasks
    ensures Sent(initial, received, taskId, contextId) ==
      Sent(initial, [], taskId, contextId) +
      ExpectedAll(states[e].bus[|states[b].bus|..], taskId, contextId, states[e].tasks.tasks[taskId])
  {
    hide Run, Sent, ExpectedAll, FindArtifact;
    var events := states[e].bus[|states[b].bus|..];
    var task := states[e].tasks.tasks[taskId];
    forall i | 0 <= i < |events|
      ensures Delivers(received[i], events[i], taskId, task)
    {
      HandledEvent(states, ops, b, e, received, at, i);
      if events[i].TaskArtifactAdded? && events[i].taskId == taskId {
        HandledArtifact(states, ops, at[i], e, |states[b].bus| + i);
      }
    }
    SentIsExpected(received, events, taskId, contextId, initial, task);
  }

  lemma {:induction false} ExpectedAreStored(events: seq<Event>, taskId: TaskId, contextId: ContextId, task: Task)
    requires forall e :: e in events && e.TaskArtifactAdded? && e.taskId == taskId ==>
      FindArtifact(task.artifacts, e.artifactId).Some?
    ensures forall v :: v in ExpectedAll(events, taskId, contextId, task) && v.ArtifactUpdate? ==>
      v.artifact in task.artifacts
  {
    hide FindArtifact;
    if events != [] {
      var init, e := events[..|events| - 1], events[|events| - 1];
      assert e in events && forall d :: d in init ==> d in events;
      ExpectedAreStored(init, taskId, contextId, task);
      if e.TaskArtifactAdded? {
        FindFirst(task.artifacts, e.artifactId);
      }
    }
  }

  /** What is streamed as an artifact is an artifact of the task, whole. */
  lemma StreamedAreStored(states: seq<State>, ops: seq<Op>, b: nat, e: nat, received: seq<Received>, at: seq<nat>,
                          taskId: TaskId, contextId: ContextId, initial: Option<Task>)
    requires Served(states, ops, b, e, received, at) && taskId in states[e].tasks.tasks
    ensures forall v :: v in Sent(initial, received, taskId, contextId) && v.ArtifactUpdate? ==>
      v.artifact in states[e].tasks.tasks[taskId].artifacts
  {
    StreamIsProjection(states, ops, b, e, received, at, taskId, contextId, initial);
    StreamStarts(initial, taskId, contextId);
    hide Sent, Run;
    BusGrows(states, ops, b, e);
    FoundInEvents(states, ops, b, e, taskId);
    ExpectedAreStored(states[e].bus[|states[b].bus|..], taskId, contextId, states[e].tasks.tasks[taskId]);
  }

  // ---- what the client can conclude -----------------------------------------------------------

  /** A client's picture of the task: the snapshot, then each envelope applied in turn. */
  function Picture(start: View, envelopes: seq<Envelope>): View {
    if envelopes == [] then start
    else
      Shown(Picture(start, envelopes[..|envelopes| - 1]), envelopes[|envelopes| - 1])
  }

  function Shown(before: View, envelope: Envelope): View {
    match envelope
    case TaskSnapshot(t) => ViewOf(t)
    case StatusUpdate(_, _, n) => before.(state := n)
    case ArtifactUpdate(_, _, a) => before.(artifactIds := before.artifactIds + [a.id])
  }

  /** One task's view, moved along by the events about it. */
  function Track(start: View, events: seq<TaskEvent>, id: TaskId): View {
    if events == [] then start
    else
      Moved(Track(start, events[..|events| - 1], id), events[|events| - 1], id)
  }

  function Moved(before: View, e: TaskEvent, id: TaskId): View {
    match e
    case Created(t) => if t.id == id then ViewOf(t) else before
    case StatusChanged(i, _, n) => if i == id then before.(state := n) else before
    case ArtifactAdded(i, a) => if i == id then before.(artifactIds := before.artifactIds + [a]) else before
  }

  lemma {:induction false} ReplayTracks(v: Views, log: seq<TaskEvent>, id: TaskId)
    requires Replay(v, log).Some? && id in v
    ensures id in Replay(v, log).value && Replay(v, log).value[id] == Track(v[id], log, id)
  {
    if log != [] {
      ReplayTracks(v, log[..|log| - 1], id);
    }
  }

  lemma PictureAppend(start: View, envelopes: seq<Envelope>, envelope: Envelope)
    ensures Picture(start, envelopes + [envelope]) == Shown(Picture(start, envelopes), envelope)
  {
    assert (envelopes + [envelope])[..|envelopes|] == envelopes;
  }

  lemma TrackAppend(start: View, events: seq<TaskEvent>, e: TaskEvent, id: TaskId)
    ensures Track(start, events + [e], id) == Moved(Track(start, events, id), e, id)
  {
    assert (events + [e])[..|events|] == events;
  }

  /** One event puts at most one word on the task channel, and calls for at most one envelope,
      which shows what the word says. */
  lemma EnvelopeTells(e: Event, id: TaskId, contextId: ContextId, task: Task, before: View)
    requires e.TaskArtifactAdded? && e.taskId == id ==> FindArtifact(task.artifacts, e.artifactId).Some?
    ensures var (told, more) := (TaskEvents([e]), Expected(e, id, contextId, task));
      && (told == [] || |told| == 1) && (more == [] || |more| == 1)
      && (told == [] ==> more == [])
      && (told != [] ==> Moved(before, told[0], id) == if more == [] then before else Shown(before, more[0]))
  {
    TaskEventsAppend([], e);
    assert [] + [e] == [e];
    if e.TaskArtifactAdded? && e.taskId == id {
      FindFirst(task.artifacts, e.artifactId);
    }
  }

  /** One event moves the picture as it moves the view. */
  lemma PictureOfEvent(start: View, envelopes: seq<Envelope>, tracked: seq<TaskEvent>, e: Event, id: TaskId,
                       contextId: ContextId, task: Task)
    requires e.TaskArtifactAdded? && e.taskId == id ==> FindArtifact(task.artifacts, e.artifactId).Some?
    requires Picture(start, envelopes) == Track(start, tracked, id)
    ensures Picture(start, envelopes + Expected(e, id, contextId, task)) == Track(start, tracked + TaskEvents([e]), id)
  {
    hide TaskEvents, Expected, Moved, Shown, Picture, Track, FindArtifact;
    var told := TaskEvents([e]);
    var more := Expected(e, id, contextId, task);
    EnvelopeTells(e, id, contextId, task, Picture(start, envelopes));
    if told == [] {
      assert tracked + told == tracked;
    } else {
      TrackAppend(start, tracked, told[0], id);
      assert told == [told[0]];
    }
    if more == [] {
      assert envelopes + more == envelopes;
    } else {
      PictureAppend(start, envelopes, more[0]);
      assert more == [more[0]];
    }
  }

  lemma {:induction false} PictureTracks(start: View, events: seq<Event>, id: TaskId, contextId: ContextId, task: Task)
    requires forall e :: e in events && e.TaskArtifactAdded? && e.taskId == id ==>
      FindArtifact(task.artifacts, e.artifactId).Some?
    ensures Picture(start, ExpectedAll(events, id, contextId, task)) == Track(start, TaskEvents(events), id)
  {
    hide TaskEvents, Expected, FindArtifact;
    if events == [] {
      TaskEventsOfNone();
    } else {
      var before, e := events[..|events| - 1], events[|events| - 1];
      PictureTracks(start, before, id, contextId, task);
      assert e in events && events == before + [e];
      PictureOfEvent(start, ExpectedAll(before, id, contextId, task), TaskEvents(before), e, id, contextId, task);
      TaskEventsSuffix(before, [e]);
    }
  }

  lemma TaskEventsOfNone()
    ensures TaskEvents([]) == []
  {
  }

  predicate StatusAfter(events: seq<TaskEvent>, id: TaskId) {
    exists i :: 0 <= i < |events| && events[i].StatusChanged? && events[i].taskId == id
  }

  /** Two starting views moved along by the same events end equal exactly when they list the same
      artifacts and agree on the state, or the events announce a state. */
  lemma {:induction false} TrackMeets(x: View, y: View, events: seq<TaskEvent>, id: TaskId)
    requires forall e :: e in events ==> !(e.Created? && e.task.id == id)
    ensures Track(x, events, id).artifactIds == Track(y, events, id).artifactIds <==> x.artifactIds == y.artifactIds
    ensures Track(x, events, id).state == Track(y, events, id).state <==> StatusAfter(events, id) || x.state == y.state
  {
    if events != [] {
      var n := |events| - 1;
      assert events[n] in events;
      TrackMeets(x, y, events[..n], id);
      var before := events[..n];
      if i :| 0 <= i < n && before[i].StatusChanged? && before[i].taskId == id {
        assert events[i] == before[i];
      }
      if i :| 0 <= i < n && events[i].StatusChanged? && events[i].taskId == id {
        assert before[i] == events[i];
      }
      if events[n].ArtifactAdded? && events[n].taskId == id {
        var p, q := Track(x, before, id).artifactIds, Track(y, before, id).artifactIds;
        var a := [events[n].artifactId];
        assert (p + a)[..|p|] == p && (q + a)[..|q|] == q;
      }
    }
  }

  lemma ChannelReplays(states: seq<State>, ops: seq<Op>, i: nat, j: nat, id: TaskId)
    requires Run(states, ops) && i <= j < |states| && id in states[i].tasks.tasks
    ensures IsPrefix(states[i].channel, states[j].channel) && id in states[j].tasks.tasks
    ensures var events := states[j].channel[|states[i].channel|..];
      && ViewOf(states[j].tasks.tasks[id]) == Track(ViewOf(states[i].tasks.tasks[id]), events, id)
      && forall e :: e in events ==> !(e.Created? && e.task.id == id)
  {
    hide Run, Replay, TaskEvents, Track, Evolves, IndexAgrees, NamesAgree, Told, ViewOf;
    RunInvariant(states, ops, i);
    RunInvariant(states, ops, j);
    BusGrows(states, ops, i, j);
    RunEvolves(states, ops, i, j);
    var events := states[j].channel[|states[i].channel|..];
    assert states[j].channel == states[i].channel + events;
    var v := ViewsOf(states[0].tasks);
    ReplayConcat(v, states[i].channel, events);
    ReplayTracks(ViewsOf(states[i].tasks), events, id);
    NeverRecreated(ViewsOf(states[i].tasks), events, id);
  }

  lemma {:induction false} NeverRecreated(v: Views, log: seq<TaskEvent>, id: TaskId)
    requires Replay(v, log).Some? && id in v
    ensures forall e :: e in log ==> !(e.Created? && e.task.id == id)
    ensures id in Replay(v, log).value
  {
    if log != [] {
      NeverRecreated(v, log[..|log| - 1], id);
      assert log == log[..|log| - 1] + [log[|log| - 1]];
    }
  }

  lemma {:induction false} TaskEventsSuffix(a: seq<Event>, b: seq<Event>)
    ensures TaskEvents(a + b) == TaskEvents(a) + TaskEvents(b)
  {
    if b == [] {
      assert a + b == a;
    } else {
      var n := |b| - 1;
      TaskEventsSuffix(a, b[..n]);
      assert a + b == a + b[..n] + [b[n]] && b == b[..n] + [b[n]];
      TaskEventsAppend(a + b[..n], b[n]);
      TaskEventsAppend(b[..n], b[n]);
    }
  }

  /** The snapshot is taken in state `a`, the subscription made in state `b`, and nothing covers
      the gap: having read everything up to state `e`, the client's picture is the task exactly
      when no artifact was added in the gap, and the gap changed no state or a later event
      announced one. */
  lemma ClientIsRightExactly(states: seq<State>, ops: seq<Op>, a: nat, b: nat, e: nat, received: seq<Received>,
                             at: seq<nat>, id: TaskId)
    requires Served(states, ops, b, e, received, at) && a <= b && id in states[a].tasks.tasks
    ensures id in states[b].tasks.tasks && id in states[e].tasks.tasks
    ensures IsPrefix(states[b].channel, states[e].channel)
    ensures var snapshot := states[a].tasks.tasks[id];
      var sent := Sent(Some(snapshot), received, id, snapshot.contextId);
      var (x, y) := (ViewOf(snapshot), ViewOf(states[b].tasks.tasks[id]));
      Picture(x, sent) == ViewOf(states[e].tasks.tasks[id]) <==>
        x.artifactIds == y.artifactIds &&
        (x.state == y.state || StatusAfter(states[e].channel[|states[b].channel|..], id))
  {
    var snapshot := states[a].tasks.tasks[id];
    ChannelReplays(states, ops, a, b, id);
    ChannelReplays(states, ops, b, e, id);
    BusGrows(states, ops, b, e);
    var task := states[e].tasks.tasks[id];
    var events := states[e].bus[|states[b].bus|..];
    var after := states[e].channel[|states[b].channel|..];
    AfterIsProjected(states, ops, b, e);
    StreamIsProjection(states, ops, b, e, received, at, id, snapshot.contextId, Some(snapshot));
    var expected := ExpectedAll(events, id, snapshot.contextId, task);
    PictureOfSnapshot(snapshot, expected);
    FoundInEvents(states, ops, b, e, id);
    PictureTracks(ViewOf(snapshot), events, id, snapshot.contextId, task);
    TrackMeets(ViewOf(snapshot), ViewOf(states[b].tasks.tasks[id]), after, id);
  }

  lemma AfterIsProjected(states: seq<State>, ops: seq<Op>, b: nat, e: nat)
    requires Run(states, ops) && b <= e < |states|
    requires |states[b].bus| <= |states[e].bus| && |states[b].channel| <= |states[e].channel|
    ensures TaskEvents(states[e].bus[|states[b].bus|..]) == states[e].channel[|states[b].channel|..]
  {
    hide Run;
    BusGrows(states, ops, b, e);
    RunInvariant(states, ops, b);
    RunInvariant(states, ops, e);
    var events := states[e].bus[|states[b].bus|..];
    assert states[e].bus == states[b].bus + events;
    TaskEventsSuffix(states[b].bus, events);
  }

  lemma {:induction false} PictureOfSnapshot(t: Task, envelopes: seq<Envelope>)
    ensures Picture(ViewOf(t), [TaskSnapshot(t)] + envelopes) == Picture(ViewOf(t), envelopes)
  {
    var all := [TaskSnapshot(t)] + envelopes;
    if envelopes == [] {
      assert all[..|all| - 1] == [];
    } else {
      PictureOfSnapshot(t, envelopes[..|envelopes| - 1]);
      assert all[..|all| - 1] == [TaskSnapshot(t)] + envelopes[..|envelopes| - 1];
    }
  }

  lemma FoundInEvents(states: seq<State>, ops: seq<Op>, b: nat, e: nat, id: TaskId)
    requires Run(states, ops) && b <= e < |states| && id in states[e].tasks.tasks
    requires |states[b].bus| <= |states[e].bus|
    ensures forall v :: v in states[e].bus[|states[b].bus|..] && v.TaskArtifactAdded? && v.taskId == id ==>
      FindArtifact(states[e].tasks.tasks[id].artifacts, v.artifactId).Some?
  {
    hide Run;
    var events := states[e].bus[|states[b].bus|..];
    forall v | v in events && v.TaskArtifactAdded? && v.taskId == id
      ensures FindArtifact(states[e].tasks.tasks[id].artifacts, v.artifactId).Some?
    {
      var i :| 0 <= i < |events| && events[i] == v;
      ArtifactIsThere(states, ops, e, |states[b].bus| + i);
    }
  }
}
