/** A sweep that nothing interrupts, as steps of the interleaved system: it does what the pass
    over the real stores does. */
module SweepRuns {
  import opened AgentStore
  import opened Collections
  import opened Convergence
  import opened Nexus
  import opened Reaper
  import opened TaskStore
  import opened TaskTypes
  import opened Uuids
  import Assignees
  import Watchdog

  ghost predicate Left(before: Store, after: Store, gone: set<AgentId>) {
    && after.contextIndex == before.contextIndex
    && after.tasks.Keys == before.tasks.Keys
    && forall id :: id in before.tasks ==> Watchdog.Abandoned(before.tasks[id], after.tasks[id], gone)
  }

  ghost predicate AgentsFlipped(s0: State, s: State, cutoff: Timestamp) {
    s.agents == Agents(Watchdog.Flipped(s0.agents.agents, cutoff), s0.agents.nameIndex)
  }

  /** The remembered list is that of the tasks that are overdue now. */
  ghost predicate JustScanned(s: State, now: Timestamp) {
    s.sweep.Expired? && exists ids ::
      && IsListing(ids, OverdueTasks(s.tasks, now)) && (forall id :: id in ids ==> id in s.tasks.tasks)
      && s.sweep.expired == Remember(s.tasks, ids)
  }

  /** How far a sweep that began in `s0` has got in `s`. */
  ghost predicate Passing(s0: State, s: State, now: Timestamp, timeout: nat) {
    var cutoff := now - timeout;
    var gone := StaleAgents(s0.agents, cutoff);
    match s.sweep
    case Started(n, c) => n == now && c == cutoff && s.agents == s0.agents && s.tasks == s0.tasks
    case Collected(n, stale) => n == now && IsListing(stale, gone) && s.agents == s0.agents && s.tasks == s0.tasks
    case Failing(n, remaining) =>
      && n == now && remaining != [] && NoDuplicates(remaining) && Elements(remaining) <= gone
      && AgentsFlipped(s0, s, cutoff) && Left(s0.tasks, s.tasks, gone - Elements(remaining))
    case Scanning(n) => n == now && AgentsFlipped(s0, s, cutoff) && Left(s0.tasks, s.tasks, gone)
    case Expired(n, _) =>
      n == now && AgentsFlipped(s0, s, cutoff) && Left(s0.tasks, s.tasks, gone) && JustScanned(s, now)
    case Idle => Watchdog.SweepDone(s0.agents, s.agents, s0.tasks, s.tasks, now, timeout)
  }

  /** Halting the tasks listed by id, in the states they have now. */
  lemma RememberedHalt(s: Store, ids: seq<TaskId>, text: string, mints: seq<Mint>)
    requires IndexAgrees(s) && NoDuplicates(ids) && |mints| == |ids|
    requires forall id :: id in ids ==> id in s.tasks && s.tasks[id].Live()
    ensures var b := Reap(s, Remember(s, ids), text, mints).store;
      && b.contextIndex == s.contextIndex && b.tasks.Keys == s.tasks.Keys
      && forall id :: id in s.tasks ==>
           if id in ids then Watchdog.HaltedBecause(s.tasks[id], b.tasks[id], text) else b.tasks[id] == s.tasks[id]
  {
    var hit := Values(s.tasks, ids);
    assert forall i :: 0 <= i < |ids| ==> ids[i] in ids && hit[i] == s.tasks[ids[i]] && hit[i].id == ids[i];
    assert Watchdog.Targets(hit) == Remember(s, ids);
    forall id | id in s.tasks
      ensures s.tasks[id] in hit <==> id in ids
    {
      if id in ids {
        var i :| 0 <= i < |ids| && ids[i] == id;
        assert hit[i] == s.tasks[id];
      }
    }
    hide Values, Remember, Watchdog.Targets, Reap;
    Watchdog.HaltListed(s, hit, text, mints);
  }

  lemma FlipPasses(boot: Agents, s0: State, s: State, op: Op, now: Timestamp, timeout: nat)
    requires Enabled(boot, s, op) && op.FlipStale? && Passing(s0, s, now, timeout)
    ensures Passing(s0, Next(boot, s, op), now, timeout)
  {
    var stale := s.sweep.stale;
    Watchdog.FlippedStale(s0.agents, stale, now - timeout);
    assert stale == [] ==> Elements(stale) == {};
    assert StaleAgents(s0.agents, now - timeout) - Elements(stale) == {};
  }

  lemma FailHalts(boot: Agents, s: State, op: Op)
    requires Enabled(boot, s, op) && op.FailAgent? && IndexAgrees(s.tasks)
    ensures var t := Next(boot, s, op);
      && t.agents == s.agents && Left(s.tasks, t.tasks, {s.sweep.remaining[0]})
      && t.sweep ==
           if |s.sweep.remaining| == 1 then Scanning(s.sweep.now) else Failing(s.sweep.now, s.sweep.remaining[1..])
  {
    var agent := s.sweep.remaining[0];
    Listed(op.tasks, InFlight(s.tasks, agent));
    RememberedHalt(s.tasks, op.tasks, DisconnectReason(agent), op.mints);
    hide Reap, Watchdog.HaltedBecause, Remember, IndexAgrees, NoDuplicates;
  }

  lemma LeftNext(a: Store, b: Store, c: Store, gone: set<AgentId>, agent: AgentId)
    requires Left(a, b, gone) && Left(b, c, {agent})
    ensures Left(a, c, gone + {agent})
  {
    forall id | id in a.tasks
      ensures Watchdog.Abandoned(a.tasks[id], c.tasks[id], gone + {agent})
    {
      Watchdog.AbandonedNext(a.tasks[id], b.tasks[id], c.tasks[id], gone, agent);
    }
  }

  lemma FailPasses(boot: Agents, s0: State, s: State, op: Op, now: Timestamp, timeout: nat)
    requires Enabled(boot, s, op) && op.FailAgent? && Passing(s0, s, now, timeout) && IndexAgrees(s.tasks)
    ensures Passing(s0, Next(boot, s, op), now, timeout)
  {
    FailHalts(boot, s, op);
    hide Next, Left, AgentsFlipped, StaleAgents, IndexAgrees, Reap, InFlight;
    var remaining, t := s.sweep.remaining, Next(boot, s, op);
    var gone := StaleAgents(s0.agents, now - timeout);
    LeftNext(s0.tasks, s.tasks, t.tasks, gone - Elements(remaining), remaining[0]);
    OneLess(gone, remaining);
    hide Elements, NoDuplicates, Enabled;
  }

  lemma OneLess(gone: set<AgentId>, remaining: seq<AgentId>)
    requires remaining != [] && NoDuplicates(remaining) && Elements(remaining) <= gone
    ensures gone - Elements(remaining) + {remaining[0]} == gone - Elements(remaining[1..])
    ensures NoDuplicates(remaining[1..]) && Elements(remaining[1..]) <= gone
    ensures |remaining| == 1 ==> gone - Elements(remaining[1..]) == gone
  {
    assert remaining == [remaining[0]] + remaining[1..];
    assert Elements(remaining) == {remaining[0]} + Elements(remaining[1..]);
    assert remaining[0] !in Elements(remaining[1..]);
  }

  /** The scan finds nothing overdue, or remembers what is overdue now. */
  lemma ScanPasses(boot: Agents, s0: State, s: State, op: Op, now: Timestamp, timeout: nat)
    requires Enabled(boot, s, op) && op.ScanDeadlines? && Passing(s0, s, now, timeout)
    ensures Passing(s0, Next(boot, s, op), now, timeout)
  {
    var gone := StaleAgents(s0.agents, now - timeout);
    Listed(op.tasks, OverdueTasks(s.tasks, now));
    if op.tasks == [] {
      forall id | id in s0.tasks.tasks
        ensures Watchdog.Swept(s0.tasks.tasks[id], s.tasks.tasks[id], gone, now)
      {
        assert id !in OverdueTasks(s.tasks, now);
        Watchdog.SweptFrom(s0.tasks.tasks[id], s.tasks.tasks[id], s.tasks.tasks[id], gone, now);
      }
    }
    hide StaleAgents, OverdueTasks, Watchdog.Swept, Watchdog.Abandoned, Watchdog.Flipped;
  }

  /** The last step halts exactly what is overdue. */
  lemma OverdueHalts(boot: Agents, s: State, op: Op, now: Timestamp)
    requires Enabled(boot, s, op) && op.FailExpired? && JustScanned(s, now) && IndexAgrees(s.tasks)
    ensures var t := Next(boot, s, op);
      && t.agents == s.agents && t.sweep.Idle?
      && t.tasks.contextIndex == s.tasks.contextIndex && t.tasks.tasks.Keys == s.tasks.tasks.Keys
      && forall id :: id in s.tasks.tasks ==> Watchdog.Expired(s.tasks.tasks[id], t.tasks.tasks[id], now)
  {
    var ids :| IsListing(ids, OverdueTasks(s.tasks, now)) && (forall id :: id in ids ==> id in s.tasks.tasks)
      && s.sweep.expired == Remember(s.tasks, ids);
    Listed(ids, OverdueTasks(s.tasks, now));
    RememberedHalt(s.tasks, ids, DEADLINE_REASON, op.mints);
    hide Reap, Watchdog.HaltedBecause, Remember, IndexAgrees, NoDuplicates;
  }

  lemma ExpiredPasses(boot: Agents, s0: State, s: State, op: Op, now: Timestamp, timeout: nat)
    requires Enabled(boot, s, op) && op.FailExpired? && Passing(s0, s, now, timeout) && IndexAgrees(s.tasks)
    ensures Passing(s0, Next(boot, s, op), now, timeout)
  {
    hide Next, JustScanned, IndexAgrees, StaleAgents, Reap, OverdueTasks;
    hide Watchdog.Abandoned, Watchdog.Expired, Watchdog.Swept, Watchdog.Flipped;
    OverdueHalts(boot, s, op, now);
    hide Enabled;
    var t, gone := Next(boot, s, op), StaleAgents(s0.agents, now - timeout);
    forall id | id in s0.tasks.tasks
      ensures Watchdog.Swept(s0.tasks.tasks[id], t.tasks.tasks[id], gone, now)
    {
      Watchdog.SweptFrom(s0.tasks.tasks[id], s.tasks.tasks[id], t.tasks.tasks[id], gone, now);
    }
  }

  lemma CollectPasses(boot: Agents, s0: State, s: State, op: Op, now: Timestamp, timeout: nat)
    requires Enabled(boot, s, op) && op.CollectStale? && Passing(s0, s, now, timeout)
    ensures Passing(s0, Next(boot, s, op), now, timeout)
  {
    if op.order == [] {
      assert Elements(op.order) == {};
      assert forall id :: id in s.agents.agents ==> id !in StaleAgents(s.agents, now - timeout);
      assert Watchdog.Flipped(s.agents.agents, now - timeout) == s.agents.agents;
    }
  }

  lemma BeginPasses(boot: Agents, s: State, op: Op)
    ensures Enabled(boot, s, op) && op.BeginSweep? ==> Passing(s, Next(boot, s, op), op.now, op.timeout)
  {
  }

  lemma StepPasses(boot: State, s0: State, s: State, op: Op, now: Timestamp, timeout: nat)
    requires Invariant(boot, s) && Enabled(boot.agents, s, op) && Assignees.IsWatchdogStep(op) && !s.sweep.Idle?
    requires Passing(s0, s, now, timeout)
    ensures Passing(s0, Next(boot.agents, s, op), now, timeout)
  {
    hide Next, Passing;
    match op {
      case CollectStale(_) => CollectPasses(boot.agents, s0, s, op, now, timeout);
      case FlipStale => FlipPasses(boot.agents, s0, s, op, now, timeout);
      case FailAgent(_, _) => FailPasses(boot.agents, s0, s, op, now, timeout);
      case ScanDeadlines(_) => ScanPasses(boot.agents, s0, s, op, now, timeout);
      case FailExpired(_) => ExpiredPasses(boot.agents, s0, s, op, now, timeout);
      case _ =>
    }
  }

  lemma PassedIsDone(s0: State, s: State, now: Timestamp, timeout: nat)
    ensures Passing(s0, s, now, timeout) && s.sweep.Idle? ==>
      Watchdog.SweepDone(s0.agents, s.agents, s0.tasks, s.tasks, now, timeout)
  {
  }

  /** In any run: a sweep whose steps follow each other without any other step in between does to
      both stores exactly what the uninterrupted pass does; `j` is how far it has got. */
  lemma {:induction false} UninterruptedSweep(states: seq<State>, ops: seq<Op>, b: nat, e: nat, j: nat)
    requires Run(states, ops) && SweepSpan(states, ops, b, e) && b < j <= e
    requires forall k :: b <= k < e ==> Assignees.IsWatchdogStep(ops[k])
    ensures Passing(states[b], states[j], ops[b].now, ops[b].timeout)
    ensures j == e ==> Watchdog.SweepDone(states[b].agents, states[e].agents, states[b].tasks, states[e].tasks,
                                          ops[b].now, ops[b].timeout)
    decreases j
  {
    hide Enabled, Next, Boot, Passing, Invariant, Assignees.IsWatchdogStep, Watchdog.SweepDone;
    RunInvariant(states, ops, j - 1);
    if j == b + 1 {
      BeginPasses(states[0].agents, states[b], ops[b]);
    } else {
      UninterruptedSweep(states, ops, b, e, j - 1);
      StepPasses(states[0], states[b], states[j - 1], ops[j - 1], ops[b].now, ops[b].timeout);
    }
    if j == e {
      PassedIsDone(states[b], states[e], ops[b].now, ops[b].timeout);
    }
  }
}
