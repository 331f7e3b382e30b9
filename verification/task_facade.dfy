/** Submitting a task: check or choose the assignee under one lock, create the task under another. */
module TaskFacades {
  import opened AgentStore
  import opened AgentTypes
  import opened Collections
  import opened Convergence
  import opened Json
  import opened Nexus
  import opened Registries
  import opened Router
  import opened TaskManagers
  import opened TaskStore
  import opened TaskTypes
  import opened Uuids

  /** Enumerating the agents' ids enumerates the agents. */
  lemma ListedAgents(s: Agents, infos: seq<AgentInfo>, order: seq<AgentId>)
    requires NamesAgree(s) && NoDuplicates(infos)
    requires forall i :: 0 <= i < |infos| ==> infos[i].id in s.agents && s.agents[infos[i].id] == infos[i]
    requires forall id :: id in s.agents ==> s.agents[id] in infos
    requires |order| == |infos| && forall i :: 0 <= i < |infos| ==> order[i] == infos[i].id
    ensures IsListing(order, s.agents.Keys)
    ensures (forall id :: id in order ==> id in s.agents) && Values(s.agents, order) == infos
  {
    forall id | id in s.agents
      ensures id in order
    {
      var i :| 0 <= i < |infos| && infos[i] == s.agents[id];
      assert order[i] == id;
    }
  }

  /** A pinned agent that is unknown or disconnected. */
  predicate BadPin(s: Agents, assignee: Option<AgentId>) {
    assignee.Some? && (assignee.value in s.agents ==> s.agents[assignee.value].status.Disconnected?)
  }

  /** Who a submission may go to: the pinned agent if it is connected, and with none pinned any
      connected agent that carries every tag the metadata demands, or nobody when there is none. */
  ghost predicate GoodChoice(s: Agents, request: Submission, chosen: Option<AgentId>) {
    if request.assignee.Some? then
      chosen == request.assignee && chosen.value in s.agents && s.agents[chosen.value].status.Connected?
    else if chosen.Some? then
      && chosen.value in s.agents && s.agents[chosen.value].status.Connected?
      && Carries(s.agents[chosen.value], request.metadata)
    else
      forall id :: id in s.agents && s.agents[id].status.Connected? ==> !Carries(s.agents[id], request.metadata)
  }

  /** Resolving fails exactly when the pinned agent is unknown or disconnected, and otherwise
      makes a good choice, whatever order the registry lists its agents in. */
  lemma ResolvesWell(s: Agents, request: Submission, order: seq<AgentId>)
    requires NamesAgree(s) && IsListing(order, s.agents.Keys)
    ensures forall id :: id in order ==> id in s.agents
    ensures var r := Resolve(s, request, order);
      && (r.Err? <==> BadPin(s, request.assignee))
      && (r.Ok? ==> GoodChoice(s, request, r.value))
  {
    Listed(order, s.agents.Keys);
    if request.assignee.None? {
      var infos := Values(s.agents, order);
      var t := Draft(request);
      SelectAgentIsEligible(t, infos);
      var r := SelectAgent(t, infos);
      if r.Some? {
        var i :| 0 <= i < |infos| && infos[i].id == r.value && Eligible(t, infos[i]);
        assert order[i] in s.agents && infos[i] == s.agents[order[i]];
      } else {
        forall id | id in s.agents
          ensures !Eligible(t, s.agents[id])
        {
          var i :| 0 <= i < |order| && order[i] == id;
          assert infos[i] == s.agents[id];
        }
      }
    }
  }

  class TaskFacade {
    const tasks: TaskManager
    const registry: AgentRegistry

    ghost predicate Valid()
      reads tasks, registry
    {
      tasks.Valid() && registry.Valid()
    }

    constructor (tasks: TaskManager, registry: AgentRegistry)
      ensures this.tasks == tasks && this.registry == registry
    {
      this.tasks := tasks;
      this.registry := registry;
    }

    /** The part under the registry's read lock. `order` is the order in
        which the registry was listed, if it was. */
    method ResolveAssignee(request: Submission)
      returns (r: Result<Option<AgentId>, AgentError>, ghost order: seq<AgentId>)
      requires Valid()
      ensures request.assignee.None? ==> IsListing(order, registry.agents.Keys)
      ensures forall id :: id in order ==> id in registry.agents
      ensures r == Resolve(registry.Contents(), request, order)
      ensures r.Err? <==> BadPin(registry.Contents(), request.assignee)
      ensures r.Ok? ==> GoodChoice(registry.Contents(), request, r.value)
    {
      if request.assignee.Some? {
        var id := request.assignee.value;
        if id !in registry.agents {
          return Err(AgentNotFound(id)), [];
        }
        if registry.agents[id].status != Connected {
          return Err(AgentNotConnected(registry.agents[id].name)), [];
        }
        r, order := Ok(request.assignee), [];
      } else {
        var agents := registry.List();
        order := seq(|agents|, i requires 0 <= i < |agents| => agents[i].id);
        ListedAgents(registry.Contents(), agents, order);
        ResolvesWell(registry.Contents(), request, order);
        r := Ok(SelectAgent(Draft(request), agents));
      }
    }

    /** With nothing in between the two locks: a refused submission changes and publishes
        nothing; an accepted one creates exactly one task, for an agent that is connected. */
    method SubmitTaskWithDeadline(id: TaskId, freshContext: ContextId, now: Timestamp,
                                  message: TaskMessage, contextId: Option<ContextId>, assignee: Option<AgentId>,
                                  metadata: Option<Json>, deadline: Option<Timestamp>)
      returns (r: Result<Task, AgentError>)
      requires Valid() && id !in tasks.tasks
      modifies tasks, tasks.bus
      ensures Valid()
      ensures r.Err? <==> BadPin(registry.Contents(), assignee)
      ensures r.Err? ==>
        && r.error == (if assignee.value in registry.agents then AgentNotConnected(registry.agents[assignee.value].name)
                       else AgentNotFound(assignee.value))
        && tasks.Contents() == old(tasks.Contents())
        && tasks.channel == old(tasks.channel) && tasks.bus.log == old(tasks.bus.log)
      ensures var request := Submission(message, contextId, assignee, metadata, deadline);
        r.Ok? ==>
          && GoodChoice(registry.Contents(), request, r.value.assignee)
          && r.value == Task(id, if contextId.Some? then contextId.value else freshContext,
                             TaskStatus(Submitted, Some(message), now), [], [message],
                             metadata, r.value.assignee, None, deadline)
          && tasks.Contents() == Create(old(tasks.Contents()), r.value).store
          && tasks.channel == old(tasks.channel) + [Created(r.value)]
          && tasks.bus.log == old(tasks.bus.log) + MirrorAll([Created(r.value)])
    {
      ghost var order;
      var resolved;
      resolved, order := ResolveAssignee(Submission(message, contextId, assignee, metadata, deadline));
      if resolved.Err? {
        return Err(resolved.error);
      }
      var created := tasks.CreateTaskWithDeadline(id, freshContext, now, message, contextId, resolved.value,
                                                  None, metadata, deadline);
      r := Ok(created.value);
    }
  }

  /** In the interleaved system: when no other step comes between the two steps of a submission,
      no task is orphaned by it. */
  lemma PromptSubmissionOrphansNone(boot: State, s: State, resolve: Op, create: Op)
    requires Invariant(boot, s) && NoOrphans(s)
    requires resolve.DoResolve? && Enabled(boot.agents, s, resolve)
    requires create.DoCreate? && create.ticket == resolve.ticket
    requires Enabled(boot.agents, Next(boot.agents, s, resolve), create)
    ensures NoOrphans(Next(boot.agents, Next(boot.agents, s, resolve), create))
  {
    var t := Next(boot.agents, s, resolve);
    StepInvariant(boot, s, resolve);
    OrphansExactlyWhenFiledTooLate(boot, s, resolve);
    OrphansExactlyWhenFiledTooLate(boot, t, create);
    ResolvesWell(s.agents, resolve.request, resolve.order);
    hide GoodChoice, NoOrphans, Invariant;
    assert t.agents == s.agents;
    PendingIsConnected(boot, s, resolve);
  }

  lemma PendingIsConnected(boot: State, s: State, resolve: Op)
    requires Invariant(boot, s) && resolve.DoResolve? && Enabled(boot.agents, s, resolve)
    requires resolve.ticket in Next(boot.agents, s, resolve).pending
    ensures !IsDisconnected(s, Next(boot.agents, s, resolve).pending[resolve.ticket].assignee)
  {
    Listed(resolve.order, s.agents.agents.Keys);
    ResolvesWell(s.agents, resolve.request, resolve.order);
  }
}
