/** Choosing the agent that gets a task. */
module Router {
  import opened AgentTypes
  import opened Collections
  import opened Json
  import opened TaskTypes
  import opened Uuids

  function Strings(items: seq<Json>): seq<string> {
    if items == [] then []
    else (if items[0].String? then [items[0].s] else []) + Strings(items[1..])
  }

  /** The `required_tags` of the task's metadata; none when absent or not an array. */
  function RequiredTags(t: Task): seq<string> {
    if t.metadata.Some? && t.metadata.value.Object? && "required_tags" in t.metadata.value.fields
       && t.metadata.value.fields["required_tags"].Array?
    then Strings(t.metadata.value.fields["required_tags"].items)
    else []
  }

  predicate HasTags(info: AgentInfo, tags: seq<string>) {
    info.capabilities.Some? && forall tag :: tag in tags ==> tag in info.capabilities.value.skillTags
  }

  function FirstConnected(agents: seq<AgentInfo>, tags: seq<string>): Option<AgentId> {
    if agents == [] then None
    else if agents[0].status.Connected? && (tags == [] || HasTags(agents[0], tags)) then Some(agents[0].id)
    else FirstConnected(agents[1..], tags)
  }

  predicate PinConnected(t: Task, agents: seq<AgentInfo>) {
    t.assignee.Some? && exists i :: 0 <= i < |agents| && agents[i].id == t.assignee.value && agents[i].status.Connected?
  }

  function SelectAgent(t: Task, agents: seq<AgentInfo>): Option<AgentId> {
    if PinConnected(t, agents) then t.assignee else FirstConnected(agents, RequiredTags(t))
  }

  /** The metadata demands a tag: it is an object whose `required_tags` is an array with that string. */
  ghost predicate Demands(metadata: Option<Json>, tag: string) {
    && metadata.Some? && metadata.value.Object? && "required_tags" in metadata.value.fields
    && metadata.value.fields["required_tags"].Array?
    && exists i :: 0 <= i < |metadata.value.fields["required_tags"].items|
         && metadata.value.fields["required_tags"].items[i] == String(tag)
  }

  /** The agent has every demanded tag among its skills. */
  ghost predicate Carries(info: AgentInfo, metadata: Option<Json>) {
    forall tag :: Demands(metadata, tag) ==> info.capabilities.Some? && tag in info.capabilities.value.skillTags
  }

  /** May this agent get the task: connected, and pinned or carrying every demanded tag. */
  ghost predicate Eligible(t: Task, info: AgentInfo) {
    info.status.Connected? && (t.assignee == Some(info.id) || Carries(info, t.metadata))
  }

  lemma {:induction false} StringsMember(items: seq<Json>, tag: string)
    ensures tag in Strings(items) <==> exists i :: 0 <= i < |items| && items[i] == String(tag)
  {
    if items != [] {
      StringsMember(items[1..], tag);
      assert forall i :: 1 <= i < |items| ==> items[i] == items[1..][i - 1];
      assert forall i :: 0 <= i < |items| - 1 ==> items[1..][i] == items[i + 1];
    }
  }

  /** What the router tests is whether the agent carries what the task demands. */
  lemma TagsMean(t: Task, info: AgentInfo)
    ensures RequiredTags(t) == [] || HasTags(info, RequiredTags(t)) <==> Carries(info, t.metadata)
  {
    forall tag
      ensures tag in RequiredTags(t) <==> Demands(t.metadata, tag)
    {
      if t.metadata.Some? && t.metadata.value.Object? && "required_tags" in t.metadata.value.fields
         && t.metadata.value.fields["required_tags"].Array? {
        StringsMember(t.metadata.value.fields["required_tags"].items, tag);
      }
    }
    hide RequiredTags, Demands;
    if RequiredTags(t) != [] {
      assert RequiredTags(t)[0] in RequiredTags(t);
    }
  }

  /** `agents[i]` is the first one that may get the task. */
  ghost predicate FirstEligible(t: Task, agents: seq<AgentInfo>, i: int) {
    0 <= i < |agents| && Eligible(t, agents[i]) && forall j :: 0 <= j < i ==> !Eligible(t, agents[j])
  }

  lemma {:induction false} FirstConnectedIsEligible(t: Task, agents: seq<AgentInfo>)
    requires !PinConnected(t, agents)
    ensures var r := FirstConnected(agents, RequiredTags(t));
      && (r.Some? ==> exists i :: FirstEligible(t, agents, i) && agents[i].id == r.value)
      && (r.None? ==> forall i :: 0 <= i < |agents| ==> !Eligible(t, agents[i]))
  {
    if agents != [] {
      var tail := agents[1..];
      assert forall i :: 1 <= i < |agents| ==> agents[i] == tail[i - 1];
      assert forall i :: 0 <= i < |tail| ==> tail[i] == agents[i + 1];
      FirstConnectedIsEligible(t, tail);
      var r := FirstConnected(agents, RequiredTags(t));
      TagsMean(t, agents[0]);
      hide Carries, RequiredTags, HasTags;
      if Eligible(t, agents[0]) {
        assert FirstEligible(t, agents, 0);
      } else if r.Some? {
        var i :| FirstEligible(t, tail, i) && tail[i].id == r.value;
        assert FirstEligible(t, agents, i + 1);
      }
    }
  }

  /** A connected pinned agent is kept; otherwise the first eligible agent in listing order is
      chosen, and none exactly when no agent is eligible. */
  lemma SelectAgentIsEligible(t: Task, agents: seq<AgentInfo>)
    ensures var r := SelectAgent(t, agents);
      && (forall i :: 0 <= i < |agents| && Some(agents[i].id) == t.assignee && agents[i].status.Connected? ==>
            r == t.assignee)
      && (r.Some? && !PinConnected(t, agents) ==> exists i :: FirstEligible(t, agents, i) && agents[i].id == r.value)
      && (r.Some? ==> exists i :: 0 <= i < |agents| && agents[i].id == r.value && Eligible(t, agents[i]))
      && (r.None? <==> forall i :: 0 <= i < |agents| ==> !Eligible(t, agents[i]))
  {
    if PinConnected(t, agents) {
      var i :| 0 <= i < |agents| && agents[i].id == t.assignee.value && agents[i].status.Connected?;
      assert Eligible(t, agents[i]);
    } else {
      FirstConnectedIsEligible(t, agents);
      var r := SelectAgent(t, agents);
      if r.Some? {
        var i :| FirstEligible(t, agents, i) && agents[i].id == r.value;
        assert 0 <= i < |agents| && Eligible(t, agents[i]);
      }
    }
  }
}
