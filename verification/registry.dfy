/** The agent registry: two maps updated in place, publishing to the bus. */
module Registries {
  import opened AgentStore
  import opened AgentTypes
  import opened Bus
  import opened Collections
  import opened TaskTypes
  import opened Uuids

  class AgentRegistry {
    var agents: map<AgentId, AgentInfo>
    var nameIndex: map<string, AgentId>
    const bus: MessageBus

    function Contents(): Agents
      reads this
    {
      Agents(agents, nameIndex)
    }

    ghost predicate Valid()
      reads this
    {
      NamesAgree(Contents())
    }

    constructor (bus: MessageBus)
      ensures Valid() && Contents() == NO_AGENTS && this.bus == bus
    {
      agents, nameIndex := map[], map[];
      this.bus := bus;
    }

    /** `id` and `now` are what the id generator and the clock return. */
    method RegisterAgent(id: AgentId, now: Timestamp, name: string, capabilities: Option<AgentCapabilities>)
      returns (r: Result<AgentInfo, AgentError>)
      requires Valid()
      modifies this, bus
      ensures var c := Register(old(Contents()), id, name, capabilities, now);
        Contents() == c.store && r == c.result && bus.log == old(bus.log) + c.events
      ensures id !in old(agents) ==> Valid()
    {
      hide NameFault, ValidName, NamesAgree;
      NameFaultExactly(name);
      var fault := NameFault(name);
      if fault.Some? {
        return Err(AgentInvalidName(name, fault.value));
      }
      if name in nameIndex {
        return Err(AgentAlreadyRegistered(name));
      }
      var info := AgentInfo(id, name, now, now, Connected, capabilities);
      if id !in agents {
        EnrolledKeepsNames(Contents(), info);
      }
      nameIndex := nameIndex[name := id];
      agents := agents[id := info];
      bus.Publish(AgentRegistered(info));
      r := Ok(info);
    }

    method BumpHeartbeat(id: AgentId, now: Timestamp) returns (r: Result<AgentInfo, AgentError>)
      requires Valid()
      modifies this, bus
      ensures var c := Heartbeat(old(Contents()), id, now);
        Contents() == c.store && r == c.result && bus.log == old(bus.log) + c.events
      ensures Valid()
    {
      if id !in agents {
        return Err(AgentNotFound(id));
      }
      var info := agents[id].(lastHeartbeatAt := now);
      var wasDisconnected := info.status == Disconnected;
      if wasDisconnected {
        info := info.(status := Connected);
      }
      agents := agents[id := info];
      if wasDisconnected {
        bus.Publish(AgentReconnected(info));
      }
      r := Ok(info);
    }

    /** Idempotent: None when the agent is unknown or already disconnected. */
    method FlipToDisconnected(id: AgentId) returns (r: Option<AgentInfo>)
      requires Valid()
      modifies this, bus
      ensures var c := MarkDisconnected(old(Contents()), id);
        && Contents() == c.store && bus.log == old(bus.log) + c.events
        && r == (if c.result.Ok? then Some(c.result.value) else None)
      ensures Valid()
    {
      if id !in agents {
        return None;
      }
      var info := agents[id];
      if info.status == Disconnected {
        return None;
      }
      info := info.(status := Disconnected);
      agents := agents[id := info];
      bus.Publish(AgentDisconnected(info));
      r := Some(info);
    }

    method DeregisterAgent(id: AgentId) returns (r: Result<AgentInfo, AgentError>)
      requires Valid()
      modifies this, bus
      ensures var c := Deregister(old(Contents()), id);
        Contents() == c.store && r == c.result && bus.log == old(bus.log) + c.events
      ensures Valid()
    {
      if id !in agents {
        return Err(AgentNotFound(id));
      }
      DeregisterKeepsNames(Contents(), id);
      var info := agents[id];
      agents := agents - {id};
      nameIndex := nameIndex - {info.name};
      bus.Publish(AgentDeregistered(id));
      r := Ok(info);
    }

    /** All agents, in the map's order. */
    method List() returns (r: seq<AgentInfo>)
      requires Valid()
      ensures NoDuplicates(r)
      ensures forall i :: 0 <= i < |r| ==> r[i].id in agents && agents[r[i].id] == r[i]
      ensures forall id :: id in agents ==> agents[id] in r
    {
      var order := ListKeys(agents);
      r := [];
      for i := 0 to |order|
        invariant |r| == i
        invariant forall k :: 0 <= k < i ==> order[k] in agents && r[k] == agents[order[k]]
      {
        assert order[i] in Elements(order);
        r := r + [agents[order[i]]];
      }
      forall id | id in agents
        ensures agents[id] in r
      {
        assert id in Elements(order);
        var k :| 0 <= k < |order| && order[k] == id;
        assert r[k] == agents[id];
      }
    }

    /** The name index answers as a search through all agents would. */
    method FindAgentByName(name: string) returns (r: Option<AgentInfo>)
      requires Valid()
      ensures r.Some? <==> exists id :: id in agents && agents[id].name == name
      ensures r.Some? ==> r.value.name == name && r.value.id in agents && agents[r.value.id] == r.value
    {
      FindByNameIsSearch(Contents(), name);
      if name !in nameIndex {
        return None;
      }
      var id := nameIndex[name];
      r := if id in agents then Some(agents[id]) else None;
    }

    /** Repopulate from a snapshot, skipping invalid names; nothing is published. */
    method Restore(saved: seq<AgentInfo>)
      modifies this
      ensures Contents() == RestoredAgents(saved)
    {
      agents, nameIndex := map[], map[];
      for i := 0 to |saved|
        invariant Contents() == RestoredAgents(saved[..i])
      {
        assert saved[..i + 1][..i] == saved[..i];
        var info := saved[i];
        if !ValidName(info.name) {
          continue;
        }
        nameIndex := nameIndex[info.name := info.id];
        agents := agents[info.id := info];
      }
      assert saved[..|saved|] == saved;
    }
  }
}
