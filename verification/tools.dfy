/** What the tool registry's operations do to its two maps, and the events they publish. */
module ToolStore {
  import opened AgentTypes
  import opened Bus
  import opened Collections
  import opened NameIndexes
  import opened Uuids
  import Utf8

  datatype ToolError =
    | ToolInvalidName(name: string, reason: string)
    | ToolInvalidDescription(name: string, reason: string)
    | ToolAlreadyRegistered(name: string)
    | ToolNotFoundById(id: ToolId)

  datatype Tools = Tools(tools: map<ToolId, ToolInfo>, nameIndex: map<string, ToolId>)

  const NO_TOOLS := Tools(map[], map[])

  datatype ToolChange = ToolChange(store: Tools, events: seq<Event>, result: Result<ToolInfo, ToolError>)

  predicate ToolCharacter(c: char) {
    'a' <= c <= 'z' || 'A' <= c <= 'Z' || '0' <= c <= '9' || c == '-' || c == '_' || c == '.'
  }

  predicate AllToolCharacters(name: string) {
    forall c :: c in name ==> ToolCharacter(c)
  }

  predicate HasTwoDots(name: string) {
    exists i :: 0 <= i < |name| - 1 && name[i] == '.' && name[i + 1] == '.'
  }

  /** Dotted words of ASCII letters, digits, hyphens and underscores, 1 to 64 characters in all. */
  predicate ValidToolName(name: string) {
    && 1 <= |name| <= 64
    && name[0] != '-' && name[|name| - 1] != '-' && name[0] != '.' && name[|name| - 1] != '.'
    && (forall i :: 0 <= i < |name| - 1 && name[i] == '.' ==> name[i + 1] != '.')
    && forall c :: c in name ==>
         var n := c as int; 48 <= n <= 57 || 65 <= n <= 90 || 97 <= n <= 122 || n == 45 || n == 46 || n == 95
  }

  /** The first rule that a name breaks. Its length is counted in bytes. */
  function ToolNameFault(name: string): Option<string> {
    if name == "" then Some("name must not be empty")
    else if |Utf8.Encode(name)| > 64 then Some("name must be 64 characters or fewer")
    else if name[0] == '-' || name[|name| - 1] == '-' then Some("name must not start or end with a hyphen")
    else if name[0] == '.' || name[|name| - 1] == '.' then Some("name must not start or end with a dot")
    else if HasTwoDots(name) then Some("name must not contain consecutive dots")
    else if !AllToolCharacters(name) then
      Some("name may only contain ASCII alphanumeric characters, hyphens, underscores, and dots")
    else None
  }

  /** A name is refused exactly when it breaks the naming rules. */
  lemma ToolNameFaultExactly(name: string)
    ensures ToolNameFault(name).None? <==> ValidToolName(name)
  {
    Utf8.PlainLength(name);
  }

  function Added(s: Tools, info: ToolInfo): Tools {
    Tools(s.tools[info.id := info], s.nameIndex[info.name := info.id])
  }

  function RegisterTool(s: Tools, info: ToolInfo): ToolChange {
    if !ValidToolName(info.name) then
      ToolNameFaultExactly(info.name);
      ToolChange(s, [], Err(ToolInvalidName(info.name, ToolNameFault(info.name).value)))
    else if info.description == "" then
      ToolChange(s, [], Err(ToolInvalidDescription(info.name, "description must not be empty")))
    else if info.name in s.nameIndex then ToolChange(s, [], Err(ToolAlreadyRegistered(info.name)))
    else ToolChange(Added(s, info), [ToolRegistered(info)], Ok(info))
  }

  function DeregisterTool(s: Tools, id: ToolId): ToolChange {
    if id !in s.tools then ToolChange(s, [], Err(ToolNotFoundById(id)))
    else
      var info := s.tools[id];
      ToolChange(Tools(s.tools - {id}, s.nameIndex - {info.name}), [ToolDeregistered(id)], Ok(info))
  }

  function ToolIdOf(info: ToolInfo): ToolId {
    info.id
  }

  function ToolNameOf(info: ToolInfo): string {
    info.name
  }

  /** Repopulating an emptied registry: entries with an invalid name are skipped. */
  function RestoredTools(saved: seq<ToolInfo>): Tools {
    var x := Refilled(saved, ToolIdOf, ToolNameOf, ValidToolName);
    Tools(x.entries, x.names)
  }

  /** The name index is the inverse of the tools' names. */
  ghost predicate ToolsAgree(s: Tools) {
    && (forall id :: id in s.tools ==> s.tools[id].id == id && ValidToolName(s.tools[id].name))
    && (forall id :: id in s.tools ==> s.tools[id].name in s.nameIndex && s.nameIndex[s.tools[id].name] == id)
    && (forall n :: n in s.nameIndex ==> s.nameIndex[n] in s.tools && s.tools[s.nameIndex[n]].name == n)
  }

  lemma RegisterKeepsTools(s: Tools, info: ToolInfo)
    ensures ToolsAgree(s) && info.id !in s.tools ==> ToolsAgree(RegisterTool(s, info).store)
  {
  }

  lemma DeregisterKeepsTools(s: Tools, id: ToolId)
    ensures ToolsAgree(s) ==> ToolsAgree(DeregisterTool(s, id).store)
  {
  }
}

/** The tool registry: two maps updated in place, publishing to the bus. */
module ToolRegistries {
  import opened AgentTypes
  import opened Bus
  import opened Collections
  import opened Json
  import opened ToolStore
  import opened Uuids

  class ToolRegistry {
    var tools: map<ToolId, ToolInfo>
    var nameIndex: map<string, ToolId>
    const bus: MessageBus

    function Contents(): Tools
      reads this
    {
      Tools(tools, nameIndex)
    }

    ghost predicate Valid()
      reads this
    {
      ToolsAgree(Contents())
    }

    constructor (bus: MessageBus)
      ensures Valid() && Contents() == NO_TOOLS && this.bus == bus
    {
      tools, nameIndex := map[], map[];
      this.bus := bus;
    }

    /** `id` is what the id generator returns. */
    method Register(id: ToolId, name: string, description: string, inputSchema: Json, outputSchema: Json,
                    provider: ToolProvider)
      returns (r: Result<ToolInfo, ToolError>)
      requires Valid()
      modifies this, bus
      ensures var info := ToolInfo(id, name, description, inputSchema, outputSchema, provider);
        var c := RegisterTool(old(Contents()), info);
        Contents() == c.store && r == c.result && bus.log == old(bus.log) + c.events
      ensures id !in old(tools) ==> Valid()
    {
      ToolNameFaultExactly(name);
      var fault := ToolNameFault(name);
      if fault.Some? {
        return Err(ToolInvalidName(name, fault.value));
      }
      if description == "" {
        return Err(ToolInvalidDescription(name, "description must not be empty"));
      }
      if name in nameIndex {
        return Err(ToolAlreadyRegistered(name));
      }
      var info := ToolInfo(id, name, description, inputSchema, outputSchema, provider);
      if id !in tools {
        RegisterKeepsTools(Contents(), info);
      }
      nameIndex := nameIndex[name := id];
      tools := tools[id := info];
      bus.Publish(ToolRegistered(info));
      r := Ok(info);
    }

    method Deregister(id: ToolId) returns (r: Result<ToolInfo, ToolError>)
      requires Valid()
      modifies this, bus
      ensures var c := DeregisterTool(old(Contents()), id);
        Contents() == c.store && r == c.result && bus.log == old(bus.log) + c.events
      ensures Valid()
    {
      if id !in tools {
        return Err(ToolNotFoundById(id));
      }
      DeregisterKeepsTools(Contents(), id);
      var info := tools[id];
      tools := tools - {id};
      nameIndex := nameIndex - {info.name};
      bus.Publish(ToolDeregistered(id));
      r := Ok(info);
    }

    /** The name index answers as a search through all tools would. */
    method FindByName(name: string) returns (r: Option<ToolInfo>)
      requires Valid()
      ensures r.Some? <==> exists id :: id in tools && tools[id].name == name
      ensures r.Some? ==> r.value.name == name && r.value.id in tools && tools[r.value.id] == r.value
    {
      if name !in nameIndex {
        return None;
      }
      var id := nameIndex[name];
      r := if id in tools then Some(tools[id]) else None;
    }

    /** Repopulate from a snapshot, skipping invalid names; nothing is published. */
    method Restore(saved: seq<ToolInfo>)
      modifies this
      ensures Contents() == RestoredTools(saved)
    {
      tools, nameIndex := map[], map[];
      for i := 0 to |saved|
        invariant Contents() == RestoredTools(saved[..i])
      {
        assert saved[..i + 1][..i] == saved[..i];
        var info := saved[i];
        if !ValidToolName(info.name) {
          continue;
        }
        nameIndex := nameIndex[info.name := info.id];
        tools := tools[info.id := info];
      }
      assert saved[..|saved|] == saved;
    }
  }
}
