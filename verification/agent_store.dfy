/** What the registry's operations do to its two maps, and the events they publish. */
module AgentStore {
  import opened AgentTypes
  import opened Bus
  import opened Collections
  import opened NameIndexes
  import opened TaskTypes
  import opened Uuids
  import Utf8

  datatype AgentError =
    | AgentInvalidName(name: string, reason: string)
    | AgentAlreadyRegistered(name: string)
    | AgentNotFound(id: AgentId)
    | AgentNotConnected(name: string)

  datatype Agents = Agents(agents: map<AgentId, AgentInfo>, nameIndex: map<string, AgentId>)

  const NO_AGENTS := Agents(map[], map[])

  datatype AgentChange = AgentChange(store: Agents, events: seq<Event>, result: Result<AgentInfo, AgentError>)

  predicate NameCharacter(c: char) {
    'a' <= c <= 'z' || 'A' <= c <= 'Z' || '0' <= c <= '9' || c == '-' || c == '_'
  }

  predicate AllNameCharacters(name: string) {
    forall c :: c in name ==> NameCharacter(c)
  }

  /** 1 to 64 ASCII letters, digits, hyphens and underscores, by code point; no hyphen at either end. */
  predicate ValidName(name: string) {
    && 1 <= |name| <= 64
    && name[0] != '-' && name[|name| - 1] != '-'
    && forall c :: c in name ==>
         var n := c as int; 48 <= n <= 57 || 65 <= n <= 90 || 97 <= n <= 122 || n == 45 || n == 95
  }

  /** The first rule that a name breaks. Its length is counted in bytes. */
  function NameFault(name: string): Option<string> {
    if name == "" then Some("name must not be empty")
    else if |Utf8.Encode(name)| > 64 then Some("name must be 64 characters or fewer")
    else if name[0] == '-' || name[|name| - 1] == '-' then Some("name must not start or end with a hyphen")
    else if !AllNameCharacters(name) then
      Some("name may only contain ASCII alphanumeric characters, hyphens, and underscores")
    else None
  }

  /** A name is refused exactly when it breaks the naming rules. */
  lemma NameFaultExactly(name: string)
    ensures NameFault(name).None? <==> ValidName(name)
  {
    Utf8.PlainLength(name);
  }

  function Enrolled(s: Agents, info: AgentInfo): Agents {
    Agents(s.agents[info.id := info], s.nameIndex[info.name := info.id])
  }

  function Register(s: Agents, id: AgentId, name: string, capabilities: Option<AgentCapabilities>,
                    now: Timestamp): AgentChange {
    if !ValidName(name) then
      NameFaultExactly(name);
      AgentChange(s, [], Err(AgentInvalidName(name, NameFault(name).value)))
    else if name in s.nameIndex then AgentChange(s, [], Err(AgentAlreadyRegistered(name)))
    else
      var info := AgentInfo(id, name, now, now, Connected, capabilities);
      AgentChange(Enrolled(s, info), [AgentRegistered(info)], Ok(info))
  }

  function Heartbeat(s: Agents, id: AgentId, now: Timestamp): AgentChange {
    if id !in s.agents then AgentChange(s, [], Err(AgentNotFound(id)))
    else
      var info := s.agents[id].(lastHeartbeatAt := now, status := Connected);
      AgentChange(s.(agents := s.agents[id := info]),
                  if s.agents[id].status.Disconnected? then [AgentReconnected(info)] else [],
                  Ok(info))
  }

  function MarkDisconnected(s: Agents, id: AgentId): AgentChange {
    if id !in s.agents then AgentChange(s, [], Err(AgentNotFound(id)))
    else if s.agents[id].status.Disconnected? then AgentChange(s, [], Err(AgentNotConnected(s.agents[id].name)))
    else
      var info := s.agents[id].(status := Disconnected);
      AgentChange(s.(agents := s.agents[id := info]), [AgentDisconnected(info)], Ok(info))
  }

  function Deregister(s: Agents, id: AgentId): AgentChange {
    if id !in s.agents then AgentChange(s, [], Err(AgentNotFound(id)))
    else
      var info := s.agents[id];
      AgentChange(Agents(s.agents - {id}, s.nameIndex - {info.name}), [AgentDeregistered(id)], Ok(info))
  }

  function AgentIdOf(info: AgentInfo): AgentId {
    info.id
  }

  function AgentNameOf(info: AgentInfo): string {
    info.name
  }

  /** Repopulating an emptied registry: entries with an invalid name are skipped. */
  function RestoredAgents(saved: seq<AgentInfo>): Agents {
    var x := Refilled(saved, AgentIdOf, AgentNameOf, ValidName);
    Agents(x.entries, x.names)
  }

  /** Marking a whole list of agents disconnected under one lock. */
  function FlipAll(s: Agents, ids: seq<AgentId>): (Agents, seq<Event>) {
    if ids == [] then (s, [])
    else
      var (before, events) := FlipAll(s, ids[..|ids| - 1]);
      var c := MarkDisconnected(before, ids[|ids| - 1]);
      (c.store, events + c.events)
  }

  // ---- staleness ------------------------------------------------------------------------

  predicate Stale(info: AgentInfo, cutoff: Timestamp) {
    info.status.Connected? && info.lastHeartbeatAt < cutoff
  }

  function StaleAgents(s: Agents, cutoff: Timestamp): set<AgentId> {
    set id | id in s.agents && Stale(s.agents[id], cutoff)
  }

  // ---- the name index is the inverse of the agents' names --------------------------------

  ghost predicate NamesAgree(s: Agents) {
    && (forall id :: id in s.agents ==> s.agents[id].id == id && ValidName(s.agents[id].name))
    && (forall id :: id in s.agents ==> s.agents[id].name in s.nameIndex && s.nameIndex[s.agents[id].name] == id)
    && (forall name :: name in s.nameIndex ==>
          s.nameIndex[name] in s.agents && s.agents[s.nameIndex[name]].name == name)
  }

  lemma EnrolledKeepsNames(s: Agents, info: AgentInfo)
    ensures NamesAgree(s) && ValidName(info.name) && info.id !in s.agents && info.name !in s.nameIndex ==>
      NamesAgree(Enrolled(s, info))
  {
  }

  lemma HeartbeatKeepsNames(s: Agents, id: AgentId, now: Timestamp)
    ensures NamesAgree(s) ==> NamesAgree(Heartbeat(s, id, now).store)
  {
  }

  lemma DeregisterKeepsNames(s: Agents, id: AgentId)
    ensures NamesAgree(s) ==> NamesAgree(Deregister(s, id).store)
  {
  }

  /** Flipping changes the status of the listed connected agents and nothing else. */
  lemma {:induction false} FlipAllEffect(s: Agents, ids: seq<AgentId>)
    ensures var after := FlipAll(s, ids).0;
      && after.nameIndex == s.nameIndex
      && after.agents == map id | id in s.agents ::
           if id in ids then s.agents[id].(status := Disconnected) else s.agents[id]
  {
    if ids != [] {
      var n := |ids| - 1;
      FlipAllEffect(s, ids[..n]);
      assert ids == ids[..n] + [ids[n]];
    }
  }

  /** `flips` announces the loss of each of `ids`, once, and nothing else. */
  ghost predicate FlipsTold(s: Agents, ids: set<AgentId>, flips: seq<Event>) {
    && NoDuplicates(flips)
    && (forall id :: id in ids ==> id in s.agents && AgentDisconnected(s.agents[id].(status := Disconnected)) in flips)
    && (forall e :: e in flips ==>
          && e.AgentDisconnected? && e.info.id in ids && e.info.id in s.agents
          && e.info == s.agents[e.info.id].(status := Disconnected))
  }

  function ConnectedOf(s: Agents, ids: seq<AgentId>): set<AgentId> {
    set id | id in s.agents && s.agents[id].status.Connected? && id in ids
  }

  lemma OneMoreFlip(s: Agents, ids: set<AgentId>, flips: seq<Event>, id: AgentId)
    requires NamesAgree(s) && FlipsTold(s, ids, flips) && id in s.agents && id !in ids
    ensures FlipsTold(s, ids + {id}, flips + [AgentDisconnected(s.agents[id].(status := Disconnected))])
  {
    var e := AgentDisconnected(s.agents[id].(status := Disconnected));
    assert e !in flips;
    AppendDistinct(flips, e);
    hide NoDuplicates;
  }

  lemma FlippedBefore(s: Agents, ids: seq<AgentId>, id: AgentId)
    ensures MarkDisconnected(FlipAll(s, ids).0, id).events ==
      if id in s.agents && s.agents[id].status.Connected? && id !in ids
      then [AgentDisconnected(s.agents[id].(status := Disconnected))] else []
  {
    FlipAllEffect(s, ids);
  }

  /** Flipping announces every listed agent that was connected, once each. */
  lemma {:induction false} FlipAllTells(s: Agents, ids: seq<AgentId>)
    requires NamesAgree(s)
    ensures FlipsTold(s, ConnectedOf(s, ids), FlipAll(s, ids).1)
  {
    hide FlipsTold, NamesAgree, MarkDisconnected;
    if ids == [] {
      NoFlips(s);
    } else {
      var n := |ids| - 1;
      var init, id := ids[..n], ids[n];
      FlipAllTells(s, init);
      FlippedBefore(s, init, id);
      assert ids == init + [id];
      var flips := FlipAll(s, init).1;
      if id in s.agents && s.agents[id].status.Connected? && id !in init {
        OneMoreFlip(s, ConnectedOf(s, init), flips, id);
        assert ConnectedOf(s, ids) == ConnectedOf(s, init) + {id};
      } else {
        assert ConnectedOf(s, ids) == ConnectedOf(s, init);
        assert flips + [] == flips;
      }
    }
  }

  lemma NoFlips(s: Agents)
    ensures FlipsTold(s, ConnectedOf(s, []), FlipAll(s, []).1)
  {
  }

  lemma FlipAllKeepsNames(s: Agents, ids: seq<AgentId>)
    ensures NamesAgree(s) ==> NamesAgree(FlipAll(s, ids).0)
  {
    FlipAllEffect(s, ids);
  }

  /** Looking a name up in the index and searching every agent for it give the same answer. */
  function FindByName(s: Agents, name: string): Option<AgentInfo> {
    if name in s.nameIndex && s.nameIndex[name] in s.agents then Some(s.agents[s.nameIndex[name]]) else None
  }

  lemma FindByNameIsSearch(s: Agents, name: string)
    requires NamesAgree(s)
    ensures FindByName(s, name).Some? <==> exists id :: id in s.agents && s.agents[id].name == name
    ensures forall id :: id in s.agents && s.agents[id].name == name ==> FindByName(s, name) == Some(s.agents[id])
  {
  }

  // ---- agent lifecycles -------------------------------------------------------------------

  datatype Mark = Joined | Lost | Back | Left

  function MarkOf(e: Event, id: AgentId): seq<Mark> {
    match e
    case AgentRegistered(info) => if info.id == id then [Joined] else []
    case AgentDisconnected(info) => if info.id == id then [Lost] else []
    case AgentReconnected(info) => if info.id == id then [Back] else []
    case AgentDeregistered(i) => if i == id then [Left] else []
    case _ => []
  }

  /** The part of the bus log that is about one agent. */
  function Word(log: seq<Event>, id: AgentId): seq<Mark> {
    if log == [] then [] else Word(log[..|log| - 1], id) + MarkOf(log[|log| - 1], id)
  }

  lemma WordAppend(log: seq<Event>, e: Event, id: AgentId)
    ensures Word(log + [e], id) == Word(log, id) + MarkOf(e, id)
  {
    assert (log + [e])[..|log|] == log;
  }

  predicate MayFollow(past: seq<Mark>, m: Mark) {
    if past == [] then m.Joined?
    else
      var last := past[|past| - 1];
      match m
      case Joined => false
      case Lost => last.Joined? || last.Back?
      case Back => last.Lost?
      case Left => !last.Left?
  }

  /** Joined first and only first, then Lost and Back strictly alternating, then at most one
      Left, after which nothing follows. */
  ghost predicate Lifecycle(w: seq<Mark>) {
    forall k :: 0 <= k < |w| ==> MayFollow(w[..k], w[k])
  }

  lemma LifecycleExtend(w: seq<Mark>, m: Mark)
    requires Lifecycle(w) && MayFollow(w, m)
    ensures Lifecycle(w + [m])
  {
    forall k | 0 <= k < |w + [m]|
      ensures MayFollow((w + [m])[..k], (w + [m])[k])
    {
      assert (w + [m])[..k] == if k < |w| then w[..k] else w;
    }
  }

  /** Membership and status as the last mark tells them. */
  ghost predicate ToldBy(s: Agents, id: AgentId, w: seq<Mark>) {
    if w == [] || w[|w| - 1].Left? then id !in s.agents
    else id in s.agents && (s.agents[id].status.Disconnected? <==> w[|w| - 1].Lost?)
  }

  /** The marks a restored agent starts from. */
  function Origin(s: Agents, id: AgentId): seq<Mark> {
    if id !in s.agents then []
    else if s.agents[id].status.Connected? then [Joined] else [Joined, Lost]
  }

  /** The whole life of `id`, seen from the bus. */
  function Life(origin: Agents, log: seq<Event>, id: AgentId): seq<Mark> {
    Origin(origin, id) + Word(log, id)
  }

  ghost predicate Told(origin: Agents, s: Agents, log: seq<Event>) {
    forall id: AgentId :: Lifecycle(Life(origin, log, id)) && ToldBy(s, id, Life(origin, log, id))
  }

  /** The id generator never repeats itself: no trace of the id in the log, nor at the start. */
  ghost predicate FreshAgent(origin: Agents, log: seq<Event>, id: AgentId) {
    Life(origin, log, id) == []
  }

  lemma ToldAtStart(s: Agents)
    ensures Told(s, s, [])
  {
    forall id: AgentId
      ensures Lifecycle(Life(s, [], id)) && ToldBy(s, id, Life(s, [], id))
    {
      assert Life(s, [], id) == Origin(s, id);
      assert [Joined, Lost][..1] == [Joined];
    }
  }

  lemma LifeAppend(origin: Agents, log: seq<Event>, e: Event, id: AgentId)
    ensures Life(origin, log + [e], id) == Life(origin, log, id) + MarkOf(e, id)
  {
    WordAppend(log, e, id);
  }

  lemma SpeakOn(w: seq<Mark>, m: Mark, t: Agents, id: AgentId)
    requires Lifecycle(w) && MayFollow(w, m) && ToldBy(t, id, [m])
    ensures Lifecycle(w + [m]) && ToldBy(t, id, w + [m])
  {
    LifecycleExtend(w, m);
    hide Lifecycle;
    assert (w + [m])[|w|] == m;
  }

  /** One event that is the right next mark for its subject and tells the subject's new status. */
  lemma ToldStep(origin: Agents, s: Agents, log: seq<Event>, t: Agents, e: Event, subject: AgentId, m: Mark)
    requires Told(origin, s, log)
    requires forall id :: MarkOf(e, id) == if id == subject then [m] else []
    requires forall id :: id != subject ==> (id in s.agents <==> id in t.agents)
    requires forall id :: id != subject && id in s.agents ==> s.agents[id].status == t.agents[id].status
    requires MayFollow(Life(origin, log, subject), m)
    requires ToldBy(t, subject, [m])
    ensures Told(origin, t, log + [e])
  {
    hide Lifecycle, MayFollow, Life, MarkOf;
    forall id: AgentId
      ensures Lifecycle(Life(origin, log + [e], id)) && ToldBy(t, id, Life(origin, log + [e], id))
    {
      LifeAppend(origin, log, e, id);
      var w := Life(origin, log, id);
      assert Lifecycle(w) && ToldBy(s, id, w);
      if id == subject {
        SpeakOn(w, m, t, id);
      } else {
        assert w + [] == w;
      }
    }
  }

  /** A change that publishes nothing and changes nobody's membership or status. */
  lemma ToldSilently(origin: Agents, s: Agents, log: seq<Event>, t: Agents)
    requires Told(origin, s, log)
    requires s.agents.Keys == t.agents.Keys
    requires forall id :: id in s.agents ==> s.agents[id].status == t.agents[id].status
    ensures Told(origin, t, log + [])
  {
    assert log + [] == log;
    forall id: AgentId
      ensures Lifecycle(Life(origin, log, id)) && ToldBy(t, id, Life(origin, log, id))
    {
      assert ToldBy(s, id, Life(origin, log, id));
    }
  }

  /** Events that are about no agent. */
  lemma ToldOther(origin: Agents, s: Agents, log: seq<Event>, e: Event)
    requires Told(origin, s, log)
    requires !e.AgentRegistered? && !e.AgentDisconnected? && !e.AgentReconnected? && !e.AgentDeregistered?
    ensures Told(origin, s, log + [e])
  {
    forall id: AgentId
      ensures Lifecycle(Life(origin, log + [e], id)) && ToldBy(s, id, Life(origin, log + [e], id))
    {
      WordAppend(log, e, id);
      assert Life(origin, log + [e], id) == Life(origin, log, id);
    }
  }

  lemma FreshLife(origin: Agents, log: seq<Event>, id: AgentId)
    ensures FreshAgent(origin, log, id) <==> Life(origin, log, id) == []
  {
  }

  lemma RegisterTold(origin: Agents, s: Agents, log: seq<Event>, id: AgentId, name: string,
                     capabilities: Option<AgentCapabilities>, now: Timestamp)
    requires Told(origin, s, log) && FreshAgent(origin, log, id)
    ensures var c := Register(s, id, name, capabilities, now); Told(origin, c.store, log + c.events)
  {
    hide NameFault, ValidName, Lifecycle, Life;
    FreshLife(origin, log, id);
    var c := Register(s, id, name, capabilities, now);
    if c.result.Err? {
      ToldSilently(origin, s, log, c.store);
    } else {
      ToldStep(origin, s, log, c.store, c.events[0], id, Joined);
    }
  }

  lemma HeartbeatTold(origin: Agents, s: Agents, log: seq<Event>, id: AgentId, now: Timestamp)
    requires Told(origin, s, log) && NamesAgree(s)
    ensures var c := Heartbeat(s, id, now); Told(origin, c.store, log + c.events)
  {
    hide Lifecycle, Life;
    var c := Heartbeat(s, id, now);
    if c.events == [] {
      ToldSilently(origin, s, log, c.store);
    } else {
      assert ToldBy(s, id, Life(origin, log, id));
      ToldStep(origin, s, log, c.store, c.events[0], id, Back);
    }
  }

  lemma MarkDisconnectedTold(origin: Agents, s: Agents, log: seq<Event>, id: AgentId)
    requires Told(origin, s, log) && NamesAgree(s)
    ensures var c := MarkDisconnected(s, id); Told(origin, c.store, log + c.events)
  {
    var c := MarkDisconnected(s, id);
    if c.result.Err? {
      ToldSilently(origin, s, log, c.store);
    } else {
      assert ToldBy(s, id, Life(origin, log, id));
      ToldStep(origin, s, log, c.store, c.events[0], id, Lost);
    }
  }

  lemma DeregisterTold(origin: Agents, s: Agents, log: seq<Event>, id: AgentId)
    requires Told(origin, s, log)
    ensures var c := Deregister(s, id); Told(origin, c.store, log + c.events)
  {
    var c := Deregister(s, id);
    if c.result.Err? {
      ToldSilently(origin, s, log, c.store);
    } else {
      assert ToldBy(s, id, Life(origin, log, id));
      ToldStep(origin, s, log, c.store, c.events[0], id, Left);
    }
  }

  lemma {:induction false} FlipAllTold(origin: Agents, s: Agents, log: seq<Event>, ids: seq<AgentId>)
    requires Told(origin, s, log) && NamesAgree(s)
    ensures Told(origin, FlipAll(s, ids).0, log + FlipAll(s, ids).1)
  {
    if ids == [] {
      ToldSilently(origin, s, log, s);
    } else {
      var n := |ids| - 1;
      var (before, events) := FlipAll(s, ids[..n]);
      FlipAllTold(origin, s, log, ids[..n]);
      FlipAllKeepsNames(s, ids[..n]);
      MarkDisconnectedTold(origin, before, log + events, ids[n]);
      assert log + FlipAll(s, ids).1 == log + events + MarkDisconnected(before, ids[n]).events;
    }
  }
}
