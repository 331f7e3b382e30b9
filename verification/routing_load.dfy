/** Routing and load: the router takes the first eligible agent, not the least loaded one. */
module RoutingLoad {
  import opened AgentStore
  import opened AgentTypes
  import opened Collections
  import opened Nexus
  import opened Router
  import opened TaskStore
  import opened TaskTypes
  import opened Uuids

  /** The tasks an agent has in flight. */
  function Load(store: Store, agent: AgentId): nat {
    |InFlight(store, agent)|
  }

  /** No eligible agent has less to do than `chosen`. */
  ghost predicate LeastLoaded(s: Agents, store: Store, t: Task, chosen: AgentId) {
    forall id :: id in s.agents && Eligible(t, s.agents[id]) ==> Load(store, chosen) <= Load(store, id)
  }

  ghost predicate Balanced(s: Agents, store: Store, t: Task) {
    forall a, b :: a in s.agents && b in s.agents && Eligible(t, s.agents[a]) && Eligible(t, s.agents[b]) ==>
      Load(store, a) == Load(store, b)
  }

  /** The agents, in listing order. */
  function Listing(s: Agents, order: seq<AgentId>): seq<AgentInfo>
    requires IsListing(order, s.agents.Keys)
  {
    Listed(order, s.agents.Keys);
    Values(s.agents, order)
  }

  /** With this listing nobody is chosen, or the chosen agent is the least loaded. */
  ghost predicate ChoosesLeast(s: Agents, store: Store, t: Task, order: seq<AgentId>)
    requires IsListing(order, s.agents.Keys)
  {
    var r := SelectAgent(t, Listing(s, order));
    r.Some? ==> LeastLoaded(s, store, t, r.value)
  }

  /** The first eligible agent of the listing has no more to do than any eligible one after it. */
  ghost predicate LightestFirst(s: Agents, store: Store, t: Task, order: seq<AgentId>)
    requires IsListing(order, s.agents.Keys)
  {
    var infos := Listing(s, order);
    forall i, j :: FirstEligible(t, infos, i) && i < j < |infos| && Eligible(t, infos[j]) ==>
      Load(store, order[i]) <= Load(store, order[j])
  }

  lemma ListingCovers(s: Agents, order: seq<AgentId>)
    requires NamesAgree(s) && IsListing(order, s.agents.Keys)
    ensures |Listing(s, order)| == |order|
    ensures forall k :: 0 <= k < |order| ==> Listing(s, order)[k].id == order[k]
    ensures forall k :: 0 <= k < |order| ==> order[k] in s.agents && Listing(s, order)[k] == s.agents[order[k]]
    ensures forall id :: id in s.agents ==> id in order
  {
    Listed(order, s.agents.Keys);
    assert forall k :: 0 <= k < |order| ==> order[k] in order;
  }

  /** For one listing: the choice is least loaded exactly when the first eligible agent has no
      more to do than the eligible ones listed after it. */
  lemma LeastLoadedExactly(s: Agents, store: Store, t: Task, order: seq<AgentId>)
    requires NamesAgree(s) && IsListing(order, s.agents.Keys) && t.assignee.None?
    ensures ChoosesLeast(s, store, t, order) <==> LightestFirst(s, store, t, order)
  {
    hide Load, Eligible, NamesAgree, IsListing, SelectAgent;
    var infos := Listing(s, order);
    ListingCovers(s, order);
    SelectAgentIsEligible(t, infos);
    hide Listing, FirstConnected;
    if SelectAgent(t, infos).Some? {
      var i :| FirstEligible(t, infos, i) && infos[i].id == SelectAgent(t, infos).value;
      FirstIsOne(t, infos, i);
      if LightestFirst(s, store, t, order) {
        forall id | id in s.agents && Eligible(t, s.agents[id])
          ensures Load(store, order[i]) <= Load(store, id)
        {
          var j :| 0 <= j < |order| && order[j] == id;
          assert Eligible(t, infos[j]);
          assert j == i || i < j;
        }
      } else {
        hide FirstEligible;
        var k, j :| FirstEligible(t, infos, k) && k < j < |infos| && Eligible(t, infos[j])
          && Load(store, order[k]) > Load(store, order[j]);
        assert k == i && order[j] in s.agents;
      }
    }
  }

  lemma FirstIsOne(t: Task, agents: seq<AgentInfo>, i: int)
    requires FirstEligible(t, agents, i)
    ensures forall k :: FirstEligible(t, agents, k) ==> k == i
    ensures forall k :: 0 <= k < |agents| && Eligible(t, agents[k]) ==> i <= k
  {
  }

  /** Every set of agents can be listed with a given member first. */
  lemma ListedFirst(ids: set<AgentId>, first: AgentId)
    requires first in ids
    ensures exists order :: IsListing(order, ids) && order != [] && order[0] == first
  {
    if id :| id in ids && id != first {
      ListedFirst(ids - {id}, first);
      var rest :| IsListing(rest, ids - {id}) && rest != [] && rest[0] == first;
      assert id !in Elements(rest);
      assert Elements(rest + [id]) == Elements(rest) + {id};
      assert IsListing(rest + [id], ids);
    } else {
      assert Elements([first]) == {first} == ids;
      assert IsListing([first], ids);
    }
  }

  /** Whatever order the registry lists its agents in, the choice is least loaded: exactly when
      all eligible agents have equally much to do. */
  lemma LeastLoadedAlwaysExactly(s: Agents, store: Store, t: Task)
    requires NamesAgree(s) && t.assignee.None?
    ensures (forall order :: IsListing(order, s.agents.Keys) ==> ChoosesLeast(s, store, t, order)) <==>
      Balanced(s, store, t)
  {
    if Balanced(s, store, t) {
      forall order | IsListing(order, s.agents.Keys)
        ensures ChoosesLeast(s, store, t, order)
      {
        ListingCovers(s, order);
        SelectAgentIsEligible(t, Listing(s, order));
      }
    } else {
      var a, b :| a in s.agents && b in s.agents && Eligible(t, s.agents[a]) && Eligible(t, s.agents[b])
        && Load(store, a) < Load(store, b);
      ListedFirst(s.agents.Keys, b);
      var order :| IsListing(order, s.agents.Keys) && order != [] && order[0] == b;
      ListingCovers(s, order);
      var infos := Listing(s, order);
      assert infos[0] == s.agents[b] && FirstEligible(t, infos, 0);
      SelectAgentIsEligible(t, infos);
      FirstIsOne(t, infos, 0);
      assert SelectAgent(t, infos) == Some(b);
      assert !ChoosesLeast(s, store, t, order);
    }
  }

  // ---- a busier agent is chosen ---------------------------------------------------------------

  const IDLE: AgentId := AgentId(NIL_UUID)
  const BUSY: AgentId := AgentId(NIL_UUID[0 := 1])
  const MESSAGE := TaskMessage(MessageId(NIL_UUID), User, [], None)
  const RUNNING := NewTask(TaskId(NIL_UUID), ContextId(NIL_UUID), MESSAGE, Some(BUSY), None, None, None, 0)
  const NEXT := NewTask(TaskId(NIL_UUID), ContextId(NIL_UUID), MESSAGE, None, None, None, None, 0)

  /** Two agents for the next task, the one with work to do listed first. */
  ghost predicate BothEligible(s: Agents, order: seq<AgentId>) {
    && NamesAgree(s) && IsListing(order, s.agents.Keys) && order == [BUSY, IDLE]
    && IDLE in s.agents && Eligible(NEXT, s.agents[IDLE]) && BUSY in s.agents && Eligible(NEXT, s.agents[BUSY])
  }

  lemma TwoWorkers()
    ensures exists s, order :: BothEligible(s, order)
  {
    var idle := AgentInfo(IDLE, "idle", 0, 0, Connected, None);
    var busy := AgentInfo(BUSY, "busy", 0, 0, Connected, None);
    assert BUSY.uuid[0] != IDLE.uuid[0];
    EnrolledKeepsNames(NO_AGENTS, idle);
    EnrolledKeepsNames(Enrolled(NO_AGENTS, idle), busy);
    var s := Enrolled(Enrolled(NO_AGENTS, idle), busy);
    var order := [BUSY, IDLE];
    assert Elements(order) == {BUSY, IDLE} == s.agents.Keys;
    assert BothEligible(s, order);
  }

  /** Two connected agents, one with a task in flight and one with none; when the busy one is
      listed first, it gets the next task. */
  lemma BusierAgentChosen() returns (s: Agents, store: Store, order: seq<AgentId>)
    ensures NamesAgree(s) && IndexAgrees(store) && IsListing(order, s.agents.Keys) && NEXT.assignee.None?
    ensures SelectAgent(NEXT, Listing(s, order)) == Some(BUSY)
    ensures IDLE in s.agents && Eligible(NEXT, s.agents[IDLE])
    ensures Load(store, BUSY) == 1 && Load(store, IDLE) == 0 && !ChoosesLeast(s, store, NEXT, order)
  {
    hide NamesAgree, Eligible;
    store := Indexed(EMPTY_STORE, RUNNING);
    IndexedKeepsIndex(EMPTY_STORE, RUNNING);
    assert BUSY.uuid[0] != IDLE.uuid[0];
    assert InFlight(store, BUSY) == {RUNNING.id} && InFlight(store, IDLE) == {};
    hide IndexAgrees, Load, InFlight, Indexed;
    TwoWorkers();
    s, order :| BothEligible(s, order);
    ListingCovers(s, order);
    var infos := Listing(s, order);
    assert FirstEligible(NEXT, infos, 0);
    SelectAgentIsEligible(NEXT, infos);
    FirstIsOne(NEXT, infos, 0);
  }
}
