/** Paging through a nexus that keeps running between the requests. */
module PagingRuns {
  import opened Nexus
  import opened Paging
  import opened TaskManagers
  import opened TaskStore
  import opened TaskTypes
  import opened Uuids

  /** One client's walk: request `k` is answered from state `at[k]`, later requests from later
      states. The token starts empty, is handed on, and is empty again after the last request. */
  ghost predicate PagedThrough(states: seq<State>, at: seq<nat>, filter: TaskFilter,
                               requests: seq<PageRequest>, responses: seq<PageResponse>) {
    && 0 < |at| == |requests| == |responses|
    && (forall k :: 0 <= k < |at| ==> at[k] < |states| && requests[k].filter == filter)
    && (forall j, k :: 0 <= j <= k < |at| ==> at[j] <= at[k])
    && (forall k :: 0 <= k < |at| ==> Answers(states[at[k]].tasks, requests[k], responses[k]))
    && requests[0].token == "" && responses[|at| - 1].nextToken == ""
    && (forall k :: 0 < k < |at| ==> requests[k].token == responses[k - 1].nextToken != "")
  }

  ghost function AnswerList(store: Store, request: PageRequest, response: PageResponse): (list: seq<Task>)
    requires Answers(store, request, response)
    ensures SortedById(list) && ListsMatching(list, store, request.filter) && response == Page(list, request)
  {
    var list :| SortedById(list) && ListsMatching(list, store, request.filter) && response == Page(list, request);
    list
  }

  ghost function AnswerLists(states: seq<State>, at: seq<nat>, filter: TaskFilter,
                             requests: seq<PageRequest>, responses: seq<PageResponse>): (lists: seq<seq<Task>>)
    requires PagedThrough(states, at, filter, requests, responses)
    ensures |lists| == |at|
  {
    seq(|at|, k requires 0 <= k < |at| => AnswerList(states[at[k]].tasks, requests[k], responses[k]))
  }

  function PageSizes(requests: seq<PageRequest>): seq<nat> {
    seq(|requests|, k requires 0 <= k < |requests| => PageSize(requests[k]))
  }

  function Tokens(requests: seq<PageRequest>): seq<string> {
    seq(|requests| + 1, k requires 0 <= k <= |requests| => if k < |requests| then requests[k].token else "")
  }

  /** One request of the walk. */
  lemma PagedStep(states: seq<State>, at: seq<nat>, filter: TaskFilter,
                  requests: seq<PageRequest>, responses: seq<PageResponse>, k: nat)
    requires PagedThrough(states, at, filter, requests, responses) && k < |at|
    ensures var list := AnswerLists(states, at, filter, requests, responses)[k];
      && SortedById(list) && ListsMatching(list, states[at[k]].tasks, filter) && PageSizes(requests)[k] > 0
      && Items(list, Tokens(requests)[k], PageSizes(requests)[k]) == responses[k].tasks
      && NextToken(list, Tokens(requests)[k], PageSizes(requests)[k]) == responses[k].nextToken
    ensures Tokens(requests)[k + 1] == responses[k].nextToken
  {
    hide SortedById, ListsMatching, Items, NextToken, PageSize, Answers, AnswerList;
    assert Answers(states[at[k]].tasks, requests[k], responses[k]);
    SizePositive(requests[k]);
  }

  lemma SizePositive(request: PageRequest)
    ensures PageSize(request) > 0
  {
  }

  /** The walk through the states is a walk through the lists they answer with. */
  lemma PagedIsWalk(states: seq<State>, at: seq<nat>, filter: TaskFilter,
                    requests: seq<PageRequest>, responses: seq<PageResponse>)
    requires PagedThrough(states, at, filter, requests, responses)
    ensures var lists := AnswerLists(states, at, filter, requests, responses);
      && Walk(lists, PageSizes(requests), Tokens(requests))
      && forall k :: 0 <= k < |at| ==>
           WalkPage(lists, PageSizes(requests), Tokens(requests), k) == responses[k].tasks
           && ListsMatching(lists[k], states[at[k]].tasks, filter)
  {
    hide SortedById, ListsMatching, Items, NextToken, Answers, PageSize, AnswerList;
    var lists := AnswerLists(states, at, filter, requests, responses);
    forall k | 0 <= k < |at|
      ensures SortedById(lists[k]) && ListsMatching(lists[k], states[at[k]].tasks, filter) && PageSizes(requests)[k] > 0
      ensures Items(lists[k], Tokens(requests)[k], PageSizes(requests)[k]) == responses[k].tasks
      ensures NextToken(lists[k], Tokens(requests)[k], PageSizes(requests)[k]) == responses[k].nextToken
      ensures Tokens(requests)[k + 1] == responses[k].nextToken
    {
      PagedStep(states, at, filter, requests, responses, k);
    }
    hide AnswerLists;
  }

  lemma MatchIsListed(list: seq<Task>, store: Store, filter: TaskFilter, id: TaskId)
    ensures ListsMatching(list, store, filter) && id in store.tasks && store.tasks[id].id == id ==>
      (filter.Matches(store.tasks[id]) ==> Lists(list, id))
  {
  }

  /** A task that matches in every answering state is returned exactly once, as it is in the
      state that answers. */
  lemma PagedVisitsOnce(states: seq<State>, at: seq<nat>, filter: TaskFilter,
                        requests: seq<PageRequest>, responses: seq<PageResponse>, id: TaskId) returns (k: nat)
    requires PagedThrough(states, at, filter, requests, responses)
    requires forall j :: 0 <= j < |at| ==>
      && id in states[at[j]].tasks.tasks && states[at[j]].tasks.tasks[id].id == id
      && filter.Matches(states[at[j]].tasks.tasks[id])
    ensures k < |at| && states[at[k]].tasks.tasks[id] in responses[k].tasks
    ensures forall j, u :: 0 <= j < |at| && j != k && u in responses[j].tasks ==> u.id != id
  {
    hide Walk, WalkPage, Answers, SortedById, AnswerLists, ListsMatching, Lists;
    PagedIsWalk(states, at, filter, requests, responses);
    var lists := AnswerLists(states, at, filter, requests, responses);
    forall j | 0 <= j < |lists|
      ensures Lists(lists[j], id)
    {
      MatchIsListed(lists[j], states[at[j]].tasks, filter, id);
    }
    k := WalkVisitsOnce(lists, PageSizes(requests), Tokens(requests), id);
    PageOfList(lists, PageSizes(requests), Tokens(requests), k, id, states[at[k]].tasks, filter);
  }

  /** A page shows tasks as the answering store has them. */
  lemma PageOfList(lists: seq<seq<Task>>, sizes: seq<nat>, tokens: seq<string>, k: nat, id: TaskId,
                   store: Store, filter: TaskFilter)
    requires Walk(lists, sizes, tokens) && k < |lists| && ListsMatching(lists[k], store, filter)
    requires Lists(WalkPage(lists, sizes, tokens, k), id) && id in store.tasks
    ensures store.tasks[id] in WalkPage(lists, sizes, tokens, k)
  {
    var t :| t in WalkPage(lists, sizes, tokens, k) && t.id == id;
    assert t in lists[k];
  }

  /** In any run, listing by context or assignee misses nothing: those never change, so a task
      that matches when paging starts is returned exactly once, whatever happens meanwhile. */
  lemma PagedMissesNothing(states: seq<State>, ops: seq<Op>, at: seq<nat>, filter: TaskFilter,
                           requests: seq<PageRequest>, responses: seq<PageResponse>, id: TaskId) returns (k: nat)
    requires Run(states, ops) && PagedThrough(states, at, filter, requests, responses) && filter.state.None?
    requires id in states[at[0]].tasks.tasks && filter.Matches(states[at[0]].tasks.tasks[id])
    ensures k < |at| && id in states[at[k]].tasks.tasks && states[at[k]].tasks.tasks[id] in responses[k].tasks
    ensures forall j, u :: 0 <= j < |at| && j != k && u in responses[j].tasks ==> u.id != id
  {
    hide Run, Answers;
    forall j | 0 <= j < |at|
      ensures id in states[at[j]].tasks.tasks && states[at[j]].tasks.tasks[id].id == id
      ensures filter.Matches(states[at[j]].tasks.tasks[id])
    {
      RunEvolves(states, ops, at[0], at[j]);
      RunInvariant(states, ops, at[j]);
      assert Evolves(states[at[0]].tasks.tasks[id], states[at[j]].tasks.tasks[id]);
    }
    k := PagedVisitsOnce(states, at, filter, requests, responses, id);
  }

  // ---- an unchanging store ----------------------------------------------------------------------

  function Pages(responses: seq<PageResponse>): seq<seq<Task>> {
    seq(|responses|, k requires 0 <= k < |responses| => responses[k].tasks)
  }

  /** From request `k` of a walk over one list, the pages are those of following the tokens. */
  lemma {:induction false} WalkFollows(list: seq<Task>, size: nat, lists: seq<seq<Task>>, sizes: seq<nat>,
                                       tokens: seq<string>, pages: seq<seq<Task>>, k: nat)
    requires Walk(lists, sizes, tokens) && |pages| == |lists| && k < |lists|
    requires SortedById(list) && size > 0
    requires forall j :: 0 <= j < |lists| ==>
      lists[j] == list && sizes[j] == size && pages[j] == WalkPage(lists, sizes, tokens, j)
    ensures Follow(list, size, tokens[k]) == pages[k..]
    decreases |lists| - k
  {
    hide SortedById, Items, NextToken;
    assert pages[k..] == [pages[k]] + pages[k + 1..];
    if k + 1 < |lists| {
      WalkFollows(list, size, lists, sizes, tokens, pages, k + 1);
    }
  }

  /** Over an unchanging store with one page size, the responses together are the matching tasks
      in id order, and there are max(1, ceil(n / size)) of them. */
  lemma PagedFixedStore(states: seq<State>, at: seq<nat>, filter: TaskFilter, requests: seq<PageRequest>,
                        responses: seq<PageResponse>, store: Store, size: nat) returns (list: seq<Task>)
    requires PagedThrough(states, at, filter, requests, responses)
    requires forall k :: 0 <= k < |at| ==> states[at[k]].tasks == store && PageSize(requests[k]) == size
    ensures SortedById(list) && ListsMatching(list, store, filter) && Paging.Joined(Pages(responses)) == list
    ensures if list == [] then |responses| == 1 else (|responses| - 1) * size < |list| <= |responses| * size
  {
    hide SortedById, ListsMatching, Answers, AnswerLists, PageSize, Follow, Paging.Joined, Items, NextToken;
    PagedIsWalk(states, at, filter, requests, responses);
    var lists := AnswerLists(states, at, filter, requests, responses);
    list := lists[0];
    PagedStep(states, at, filter, requests, responses, 0);
    forall k | 0 <= k < |at|
      ensures lists[k] == list
    {
      PagedStep(states, at, filter, requests, responses, k);
      SameAnswer(lists[k], list, store, filter);
    }
    WalkFollows(list, size, lists, PageSizes(requests), Tokens(requests), Pages(responses), 0);
    assert Pages(responses)[0..] == Pages(responses);
    FollowVisitsOnce(list, size);
  }

  lemma SameAnswer(a: seq<Task>, b: seq<Task>, store: Store, filter: TaskFilter)
    ensures SortedById(a) && SortedById(b) && ListsMatching(a, store, filter) && ListsMatching(b, store, filter) ==>
      a == b
  {
    if SortedById(a) && SortedById(b) && ListsMatching(a, store, filter) && ListsMatching(b, store, filter) {
      SortedUnique(a, b);
    }
  }
}
