/** Cursor pagination of task lists: id order, and the last returned id as the token. */
module Paging {
  import opened Collections
  import opened TaskManagers
  import opened TaskStore
  import opened TaskTypes
  import opened Uuids

  ghost predicate SortedById(list: seq<Task>) {
    forall i, j :: 0 <= i < j < |list| ==> IdLess(list[i].id, list[j].id)
  }

  datatype PageRequest = PageRequest(filter: TaskFilter, pageSize: Option<int>, token: string)

  datatype PageResponse = PageResponse(tasks: seq<Task>, nextToken: string, pageSize: int, totalSize: int)

  const I32_MAX := 0x7fff_ffff

  function Clamp(n: int, lo: int, hi: int): int {
    if n < lo then lo else if n > hi then hi else n
  }

  function PageSize(request: PageRequest): nat {
    Clamp(if request.pageSize.Some? then request.pageSize.value else 50, 1, 100)
  }

  /** The first index whose rendered id is after `token`; the length when there is none. */
  function Position(list: seq<Task>, token: string): nat {
    if list == [] then 0
    else if TextLess(token, Render(list[0].id.uuid)) then 0
    else 1 + Position(list[1..], token)
  }

  function StartIndex(list: seq<Task>, token: string): (i: nat)
    ensures i <= |list|
  {
    PositionInRange(list, token);
    if token == "" then 0 else Position(list, token)
  }

  lemma {:induction false} PositionInRange(list: seq<Task>, token: string)
    ensures Position(list, token) <= |list|
    ensures forall i :: 0 <= i < Position(list, token) ==> !TextLess(token, Render(list[i].id.uuid))
    ensures Position(list, token) < |list| ==> TextLess(token, Render(list[Position(list, token)].id.uuid))
  {
    if list != [] {
      PositionInRange(list[1..], token);
      if !TextLess(token, Render(list[0].id.uuid)) {
        assert forall i :: 1 <= i < |list| ==> list[i] == list[1..][i - 1];
      }
    }
  }

  function EndIndex(list: seq<Task>, token: string, size: nat): (i: nat)
    ensures StartIndex(list, token) <= i <= |list|
  {
    if StartIndex(list, token) + size <= |list| then StartIndex(list, token) + size else |list|
  }

  function Items(list: seq<Task>, token: string, size: nat): seq<Task> {
    list[StartIndex(list, token)..EndIndex(list, token, size)]
  }

  function NextToken(list: seq<Task>, token: string, size: nat): string {
    var page := Items(list, token, size);
    if EndIndex(list, token, size) < |list| && page != [] then Render(page[|page| - 1].id.uuid) else ""
  }

  function Saturated(n: nat): int {
    if n <= I32_MAX then n else I32_MAX
  }

  function Page(list: seq<Task>, request: PageRequest): PageResponse {
    var items := Items(list, request.token, PageSize(request));
    PageResponse(items, NextToken(list, request.token, PageSize(request)), Saturated(|items|), Saturated(|list|))
  }

  /** A response in full: fifty tasks a page when no size is asked for, at least one and at most a
      hundred when one is; a page that is not the last is full. */
  lemma PageMeans(list: seq<Task>, request: PageRequest)
    requires SortedById(list)
    ensures var size := if request.pageSize.None? then 50
                        else if request.pageSize.value < 1 then 1
                        else if request.pageSize.value > 100 then 100
                        else request.pageSize.value;
      var r := Page(list, request);
      && |r.tasks| <= size && (r.nextToken != "" ==> |r.tasks| == size)
      && r.pageSize == |r.tasks|
      && r.totalSize == if |list| <= 2147483647 then |list| else 2147483647
  {
    NextCuts(list, request.token, PageSize(request));
  }

  // ---- sorting ------------------------------------------------------------------------------

  function InsertById(list: seq<Task>, t: Task): seq<Task> {
    if list == [] || IdLess(t.id, list[0].id) then [t] + list else [list[0]] + InsertById(list[1..], t)
  }

  function SortById(list: seq<Task>): seq<Task> {
    if list == [] then [] else InsertById(SortById(list[1..]), list[0])
  }

  lemma {:induction false} InsertSorted(list: seq<Task>, t: Task)
    requires SortedById(list) && forall u :: u in list ==> u.id != t.id
    ensures SortedById(InsertById(list, t))
    ensures forall u :: u in InsertById(list, t) <==> u == t || u in list
  {
    if list != [] {
      if IdLess(t.id, list[0].id) {
        forall i | 0 <= i < |list|
          ensures IdLess(t.id, list[i].id)
        {
          if i > 0 { BytesLessTransitive(t.id.uuid, list[0].id.uuid, list[i].id.uuid); }
        }
      } else {
        BytesLessTotal(t.id.uuid, list[0].id.uuid);
        assert list[0] in list;
        var tail := list[1..];
        assert forall u :: u in list <==> u == list[0] || u in tail;
        InsertSorted(tail, t);
        var inserted := InsertById(tail, t);
        forall i | 0 <= i < |inserted|
          ensures IdLess(list[0].id, inserted[i].id)
        {
          assert inserted[i] in inserted;
          if inserted[i] != t {
            var k :| 0 <= k < |tail| && tail[k] == inserted[i];
            assert tail[k] == list[k + 1];
          }
        }
      }
    }
  }

  lemma {:induction false} SortSorts(list: seq<Task>)
    requires DistinctIds(list)
    ensures SortedById(SortById(list))
    ensures forall u :: u in SortById(list) <==> u in list
  {
    if list != [] {
      SortSorts(list[1..]);
      assert forall u :: u in list <==> u == list[0] || u in list[1..];
      forall u | u in SortById(list[1..])
        ensures u.id != list[0].id
      {
        var k :| 0 <= k < |list[1..]| && list[1..][k] == u;
        assert list[k + 1] == u;
      }
      InsertSorted(SortById(list[1..]), list[0]);
    }
  }

  /** The order the hash map gave the tasks in does not matter: sorted lists of the same tasks are equal. */
  lemma {:induction false} SortedUnique(a: seq<Task>, b: seq<Task>)
    requires SortedById(a) && SortedById(b)
    requires forall t :: t in a <==> t in b
    ensures a == b
  {
    EmptyTogether(a, b);
    if a != [] {
      assert a[0] in a && a[0] in b;
      assert b[0] in b && b[0] in a;
      HeadsEqual(a, b);
      forall t
        ensures t in a[1..] <==> t in b[1..]
      {
        TailMember(a, t);
        TailMember(b, t);
      }
      SortedUnique(a[1..], b[1..]);
      assert a == [a[0]] + a[1..] && b == [b[0]] + b[1..];
    }
  }

  lemma EmptyTogether(a: seq<Task>, b: seq<Task>)
    requires forall t :: t in b ==> t in a
    ensures b != [] ==> a != []
  {
    if b != [] {
      assert b[0] in b;
      assert b[0] in a;
    }
  }

  lemma TailMember(a: seq<Task>, t: Task)
    requires SortedById(a) && a != []
    ensures t in a[1..] <==> t in a && t != a[0]
  {
    if k :| 1 <= k < |a| && a[k] == t {
      assert a[1..][k - 1] == t;
      BytesLessTotal(a[0].id.uuid, a[k].id.uuid);
    }
  }

  lemma HeadsEqual(a: seq<Task>, b: seq<Task>)
    requires SortedById(a) && SortedById(b) && a != [] && b != []
    requires a[0] in b && b[0] in a
    ensures a[0] == b[0]
  {
    var i :| 0 <= i < |b| && b[i] == a[0];
    var j :| 0 <= j < |a| && a[j] == b[0];
    BytesLessTotal(a[0].id.uuid, b[0].id.uuid);
  }

  /** `response` is a page of the tasks in `store` that match the filter, in id order. */
  ghost predicate Answers(store: Store, request: PageRequest, response: PageResponse) {
    exists list :: SortedById(list) && ListsMatching(list, store, request.filter) && response == Page(list, request)
  }

  /** One list request against the live manager. */
  method ListTasks(manager: TaskManager, request: PageRequest) returns (response: PageResponse)
    requires manager.Valid()
    ensures Answers(manager.Contents(), request, response)
  {
    var tasks := manager.ListFiltered(request.filter);
    assert DistinctIds(tasks) by {
      forall i, j | 0 <= i < j < |tasks|
        ensures tasks[i].id != tasks[j].id
      {
        assert tasks[i] in tasks && tasks[j] in tasks;
      }
    }
    var sorted := SortById(tasks);
    SortSorts(tasks);
    SortedIsListing(sorted);
    var items := Items(sorted, request.token, PageSize(request));
    response := PageResponse(items, NextToken(sorted, request.token, PageSize(request)),
                             Saturated(|items|), Saturated(|sorted|));
  }

  lemma SortedIsListing(list: seq<Task>)
    requires SortedById(list)
    ensures NoDuplicates(list)
  {
    forall i, j | 0 <= i < j < |list|
      ensures list[i] != list[j]
    {
      BytesLessTotal(list[i].id.uuid, list[j].id.uuid);
    }
  }

  // ---- what one page is --------------------------------------------------------------------

  /** The token's meaning for an id: after it, or anything for the empty token. */
  predicate After(token: string, id: TaskId) {
    token == "" || TextLess(token, Render(id.uuid))
  }

  lemma {:induction false} TextLessTransitive(a: string, b: string, c: string)
    requires TextLess(a, b) && TextLess(b, c)
    ensures TextLess(a, c)
  {
    if a != [] && a[0] == b[0] && b[0] == c[0] {
      TextLessTransitive(a[1..], b[1..], c[1..]);
    }
  }

  /** The start index cuts a sorted list into the ids up to the token and the ids after it. */
  lemma StartCuts(list: seq<Task>, token: string)
    requires SortedById(list)
    ensures forall i :: 0 <= i < |list| ==> (After(token, list[i].id) <==> i >= StartIndex(list, token))
  {
    if token != "" {
      PositionInRange(list, token);
      var s := StartIndex(list, token);
      forall i | s < i < |list|
        ensures After(token, list[i].id)
      {
        RenderMonotone(list[s].id.uuid, list[i].id.uuid);
        TextLessTransitive(token, Render(list[s].id.uuid), Render(list[i].id.uuid));
      }
    }
  }

  /** A page that is not the last is full, and its token cuts the list right behind it. */
  lemma NextCuts(list: seq<Task>, token: string, size: nat)
    requires SortedById(list) && size > 0
    ensures NextToken(list, token, size) == "" <==> EndIndex(list, token, size) == |list|
    ensures NextToken(list, token, size) != "" ==>
      && |Items(list, token, size)| == size
      && StartIndex(list, NextToken(list, token, size)) == EndIndex(list, token, size)
  {
    var e := EndIndex(list, token, size);
    if e < |list| {
      var page := Items(list, token, size);
      var next := NextToken(list, token, size);
      RenderNotEmpty(page[size - 1].id.uuid);
      assert page[size - 1] == list[e - 1];
      StartCuts(list, next);
      RenderMonotone(list[e - 1].id.uuid, list[e].id.uuid);
      RenderMonotone(list[e - 1].id.uuid, list[e - 1].id.uuid);
      BytesLessTotal(list[e - 1].id.uuid, list[e - 1].id.uuid);
      assert After(next, list[e].id) && !After(next, list[e - 1].id);
    }
  }

  // ---- following the tokens over an unchanging store ------------------------------------------

  /** The pages a client gets by following tokens from `token` until it is empty. */
  ghost function Follow(list: seq<Task>, size: nat, token: string): seq<seq<Task>>
    requires SortedById(list) && size > 0
    decreases |list| - StartIndex(list, token)
  {
    NextCuts(list, token, size);
    var next := NextToken(list, token, size);
    if next == "" then [Items(list, token, size)] else [Items(list, token, size)] + Follow(list, size, next)
  }

  ghost function Joined(pages: seq<seq<Task>>): seq<Task> {
    if pages == [] then [] else pages[0] + Joined(pages[1..])
  }

  function Requests(n: nat, size: nat): nat
    requires size > 0
  {
    if n <= size then 1 else 1 + Requests(n - size, size)
  }

  /** One request more. */
  lemma FollowStep(list: seq<Task>, size: nat, token: string)
    requires SortedById(list) && size > 0
    ensures var next := NextToken(list, token, size);
      if next == "" then
        Follow(list, size, token) == [list[StartIndex(list, token)..]] && |list| - StartIndex(list, token) <= size
      else
        && StartIndex(list, next) == StartIndex(list, token) + size <= |list|
        && |list| - StartIndex(list, token) > size
        && Follow(list, size, token) ==
             [list[StartIndex(list, token)..StartIndex(list, next)]] + Follow(list, size, next)
  {
    NextCuts(list, token, size);
    hide SortedById, Position;
    assert list[StartIndex(list, token)..|list|] == list[StartIndex(list, token)..];
  }

  lemma JoinedCons(page: seq<Task>, pages: seq<seq<Task>>)
    ensures Joined([page] + pages) == page + Joined(pages)
  {
    assert ([page] + pages)[1..] == pages;
  }

  lemma JoinedOne(page: seq<Task>)
    ensures Joined([page]) == page
  {
    assert [page][1..] == [];
  }

  lemma {:induction false} FollowFrom(list: seq<Task>, size: nat, token: string)
    requires SortedById(list) && size > 0
    ensures Joined(Follow(list, size, token)) == list[StartIndex(list, token)..]
    ensures |Follow(list, size, token)| == Requests(|list| - StartIndex(list, token), size)
    decreases |list| - StartIndex(list, token)
  {
    hide Follow, SortedById, StartIndex, NextToken, Joined;
    FollowStep(list, size, token);
    var s, next := StartIndex(list, token), NextToken(list, token, size);
    if next == "" {
      JoinedOne(list[s..]);
    } else {
      FollowFrom(list, size, next);
      JoinedCons(list[s..s + size], Follow(list, size, next));
      assert list[s..s + size] + list[s + size..] == list[s..];
    }
  }

  /** The request count is the ceiling of n / size, and one for an empty list. */
  lemma {:induction false} RequestsIsCeiling(n: nat, size: nat)
    requires size > 0
    ensures if n == 0 then Requests(n, size) == 1
            else (Requests(n, size) - 1) * size < n <= Requests(n, size) * size
  {
    if n > size {
      RequestsIsCeiling(n - size, size);
      var c := Requests(n - size, size);
      assert c * size == (c - 1) * size + size && (c + 1) * size == c * size + size;
    }
  }

  /** Over an unchanging store, following the tokens from the empty one ends, returns every
      matching task exactly once, in id order, and takes max(1, ceil(n / size)) requests. */
  lemma FollowVisitsOnce(list: seq<Task>, size: nat)
    requires SortedById(list) && size > 0
    ensures Joined(Follow(list, size, "")) == list
    ensures var n := |Follow(list, size, "")|;
      if list == [] then n == 1 else (n - 1) * size < |list| <= n * size
  {
    FollowFrom(list, size, "");
    RequestsIsCeiling(|list|, size);
  }

  // ---- following the tokens while the store changes ---------------------------------------------

  /** Request `k` is answered from `lists[k]`, whatever changed in between; the token starts
      empty, is handed on, and is empty again after the last request. */
  ghost predicate Walk(lists: seq<seq<Task>>, sizes: seq<nat>, tokens: seq<string>) {
    && 0 < |lists| == |sizes| && |tokens| == |lists| + 1
    && (forall k :: 0 <= k < |lists| ==> SortedById(lists[k]) && sizes[k] > 0)
    && tokens[0] == "" && tokens[|lists|] == ""
    && (forall k :: 0 <= k < |lists| ==> tokens[k + 1] == NextToken(lists[k], tokens[k], sizes[k]))
    && (forall k :: 0 < k < |lists| ==> tokens[k] != "")
  }

  ghost function WalkPage(lists: seq<seq<Task>>, sizes: seq<nat>, tokens: seq<string>, k: nat): seq<Task>
    requires Walk(lists, sizes, tokens) && k < |lists|
  {
    Items(lists[k], tokens[k], sizes[k])
  }

  /** Some version of the task is in the list. */
  ghost predicate Lists(list: seq<Task>, id: TaskId) {
    exists t :: t in list && t.id == id
  }

  /** What is on page `k`: listed ids after its token, and up to its next token. */
  lemma OnPage(list: seq<Task>, token: string, size: nat, i: nat)
    requires SortedById(list) && size > 0 && i < |list|
    ensures list[i] in Items(list, token, size) <==>
      && After(token, list[i].id)
      && (NextToken(list, token, size) == "" || !After(NextToken(list, token, size), list[i].id))
  {
    var s, e, next := StartIndex(list, token), EndIndex(list, token, size), NextToken(list, token, size);
    NextCuts(list, token, size);
    StartCuts(list, token);
    StartCuts(list, next);
    SortedIsListing(list);
    var page := Items(list, token, size);
    assert forall k :: 0 <= k < |page| ==> page[k] == list[s + k];
    assert s <= i < e ==> page[i - s] == list[i];
    assert list[i] in page <==> s <= i < e;
  }

  /** Tokens grow: what is after a later token is after every earlier one. */
  lemma {:induction false} TokensGrow(lists: seq<seq<Task>>, sizes: seq<nat>, tokens: seq<string>, j: nat, k: nat,
                                      id: TaskId)
    requires Walk(lists, sizes, tokens) && j <= k < |lists| && After(tokens[k], id)
    ensures After(tokens[j], id)
    decreases k
  {
    if j < k {
      var list, token, size := lists[k - 1], tokens[k - 1], sizes[k - 1];
      NextCuts(list, token, size);
      StartCuts(list, token);
      var last := list[EndIndex(list, token, size) - 1];
      assert tokens[k] == Render(last.id.uuid);
      assert After(token, last.id);
      hide SortedById, NextToken, Items, TextLess, Render;
      if token != "" {
        TextLessTransitive(token, tokens[k], Render(id.uuid));
      }
      TokensGrow(lists, sizes, tokens, j, k - 1, id);
    }
  }

  /** No task is returned twice, not even in two versions. */
  lemma NeverTwice(lists: seq<seq<Task>>, sizes: seq<nat>, tokens: seq<string>, j: nat, k: nat, t: Task, u: Task)
    requires Walk(lists, sizes, tokens) && j < k < |lists|
    requires t in WalkPage(lists, sizes, tokens, j) && u in WalkPage(lists, sizes, tokens, k)
    ensures t.id != u.id
  {
    var i :| 0 <= i < |lists[j]| && lists[j][i] == t;
    var l :| 0 <= l < |lists[k]| && lists[k][l] == u;
    OnPage(lists[j], tokens[j], sizes[j], i);
    OnPage(lists[k], tokens[k], sizes[k], l);
    TokensGrow(lists, sizes, tokens, j + 1, k, u.id);
  }

  /** The first request whose next token is not before `id` returns it. */
  lemma {:induction false} Returned(lists: seq<seq<Task>>, sizes: seq<nat>, tokens: seq<string>, id: TaskId, k: nat)
    requires Walk(lists, sizes, tokens) && k <= |lists|
    requires forall j :: 0 <= j < |lists| ==> Lists(lists[j], id)
    ensures (exists j :: 0 <= j < k && Lists(WalkPage(lists, sizes, tokens, j), id))
      || (k < |lists| && After(tokens[k], id))
  {
    if k > 0 {
      Returned(lists, sizes, tokens, id, k - 1);
      if After(tokens[k - 1], id) {
        var t :| t in lists[k - 1] && t.id == id;
        var i :| 0 <= i < |lists[k - 1]| && lists[k - 1][i] == t;
        OnPage(lists[k - 1], tokens[k - 1], sizes[k - 1], i);
        if t in WalkPage(lists, sizes, tokens, k - 1) {
          assert Lists(WalkPage(lists, sizes, tokens, k - 1), id);
        }
      }
    }
  }

  /** Whatever is inserted, changed or stops matching between requests, a task that matches at
      every request of a completed walk is on exactly one page. */
  lemma WalkVisitsOnce(lists: seq<seq<Task>>, sizes: seq<nat>, tokens: seq<string>, id: TaskId) returns (k: nat)
    requires Walk(lists, sizes, tokens)
    requires forall j :: 0 <= j < |lists| ==> Lists(lists[j], id)
    ensures k < |lists| && Lists(WalkPage(lists, sizes, tokens, k), id)
    ensures forall j, u :: 0 <= j < |lists| && j != k && u in WalkPage(lists, sizes, tokens, j) ==> u.id != id
  {
    Returned(lists, sizes, tokens, id, |lists|);
    k :| 0 <= k < |lists| && Lists(WalkPage(lists, sizes, tokens, k), id);
    var t :| t in WalkPage(lists, sizes, tokens, k) && t.id == id;
    forall j, u | 0 <= j < |lists| && j != k && u in WalkPage(lists, sizes, tokens, j)
      ensures u.id != id
    {
      if j < k {
        NeverTwice(lists, sizes, tokens, j, k, u, t);
      } else {
        NeverTwice(lists, sizes, tokens, k, j, t, u);
      }
    }
  }
}
