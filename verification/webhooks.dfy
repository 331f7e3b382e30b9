/** Webhook configurations, an ordered list per task. */
module Webhooks {
  import opened Collections
  import opened Uuids

  datatype WebhookAuth = WebhookAuth(scheme: string, credentials: string)

  datatype Webhook = Webhook(
    id: WebhookId, taskId: TaskId, url: string, token: string, authentication: Option<WebhookAuth>)

  type WebhookStore = map<TaskId, seq<Webhook>>

  /** Lists are filed under their own task, and none is empty. */
  ghost predicate WebhooksAgree(s: WebhookStore) {
    forall t :: t in s ==> s[t] != [] && forall w :: w in s[t] ==> w.taskId == t
  }

  function WebhooksFor(s: WebhookStore, t: TaskId): seq<Webhook> {
    if t in s then s[t] else []
  }

  function Filed(s: WebhookStore, w: Webhook): WebhookStore {
    s[w.taskId := WebhooksFor(s, w.taskId) + [w]]
  }

  function FiledAll(saved: seq<Webhook>): WebhookStore {
    if saved == [] then map[] else Filed(FiledAll(saved[..|saved| - 1]), saved[|saved| - 1])
  }

  function Without(list: seq<Webhook>, id: WebhookId): seq<Webhook> {
    if list == [] then []
    else (if list[0].id == id then [] else [list[0]]) + Without(list[1..], id)
  }

  lemma {:induction false} WithoutKeeps(list: seq<Webhook>, id: WebhookId)
    ensures forall w :: w in Without(list, id) <==> w in list && w.id != id
    ensures |Without(list, id)| <= |list|
    ensures |Without(list, id)| == |list| <==> forall w :: w in list ==> w.id != id
  {
    if list != [] {
      WithoutKeeps(list[1..], id);
      assert list == [list[0]] + list[1..];
    }
  }

  lemma WithoutOne(w: Webhook, id: WebhookId)
    ensures Without([w], id) == if w.id == id then [] else [w]
  {
    assert [w][1..] == [];
  }

  lemma WithoutCons(w: Webhook, list: seq<Webhook>, id: WebhookId)
    ensures Without([w] + list, id) == Without([w], id) + Without(list, id)
  {
    WithoutOne(w, id);
    assert ([w] + list)[1..] == list;
  }

  /** Filtering goes webhook by webhook: what stays, stays in order. */
  lemma {:induction false} WithoutConcat(a: seq<Webhook>, b: seq<Webhook>, id: WebhookId)
    ensures Without(a + b, id) == Without(a, id) + Without(b, id)
  {
    if a == [] {
      assert a + b == b;
    } else {
      hide Without;
      var w, rest := a[0], a[1..];
      WithoutConcat(rest, b, id);
      WithoutCons(w, rest, id);
      WithoutCons(w, rest + b, id);
      assert a == [w] + rest && a + b == [w] + (rest + b);
    }
  }

  class PushNotificationStore {
    var configs: map<TaskId, seq<Webhook>>

    ghost predicate Valid()
      reads this
    {
      WebhooksAgree(configs)
    }

    constructor ()
      ensures Valid() && configs == map[]
    {
      configs := map[];
    }

    /** `id` is what the id generator returns, `httpUrl` whether the URL parses with scheme http or https. */
    method Create(id: WebhookId, taskId: TaskId, url: string, httpUrl: bool, token: string,
                  authentication: Option<WebhookAuth>)
      returns (r: Option<Webhook>)
      requires Valid()
      modifies this
      ensures Valid()
      ensures r == if httpUrl then Some(Webhook(id, taskId, url, token, authentication)) else None
      ensures configs == if httpUrl then Filed(old(configs), r.value) else old(configs)
    {
      if !httpUrl {
        return None;
      }
      var config := Webhook(id, taskId, url, token, authentication);
      var earlier := if taskId in configs then configs[taskId] else [];
      configs := configs[taskId := earlier + [config]];
      r := Some(config);
    }

    method Delete(taskId: TaskId, id: WebhookId) returns (removed: bool)
      requires Valid()
      modifies this
      ensures Valid()
      ensures removed <==> exists w :: w in WebhooksFor(old(configs), taskId) && w.id == id
      ensures WebhooksFor(configs, taskId) == Without(WebhooksFor(old(configs), taskId), id)
      ensures configs - {taskId} == old(configs) - {taskId}
    {
      if taskId !in configs {
        return false;
      }
      WithoutKeeps(configs[taskId], id);
      var kept := Without(configs[taskId], id);
      removed := |kept| < |configs[taskId]|;
      configs := if kept == [] then configs - {taskId} else configs[taskId := kept];
    }

    /** Repopulate from a snapshot. */
    method Restore(saved: seq<Webhook>)
      modifies this
      ensures configs == FiledAll(saved)
    {
      configs := map[];
      for i := 0 to |saved|
        invariant configs == FiledAll(saved[..i])
      {
        assert saved[..i + 1][..i] == saved[..i];
        var config := saved[i];
        var earlier := if config.taskId in configs then configs[config.taskId] else [];
        configs := configs[config.taskId := earlier + [config]];
      }
      assert saved[..|saved|] == saved;
    }

    /** Every configuration: the tasks in the map's order, each task's list in its own order. */
    method All() returns (r: seq<Webhook>, ghost order: seq<TaskId>)
      ensures IsListing(order, configs.Keys)
      ensures r == AllInOrder(configs, order)
    {
      var keys := ListKeys(configs);
      order := keys;
      r := [];
      for i := 0 to |keys|
        invariant r == AllInOrder(configs, keys[..i])
      {
        assert keys[..i + 1][..i] == keys[..i];
        assert keys[i] in Elements(keys);
        r := r + configs[keys[i]];
      }
      assert keys[..|keys|] == keys;
    }
  }

  function AllInOrder(s: WebhookStore, order: seq<TaskId>): seq<Webhook> {
    if order == [] then []
    else AllInOrder(s, order[..|order| - 1]) + WebhooksFor(s, order[|order| - 1])
  }
}
