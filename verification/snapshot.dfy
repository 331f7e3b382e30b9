/** Saving the stores and restoring them: nothing is lost, whatever order the maps enumerate. */
module Snapshots {
  import opened AgentStore
  import opened AgentTypes
  import opened Chats
  import opened Collections
  import opened NameIndexes
  import opened Registries
  import opened TaskManagers
  import opened TaskStore
  import opened TaskTypes
  import opened ToolRegistries
  import opened ToolStore
  import opened Uuids
  import opened Webhooks

  datatype StateSnapshot = StateSnapshot(
    agents: seq<AgentInfo>, tools: seq<ToolInfo>, conversations: seq<Conversation>,
    messages: seq<(ConversationId, seq<ChatMessage>)>, tasks: seq<Task>, webhooks: seq<Webhook>)

  // ---- agents and tools -------------------------------------------------------------------

  /** Restoring the listed agents gives the very same registry: same agents, none skipped, same name lookups. */
  lemma AgentsRoundTrip(s: Agents, order: seq<AgentId>)
    requires NamesAgree(s) && IsListing(order, s.agents.Keys)
    ensures forall id :: id in order ==> id in s.agents
    ensures RestoredAgents(Values(s.agents, order)) == s
  {
    RefilledSame(NameIndex(s.agents, s.nameIndex), order, AgentIdOf, AgentNameOf, ValidName);
  }

  /** Restoring the listed tools gives the very same registry. */
  lemma ToolsRoundTrip(s: Tools, order: seq<ToolId>)
    requires ToolsAgree(s) && IsListing(order, s.tools.Keys)
    ensures forall id :: id in order ==> id in s.tools
    ensures RestoredTools(Values(s.tools, order)) == s
  {
    RefilledSame(NameIndex(s.tools, s.nameIndex), order, ToolIdOf, ToolNameOf, ValidToolName);
  }

  // ---- tasks ------------------------------------------------------------------------------

  lemma ValuesDistinct(s: Store, order: seq<TaskId>)
    requires IndexAgrees(s) && NoDuplicates(order) && forall id :: id in order ==> id in s.tasks
    ensures DistinctIds(Values(s.tasks, order))
    ensures |Values(s.tasks, order)| == |order|
    ensures forall i :: 0 <= i < |order| ==>
      order[i] in s.tasks && Values(s.tasks, order)[i] == s.tasks[order[i]] && Values(s.tasks, order)[i].id == order[i]
  {
    assert forall i :: 0 <= i < |order| ==> order[i] in order && Values(s.tasks, order)[i] == s.tasks[order[i]];
  }

  lemma TasksRestored(s: Store, order: seq<TaskId>)
    requires IndexAgrees(s) && IsListing(order, s.tasks.Keys)
    ensures forall id :: id in order ==> id in s.tasks
    ensures DistinctIds(Values(s.tasks, order))
    ensures Restored(Values(s.tasks, order)).tasks == s.tasks
  {
    hide Restored;
    assert forall id :: id in order <==> id in Elements(order);
    var saved := Values(s.tasks, order);
    ValuesDistinct(s, order);
    hide IndexAgrees, Elements, NoDuplicates, DistinctIds, Values;
    RestoredTasks(saved);
    var r := Restored(saved);
    forall id | id in s.tasks
      ensures id in r.tasks && r.tasks[id] == s.tasks[id]
    {
      assert id in order;
      var i :| 0 <= i < |order| && order[i] == id;
      assert saved[i] in saved;
    }
    forall id | id in r.tasks
      ensures id in s.tasks
    {
      var i :| 0 <= i < |saved| && saved[i] == r.tasks[id];
      assert order[i] in order;
    }
    SameMap(r.tasks, s.tasks);
  }

  lemma SameMap<K, V>(a: map<K, V>, b: map<K, V>)
    requires forall k :: k in b ==> k in a && a[k] == b[k]
    requires forall k :: k in a ==> k in b
    ensures a == b
  {
  }

  /** Restoring the listed tasks gives the same tasks, filed under the same contexts: for each
      context the same ids, each once, though perhaps in another order. */
  lemma TasksRoundTrip(s: Store, order: seq<TaskId>)
    requires IndexAgrees(s) && IsListing(order, s.tasks.Keys)
    ensures forall id :: id in order ==> id in s.tasks
    ensures var r := Restored(Values(s.tasks, order));
      && r.tasks == s.tasks && IndexAgrees(r)
      && forall c :: multiset(IndexEntry(r, c)) == multiset(IndexEntry(s, c))
  {
    TasksRestored(s, order);
    var r := Restored(Values(s.tasks, order));
    RestoredKeepsIndex(Values(s.tasks, order));
    hide IndexAgrees, Restored;
    forall c
      ensures multiset(IndexEntry(r, c)) == multiset(IndexEntry(s, c))
    {
      EntryHolds(r, c);
      EntryHolds(s, c);
      SameMultiset(IndexEntry(r, c), IndexEntry(s, c));
    }
  }

  /** A context's entry holds exactly its tasks' ids, each once. */
  lemma EntryHolds(s: Store, c: ContextId)
    requires IndexAgrees(s)
    ensures NoDuplicates(IndexEntry(s, c))
    ensures forall id :: id in IndexEntry(s, c) <==> id in s.tasks && s.tasks[id].contextId == c
  {
  }

  lemma {:induction false} CountOnce<T>(a: seq<T>, x: T)
    requires NoDuplicates(a)
    ensures multiset(a)[x] == if x in a then 1 else 0
  {
    if a != [] {
      var n := |a| - 1;
      CountOnce(a[..n], x);
      assert a == a[..n] + [a[n]];
    }
  }

  lemma SameMultiset<T>(a: seq<T>, b: seq<T>)
    requires NoDuplicates(a) && NoDuplicates(b) && forall x :: x in a <==> x in b
    ensures multiset(a) == multiset(b)
  {
    forall x
      ensures multiset(a)[x] == multiset(b)[x]
    {
      CountOnce(a, x);
      CountOnce(b, x);
    }
  }

  // ---- conversations -------------------------------------------------------------------------

  function Transcripts(s: ChatStore, order: seq<ConversationId>): seq<(ConversationId, seq<ChatMessage>)> {
    if order == [] then []
    else
      var id := order[|order| - 1];
      // A conversation without a message list is left out.
      Transcripts(s, order[..|order| - 1]) + if id in s.messages then [(id, s.messages[id])] else []
  }

  lemma {:induction false} ConversationsRestored(s: ChatStore, order: seq<ConversationId>)
    requires ChatAgrees(s) && forall id :: id in order ==> id in s.conversations
    ensures ConversationsOf(Values(s.conversations, order)) == map id | id in order :: s.conversations[id]
  {
    if order != [] {
      var n := |order| - 1;
      assert order == order[..n] + [order[n]];
      assert Values(s.conversations, order)[..n] == Values(s.conversations, order[..n]);
      ConversationsRestored(s, order[..n]);
      assert order[n] in order;
    }
  }

  lemma NoMessages(s: ChatStore)
    ensures MessagesOf([]) == map[] && Transcripts(s, []) == []
  {
  }

  lemma TranscriptsSnoc(s: ChatStore, order: seq<ConversationId>)
    requires order != [] && order[|order| - 1] in s.messages
    ensures Transcripts(s, order) ==
      Transcripts(s, order[..|order| - 1]) + [(order[|order| - 1], s.messages[order[|order| - 1]])]
  {
  }

  lemma MessagesOfSnoc(saved: seq<(ConversationId, seq<ChatMessage>)>, last: (ConversationId, seq<ChatMessage>))
    ensures MessagesOf(saved + [last]) == MessagesOf(saved)[last.0 := last.1]
  {
    assert (saved + [last])[..|saved|] == saved;
  }

  lemma {:induction false} MessagesRestored(s: ChatStore, order: seq<ConversationId>)
    requires ChatAgrees(s) && forall id :: id in order ==> id in s.conversations
    ensures MessagesOf(Transcripts(s, order)) == map id | id in order :: s.messages[id]
  {
    hide MessagesOf, Transcripts;
    NoMessages(s);
    if order != [] {
      var n := |order| - 1;
      var init, last := order[..n], order[n];
      assert forall id :: id in order <==> id in init || id == last by { assert order == init + [last]; }
      MessagesRestored(s, init);
      assert last in s.conversations;
      TranscriptsSnoc(s, order);
      MessagesOfSnoc(Transcripts(s, init), (last, s.messages[last]));
    }
  }

  /** Restoring the listed conversations and their transcripts gives the same store. */
  lemma ChatRoundTrip(s: ChatStore, order: seq<ConversationId>)
    requires ChatAgrees(s) && IsListing(order, s.conversations.Keys)
    ensures forall id :: id in order ==> id in s.conversations
    ensures ChatStore(ConversationsOf(Values(s.conversations, order)), MessagesOf(Transcripts(s, order))) == s
  {
    assert forall id :: id in order <==> id in Elements(order);
    ConversationsRestored(s, order);
    MessagesRestored(s, order);
    assert (map id | id in order :: s.conversations[id]) == s.conversations;
    assert (map id | id in order :: s.messages[id]) == s.messages;
  }

  // ---- webhooks --------------------------------------------------------------------------------

  lemma {:induction false} FiledAppend(saved: seq<Webhook>, more: seq<Webhook>, t: TaskId)
    requires more != [] && forall w :: w in more ==> w.taskId == t
    ensures FiledAll(saved + more) == FiledAll(saved)[t := WebhooksFor(FiledAll(saved), t) + more]
  {
    hide FiledAll;
    var n := |more| - 1;
    var init, last := more[..n], more[n];
    var filed := WebhooksFor(FiledAll(saved), t);
    assert saved + more == saved + init + [last] && filed + more == filed + init + [last];
    assert last in more && forall w :: w in init ==> w in more;
    FiledSnoc(saved + init, last);
    if n == 0 {
      assert saved + init == saved && filed + init == filed;
    } else {
      FiledAppend(saved, init, t);
    }
  }

  lemma NoWebhooks(s: WebhookStore)
    ensures FiledAll([]) == map[] && AllInOrder(s, []) == []
  {
  }

  lemma AllInOrderSnoc(s: WebhookStore, order: seq<TaskId>)
    requires order != [] && order[|order| - 1] in s
    ensures AllInOrder(s, order) == AllInOrder(s, order[..|order| - 1]) + s[order[|order| - 1]]
  {
  }

  lemma FiledSnoc(saved: seq<Webhook>, w: Webhook)
    ensures FiledAll(saved + [w]) == FiledAll(saved)[w.taskId := WebhooksFor(FiledAll(saved), w.taskId) + [w]]
  {
    assert (saved + [w])[..|saved|] == saved;
  }

  lemma {:induction false} WebhooksRestored(s: WebhookStore, order: seq<TaskId>)
    requires WebhooksAgree(s) && NoDuplicates(order) && forall t :: t in order ==> t in s
    ensures forall t :: t in FiledAll(AllInOrder(s, order)) <==> t in order
    ensures forall t :: t in order ==> FiledAll(AllInOrder(s, order))[t] == s[t]
  {
    hide FiledAll, AllInOrder;
    NoWebhooks(s);
    if order != [] {
      var n := |order| - 1;
      var init, t := order[..n], order[n];
      assert forall x :: x in order <==> x in init || x == t by { assert order == init + [t]; }
      assert t !in init && t in s;
      hide NoDuplicates;
      WebhooksRestored(s, init);
      FiledAppend(AllInOrder(s, init), s[t], t);
      hide WebhooksAgree;
      AllInOrderSnoc(s, order);
      assert [] + s[t] == s[t];
    }
  }

  /** Restoring the flattened list gives every task the same webhooks in the same order. */
  lemma WebhooksRoundTrip(s: WebhookStore, order: seq<TaskId>)
    requires WebhooksAgree(s) && IsListing(order, s.Keys)
    ensures FiledAll(AllInOrder(s, order)) == s
  {
    assert forall t :: t in order <==> t in Elements(order);
    WebhooksRestored(s, order);
    assert FiledAll(AllInOrder(s, order)) == s;
  }

  // ---- the application state ----------------------------------------------------------------------

  class AppState {
    const registry: AgentRegistry
    const tools: ToolRegistry
    const chat: ChatManager
    const tasks: TaskManager
    const webhooks: PushNotificationStore

    constructor (registry: AgentRegistry, tools: ToolRegistry, chat: ChatManager, tasks: TaskManager,
                 webhooks: PushNotificationStore)
      ensures this.registry == registry && this.tools == tools && this.chat == chat
      ensures this.tasks == tasks && this.webhooks == webhooks
    {
      this.registry, this.tools, this.chat, this.tasks, this.webhooks := registry, tools, chat, tasks, webhooks;
    }

    ghost predicate Valid()
      reads this, registry, tools, chat, tasks, webhooks
    {
      registry.Valid() && tools.Valid() && chat.Valid() && tasks.Valid() && webhooks.Valid()
    }

    /** A snapshot restores to what it was taken from. */
    ghost predicate Captures(snapshot: StateSnapshot)
      reads this, registry, tools, chat, tasks, webhooks
    {
      && RestoredAgents(snapshot.agents) == registry.Contents()
      && RestoredTools(snapshot.tools) == tools.Contents()
      && ChatStore(ConversationsOf(snapshot.conversations), MessagesOf(snapshot.messages)) == chat.Contents()
      && Restored(snapshot.tasks).tasks == tasks.tasks && IndexAgrees(Restored(snapshot.tasks))
      && (forall c :: multiset(IndexEntry(Restored(snapshot.tasks), c)) == multiset(IndexEntry(tasks.Contents(), c)))
      && FiledAll(snapshot.webhooks) == webhooks.configs
    }

    /** All stores are read under their locks; each map is enumerated in whatever order it has. */
    method ToSnapshot() returns (snapshot: StateSnapshot)
      requires Valid()
      ensures Captures(snapshot)
    {
      var agentOrder := ListKeys(registry.agents);
      AgentsRoundTrip(registry.Contents(), agentOrder);
      var toolOrder := ListKeys(tools.tools);
      ToolsRoundTrip(tools.Contents(), toolOrder);
      var conversationOrder := ListKeys(chat.conversations);
      ChatRoundTrip(chat.Contents(), conversationOrder);
      var taskOrder := ListKeys(tasks.tasks);
      TasksRoundTrip(tasks.Contents(), taskOrder);
      ghost var webhookOrder;
      var all;
      all, webhookOrder := webhooks.All();
      WebhooksRoundTrip(webhooks.configs, webhookOrder);
      snapshot := StateSnapshot(
        Values(registry.agents, agentOrder),
        Values(tools.tools, toolOrder),
        Values(chat.conversations, conversationOrder),
        Transcripts(chat.Contents(), conversationOrder),
        Values(tasks.tasks, taskOrder),
        all);
    }

    method RestoreFromSnapshot(snapshot: StateSnapshot)
      modifies registry, tools, chat, tasks`tasks, tasks`contextIndex, webhooks
      ensures registry.Contents() == RestoredAgents(snapshot.agents)
      ensures tools.Contents() == RestoredTools(snapshot.tools)
      ensures chat.Contents() == ChatStore(ConversationsOf(snapshot.conversations), MessagesOf(snapshot.messages))
      ensures tasks.Contents() == Restored(snapshot.tasks)
      ensures webhooks.configs == FiledAll(snapshot.webhooks)
    {
      registry.Restore(snapshot.agents);
      tools.Restore(snapshot.tools);
      chat.Restore(snapshot.conversations, snapshot.messages);
      tasks.Restore(snapshot.tasks);
      webhooks.Restore(snapshot.webhooks);
    }

    /** A daemon restart: one state saves on shutdown, another, whatever it holds, restores. */
    method Restart(other: AppState)
      requires Valid()
      requires other.registry != registry && other.tools != tools && other.chat != chat
      requires other.tasks != tasks && other.webhooks != webhooks
      modifies other.registry, other.tools, other.chat, other.tasks`tasks, other.tasks`contextIndex, other.webhooks
      ensures other.Valid()
      ensures other.registry.Contents() == registry.Contents() && other.tools.Contents() == tools.Contents()
      ensures other.chat.Contents() == chat.Contents()
      ensures other.tasks.tasks == tasks.tasks && other.webhooks.configs == webhooks.configs
      ensures forall c :: multiset(IndexEntry(other.tasks.Contents(), c)) == multiset(IndexEntry(tasks.Contents(), c))
    {
      var snapshot := ToSnapshot();
      other.RestoreFromSnapshot(snapshot);
    }
  }
}
