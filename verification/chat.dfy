/** Conversations and their ordered messages. */
module Chats {
  import opened AgentTypes
  import opened Bus
  import opened Collections
  import opened TaskTypes
  import opened Uuids

  datatype ChatError =
    | ConversationEmptyParticipants
    | ConversationNotFound(id: ConversationId)
    | ConversationNotParticipant(agent: AgentId, id: ConversationId)

  datatype ChatStore =
    ChatStore(conversations: map<ConversationId, Conversation>, messages: map<ConversationId, seq<ChatMessage>>)

  /** Every conversation has a message list and every list a conversation. */
  ghost predicate ChatAgrees(s: ChatStore) {
    && s.messages.Keys == s.conversations.Keys
    && forall id :: id in s.conversations ==> s.conversations[id].id == id
  }

  function ConversationsOf(saved: seq<Conversation>): map<ConversationId, Conversation> {
    if saved == [] then map[]
    else ConversationsOf(saved[..|saved| - 1])[saved[|saved| - 1].id := saved[|saved| - 1]]
  }

  function MessagesOf(saved: seq<(ConversationId, seq<ChatMessage>)>): map<ConversationId, seq<ChatMessage>> {
    if saved == [] then map[]
    else MessagesOf(saved[..|saved| - 1])[saved[|saved| - 1].0 := saved[|saved| - 1].1]
  }

  class ChatManager {
    var conversations: map<ConversationId, Conversation>
    var messages: map<ConversationId, seq<ChatMessage>>
    const bus: MessageBus

    function Contents(): ChatStore
      reads this
    {
      ChatStore(conversations, messages)
    }

    ghost predicate Valid()
      reads this
    {
      ChatAgrees(Contents())
    }

    constructor (bus: MessageBus)
      ensures Valid() && Contents() == ChatStore(map[], map[]) && this.bus == bus
    {
      conversations, messages := map[], map[];
      this.bus := bus;
    }

    /** `id` and `now` are what the id generator and the clock return; the id is fresh. */
    method CreateConversation(id: ConversationId, now: Timestamp, name: Option<string>, participants: seq<AgentId>)
      returns (r: Result<Conversation, ChatError>)
      requires Valid() && id !in conversations
      modifies this
      ensures Valid()
      ensures participants == [] ==> r == Err(ConversationEmptyParticipants) && Contents() == old(Contents())
      ensures participants != [] ==>
        && r == Ok(Conversation(id, name, Elements(participants), now))
        && conversations == old(conversations)[id := r.value] && messages == old(messages)[id := []]
    {
      if participants == [] {
        return Err(ConversationEmptyParticipants);
      }
      var conversation := Conversation(id, name, Elements(participants), now);
      conversations := conversations[id := conversation];
      messages := messages[id := []];
      r := Ok(conversation);
    }

    method SendMessage(messageId: MessageId, now: Timestamp, conversationId: ConversationId, sender: AgentId,
                       content: string)
      returns (r: Result<ChatMessage, ChatError>)
      requires Valid()
      modifies this, bus
      ensures Valid() && conversations == old(conversations)
      ensures r.Err? ==>
        && r.error == (if conversationId in conversations then ConversationNotParticipant(sender, conversationId)
                       else ConversationNotFound(conversationId))
        && messages == old(messages) && bus.log == old(bus.log)
      ensures r.Ok? <==> conversationId in conversations && sender in conversations[conversationId].participants
      ensures r.Ok? ==>
        && r.value == ChatMessage(messageId, conversationId, sender, content, now)
        && messages == old(messages)[conversationId := old(messages)[conversationId] + [r.value]]
        && bus.log == old(bus.log) + [NewMessage(r.value)]
    {
      if conversationId !in conversations {
        return Err(ConversationNotFound(conversationId));
      }
      if sender !in conversations[conversationId].participants {
        return Err(ConversationNotParticipant(sender, conversationId));
      }
      var message := ChatMessage(messageId, conversationId, sender, content, now);
      var earlier := if conversationId in messages then messages[conversationId] else [];
      messages := messages[conversationId := earlier + [message]];
      bus.Publish(NewMessage(message));
      r := Ok(message);
    }

    /** Repopulate from a snapshot; nothing is published. */
    method Restore(savedConversations: seq<Conversation>, savedMessages: seq<(ConversationId, seq<ChatMessage>)>)
      modifies this
      ensures Contents() == ChatStore(ConversationsOf(savedConversations), MessagesOf(savedMessages))
    {
      conversations, messages := map[], map[];
      for i := 0 to |savedConversations|
        invariant Contents() == ChatStore(ConversationsOf(savedConversations[..i]), map[])
      {
        assert savedConversations[..i + 1][..i] == savedConversations[..i];
        conversations := conversations[savedConversations[i].id := savedConversations[i]];
      }
      assert savedConversations[..|savedConversations|] == savedConversations;
      for i := 0 to |savedMessages|
        invariant Contents() == ChatStore(ConversationsOf(savedConversations), MessagesOf(savedMessages[..i]))
      {
        assert savedMessages[..i + 1][..i] == savedMessages[..i];
        messages := messages[savedMessages[i].0 := savedMessages[i].1];
      }
      assert savedMessages[..|savedMessages|] == savedMessages;
    }
  }
}
