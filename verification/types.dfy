/** JSON documents as serde_json holds them. */
module Json {

  /** A finite double, by sign and magnitude so that the two zeros stay apart. */
  datatype Double = Double(negative: bool, magnitude: real)

  datatype Number =
    | PosInt(u: nat)   // an unsigned 64-bit integer
    | NegInt(i: int)   // a negative signed 64-bit integer
    | Float(x: Double)

  datatype Json =
    | Null
    | Bool(b: bool)
    | Num(n: Number)
    | String(s: string)
    | Array(items: seq<Json>)
    | Object(fields: map<string, Json>)
}

/** Tasks, messages, artifacts and the task state machine. */
module TaskTypes {
  import opened Collections
  import opened Json
  import opened Uuids

  type Timestamp = int

  datatype TaskState =
    | Submitted | Working | Completed | Failed | Canceled
    | InputRequired | AuthRequired | Rejected
  {
    predicate IsTerminal() {
      Completed? || Failed? || Canceled? || Rejected?
    }

    predicate CanTransitionTo(target: TaskState) {
      match this
      case Submitted => target.Working? || target.Rejected? || target.Canceled?
      case Working =>
        target.Completed? || target.Failed? || target.Canceled? || target.InputRequired? || target.AuthRequired?
      case InputRequired | AuthRequired => target.Working? || target.Canceled? || target.Failed?
      case Completed | Failed | Canceled | Rejected => false
    }
  }

  /** The edges of the state machine, one by one. */
  const EDGES: set<(TaskState, TaskState)> := {
    (Submitted, Working), (Submitted, Rejected), (Submitted, Canceled),
    (Working, Completed), (Working, Failed), (Working, Canceled), (Working, InputRequired), (Working, AuthRequired),
    (InputRequired, Working), (InputRequired, Canceled), (InputRequired, Failed),
    (AuthRequired, Working), (AuthRequired, Canceled), (AuthRequired, Failed)
  }

  predicate IsEdge(from: TaskState, to: TaskState) {
    (from, to) in EDGES
  }

  datatype MessageRole = User | Agent

  datatype Part =
    | Text(text: string)
    | Url(url: string)
    | Data(data: Json)
    | Bytes(bytes: seq<byte>)

  datatype TaskMessage = TaskMessage(
    id: MessageId, role: MessageRole, parts: seq<Part>, metadata: Option<Json>)

  datatype TaskStatus = TaskStatus(
    state: TaskState, message: Option<TaskMessage>, timestamp: Timestamp)

  datatype Artifact = Artifact(
    id: ArtifactId, name: Option<string>, description: Option<string>,
    parts: seq<Part>, metadata: Option<Json>)

  datatype Task = Task(
    id: TaskId, contextId: ContextId, status: TaskStatus,
    artifacts: seq<Artifact>, history: seq<TaskMessage>, metadata: Option<Json>,
    assignee: Option<AgentId>, creator: Option<AgentId>, deadline: Option<Timestamp>)
  {
    predicate Live() {
      !status.state.IsTerminal()
    }
  }

  datatype TaskFilter = TaskFilter(
    contextId: Option<ContextId>, state: Option<TaskState>, assignee: Option<AgentId>)
  {
    /** Every field that is set must match. */
    predicate Matches(t: Task) {
      && (contextId.Some? ==> t.contextId == contextId.value)
      && MatchesStateAndAssignee(t)
    }

    predicate MatchesStateAndAssignee(t: Task) {
      && (state.Some? ==> t.status.state == state.value)
      && (assignee.Some? ==> t.assignee == assignee)
    }
  }
}

/** Agents, chat messages and tools. */
module AgentTypes {
  import opened Collections
  import opened Json
  import opened TaskTypes
  import opened Uuids

  datatype AgentStatus = Connected | Disconnected

  datatype AgentCapabilities = AgentCapabilities(
    inputModes: seq<string>, outputModes: seq<string>, streaming: bool, skillTags: seq<string>)

  datatype AgentInfo = AgentInfo(
    id: AgentId, name: string, registeredAt: Timestamp, lastHeartbeatAt: Timestamp,
    status: AgentStatus, capabilities: Option<AgentCapabilities>)

  datatype ToolProvider = AgentTool(agentId: AgentId) | BuiltIn

  datatype ToolInfo = ToolInfo(
    id: ToolId, name: string, description: string, inputSchema: Json, outputSchema: Json, provider: ToolProvider)

  datatype ChatMessage = ChatMessage(
    id: MessageId, conversationId: ConversationId, sender: AgentId, content: string, timestamp: Timestamp)

  datatype Conversation = Conversation(
    id: ConversationId, name: Option<string>, participants: set<AgentId>, createdAt: Timestamp)
}

/** The broadcast bus: an append-only log that every subscriber reads from its own position. */
module Bus {
  import opened AgentTypes
  import opened TaskTypes
  import opened Uuids

  datatype Event =
    | AgentRegistered(info: AgentInfo)
    | AgentDeregistered(agentId: AgentId)
    | AgentDisconnected(info: AgentInfo)
    | AgentReconnected(info: AgentInfo)
    | NewMessage(message: ChatMessage)
    | ToolRegistered(tool: ToolInfo)
    | ToolDeregistered(toolId: ToolId)
    | TaskCreated(task: Task)
    | TaskStatusChanged(taskId: TaskId, oldState: TaskState, newState: TaskState)
    | TaskArtifactAdded(taskId: TaskId, artifactId: ArtifactId)

  class MessageBus {
    var log: seq<Event>

    constructor ()
      ensures log == []
    {
      log := [];
    }

    method Publish(event: Event)
      modifies this
      ensures log == old(log) + [event]
    {
      log := log + [event];
    }
  }
}
