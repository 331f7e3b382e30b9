/** The tool-list notifier: bursts of tool events become one notification. */
module Notifier {
  import opened Bus
  import opened Collections

  /** What the notifier waits for: an event or a lag on the bus, the end of its window, the end of the bus. */
  datatype Signal = Delivered(event: Event) | Lag(skipped: nat) | WindowElapsed | Closed

  datatype Action = Took(tool: bool) | SendAttempt

  datatype Phase = Waiting | WindowOpen | Stopped

  datatype Trace = Trace(phase: Phase, actions: seq<Action>)

  predicate IsToolEvent(e: Event) {
    e.ToolRegistered? || e.ToolDeregistered?
  }

  function Sends(actions: seq<Action>): nat {
    if actions == [] then 0
    else Sends(actions[..|actions| - 1]) + if actions[|actions| - 1].SendAttempt? then 1 else 0
  }

  function Tools(actions: seq<Action>): nat {
    if actions == [] then 0
    else Tools(actions[..|actions| - 1]) + if actions[|actions| - 1] == Took(true) then 1 else 0
  }

  /** The peer takes `accepts` notifications; the attempt after that fails. */
  function React(t: Trace, signal: Signal, accepts: nat): Trace {
    match t.phase
    case Stopped => t
    case Waiting =>
      (match signal
       case Delivered(e) => Trace(if IsToolEvent(e) then WindowOpen else Waiting, t.actions + [Took(IsToolEvent(e))])
       case Lag(_) => t
       case WindowElapsed => t
       case Closed => t.(phase := Stopped))
    case WindowOpen =>
      (match signal
       case Delivered(e) => t.(actions := t.actions + [Took(IsToolEvent(e))])
       case Lag(_) => t
       case WindowElapsed => Trace(if Sends(t.actions) < accepts then Waiting else Stopped, t.actions + [SendAttempt])
       case Closed => Trace(Stopped, t.actions + [SendAttempt]))
  }

  function Run(signals: seq<Signal>, accepts: nat): Trace {
    if signals == [] then Trace(Waiting, [])
    else React(Run(signals[..|signals| - 1], accepts), signals[|signals| - 1], accepts)
  }

  lemma RunSnoc(signals: seq<Signal>, i: nat, accepts: nat)
    requires i < |signals|
    ensures Run(signals[..i + 1], accepts) == React(Run(signals[..i], accepts), signals[i], accepts)
  {
    assert signals[..i + 1][..i] == signals[..i];
  }

  lemma {:induction false} StaysStopped(signals: seq<Signal>, i: nat, accepts: nat)
    requires i <= |signals| && Run(signals[..i], accepts).phase.Stopped?
    ensures Run(signals, accepts) == Run(signals[..i], accepts)
    decreases |signals| - i
  {
    if i == |signals| {
      assert signals[..i] == signals;
    } else {
      RunSnoc(signals, i, accepts);
      StaysStopped(signals, i + 1, accepts);
    }
  }

  /** The nested receive loops: wait for a tool event, drain the window, send, repeat. */
  method RunToolNotifier(signals: seq<Signal>, accepts: nat) returns (actions: seq<Action>)
    ensures actions == Run(signals, accepts).actions
  {
    hide Run, React, Sends;
    actions := [];
    var sent: nat := 0;
    var i := 0;
    RunStarts(signals, accepts);
    while i < |signals|
      invariant 0 <= i <= |signals| && sent == Sends(actions)
      invariant Run(signals[..i], accepts) == Trace(Waiting, actions)
    {
      var first := signals[i];
      RunSnoc(signals, i, accepts);
      Reacts(Trace(Waiting, actions), first, accepts);
      i := i + 1;
      if first.Closed? {
        StaysStopped(signals, i, accepts);
        return;
      }
      if !first.Delivered? {
        continue;
      }
      CountSnoc(actions, Took(IsToolEvent(first.event)));
      actions := actions + [Took(IsToolEvent(first.event))];
      if !IsToolEvent(first.event) {
        continue;
      }
      var open := true;
      while i < |signals| && open
        invariant 0 <= i <= |signals| && sent == Sends(actions)
        invariant Run(signals[..i], accepts) ==
          if open then Trace(WindowOpen, actions) else Flushed(actions, sent, accepts)
        decreases |signals| - i, open
      {
        var next := signals[i];
        RunSnoc(signals, i, accepts);
        Reacts(Trace(WindowOpen, actions), next, accepts);
        i := i + 1;
        match next {
          case Delivered(event) =>
            CountSnoc(actions, Took(IsToolEvent(event)));
            actions := actions + [Took(IsToolEvent(event))];
          case Closed =>
            actions := actions + [SendAttempt];
            StaysStopped(signals, i, accepts);
            return;
          case Lag(_) =>
          case WindowElapsed =>
            open := false;
        }
      }
      if open {
        // The observation ends inside a window.
        assert signals[..i] == signals;
        return;
      }
      CountSnoc(actions, SendAttempt);
      actions := actions + [SendAttempt];
      if sent >= accepts {
        StaysStopped(signals, i, accepts);
        return;
      }
      sent := sent + 1;
    }
    assert signals[..i] == signals;
  }

  /** A window that elapsed, its attempt made. */
  function Flushed(actions: seq<Action>, sent: nat, accepts: nat): Trace {
    Trace(if sent < accepts then Waiting else Stopped, actions + [SendAttempt])
  }

  lemma RunStarts(signals: seq<Signal>, accepts: nat)
    ensures Run(signals[..0], accepts) == Trace(Waiting, []) && Sends([]) == 0
  {
  }

  /** What one signal does in the two phases that listen. */
  lemma Reacts(t: Trace, signal: Signal, accepts: nat)
    requires !t.phase.Stopped?
    ensures signal.Delivered? ==>
              React(t, signal, accepts)
              == Trace(if t.phase.WindowOpen? || IsToolEvent(signal.event) then WindowOpen else Waiting,
                       t.actions + [Took(IsToolEvent(signal.event))])
    ensures signal.Lag? ==> React(t, signal, accepts) == t
    ensures t.phase.Waiting? && signal.WindowElapsed? ==> React(t, signal, accepts) == t
    ensures t.phase.Waiting? && signal.Closed? ==> React(t, signal, accepts) == t.(phase := Stopped)
    ensures t.phase.WindowOpen? && signal.WindowElapsed? ==>
      React(t, signal, accepts) == Flushed(t.actions, Sends(t.actions), accepts)
    ensures t.phase.WindowOpen? && signal.Closed? ==>
      React(t, signal, accepts) == Trace(Stopped, t.actions + [SendAttempt])
  {
  }

  // ---- nothing is lost, nothing is invented --------------------------------------------------

  ghost predicate SentAfter(actions: seq<Action>, i: nat) {
    exists j :: i < j < |actions| && actions[j].SendAttempt?
  }

  ghost predicate ToolBetween(actions: seq<Action>, i: int, j: nat) {
    exists k :: i < k < j && 0 <= k < |actions| && actions[k] == Took(true)
  }

  /** The attempts so far: each since the previous one saw a tool event. */
  ghost predicate NothingInvented(actions: seq<Action>) {
    forall j :: 0 <= j < |actions| && actions[j].SendAttempt? ==> ToolBetween(actions, LastSend(actions, j), j)
  }

  /** The index of the last attempt before `j`, or -1. */
  function LastSend(actions: seq<Action>, j: nat): (i: int)
    requires j <= |actions|
    ensures -1 <= i < j
    ensures forall k :: i < k < j ==> !actions[k].SendAttempt?
    ensures i >= 0 ==> actions[i].SendAttempt?
  {
    if j == 0 then -1 else if actions[j - 1].SendAttempt? then j - 1 else LastSend(actions, j - 1)
  }

  lemma {:induction false} LastSendPrefix(actions: seq<Action>, more: seq<Action>, j: nat)
    requires j <= |actions|
    ensures LastSend(actions + more, j) == LastSend(actions, j)
  {
    if j > 0 {
      LastSendPrefix(actions, more, j - 1);
    }
  }

  lemma AppendKeeps(actions: seq<Action>, a: Action)
    requires NothingInvented(actions)
    requires a.SendAttempt? ==> Pending(actions)
    ensures NothingInvented(actions + [a])
  {
    var all := actions + [a];
    forall j | 0 <= j < |all| && all[j].SendAttempt?
      ensures ToolBetween(all, LastSend(all, j), j)
    {
      LastSendPrefix(actions, [a], j);
      var k :| LastSend(actions, j) < k < j && 0 <= k < |actions| && actions[k] == Took(true);
      assert all[k] == Took(true);
    }
  }

  /** A tool event seen since the last attempt. */
  ghost predicate Pending(actions: seq<Action>) {
    ToolBetween(actions, LastSend(actions, |actions|), |actions|)
  }

  ghost predicate AllAnswered(actions: seq<Action>) {
    forall i :: 0 <= i < |actions| && actions[i] == Took(true) ==> SentAfter(actions, i)
  }

  /** What every state of the notifier keeps: no attempt without a tool event since the previous
      one, and no tool event unanswered but in an open window. */
  ghost predicate Accounted(t: Trace) {
    && NothingInvented(t.actions)
    && Sends(t.actions) <= Tools(t.actions)
    && (t.phase.WindowOpen? ==> Pending(t.actions) && Sends(t.actions) < Tools(t.actions))
    && (!t.phase.WindowOpen? ==> AllAnswered(t.actions))
  }

  lemma CountSnoc(actions: seq<Action>, a: Action)
    ensures Sends(actions + [a]) == Sends(actions) + if a.SendAttempt? then 1 else 0
    ensures Tools(actions + [a]) == Tools(actions) + if a == Took(true) then 1 else 0
  {
    assert (actions + [a])[..|actions|] == actions;
  }

  lemma TakingKeepsPending(actions: seq<Action>, tool: bool)
    requires tool || Pending(actions)
    ensures Pending(actions + [Took(tool)])
  {
    var all := actions + [Took(tool)];
    LastSendPrefix(actions, [Took(tool)], |actions|);
    assert LastSend(all, |all|) == LastSend(actions, |actions|);
    if tool {
      assert all[|actions|] == Took(true);
    } else {
      var k :| LastSend(actions, |actions|) < k < |actions| && 0 <= k < |actions| && actions[k] == Took(true);
      assert all[k] == Took(true);
    }
  }

  lemma IgnoringKeepsAnswered(actions: seq<Action>)
    requires AllAnswered(actions)
    ensures AllAnswered(actions + [Took(false)])
  {
    var all := actions + [Took(false)];
    forall i | 0 <= i < |all| && all[i] == Took(true) ensures SentAfter(all, i) {
      var j :| i < j < |actions| && actions[j].SendAttempt?;
      assert all[j].SendAttempt?;
    }
  }

  lemma SendingAnswers(actions: seq<Action>)
    ensures AllAnswered(actions + [SendAttempt])
  {
    var all := actions + [SendAttempt];
    forall i | 0 <= i < |all| && all[i] == Took(true) ensures SentAfter(all, i) {
      assert all[|actions|].SendAttempt?;
    }
  }

  lemma ReactKeeps(t: Trace, signal: Signal, accepts: nat)
    requires Accounted(t)
    ensures Accounted(React(t, signal, accepts))
  {
    hide AllAnswered, NothingInvented, Pending, Sends, Tools;
    if signal.Delivered? && !t.phase.Stopped? {
      var tool := IsToolEvent(signal.event);
      CountSnoc(t.actions, Took(tool));
      AppendKeeps(t.actions, Took(tool));
      if tool || t.phase.WindowOpen? {
        TakingKeepsPending(t.actions, tool);
      } else {
        IgnoringKeepsAnswered(t.actions);
      }
    } else if t.phase.WindowOpen? && !signal.Lag? {
      CountSnoc(t.actions, SendAttempt);
      AppendKeeps(t.actions, SendAttempt);
      SendingAnswers(t.actions);
    }
  }

  /** Whatever the bus delivers and whenever the windows elapse. */
  lemma {:induction false} Coalesces(signals: seq<Signal>, accepts: nat)
    ensures Accounted(Run(signals, accepts))
  {
    if signals != [] {
      var n := |signals| - 1;
      Coalesces(signals[..n], accepts);
      ReactKeeps(Run(signals[..n], accepts), signals[n], accepts);
    }
  }

  /** Once the notifier is waiting or has stopped, even because the bus closed inside a window,
      every tool event it took has been followed by an attempt. */
  lemma NothingLost(signals: seq<Signal>, accepts: nat, i: nat)
    requires !Run(signals, accepts).phase.WindowOpen?
    requires i < |Run(signals, accepts).actions| && Run(signals, accepts).actions[i] == Took(true)
    ensures SentAfter(Run(signals, accepts).actions, i)
  {
    Coalesces(signals, accepts);
  }

  // ---- what was taken is what was delivered ----------------------------------------------------

  function Taken(actions: seq<Action>): seq<bool> {
    if actions == [] then []
    else Taken(actions[..|actions| - 1]) + if actions[|actions| - 1].Took? then [actions[|actions| - 1].tool] else []
  }

  function Deliveries(signals: seq<Signal>): seq<bool> {
    if signals == [] then []
    else
      Deliveries(signals[..|signals| - 1]) +
      if signals[|signals| - 1].Delivered? then [IsToolEvent(signals[|signals| - 1].event)] else []
  }

  lemma TakenSnoc(actions: seq<Action>, a: Action)
    ensures Taken(actions + [a]) == Taken(actions) + if a.Took? then [a.tool] else []
  {
    assert (actions + [a])[..|actions|] == actions;
  }

  ghost predicate Followed(t: Trace, signals: seq<Signal>, accepts: nat) {
    && IsPrefix(Taken(t.actions), Deliveries(signals))
    && (!t.phase.Stopped? ==> Taken(t.actions) == Deliveries(signals) && Sends(t.actions) <= accepts)
    && (t.phase.Stopped? ==> Closed in signals || Sends(t.actions) == accepts + 1)
    && Sends(t.actions) <= accepts + 1
  }

  lemma DeliveriesSnoc(signals: seq<Signal>, s: Signal)
    ensures Deliveries(signals + [s]) == Deliveries(signals) + if s.Delivered? then [IsToolEvent(s.event)] else []
  {
    assert (signals + [s])[..|signals|] == signals;
  }

  lemma ReactFollows(t: Trace, signals: seq<Signal>, s: Signal, accepts: nat)
    requires Followed(t, signals, accepts)
    ensures Followed(React(t, s, accepts), signals + [s], accepts)
  {
    hide Taken, Deliveries, Sends;
    DeliveriesSnoc(signals, s);
    assert Closed in signals || s == Closed <==> Closed in signals + [s];
    if t.phase.Stopped? {
      var all := Deliveries(signals);
      assert (all + Deliveries(signals + [s])[|all|..])[..|Taken(t.actions)|] == all[..|Taken(t.actions)|];
    } else {
      var a := if s.Delivered? then Took(IsToolEvent(s.event)) else SendAttempt;
      TakenSnoc(t.actions, a);
      CountSnoc(t.actions, a);
    }
  }

  /** Until it stops the notifier takes every delivered event, in order, as the tool event it is
      or is not; it stops only when the bus has closed or a send has failed, and no attempt
      follows a failed one. */
  lemma {:induction false} TakesAll(signals: seq<Signal>, accepts: nat)
    ensures Followed(Run(signals, accepts), signals, accepts)
  {
    if signals != [] {
      var n := |signals| - 1;
      TakesAll(signals[..n], accepts);
      ReactFollows(Run(signals[..n], accepts), signals[..n], signals[n], accepts);
      assert signals == signals[..n] + [signals[n]];
    }
  }

  /** One event and a quiet window: one attempt if a tool was registered or deregistered, and none
      after any other event. */
  lemma OneEvent(e: Event, accepts: nat)
    ensures Sends(Run([Delivered(e), WindowElapsed], accepts).actions) ==
      match e
      case ToolRegistered(_) => 1
      case ToolDeregistered(_) => 1
      case AgentRegistered(_) => 0
      case AgentDeregistered(_) => 0
      case AgentDisconnected(_) => 0
      case AgentReconnected(_) => 0
      case NewMessage(_) => 0
      case TaskCreated(_) => 0
      case TaskStatusChanged(_, _, _) => 0
      case TaskArtifactAdded(_, _) => 0
  {
    var signals := [Delivered(e), WindowElapsed];
    RunStarts(signals, accepts);
    RunSnoc(signals, 0, accepts);
    RunSnoc(signals, 1, accepts);
    assert signals[..2] == signals;
    CountSnoc([], Took(IsToolEvent(e)));
    CountSnoc([Took(IsToolEvent(e))], SendAttempt);
  }
}
