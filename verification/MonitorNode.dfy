/** The collision monitor node over its whole life: commands in, velocities out, activation and deactivation. */
module MonitorNode {
  import opened Options
  import opened CollisionTime
  import opened CollisionMonitor
  import opened Polygons

  /** A velocity sent out, with the time it was sent. */
  datatype Sent = Sent(time: real, vel: Velocity)

  /** The initial "previous action", not at rest, so that a first stop counts as a new one. */
  const NO_ACTION := Action(DoNothing, Velocity(-1.0, -1.0, -1.0))

  datatype Node = Node(active: bool, prev: Action, stopStamp: real, sent: seq<Sent>)

  const INITIAL := Node(false, NO_ACTION, 0.0, [])

  /** One call of the node from outside; a command brings the action decided for it and the clock. */
  datatype Event = Activate | Deactivate | Command(action: Action, now: real)

  /** The velocity is sent unless the robot has already been stopped for longer than the timeout. */
  predicate Silent(n: Node, action: Action, now: real, timeout: real) {
    IsZero(action.reqVel) && IsZero(n.prev.reqVel) && now - n.stopStamp > timeout
  }

  function Step(n: Node, e: Event, timeout: real): Node {
    match e
    case Activate => n.(active := true)
    case Deactivate => n.(active := false, prev := NO_ACTION)
    case Command(action, now) =>
      if !n.active then n
      else
        var stamp := if IsZero(action.reqVel) && !IsZero(n.prev.reqVel) then now else n.stopStamp;
        Node(true, action, stamp, if Silent(n, action, now, timeout) then n.sent
          else n.sent + [Sent(now, action.reqVel)])
  }

  function Run(events: seq<Event>, timeout: real): Node {
    if events == [] then INITIAL else Step(Run(events[..|events| - 1], timeout), events[|events| - 1], timeout)
  }

  class CollisionMonitorNode {
    var processActive: bool
    var robotActionPrev: Action
    var stopStamp: real
    ghost var sent: seq<Sent>
    const stopPubTimeout: real

    ghost function State(): Node
      reads this
    {
      Node(processActive, robotActionPrev, stopStamp, sent)
    }

    constructor (stopPubTimeout: real)
      ensures State() == INITIAL && this.stopPubTimeout == stopPubTimeout
    {
      this.stopPubTimeout := stopPubTimeout;
      processActive, robotActionPrev, stopStamp, sent := false, NO_ACTION, 0.0, [];
    }

    method OnActivate()
      modifies this
      ensures State() == Step(old(State()), Activate, stopPubTimeout)
    {
      processActive := true;
    }

    method OnDeactivate()
      modifies this
      ensures State() == Step(old(State()), Deactivate, stopPubTimeout)
    {
      processActive := false;
      robotActionPrev := NO_ACTION;
    }

    method PublishVelocity(action: Action, now: real)
      modifies this`stopStamp, this`sent
      ensures var n := Step(old(State()).(active := true), Command(action, now), stopPubTimeout);
        stopStamp == n.stopStamp && sent == n.sent
    {
      if IsZero(action.reqVel) {
        if !IsZero(robotActionPrev.reqVel) {
          stopStamp := now;
        } else if now - stopStamp > stopPubTimeout {
          return;
        }
      }
      sent := sent + [Sent(now, action.reqVel)];
    }

    method Process(polygons: seq<SafetyPolygon>, turn: real -> Rotation, points: array<Point>, cmd: Velocity, now: real)
      requires AllConfigured(polygons)
      modifies this
      ensures State() == Step(old(State()), Command(Decide(polygons, Scene(turn, points[..]), cmd), now),
                              stopPubTimeout)
    {
      if !processActive {
        return;
      }
      hide Decide, Silent;
      ghost var seen := points[..];
      var action := DecideAction(polygons, turn, points, cmd);
      PublishVelocity(action, now);
      robotActionPrev := action;
      assert points[..] == seen;
    }
  }

  // ---------- over every history ----------

  /** The zeros at the end of the log reach back to the recorded stop time. */
  ghost predicate StopLogged(n: Node, i: nat) {
    i < |n.sent| && n.sent[i].time == n.stopStamp && forall k :: i <= k < |n.sent| ==> IsZero(n.sent[k].vel)
  }

  /**
   * A previous action is one whose velocity the robot last heard; a stopped robot was told so from the stop time on.
   */
  ghost predicate LogAgrees(n: Node) {
    && (n.prev != NO_ACTION ==> n.sent != [] && n.sent[|n.sent| - 1].vel == n.prev.reqVel)
    && (IsZero(n.prev.reqVel) ==> exists i: nat :: StopLogged(n, i))
  }

  lemma StepKeepsLog(n: Node, e: Event, timeout: real)
    requires LogAgrees(n)
    ensures LogAgrees(Step(n, e, timeout))
  {
    var n' := Step(n, e, timeout);
    if e.Command? && n.active {
      if IsZero(e.action.reqVel) {
        ZeroIsZero(e.action.reqVel);
        if IsZero(n.prev.reqVel) {
          ZeroIsZero(n.prev.reqVel);
          var i: nat :| StopLogged(n, i);
          assert StopLogged(n', i);
        } else {
          assert StopLogged(n', |n.sent|);
        }
      }
    } else if IsZero(n'.prev.reqVel) {
      var i: nat :| StopLogged(n, i);
      assert StopLogged(n', i);
    }
  }

  lemma ZeroIsZero(v: Velocity)
    ensures IsZero(v) <==> v == ZERO
  {
  }

  lemma {:induction false} RunKeepsLog(events: seq<Event>, timeout: real)
    ensures LogAgrees(Run(events, timeout))
  {
    if events != [] {
      RunKeepsLog(events[..|events| - 1], timeout);
      StepKeepsLog(Run(events[..|events| - 1], timeout), events[|events| - 1], timeout);
    }
  }

  /**
   Suppressing repeated stops hides nothing: after any history, once an active node handles a command the last
   velocity sent is the one just required.
   */
  lemma LastSentIsRequired(events: seq<Event>, action: Action, now: real, timeout: real)
    requires Run(events, timeout).active
    ensures var n := Step(Run(events, timeout), Command(action, now), timeout);
      n.sent != [] && n.sent[|n.sent| - 1].vel == action.reqVel
  {
    hide Run;
    var before := Run(events, timeout);
    RunKeepsLog(events, timeout);
    if Silent(before, action, now, timeout) {
      ZeroIsZero(action.reqVel);
      ZeroIsZero(before.prev.reqVel);
    }
  }

  /**
   A call is silent only when the required velocity is zero and zeros have been sent from a stop more than the
   timeout ago; an inactive node sends nothing.
   */
  lemma SilenceIsEarned(events: seq<Event>, action: Action, now: real, timeout: real)
    requires Run(events, timeout).active
    requires Step(Run(events, timeout), Command(action, now), timeout).sent == Run(events, timeout).sent
    ensures IsZero(action.reqVel) && IsZero(Run(events, timeout).prev.reqVel)
    ensures exists i: nat :: StopLogged(Run(events, timeout), i) && now - Run(events, timeout).sent[i].time > timeout
  {
    hide Run;
    var before := Run(events, timeout);
    RunKeepsLog(events, timeout);
    if !Silent(before, action, now, timeout) {
      AppendIsLonger(before.sent, Sent(now, action.reqVel));
    }
    var i: nat :| StopLogged(before, i);
  }

  lemma AppendIsLonger(s: seq<Sent>, x: Sent)
    ensures s + [x] != s
  {
    assert |s + [x]| == |s| + 1;
  }

  /** After a deactivation the next active command is always sent, whatever was sent before. */
  lemma ReactivationSpeaks(events: seq<Event>, action: Action, now: real, timeout: real)
    ensures var n := Step(Step(Run(events, timeout), Deactivate, timeout), Activate, timeout);
      Step(n, Command(action, now), timeout).sent == Run(events, timeout).sent + [Sent(now, action.reqVel)]
  {
  }

  // ---------- exactly what is sent ----------

  /** Whether the node was activated after it was last deactivated. */
  predicate Active(events: seq<Event>) {
    if events == [] then false
    else match events[|events| - 1]
      case Activate => true
      case Deactivate => false
      case Command(_, _) => Active(events[..|events| - 1])
  }

  /** When the robot was first told to stop, if it has been told so by every command handled since then. */
  function StoppedSince(events: seq<Event>): Option<real> {
    if events == [] then None
    else
      var init := events[..|events| - 1];
      match events[|events| - 1]
      case Activate => StoppedSince(init)
      case Deactivate => None
      case Command(action, now) =>
        if !Active(init) then StoppedSince(init)
        else if !IsZero(action.reqVel) then None
        else if StoppedSince(init).Some? then StoppedSince(init)
        else Some(now)
  }

  lemma {:induction false} RunKnowsStop(events: seq<Event>, timeout: real)
    ensures var n := Run(events, timeout);
      && n.active == Active(events)
      && StoppedSince(events) == if IsZero(n.prev.reqVel) then Some(n.stopStamp) else None
  {
    if events != [] {
      RunKnowsStop(events[..|events| - 1], timeout);
    }
  }

  /**
   * In every history: a command is sent on as required by an active node, unless it asks an already stopped robot to
   * stop more than the timeout after the stop began; nothing else is ever sent.
   */
  lemma SentExactly(events: seq<Event>, e: Event, timeout: real)
    ensures Run(events + [e], timeout).sent == Run(events, timeout).sent +
      if e.Command? && Active(events) &&
         !(IsZero(e.action.reqVel) && StoppedSince(events).Some? && e.now - StoppedSince(events).value > timeout)
      then [Sent(e.now, e.action.reqVel)] else []
  {
    hide Run, Active, StoppedSince;
    RunKnowsStop(events, timeout);
    RunOneMore(events, e, timeout);
    assert Run(events, timeout).sent + [] == Run(events, timeout).sent;
  }

  lemma RunOneMore(events: seq<Event>, e: Event, timeout: real)
    ensures Run(events + [e], timeout) == Step(Run(events, timeout), e, timeout)
  {
    assert (events + [e])[..|events|] == events;
  }
}
