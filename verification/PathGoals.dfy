/** The path client over whole runs: which paths it takes in, and what each one does to the goal that is running. */
module PathGoals {
  import opened Options
  import opened PathClient

  // ---------- the running goal ----------

  /** The goal last accepted, unless some goal finished or was refused, or a cancel reply came, since then. */
  function Running(pathFrame: string, events: seq<Event>): Option<nat> {
    if events == [] then None
    else
      var init, e := events[..|events| - 1], events[|events| - 1];
      var before := Running(pathFrame, init);
      if !Enabled(Run(pathFrame, init), e) then before
      else match e
        case GoalReply(goal, accepted) => if accepted then Some(goal) else None
        case GoalResult(_) => None
        case CancelReply => None
        case _ => before
  }

  lemma {:induction false} RunningIsHeld(pathFrame: string, events: seq<Event>)
    ensures Run(pathFrame, events).handle == Running(pathFrame, events)
  {
    hide StampPath, DefaultFrame, Enabled;
    if events != [] {
      RunningIsHeld(pathFrame, events[..|events| - 1]);
    }
  }

  // ---------- paths taken in ----------

  /** What becomes of a path: its frame where it names none, the stamp throughout, nothing else changed. */
  ghost predicate Prepared(path: Path, frame: string, now: int, prepared: Path) {
    && prepared.frame == (if path.frame == "" then frame else path.frame) && prepared.stamp == now
    && |prepared.poses| == |path.poses|
    && forall k :: 0 <= k < |path.poses| ==>
         var p, q := path.poses[k], prepared.poses[k];
         q.x == p.x && q.y == p.y && q.stamp == now && q.frame == if p.frame == "" then prepared.frame else p.frame
  }

  lemma StampPrepares(path: Path, frame: string, now: int)
    ensures Prepared(path, frame, now, StampPath(DefaultFrame(path, frame), now))
    ensures Prepared(path, path.frame, now, StampPath(path, now))
  {
  }

  /**
   * The event brings in a path to follow: a message with poses in the right frame, a file, or a result with poses of
   * the newest planning request, while the server is there.
   */
  ghost predicate BringsIn(pathFrame: string, st: State, e: Event, path: Path, frame: string, now: int) {
    match e
    case PathMessage(p, ready, t) =>
      ready && path == p && frame == pathFrame && now == t && p.poses != [] && (p.frame == "" || p.frame == pathFrame)
    case CsvFile(p, ready, t) => ready && path == p && frame == p.frame && now == t && p.poses != []
    case PlannerResult(id, result, ready, t) =>
      && ready && result == Some(path) && frame == pathFrame && now == t && path.poses != []
      && id == st.planningRequestId && id in st.planner && st.planner[id] == AwaitingResult
    case _ => false
  }

  /** No path comes in, and only a cancel reply sends one, the pending one if there is any. */
  lemma NothingTaken(pathFrame: string, events: seq<Event>, e: Event)
    requires forall path, frame, now :: !BringsIn(pathFrame, Run(pathFrame, events), e, path, frame, now)
    ensures var st, st' := Run(pathFrame, events), Run(pathFrame, events + [e]);
      && st'.activePaths == st.activePaths
      && (if e == CancelReply && st.cancels > 0
          then st'.cancels == st.cancels - 1 && st'.pending == None &&
            st'.sent == st.sent + (if st.pending.Some? then [st.pending.value] else [])
          else st'.cancels == st.cancels && st'.pending == st.pending && st'.sent == st.sent)
  {
    hide Run, StampPath;
    RunAppends(pathFrame, events, e);
    var st := Run(pathFrame, events);
    assert e.PathMessage? ==> !BringsIn(pathFrame, st, e, e.path, pathFrame, e.now);
    assert e.CsvFile? ==> !BringsIn(pathFrame, st, e, e.path, e.path.frame, e.now);
    assert e.PlannerResult? && e.result.Some? ==> !BringsIn(pathFrame, st, e, e.result.value, pathFrame, e.now);
  }

  /**
   * A path brought in is published. While a goal is running it is not sent: a cancel is asked for and the path waits,
   * in place of any that waited before. Otherwise it is sent at once.
   */
  lemma PathTaken(pathFrame: string, events: seq<Event>, e: Event, path: Path, frame: string, now: int)
    returns (prepared: Path)
    requires BringsIn(pathFrame, Run(pathFrame, events), e, path, frame, now)
    ensures Prepared(path, frame, now, prepared)
    ensures var st, st' := Run(pathFrame, events), Run(pathFrame, events + [e]);
      && st'.activePaths == st.activePaths + [prepared]
      && (if Running(pathFrame, events).Some?
          then st'.cancels == st.cancels + 1 && st'.pending == Some(prepared) && st'.sent == st.sent
          else st'.cancels == st.cancels && st'.pending == None && st'.sent == st.sent + [prepared])
  {
    hide Run, Running, Prepared, StampPath;
    RunAppends(pathFrame, events, e);
    RunningIsHeld(pathFrame, events);
    prepared := if e.CsvFile? then StampPath(path, now) else StampPath(DefaultFrame(path, frame), now);
    StampPrepares(path, frame, now);
  }

  /** While a goal is running only a cancel reply sends another. */
  lemma SentOnlyWhenFree(pathFrame: string, events: seq<Event>, e: Event)
    requires Running(pathFrame, events).Some? && e != CancelReply
    ensures Run(pathFrame, events + [e]).sent == Run(pathFrame, events).sent
  {
    hide Run, Running, Prepared, BringsIn;
    var st := Run(pathFrame, events);
    if path, frame, now :| BringsIn(pathFrame, st, e, path, frame, now) {
      var prepared := PathTaken(pathFrame, events, e, path, frame, now);
    } else {
      NothingTaken(pathFrame, events, e);
    }
  }

  /**
   * A goal in the right frame, or in none, makes a new planning request when the planner is there; nothing else does.
   */
  lemma PlannedExactly(pathFrame: string, events: seq<Event>, e: Event)
    ensures var st, st' := Run(pathFrame, events), Run(pathFrame, events + [e]);
      if e.Goal? && (e.frame == "" || e.frame == pathFrame) && e.ready
      then st'.planningRequestId == st.planningRequestId + 1 && st'.isPlanning &&
        st'.planner == st.planner[st'.planningRequestId := AwaitingReply]
      else st'.planningRequestId == st.planningRequestId && (st'.isPlanning ==> st.isPlanning)
  {
    hide Run, StampPath;
    RunAppends(pathFrame, events, e);
  }

  /** Planning ends exactly with a refusal of, a failure of, or a result for the newest request. */
  lemma PlanningEndsExactly(pathFrame: string, events: seq<Event>, e: Event)
    requires Run(pathFrame, events).isPlanning
    ensures var st, st' := Run(pathFrame, events), Run(pathFrame, events + [e]);
      !st'.isPlanning <==>
        && Enabled(st, e) && (e.PlannerReply? || e.PlannerResult?) && e.id == st.planningRequestId
        && (e.PlannerReply? ==> e.reply != Accepted)
  {
    hide Run, StampPath;
    RunAppends(pathFrame, events, e);
  }
}
