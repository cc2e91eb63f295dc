/** The path client: paths in, FollowPath goals out, with asynchronous cancel, planner and goal replies. */
module PathClient {
  import opened Options

  datatype Pose = Pose(frame: string, stamp: int, x: real, y: real)

  datatype Path = Path(frame: string, stamp: int, poses: seq<Pose>)

  /** A planning request waits for its reply and, once accepted, for its result. */
  datatype Phase = AwaitingReply | AwaitingResult

  datatype Reply = Failed | Refused | Accepted

  /**
   * The first four fields are the client's own. The others are what is under way outside it: cancel replies and
   * planner exchanges still to come, goals (numbered as sent) still to be answered or to finish; and what it
   * published and sent.
   */
  datatype State = State(handle: Option<nat>, pending: Option<Path>, isPlanning: bool, planningRequestId: nat,
                         cancels: nat, planner: map<nat, Phase>, unanswered: set<nat>, following: set<nat>,
                         activePaths: seq<Path>, sent: seq<Path>)

  const INITIAL := State(None, None, false, 0, 0, map[], {}, {}, [], [])

  /** Everything that can call back into the client; ready says whether the action server is there. */
  datatype Event =
    | Goal(frame: string, ready: bool)
    | PlannerReply(id: nat, reply: Reply)
    | PlannerResult(id: nat, result: Option<Path>, ready: bool, now: int)
    | PathMessage(path: Path, ready: bool, now: int)
    | CsvFile(path: Path, ready: bool, now: int)
    | CancelReply
    | GoalReply(goal: nat, accepted: bool)
    | GoalResult(goal: nat)

  /** Replies come only to what was asked, once; a CSV file without poses is refused on loading. */
  predicate Enabled(st: State, e: Event) {
    match e
    case PlannerReply(id, _) => id in st.planner && st.planner[id] == AwaitingReply
    case PlannerResult(id, _, _, _) => id in st.planner && st.planner[id] == AwaitingResult
    case CsvFile(path, _, _) => path.poses != []
    case CancelReply => st.cancels > 0
    case GoalReply(goal, _) => goal in st.unanswered
    case GoalResult(goal) => goal in st.following
    case _ => true
  }

  /** The path as sent: stamped throughout, poses without a frame in that of the path. */
  function StampPath(path: Path, now: int): Path {
    Path(path.frame, now,
         seq(|path.poses|, k requires 0 <= k < |path.poses| =>
           var p := path.poses[k]; Pose(if p.frame == "" then path.frame else p.frame, now, p.x, p.y)))
  }

  function DefaultFrame(path: Path, frame: string): Path {
    if path.frame == "" then path.(frame := frame) else path
  }

  function SendPending(st: State): State {
    var cleared := st.(pending := None, handle := None);
    if st.pending == None then cleared
    else cleared.(sent := st.sent + [st.pending.value], unanswered := st.unanswered + {|st.sent|})
  }

  function SendPath(st: State, path: Path, ready: bool, now: int): State {
    if !ready then st
    else
      var stamped := StampPath(path, now);
      var stored := st.(activePaths := st.activePaths + [stamped], pending := Some(stamped));
      if st.handle.Some? then stored.(cancels := st.cancels + 1) else SendPending(stored)
  }

  function Plan(st: State): State {
    var id := st.planningRequestId + 1;
    st.(planningRequestId := id, isPlanning := true, planner := st.planner[id := AwaitingReply])
  }

  function TakePlannerReply(st: State, id: nat, reply: Reply): State {
    var taken := st.(planner := st.planner - {id});
    if id != st.planningRequestId then taken
    else if reply != Accepted then taken.(isPlanning := false)
    else taken.(planner := taken.planner[id := AwaitingResult])
  }

  function TakePlannerResult(pathFrame: string, st: State, id: nat, result: Option<Path>, ready: bool,
                             now: int): State {
    var taken := st.(planner := st.planner - {id});
    if id != st.planningRequestId then taken
    else
      var idle := taken.(isPlanning := false);
      if result == None || result.value.poses == [] then idle
      else SendPath(idle, DefaultFrame(result.value, pathFrame), ready, now)
  }

  function TakePathMessage(pathFrame: string, st: State, path: Path, ready: bool, now: int): State {
    if path.poses == [] || DefaultFrame(path, pathFrame).frame != pathFrame then st
    else SendPath(st, DefaultFrame(path, pathFrame), ready, now)
  }

  function TakeGoalReply(st: State, goal: nat, accepted: bool): State {
    var taken := st.(unanswered := st.unanswered - {goal});
    if accepted then taken.(handle := Some(goal), following := st.following + {goal}) else taken.(handle := None)
  }

  /** One callback; an event that cannot happen changes nothing. */
  function Step(pathFrame: string, st: State, e: Event): State {
    if !Enabled(st, e) then st
    else
      match e
      case Goal(frame, ready) => if (frame != "" && frame != pathFrame) || !ready then st else Plan(st)
      case PlannerReply(id, reply) => TakePlannerReply(st, id, reply)
      case PlannerResult(id, result, ready, now) => TakePlannerResult(pathFrame, st, id, result, ready, now)
      case PathMessage(path, ready, now) => TakePathMessage(pathFrame, st, path, ready, now)
      case CsvFile(path, ready, now) => SendPath(st, path, ready, now)
      case CancelReply => SendPending(st.(cancels := st.cancels - 1))
      case GoalReply(goal, accepted) => TakeGoalReply(st, goal, accepted)
      case GoalResult(goal) => st.(following := st.following - {goal}, handle := None)
  }

  function Run(pathFrame: string, events: seq<Event>): State {
    if events == [] then INITIAL
    else Step(pathFrame, Run(pathFrame, events[..|events| - 1]), events[|events| - 1])
  }

  // ---------- the client ----------

  class MppiPathClient {
    const pathFrame: string
    var currentGoalHandle: Option<nat>
    var pendingPath: Option<Path>
    var isPlanning: bool
    var planningRequestId: nat
    ghost var cancels: nat
    ghost var planner: map<nat, Phase>
    ghost var unanswered: set<nat>
    ghost var following: set<nat>
    ghost var activePaths: seq<Path>
    ghost var sent: seq<Path>

    ghost function Value(): State
      reads this
    {
      State(currentGoalHandle, pendingPath, isPlanning, planningRequestId, cancels, planner, unanswered, following,
            activePaths, sent)
    }

    constructor (pathFrame: string)
      ensures Value() == INITIAL && this.pathFrame == pathFrame
    {
      this.pathFrame := pathFrame;
      currentGoalHandle, pendingPath, isPlanning, planningRequestId := None, None, false, 0;
      cancels, planner, unanswered, following := 0, map[], {}, {};
      activePaths, sent := [], [];
    }

    method GoalCallback(frame: string, ready: bool)
      modifies this
      ensures Value() == Step(pathFrame, old(Value()), Goal(frame, ready))
    {
      if frame != "" && frame != pathFrame {
        return;
      }
      if !ready {
        return;
      }
      planningRequestId := planningRequestId + 1;
      isPlanning := true;
      planner := planner[planningRequestId := AwaitingReply];
    }

    method PlannerGoalResponse(requestId: nat, reply: Reply)
      requires requestId in planner && planner[requestId] == AwaitingReply
      modifies this
      ensures Value() == Step(pathFrame, old(Value()), PlannerReply(requestId, reply))
    {
      planner := planner - {requestId};
      if requestId != planningRequestId {
        return;
      }
      if reply != Accepted {
        isPlanning := false;
        return;
      }
      planner := planner[requestId := AwaitingResult];
    }

    method PlannerResultCallback(requestId: nat, result: Option<Path>, ready: bool, now: int)
      requires requestId in planner && planner[requestId] == AwaitingResult
      modifies this
      ensures Value() == Step(pathFrame, old(Value()), PlannerResult(requestId, result, ready, now))
    {
      planner := planner - {requestId};
      if requestId != planningRequestId {
        return;
      }
      isPlanning := false;
      if result == None || result.value.poses == [] {
        return;
      }
      StoreAndSend(DefaultFrame(result.value, pathFrame), ready, now);
    }

    method PathCallback(path: Path, ready: bool, now: int)
      modifies this
      ensures Value() == Step(pathFrame, old(Value()), PathMessage(path, ready, now))
    {
      if path.poses == [] {
        return;
      }
      var framed := DefaultFrame(path, pathFrame);
      if framed.frame != pathFrame {
        return;
      }
      StoreAndSend(framed, ready, now);
    }

    method StoreAndSend(path: Path, ready: bool, now: int)
      modifies this
      ensures Value() == SendPath(old(Value()), path, ready, now)
    {
      if !ready {
        return;
      }
      var stamped := StampPath(path, now);
      activePaths := activePaths + [stamped];
      pendingPath := Some(stamped);
      if currentGoalHandle.Some? {
        cancels := cancels + 1;
        return;
      }
      Flush();
    }

    method Flush()
      modifies this
      ensures Value() == SendPending(old(Value()))
    {
      var path := pendingPath;
      pendingPath := None;
      currentGoalHandle := None;
      if path == None {
        return;
      }
      unanswered := unanswered + {|sent|};
      sent := sent + [path.value];
    }

    method CancelDone()
      requires cancels > 0
      modifies this
      ensures Value() == Step(pathFrame, old(Value()), CancelReply)
    {
      cancels := cancels - 1;
      Flush();
    }

    method GoalResponse(goal: nat, accepted: bool)
      requires goal in unanswered
      modifies this
      ensures Value() == Step(pathFrame, old(Value()), GoalReply(goal, accepted))
    {
      unanswered := unanswered - {goal};
      if !accepted {
        currentGoalHandle := None;
        return;
      }
      currentGoalHandle := Some(goal);
      following := following + {goal};
    }

    method ResultCallback(goal: nat)
      requires goal in following
      modifies this
      ensures Value() == Step(pathFrame, old(Value()), GoalResult(goal))
    {
      following := following - {goal};
      currentGoalHandle := None;
    }
  }

  // ---------- what goes out ----------

  /** picked keeps some entries of all, each at most once and in their order. */
  ghost predicate Subsequence(picked: seq<Path>, all: seq<Path>)
    decreases |all|
  {
    if picked == [] then true
    else if all == [] then false
    else
      var p, a := |picked| - 1, |all| - 1;
      (picked[p] == all[a] && Subsequence(picked[..p], all[..a])) || Subsequence(picked, all[..a])
  }

  lemma SubsequenceSkips(picked: seq<Path>, all: seq<Path>, x: Path)
    requires Subsequence(picked, all)
    ensures Subsequence(picked, all + [x])
  {
    assert (all + [x])[..|all|] == all;
  }

  lemma SubsequenceTakes(picked: seq<Path>, all: seq<Path>, x: Path)
    requires Subsequence(picked, all)
    ensures Subsequence(picked + [x], all + [x])
  {
    assert (all + [x])[..|all|] == all && (picked + [x])[..|picked|] == picked;
  }

  /** A path ready to follow: not empty, stamped throughout, every pose in a frame when the path has one. */
  ghost predicate WellFormed(path: Path) {
    && path.poses != []
    && forall p :: p in path.poses ==> p.stamp == path.stamp && (path.frame != "" ==> p.frame != "")
  }

  /**
   * A waiting path is the newest one accepted and a cancel reply is under way; with none waiting the newest is sent.
   */
  ghost predicate LatestWins(st: State) {
    match st.pending
    case Some(path) =>
      && st.cancels > 0
      && st.activePaths != [] && path == st.activePaths[|st.activePaths| - 1]
      && Subsequence(st.sent, st.activePaths[..|st.activePaths| - 1])
    case None =>
      && Subsequence(st.sent, st.activePaths)
      && (st.activePaths != [] ==> st.sent != [] && st.sent[|st.sent| - 1] == st.activePaths[|st.activePaths| - 1])
  }

  /** The planner exchanges under way are for requests made, and is_planning tells whether the newest is among them. */
  ghost predicate PlanningKnown(st: State) {
    && (forall id :: id in st.planner ==> 0 < id <= st.planningRequestId)
    && (st.isPlanning <==> st.planningRequestId in st.planner)
  }

  ghost predicate GoalsKnown(st: State) {
    && (forall g :: g in st.unanswered ==> g < |st.sent|)
    && (forall g :: g in st.following ==> g < |st.sent|)
    && (st.handle.Some? ==> st.handle.value < |st.sent|)
    && (forall path :: path in st.activePaths ==> WellFormed(path))
  }

  ghost predicate Invariant(st: State) {
    LatestWins(st) && PlanningKnown(st) && GoalsKnown(st)
  }

  /** Sending what waits keeps everything; the cancel reply that caused it, if any, is no longer counted. */
  lemma SendPendingKeeps(st: State)
    requires Invariant(st.(cancels := st.cancels + 1))
    ensures Invariant(SendPending(st)) && SendPending(st).pending == None
  {
    hide Subsequence, WellFormed;
    var next := SendPending(st);
    if st.pending.Some? {
      var n := |st.activePaths| - 1;
      SubsequenceTakes(st.sent, st.activePaths[..n], st.pending.value);
      assert st.activePaths[..n] + [st.pending.value] == st.activePaths;
      assert LatestWins(next);
      assert GoalsKnown(next);
    }
  }

  lemma StampedIsWellFormed(path: Path, now: int)
    requires path.poses != []
    ensures WellFormed(StampPath(path, now))
  {
  }

  lemma SendPathKeeps(st: State, path: Path, ready: bool, now: int)
    requires Invariant(st) && path.poses != []
    ensures Invariant(SendPath(st, path, ready, now))
  {
    hide WellFormed, Invariant, SendPending, StampPath;
    var stamped := StampPath(path, now);
    StampedIsWellFormed(path, now);
    StoredKeeps(st, stamped);
    SendPendingKeeps(st.(activePaths := st.activePaths + [stamped], pending := Some(stamped)));
  }

  /** A path accepted while a cancel is requested becomes the pending one. */
  lemma StoredKeeps(st: State, stamped: Path)
    requires Invariant(st) && WellFormed(stamped)
    ensures Invariant(st.(activePaths := st.activePaths + [stamped], pending := Some(stamped), cancels := st.cancels +
      1))
  {
    hide WellFormed, Subsequence;
    var paths := st.activePaths + [stamped];
    assert paths[..|st.activePaths|] == st.activePaths;
    if st.pending.Some? {
      var n := |st.activePaths| - 1;
      SubsequenceSkips(st.sent, st.activePaths[..n], st.pending.value);
      assert st.activePaths[..n] + [st.pending.value] == st.activePaths;
    }
  }

  lemma GoalReplyKeeps(st: State, goal: nat, accepted: bool)
    requires Invariant(st) && goal in st.unanswered
    ensures Invariant(TakeGoalReply(st, goal, accepted))
  {
    hide WellFormed, Subsequence;
  }

  lemma GoalResultKeeps(st: State, goal: nat)
    requires Invariant(st)
    ensures Invariant(st.(following := st.following - {goal}, handle := None))
  {
    hide WellFormed, Subsequence;
  }

  lemma PlanKeeps(st: State)
    requires Invariant(st)
    ensures Invariant(Plan(st))
  {
    hide WellFormed, Subsequence;
  }

  lemma PlannerReplyKeeps(st: State, id: nat, reply: Reply)
    requires Invariant(st) && id in st.planner
    ensures Invariant(TakePlannerReply(st, id, reply))
  {
    hide WellFormed, Subsequence;
  }

  lemma ResolvedKeeps(st: State, id: nat)
    requires Invariant(st)
    ensures var taken := st.(planner := st.planner - {id});
      Invariant(if id == st.planningRequestId then taken.(isPlanning := false) else taken)
  {
    hide WellFormed, Subsequence;
  }

  lemma PlannerResultKeeps(pathFrame: string, st: State, id: nat, result: Option<Path>, ready: bool, now: int)
    requires Invariant(st)
    ensures Invariant(TakePlannerResult(pathFrame, st, id, result, ready, now))
  {
    hide Invariant, SendPath;
    ResolvedKeeps(st, id);
    if id == st.planningRequestId && result.Some? && result.value.poses != [] {
      var idle := st.(planner := st.planner - {id}, isPlanning := false);
      SendPathKeeps(idle, DefaultFrame(result.value, pathFrame), ready, now);
    }
  }

  lemma StepKeeps(pathFrame: string, st: State, e: Event)
    requires Invariant(st)
    ensures Invariant(Step(pathFrame, st, e))
  {
    hide Invariant, SendPath, SendPending, Plan, TakePlannerReply, TakePlannerResult, TakeGoalReply;
    if Enabled(st, e) {
      match e
      case Goal(_, _) => PlanKeeps(st);
      case GoalReply(goal, accepted) => GoalReplyKeeps(st, goal, accepted);
      case GoalResult(goal) => GoalResultKeeps(st, goal);
      case PlannerReply(id, reply) => PlannerReplyKeeps(st, id, reply);
      case PlannerResult(id, result, ready, now) => PlannerResultKeeps(pathFrame, st, id, result, ready, now);
      case PathMessage(path, ready, now) =>
        if path.poses != [] { SendPathKeeps(st, DefaultFrame(path, pathFrame), ready, now); }
      case CsvFile(path, ready, now) => SendPathKeeps(st, path, ready, now);
      case CancelReply => SendPendingKeeps(st.(cancels := st.cancels - 1));
    }
  }

  /**
   * Under every interleaving of callbacks the goals sent are some of the paths accepted, each at most once and in
   * order; a path waits only while a cancel reply is under way, and with none under way the newest path accepted is
   * the newest sent; is_planning holds exactly while the newest planning request is unresolved.
   */
  lemma {:induction false} RunKeepsInvariant(pathFrame: string, events: seq<Event>)
    ensures Invariant(Run(pathFrame, events))
  {
    hide Step, Invariant;
    if events == [] {
      InitialOk();
    } else {
      RunKeepsInvariant(pathFrame, events[..|events| - 1]);
      StepKeeps(pathFrame, Run(pathFrame, events[..|events| - 1]), events[|events| - 1]);
    }
  }

  lemma InitialOk()
    ensures Invariant(INITIAL)
  {
  }

  lemma {:induction false} SubsequenceOfLonger(picked: seq<Path>, all: seq<Path>)
    requires all != [] && Subsequence(picked, all[..|all| - 1])
    ensures Subsequence(picked, all)
  {
    SubsequenceSkips(picked, all[..|all| - 1], all[|all| - 1]);
    assert all[..|all| - 1] + [all[|all| - 1]] == all;
  }

  lemma SentInOrder(pathFrame: string, events: seq<Event>)
    ensures var st := Run(pathFrame, events);
      && Subsequence(st.sent, st.activePaths)
      && (forall path :: path in st.activePaths ==> WellFormed(path))
      && (st.pending.Some? ==> st.cancels > 0)
      && (st.cancels == 0 && st.activePaths != [] ==>
            st.sent != [] && st.sent[|st.sent| - 1] == st.activePaths[|st.activePaths| - 1])
      && (st.isPlanning <==> st.planningRequestId in st.planner)
  {
    hide Run, Subsequence, WellFormed;
    RunKeepsInvariant(pathFrame, events);
    var st := Run(pathFrame, events);
    if st.pending.Some? { SubsequenceOfLonger(st.sent, st.activePaths); }
  }

  // ---------- delivery of the cancel replies ----------

  function CancelReplies(n: nat): (events: seq<Event>)
    ensures |events| == n
  {
    if n == 0 then [] else CancelReplies(n - 1) + [CancelReply]
  }

  /**
   * Once the cancel replies under way are delivered, with nothing else in between, however many paths were accepted
   * meanwhile: exactly the waiting one is sent, so the newest accepted is the newest sent.
   */
  lemma {:induction false} DeliveredSendsNewest(pathFrame: string, events: seq<Event>, n: nat)
    requires 0 < n <= Run(pathFrame, events).cancels
    ensures var st, st' := Run(pathFrame, events), Run(pathFrame, events + CancelReplies(n));
      && st'.cancels == st.cancels - n && st'.activePaths == st.activePaths
      && st'.sent == (if st.pending.Some? then st.sent + [st.pending.value] else st.sent)
      && st'.pending == None
      && (st.activePaths != [] ==> st'.sent != [] && st'.sent[|st'.sent| - 1] == st'.activePaths[|st'.activePaths| - 1])
  {
    hide Run, Step, Subsequence, WellFormed, PlanningKnown, GoalsKnown;
    var earlier, more := events + CancelReplies(n - 1), events + CancelReplies(n);
    if n == 1 {
      assert earlier == events;
    } else {
      DeliveredSendsNewest(pathFrame, events, n - 1);
    }
    assert more == earlier + [CancelReply];
    CancelDelivered(pathFrame, earlier);
    RunKeepsInvariant(pathFrame, more);
  }

  lemma CancelDelivered(pathFrame: string, events: seq<Event>)
    requires Run(pathFrame, events).cancels > 0
    ensures var st := Run(pathFrame, events);
      Run(pathFrame, events + [CancelReply]) == SendPending(st.(cancels := st.cancels - 1))
  {
    RunAppends(pathFrame, events, CancelReply);
  }

  // ---------- stale planner replies ----------

  /** A planner reply or result for any but the newest request changes nothing the client keeps, publishes or sends. */
  lemma StaleIsIgnored(pathFrame: string, st: State, e: Event)
    requires (e.PlannerReply? || e.PlannerResult?) && e.id != st.planningRequestId
    ensures Step(pathFrame, st, e) == st.(planner := Step(pathFrame, st, e).planner)
    ensures Enabled(st, e) ==> Step(pathFrame, st, e).planner == st.planner - {e.id}
  {
  }

  /**
   * In any run, a planner result leads to a path only as the answer to the newest request, at most once per request:
   * after it that request is resolved and no longer planning.
   */
  lemma PlannedPathIsNewest(pathFrame: string, events: seq<Event>, e: Event)
    requires e.PlannerResult?
    requires Run(pathFrame, events + [e]).activePaths != Run(pathFrame, events).activePaths
    ensures var st, st' := Run(pathFrame, events), Run(pathFrame, events + [e]);
      && st.isPlanning && e.id == st.planningRequestId && !st'.isPlanning && e.id !in st'.planner
      && e.result.Some? && st'.activePaths ==
        st.activePaths + [StampPath(DefaultFrame(e.result.value, pathFrame), e.now)]
  {
    hide Run, Step, Subsequence, WellFormed, StampPath, LatestWins, GoalsKnown;
    RunKeepsInvariant(pathFrame, events);
    RunAppends(pathFrame, events, e);
    ResultForNewest(pathFrame, Run(pathFrame, events), e);
  }

  lemma RunAppends(pathFrame: string, events: seq<Event>, e: Event)
    ensures Run(pathFrame, events + [e]) == Step(pathFrame, Run(pathFrame, events), e)
  {
    assert (events + [e])[..|events|] == events;
  }

  lemma ResultForNewest(pathFrame: string, st: State, e: Event)
    requires PlanningKnown(st) && e.PlannerResult? && Step(pathFrame, st, e).activePaths != st.activePaths
    ensures var st' := Step(pathFrame, st, e);
      && st.isPlanning && e.id == st.planningRequestId && !st'.isPlanning && e.id !in st'.planner
      && e.result.Some? && st'.activePaths ==
        st.activePaths + [StampPath(DefaultFrame(e.result.value, pathFrame), e.now)]
  {
    hide StampPath, DefaultFrame;
  }
}
