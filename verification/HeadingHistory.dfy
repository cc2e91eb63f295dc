/** The heading node against its own published history: when a heading counts as valid, and how long a fix waits. */
module HeadingHistory {
  import opened Options
  import opened RealProducts
  import opened Circle
  import opened RearPairing
  import opened HeadingNode
  import opened HeadingRuns

  // ---------- what the outputs say ----------

  /** When a heading was last published since the last time jump, and the headings since validity was last lost. */
  datatype Told = Told(at: Option<real>, headings: seq<Accepted>)

  function AfterOutput(told: Told, out: Output, now: real): Told {
    match out
    case Heading(stamp, yaw, _) => Told(Some(now), told.headings + [Accepted(stamp, yaw)])
    case TimeJump => Told(None, [])
    case Validity(valid) => if valid then told else told.(headings := [])
    case _ => told
  }

  function AfterOutputs(told: Told, outs: seq<Output>, now: real): Told {
    if outs == [] then told
    else AfterOutput(AfterOutputs(told, outs[..|outs| - 1], now), outs[|outs| - 1], now)
  }

  /** What a run has published, with the clock of the event that published it. */
  function History(cfg: Config, lib: Library, events: seq<Event>, prune: bool): Told
    requires cfg.pi > 0.0
  {
    if events == [] then Told(None, [])
    else
      var init, last := events[..|events| - 1], events[|events| - 1];
      var before, after := Run(cfg, lib, init, prune).outputs, Run(cfg, lib, events, prune).outputs;
      AfterOutputs(History(cfg, lib, init, prune), if |before| <= |after| then after[|before|..] else [], last.now)
  }

  /** The node at r remembers what it published since st. */
  ghost predicate Tells(st: State, r: State, now: real) {
    && st.outputs <= r.outputs
    && AfterOutputs(Told(st.lastValidWall, st.epoch), r.outputs[|st.outputs|..], now) == Told(r.lastValidWall, r.epoch)
  }

  lemma {:induction false} OutputsInTurn(told: Told, a: seq<Output>, b: seq<Output>, now: real)
    ensures AfterOutputs(told, a + b, now) == AfterOutputs(AfterOutputs(told, a, now), b, now)
    decreases |b|
  {
    hide AfterOutput;
    if b == [] {
      assert a + b == a;
    } else {
      assert (a + b)[..|a + b| - 1] == a + b[..|b| - 1];
      OutputsInTurn(told, a, b[..|b| - 1], now);
    }
  }

  lemma TellsOn(st: State, mid: State, r: State, now: real)
    requires Tells(st, mid, now) && Tells(mid, r, now)
    ensures Tells(st, r, now)
  {
    hide AfterOutputs;
    var a, b := mid.outputs[|st.outputs|..], r.outputs[|mid.outputs|..];
    assert r.outputs[|st.outputs|..] == a + b;
    OutputsInTurn(Told(st.lastValidWall, st.epoch), a, b, now);
  }

  lemma NothingTold(st: State, r: State, now: real)
    requires r.outputs == st.outputs && r.lastValidWall == st.lastValidWall && r.epoch == st.epoch
    ensures Tells(st, r, now)
  {
    assert r.outputs[|st.outputs|..] == [];
  }

  lemma OneTold(st: State, r: State, out: Output, now: real)
    requires r.outputs == st.outputs + [out]
    requires AfterOutput(Told(st.lastValidWall, st.epoch), out, now) == Told(r.lastValidWall, r.epoch)
    ensures Tells(st, r, now)
  {
    hide AfterOutput;
    var told := Told(st.lastValidWall, st.epoch);
    assert r.outputs[|st.outputs|..] == [out];
    assert [out][..|[out]| - 1] == [] && AfterOutputs(told, [], now) == told;
  }

  lemma AcceptTells(cfg: Config, lib: Library, st: State, stamp: real, yaw: real, now: real)
    ensures Tells(st, Accept(cfg, lib, st, stamp, yaw, now), now)
  {
    hide Tells;
    var r := Accept(cfg, lib, st, stamp, yaw, now);
    var told := if st.validState then st else Emit(st, Validity(true));
    if st.validState { NothingTold(st, told, now); } else { OneTold(st, told, Validity(true), now); }
    OneTold(told, r, Heading(stamp, yaw, r.smoothedYaw.value), now);
    TellsOn(st, told, r, now);
  }

  lemma PairStepTells(cfg: Config, lib: Library, st: State, rear: Sample, front: Sample, now: real)
    requires cfg.pi > 0.0
    ensures Tells(st, PairStep(cfg, lib, st, rear, front, now), now)
  {
    hide Tells, Judge, RawYawOf, Accept;
    var rawYaw := RawYawOf(lib, rear, front);
    var seen := if rawYaw.Some? then Emit(st, RawYaw(rawYaw.value)) else st;
    var reason := Judge(cfg, lib, st, rear, front);
    JudgedOkHasYaw(cfg, lib, st, rear, front);
    if rawYaw.Some? { OneTold(st, seen, RawYaw(rawYaw.value), now); } else { NothingTold(st, seen, now); }
    if reason != Ok {
      OneTold(seen, Emit(seen, Rejected(reason)), Rejected(reason), now);
    } else {
      AcceptTells(cfg, lib, seen, front.stamp, rawYaw.value, now);
    }
    TellsOn(st, seen, PairStep(cfg, lib, st, rear, front, now), now);
  }

  lemma DroppedTells(st: State, now: real)
    requires st.fronts != []
    ensures Tells(st, Dropped(st), now)
  {
    hide Tells;
    OneTold(st, Dropped(st), SyncRejected, now);
  }

  lemma MatchedTells(cfg: Config, lib: Library, st: State, now: real, prune: bool)
    requires cfg.pi > 0.0 && st.fronts != [] && PairingOf(cfg, st).rear.Some?
    ensures Tells(st, Pruned(cfg, Matched(cfg, lib, st, now), st.fronts[0].stamp, prune), now)
  {
    hide Tells, PairStep, PairingOf, Prune;
    var pairing := PairingOf(cfg, st);
    var paired := Emit(st.(fronts := st.fronts[1..]), Paired(pairing.method_));
    var matched := Matched(cfg, lib, st, now);
    OneTold(st, paired, Paired(pairing.method_), now);
    PairStepTells(cfg, lib, paired, pairing.rear.value, st.fronts[0], now);
    TellsOn(st, paired, matched, now);
    var pruned := Pruned(cfg, matched, st.fronts[0].stamp, prune);
    NothingTold(matched, pruned, now);
    TellsOn(st, matched, pruned, now);
  }

  lemma {:induction false} PendingTells(cfg: Config, lib: Library, st: State, now: real, prune: bool)
    requires cfg.pi > 0.0
    ensures Tells(st, Pending(cfg, lib, st, now, prune), now)
    decreases |st.fronts|
  {
    hide Tells, Waits, PairingOf, Matched;
    NothingTold(st, st, now);
    if st.fronts != [] && st.rears != [] && !Waits(cfg, st, now) {
      var r := Pending(cfg, lib, st, now, prune);
      if PairingOf(cfg, st).rear == None {
        DroppedTells(st, now);
        PendingTells(cfg, lib, Dropped(st), now, prune);
        TellsOn(st, Dropped(st), r, now);
      } else {
        var next := Pruned(cfg, Matched(cfg, lib, st, now), st.fronts[0].stamp, prune);
        MatchedTells(cfg, lib, st, now, prune);
        PendingTells(cfg, lib, next, now, prune);
        TellsOn(st, next, r, now);
      }
    }
  }

  lemma RestartTells(st: State, now: real)
    ensures Tells(st, Restart(st), now)
  {
    hide Tells;
    var counted := Emit(st.(lastValidWall := None, epoch := []), TimeJump);
    OneTold(st, counted, TimeJump, now);
    if st.validState {
      OneTold(counted, Restart(st), Validity(false), now);
    } else {
      NothingTold(counted, Restart(st), now);
    }
    TellsOn(st, counted, Restart(st), now);
  }

  lemma JumpTells(st: State, stream: Stream, stamp: real, now: real)
    ensures Tells(st, CheckTimeJump(st, stream, stamp), now)
  {
    hide Tells, Restart;
    var previous := if stream == Rear then st.lastRearInput else st.lastFrontInput;
    var checked := if Jumps(previous, stamp) then Restart(st) else st;
    if Jumps(previous, stamp) { RestartTells(st, now); } else { NothingTold(st, checked, now); }
    NothingTold(checked, CheckTimeJump(st, stream, stamp), now);
    TellsOn(st, checked, CheckTimeJump(st, stream, stamp), now);
  }

  lemma StatusTells(cfg: Config, st: State, now: real)
    ensures Tells(st, CheckStatus(cfg, st, now), now)
  {
    hide Tells;
    var r := CheckStatus(cfg, st, now);
    if r == st {
      NothingTold(st, r, now);
    } else {
      OneTold(st, r, Validity(r.validState), now);
    }
  }

  lemma StepTells(cfg: Config, lib: Library, st: State, e: Event, prune: bool)
    requires cfg.pi > 0.0
    ensures Tells(st, Step(cfg, lib, st, e, prune), e.now)
  {
    hide Tells, Pending, CheckTimeJump, CheckStatus, AppendBounded;
    var r := Step(cfg, lib, st, e, prune);
    match e
    case RearFix(sample, now) =>
      var checked := CheckTimeJump(st, Rear, sample.stamp);
      var queued := checked.(rears := AppendBounded(checked.rears, sample, REAR_CAPACITY));
      JumpTells(st, Rear, sample.stamp, now);
      NothingTold(checked, queued, now);
      TellsOn(st, checked, queued, now);
      PendingTells(cfg, lib, queued, now, prune);
      TellsOn(st, queued, r, now);
    case FrontFix(sample, now) =>
      var checked := CheckTimeJump(st, Front, sample.stamp);
      var queued := checked.(fronts := AppendBounded(checked.fronts, sample, FRONT_CAPACITY));
      JumpTells(st, Front, sample.stamp, now);
      NothingTold(checked, queued, now);
      TellsOn(st, checked, queued, now);
      PendingTells(cfg, lib, queued, now, prune);
      TellsOn(st, queued, r, now);
    case Timer(now) => PendingTells(cfg, lib, st, now, prune);
    case Status(now) => StatusTells(cfg, st, now);
  }

  /**
   * Over every run: the node remembers the clock of the last heading published since the last time jump, and the
   * headings accepted are those published since validity was last lost.
   */
  lemma {:induction false} RunTells(cfg: Config, lib: Library, events: seq<Event>, prune: bool)
    requires cfg.pi > 0.0
    ensures var st := Run(cfg, lib, events, prune);
      History(cfg, lib, events, prune) == Told(st.lastValidWall, st.epoch)
  {
    hide Step, AfterOutputs;
    if events != [] {
      var init, last := events[..|events| - 1], events[|events| - 1];
      RunTells(cfg, lib, init, prune);
      StepTells(cfg, lib, Run(cfg, lib, init, prune), last, prune);
    }
  }

  // ---------- validity ----------

  lemma RunAppends(cfg: Config, lib: Library, events: seq<Event>, e: Event, prune: bool)
    requires cfg.pi > 0.0
    ensures Run(cfg, lib, events + [e], prune) == Step(cfg, lib, Run(cfg, lib, events, prune), e, prune)
  {
    hide Step;
    assert (events + [e])[..|events|] == events;
  }

  /**
   * After a status check, in every run, the output is valid exactly when a heading was published since the last time
   * jump no longer than the timeout ago. The node then has a reference heading and has said so; otherwise it has
   * none, and the validity last published is false.
   */
  lemma StatusExactly(cfg: Config, lib: Library, events: seq<Event>, now: real, prune: bool)
    requires cfg.pi > 0.0
    ensures var st, at := Run(cfg, lib, events + [Status(now)], prune), History(cfg, lib, events, prune).at;
      && (st.validState <==> at.Some? && now - at.value <= cfg.headingTimeout)
      && (ClockOrdered(events + [Status(now)]) ==>
            && LastValidity(st.outputs) == st.validState
            && (if st.validState then st.lastRawYaw.Some? && st.lastRawStamp.Some? && st.smoothedYaw.Some?
                else st.lastRawYaw == None && st.lastRawStamp == None && st.smoothedYaw == None))
  {
    hide Run, History, EpochOk;
    RunTells(cfg, lib, events, prune);
    RunAppends(cfg, lib, events, Status(now), prune);
    if ClockOrdered(events + [Status(now)]) {
      RunKeepsInvariant(cfg, lib, events + [Status(now)], prune);
      assert NodeInvariant(cfg, Run(cfg, lib, events + [Status(now)], prune), now);
    }
  }

  /**
   * Of the headings published in any run since validity was last lost, any two differ by at most the largest yaw rate
   * times the time between their stamps.
   */
  lemma PublishedWithinRate(cfg: Config, lib: Library, events: seq<Event>, i: nat, j: nat)
    requires cfg.pi > 0.0 && ClockOrdered(events)
    requires i < j < |History(cfg, lib, events, true).headings|
    ensures var headings := History(cfg, lib, events, true).headings;
      && headings[i].stamp < headings[j].stamp
      && AngleBetween(cfg.pi, headings[i].yaw, headings[j].yaw) <=
           Times(cfg.maxYawRate, headings[j].stamp - headings[i].stamp)
  {
    hide Run, History, AngleBetween, Times;
    RunTells(cfg, lib, events, true);
    AcceptedWithinRate(cfg, lib, events, i, j);
  }

  // ---------- waiting ----------

  /** How many front fixes were given up, and how many were paired. */
  function Missed(outs: seq<Output>): nat {
    if outs == [] then 0 else Missed(outs[..|outs| - 1]) + if outs[|outs| - 1] == SyncRejected then 1 else 0
  }

  function PairedOff(outs: seq<Output>): nat {
    if outs == [] then 0 else PairedOff(outs[..|outs| - 1]) + if outs[|outs| - 1].Paired? then 1 else 0
  }

  function Jumped(outs: seq<Output>): nat {
    if outs == [] then 0 else Jumped(outs[..|outs| - 1]) + if outs[|outs| - 1] == TimeJump then 1 else 0
  }

  lemma CountsOneMore(outs: seq<Output>, out: Output)
    ensures Missed(outs + [out]) == Missed(outs) + if out == SyncRejected then 1 else 0
    ensures PairedOff(outs + [out]) == PairedOff(outs) + if out.Paired? then 1 else 0
    ensures Jumped(outs + [out]) == Jumped(outs) + if out == TimeJump then 1 else 0
  {
    assert (outs + [out])[..|outs|] == outs;
  }

  lemma JudgingCountsNone(cfg: Config, lib: Library, st: State, rear: Sample, front: Sample, now: real)
    requires cfg.pi > 0.0
    ensures var outs := PairStep(cfg, lib, st, rear, front, now).outputs;
      && Missed(outs) == Missed(st.outputs) && PairedOff(outs) == PairedOff(st.outputs)
      && Jumped(outs) == Jumped(st.outputs)
  {
    hide Judge, RawYawOf, Missed, PairedOff, Jumped;
    JudgedOkHasYaw(cfg, lib, st, rear, front);
    var rawYaw := RawYawOf(lib, rear, front);
    var seen := if rawYaw.Some? then Emit(st, RawYaw(rawYaw.value)) else st;
    if rawYaw.Some? { CountsOneMore(st.outputs, RawYaw(rawYaw.value)); }
    CountsOneMore(seen.outputs, Rejected(Judge(cfg, lib, st, rear, front)));
    CountsOneMore(seen.outputs, Validity(true));
    if rawYaw.Some? {
      var heading := Heading(front.stamp, rawYaw.value,
                             lib.circularEma(st.smoothedYaw, rawYaw.value, cfg.smoothingAlpha));
      CountsOneMore(seen.outputs, heading);
      CountsOneMore(seen.outputs + [Validity(true)], heading);
    }
  }

  /** The front fix has waited for as long as it may. */
  predicate Overdue(cfg: Config, front: Sample, now: real) {
    now - front.receivedAt >= cfg.pairWait
  }

  function CountOverdue(cfg: Config, fronts: seq<Sample>, now: real): nat {
    if fronts == [] then 0
    else (if Overdue(cfg, fronts[0], now) then 1 else 0) + CountOverdue(cfg, fronts[1..], now)
  }

  /** What becomes of the first n front fixes of st by the time r. */
  ghost predicate Patient(cfg: Config, st: State, r: State, n: nat, now: real) {
    && n <= |st.fronts| && r.fronts == st.fronts[n..] && Jumped(r.outputs) == Jumped(st.outputs)
    && PairedOff(r.outputs) - PairedOff(st.outputs) + (Missed(r.outputs) - Missed(st.outputs)) == n
    && Missed(r.outputs) - Missed(st.outputs) <= CountOverdue(cfg, st.fronts[..n], now)
    && (n > 0 ==> st.rears != [])
    && forall k :: 0 <= k < n && !Overdue(cfg, st.fronts[k], now) ==>
         st.fronts[k].stamp <= st.rears[|st.rears| - 1].stamp
  }

  /** One round of the pairing loop takes one front fix. */
  ghost predicate TakesOne(cfg: Config, st: State, mid: State, now: real) {
    && st.fronts != [] && st.rears != [] && mid.fronts == st.fronts[1..]
    && mid.rears != [] && mid.rears[|mid.rears| - 1] == st.rears[|st.rears| - 1]
    && PairedOff(mid.outputs) - PairedOff(st.outputs) + (Missed(mid.outputs) - Missed(st.outputs)) == 1
    && Jumped(mid.outputs) == Jumped(st.outputs)
    && Missed(mid.outputs) - Missed(st.outputs) <= (if Overdue(cfg, st.fronts[0], now) then 1 else 0)
    && (!Overdue(cfg, st.fronts[0], now) ==> st.fronts[0].stamp <= st.rears[|st.rears| - 1].stamp)
  }

  lemma OneTaken(cfg: Config, st: State, mid: State, r: State, n: nat, now: real)
    requires TakesOne(cfg, st, mid, now) && Patient(cfg, mid, r, n, now)
    ensures Patient(cfg, st, r, n + 1, now)
  {
    hide Missed, PairedOff, Jumped, Overdue;
    var taken := st.fronts[..n + 1];
    assert taken[1..] == mid.fronts[..n] && taken[0] == st.fronts[0];
    assert forall k :: 0 < k < n + 1 ==> st.fronts[k] == mid.fronts[k - 1];
  }

  lemma {:induction false} PruneKeepsLast(rears: seq<Sample>, bound: real)
    ensures var kept := Prune(rears, bound);
      |kept| <= |rears| && (rears != [] ==> kept != [] && kept[|kept| - 1] == rears[|rears| - 1])
  {
    if |rears| > 2 && rears[1].stamp < bound { PruneKeepsLast(rears[1..], bound); }
  }

  /**
   * The pairing loop takes a front fix early only when the newest rear fix is not older, and gives one up only when
   * overdue; each one taken is either paired or given up. It leaves one that could still wait, and only as long as
   * its partner may yet come.
   */
  lemma {:induction false} WaitsNoLonger(cfg: Config, lib: Library, st: State, now: real, prune: bool) returns (n: nat)
    requires cfg.pi > 0.0
    ensures Patient(cfg, st, Pending(cfg, lib, st, now, prune), n, now)
    ensures MayWait(cfg, Pending(cfg, lib, st, now, prune), now)
    decreases |st.fronts|
  {
    hide PairingOf, Waits, Matched, Patient, MayWait, TakesOne;
    if st.fronts == [] || st.rears == [] || Waits(cfg, st, now) {
      n := 0;
      NoneTaken(cfg, st, now);
    } else {
      var r := Pending(cfg, lib, st, now, prune);
      var mid := if PairingOf(cfg, st).rear == None then Dropped(st)
                 else Pruned(cfg, Matched(cfg, lib, st, now), st.fronts[0].stamp, prune);
      if PairingOf(cfg, st).rear == None {
        DroppedTakesOne(cfg, st, now);
      } else {
        MatchedTakesOne(cfg, lib, st, now, prune);
      }
      var m := WaitsNoLonger(cfg, lib, mid, now, prune);
      OneTaken(cfg, st, mid, r, m, now);
      n := m + 1;
    }
  }

  /** The oldest front fix left, if any, is not overdue, and its partner may yet come. */
  ghost predicate MayWait(cfg: Config, r: State, now: real) {
    r.fronts == [] || r.rears == [] ||
    (!Overdue(cfg, r.fronts[0], now) &&
     (r.rears[|r.rears| - 1].stamp < r.fronts[0].stamp ||
      Pair(r.rears, r.fronts[0].stamp, cfg.maxInterpolationGap, cfg.syncTolerance).rear == None))
  }

  lemma DroppedTakesOne(cfg: Config, st: State, now: real)
    requires st.fronts != [] && st.rears != [] && !Waits(cfg, st, now) && PairingOf(cfg, st).rear == None
    ensures TakesOne(cfg, st, Dropped(st), now)
  {
    hide PairingOf, Missed, PairedOff, Jumped;
    CountsOneMore(st.outputs, SyncRejected);
  }

  lemma MatchedTakesOne(cfg: Config, lib: Library, st: State, now: real, prune: bool)
    requires cfg.pi > 0.0 && st.fronts != [] && st.rears != [] && !Waits(cfg, st, now) && PairingOf(cfg, st).rear.Some?
    ensures TakesOne(cfg, st, Pruned(cfg, Matched(cfg, lib, st, now), st.fronts[0].stamp, prune), now)
  {
    hide PairingOf, Matched, Missed, PairedOff, Jumped, Prune;
    MatchedCounts(cfg, lib, st, now);
    PruneKeepsLast(st.rears, st.fronts[0].stamp - cfg.maxInterpolationGap);
  }

  lemma NoneTaken(cfg: Config, st: State, now: real)
    ensures Patient(cfg, st, st, 0, now)
    ensures st.fronts == [] || st.rears == [] || Waits(cfg, st, now) ==> MayWait(cfg, st, now)
  {
    hide Pair;
  }

  lemma MatchedCounts(cfg: Config, lib: Library, st: State, now: real)
    requires cfg.pi > 0.0 && st.fronts != [] && PairingOf(cfg, st).rear.Some?
    ensures var outs := Matched(cfg, lib, st, now).outputs;
      && Missed(outs) == Missed(st.outputs) && PairedOff(outs) == PairedOff(st.outputs) + 1
      && Jumped(outs) == Jumped(st.outputs)
  {
    hide PairStep, PairingOf, Missed, PairedOff, Jumped;
    var pairing := PairingOf(cfg, st);
    var paired := Emit(st.(fronts := st.fronts[1..]), Paired(pairing.method_));
    CountsOneMore(st.outputs, Paired(pairing.method_));
    JudgingCountsNone(cfg, lib, paired, pairing.rear.value, st.fronts[0], now);
  }

  // ---------- what is published about a pair ----------

  /** Why a pair is rejected: the first of the checks, in this order, that it fails. */
  lemma RejectedFor(cfg: Config, lib: Library, st: State, rear: Sample, front: Sample)
    requires cfg.pi > 0.0 && EpochOk(cfg, st)
    ensures var heading := Accepted(front.stamp, lib.atan2(front.y - rear.y, front.x - rear.x));
      match Judge(cfg, lib, st, rear, front)
      case RearUnusable(why) => !GoodFix(cfg, rear) && Unusable(cfg, rear, why)
      case FrontUnusable(why) => GoodFix(cfg, rear) && !GoodFix(cfg, front) && Unusable(cfg, front, why)
      case Baseline => GoodFix(cfg, rear) && GoodFix(cfg, front) && !GoodBaseline(cfg, lib, rear, front)
      case Timestamp =>
        && GoodFix(cfg, rear) && GoodFix(cfg, front) && GoodBaseline(cfg, lib, rear, front)
        && st.epoch != [] && front.stamp <= st.epoch[|st.epoch| - 1].stamp
      case YawRate =>
        && GoodFix(cfg, rear) && GoodFix(cfg, front) && GoodBaseline(cfg, lib, rear, front)
        && st.epoch != [] && front.stamp > st.epoch[|st.epoch| - 1].stamp
        && !WithinRate(cfg, st.epoch[|st.epoch| - 1], heading)
      case Ok =>
        && GoodFix(cfg, rear) && GoodFix(cfg, front) && GoodBaseline(cfg, lib, rear, front)
        && (st.epoch == [] || WithinRate(cfg, st.epoch[|st.epoch| - 1], heading))
  {
    JudgedOkExactly(cfg, lib, st, rear, front);
    UsableExactly(cfg, rear);
    UsableExactly(cfg, front);
    hide GoodFix, WithinRate, ShortestAngularDistance;
  }

  /** What is wrong with a fix, in the order of the checks. */
  predicate Unusable(cfg: Config, s: Sample, why: Usability) {
    match why
    case NoFix => s.status < 0
    case NotFixed => s.status >= 0 && cfg.requireRtkFixed && s.status != 2
    case Covariance =>
      && s.status >= 0 && (cfg.requireRtkFixed ==> s.status == 2)
      && (s.horizontalStddev == None || s.horizontalStddev.value > cfg.maxHorizontalStddev)
    case Usable => false
  }

  /** Everything published about one pair, in order. */
  lemma PublishedForPair(cfg: Config, lib: Library, st: State, rear: Sample, front: Sample, now: real)
    requires cfg.pi > 0.0
    ensures var yaw := lib.atan2(front.y - rear.y, front.x - rear.x);
      var reason := Judge(cfg, lib, st, rear, front);
      var told := if st.validState then [] else [Validity(true)];
      var heading := Heading(front.stamp, yaw, lib.circularEma(st.smoothedYaw, yaw, cfg.smoothingAlpha));
      PairStep(cfg, lib, st, rear, front, now).outputs == st.outputs +
        (if lib.hypot(front.x - rear.x, front.y - rear.y) > 0.000001 then [RawYaw(yaw)] else []) +
        (if reason != Ok then [Rejected(reason)] else told + [heading])
  {
    hide Judge;
    JudgedOkHasYaw(cfg, lib, st, rear, front);
    assert [] + st.outputs == st.outputs == st.outputs + [];
  }

  // ---------- queues ----------

  /** The newest fixes stay, 240 from the rear antenna and 120 from the front one. */
  lemma NewestStay(s: seq<Sample>, x: Sample)
    ensures |s| < 240 ==> AppendBounded(s, x, REAR_CAPACITY) == s + [x]
    ensures |s| == 240 ==> AppendBounded(s, x, REAR_CAPACITY) == s[1..] + [x]
    ensures |s| < 120 ==> AppendBounded(s, x, FRONT_CAPACITY) == s + [x]
    ensures |s| == 120 ==> AppendBounded(s, x, FRONT_CAPACITY) == s[1..] + [x]
  {
  }

  lemma {:induction false} QueuesBounded(cfg: Config, lib: Library, events: seq<Event>, prune: bool)
    requires cfg.pi > 0.0
    ensures var st := Run(cfg, lib, events, prune); |st.rears| <= 240 && |st.fronts| <= 120
  {
    hide Step;
    if events != [] {
      var st := Run(cfg, lib, events[..|events| - 1], prune);
      QueuesBounded(cfg, lib, events[..|events| - 1], prune);
      StepBounds(cfg, lib, st, events[|events| - 1], prune);
      FrontsBounded(cfg, lib, st, events[|events| - 1], prune);
    }
  }

  lemma FrontsBounded(cfg: Config, lib: Library, st: State, e: Event, prune: bool)
    requires cfg.pi > 0.0 && |st.fronts| <= 120
    ensures |Step(cfg, lib, st, e, prune).fronts| <= 120
  {
    hide Pending, Patient;
    match e
    case RearFix(sample, now) =>
      var checked := CheckTimeJump(st, Rear, sample.stamp);
      PendingTakes(cfg, lib, checked.(rears := AppendBounded(checked.rears, sample, REAR_CAPACITY)), now, prune);
    case FrontFix(sample, now) =>
      var checked := CheckTimeJump(st, Front, sample.stamp);
      PendingTakes(cfg, lib, checked.(fronts := AppendBounded(checked.fronts, sample, FRONT_CAPACITY)), now, prune);
    case Timer(now) => PendingTakes(cfg, lib, st, now, prune);
    case Status(now) =>
  }

  lemma PendingTakes(cfg: Config, lib: Library, st: State, now: real, prune: bool)
    requires cfg.pi > 0.0
    ensures |Pending(cfg, lib, st, now, prune).fronts| <= |st.fronts|
  {
    hide Pending;
    var n := WaitsNoLonger(cfg, lib, st, now, prune);
  }

  /** Pruning goes on until the second fix left is not older than the bound, but always leaves two. */
  lemma {:induction false} PrunesEnough(rears: seq<Sample>, bound: real)
    ensures var kept := Prune(rears, bound);
      && (|kept| <= 2 || kept[1].stamp >= bound)
      && (kept == rears || |kept| >= 2)
  {
    if |rears| > 2 && rears[1].stamp < bound { PrunesEnough(rears[1..], bound); }
  }

  // ---------- time jumps ----------

  /** The fix is more than a second older than the one before it on its stream, since the last such jump. */
  predicate JumpsBack(last: Inputs, e: Event) {
    match e
    case RearFix(sample, _) => last.rear.Some? && sample.stamp < last.rear.value - 1.0
    case FrontFix(sample, _) => last.front.Some? && sample.stamp < last.front.value - 1.0
    case _ => false
  }

  lemma {:induction false} RunKnowsInputs(cfg: Config, lib: Library, events: seq<Event>, prune: bool)
    requires cfg.pi > 0.0
    ensures var st := Run(cfg, lib, events, prune);
      Inputs(st.lastRearInput, st.lastFrontInput) == LastInputs(events)
  {
    hide Step, InputsAfter;
    if events != [] {
      var init := events[..|events| - 1];
      RunKnowsInputs(cfg, lib, init, prune);
      QueuesBounded(cfg, lib, init, prune);
      StepBounds(cfg, lib, Run(cfg, lib, init, prune), events[|events| - 1], prune);
    }
  }

  /**
   * In every run a fix that jumps back, and nothing else, restarts the node: the jump is counted, only that fix is
   * left, no heading is remembered, and a validity told before is taken back.
   */
  lemma JumpRestarts(cfg: Config, lib: Library, events: seq<Event>, e: Event, prune: bool)
    requires cfg.pi > 0.0 && (e.RearFix? || e.FrontFix?) && JumpsBack(LastInputs(events), e)
    ensures var before, st := Run(cfg, lib, events, prune), Run(cfg, lib, events + [e], prune);
      && st.outputs == before.outputs + [TimeJump] + (if before.validState then [Validity(false)] else [])
      && (if e.RearFix? then st.rears == [e.sample] && st.fronts == [] else st.rears == [] && st.fronts == [e.sample])
      && !st.validState && st.lastRawYaw == None && st.lastRawStamp == None && st.smoothedYaw == None
      && st.lastValidWall == None
  {
    hide Run, PairingOf, Waits, Matched;
    RunKnowsInputs(cfg, lib, events, prune);
    RunAppends(cfg, lib, events, e, prune);
    assert [] + [e.sample] == [e.sample];
  }

  lemma CheckCountsJump(st: State, stream: Stream, stamp: real)
    ensures var previous := if stream == Rear then st.lastRearInput else st.lastFrontInput;
      Jumped(CheckTimeJump(st, stream, stamp).outputs) ==
        Jumped(st.outputs) + if previous.Some? && stamp < previous.value - 1.0 then 1 else 0
  {
    hide Jumped;
    CountsOneMore(st.outputs, TimeJump);
    CountsOneMore(st.outputs + [TimeJump], Validity(false));
  }

  lemma StatusCountsNone(cfg: Config, st: State, now: real)
    ensures Jumped(CheckStatus(cfg, st, now).outputs) == Jumped(st.outputs)
  {
    hide Jumped;
    CountsOneMore(st.outputs, Validity(true));
    CountsOneMore(st.outputs, Validity(false));
  }

  lemma PendingCountsNone(cfg: Config, lib: Library, st: State, now: real, prune: bool)
    requires cfg.pi > 0.0
    ensures Jumped(Pending(cfg, lib, st, now, prune).outputs) == Jumped(st.outputs)
  {
    hide Pending, Jumped, MayWait;
    var n := WaitsNoLonger(cfg, lib, st, now, prune);
  }

  /** And a jump is counted for nothing else. */
  lemma JumpsExactly(cfg: Config, lib: Library, events: seq<Event>, e: Event, prune: bool)
    requires cfg.pi > 0.0
    ensures Jumped(Run(cfg, lib, events + [e], prune).outputs) ==
            Jumped(Run(cfg, lib, events, prune).outputs) + if JumpsBack(LastInputs(events), e) then 1 else 0
  {
    hide Run, Pending, Jumped, AppendBounded, CheckTimeJump, CheckStatus, LastInputs;
    RunKnowsInputs(cfg, lib, events, prune);
    RunAppends(cfg, lib, events, e, prune);
    var st := Run(cfg, lib, events, prune);
    match e
    case RearFix(sample, now) =>
      CheckCountsJump(st, Rear, sample.stamp);
      var checked := CheckTimeJump(st, Rear, sample.stamp);
      PendingCountsNone(cfg, lib, checked.(rears := AppendBounded(checked.rears, sample, REAR_CAPACITY)), now, prune);
    case FrontFix(sample, now) =>
      CheckCountsJump(st, Front, sample.stamp);
      var checked := CheckTimeJump(st, Front, sample.stamp);
      PendingCountsNone(cfg, lib, checked.(fronts := AppendBounded(checked.fronts, sample, FRONT_CAPACITY)), now,
                        prune);
    case Timer(now) => PendingCountsNone(cfg, lib, st, now, prune);
    case Status(now) => StatusCountsNone(cfg, st, now);
  }
}
