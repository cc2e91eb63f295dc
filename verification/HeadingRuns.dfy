/** The heading node over whole runs: validity, yaw rate, and the harmlessness of pruning. */
module HeadingRuns {
  import opened Options
  import opened RealProducts
  import opened Circle
  import opened RearPairing
  import opened HeadingNode

  // ---------- validity and accepted headings ----------

  /** The validity last published; before any it counts as false. */
  function LastValidity(outputs: seq<Output>): bool {
    if outputs == [] then false
    else match outputs[|outputs| - 1]
      case Validity(valid) => valid
      case _ => LastValidity(outputs[..|outputs| - 1])
  }

  lemma LastValidityAppend(outputs: seq<Output>, out: Output)
    ensures LastValidity(outputs + [out]) == if out.Validity? then out.valid else LastValidity(outputs)
  {
    assert (outputs + [out])[..|outputs|] == outputs;
  }

  /** valid_state, the three heading fields and the published validity always agree. */
  ghost predicate ValidityAgrees(cfg: Config, st: State, clock: real) {
    && st.lastRawYaw.Some? == st.validState && st.lastRawStamp.Some? == st.validState &&
       st.smoothedYaw.Some? == st.validState
    && LastValidity(st.outputs) == st.validState
    && (st.validState ==> st.lastValidWall.Some?)
    && (!st.validState && st.lastValidWall.Some? ==> clock - st.lastValidWall.value > cfg.headingTimeout)
  }

  /** Within the yaw rate limit over the time between them, which passed forwards. */
  ghost predicate WithinRate(cfg: Config, a: Accepted, b: Accepted)
    requires cfg.pi > 0.0
  {
    a.stamp < b.stamp && AngleBetween(cfg.pi, a.yaw, b.yaw) <= Times(cfg.maxYawRate, b.stamp - a.stamp)
  }

  /** The headings accepted since the last reset or timeout: increasing stamps, every pair within the yaw rate. */
  ghost predicate EpochOk(cfg: Config, st: State)
    requires cfg.pi > 0.0
  {
    && (forall i, j :: 0 <= i < j < |st.epoch| ==> WithinRate(cfg, st.epoch[i], st.epoch[j]))
    && (if st.epoch == [] then st.lastRawYaw == None && st.lastRawStamp == None
        else
          var last := st.epoch[|st.epoch| - 1];
          st.lastRawYaw == Some(last.yaw) && st.lastRawStamp == Some(last.stamp))
  }

  ghost predicate NodeInvariant(cfg: Config, st: State, clock: real)
    requires cfg.pi > 0.0
  {
    ValidityAgrees(cfg, st, clock) && EpochOk(cfg, st)
  }

  lemma EmitKeeps(cfg: Config, st: State, out: Output, clock: real)
    requires cfg.pi > 0.0 && NodeInvariant(cfg, st, clock) && !out.Validity?
    ensures NodeInvariant(cfg, Emit(st, out), clock)
  {
    LastValidityAppend(st.outputs, out);
  }

  lemma RateChecked(pi: real, a: real, b: real, elapsed: real, rate: real)
    requires pi > 0.0 && elapsed > 0.0
    requires AbsReal(ShortestAngularDistance(pi, a, b) / elapsed) <= rate
    ensures AngleBetween(pi, a, b) <= Times(rate, elapsed)
  {
    hide Times, NormalizeAngle;
    var d := ShortestAngularDistance(pi, a, b);
    QuotientOrder(d, elapsed, rate);
    QuotientOrder(d, elapsed, -rate);
    TimesAdds(rate, -rate, elapsed);
  }

  /** Accepting a heading that passed the rate check against the last one keeps every pair within the rate. */
  lemma RateChains(cfg: Config, epoch: seq<Accepted>, next: Accepted)
    requires cfg.pi > 0.0
    requires forall i, j :: 0 <= i < j < |epoch| ==> WithinRate(cfg, epoch[i], epoch[j])
    requires epoch != [] ==> WithinRate(cfg, epoch[|epoch| - 1], next)
    ensures forall i, j :: 0 <= i < j < |epoch + [next]| ==> WithinRate(cfg, (epoch + [next])[i], (epoch + [next])[j])
  {
    hide Times, AngleBetween;
    forall i | 0 <= i < |epoch| ensures WithinRate(cfg, epoch[i], next) {
      var last := epoch[|epoch| - 1];
      if i < |epoch| - 1 {
        assert WithinRate(cfg, epoch[i], last);
        AngleTriangle(cfg.pi, epoch[i].yaw, last.yaw, next.yaw);
        TimesSplits(cfg.maxYawRate, last.stamp - epoch[i].stamp, next.stamp - last.stamp);
      }
    }
  }

  lemma JudgedOkWithinRate(cfg: Config, lib: Library, st: State, rear: Sample, front: Sample)
    requires cfg.pi > 0.0 && EpochOk(cfg, st) && Judge(cfg, lib, st, rear, front) == Ok && st.epoch != []
    ensures RawYawOf(lib, rear, front).Some?
    ensures WithinRate(cfg, st.epoch[|st.epoch| - 1], Accepted(front.stamp, RawYawOf(lib, rear, front).value))
  {
    hide Times, RawYawOf, FixIsUsable, WithinRate, ShortestAngularDistance;
    var last := st.epoch[|st.epoch| - 1];
    var yaw := RawYawOf(lib, rear, front).value;
    RateChecked(cfg.pi, last.yaw, yaw, front.stamp - last.stamp, cfg.maxYawRate);
    WithinRateIs(cfg, last, Accepted(front.stamp, yaw));
  }

  lemma WithinRateIs(cfg: Config, a: Accepted, b: Accepted)
    requires cfg.pi > 0.0 && a.stamp < b.stamp &&
      AngleBetween(cfg.pi, a.yaw, b.yaw) <= Times(cfg.maxYawRate, b.stamp - a.stamp)
    ensures WithinRate(cfg, a, b)
  {
  }

  lemma AcceptKeeps(cfg: Config, lib: Library, st: State, stamp: real, yaw: real, now: real)
    requires cfg.pi > 0.0 && NodeInvariant(cfg, st, now)
    requires st.epoch != [] ==> WithinRate(cfg, st.epoch[|st.epoch| - 1], Accepted(stamp, yaw))
    ensures NodeInvariant(cfg, Accept(cfg, lib, st, stamp, yaw, now), now)
  {
    hide WithinRate;
    RateChains(cfg, st.epoch, Accepted(stamp, yaw));
    var smoothed := lib.circularEma(st.smoothedYaw, yaw, cfg.smoothingAlpha);
    LastValidityAppend(st.outputs, Validity(true));
    LastValidityAppend(st.outputs, Heading(stamp, yaw, smoothed));
    LastValidityAppend(st.outputs + [Validity(true)], Heading(stamp, yaw, smoothed));
  }

  lemma PairStepKeeps(cfg: Config, lib: Library, st: State, rear: Sample, front: Sample, now: real)
    requires cfg.pi > 0.0 && NodeInvariant(cfg, st, now)
    ensures NodeInvariant(cfg, PairStep(cfg, lib, st, rear, front, now), now)
  {
    hide NodeInvariant, Judge, Accept, WithinRate, ValidityAgrees;
    NodeInvariantIs(cfg, st, now);
    var rawYaw := RawYawOf(lib, rear, front);
    var reason := Judge(cfg, lib, st, rear, front);
    var seen := if rawYaw.Some? then Emit(st, RawYaw(rawYaw.value)) else st;
    if rawYaw.Some? { EmitKeeps(cfg, st, RawYaw(rawYaw.value), now); }
    EmitKeeps(cfg, seen, Rejected(reason), now);
    JudgedOkHasYaw(cfg, lib, st, rear, front);
    if reason == Ok {
      if st.epoch != [] { JudgedOkWithinRate(cfg, lib, st, rear, front); }
      AcceptKeeps(cfg, lib, seen, front.stamp, rawYaw.value, now);
    }
  }

  /** A fix good enough: valid, RTK fixed where asked for, and accurate. */
  ghost predicate GoodFix(cfg: Config, s: Sample) {
    && s.status >= 0 && (cfg.requireRtkFixed ==> Fixed(s))
    && s.horizontalStddev.Some? && s.horizontalStddev.value <= cfg.maxHorizontalStddev
  }

  /** Antennas a plausible distance apart. */
  ghost predicate GoodBaseline(cfg: Config, lib: Library, rear: Sample, front: Sample) {
    var baseline := lib.hypot(front.x - rear.x, front.y - rear.y);
    cfg.minimumBaseline <= baseline <= cfg.maximumBaseline && baseline > 0.000001
  }

  lemma UsableExactly(cfg: Config, s: Sample)
    ensures FixIsUsable(cfg, s) == Usable <==> GoodFix(cfg, s)
  {
  }

  /**
   * A pair is accepted exactly when both fixes are good, the antennas are a plausible distance apart, and the heading
   * is within the yaw rate of the last one accepted, if there is one; and then its stamp and yaw are the ones
   * remembered.
   */
  lemma AcceptedExactly(cfg: Config, lib: Library, st: State, rear: Sample, front: Sample, now: real)
    requires cfg.pi > 0.0 && EpochOk(cfg, st)
    ensures var next := PairStep(cfg, lib, st, rear, front, now);
      var heading := Accepted(front.stamp, lib.atan2(front.y - rear.y, front.x - rear.x));
      && next.epoch == (if GoodFix(cfg, rear) && GoodFix(cfg, front) && GoodBaseline(cfg, lib, rear, front) &&
                           (st.epoch == [] || WithinRate(cfg, st.epoch[|st.epoch| - 1], heading))
                        then st.epoch + [heading] else st.epoch)
      && (|next.epoch| > |st.epoch| ==>
            next.validState && next.lastValidWall == Some(now) && next.lastRawYaw == Some(heading.yaw) &&
            next.smoothedYaw == Some(lib.circularEma(st.smoothedYaw, heading.yaw, cfg.smoothingAlpha)))
  {
    hide Judge, GoodFix, WithinRate, EpochOk;
    JudgedOkExactly(cfg, lib, st, rear, front);
  }

  lemma JudgedOkExactly(cfg: Config, lib: Library, st: State, rear: Sample, front: Sample)
    requires cfg.pi > 0.0 && EpochOk(cfg, st)
    ensures Judge(cfg, lib, st, rear, front) == Ok <==>
      GoodFix(cfg, rear) && GoodFix(cfg, front) && GoodBaseline(cfg, lib, rear, front) &&
      (st.epoch == [] ||
       WithinRate(cfg, st.epoch[|st.epoch| - 1], Accepted(front.stamp, lib.atan2(front.y - rear.y, front.x - rear.x))))
  {
    hide Times, ShortestAngularDistance;
    UsableExactly(cfg, rear);
    UsableExactly(cfg, front);
    hide FixIsUsable, GoodFix;
    if st.epoch != [] {
      var last := st.epoch[|st.epoch| - 1];
      var elapsed := front.stamp - last.stamp;
      if elapsed > 0.0 {
        var d := ShortestAngularDistance(cfg.pi, last.yaw, lib.atan2(front.y - rear.y, front.x - rear.x));
        QuotientOrder(d, elapsed, cfg.maxYawRate);
        QuotientOrder(d, elapsed, -cfg.maxYawRate);
        TimesAdds(cfg.maxYawRate, -cfg.maxYawRate, elapsed);
      }
    }
  }

  lemma NodeInvariantIs(cfg: Config, st: State, clock: real)
    requires cfg.pi > 0.0
    ensures NodeInvariant(cfg, st, clock) <==> ValidityAgrees(cfg, st, clock) && EpochOk(cfg, st)
  {
  }

  /** The queues play no part in the invariant. */
  lemma QueuesIrrelevant(cfg: Config, st: State, st': State, clock: real)
    requires cfg.pi > 0.0 && NodeInvariant(cfg, st, clock)
    requires st' == st.(rears := st'.rears, fronts := st'.fronts, lastRearInput := st'.lastRearInput,
                        lastFrontInput := st'.lastFrontInput)
    ensures NodeInvariant(cfg, st', clock)
  {
    hide WithinRate;
  }

  lemma DroppedKeeps(cfg: Config, st: State, now: real)
    requires cfg.pi > 0.0 && st.fronts != [] && NodeInvariant(cfg, st, now)
    ensures NodeInvariant(cfg, Dropped(st), now)
  {
    hide NodeInvariant;
    var taken := st.(fronts := st.fronts[1..]);
    QueuesIrrelevant(cfg, st, taken, now);
    EmitKeeps(cfg, taken, SyncRejected, now);
  }

  lemma MatchedKeeps(cfg: Config, lib: Library, st: State, now: real, prune: bool)
    requires cfg.pi > 0.0 && st.fronts != [] && PairingOf(cfg, st).rear.Some? && NodeInvariant(cfg, st, now)
    ensures NodeInvariant(cfg, Pruned(cfg, Matched(cfg, lib, st, now), st.fronts[0].stamp, prune), now)
  {
    hide NodeInvariant, PairStep, PairingOf, Prune;
    var taken := st.(fronts := st.fronts[1..]);
    var out := Paired(PairingOf(cfg, st).method_);
    QueuesIrrelevant(cfg, st, taken, now);
    EmitKeeps(cfg, taken, out, now);
    PairStepKeeps(cfg, lib, Emit(taken, out), PairingOf(cfg, st).rear.value, st.fronts[0], now);
    var matched := Matched(cfg, lib, st, now);
    QueuesIrrelevant(cfg, matched, Pruned(cfg, matched, st.fronts[0].stamp, prune), now);
  }

  lemma {:induction false} PendingKeeps(cfg: Config, lib: Library, st: State, now: real, prune: bool)
    requires cfg.pi > 0.0 && NodeInvariant(cfg, st, now)
    ensures NodeInvariant(cfg, Pending(cfg, lib, st, now, prune), now)
    decreases |st.fronts|
  {
    hide NodeInvariant, Waits, PairingOf, Matched;
    if st.fronts != [] && st.rears != [] {
      if PairingOf(cfg, st).rear == None {
        DroppedKeeps(cfg, st, now);
        PendingKeeps(cfg, lib, Dropped(st), now, prune);
      } else {
        MatchedKeeps(cfg, lib, st, now, prune);
        PendingKeeps(cfg, lib, Pruned(cfg, Matched(cfg, lib, st, now), st.fronts[0].stamp, prune), now, prune);
      }
    }
  }

  lemma RestartKeeps(cfg: Config, st: State, clock: real)
    requires cfg.pi > 0.0 && NodeInvariant(cfg, st, clock)
    ensures NodeInvariant(cfg, Restart(st), clock)
  {
    LastValidityAppend(st.outputs, TimeJump);
    LastValidityAppend(st.outputs + [TimeJump], Validity(false));
  }

  lemma StatusKeeps(cfg: Config, st: State, now: real)
    requires cfg.pi > 0.0 && NodeInvariant(cfg, st, now)
    ensures NodeInvariant(cfg, CheckStatus(cfg, st, now), now)
  {
    hide WithinRate;
    LastValidityAppend(st.outputs, Validity(true));
    LastValidityAppend(st.outputs, Validity(false));
  }

  lemma ClockMovesOn(cfg: Config, st: State, clock: real, now: real)
    requires cfg.pi > 0.0 && NodeInvariant(cfg, st, clock) && clock <= now
    ensures NodeInvariant(cfg, st, now)
  {
  }

  lemma StepKeeps(cfg: Config, lib: Library, st: State, e: Event, prune: bool, clock: real)
    requires cfg.pi > 0.0 && NodeInvariant(cfg, st, clock) && clock <= e.now
    ensures NodeInvariant(cfg, Step(cfg, lib, st, e, prune), e.now)
  {
    hide NodeInvariant, Pending, Restart, CheckStatus;
    ClockMovesOn(cfg, st, clock, e.now);
    RestartKeeps(cfg, st, e.now);
    match e
    case RearFix(sample, now) =>
      var checked := CheckTimeJump(st, Rear, sample.stamp);
      var base := if Jumps(st.lastRearInput, sample.stamp) then Restart(st) else st;
      var queued := checked.(rears := AppendBounded(checked.rears, sample, REAR_CAPACITY));
      QueuesIrrelevant(cfg, base, queued, now);
      PendingKeeps(cfg, lib, queued, now, prune);
    case FrontFix(sample, now) =>
      var checked := CheckTimeJump(st, Front, sample.stamp);
      var base := if Jumps(st.lastFrontInput, sample.stamp) then Restart(st) else st;
      var queued := checked.(fronts := AppendBounded(checked.fronts, sample, FRONT_CAPACITY));
      QueuesIrrelevant(cfg, base, queued, now);
      PendingKeeps(cfg, lib, queued, now, prune);
    case Timer(now) => PendingKeeps(cfg, lib, st, now, prune);
    case Status(now) => StatusKeeps(cfg, st, now);
  }

  /** The monotonic clock never goes back between events. */
  ghost predicate ClockOrdered(events: seq<Event>) {
    forall i, j :: 0 <= i < j < |events| ==> events[i].now <= events[j].now
  }

  /**
   After every run valid_state is true exactly when last yaw, last stamp and smoothed yaw are set, the last
   published validity says the same, and the headings accepted since the last reset or timeout have increasing
   stamps with every two of them within the yaw rate over the time between them.
   */
  lemma {:induction false} RunKeepsInvariant(cfg: Config, lib: Library, events: seq<Event>, prune: bool)
    requires cfg.pi > 0.0 && ClockOrdered(events)
    ensures forall clock: real :: (events == [] || events[|events| - 1].now <= clock) ==>
      NodeInvariant(cfg, Run(cfg, lib, events, prune), clock)
  {
    hide NodeInvariant, Step;
    forall clock: real | events == [] || events[|events| - 1].now <= clock
      ensures NodeInvariant(cfg, Run(cfg, lib, events, prune), clock)
    {
      if events == [] {
        InitialOk(cfg, clock);
      } else {
        var init, last := events[..|events| - 1], events[|events| - 1];
        RunKeepsInvariant(cfg, lib, init, prune);
        StepKeeps(cfg, lib, Run(cfg, lib, init, prune), last, prune, last.now);
        ClockMovesOn(cfg, Run(cfg, lib, events, prune), last.now, clock);
      }
    }
  }

  lemma InitialOk(cfg: Config, clock: real)
    requires cfg.pi > 0.0
    ensures NodeInvariant(cfg, INITIAL, clock)
  {
  }

  // ---------- pruning ----------

  lemma {:induction false} PruneDrops(rears: seq<Sample>, bound: real) returns (dropped: seq<Sample>)
    ensures rears == dropped + Prune(rears, bound)
    ensures dropped != [] ==> Prune(rears, bound) != [] && Prune(rears, bound)[0].stamp < bound
  {
    dropped := [];
    if |rears| > 2 && rears[1].stamp < bound {
      var rest := PruneDrops(rears[1..], bound);
      dropped := [rears[0]] + rest;
      assert rears == [rears[0]] + rears[1..];
    }
  }

  ghost predicate FrontsNotBefore(fronts: seq<Sample>, last: Option<real>, bound: real) {
    (forall k :: 0 <= k < |fronts| ==> bound <= fronts[k].stamp) && last.Some? && bound <= last.value
  }

  /** Front stamps, those queued and those to come, are not before bound. */
  ghost predicate NotBefore(st: State, bound: real) {
    FrontsNotBefore(st.fronts, st.lastFrontInput, bound)
  }

  ghost predicate FrontsInOrder(fronts: seq<Sample>, last: Option<real>) {
    && (forall i, j :: 0 <= i < j < |fronts| ==> fronts[i].stamp <= fronts[j].stamp)
    && (forall k :: 0 <= k < |fronts| ==> last.Some? && fronts[k].stamp <= last.value)
  }

  /** Stamps come in order: rear ones increase, front ones do not decrease, the last ones remembered. */
  ghost predicate InOrder(st: State) {
    FrontsInOrder(st.fronts, st.lastFrontInput)
  }

  ghost predicate RearsInOrder(rears: seq<Sample>, last: Option<real>) {
    Increasing(rears) && forall k :: 0 <= k < |rears| ==> last.Some? && rears[k].stamp <= last.value
  }

  /** full is the node that never prunes: the same, but for rear fixes dropped that no front fix can need. */
  ghost predicate Unpruned(full: State, st: State, dropped: seq<Sample>) {
    && full == st.(rears := dropped + st.rears)
    && InOrder(st) && RearsInOrder(full.rears, st.lastRearInput)
    && (dropped != [] ==> st.rears != [] && NotBefore(st, st.rears[0].stamp))
  }

  /** One round of the pairing loop sees the same pairing either way. */
  lemma SamePairing(cfg: Config, full: State, st: State, dropped: seq<Sample>)
    requires Unpruned(full, st, dropped) && st.fronts != []
    ensures PairingOf(cfg, full) == PairingOf(cfg, st)
  {
    hide Pair;
    DropLeading(dropped, st.rears, st.fronts[0].stamp, cfg.maxInterpolationGap, cfg.syncTolerance);
  }

  lemma SameWaiting(cfg: Config, full: State, st: State, dropped: seq<Sample>, now: real)
    requires Unpruned(full, st, dropped) && st.fronts != [] && st.rears != []
    ensures full.rears != [] && Waits(cfg, full, now) == Waits(cfg, st, now)
  {
    hide PairingOf, InOrder, RearsInOrder, NotBefore;
    SamePairing(cfg, full, st, dropped);
    assert full.rears[|full.rears| - 1] == st.rears[|st.rears| - 1];
  }

  lemma TakeKeeps(full: State, st: State, dropped: seq<Sample>, out: Output)
    requires Unpruned(full, st, dropped) && st.fronts != []
    ensures Unpruned(Emit(full.(fronts := full.fronts[1..]), out), Emit(st.(fronts := st.fronts[1..]), out), dropped)
    ensures NotBefore(Emit(st.(fronts := st.fronts[1..]), out), st.fronts[0].stamp)
  {
    hide RearsInOrder, InOrder, NotBefore;
    TailInOrder(st, out, st.fronts[0].stamp);
    if dropped != [] { TailInOrder(st, out, st.rears[0].stamp); }
  }

  lemma TailInOrder(st: State, out: Output, bound: real)
    requires InOrder(st) && st.fronts != []
    ensures var st' := Emit(st.(fronts := st.fronts[1..]), out);
      InOrder(st') && NotBefore(st', st.fronts[0].stamp) && (NotBefore(st, bound) ==> NotBefore(st', bound))
  {
    var rest := st.fronts[1..];
    assert forall k :: 0 <= k < |rest| ==> rest[k] == st.fronts[k + 1];
    forall i, j | 0 <= i < j < |rest| ensures rest[i].stamp <= rest[j].stamp {
      assert rest[i] == st.fronts[i + 1] && rest[j] == st.fronts[j + 1];
    }
  }

  lemma PairKeepsUnpruned(cfg: Config, lib: Library, full: State, st: State, dropped: seq<Sample>, rear: Sample,
                          front: Sample, now: real)
    requires cfg.pi > 0.0 && Unpruned(full, st, dropped) && NotBefore(st, front.stamp)
    ensures Unpruned(PairStep(cfg, lib, full, rear, front, now), PairStep(cfg, lib, st, rear, front, now), dropped)
    ensures NotBefore(PairStep(cfg, lib, st, rear, front, now), front.stamp)
  {
    hide PairStep, FrontsInOrder, FrontsNotBefore, RearsInOrder;
    PairKeepsQueues(cfg, lib, st, rear, front, now);
    PairKeepsQueues(cfg, lib, full, rear, front, now);
    assert full == st.(rears := full.rears);
  }

  lemma PruneKeepsUnpruned(full: State, st: State, dropped: seq<Sample>, front: real, gap: real)
      returns (dropped': seq<Sample>)
    requires Unpruned(full, st, dropped) && NotBefore(st, front) && gap >= 0.0
    ensures Unpruned(full, st.(rears := Prune(st.rears, front - gap)), dropped')
  {
    hide Prune, FrontsInOrder, FrontsNotBefore, RearsInOrder;
    var kept := Prune(st.rears, front - gap);
    var more := PruneDrops(st.rears, front - gap);
    dropped' := dropped + more;
    assert dropped + (more + kept) == dropped' + kept;
    if more == [] {
      assert [] + kept == kept && dropped' == dropped;
    } else {
      NotBeforeEarlier(st, front, kept[0].stamp);
    }
  }

  lemma NotBeforeEarlier(st: State, bound: real, earlier: real)
    requires NotBefore(st, bound) && earlier <= bound
    ensures NotBefore(st, earlier)
  {
  }

  /** A front fix paired on both sides, and the rear fixes pruned on one. */
  lemma MatchedKeepsUnpruned(cfg: Config, lib: Library, full: State, st: State, dropped: seq<Sample>, now: real)
      returns (dropped': seq<Sample>)
    requires cfg.pi > 0.0 && cfg.maxInterpolationGap >= 0.0 && Unpruned(full, st, dropped) && st.fronts != []
    requires PairingOf(cfg, full) == PairingOf(cfg, st) && PairingOf(cfg, st).rear.Some?
    ensures var stamp := st.fronts[0].stamp;
      Unpruned(Pruned(cfg, Matched(cfg, lib, full, now), stamp, false),
               Pruned(cfg, Matched(cfg, lib, st, now), stamp, true), dropped')
  {
    hide PairStep, PairingOf, Prune, InOrder, RearsInOrder, NotBefore;
    var pairing, front := PairingOf(cfg, st), st.fronts[0];
    var out := Paired(pairing.method_);
    TakeKeeps(full, st, dropped, out);
    var full1, st1 := Emit(full.(fronts := full.fronts[1..]), out), Emit(st.(fronts := st.fronts[1..]), out);
    PairKeepsUnpruned(cfg, lib, full1, st1, dropped, pairing.rear.value, front, now);
    dropped' := PruneKeepsUnpruned(Matched(cfg, lib, full, now), Matched(cfg, lib, st, now), dropped, front.stamp,
                                   cfg.maxInterpolationGap);
  }

  lemma {:induction false} PendingKeepsUnpruned(cfg: Config, lib: Library, full: State, st: State,
                                                dropped: seq<Sample>, now: real)
      returns (dropped': seq<Sample>)
    requires cfg.pi > 0.0 && cfg.maxInterpolationGap >= 0.0 && Unpruned(full, st, dropped)
    ensures Unpruned(Pending(cfg, lib, full, now, false), Pending(cfg, lib, st, now, true), dropped')
    decreases |st.fronts|
  {
    hide Waits, PairingOf, Matched, Pruned, Dropped, Unpruned;
    dropped' := dropped;
    UnprunedQueues(full, st, dropped);
    if st.fronts != [] && st.rears != [] {
      SamePairing(cfg, full, st, dropped);
      SameWaiting(cfg, full, st, dropped, now);
      if !Waits(cfg, st, now) {
        if PairingOf(cfg, st).rear == None {
          DroppedKeepsUnpruned(full, st, dropped);
          dropped' := PendingKeepsUnpruned(cfg, lib, Dropped(full), Dropped(st), dropped, now);
        } else {
          var next := MatchedKeepsUnpruned(cfg, lib, full, st, dropped, now);
          var stamp := st.fronts[0].stamp;
          PrunedFronts(cfg, Matched(cfg, lib, st, now), stamp, true);
          PrunedFronts(cfg, Matched(cfg, lib, full, now), stamp, false);
          dropped' := PendingKeepsUnpruned(cfg, lib, Pruned(cfg, Matched(cfg, lib, full, now), stamp, false),
                                           Pruned(cfg, Matched(cfg, lib, st, now), stamp, true), next, now);
        }
      }
    }
  }

  lemma UnprunedQueues(full: State, st: State, dropped: seq<Sample>)
    requires Unpruned(full, st, dropped)
    ensures full.fronts == st.fronts && (full.rears == [] <==> st.rears == [])
  {
    hide InOrder, RearsInOrder, NotBefore;
  }

  lemma PrunedFronts(cfg: Config, st: State, stamp: real, prune: bool)
    ensures Pruned(cfg, st, stamp, prune).fronts == st.fronts
  {
    hide Prune;
  }

  lemma DroppedKeepsUnpruned(full: State, st: State, dropped: seq<Sample>)
    requires Unpruned(full, st, dropped) && st.fronts != []
    ensures full.fronts == st.fronts && Unpruned(Dropped(full), Dropped(st), dropped)
    ensures |Dropped(st).fronts| < |st.fronts|
  {
    hide Unpruned;
    UnprunedQueues(full, st, dropped);
    TakeKeeps(full, st, dropped, SyncRejected);
  }

  lemma RestartUnpruned(full: State, st: State, dropped: seq<Sample>)
    requires Unpruned(full, st, dropped)
    ensures Unpruned(Restart(full), Restart(st), [])
  {
  }

  lemma AppendInOrder(rears: seq<Sample>, last: Option<real>, sample: Sample)
    requires RearsInOrder(rears, last) && (last.Some? ==> last.value < sample.stamp)
    ensures RearsInOrder(AppendBounded(rears, sample, REAR_CAPACITY), Some(sample.stamp))
  {
    var all := AppendBounded(rears, sample, REAR_CAPACITY);
    var skip := if |rears| >= REAR_CAPACITY then 1 else 0;
    assert forall k :: 0 <= k < |all| - 1 ==> all[k] == rears[k + skip];
    assert all[|all| - 1] == sample;
  }

  /** Queueing a rear fix: at capacity the unpruned queue loses a fix that pruning had dropped already. */
  lemma RearsQueue(dropped: seq<Sample>, rears: seq<Sample>, sample: Sample) returns (dropped': seq<Sample>)
    requires |dropped + rears| <= REAR_CAPACITY
    ensures AppendBounded(dropped + rears, sample, REAR_CAPACITY) ==
      dropped' + AppendBounded(rears, sample, REAR_CAPACITY)
    ensures dropped' != [] ==> dropped != []
    ensures dropped != [] && rears != [] ==>
      AppendBounded(rears, sample, REAR_CAPACITY) != [] && AppendBounded(rears, sample, REAR_CAPACITY)[0] == rears[0]
  {
    if dropped == [] {
      dropped' := [];
      assert dropped + rears == rears;
    } else if |dropped + rears| == REAR_CAPACITY {
      dropped' := dropped[1..];
      assert (dropped + rears)[1..] == dropped' + rears;
      assert (dropped' + rears) + [sample] == dropped' + (rears + [sample]);
    } else {
      dropped' := dropped;
      assert (dropped + rears) + [sample] == dropped + (rears + [sample]);
    }
  }

  lemma RearArrives(full: State, st: State, dropped: seq<Sample>, sample: Sample) returns (dropped': seq<Sample>)
    requires Unpruned(full, st, dropped) && (st.lastRearInput.Some? ==> st.lastRearInput.value < sample.stamp)
    requires |full.rears| <= REAR_CAPACITY
    ensures Unpruned(
      full.(lastRearInput := Some(sample.stamp), rears := AppendBounded(full.rears, sample, REAR_CAPACITY)),
      st.(lastRearInput := Some(sample.stamp), rears := AppendBounded(st.rears, sample, REAR_CAPACITY)), dropped')
  {
    hide AppendBounded, RearsInOrder, InOrder, NotBefore;
    AppendInOrder(full.rears, st.lastRearInput, sample);
    dropped' := RearsQueue(dropped, st.rears, sample);
    RearsIrrelevant(st, st.(lastRearInput := Some(sample.stamp),
                            rears := AppendBounded(st.rears, sample, REAR_CAPACITY)),
                    if st.rears == [] then 0.0 else st.rears[0].stamp);
  }

  lemma RearsIrrelevant(st: State, st': State, bound: real)
    requires st.fronts == st'.fronts && st.lastFrontInput == st'.lastFrontInput
    ensures InOrder(st) ==> InOrder(st')
    ensures NotBefore(st, bound) ==> NotBefore(st', bound)
  {
    hide FrontsInOrder, FrontsNotBefore;
  }

  lemma FrontArrives(full: State, st: State, dropped: seq<Sample>, sample: Sample)
    requires Unpruned(full, st, dropped) && (st.lastFrontInput.Some? ==> st.lastFrontInput.value <= sample.stamp)
    ensures Unpruned(
      full.(lastFrontInput := Some(sample.stamp), fronts := AppendBounded(full.fronts, sample, FRONT_CAPACITY)),
      st.(lastFrontInput := Some(sample.stamp), fronts := AppendBounded(st.fronts, sample, FRONT_CAPACITY)), dropped)
  {
    hide RearsInOrder, InOrder, NotBefore, AppendBounded;
    FrontQueued(st, sample, if st.rears == [] then 0.0 else st.rears[0].stamp);
    assert full.fronts == st.fronts && full.rears == dropped + st.rears && full.lastRearInput == st.lastRearInput;
  }

  lemma FrontQueued(st: State, sample: Sample, bound: real)
    requires InOrder(st) && (st.lastFrontInput.Some? ==> st.lastFrontInput.value <= sample.stamp)
    ensures var st' := st.(lastFrontInput := Some(sample.stamp),
                           fronts := AppendBounded(st.fronts, sample, FRONT_CAPACITY));
      InOrder(st') && (NotBefore(st, bound) ==> NotBefore(st', bound))
  {
    var all := AppendBounded(st.fronts, sample, FRONT_CAPACITY);
    var skip := if |st.fronts| >= FRONT_CAPACITY then 1 else 0;
    assert forall k :: 0 <= k < |all| - 1 ==> all[k] == st.fronts[k + skip];
    assert all[|all| - 1] == sample;
    forall i, j | 0 <= i < j < |all| ensures all[i].stamp <= all[j].stamp {
      assert all[i] == st.fronts[i + skip];
    }
  }

  /** Stamps of the last fix on each stream since the last time jump. */
  datatype Inputs = Inputs(rear: Option<real>, front: Option<real>)

  function InputsAfter(last: Inputs, e: Event): Inputs {
    match e
    case RearFix(sample, _) => Inputs(Some(sample.stamp), if Jumps(last.rear, sample.stamp) then None else last.front)
    case FrontFix(sample, _) => Inputs(if Jumps(last.front, sample.stamp) then None else last.rear, Some(sample.stamp))
    case _ => last
  }

  function LastInputs(events: seq<Event>): Inputs {
    if events == [] then Inputs(None, None) else InputsAfter(LastInputs(events[..|events| - 1]), events[|events| - 1])
  }

  /** A rear stamp is after the one before it and a front stamp not before it, unless it jumps back over a second. */
  predicate Orderly(last: Inputs, e: Event) {
    match e
    case RearFix(sample, _) =>
      last.rear.Some? && !Jumps(last.rear, sample.stamp) ==> last.rear.value < sample.stamp
    case FrontFix(sample, _) =>
      last.front.Some? && !Jumps(last.front, sample.stamp) ==> last.front.value <= sample.stamp
    case _ => true
  }

  predicate OrderlyRun(events: seq<Event>) {
    events == [] || (OrderlyRun(events[..|events| - 1]) &&
      Orderly(LastInputs(events[..|events| - 1]), events[|events| - 1]))
  }

  lemma PrunedBounds(cfg: Config, st: State, stamp: real, prune: bool)
    ensures var r := Pruned(cfg, st, stamp, prune);
      |r.rears| <= |st.rears| && r == st.(rears := r.rears)
  {
    hide Prune;
    var dropped := PruneDrops(st.rears, stamp - cfg.maxInterpolationGap);
  }

  /** The pairing loop neither lengthens the rear queue nor touches the remembered stamps. */
  lemma {:induction false} PendingBounds(cfg: Config, lib: Library, st: State, now: real, prune: bool)
    requires cfg.pi > 0.0
    ensures var r := Pending(cfg, lib, st, now, prune);
      |r.rears| <= |st.rears| && r.lastRearInput == st.lastRearInput && r.lastFrontInput == st.lastFrontInput
    decreases |st.fronts|
  {
    hide Waits, PairingOf, Matched, Pruned;
    if st.fronts != [] && st.rears != [] && !Waits(cfg, st, now) {
      if PairingOf(cfg, st).rear == None {
        PendingBounds(cfg, lib, Dropped(st), now, prune);
      } else {
        var matched := Matched(cfg, lib, st, now);
        PrunedBounds(cfg, matched, st.fronts[0].stamp, prune);
        PendingBounds(cfg, lib, Pruned(cfg, matched, st.fronts[0].stamp, prune), now, prune);
      }
    }
  }

  lemma StepBounds(cfg: Config, lib: Library, st: State, e: Event, prune: bool)
    requires cfg.pi > 0.0 && |st.rears| <= REAR_CAPACITY
    ensures var r := Step(cfg, lib, st, e, prune);
      && |r.rears| <= REAR_CAPACITY
      && Inputs(r.lastRearInput, r.lastFrontInput) == InputsAfter(Inputs(st.lastRearInput, st.lastFrontInput), e)
  {
    hide Pending;
    match e
    case RearFix(sample, now) =>
      var checked := CheckTimeJump(st, Rear, sample.stamp);
      PendingBounds(cfg, lib, checked.(rears := AppendBounded(checked.rears, sample, REAR_CAPACITY)), now, prune);
    case FrontFix(sample, now) =>
      var checked := CheckTimeJump(st, Front, sample.stamp);
      PendingBounds(cfg, lib, checked.(fronts := AppendBounded(checked.fronts, sample, FRONT_CAPACITY)), now, prune);
    case Timer(now) => PendingBounds(cfg, lib, st, now, prune);
    case Status(now) =>
  }

  lemma StatusKeepsUnpruned(cfg: Config, full: State, st: State, dropped: seq<Sample>, now: real)
    requires Unpruned(full, st, dropped)
    ensures Unpruned(CheckStatus(cfg, full, now), CheckStatus(cfg, st, now), dropped)
  {
    hide RearsInOrder, InOrder, NotBefore;
    assert full.lastRearInput == st.lastRearInput;
    StatusKeepsFronts(cfg, st, now, if st.rears == [] then 0.0 else st.rears[0].stamp);
  }

  lemma StatusKeepsFronts(cfg: Config, st: State, now: real, bound: real)
    ensures var st' := CheckStatus(cfg, st, now);
      && st' == st.(outputs := st'.outputs, validState := st'.validState, smoothedYaw := st'.smoothedYaw,
                    lastRawYaw := st'.lastRawYaw, lastRawStamp := st'.lastRawStamp, epoch := st'.epoch)
      && (InOrder(st) ==> InOrder(st')) && (NotBefore(st, bound) ==> NotBefore(st', bound))
  {
    hide FrontsInOrder, FrontsNotBefore;
  }

  lemma RearStepKeepsUnpruned(cfg: Config, lib: Library, full: State, st: State, dropped: seq<Sample>, sample: Sample,
                              now: real)
      returns (dropped': seq<Sample>)
    requires cfg.pi > 0.0 && cfg.maxInterpolationGap >= 0.0 && Unpruned(full, st, dropped) &&
      |full.rears| <= REAR_CAPACITY
    requires Orderly(Inputs(st.lastRearInput, st.lastFrontInput), RearFix(sample, now))
    ensures Unpruned(Step(cfg, lib, full, RearFix(sample, now), false),
                     Step(cfg, lib, st, RearFix(sample, now), true), dropped')
  {
    hide Pending, AppendBounded, RearsInOrder;
    RestartUnpruned(full, st, dropped);
    var jumps := Jumps(st.lastRearInput, sample.stamp);
    var full1, st1 := if jumps then Restart(full) else full, if jumps then Restart(st) else st;
    dropped' := RearArrives(full1, st1, if jumps then [] else dropped, sample);
    dropped' := PendingKeepsUnpruned(cfg, lib,
      full1.(lastRearInput := Some(sample.stamp), rears := AppendBounded(full1.rears, sample, REAR_CAPACITY)),
      st1.(lastRearInput := Some(sample.stamp), rears := AppendBounded(st1.rears, sample, REAR_CAPACITY)),
      dropped', now);
  }

  lemma FrontStepKeepsUnpruned(cfg: Config, lib: Library, full: State, st: State, dropped: seq<Sample>,
                               sample: Sample, now: real)
      returns (dropped': seq<Sample>)
    requires cfg.pi > 0.0 && cfg.maxInterpolationGap >= 0.0 && Unpruned(full, st, dropped)
    requires Orderly(Inputs(st.lastRearInput, st.lastFrontInput), FrontFix(sample, now))
    ensures Unpruned(Step(cfg, lib, full, FrontFix(sample, now), false),
                     Step(cfg, lib, st, FrontFix(sample, now), true), dropped')
  {
    hide Pending, AppendBounded, RearsInOrder;
    RestartUnpruned(full, st, dropped);
    var jumps := Jumps(st.lastFrontInput, sample.stamp);
    var full1, st1 := if jumps then Restart(full) else full, if jumps then Restart(st) else st;
    dropped' := if jumps then [] else dropped;
    FrontArrives(full1, st1, dropped', sample);
    dropped' := PendingKeepsUnpruned(cfg, lib,
      full1.(lastFrontInput := Some(sample.stamp), fronts := AppendBounded(full1.fronts, sample, FRONT_CAPACITY)),
      st1.(lastFrontInput := Some(sample.stamp), fronts := AppendBounded(st1.fronts, sample, FRONT_CAPACITY)),
      dropped', now);
  }

  lemma StepKeepsUnpruned(cfg: Config, lib: Library, full: State, st: State, dropped: seq<Sample>, e: Event)
      returns (dropped': seq<Sample>)
    requires cfg.pi > 0.0 && cfg.maxInterpolationGap >= 0.0 && Unpruned(full, st, dropped) &&
      |full.rears| <= REAR_CAPACITY
    requires Orderly(Inputs(st.lastRearInput, st.lastFrontInput), e)
    ensures Unpruned(Step(cfg, lib, full, e, false), Step(cfg, lib, st, e, true), dropped')
  {
    hide Unpruned, Pending, CheckStatus;
    match e
    case RearFix(sample, now) => dropped' := RearStepKeepsUnpruned(cfg, lib, full, st, dropped, sample, now);
    case FrontFix(sample, now) => dropped' := FrontStepKeepsUnpruned(cfg, lib, full, st, dropped, sample, now);
    case Timer(now) => dropped' := PendingKeepsUnpruned(cfg, lib, full, st, dropped, now);
    case Status(now) =>
      StatusKeepsUnpruned(cfg, full, st, dropped, now);
      dropped' := dropped;
  }

  lemma {:induction false} RunsUnpruned(cfg: Config, lib: Library, events: seq<Event>) returns (dropped: seq<Sample>)
    requires cfg.pi > 0.0 && cfg.maxInterpolationGap >= 0.0 && OrderlyRun(events)
    ensures var full, st := Run(cfg, lib, events, false), Run(cfg, lib, events, true);
      && Unpruned(full, st, dropped)
      && |full.rears| <= REAR_CAPACITY
      && Inputs(st.lastRearInput, st.lastFrontInput) == LastInputs(events)
  {
    hide Step, InputsAfter, Orderly, RearsInOrder, InOrder;
    if events == [] {
      dropped := [];
      InitialUnpruned();
    } else {
      var init, last := events[..|events| - 1], events[|events| - 1];
      dropped := RunsUnpruned(cfg, lib, init);
      var full, st := Run(cfg, lib, init, false), Run(cfg, lib, init, true);
      assert |st.rears| <= |full.rears|;
      StepBounds(cfg, lib, full, last, false);
      StepBounds(cfg, lib, st, last, true);
      dropped := StepKeepsUnpruned(cfg, lib, full, st, dropped, last);
    }
  }

  lemma InitialUnpruned()
    ensures Unpruned(INITIAL, INITIAL, [])
  {
  }

  /**
   * Forgetting old rear fixes is invisible: whatever the events, as long as stamps come in order between time jumps,
   * the node publishes and counts what a node that never prunes would, pair by pair, and agrees with it on everything
   * but the rear fixes it forgot.
   */
  lemma PruningIsInvisible(cfg: Config, lib: Library, events: seq<Event>)
    requires cfg.pi > 0.0 && cfg.maxInterpolationGap >= 0.0 && OrderlyRun(events)
    ensures var full, st := Run(cfg, lib, events, false), Run(cfg, lib, events, true);
      && full.outputs == st.outputs
      && full == st.(rears := full.rears)
  {
    hide *;
    var dropped := RunsUnpruned(cfg, lib, events);
    UnprunedDiffers(Run(cfg, lib, events, false), Run(cfg, lib, events, true), dropped);
  }

  lemma UnprunedDiffers(full: State, st: State, dropped: seq<Sample>)
    requires Unpruned(full, st, dropped)
    ensures full.outputs == st.outputs && full == st.(rears := full.rears)
  {
  }

  // ---------- the yaw rate over a run ----------

  /**
   * Of the headings accepted in any run since its last reset or timeout, any two differ by at most the largest yaw rate
   * times the time between their stamps, whatever was rejected in between.
   */
  lemma AcceptedWithinRate(cfg: Config, lib: Library, events: seq<Event>, i: nat, j: nat)
    requires cfg.pi > 0.0 && ClockOrdered(events)
    requires i < j < |Run(cfg, lib, events, true).epoch|
    ensures var epoch := Run(cfg, lib, events, true).epoch;
      && epoch[i].stamp < epoch[j].stamp
      && AngleBetween(cfg.pi, epoch[i].yaw, epoch[j].yaw) <= Times(cfg.maxYawRate, epoch[j].stamp - epoch[i].stamp)
  {
    hide Run, AngleBetween, Times, ValidityAgrees;
    RunKeepsInvariant(cfg, lib, events, true);
    var clock := if events == [] then 0.0 else events[|events| - 1].now;
    var st := Run(cfg, lib, events, true);
    assert NodeInvariant(cfg, st, clock);
    assert WithinRate(cfg, st.epoch[i], st.epoch[j]);
  }
}
