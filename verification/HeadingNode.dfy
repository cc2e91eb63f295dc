/** The dual-GNSS heading node: queues of fixes in, headings and their validity out. */
module HeadingNode {
  import opened Options
  import opened Circle
  import opened RearPairing

  /** Parameters of the node. */
  datatype Config = Config(pi: real, requireRtkFixed: bool, maxHorizontalStddev: real, syncTolerance: real,
                           maxInterpolationGap: real, pairWait: real, minimumBaseline: real, maximumBaseline: real,
                           maxYawRate: real, smoothingAlpha: real, headingTimeout: real)

  /** Library functions; nothing is assumed of them. */
  datatype Library = Library(hypot: (real, real) -> real, atan2: (real, real) -> real,
                             circularEma: (Option<real>, real, real) -> real)

  datatype Usability = Usable | NoFix | NotFixed | Covariance

  datatype Reason = Ok | RearUnusable(why: Usability) | FrontUnusable(why: Usability) | Baseline | Timestamp | YawRate

  /** What the node publishes or counts, in order. */
  datatype Output =
    | RawYaw(yaw: real)
    | Validity(valid: bool)
    | Heading(stamp: real, yaw: real, smoothed: real)
    | Paired(how: Method)
    | Rejected(reason: Reason)
    | SyncRejected
    | TimeJump

  /** An accepted heading: time stamp and yaw. */
  datatype Accepted = Accepted(stamp: real, yaw: real)

  /** epoch lists the headings accepted since the last reset or timeout; the other fields are the node's own. */
  datatype State = State(rears: seq<Sample>, fronts: seq<Sample>,
                         lastRawYaw: Option<real>, lastRawStamp: Option<real>, smoothedYaw: Option<real>,
                         lastValidWall: Option<real>, validState: bool,
                         lastRearInput: Option<real>, lastFrontInput: Option<real>,
                         outputs: seq<Output>, epoch: seq<Accepted>)

  const INITIAL := State([], [], None, None, None, None, false, None, None, [], [])

  const REAR_CAPACITY := 240
  const FRONT_CAPACITY := 120

  /** deque.append with a maximum length: the oldest entry makes room. */
  function AppendBounded(s: seq<Sample>, x: Sample, capacity: nat): seq<Sample> {
    if |s| >= capacity && s != [] then s[1..] + [x] else s + [x]
  }

  function FixIsUsable(cfg: Config, s: Sample): Usability {
    if s.status < 0 then NoFix
    else if cfg.requireRtkFixed && !Fixed(s) then NotFixed
    else if !NoLarger(s.horizontalStddev, Some(cfg.maxHorizontalStddev)) then Covariance
    else Usable
  }

  /** The yaw between the antennas, when they are apart. */
  function RawYawOf(lib: Library, rear: Sample, front: Sample): Option<real> {
    if lib.hypot(front.x - rear.x, front.y - rear.y) > 0.000001
    then Some(lib.atan2(front.y - rear.y, front.x - rear.x)) else None
  }

  function Judge(cfg: Config, lib: Library, st: State, rear: Sample, front: Sample): Reason
    requires cfg.pi > 0.0
  {
    var baseline := lib.hypot(front.x - rear.x, front.y - rear.y);
    var rawYaw := RawYawOf(lib, rear, front);
    if FixIsUsable(cfg, rear) != Usable then RearUnusable(FixIsUsable(cfg, rear))
    else if FixIsUsable(cfg, front) != Usable then FrontUnusable(FixIsUsable(cfg, front))
    else if rawYaw == None || !(cfg.minimumBaseline <= baseline <= cfg.maximumBaseline) then Baseline
    else if st.lastRawYaw.Some? && st.lastRawStamp.Some? then
      var deltaTime := front.stamp - st.lastRawStamp.value;
      if deltaTime <= 0.0 then Timestamp
      else if AbsReal(ShortestAngularDistance(cfg.pi, st.lastRawYaw.value, rawYaw.value) / deltaTime) > cfg.maxYawRate
      then YawRate
      else Ok
    else Ok
  }

  lemma JudgedOkHasYaw(cfg: Config, lib: Library, st: State, rear: Sample, front: Sample)
    requires cfg.pi > 0.0
    ensures Judge(cfg, lib, st, rear, front) == Ok ==> RawYawOf(lib, rear, front).Some?
  {
  }

  function Emit(st: State, out: Output): State {
    st.(outputs := st.outputs + [out])
  }

  /** One paired front fix: judged, and accepted or rejected. */
  function PairStep(cfg: Config, lib: Library, st: State, rear: Sample, front: Sample, now: real): State
    requires cfg.pi > 0.0
  {
    var rawYaw := RawYawOf(lib, rear, front);
    var seen := if rawYaw.Some? then Emit(st, RawYaw(rawYaw.value)) else st;
    var reason := Judge(cfg, lib, st, rear, front);
    if reason != Ok then Emit(seen, Rejected(reason)) else Accept(cfg, lib, seen, front.stamp, rawYaw.value, now)
  }

  /** The heading becomes the reference for the next one. */
  function Remembered(st: State, stamp: real, yaw: real, smoothed: real, now: real): State {
    st.(lastRawYaw := Some(yaw), lastRawStamp := Some(stamp), smoothedYaw := Some(smoothed),
        lastValidWall := Some(now), epoch := st.epoch + [Accepted(stamp, yaw)])
  }

  /** An accepted heading is remembered and makes the output valid. */
  function Accept(cfg: Config, lib: Library, st: State, stamp: real, yaw: real, now: real): State {
    var smoothed := lib.circularEma(st.smoothedYaw, yaw, cfg.smoothingAlpha);
    var accepted := Remembered(st, stamp, yaw, smoothed, now);
    var valid := if st.validState then accepted else Emit(accepted.(validState := true), Validity(true));
    Emit(valid, Heading(stamp, yaw, smoothed))
  }

  /** Drops rear fixes no longer needed, two always kept. */
  function Prune(rears: seq<Sample>, bound: real): seq<Sample> {
    if |rears| > 2 && rears[1].stamp < bound then Prune(rears[1..], bound) else rears
  }

  /** The rear fix for the oldest front fix. */
  function PairingOf(cfg: Config, st: State): Pairing
    requires st.fronts != []
  {
    Pair(st.rears, st.fronts[0].stamp, cfg.maxInterpolationGap, cfg.syncTolerance)
  }

  /** The oldest front fix may still get a better rear fix. */
  predicate Waits(cfg: Config, st: State, now: real)
    requires st.fronts != [] && st.rears != []
  {
    && now - st.fronts[0].receivedAt < cfg.pairWait
    && (st.rears[|st.rears| - 1].stamp < st.fronts[0].stamp || PairingOf(cfg, st).rear == None)
  }

  /** The oldest front fix goes without having found a rear fix. */
  function Dropped(st: State): State
    requires st.fronts != []
  {
    Emit(st.(fronts := st.fronts[1..]), SyncRejected)
  }

  /** The oldest front fix goes, judged with its rear fix. */
  function Matched(cfg: Config, lib: Library, st: State, now: real): (r: State)
    requires cfg.pi > 0.0 && st.fronts != [] && PairingOf(cfg, st).rear.Some?
    ensures r.rears == st.rears && r.fronts == st.fronts[1..]
    ensures r.lastRearInput == st.lastRearInput && r.lastFrontInput == st.lastFrontInput
  {
    var paired := Emit(st.(fronts := st.fronts[1..]), Paired(PairingOf(cfg, st).method_));
    QueuesStay(cfg, lib, paired, PairingOf(cfg, st).rear.value, st.fronts[0], now);
    PairStep(cfg, lib, paired, PairingOf(cfg, st).rear.value, st.fronts[0], now)
  }

  /** The rear fixes kept after a front fix of the given stamp. */
  function Pruned(cfg: Config, st: State, stamp: real, prune: bool): State {
    if prune then st.(rears := Prune(st.rears, stamp - cfg.maxInterpolationGap)) else st
  }

  /** The pairing loop; with prune false it never forgets a rear fix. */
  function Pending(cfg: Config, lib: Library, st: State, now: real, prune: bool): State
    requires cfg.pi > 0.0
    decreases |st.fronts|
  {
    if st.fronts == [] || st.rears == [] || Waits(cfg, st, now) then st
    else if PairingOf(cfg, st).rear == None then Pending(cfg, lib, Dropped(st), now, prune)
    else Pending(cfg, lib, Pruned(cfg, Matched(cfg, lib, st, now), st.fronts[0].stamp, prune), now, prune)
  }

  lemma PairKeepsQueues(cfg: Config, lib: Library, st: State, rear: Sample, front: Sample, now: real)
    requires cfg.pi > 0.0
    ensures var r := PairStep(cfg, lib, st, rear, front, now);
      r.rears == st.rears && r.fronts == st.fronts && r.lastRearInput == st.lastRearInput &&
        r.lastFrontInput == st.lastFrontInput
    ensures forall rears :: PairStep(cfg, lib, st.(rears := rears), rear, front, now) ==
                            PairStep(cfg, lib, st, rear, front, now).(rears := rears)
  {
    hide Judge;
    forall rears ensures Judge(cfg, lib, st.(rears := rears), rear, front) == Judge(cfg, lib, st, rear, front) {
      JudgeIgnoresQueues(cfg, lib, st, rears, rear, front);
    }
  }

  lemma QueuesStay(cfg: Config, lib: Library, st: State, rear: Sample, front: Sample, now: real)
    requires cfg.pi > 0.0
    ensures var r := PairStep(cfg, lib, st, rear, front, now);
      r.rears == st.rears && r.fronts == st.fronts && r.lastRearInput == st.lastRearInput &&
        r.lastFrontInput == st.lastFrontInput
  {
    hide Judge;
  }

  lemma JudgeIgnoresQueues(cfg: Config, lib: Library, st: State, rears: seq<Sample>, rear: Sample, front: Sample)
    requires cfg.pi > 0.0
    ensures Judge(cfg, lib, st.(rears := rears), rear, front) == Judge(cfg, lib, st, rear, front)
  {
  }

  datatype Stream = Rear | Front

  predicate Jumps(previous: Option<real>, stamp: real) {
    previous.Some? && stamp < previous.value - 1.0
  }

  /** Forgets all input and the heading. */
  function Restart(st: State): State {
    var cleared := st.(rears := [], fronts := [], lastRawYaw := None, lastRawStamp := None, smoothedYaw := None,
                       lastValidWall := None, lastRearInput := None, lastFrontInput := None, epoch := []);
    var counted := Emit(cleared, TimeJump);
    if st.validState then Emit(counted.(validState := false), Validity(false)) else counted
  }

  /** A stamp more than a second back restarts everything. */
  function CheckTimeJump(st: State, stream: Stream, stamp: real): State {
    var previous := if stream == Rear then st.lastRearInput else st.lastFrontInput;
    var checked :=
      if Jumps(previous, stamp) then Restart(st) else st;
    if stream == Rear then checked.(lastRearInput := Some(stamp)) else checked.(lastFrontInput := Some(stamp))
  }

  /** The periodic check of the heading's age. */
  function CheckStatus(cfg: Config, st: State, now: real): State {
    var current := st.lastValidWall.Some? && now - st.lastValidWall.value <= cfg.headingTimeout;
    if current == st.validState then st
    else
      var told := Emit(st.(validState := current), Validity(current));
      if current then told
      else told.(smoothedYaw := None, lastRawYaw := None, lastRawStamp := None, epoch := [])
  }

  datatype Event =
    | RearFix(sample: Sample, now: real)
    | FrontFix(sample: Sample, now: real)
    | Timer(now: real)
    | Status(now: real)

  function Step(cfg: Config, lib: Library, st: State, e: Event, prune: bool): State
    requires cfg.pi > 0.0
  {
    match e
    case RearFix(sample, now) =>
      var checked := CheckTimeJump(st, Rear, sample.stamp);
      Pending(cfg, lib, checked.(rears := AppendBounded(checked.rears, sample, REAR_CAPACITY)), now, prune)
    case FrontFix(sample, now) =>
      var checked := CheckTimeJump(st, Front, sample.stamp);
      Pending(cfg, lib, checked.(fronts := AppendBounded(checked.fronts, sample, FRONT_CAPACITY)), now, prune)
    case Timer(now) => Pending(cfg, lib, st, now, prune)
    case Status(now) => CheckStatus(cfg, st, now)
  }

  function Run(cfg: Config, lib: Library, events: seq<Event>, prune: bool): State
    requires cfg.pi > 0.0
  {
    if events == [] then INITIAL
    else Step(cfg, lib, Run(cfg, lib, events[..|events| - 1], prune), events[|events| - 1], prune)
  }

  // ---------- the node ----------

  class DualGnssMapNode {
    const cfg: Config
    const lib: Library
    var rearSamples: seq<Sample>
    var frontSamples: seq<Sample>
    var lastRawYaw: Option<real>
    var lastRawStamp: Option<real>
    var smoothedYaw: Option<real>
    var lastValidWall: Option<real>
    var validState: bool
    var lastRearInputStamp: Option<real>
    var lastFrontInputStamp: Option<real>
    ghost var outputs: seq<Output>
    ghost var epoch: seq<Accepted>

    ghost function Value(): State
      reads this
    {
      State(rearSamples, frontSamples, lastRawYaw, lastRawStamp, smoothedYaw, lastValidWall, validState,
            lastRearInputStamp, lastFrontInputStamp, outputs, epoch)
    }

    constructor (cfg: Config, lib: Library)
      ensures Value() == INITIAL && this.cfg == cfg && this.lib == lib
    {
      this.cfg, this.lib := cfg, lib;
      rearSamples, frontSamples := [], [];
      lastRawYaw, lastRawStamp, smoothedYaw, lastValidWall := None, None, None, None;
      validState := false;
      lastRearInputStamp, lastFrontInputStamp := None, None;
      outputs, epoch := [], [];
    }

    method JudgePair(rear: Sample, front: Sample, baseline: real, rawYaw: Option<real>) returns (reason: Reason)
      requires cfg.pi > 0.0 && baseline == lib.hypot(front.x - rear.x, front.y - rear.y) &&
        rawYaw == RawYawOf(lib, rear, front)
      ensures reason == Judge(cfg, lib, Value(), rear, front)
    {
      hide AbsReal, ShortestAngularDistance, FixIsUsable, RawYawOf;
      reason := Ok;
      if FixIsUsable(cfg, rear) != Usable {
        reason := RearUnusable(FixIsUsable(cfg, rear));
      } else if FixIsUsable(cfg, front) != Usable {
        reason := FrontUnusable(FixIsUsable(cfg, front));
      } else if rawYaw == None || !(cfg.minimumBaseline <= baseline <= cfg.maximumBaseline) {
        reason := Baseline;
      } else if lastRawYaw.Some? && lastRawStamp.Some? {
        var deltaTime := front.stamp - lastRawStamp.value;
        if deltaTime <= 0.0 {
          reason := Timestamp;
        } else {
          var turned := ShortestAngularDistance(cfg.pi, lastRawYaw.value, rawYaw.value);
          if AbsReal(turned / deltaTime) > cfg.maxYawRate {
            reason := YawRate;
          }
        }
      }
    }

    method Remember(stamp: real, yaw: real, smoothed: real, now: real)
      modifies this`lastRawYaw, this`lastRawStamp, this`smoothedYaw, this`lastValidWall, this`epoch
      ensures Value() == Remembered(old(Value()), stamp, yaw, smoothed, now)
    {
      lastRawYaw, lastRawStamp, smoothedYaw := Some(yaw), Some(stamp), Some(smoothed);
      lastValidWall := Some(now);
      epoch := epoch + [Accepted(stamp, yaw)];
    }

    method AcceptPair(stamp: real, yaw: real, now: real)
      modifies this
      ensures Value() == Accept(cfg, lib, old(Value()), stamp, yaw, now)
    {
      var smoothed := lib.circularEma(smoothedYaw, yaw, cfg.smoothingAlpha);
      Remember(stamp, yaw, smoothed, now);
      if !validState {
        Announce(true);
      }
      outputs := outputs + [Heading(stamp, yaw, smoothed)];
    }

    method ProcessPair(rear: Sample, front: Sample, now: real)
      requires cfg.pi > 0.0
      modifies this
      ensures Value() == PairStep(cfg, lib, old(Value()), rear, front, now)
    {
      hide Judge, Accept;
      var baseline := lib.hypot(front.x - rear.x, front.y - rear.y);
      var rawYaw := None;
      if baseline > 0.000001 {
        rawYaw := Some(lib.atan2(front.y - rear.y, front.x - rear.x));
      }
      var reason := JudgePair(rear, front, baseline, rawYaw);
      JudgedOkHasYaw(cfg, lib, Value(), rear, front);
      if rawYaw.Some? {
        outputs := outputs + [RawYaw(rawYaw.value)];
      }
      if reason != Ok {
        outputs := outputs + [Rejected(reason)];
        return;
      }
      AcceptPair(front.stamp, rawYaw.value, now);
    }

    method ProcessPending(now: real)
      requires cfg.pi > 0.0
      modifies this
      ensures Value() == Pending(cfg, lib, old(Value()), now, true)
    {
      hide PairStep, Pair, Prune, Matched;
      while frontSamples != [] && rearSamples != []
        invariant Pending(cfg, lib, Value(), now, true) == Pending(cfg, lib, old(Value()), now, true)
        decreases |frontSamples|
      {
        ghost var before := Value();
        var front := frontSamples[0];
        var latestRearStamp := rearSamples[|rearSamples| - 1].stamp;
        if latestRearStamp < front.stamp && now - front.receivedAt < cfg.pairWait {
          return;
        }
        var pairing := InterpolatedRear(rearSamples, front.stamp, cfg.maxInterpolationGap, cfg.syncTolerance);
        if pairing.rear == None && now - front.receivedAt < cfg.pairWait {
          return;
        }
        if pairing.rear == None {
          RejectFront();
          continue;
        }
        MatchFront(pairing, front, now);
        PruneRears(front.stamp - cfg.maxInterpolationGap);
        assert Value() == Pruned(cfg, Matched(cfg, lib, before, now), front.stamp, true);
      }
    }

    method RejectFront()
      requires frontSamples != []
      modifies this`frontSamples, this`outputs
      ensures Value() == Dropped(old(Value()))
    {
      frontSamples := frontSamples[1..];
      outputs := outputs + [SyncRejected];
    }

    method MatchFront(pairing: Pairing, front: Sample, now: real)
      requires cfg.pi > 0.0 && frontSamples != [] && front == frontSamples[0]
      requires pairing == PairingOf(cfg, Value()) && pairing.rear.Some?
      modifies this
      ensures Value() == Matched(cfg, lib, old(Value()), now)
    {
      hide PairStep, PairingOf;
      frontSamples := frontSamples[1..];
      outputs := outputs + [Paired(pairing.method_)];
      ProcessPair(pairing.rear.value, front, now);
    }

    method PruneRears(bound: real)
      modifies this`rearSamples
      ensures rearSamples == Prune(old(rearSamples), bound)
    {
      while |rearSamples| > 2 && rearSamples[1].stamp < bound
        invariant Prune(rearSamples, bound) == Prune(old(rearSamples), bound)
        decreases |rearSamples|
      {
        rearSamples := rearSamples[1..];
      }
    }

    method ForgetInput()
      modifies this`rearSamples, this`frontSamples, this`lastRearInputStamp, this`lastFrontInputStamp
      ensures Value() == old(Value()).(rears := [], fronts := [], lastRearInput := None, lastFrontInput := None)
    {
      rearSamples, frontSamples := [], [];
      lastRearInputStamp, lastFrontInputStamp := None, None;
    }

    method ForgetReference()
      modifies this`lastRawYaw, this`lastRawStamp, this`smoothedYaw, this`epoch
      ensures Value() == old(Value()).(lastRawYaw := None, lastRawStamp := None, smoothedYaw := None, epoch := [])
    {
      lastRawYaw, lastRawStamp, smoothedYaw := None, None, None;
      epoch := [];
    }

    method Announce(valid: bool)
      modifies this`validState, this`outputs
      ensures Value() == Emit(old(Value()).(validState := valid), Validity(valid))
    {
      validState := valid;
      outputs := outputs + [Validity(valid)];
    }

    method Clear()
      modifies this
      ensures Value() == Restart(old(Value()))
    {
      ForgetInput();
      ForgetReference();
      lastValidWall := None;
      outputs := outputs + [TimeJump];
      if validState {
        Announce(false);
      }
    }

    method CheckInput(stream: Stream, stamp: real)
      modifies this
      ensures Value() == CheckTimeJump(old(Value()), stream, stamp)
    {
      hide Restart;
      var previous := if stream == Rear then lastRearInputStamp else lastFrontInputStamp;
      if previous.Some? && stamp < previous.value - 1.0 {
        Clear();
      }
      if stream == Rear {
        lastRearInputStamp := Some(stamp);
      } else {
        lastFrontInputStamp := Some(stamp);
      }
    }

    method RearCallback(sample: Sample, now: real)
      requires cfg.pi > 0.0
      modifies this
      ensures Value() == Step(cfg, lib, old(Value()), RearFix(sample, now), true)
    {
      hide Pending, CheckTimeJump;
      CheckInput(Rear, sample.stamp);
      rearSamples := AppendBounded(rearSamples, sample, REAR_CAPACITY);
      ProcessPending(now);
    }

    method FrontCallback(sample: Sample, now: real)
      requires cfg.pi > 0.0
      modifies this
      ensures Value() == Step(cfg, lib, old(Value()), FrontFix(sample, now), true)
    {
      hide Pending, CheckTimeJump;
      CheckInput(Front, sample.stamp);
      frontSamples := AppendBounded(frontSamples, sample, FRONT_CAPACITY);
      ProcessPending(now);
    }

    method PublishStatus(now: real)
      requires cfg.pi > 0.0
      modifies this
      ensures Value() == Step(cfg, lib, old(Value()), Status(now), true)
    {
      hide Pending, CheckTimeJump;
      var currentValid := lastValidWall.Some? && now - lastValidWall.value <= cfg.headingTimeout;
      if currentValid != validState {
        Announce(currentValid);
        if !currentValid {
          ForgetReference();
        }
      }
    }
  }
}
