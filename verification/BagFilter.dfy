/** Turning recorded GNSS fixes into a path: which fixes are kept, how they split into segments, and the path's yaws. */
module BagFilter {
  import opened Options
  import opened RealProducts

  datatype Config = Config(fixedOnly: bool, minStatus: int, maxHorizontalStddev: real, minDistance: real,
                           maxSpeed: real, segmentGap: real, yawWindow: real)

  datatype Utm = Utm(easting: real, northing: real, zone: int, northern: bool)

  /** Library functions; nothing is assumed of them. */
  datatype Library = Library(toUtm: (real, real, Option<int>) -> Utm, hypot: (real, real) -> real,
                             atan2: (real, real) -> real)

  /** A recorded fix; None stands for a coordinate that is not finite or an unbounded deviation. */
  datatype Fix = Fix(latitude: Option<real>, longitude: Option<real>, altitude: Option<real>, status: int,
                     horizontalStddev: Option<real>, headerStamp: real, bagStamp: real)

  datatype Sample = Sample(stamp: real, easting: real, northing: real, altitude: real, status: int, segment: nat)

  datatype Reason = Coordinate | Status | Covariance | Timestamp | Speed | Distance

  datatype Grid = Grid(zone: int, northern: bool)

  datatype State = State(samples: seq<Sample>, rejected: multiset<Reason>, grid: Option<Grid>, segment: nat)

  const EMPTY := State([], multiset{}, None, 0)

  predicate FiniteCoordinate(fix: Fix) {
    && fix.latitude.Some? && fix.longitude.Some?
    && -80.0 <= fix.latitude.value <= 84.0 && -180.0 <= fix.longitude.value <= 180.0
  }

  predicate StatusOk(cfg: Config, fix: Fix) {
    if cfg.fixedOnly then fix.status == 2 else fix.status >= cfg.minStatus
  }

  predicate Accurate(cfg: Config, fix: Fix) {
    fix.horizontalStddev.Some? && fix.horizontalStddev.value <= cfg.maxHorizontalStddev
  }

  function MessageStamp(fix: Fix): real {
    if fix.headerStamp > 0.0 then fix.headerStamp else fix.bagStamp
  }

  function SampleOf(fix: Fix, utm: Utm, segment: nat): Sample {
    Sample(MessageStamp(fix), utm.easting, utm.northing, if fix.altitude.Some? then fix.altitude.value else 0.0,
           fix.status, segment)
  }

  function Apart(lib: Library, a: Sample, b: Sample): real {
    lib.hypot(b.easting - a.easting, b.northing - a.northing)
  }

  function Reject(st: State, reason: Reason): State {
    st.(rejected := st.rejected + multiset{reason})
  }

  function Keep(st: State, s: Sample): State {
    st.(samples := st.samples + [s], segment := s.segment)
  }

  /**
   * A fix on the grid against the sample kept before it. A long pause opens a segment even if the fix is then
   * dropped.
   */
  function TakePoint(cfg: Config, lib: Library, st: State, fix: Fix, utm: Utm): State {
    if st.samples == [] then Keep(st, SampleOf(fix, utm, st.segment))
    else
      var previous := st.samples[|st.samples| - 1];
      var elapsed := MessageStamp(fix) - previous.stamp;
      var distance := lib.hypot(utm.easting - previous.easting, utm.northing - previous.northing);
      var number := if elapsed > cfg.segmentGap then st.segment + 1 else st.segment;
      if elapsed <= 0.0 then Reject(st, Timestamp)
      else if elapsed <= cfg.segmentGap && cfg.maxSpeed > 0.0 && distance / elapsed > cfg.maxSpeed then
        Reject(st, Speed)
      else if distance < cfg.minDistance then Reject(st.(segment := number), Distance)
      else Keep(st, SampleOf(fix, utm, number))
  }

  /** One message; None when it lies on the other side of the equator from the first. */
  function Step(cfg: Config, lib: Library, st: State, fix: Fix): Option<State> {
    if !FiniteCoordinate(fix) then Some(Reject(st, Coordinate))
    else if !StatusOk(cfg, fix) then Some(Reject(st, Status))
    else if !Accurate(cfg, fix) then Some(Reject(st, Covariance))
    else
      var zone := if st.grid.Some? then Some(st.grid.value.zone) else None;
      var utm := lib.toUtm(fix.latitude.value, fix.longitude.value, zone);
      var grid := if st.grid.Some? then st.grid.value else Grid(utm.zone, utm.northern);
      if utm.northern != grid.northern then None else Some(TakePoint(cfg, lib, st.(grid := Some(grid)), fix, utm))
  }

  function Run(cfg: Config, lib: Library, fixes: seq<Fix>): Option<State> {
    if fixes == [] then Some(EMPTY)
    else
      match Run(cfg, lib, fixes[..|fixes| - 1])
      case None => None
      case Some(st) => Step(cfg, lib, st, fixes[|fixes| - 1])
  }

  /** The loop over the bag. */
  method Filter(cfg: Config, lib: Library, fixes: seq<Fix>) returns (outcome: Option<State>)
    ensures outcome == Run(cfg, lib, fixes)
  {
    hide Run, FiniteCoordinate, StatusOk, Accurate, MessageStamp;
    NothingRun(cfg, lib);
    var samples: seq<Sample> := [];
    var rejected: multiset<Reason> := multiset{};
    var grid: Option<Grid> := None;
    var previous: Option<Sample> := None;
    var segmentId := 0;
    var k := 0;
    assert fixes[..0] == [];
    while k < |fixes|
      invariant 0 <= k <= |fixes| && segmentId >= 0
      invariant previous == if samples == [] then None else Some(samples[|samples| - 1])
      invariant Run(cfg, lib, fixes[..k]) == Some(State(samples, rejected, grid, segmentId))
    {
      var fix := fixes[k];
      ghost var before := State(samples, rejected, grid, segmentId);
      RunExtends(cfg, lib, fixes, k);
      k := k + 1;
      if !FiniteCoordinate(fix) {
        rejected := rejected + multiset{Coordinate};
        continue;
      }
      if !StatusOk(cfg, fix) {
        rejected := rejected + multiset{Status};
        continue;
      }
      if !Accurate(cfg, fix) {
        rejected := rejected + multiset{Covariance};
        continue;
      }
      FiniteHasValues(fix);
      var utm := lib.toUtm(fix.latitude.value, fix.longitude.value, if grid.Some? then Some(grid.value.zone) else None);
      if grid == None {
        grid := Some(Grid(utm.zone, utm.northern));
      }
      if utm.northern != grid.value.northern {
        CrossingStays(cfg, lib, fixes, k);
        return None;
      }
      var stamp := MessageStamp(fix);
      if previous.Some? {
        var elapsed := stamp - previous.value.stamp;
        if elapsed <= 0.0 {
          rejected := rejected + multiset{Timestamp};
          continue;
        }
        var distance := lib.hypot(utm.easting - previous.value.easting, utm.northing - previous.value.northing);
        if elapsed > cfg.segmentGap {
          segmentId := segmentId + 1;
        } else if cfg.maxSpeed > 0.0 && distance / elapsed > cfg.maxSpeed {
          rejected := rejected + multiset{Speed};
          continue;
        }
        if distance < cfg.minDistance {
          rejected := rejected + multiset{Distance};
          continue;
        }
      }
      var sample := SampleOf(fix, utm, segmentId);
      samples := samples + [sample];
      previous := Some(sample);
    }
    assert fixes[..k] == fixes;
    outcome := Some(State(samples, rejected, grid, segmentId));
  }

  lemma NothingRun(cfg: Config, lib: Library)
    ensures Run(cfg, lib, []) == Some(EMPTY)
  {
  }

  lemma RunExtends(cfg: Config, lib: Library, fixes: seq<Fix>, k: nat)
    requires k < |fixes| && Run(cfg, lib, fixes[..k]).Some?
    ensures Run(cfg, lib, fixes[..k + 1]) == Step(cfg, lib, Run(cfg, lib, fixes[..k]).value, fixes[k])
  {
    assert fixes[..k + 1][..k] == fixes[..k];
  }

  lemma FiniteHasValues(fix: Fix)
    requires FiniteCoordinate(fix)
    ensures fix.latitude.Some? && fix.longitude.Some?
  {
  }

  lemma {:induction false} CrossingStays(cfg: Config, lib: Library, fixes: seq<Fix>, k: nat)
    requires k <= |fixes| && Run(cfg, lib, fixes[..k]) == None
    ensures Run(cfg, lib, fixes) == None
    decreases |fixes|
  {
    if k == |fixes| {
      assert fixes[..k] == fixes;
    } else {
      var init := fixes[..|fixes| - 1];
      assert init[..k] == fixes[..k];
      CrossingStays(cfg, lib, init, k);
    }
  }

  // ---------- what is kept ----------

  /** b is a legitimate successor of the kept sample a. */
  ghost predicate Follows(cfg: Config, lib: Library, a: Sample, b: Sample) {
    && a.stamp < b.stamp && a.segment <= b.segment && cfg.minDistance <= Apart(lib, a, b)
    && (a.segment == b.segment ==> b.stamp - a.stamp <= cfg.segmentGap)
    && (a.segment == b.segment && cfg.maxSpeed > 0.0 ==>
          Apart(lib, a, b) <= Times(cfg.maxSpeed, b.stamp - a.stamp))
  }

  ghost predicate Chain(cfg: Config, lib: Library, samples: seq<Sample>) {
    forall i :: 0 < i < |samples| ==> Follows(cfg, lib, samples[i - 1], samples[i])
  }

  ghost predicate Good(cfg: Config, lib: Library, st: State, seen: nat) {
    && |st.samples| + |st.rejected| == seen
    && Chain(cfg, lib, st.samples)
    && (if st.samples == [] then st.segment == 0
        else st.samples[0].segment == 0 && st.samples[|st.samples| - 1].segment <= st.segment)
  }

  lemma SlowEnough(distance: real, elapsed: real, limit: real)
    requires elapsed > 0.0 && distance / elapsed <= limit
    ensures distance <= Times(limit, elapsed)
  {
    hide Times;
    QuotientOrder(distance, elapsed, limit);
  }

  /** A sample kept after another one is a legitimate successor. */
  lemma KeptFollows(cfg: Config, lib: Library, st: State, fix: Fix, utm: Utm)
    requires st.samples != [] && st.samples[|st.samples| - 1].segment <= st.segment
    ensures var next := TakePoint(cfg, lib, st, fix, utm).samples;
      next == st.samples ||
      (|next| == |st.samples| + 1 && Follows(cfg, lib, st.samples[|st.samples| - 1], next[|st.samples|]))
  {
    hide Times;
    var s := SampleOf(fix, utm, st.segment);
    var previous := st.samples[|st.samples| - 1];
    var elapsed := s.stamp - previous.stamp;
    var distance := Apart(lib, previous, s);
    if elapsed > 0.0 && elapsed <= cfg.segmentGap && cfg.maxSpeed > 0.0 && distance / elapsed <= cfg.maxSpeed {
      SlowEnough(distance, elapsed, cfg.maxSpeed);
    }
  }

  lemma TakePointKeeps(cfg: Config, lib: Library, st: State, fix: Fix, utm: Utm, seen: nat)
    requires Good(cfg, lib, st, seen)
    ensures Good(cfg, lib, TakePoint(cfg, lib, st, fix, utm), seen + 1)
  {
    hide Times, Follows, MessageStamp;
    if st.samples != [] && TakePoint(cfg, lib, st, fix, utm).samples != st.samples {
      var previous := st.samples[|st.samples| - 1];
      var number := if MessageStamp(fix) - previous.stamp > cfg.segmentGap then st.segment + 1 else st.segment;
      KeptFollows(cfg, lib, st, fix, utm);
      assert TakePoint(cfg, lib, st, fix, utm).samples == st.samples + [SampleOf(fix, utm, number)];
    }
  }

  /**
   * Whatever the bag holds, every message is counted exactly once, as kept or as rejected, and each kept sample
   * follows the one before it: later, far enough, and in the same segment only within the gap and the speed limit.
   */
  lemma {:induction false} RunIsGood(cfg: Config, lib: Library, fixes: seq<Fix>)
    ensures var r := Run(cfg, lib, fixes); r.Some? ==> Good(cfg, lib, r.value, |fixes|)
  {
    hide Good, TakePoint;
    if fixes == [] {
      EmptyIsGood(cfg, lib);
    } else {
      var init, fix := fixes[..|fixes| - 1], fixes[|fixes| - 1];
      RunIsGood(cfg, lib, init);
      if Run(cfg, lib, init).Some? { StepIsGood(cfg, lib, Run(cfg, lib, init).value, fix, |init|); }
    }
  }

  lemma EmptyIsGood(cfg: Config, lib: Library)
    ensures Good(cfg, lib, EMPTY, 0)
  {
  }

  lemma StepIsGood(cfg: Config, lib: Library, st: State, fix: Fix, seen: nat)
    requires Good(cfg, lib, st, seen)
    ensures Step(cfg, lib, st, fix).Some? ==> Good(cfg, lib, Step(cfg, lib, st, fix).value, seen + 1)
  {
    hide TakePoint;
    if FiniteCoordinate(fix) {
      var zone := if st.grid.Some? then Some(st.grid.value.zone) else None;
      var utm := lib.toUtm(fix.latitude.value, fix.longitude.value, zone);
      var grid := if st.grid.Some? then st.grid.value else Grid(utm.zone, utm.northern);
      TakePointKeeps(cfg, lib, st.(grid := Some(grid)), fix, utm, seen);
    }
  }

  /** Late enough, far enough, and after no pause also slow enough to come after the sample kept before. */
  ghost predicate Acceptable(cfg: Config, lib: Library, previous: Sample, s: Sample) {
    var elapsed, distance := s.stamp - previous.stamp, Apart(lib, previous, s);
    && elapsed > 0.0 && distance >= cfg.minDistance
    && (elapsed > cfg.segmentGap || cfg.maxSpeed <= 0.0 || distance <= Times(cfg.maxSpeed, elapsed))
  }

  /** On the grid, a fix is kept exactly when it is the first or acceptable after the one kept before it. */
  lemma KeptExactly(cfg: Config, lib: Library, st: State, fix: Fix, utm: Utm)
    ensures var s := SampleOf(fix, utm, st.segment);
      |TakePoint(cfg, lib, st, fix, utm).samples| == |st.samples| + 1 <==>
      st.samples == [] || Acceptable(cfg, lib, st.samples[|st.samples| - 1], s)
  {
    hide Times;
    if st.samples != [] {
      var s := SampleOf(fix, utm, st.segment);
      var previous := st.samples[|st.samples| - 1];
      if s.stamp > previous.stamp {
        QuotientOrder(Apart(lib, previous, s), s.stamp - previous.stamp, cfg.maxSpeed);
      }
    }
  }

  /** s was made from this message, which passed the checks on coordinate, status and accuracy. */
  ghost predicate MadeFrom(cfg: Config, lib: Library, s: Sample, fix: Fix) {
    && FiniteCoordinate(fix) && StatusOk(cfg, fix) && Accurate(cfg, fix)
    && s.stamp == (if fix.headerStamp > 0.0 then fix.headerStamp else fix.bagStamp) && s.status == fix.status
    && s.altitude == (if fix.altitude.Some? then fix.altitude.value else 0.0)
    && exists zone: Option<int> :: Located(lib, s, fix, zone)
  }

  predicate Located(lib: Library, s: Sample, fix: Fix, zone: Option<int>)
    requires FiniteCoordinate(fix)
  {
    var utm := lib.toUtm(fix.latitude.value, fix.longitude.value, zone);
    s.easting == utm.easting && s.northing == utm.northing
  }

  /** One message per kept sample, in order. */
  ghost predicate Sources(cfg: Config, lib: Library, samples: seq<Sample>, fixes: seq<Fix>, source: seq<nat>) {
    && |source| == |samples|
    && (forall i :: 0 <= i < |source| ==> source[i] < |fixes| && MadeFrom(cfg, lib, samples[i], fixes[source[i]]))
    && (forall i, j :: 0 <= i < j < |source| ==> source[i] < source[j])
  }

  lemma KeptIsMade(cfg: Config, lib: Library, st: State, fix: Fix)
    ensures Step(cfg, lib, st, fix).Some? ==>
      var next := Step(cfg, lib, st, fix).value;
      || (next.samples == st.samples && |next.rejected| == |st.rejected| + 1)
      || (|next.samples| == |st.samples| + 1 && next.samples[..|st.samples|] == st.samples
          && next.rejected == st.rejected && MadeFrom(cfg, lib, next.samples[|st.samples|], fix))
  {
    hide FiniteCoordinate, StatusOk, Accurate;
    FiniteHasValuesIf(fix);
    if FiniteCoordinate(fix) {
      var zone := if st.grid.Some? then Some(st.grid.value.zone) else None;
      var utm := lib.toUtm(fix.latitude.value, fix.longitude.value, zone);
      forall segment ensures Located(lib, SampleOf(fix, utm, segment), fix, zone) {
      }
    }
  }

  lemma FiniteHasValuesIf(fix: Fix)
    ensures FiniteCoordinate(fix) ==> fix.latitude.Some? && fix.longitude.Some?
  {
  }

  /** Each kept sample comes from a message of its own that passed the quality checks, in the order of the bag. */
  lemma {:induction false} KeptInOrder(cfg: Config, lib: Library, fixes: seq<Fix>) returns (source: seq<nat>)
    requires Run(cfg, lib, fixes).Some?
    ensures Sources(cfg, lib, Run(cfg, lib, fixes).value.samples, fixes, source)
  {
    hide Step, MadeFrom;
    if fixes == [] {
      source := [];
    } else {
      var init, fix := fixes[..|fixes| - 1], fixes[|fixes| - 1];
      source := KeptInOrder(cfg, lib, init);
      var st, next := Run(cfg, lib, init).value, Run(cfg, lib, fixes).value;
      KeptIsMade(cfg, lib, st, fix);
      if next.samples != st.samples {
        source := source + [|init|];
        assert next.samples[..|st.samples|] == st.samples;
        assert forall i :: 0 <= i < |st.samples| ==> next.samples[i] == st.samples[i];
      }
    }
  }

  /** In a chain stamps strictly increase and segment numbers never fall, so every segment is one stretch. */
  lemma {:induction false} ChainOrders(cfg: Config, lib: Library, samples: seq<Sample>, i: nat, j: nat)
    requires Chain(cfg, lib, samples) && i < j < |samples|
    ensures samples[i].stamp < samples[j].stamp && samples[i].segment <= samples[j].segment
    decreases j
  {
    assert Follows(cfg, lib, samples[j - 1], samples[j]);
    if i < j - 1 { ChainOrders(cfg, lib, samples, i, j - 1); }
  }

  // ---------- track length ----------

  function Leg(lib: Library, a: Sample, b: Sample): real {
    if a.segment == b.segment then Apart(lib, a, b) else 0.0
  }

  function TrackLength(lib: Library, samples: seq<Sample>): real {
    if |samples| < 2 then 0.0
    else TrackLength(lib, samples[..|samples| - 1]) + Leg(lib, samples[|samples| - 2], samples[|samples| - 1])
  }

  function SameSegmentPairs(samples: seq<Sample>): nat {
    if |samples| < 2 then 0
    else SameSegmentPairs(samples[..|samples| - 1]) +
         if samples[|samples| - 2].segment == samples[|samples| - 1].segment then 1 else 0
  }

  method MeasureTrack(lib: Library, samples: seq<Sample>) returns (length: real)
    ensures length == TrackLength(lib, samples)
  {
    length := 0.0;
    var k := 1;
    while k < |samples|
      invariant 1 <= k && (samples != [] ==> k <= |samples|)
      invariant length == TrackLength(lib, if k <= |samples| then samples[..k] else samples)
    {
      if samples[k - 1].segment == samples[k].segment {
        length := length + lib.hypot(samples[k].easting - samples[k - 1].easting,
                                     samples[k].northing - samples[k - 1].northing);
      }
      assert samples[..k + 1][..k] == samples[..k];
      k := k + 1;
    }
    if samples != [] { assert samples[..k] == samples; }
  }

  /**
   * The track is at least the smallest step times the pairs counted and at most the top speed times the time elapsed.
   */
  lemma {:induction false} TrackBounded(cfg: Config, lib: Library, samples: seq<Sample>)
    requires Chain(cfg, lib, samples) && samples != []
    ensures Times(SameSegmentPairs(samples) as real, cfg.minDistance) <= TrackLength(lib, samples)
    ensures cfg.maxSpeed > 0.0 ==>
      TrackLength(lib, samples) <= Times(cfg.maxSpeed, samples[|samples| - 1].stamp - samples[0].stamp)
    decreases |samples|
  {
    hide Times, Apart;
    var n := |samples|;
    if n == 1 {
      TimesAdds(0.0, 0.0, cfg.minDistance);
      TimesSplits(cfg.maxSpeed, 0.0, 0.0);
    } else {
      var init := samples[..n - 1];
      assert Chain(cfg, lib, init) by {
        forall i | 0 < i < |init| ensures Follows(cfg, lib, init[i - 1], init[i]) {
          assert Follows(cfg, lib, samples[i - 1], samples[i]);
        }
      }
      TrackBounded(cfg, lib, init);
      var a, b := samples[n - 2], samples[n - 1];
      assert Follows(cfg, lib, a, b);
      TimesAdds(SameSegmentPairs(init) as real, 1.0, cfg.minDistance);
      if cfg.maxSpeed > 0.0 {
        TimesSplits(cfg.maxSpeed, a.stamp - samples[0].stamp, b.stamp - a.stamp);
        TimesPositive(cfg.maxSpeed, b.stamp - a.stamp);
      }
    }
  }

  // ---------- segment numbers ----------

  /** Stretches of consecutive samples with the same segment number. */
  function Stretches(samples: seq<Sample>): nat {
    if |samples| < 2 then |samples|
    else
      var a, b := samples[|samples| - 2], samples[|samples| - 1];
      Stretches(samples[..|samples| - 1]) + if a.segment == b.segment then 0 else 1
  }

  /** The segment count reported: the largest number plus one. */
  method ReportedSegments(cfg: Config, lib: Library, samples: seq<Sample>) returns (count: nat)
    requires samples != [] && Chain(cfg, lib, samples)
    ensures count == samples[|samples| - 1].segment + 1
  {
    var largest := samples[0].segment;
    var k := 1;
    while k < |samples|
      invariant 1 <= k <= |samples| && largest == samples[k - 1].segment
    {
      assert Follows(cfg, lib, samples[k - 1], samples[k]);
      if samples[k].segment > largest {
        largest := samples[k].segment;
      }
      k := k + 1;
    }
    count := largest + 1;
  }

  /** No number is skipped from one kept sample to the next. */
  predicate NoneSkipped(samples: seq<Sample>) {
    forall i :: 0 < i < |samples| ==> samples[i].segment <= samples[i - 1].segment + 1
  }

  /**
   * The reported count is never below the number of stretches, and is that number exactly when no number was skipped.
   */
  lemma {:induction false} ReportedVersusStretches(cfg: Config, lib: Library, samples: seq<Sample>)
    requires samples != [] && Chain(cfg, lib, samples) && samples[0].segment == 0
    ensures samples[|samples| - 1].segment + 1 >= Stretches(samples)
    ensures samples[|samples| - 1].segment + 1 == Stretches(samples) <==> NoneSkipped(samples)
    decreases |samples|
  {
    hide Times, Apart;
    var n := |samples|;
    if n > 1 {
      var init := samples[..n - 1];
      assert Chain(cfg, lib, init) by {
        forall i | 0 < i < |init| ensures Follows(cfg, lib, init[i - 1], init[i]) {
          assert Follows(cfg, lib, samples[i - 1], samples[i]);
        }
      }
      ReportedVersusStretches(cfg, lib, init);
      assert Follows(cfg, lib, samples[n - 2], samples[n - 1]);
      assert NoneSkipped(samples) <==> NoneSkipped(init) && samples[n - 1].segment <= samples[n - 2].segment + 1;
    }
  }

  /** Longer than the gap after the sample kept last. */
  predicate Paused(cfg: Config, st: State, stamp: real) {
    && st.samples != []
    && stamp - st.samples[|st.samples| - 1].stamp > 0.0
    && stamp - st.samples[|st.samples| - 1].stamp > cfg.segmentGap
  }

  /** A usable fix that comes after a pause since the sample kept last. */
  predicate AfterPause(cfg: Config, st: State, fix: Fix) {
    FiniteCoordinate(fix) && StatusOk(cfg, fix) && Accurate(cfg, fix) && Paused(cfg, st, MessageStamp(fix))
  }

  predicate Kept(cfg: Config, lib: Library, st: State, fix: Fix) {
    Step(cfg, lib, st, fix).Some? && |Step(cfg, lib, st, fix).value.samples| > |st.samples|
  }

  /** Fixes after a pause that were dropped since the sample kept last. */
  function DroppedPauses(cfg: Config, lib: Library, fixes: seq<Fix>): nat {
    if fixes == [] || Run(cfg, lib, fixes[..|fixes| - 1]) == None then 0
    else
      var init, fix := fixes[..|fixes| - 1], fixes[|fixes| - 1];
      var st := Run(cfg, lib, init).value;
      if Kept(cfg, lib, st, fix) then 0 else DroppedPauses(cfg, lib, init) + if AfterPause(cfg, st, fix) then 1 else 0
  }

  /** From each kept sample to the next, that one included, at most one fix comes after a pause. */
  predicate AtMostOnePause(cfg: Config, lib: Library, fixes: seq<Fix>) {
    if fixes == [] || Run(cfg, lib, fixes[..|fixes| - 1]) == None then true
    else
      var init, fix := fixes[..|fixes| - 1], fixes[|fixes| - 1];
      var st := Run(cfg, lib, init).value;
      && AtMostOnePause(cfg, lib, init)
      && (Kept(cfg, lib, st, fix) ==> DroppedPauses(cfg, lib, init) + (if AfterPause(cfg, st, fix) then 1 else 0) <= 1)
  }

  lemma PointMoves(cfg: Config, lib: Library, st: State, fix: Fix, utm: Utm)
    ensures var next := TakePoint(cfg, lib, st, fix, utm);
      && next.segment == st.segment + (if Paused(cfg, st, MessageStamp(fix)) then 1 else 0)
      && (next.samples == st.samples ||
          (|next.samples| == |st.samples| + 1 && next.samples == st.samples + [next.samples[|st.samples|]]
           && next.samples[|st.samples|].segment == next.segment))
  {
    hide MessageStamp;
  }

  /** How one message moves the segment number: up by one exactly after a pause, and a kept sample takes it. */
  lemma SegmentMoves(cfg: Config, lib: Library, st: State, fix: Fix)
    requires Step(cfg, lib, st, fix).Some?
    ensures var next := Step(cfg, lib, st, fix).value;
      && next.segment == st.segment + (if AfterPause(cfg, st, fix) then 1 else 0)
      && (if Kept(cfg, lib, st, fix)
          then |next.samples| == |st.samples| + 1 && next.samples == st.samples + [next.samples[|st.samples|]]
               && next.samples[|st.samples|].segment == next.segment
          else next.samples == st.samples)
  {
    hide FiniteCoordinate, StatusOk, Accurate, MessageStamp, TakePoint;
    FiniteHasValuesIf(fix);
    if FiniteCoordinate(fix) {
      var zone := if st.grid.Some? then Some(st.grid.value.zone) else None;
      var utm := lib.toUtm(fix.latitude.value, fix.longitude.value, zone);
      var grid := if st.grid.Some? then st.grid.value else Grid(utm.zone, utm.northern);
      PointMoves(cfg, lib, st.(grid := Some(grid)), fix, utm);
    }
  }

  lemma NoneSkippedExtends(samples: seq<Sample>, s: Sample)
    ensures NoneSkipped(samples + [s]) <==>
      NoneSkipped(samples) && (samples != [] ==> s.segment <= samples[|samples| - 1].segment + 1)
  {
    var all := samples + [s];
    assert forall i :: 0 <= i < |samples| ==> all[i] == samples[i];
    assert samples != [] ==> all[|samples| - 1] == samples[|samples| - 1] && all[|samples|] == s;
  }

  lemma {:induction false} SkippedByPauses(cfg: Config, lib: Library, fixes: seq<Fix>)
    requires Run(cfg, lib, fixes).Some?
    ensures var st := Run(cfg, lib, fixes).value;
      && (if st.samples == [] then st.segment == 0 && DroppedPauses(cfg, lib, fixes) == 0
          else st.segment == st.samples[|st.samples| - 1].segment + DroppedPauses(cfg, lib, fixes))
      && (NoneSkipped(st.samples) <==> AtMostOnePause(cfg, lib, fixes))
  {
    hide Step, NoneSkipped, Kept;
    if fixes == [] {
      NothingSkipped();
    } else {
      var init, fix := fixes[..|fixes| - 1], fixes[|fixes| - 1];
      SkippedByPauses(cfg, lib, init);
      var st, next := Run(cfg, lib, init).value, Run(cfg, lib, fixes).value;
      SegmentMoves(cfg, lib, st, fix);
      if Kept(cfg, lib, st, fix) {
        var s := next.samples[|next.samples| - 1];
        assert next.samples == st.samples + [s];
        NoneSkippedExtends(st.samples, s);
      }
    }
  }

  lemma NothingSkipped()
    ensures NoneSkipped([])
  {
  }

  /** The reported number of segments is the real one exactly when no kept sample had two pauses to get over. */
  lemma SegmentsCountedExactly(cfg: Config, lib: Library, fixes: seq<Fix>)
    requires Run(cfg, lib, fixes).Some? && Run(cfg, lib, fixes).value.samples != []
    ensures var samples := Run(cfg, lib, fixes).value.samples;
      samples[|samples| - 1].segment + 1 == Stretches(samples) <==> AtMostOnePause(cfg, lib, fixes)
  {
    hide Run, Stretches, AtMostOnePause, NoneSkipped, Chain, DroppedPauses;
    RunIsGood(cfg, lib, fixes);
    ReportedVersusStretches(cfg, lib, Run(cfg, lib, fixes).value.samples);
    SkippedByPauses(cfg, lib, fixes);
  }

  /** A usable fix. */
  predicate Passes(cfg: Config, fix: Fix) {
    FiniteCoordinate(fix) && StatusOk(cfg, fix) && Accurate(cfg, fix)
  }

  function Project(lib: Library, fix: Fix, zone: Option<int>): Utm
    requires FiniteCoordinate(fix)
  {
    lib.toUtm(fix.latitude.value, fix.longitude.value, zone)
  }

  lemma StepPasses(cfg: Config, lib: Library, st: State, fix: Fix)
    requires Passes(cfg, fix) && st.grid.Some?
    requires Project(lib, fix, Some(st.grid.value.zone)).northern == st.grid.value.northern
    ensures Step(cfg, lib, st, fix) == Some(TakePoint(cfg, lib, st, fix, Project(lib, fix, Some(st.grid.value.zone))))
  {
    assert st.(grid := Some(st.grid.value)) == st;
  }

  lemma FirstPasses(cfg: Config, lib: Library, fix: Fix)
    requires Passes(cfg, fix)
    ensures var utm := Project(lib, fix, None);
      Step(cfg, lib, EMPTY, fix) ==
      Some(State([SampleOf(fix, utm, 0)], multiset{}, Some(Grid(utm.zone, utm.northern)), 0))
  {
    assert [] + [SampleOf(fix, Project(lib, fix, None), 0)] == [SampleOf(fix, Project(lib, fix, None), 0)];
  }

  /** After a pause a fix opens a segment, whether it is kept or dropped as too close. */
  lemma TakenAfterPause(cfg: Config, lib: Library, st: State, fix: Fix, utm: Utm)
    requires st.samples != [] && cfg.segmentGap >= 0.0
    requires MessageStamp(fix) - st.samples[|st.samples| - 1].stamp > cfg.segmentGap
    ensures var previous := st.samples[|st.samples| - 1];
      var distance := lib.hypot(utm.easting - previous.easting, utm.northing - previous.northing);
      var next := TakePoint(cfg, lib, st, fix, utm);
      && next.segment == st.segment + 1 && next.grid == st.grid
      && next.samples == st.samples + if distance < cfg.minDistance then [] else [SampleOf(fix, utm, st.segment + 1)]
  {
    hide MessageStamp;
    assert st.samples + [] == st.samples;
  }

  lemma RunOfThree(cfg: Config, lib: Library, a: Fix, b: Fix, c: Fix, s1: State, s2: State)
    requires Step(cfg, lib, EMPTY, a) == Some(s1) && Step(cfg, lib, s1, b) == Some(s2)
    ensures Run(cfg, lib, [a, b, c]) == Step(cfg, lib, s2, c)
  {
    hide Step;
    assert [a, b, c][..2] == [a, b] && [a, b][..1] == [a] && [a][..0] == [];
    assert Run(cfg, lib, [a]) == Some(s1);
    assert Run(cfg, lib, [a, b]) == Some(s2);
  }

  /**
   * Numbers can be skipped, whatever the projection: standing still over two pauses, the fix in between is dropped as
   * too close but still opens a segment, so two stretches are reported as three segments.
   */
  lemma SegmentsOvercounted(cfg: Config, lib: Library, a: Fix, b: Fix, c: Fix)
    requires Passes(cfg, a) && Passes(cfg, b) && Passes(cfg, c) && cfg.segmentGap >= 0.0
    requires var ua := Project(lib, a, None);
      var ub, uc := Project(lib, b, Some(ua.zone)), Project(lib, c, Some(ua.zone));
      && ub.northern == ua.northern && uc.northern == ua.northern
      && lib.hypot(ub.easting - ua.easting, ub.northing - ua.northing) < cfg.minDistance
      && cfg.minDistance <= lib.hypot(uc.easting - ua.easting, uc.northing - ua.northing)
    requires MessageStamp(b) - MessageStamp(a) > cfg.segmentGap && MessageStamp(c) - MessageStamp(a) > cfg.segmentGap
    ensures var r := Run(cfg, lib, [a, b, c]);
      && r.Some? && |r.value.samples| == 2 && Stretches(r.value.samples) == 2
      && r.value.samples[1].segment + 1 == 3 && !AtMostOnePause(cfg, lib, [a, b, c])
  {
    hide Step, Run, TakePoint, FiniteCoordinate, StatusOk, Accurate, Project, MessageStamp, Stretches, AtMostOnePause;
    var ua := Project(lib, a, None);
    FirstPasses(cfg, lib, a);
    var s1 := Step(cfg, lib, EMPTY, a).value;
    var ub, uc := Project(lib, b, Some(ua.zone)), Project(lib, c, Some(ua.zone));
    StepPasses(cfg, lib, s1, b);
    TakenAfterPause(cfg, lib, s1, b, ub);
    var s2 := TakePoint(cfg, lib, s1, b, ub);
    StepPasses(cfg, lib, s2, c);
    TakenAfterPause(cfg, lib, s2, c, uc);
    RunOfThree(cfg, lib, a, b, c, s1, s2);
    var first, last := SampleOf(a, ua, 0), SampleOf(c, uc, 2);
    assert s2.samples == [first] && TakePoint(cfg, lib, s2, c, uc).samples == [first, last];
    TwoStretches(first, last);
    SegmentsCountedExactly(cfg, lib, [a, b, c]);
  }

  lemma TwoStretches(a: Sample, b: Sample)
    requires a.segment != b.segment
    ensures Stretches([a, b]) == 2
  {
    assert [a, b][..1] == [a];
  }

  // ---------- which fixes are used, and on which grid ----------

  /** The checks of one fix by itself. */
  lemma PassesExactly(cfg: Config, fix: Fix)
    ensures Passes(cfg, fix) <==>
      && fix.latitude.Some? && -80.0 <= fix.latitude.value <= 84.0
      && fix.longitude.Some? && -180.0 <= fix.longitude.value <= 180.0
      && (cfg.fixedOnly ==> fix.status == 2) && (!cfg.fixedOnly ==> fix.status >= cfg.minStatus)
      && fix.horizontalStddev.Some? && fix.horizontalStddev.value <= cfg.maxHorizontalStddev
  {
  }

  /** A fix that fails them is counted under the first it fails, and changes nothing else. */
  lemma UnusableCounted(cfg: Config, lib: Library, st: State, fix: Fix)
    requires !Passes(cfg, fix)
    ensures exists reason ::
      && Step(cfg, lib, st, fix) == Some(Reject(st, reason))
      && match reason
         case Coordinate => !FiniteCoordinate(fix)
         case Status => FiniteCoordinate(fix) && !StatusOk(cfg, fix)
         case Covariance => FiniteCoordinate(fix) && StatusOk(cfg, fix) && !Accurate(cfg, fix)
         case _ => false
  {
    hide FiniteCoordinate, StatusOk, Accurate;
    var reason := if !FiniteCoordinate(fix) then Coordinate else if !StatusOk(cfg, fix) then Status else Covariance;
    assert Step(cfg, lib, st, fix) == Some(Reject(st, reason));
  }

  /** Why a usable fix is dropped: not later, too fast without a pause, or else too close. */
  lemma DroppedFor(cfg: Config, lib: Library, st: State, fix: Fix, utm: Utm)
    requires st.samples != [] && TakePoint(cfg, lib, st, fix, utm).samples == st.samples
    ensures var s, previous := SampleOf(fix, utm, st.segment), st.samples[|st.samples| - 1];
      var elapsed, distance := s.stamp - previous.stamp, Apart(lib, previous, s);
      exists reason ::
        && TakePoint(cfg, lib, st, fix, utm).rejected == Reject(st, reason).rejected
        && match reason
           case Timestamp => elapsed <= 0.0
           case Speed =>
             0.0 < elapsed <= cfg.segmentGap && cfg.maxSpeed > 0.0 && distance > Times(cfg.maxSpeed, elapsed)
           case Distance => elapsed > 0.0 && distance < cfg.minDistance
           case _ => false
  {
    hide Times;
    var s, previous := SampleOf(fix, utm, st.segment), st.samples[|st.samples| - 1];
    var elapsed, distance := s.stamp - previous.stamp, Apart(lib, previous, s);
    if elapsed > 0.0 { QuotientOrder(distance, elapsed, cfg.maxSpeed); }
    var tooFast := elapsed > 0.0 && elapsed <= cfg.segmentGap && cfg.maxSpeed > 0.0 &&
      distance / elapsed > cfg.maxSpeed;
    var reason := if elapsed <= 0.0 then Timestamp else if tooFast then Speed else Distance;
    AppendedDiffers(st.samples, s);
    assert TakePoint(cfg, lib, st, fix, utm).rejected == Reject(st, reason).rejected;
  }

  lemma AppendedDiffers(samples: seq<Sample>, s: Sample)
    ensures forall t: Sample :: samples + [t] != samples
  {
    forall t: Sample ensures samples + [t] != samples {
      assert |samples + [t]| == |samples| + 1;
    }
  }

  /** The first usable fix of the bag. */
  ghost predicate FirstUsable(cfg: Config, fixes: seq<Fix>, f: nat) {
    f < |fixes| && Passes(cfg, fixes[f]) && forall i :: 0 <= i < f ==> !Passes(cfg, fixes[i])
  }

  /** The fix lies on the other side of the equator from the first usable one, in whose zone it is projected. */
  ghost predicate Crosses(cfg: Config, lib: Library, fixes: seq<Fix>, f: nat, i: nat)
    requires FirstUsable(cfg, fixes, f) && i < |fixes|
  {
    var first := Project(lib, fixes[f], None);
    Passes(cfg, fixes[i]) && Project(lib, fixes[i], Some(first.zone)).northern != first.northern
  }

  /** The run keeps to the grid of fix f, and ends early when a later fix crosses the equator. */
  ghost predicate OnGridOf(cfg: Config, lib: Library, fixes: seq<Fix>, f: nat)
    requires FirstUsable(cfg, fixes, f)
  {
    var first, r := Project(lib, fixes[f], None), Run(cfg, lib, fixes);
    && (r == None <==> exists i: nat :: f < i < |fixes| && Crosses(cfg, lib, fixes, f, i))
    && (r.Some? ==> r.value.grid == Some(Grid(first.zone, first.northern)) && r.value.samples != [])
  }

  lemma {:induction false} UsableOrNot(cfg: Config, fixes: seq<Fix>)
    ensures (forall i :: 0 <= i < |fixes| ==> !Passes(cfg, fixes[i])) || exists f: nat :: FirstUsable(cfg, fixes, f)
  {
    hide Passes;
    if fixes != [] {
      var init := fixes[..|fixes| - 1];
      UsableOrNot(cfg, init);
      if f: nat :| FirstUsable(cfg, init, f) {
        assert FirstUsable(cfg, fixes, f);
      } else if Passes(cfg, fixes[|init|]) {
        assert forall i :: 0 <= i < |init| ==> init[i] == fixes[i];
        assert FirstUsable(cfg, fixes, |init|);
      }
    }
  }

  /**
   * The first usable fix chooses the grid, and all later ones are projected into its zone; the bag is given up exactly
   * when one of those lies across the equator.
   */
  lemma {:induction false} OneGrid(cfg: Config, lib: Library, fixes: seq<Fix>)
    ensures (forall i :: 0 <= i < |fixes| ==> !Passes(cfg, fixes[i])) ==>
      Run(cfg, lib, fixes).Some? && Run(cfg, lib, fixes).value.grid == None && Run(cfg, lib, fixes).value.samples == []
    ensures forall f: nat :: FirstUsable(cfg, fixes, f) ==> OnGridOf(cfg, lib, fixes, f)
  {
    hide Passes, TakePoint, Project;
    if fixes != [] {
      var init, fix := fixes[..|fixes| - 1], fixes[|fixes| - 1];
      OneGrid(cfg, lib, init);
      UsableOrNot(cfg, init);
      if Run(cfg, lib, init).Some? { StepOnGrid(cfg, lib, Run(cfg, lib, init).value, fix); }
      forall f: nat | FirstUsable(cfg, fixes, f) ensures OnGridOf(cfg, lib, fixes, f) {
        if f < |init| {
          assert FirstUsable(cfg, init, f);
          GridStays(cfg, lib, fixes, f);
        }
      }
    }
  }

  lemma GridStays(cfg: Config, lib: Library, fixes: seq<Fix>, f: nat)
    requires fixes != [] && f < |fixes| - 1 && FirstUsable(cfg, fixes, f)
    requires var init := fixes[..|fixes| - 1]; FirstUsable(cfg, init, f) && OnGridOf(cfg, lib, init, f)
    ensures OnGridOf(cfg, lib, fixes, f)
  {
    hide Passes, TakePoint, Project, Step;
    var init, n := fixes[..|fixes| - 1], |fixes| - 1;
    forall i: nat | f < i < n ensures Crosses(cfg, lib, init, f, i) == Crosses(cfg, lib, fixes, f, i) {
    }
    if Run(cfg, lib, init) == None {
      var i: nat :| f < i < n && Crosses(cfg, lib, init, f, i);
      assert Crosses(cfg, lib, fixes, f, i);
    } else {
      StepOnGrid(cfg, lib, Run(cfg, lib, init).value, fixes[n]);
      assert Crosses(cfg, lib, fixes, f, n) <==> Run(cfg, lib, fixes) == None;
    }
  }

  /** One more fix: unusable, the first usable, or projected into the zone of the grid. */
  lemma StepOnGrid(cfg: Config, lib: Library, st: State, fix: Fix)
    requires st.grid == None <==> st.samples == []
    ensures var r := Step(cfg, lib, st, fix);
      if !Passes(cfg, fix) then r.Some? && r.value.grid == st.grid && r.value.samples == st.samples
      else if st.grid == None then
        var utm := Project(lib, fix, None);
        && r.Some? && r.value.grid == Some(Grid(utm.zone, utm.northern))
        && r.value.samples == [SampleOf(fix, utm, st.segment)]
      else
        var utm := Project(lib, fix, Some(st.grid.value.zone));
        && r == (if utm.northern != st.grid.value.northern then None else Some(TakePoint(cfg, lib, st, fix, utm)))
        && (r.Some? ==> r.value.grid == st.grid && r.value.samples != [])
  {
    hide FiniteCoordinate, StatusOk, Accurate;
    if st.grid.Some? { assert st.(grid := Some(st.grid.value)) == st; }
  }

  // ---------- yaws ----------

  /** The sample is at least the window away from the one at index, going back or forward. */
  predicate Far(lib: Library, samples: seq<Sample>, from: nat, to: nat, window: real)
    requires from < |samples| && to < |samples|
  {
    lib.hypot(samples[to].easting - samples[from].easting, samples[to].northing - samples[from].northing) >= window
  }

  /**
   * lower is the nearest sample before index that is far enough, in index's segment, or else the first of that
   * segment.
   */
  ghost predicate LowerEnd(lib: Library, samples: seq<Sample>, index: nat, lower: nat, window: real)
    requires index < |samples|
  {
    && lower <= index
    && (forall k :: lower <= k <= index ==> samples[k].segment == samples[index].segment)
    && (forall k :: lower < k < index ==> !Far(lib, samples, k, index, window))
    && ((lower < index && Far(lib, samples, lower, index, window)) || lower == 0 ||
        samples[lower - 1].segment != samples[index].segment)
  }

  /** The same going forward. */
  ghost predicate UpperEnd(lib: Library, samples: seq<Sample>, index: nat, upper: nat, window: real)
    requires index < |samples|
  {
    && index <= upper < |samples|
    && (forall k :: index <= k <= upper ==> samples[k].segment == samples[index].segment)
    && (forall k :: index < k < upper ==> !Far(lib, samples, index, k, window))
    && ((index < upper && Far(lib, samples, index, upper, window)) || upper == |samples| - 1 ||
        samples[upper + 1].segment != samples[index].segment)
  }

  /** Both ends are determined. */
  lemma WindowUnique(lib: Library, samples: seq<Sample>, index: nat, a: nat, b: nat, window: real)
    requires index < |samples|
    ensures LowerEnd(lib, samples, index, a, window) && LowerEnd(lib, samples, index, b, window) ==> a == b
    ensures UpperEnd(lib, samples, index, a, window) && UpperEnd(lib, samples, index, b, window) ==> a == b
  {
  }

  method YawWindow(lib: Library, samples: seq<Sample>, index: nat, window: real) returns (lower: nat, upper: nat)
    requires index < |samples|
    ensures LowerEnd(lib, samples, index, lower, window) && UpperEnd(lib, samples, index, upper, window)
  {
    var segment := samples[index].segment;
    lower, upper := index, index;
    var found := false;
    while !found && lower > 0 && samples[lower - 1].segment == segment
      invariant lower <= index
      invariant forall k :: lower <= k <= index ==> samples[k].segment == segment
      invariant forall k :: lower < k < index ==> !Far(lib, samples, k, index, window)
      invariant if found then lower < index && Far(lib, samples, lower, index, window)
                else lower < index ==> !Far(lib, samples, lower, index, window)
      decreases !found, lower
    {
      found := Far(lib, samples, lower - 1, index, window);
      lower := lower - 1;
    }
    found := false;
    while !found && upper + 1 < |samples| && samples[upper + 1].segment == segment
      invariant index <= upper < |samples|
      invariant forall k :: index <= k <= upper ==> samples[k].segment == segment
      invariant forall k :: index < k < upper ==> !Far(lib, samples, index, k, window)
      invariant if found then index < upper && Far(lib, samples, index, upper, window)
                else index < upper ==> !Far(lib, samples, index, upper, window)
      decreases !found, |samples| - upper
    {
      found := Far(lib, samples, index, upper + 1, window);
      upper := upper + 1;
    }
  }

  /** The yaw at index: along its window's chord, or the yaw before it (0 at the start) when the chord has no length. */
  ghost predicate YawAt(lib: Library, samples: seq<Sample>, yaws: seq<real>, index: nat, window: real)
    requires index < |samples| && index < |yaws|
  {
    exists lower: nat, upper: nat ::
      && LowerEnd(lib, samples, index, lower, window) && UpperEnd(lib, samples, index, upper, window)
      && yaws[index] == ChordYaw(lib, samples[lower], samples[upper], if index == 0 then 0.0 else yaws[index - 1])
  }

  function ChordYaw(lib: Library, a: Sample, b: Sample, otherwise: real): real {
    var east, north := b.easting - a.easting, b.northing - a.northing;
    if lib.hypot(east, north) > 0.000001 then lib.atan2(north, east) else otherwise
  }

  method PathYaws(lib: Library, samples: seq<Sample>, window: real) returns (yaws: seq<real>)
    ensures |yaws| == |samples|
    ensures forall k :: 0 <= k < |samples| ==> YawAt(lib, samples, yaws, k, window)
  {
    hide LowerEnd, UpperEnd;
    yaws := [];
    var lastYaw := 0.0;
    var index := 0;
    while index < |samples|
      invariant 0 <= index == |yaws| <= |samples|
      invariant lastYaw == if index == 0 then 0.0 else yaws[index - 1]
      invariant forall k :: 0 <= k < index ==> YawAt(lib, samples, yaws, k, window)
    {
      var lower, upper := YawWindow(lib, samples, index, window);
      WindowInside(lib, samples, index, lower, upper, window);
      lastYaw := ChordYaw(lib, samples[lower], samples[upper], lastYaw);
      ghost var before := yaws;
      yaws := yaws + [lastYaw];
      forall k | 0 <= k < index ensures YawAt(lib, samples, yaws, k, window) {
        YawKept(lib, samples, before, lastYaw, k, window);
      }
      index := index + 1;
    }
  }

  /** A window stays inside its sample's segment. */
  lemma WindowInside(lib: Library, samples: seq<Sample>, index: nat, lower: nat, upper: nat, window: real)
    requires index < |samples|
    requires LowerEnd(lib, samples, index, lower, window) && UpperEnd(lib, samples, index, upper, window)
    ensures lower <= index <= upper < |samples|
    ensures forall k :: lower <= k <= upper ==> samples[k].segment == samples[index].segment
  {
  }

  lemma YawKept(lib: Library, samples: seq<Sample>, yaws: seq<real>, next: real, k: nat, window: real)
    requires k < |yaws| < |samples| && YawAt(lib, samples, yaws, k, window)
    ensures YawAt(lib, samples, yaws + [next], k, window)
  {
    hide LowerEnd, UpperEnd;
  }

  /** Every sample farther along one direction than the one before it, all in one segment. */
  ghost predicate Straight(samples: seq<Sample>, along: seq<real>, east: real, north: real) {
    && |along| == |samples|
    && (forall i, j :: 0 <= i < j < |along| ==> along[i] + 0.000001 < along[j])
    && (forall k :: 0 <= k < |samples| ==> samples[k].segment == samples[0].segment)
    && (forall i, j :: 0 <= i < j < |samples| ==>
          samples[j].easting - samples[i].easting == Times(along[j] - along[i], east) &&
          samples[j].northing - samples[i].northing == Times(along[j] - along[i], north))
  }

  /**
   * On a straight track every yaw is the direction it runs in, east being the first axis and north the second: what the
   * library's arc tangent gives for it at any length.
   */
  lemma StraightYaw(lib: Library, samples: seq<Sample>, along: seq<real>, east: real, north: real, yaw: real,
                    yaws: seq<real>, window: real, k: nat)
    requires Straight(samples, along, east, north) && 2 <= |samples| == |yaws| && k < |samples|
    requires forall d: real :: d > 0.0 ==>
      lib.hypot(Times(d, east), Times(d, north)) == d && lib.atan2(Times(d, north), Times(d, east)) == yaw
    requires YawAt(lib, samples, yaws, k, window)
    ensures yaws[k] == yaw
  {
    hide Times, LowerEnd, UpperEnd;
    var lower, upper := WindowOf(lib, samples, yaws, k, window);
    WindowHasLength(lib, samples, k, lower, upper, window);
    var d := along[upper] - along[lower];
    assert d > 0.000001;
  }

  /** Where no two samples are apart the yaw stays as it was, and is 0 at the start. */
  lemma StandingYaw(lib: Library, samples: seq<Sample>, yaws: seq<real>, window: real, k: nat)
    requires k < |samples| && k < |yaws| && YawAt(lib, samples, yaws, k, window)
    requires forall i, j :: 0 <= i < |samples| && 0 <= j < |samples| ==> Apart(lib, samples[i], samples[j]) <= 0.000001
    ensures yaws[k] == if k == 0 then 0.0 else yaws[k - 1]
  {
    hide LowerEnd, UpperEnd;
    var lower, upper := WindowOf(lib, samples, yaws, k, window);
    assert Apart(lib, samples[lower], samples[upper]) <= 0.000001;
  }

  lemma WindowOf(lib: Library, samples: seq<Sample>, yaws: seq<real>, k: nat, window: real)
      returns (lower: nat, upper: nat)
    requires k < |samples| && k < |yaws| && YawAt(lib, samples, yaws, k, window)
    ensures LowerEnd(lib, samples, k, lower, window) && UpperEnd(lib, samples, k, upper, window)
    ensures lower < |samples| && upper < |samples| &&
      yaws[k] == ChordYaw(lib, samples[lower], samples[upper], if k == 0 then 0.0 else yaws[k - 1])
  {
    lower, upper :|
      && LowerEnd(lib, samples, k, lower, window) && UpperEnd(lib, samples, k, upper, window)
      && yaws[k] == ChordYaw(lib, samples[lower], samples[upper], if k == 0 then 0.0 else yaws[k - 1]);
  }

  lemma WindowHasLength(lib: Library, samples: seq<Sample>, index: nat, lower: nat, upper: nat, window: real)
    requires 2 <= |samples| && index < |samples|
    requires forall k :: 0 <= k < |samples| ==> samples[k].segment == samples[0].segment
    requires LowerEnd(lib, samples, index, lower, window) && UpperEnd(lib, samples, index, upper, window)
    ensures lower < upper < |samples|
  {
  }
}
