/** The serial bridge's encoder over a run of lines: what the published speeds add up to. */
module SerialDistances {
  import opened Options
  import opened RealProducts
  import opened SerialBridge

  /** A line that is no reading leaves the encoder as it was; so does one on which an exception escapes. */
  lemma MalformedIgnored(cfg: Config, floatOf: FloatOf, e: Encoder, raw: string)
    ensures !EncoderLine(raw) || !Read(floatOf, raw).Reading? ==> Handle(cfg, floatOf, e, raw).0 == e
    ensures Handle(cfg, floatOf, e, raw).1 ==> Handle(cfg, floatOf, e, raw).0 == e
  {
    hide Read, EncoderLine;
  }

  /** Distance travelled over all published steps, as their speeds say. */
  function Travelled(published: seq<Published>): real {
    if published == [] then 0.0
    else
      var p := published[|published| - 1];
      Travelled(published[..|published| - 1]) + if p.dt.Finite? then Times(p.speed, p.dt.value) else 0.0
  }

  /** Distance covered in steps of infinite time, whose speed is 0: what the speeds do not tell. */
  function Missed(cfg: Config, published: seq<Published>): real {
    if published == [] then 0.0
    else
      var p := published[|published| - 1];
      Missed(cfg, published[..|published| - 1]) +
      if p.dt.Finite? then 0.0 else Times(p.delta as real, cfg.metersPerPulse)
  }

  /** No line carries its own count difference. */
  predicate OnlyTotals(floatOf: FloatOf, texts: seq<string>) {
    forall t :: t in texts && EncoderLine(t) && Read(floatOf, t).Reading? ==> Read(floatOf, t).delta == None
  }

  /** Every reading's time is a finite number. */
  predicate FiniteTimes(floatOf: FloatOf, texts: seq<string>) {
    forall t :: t in texts && EncoderLine(t) && Read(floatOf, t).Reading? ==> Read(floatOf, t).elapsed.Finite?
  }

  /**
   * The last count remembered is the one published last, and the steps add up to the distance covered but for the
   * missed.
   */
  ghost predicate Telescoped(cfg: Config, e: Encoder) {
    if e.published == [] then e.lastCount == None
    else
      var last := e.published[|e.published| - 1];
      && e.lastCount.Some? && last.distance == Times(e.lastCount.value as real, cfg.metersPerPulse)
      && Travelled(e.published) + Missed(cfg, e.published) == last.distance - e.published[0].distance
  }

  lemma StepCovers(cfg: Config, delta: int, dt: Float)
    requires dt.Finite? && dt.value != 0.0
    ensures Times(SpeedOf(cfg, delta, dt), dt.value) == Times(delta as real, cfg.metersPerPulse)
  {
    hide Times;
    if dt.value > 0.0 {
      TimesQuotient(Times(delta as real, cfg.metersPerPulse), dt.value);
    } else {
      NegativeQuotient(Times(delta as real, cfg.metersPerPulse), dt.value);
    }
  }

  lemma ApplyTelescopes(cfg: Config, e: Encoder, r: Reading)
    requires r.Reading? && r.delta == None && Telescoped(cfg, e)
    ensures Telescoped(cfg, Apply(cfg, e, r))
  {
    hide Times, Plus, Negated, Thousandth, SpeedOf, DtOf;
    var dt := DtOf(cfg, e, r);
    if dt != Finite(0.0) {
      var delta := DeltaOf(e, r);
      var p := Published(Times(r.total as real, cfg.metersPerPulse), SpeedOf(cfg, delta, dt), dt, delta);
      SumsExtend(cfg, e.published, p);
      if dt.Finite? { StepCovers(cfg, delta, dt); }
      if e.published == [] {
        TimesAdds(0.0, 0.0, cfg.metersPerPulse);
        assert Travelled([]) == 0.0 && Missed(cfg, []) == 0.0;
      } else {
        assert r.total as real == e.lastCount.value as real + delta as real;
        TimesAdds(e.lastCount.value as real, delta as real, cfg.metersPerPulse);
        assert (e.published + [p])[0] == e.published[0];
      }
    }
  }

  lemma SumsExtend(cfg: Config, published: seq<Published>, p: Published)
    ensures Travelled(published + [p]) ==
            Travelled(published) + if p.dt.Finite? then Times(p.speed, p.dt.value) else 0.0
    ensures Missed(cfg, published + [p]) ==
            Missed(cfg, published) + if p.dt.Finite? then 0.0 else Times(p.delta as real, cfg.metersPerPulse)
  {
    assert (published + [p])[..|published|] == published;
  }

  /** The remembered time is finite and no distance was missed. */
  ghost predicate TimesFinite(cfg: Config, e: Encoder) {
    (e.lastElapsed.Some? ==> e.lastElapsed.value.Finite?) && Missed(cfg, e.published) == 0.0
  }

  lemma TotalsHaveNoStep(floatOf: FloatOf, raw: string)
    ensures Read(floatOf, raw).Reading? && Read(floatOf, raw).delta == None ==> Read(floatOf, raw).sampleDt == None
  {
    hide Split, WholeOf;
  }

  lemma ApplyKeepsFinite(cfg: Config, e: Encoder, r: Reading)
    requires r.Reading? && r.sampleDt == None && r.elapsed.Finite? && TimesFinite(cfg, e)
    ensures TimesFinite(cfg, Apply(cfg, e, r))
  {
    hide Times, SpeedOf;
    var dt := DtOf(cfg, e, r);
    if dt != Finite(0.0) {
      var delta := DeltaOf(e, r);
      var distance := Times(r.total as real, cfg.metersPerPulse);
      SumsExtend(cfg, e.published, Published(distance, SpeedOf(cfg, delta, dt), dt, delta));
    }
  }

  /**
   * For lines that give total counts, mixed with any that are malformed or not for the encoder: speed times time
   * step, over all steps, is the last distance less the first, less what was covered in steps of infinite time; with
   * finite times on the lines there are none.
   */
  lemma {:induction false} DistancesTelescope(cfg: Config, floatOf: FloatOf, texts: seq<string>)
    requires OnlyTotals(floatOf, texts)
    ensures Telescoped(cfg, HandleAll(cfg, floatOf, texts))
    ensures FiniteTimes(floatOf, texts) ==>
      var published := HandleAll(cfg, floatOf, texts).published;
      && Missed(cfg, published) == 0.0
      && (published != [] ==> Travelled(published) == published[|published| - 1].distance - published[0].distance)
  {
    hide Telescoped, Read, EncoderLine, HandleAll, Missed;
    TotalsTelescope(cfg, floatOf, texts);
    if HandleAll(cfg, floatOf, texts).published != [] { TelescopedIs(cfg, HandleAll(cfg, floatOf, texts)); }
    if FiniteTimes(floatOf, texts) { FiniteTimesKept(cfg, floatOf, texts); }
  }

  lemma TelescopedIs(cfg: Config, e: Encoder)
    requires Telescoped(cfg, e) && e.published != []
    ensures Travelled(e.published) + Missed(cfg, e.published) ==
            e.published[|e.published| - 1].distance - e.published[0].distance
  {
  }

  lemma {:induction false} TotalsTelescope(cfg: Config, floatOf: FloatOf, texts: seq<string>)
    requires OnlyTotals(floatOf, texts)
    ensures Telescoped(cfg, HandleAll(cfg, floatOf, texts))
    decreases |texts|
  {
    hide Telescoped, Read, EncoderLine, Apply, Raises;
    if texts == [] {
      FreshTelescoped(cfg);
    } else {
      var init, text := texts[..|texts| - 1], texts[|texts| - 1];
      assert forall t :: t in init ==> t in texts;
      assert text in texts;
      TotalsTelescope(cfg, floatOf, init);
      var e := HandleAll(cfg, floatOf, init);
      var r := Read(floatOf, text);
      if EncoderLine(text) && r.Reading? { ApplyTelescopes(cfg, e, r); }
    }
  }

  lemma {:induction false} FiniteTimesKept(cfg: Config, floatOf: FloatOf, texts: seq<string>)
    requires OnlyTotals(floatOf, texts) && FiniteTimes(floatOf, texts)
    ensures TimesFinite(cfg, HandleAll(cfg, floatOf, texts))
    decreases |texts|
  {
    hide Read, EncoderLine, Apply, Raises;
    if texts != [] {
      var init, text := texts[..|texts| - 1], texts[|texts| - 1];
      assert forall t :: t in init ==> t in texts;
      assert text in texts;
      FiniteTimesKept(cfg, floatOf, init);
      var r := Read(floatOf, text);
      TotalsHaveNoStep(floatOf, text);
      if EncoderLine(text) && r.Reading? { ApplyKeepsFinite(cfg, HandleAll(cfg, floatOf, init), r); }
    }
  }

  lemma FreshTelescoped(cfg: Config)
    ensures Telescoped(cfg, FRESH)
  {
  }

  /**
   * What an infinite time does: a total-count line has a step of infinite time exactly when its time is plus infinity
   * after one that was not, or anything but minus infinity after minus infinity. Its speed is 0, so the distance
   * covered in it is missing from the sum.
   */
  lemma InfiniteTimeMisses(cfg: Config, e: Encoder, r: Reading)
    requires r.Reading? && r.delta == None && r.sampleDt == None
    ensures DtOf(cfg, e, r) == PlusInfinity <==>
      e.lastElapsed.Some? && r.elapsed != NotANumber && e.lastElapsed.value != NotANumber &&
      ((r.elapsed == PlusInfinity && e.lastElapsed.value != PlusInfinity) ||
       (r.elapsed != MinusInfinity && e.lastElapsed.value == MinusInfinity))
    ensures DtOf(cfg, e, r).Finite? || DtOf(cfg, e, r) == PlusInfinity
    ensures DtOf(cfg, e, r) == PlusInfinity ==>
      var next := Apply(cfg, e, r);
      && Travelled(next.published) == Travelled(e.published)
      && Missed(cfg, next.published) == Missed(cfg, e.published) + Times(DeltaOf(e, r) as real, cfg.metersPerPulse)
  {
    hide Times;
    var dt := DtOf(cfg, e, r);
    if dt == PlusInfinity {
      var delta := DeltaOf(e, r);
      var distance := Times(r.total as real, cfg.metersPerPulse);
      SumsExtend(cfg, e.published, Published(distance, SpeedOf(cfg, delta, dt), dt, delta));
    }
  }

  // ---------- the speed between two lines ----------

  lemma {:induction false} Marked(time: string, after: string)
    ensures HasEncoderMark(time + ",ENC," + after)
    decreases |time|
  {
    var s := time + ",ENC," + after;
    if time == "" {
      assert ",ENC," <= s;
    } else {
      assert s[1..] == time[1..] + ",ENC," + after;
      Marked(time[1..], after);
    }
  }

  /** A total-count line as it is sent. */
  function TotalLine(time: string, count: string): string {
    CommaJoined([time, "ENC", count])
  }

  /** It is recognised and read field by field. */
  lemma TotalLineRead(floatOf: FloatOf, time: string, count: string, elapsed: real, total: int)
    requires floatOf(time) == Some(Finite(elapsed)) && ',' !in time && time != "ENC" &&
      WritesCount(floatOf, count, total)
    ensures EncoderLine(TotalLine(time, count))
    ensures Read(floatOf, TotalLine(time, count)) == Reading(Finite(elapsed), total, None, None)
  {
    hide Split, HasEncoderMark;
    var parts := [time, "ENC", count];
    assert ',' !in "ENC";
    SplitJoined(parts);
    assert parts[1..] == ["ENC", count] && parts[1..][1..] == [count] && CommaJoined([count]) == count;
    assert TotalLine(time, count) == time + ",ENC," + count;
    Marked(time, count);
  }

  /**
   * Two total-count lines in a row, after whatever lines: the second is published with its distance, the step between
   * the two counts, and the time between the two lines in seconds, or the poll period where that is not positive; its
   * speed is the distance of the step over that time.
   */
  lemma SpeedBetweenLines(cfg: Config, floatOf: FloatOf, texts: seq<string>, time: string, count: string, time': string,
                          count': string, elapsed: real, total: int, elapsed': real, total': int)
    requires cfg.pollPeriod > 0.0
    requires floatOf(time) == Some(Finite(elapsed)) && ',' !in time && time != "ENC" &&
      WritesCount(floatOf, count, total)
    requires floatOf(time') == Some(Finite(elapsed')) && ',' !in time' && time' != "ENC" &&
      WritesCount(floatOf, count', total')
    ensures var before := HandleAll(cfg, floatOf, texts + [TotalLine(time, count)]);
      var after := HandleAll(cfg, floatOf, texts + [TotalLine(time, count), TotalLine(time', count')]);
      var dt := if elapsed' > elapsed then (elapsed' - elapsed) / 1000.0 else cfg.pollPeriod;
      exists p :: after.published == before.published + [p]
        && p.distance == Times(total' as real, cfg.metersPerPulse) && p.delta == total' - total
        && p.dt == Finite(dt) && Times(p.speed, dt) == Times((total' - total) as real, cfg.metersPerPulse)
  {
    hide Split, Times, TotalLine, EncoderLine, Read;
    var one, two := TotalLine(time, count), TotalLine(time', count');
    TotalLineRead(floatOf, time, count, elapsed, total);
    TotalLineRead(floatOf, time', count', elapsed', total');
    assert (texts + [one])[..|texts|] == texts && (texts + [one, two])[..|texts| + 1] == texts + [one];
    var e := HandleAll(cfg, floatOf, texts);
    ReadingRemembered(cfg, e, Reading(Finite(elapsed), total, None, None));
    var before := HandleAll(cfg, floatOf, texts + [one]);
    assert before.lastElapsed == Some(Finite(elapsed)) && before.lastCount == Some(total);
    var dt := if elapsed' > elapsed then (elapsed' - elapsed) / 1000.0 else cfg.pollPeriod;
    var step := Times((total' - total) as real, cfg.metersPerPulse);
    TimesQuotient(step, dt);
    var p := Published(Times(total' as real, cfg.metersPerPulse), step / dt, Finite(dt), total' - total);
    assert HandleAll(cfg, floatOf, texts + [one, two]).published == before.published + [p];
  }

  /** A reading handled without an exception is remembered. */
  lemma ReadingRemembered(cfg: Config, e: Encoder, r: Reading)
    requires r.Reading? && !Raises(cfg, e, r)
    ensures Apply(cfg, e, r).lastElapsed == Some(r.elapsed) && Apply(cfg, e, r).lastCount == Some(r.total)
  {
    hide Times;
  }

  /** Without a line before it a total-count line is published at rest; a line with its own step uses that. */
  lemma StepTimes(cfg: Config, e: Encoder, r: Reading)
    requires r.Reading? && cfg.pollPeriod > 0.0
    ensures e == FRESH && r.delta == None && r.sampleDt == None ==>
      exists p :: Apply(cfg, e, r).published == [p] && p.delta == 0 && p.speed == 0.0 && p.dt == Finite(cfg.pollPeriod)
    ensures r.delta.Some? && r.sampleDt.Some? && r.sampleDt.value.Finite? ==>
      exists p :: Apply(cfg, e, r).published == e.published + [p] && p.delta == r.delta.value
        && p.dt == (if r.sampleDt.value.value > 0.0 then r.sampleDt.value else Finite(cfg.pollPeriod))
        && Times(p.speed, p.dt.value) == Times(r.delta.value as real, cfg.metersPerPulse)
  {
    hide Times;
    TimesAdds(0.0, 0.0, cfg.metersPerPulse);
    var dt := DtOf(cfg, e, r);
    var p := Published(Times(r.total as real, cfg.metersPerPulse), SpeedOf(cfg, DeltaOf(e, r), dt), dt, DeltaOf(e, r));
    assert dt != Finite(0.0) && Apply(cfg, e, r).published == e.published + [p];
    if dt.Finite? { TimesQuotient(Times(p.delta as real, cfg.metersPerPulse), dt.value); }
  }

  // ---------- which lines are readings ----------

  /** The text is a number with a whole part n, cut towards zero. */
  predicate HasWhole(floatOf: FloatOf, text: string, n: int) {
    match floatOf(text)
    case Some(Finite(x)) => if x >= 0.0 then n as real <= x < n as real + 1.0
      else n as real - 1.0 < x <= n as real <= 0.0
    case _ => false
  }

  lemma WholeExactly(floatOf: FloatOf, text: string, n: int)
    ensures WholeOf(floatOf, text) == Count(n) <==> HasWhole(floatOf, text, n)
    ensures WholeOf(floatOf, text) == Overflow <==>
      floatOf(text) == Some(PlusInfinity) || floatOf(text) == Some(MinusInfinity)
  {
  }

  /**
   * A line is a reading exactly when its fields, cut at commas, are those of one of the two formats and its numbers can
   * be read; it then has the numbers of those fields.
   */
  lemma ReadingExactly(floatOf: FloatOf, parts: seq<string>, elapsed: Float, total: int, delta: Option<int>,
                       sampleDt: Option<Float>)
    requires parts != [] && forall p :: p in parts ==> ',' !in p
    ensures Read(floatOf, CommaJoined(parts)) == Reading(elapsed, total, delta, sampleDt) <==>
      if parts[0] == "ENC" then
        && |parts| >= 4 && floatOf(parts[1]) == Some(elapsed) && HasWhole(floatOf, parts[2], total)
        && delta.Some? && HasWhole(floatOf, parts[3], delta.value)
        && (if |parts| == 4 then sampleDt == None
            else floatOf(parts[4]).Some? && sampleDt == Some(Thousandth(floatOf(parts[4]).value)))
      else
        && |parts| >= 3 && parts[1] == "ENC" && floatOf(parts[0]) == Some(elapsed)
        && HasWhole(floatOf, parts[2], total) && delta == None && sampleDt == None
  {
    hide Split, CommaJoined, HasWhole, ReadDelta, ReadTotal, Thousandth;
    SplitJoined(parts);
    if parts[0] == "ENC" && |parts| >= 4 {
      DeltaExactly(floatOf, parts, elapsed, total, delta, sampleDt);
    } else if parts[0] != "ENC" && |parts| >= 3 && parts[1] == "ENC" {
      TotalExactly(floatOf, parts, elapsed, total, delta, sampleDt);
    }
  }

  lemma DeltaExactly(floatOf: FloatOf, parts: seq<string>, elapsed: Float, total: int, delta: Option<int>,
                     sampleDt: Option<Float>)
    requires |parts| >= 4
    ensures ReadDelta(floatOf, parts) == Reading(elapsed, total, delta, sampleDt) <==>
      && floatOf(parts[1]) == Some(elapsed) && HasWhole(floatOf, parts[2], total)
      && delta.Some? && HasWhole(floatOf, parts[3], delta.value)
      && (if |parts| == 4 then sampleDt == None
          else floatOf(parts[4]).Some? && sampleDt == Some(Thousandth(floatOf(parts[4]).value)))
  {
    hide HasWhole, WholeOf, Thousandth;
    WholeExactly(floatOf, parts[2], total);
    if delta.Some? { WholeExactly(floatOf, parts[3], delta.value); }
  }

  lemma TotalExactly(floatOf: FloatOf, parts: seq<string>, elapsed: Float, total: int, delta: Option<int>,
                     sampleDt: Option<Float>)
    requires |parts| >= 3
    ensures ReadTotal(floatOf, parts) == Reading(elapsed, total, delta, sampleDt) <==>
      && floatOf(parts[0]) == Some(elapsed) && HasWhole(floatOf, parts[2], total) && delta == None && sampleDt == None
  {
    hide HasWhole, WholeOf;
    WholeExactly(floatOf, parts[2], total);
  }

  /** A line with the time first needs the mark inside, one with counts of its own begins with it. */
  lemma EncoderLinesMarked(before: string, after: string)
    ensures EncoderLine("ENC," + after) && EncoderLine(before + ",ENC," + after)
  {
    Marked(before, after);
  }

  /** And without either it is no encoder line. */
  lemma {:induction false} UnmarkedIsOther(raw: string)
    ensures HasEncoderMark(raw) ==> exists k :: 0 <= k <= |raw| && ",ENC," <= raw[k..]
    decreases |raw|
  {
    if raw != "" && !(",ENC," <= raw) && HasEncoderMark(raw) {
      UnmarkedIsOther(raw[1..]);
      var k :| 0 <= k <= |raw[1..]| && ",ENC," <= raw[1..][k..];
      assert raw[1..][k..] == raw[k + 1..];
    } else if HasEncoderMark(raw) {
      assert raw[0..] == raw;
    }
  }

  // ---------- lines as text ----------

  /** Carriage returns and bytes outside ASCII leave no trace in a line. */
  lemma {:induction false} DroppedBytes(a: seq<Byte>, b: Byte, c: seq<Byte>)
    requires b == 13 || b >= 128
    ensures Decode(a + [b] + c) == Decode(a + c)
    decreases |a|
  {
    if a == [] {
      assert (a + [b] + c)[1..] == a + c;
    } else {
      assert (a + [b] + c)[1..] == a[1..] + [b] + c && (a + c)[1..] == a[1..] + c;
      DroppedBytes(a[1..], b, c);
    }
  }

  predicate Blanks(s: string) {
    forall c :: c in s ==> c == ' ' || '\t' <= c <= '\r' || 28 as char <= c <= 31 as char
  }

  lemma {:induction false} LeftStripped(a: string, s: string)
    requires Blanks(a) && (s == "" || !Blank(s[0]))
    ensures StripLeft(a + s) == s
    decreases |a|
  {
    if a == "" {
      assert a + s == s;
    } else {
      assert a[0] in a && (a + s)[1..] == a[1..] + s;
      assert forall c :: c in a[1..] ==> c in a;
      LeftStripped(a[1..], s);
    }
  }

  lemma {:induction false} RightStripped(s: string, b: string)
    requires Blanks(b) && (s == "" || !Blank(s[|s| - 1]))
    ensures StripRight(s + b) == s
    decreases |b|
  {
    if b == "" {
      assert s + b == s;
    } else {
      var n := |b| - 1;
      assert b[n] in b && (s + b)[..|s + b| - 1] == s + b[..n];
      assert forall c :: c in b[..n] ==> c in b;
      RightStripped(s, b[..n]);
    }
  }

  /** White space around the text of a line goes, and nothing else; of white space alone nothing is left. */
  lemma Stripped(line: seq<Byte>, a: string, text: string, b: string)
    requires Decode(line) == a + (text + b)
    requires Blanks(a) && Blanks(b) && (text == "" ==> a == "")
    requires text != "" ==> !Blank(text[0]) && !Blank(text[|text| - 1])
    ensures Clean(line) == text
  {
    if text == "" {
      assert a + (text + b) == b;
      assert b + "" == b;
      LeftStripped(b, "");
    } else {
      LeftStripped(a, text + b);
      RightStripped(text, b);
    }
  }
}
