/** The serial bridge's receiving side: bytes to lines, and encoder lines to distances and speeds. */
module SerialBridge {
  import opened Options
  import opened RealProducts

  type Byte = b: int | 0 <= b < 256

  const NEWLINE: Byte := 10
  const RETURN: Byte := 13

  // ---------- framing ----------

  /** Where the first newline is, or the length. */
  function FirstNewline(s: seq<Byte>): (n: nat)
    ensures n <= |s|
  {
    if s == [] || s[0] == NEWLINE then 0 else 1 + FirstNewline(s[1..])
  }

  lemma {:induction false} FirstNewlineCuts(s: seq<Byte>)
    ensures var n := FirstNewline(s);
      && NEWLINE !in s[..n]
      && (n < |s| ==> s[n] == NEWLINE)
      && (n == |s| ==> NEWLINE !in s)
    decreases |s|
  {
    if s != [] && s[0] != NEWLINE {
      FirstNewlineCuts(s[1..]);
      var n := FirstNewline(s);
      assert s[..n] == [s[0]] + s[1..][..n - 1];
      assert s[n..] == s[1..][n - 1..];
      assert s == [s[0]] + s[1..];
    }
  }

  /** The newline-terminated lines of a stream, without their newlines. */
  function Complete(s: seq<Byte>): seq<seq<Byte>>
    decreases |s|
  {
    var n := FirstNewline(s);
    if n == |s| then [] else [s[..n]] + Complete(s[n + 1..])
  }

  /** What follows the last newline. */
  function Rest(s: seq<Byte>): seq<Byte>
    decreases |s|
  {
    var n := FirstNewline(s);
    if n == |s| then s else Rest(s[n + 1..])
  }

  function Joined(lines: seq<seq<Byte>>): seq<Byte> {
    if lines == [] then [] else lines[0] + [NEWLINE] + Joined(lines[1..])
  }

  predicate NoneHasNewline(lines: seq<seq<Byte>>) {
    forall line :: line in lines ==> NEWLINE !in line
  }

  lemma {:induction false} FirstNewlineIs(line: seq<Byte>, after: seq<Byte>)
    requires NEWLINE !in line
    ensures FirstNewline(line + [NEWLINE] + after) == |line|
    decreases |line|
  {
    var s := line + [NEWLINE] + after;
    if line != [] {
      assert s[0] == line[0] && line[0] in line;
      assert s[1..] == line[1..] + [NEWLINE] + after;
      FirstNewlineIs(line[1..], after);
    }
  }

  lemma TakeLine(line: seq<Byte>, after: seq<Byte>)
    requires NEWLINE !in line
    ensures Complete(line + [NEWLINE] + after) == [line] + Complete(after)
    ensures Rest(line + [NEWLINE] + after) == Rest(after)
  {
    hide FirstNewline;
    var s := line + [NEWLINE] + after;
    FirstNewlineIs(line, after);
    assert s[..|line|] == line && s[|line| + 1..] == after;
  }

  lemma NoNewlineIsRest(s: seq<Byte>)
    requires NEWLINE !in s
    ensures Rest(s) == s && Complete(s) == []
  {
    FirstNewlineCuts(s);
  }

  /** A stream is a line, a newline and a shorter stream, unless it has no newline at all. */
  lemma CutFirst(s: seq<Byte>) returns (line: seq<Byte>, after: seq<Byte>)
    ensures NEWLINE !in line
    ensures NEWLINE in s ==>
      s == line + [NEWLINE] + after && line == s[..FirstNewline(s)] && after == s[FirstNewline(s) + 1..]
    ensures NEWLINE in s <==> FirstNewline(s) < |s|
  {
    FirstNewlineCuts(s);
    var n := FirstNewline(s);
    line, after := [], [];
    if n < |s| {
      line, after := s[..n], s[n + 1..];
      assert s == line + [NEWLINE] + after;
    }
  }

  lemma JoinedFirst(line: seq<Byte>, others: seq<seq<Byte>>, rest: seq<Byte>)
    ensures Joined([line] + others) + rest == line + [NEWLINE] + (Joined(others) + rest)
  {
    assert ([line] + others)[1..] == others;
  }

  /** Cutting a stream into lines and rest loses nothing. */
  lemma {:induction false} LinesJoin(s: seq<Byte>)
    ensures Joined(Complete(s)) + Rest(s) == s && NoneHasNewline(Complete(s)) && NEWLINE !in Rest(s)
    decreases |s|
  {
    hide FirstNewline, Complete, Rest, Joined;
    var line, after := CutFirst(s);
    if NEWLINE in s {
      LinesJoin(after);
      TakeLine(line, after);
      JoinedFirst(line, Complete(after), Rest(after));
    } else {
      NoNewlineIsRest(s);
      JoinedNothing(s);
    }
  }

  lemma JoinedNothing(rest: seq<Byte>)
    ensures Joined([]) + rest == rest
  {
  }

  /** And joining lines and a rest without newlines of their own is undone by it: the cut is the only one. */
  lemma {:induction false} LinesUnique(lines: seq<seq<Byte>>, rest: seq<Byte>)
    requires NoneHasNewline(lines) && NEWLINE !in rest
    ensures Complete(Joined(lines) + rest) == lines && Rest(Joined(lines) + rest) == rest
    decreases |lines|
  {
    hide FirstNewline, Complete, Rest, Joined;
    if lines == [] {
      JoinedNothing(rest);
      NoNewlineIsRest(rest);
    } else {
      var line, others := lines[0], lines[1..];
      assert lines == [line] + others;
      assert line in lines && forall l :: l in others ==> l in lines;
      LinesUnique(others, rest);
      JoinedFirst(line, others, rest);
      TakeLine(line, Joined(others) + rest);
    }
  }

  /** Reading on from a buffer that holds the unfinished rest is reading on from the whole stream. */
  lemma {:induction false} CompleteAppend(a: seq<Byte>, b: seq<Byte>)
    ensures Complete(a + b) == Complete(a) + Complete(Rest(a) + b) && Rest(a + b) == Rest(Rest(a) + b)
    decreases |a|
  {
    hide FirstNewline, Complete, Rest;
    var line, after := CutFirst(a);
    if NEWLINE in a {
      assert a + b == line + [NEWLINE] + (after + b);
      TakeLine(line, after);
      TakeLine(line, after + b);
      CompleteAppend(after, b);
      assert [line] + (Complete(after) + Complete(Rest(after) + b)) ==
        ([line] + Complete(after)) + Complete(Rest(after) + b);
    } else {
      NoNewlineIsRest(a);
      assert [] + Complete(a + b) == Complete(a + b);
    }
  }

  // ---------- lines as text ----------

  /** White space as strip() sees it among ASCII characters. */
  predicate Blank(c: char) {
    c == ' ' || '\t' <= c <= '\r' || 28 as char <= c <= 31 as char
  }

  /** Carriage returns and bytes outside ASCII are dropped. */
  function Decode(line: seq<Byte>): string {
    if line == [] then ""
    else (if line[0] == RETURN || line[0] >= 128 then "" else [line[0] as char]) + Decode(line[1..])
  }

  function StripLeft(s: string): string {
    if s != "" && Blank(s[0]) then StripLeft(s[1..]) else s
  }

  function StripRight(s: string): string {
    if s != "" && Blank(s[|s| - 1]) then StripRight(s[..|s| - 1]) else s
  }

  function Clean(line: seq<Byte>): string {
    StripRight(StripLeft(Decode(line)))
  }

  /** The lines cleaned, blank ones dropped. */
  function Texts(lines: seq<seq<Byte>>): seq<string> {
    if lines == [] then []
    else (if Clean(lines[0]) == "" then [] else [Clean(lines[0])]) + Texts(lines[1..])
  }

  lemma {:induction false} TextsAppend(a: seq<seq<Byte>>, b: seq<seq<Byte>>)
    ensures Texts(a + b) == Texts(a) + Texts(b)
    decreases |a|
  {
    hide Clean;
    if a == [] {
      assert a + b == b;
    } else {
      assert (a + b)[1..] == a[1..] + b;
      TextsAppend(a[1..], b);
    }
  }

  // ---------- encoder lines ----------

  datatype Config = Config(metersPerPulse: real, pollPeriod: real)

  datatype Float = Finite(value: real) | PlusInfinity | MinusInfinity | NotANumber

  /** float(text); None when the text is no number. Nothing is assumed of it. */
  type FloatOf = string -> Option<Float>

  function Negated(a: Float): Float {
    match a
    case Finite(x) => Finite(-x)
    case PlusInfinity => MinusInfinity
    case MinusInfinity => PlusInfinity
    case NotANumber => NotANumber
  }

  function Plus(a: Float, b: Float): Float {
    if a.Finite? && b.Finite? then Finite(a.value + b.value)
    else if a.Finite? then b
    else if b.Finite? || a == b then a
    else NotANumber
  }

  function Thousandth(a: Float): Float {
    if a.Finite? then Finite(a.value / 1000.0) else a
  }

  predicate Positive(a: Float) {
    a == PlusInfinity || (a.Finite? && a.value > 0.0)
  }

  /** int(float(text)): towards zero; an infinite value escapes as an exception the line handler does not catch. */
  datatype Whole = Count(n: int) | BadText | Overflow

  function WholeOf(floatOf: FloatOf, text: string): Whole {
    match floatOf(text)
    case Some(Finite(x)) => Count(if x >= 0.0 then x.Floor else -((-x).Floor))
    case Some(PlusInfinity) => Overflow
    case Some(MinusInfinity) => Overflow
    case _ => BadText
  }

  function Split(s: string): (parts: seq<string>)
    ensures parts != []
  {
    if s == "" then [""]
    else if s[0] == ',' then [""] + Split(s[1..])
    else
      var parts := Split(s[1..]);
      [[s[0]] + parts[0]] + parts[1..]
  }

  /** delta and sampleDt as the line gives them; None for the second format, which has neither. */
  datatype Reading = Reading(elapsed: Float, total: int, delta: Option<int>, sampleDt: Option<Float>) | Skip | Raise

  function ReadDelta(floatOf: FloatOf, parts: seq<string>): Reading
    requires |parts| >= 4
  {
    var elapsed := floatOf(parts[1]);
    if elapsed == None then Skip
    else
      match WholeOf(floatOf, parts[2])
      case BadText => Skip
      case Overflow => Raise
      case Count(total) =>
        match WholeOf(floatOf, parts[3])
        case BadText => Skip
        case Overflow => Raise
        case Count(delta) =>
          if |parts| < 5 then Reading(elapsed.value, total, Some(delta), None)
          else if floatOf(parts[4]) == None then Skip
          else Reading(elapsed.value, total, Some(delta), Some(Thousandth(floatOf(parts[4]).value)))
  }

  function ReadTotal(floatOf: FloatOf, parts: seq<string>): Reading
    requires |parts| >= 3
  {
    var elapsed := floatOf(parts[0]);
    if elapsed == None then Skip
    else
      match WholeOf(floatOf, parts[2])
      case BadText => Skip
      case Overflow => Raise
      case Count(total) => Reading(elapsed.value, total, None, None)
  }

  /** "ENC,elapsed,count,delta[,dt]" or "elapsed,ENC,count,...". */
  function Read(floatOf: FloatOf, raw: string): Reading {
    var parts := Split(raw);
    if parts[0] == "ENC" then (if |parts| < 4 then Skip else ReadDelta(floatOf, parts))
    else if |parts| >= 3 && parts[1] == "ENC" then ReadTotal(floatOf, parts)
    else Skip
  }

  datatype Published = Published(distance: real, speed: real, dt: Float, delta: int)

  function CommaJoined(parts: seq<string>): string
    requires parts != []
  {
    if |parts| == 1 then parts[0] else parts[0] + "," + CommaJoined(parts[1..])
  }

  lemma {:induction false} SplitOne(part: string, after: string)
    requires ',' !in part
    ensures Split(part + "," + after) == [part] + Split(after)
    decreases |part|
  {
    var s := part + "," + after;
    if part == "" {
      assert s[1..] == after;
    } else {
      assert part[0] in part && s[0] == part[0];
      assert s[1..] == part[1..] + "," + after;
      SplitOne(part[1..], after);
      assert part == [part[0]] + part[1..];
      assert ([part[1..]] + Split(after))[1..] == Split(after);
    }
  }

  lemma {:induction false} SplitWhole(part: string)
    requires ',' !in part
    ensures Split(part) == [part]
    decreases |part|
  {
    if part != "" {
      assert part[0] in part;
      SplitWhole(part[1..]);
      assert part == [part[0]] + part[1..];
    }
  }

  /** Splitting at commas undoes joining with them. */
  lemma {:induction false} SplitJoined(parts: seq<string>)
    requires parts != [] && forall p :: p in parts ==> ',' !in p
    ensures Split(CommaJoined(parts)) == parts
    decreases |parts|
  {
    hide Split;
    assert parts[0] in parts;
    if |parts| == 1 {
      assert parts == [parts[0]];
      SplitWhole(parts[0]);
    } else {
      assert parts == [parts[0]] + parts[1..];
      assert forall p :: p in parts[1..] ==> p in parts;
      SplitOne(parts[0], CommaJoined(parts[1..]));
      SplitJoined(parts[1..]);
    }
  }

  /** The text of a whole number as the sender writes it. */
  predicate WritesCount(floatOf: FloatOf, text: string, n: int) {
    floatOf(text) == Some(Finite(n as real)) && ',' !in text
  }

  /** Both line formats are read as they are written: every field from its own place. */
  lemma FormatsRead(floatOf: FloatOf, time: string, count: string, delta: string, step: string, elapsed: Float,
                    total: int, change: int, dt: real)
    requires floatOf(time) == Some(elapsed) && ',' !in time && ',' !in step && time != "ENC"
    requires WritesCount(floatOf, count, total) && WritesCount(floatOf, delta, change) &&
      floatOf(step) == Some(Finite(dt))
    ensures Read(floatOf, CommaJoined([time, "ENC", count, "POT", step])) == Reading(elapsed, total, None, None)
    ensures Read(floatOf, CommaJoined(["ENC", time, count, delta])) == Reading(elapsed, total, Some(change), None)
    ensures Read(floatOf, CommaJoined(["ENC", time, count, delta, step])) ==
            Reading(elapsed, total, Some(change), Some(Finite(dt / 1000.0)))
  {
    hide Split, CommaJoined;
    assert ',' !in "ENC" && ',' !in "POT";
    SplitJoined([time, "ENC", count, "POT", step]);
    SplitJoined(["ENC", time, count, delta]);
    SplitJoined(["ENC", time, count, delta, step]);
  }

  /** What the encoder handling remembers, and all it published. */
  datatype Encoder = Encoder(lastElapsed: Option<Float>, lastCount: Option<int>, published: seq<Published>)

  const FRESH := Encoder(None, None, [])

  function DeltaOf(e: Encoder, r: Reading): int
    requires r.Reading?
  {
    if r.delta.Some? then r.delta.value else if e.lastCount == None then 0 else r.total - e.lastCount.value
  }

  function DtOf(cfg: Config, e: Encoder, r: Reading): Float
    requires r.Reading?
  {
    var dt :=
      if r.sampleDt == None && e.lastElapsed.Some?
      then Some(Thousandth(Plus(r.elapsed, Negated(e.lastElapsed.value)))) else r.sampleDt;
    if dt.Some? && Positive(dt.value) then dt.value else Finite(cfg.pollPeriod)
  }

  /** A count over a time step; an infinite step gives 0. */
  function SpeedOf(cfg: Config, delta: int, dt: Float): real
    requires dt != Finite(0.0)
  {
    if dt.Finite? then Times(delta as real, cfg.metersPerPulse) / dt.value else 0.0
  }

  /** One reading; a zero poll period raises before anything is published or remembered. */
  function Apply(cfg: Config, e: Encoder, r: Reading): Encoder
    requires r.Reading?
  {
    var dt := DtOf(cfg, e, r);
    if dt == Finite(0.0) then e
    else
      var delta := DeltaOf(e, r);
      Encoder(Some(r.elapsed), Some(r.total),
              e.published + [Published(Times(r.total as real, cfg.metersPerPulse), SpeedOf(cfg, delta, dt), dt, delta)])
  }

  predicate Raises(cfg: Config, e: Encoder, r: Reading) {
    r.Raise? || (r.Reading? && DtOf(cfg, e, r) == Finite(0.0))
  }

  predicate HasEncoderMark(s: string) {
    s != "" && (",ENC," <= s || HasEncoderMark(s[1..]))
  }

  predicate EncoderLine(raw: string) {
    "ENC," <= raw || HasEncoderMark(raw)
  }

  /** A line handled: what the encoder is afterwards and whether an exception escaped. Other lines are only logged. */
  function Handle(cfg: Config, floatOf: FloatOf, e: Encoder, raw: string): (Encoder, bool) {
    if !EncoderLine(raw) then (e, false)
    else
      var r := Read(floatOf, raw);
      (if r.Reading? then Apply(cfg, e, r) else e, Raises(cfg, e, r))
  }

  function HandleAll(cfg: Config, floatOf: FloatOf, texts: seq<string>): Encoder {
    if texts == [] then FRESH
    else Handle(cfg, floatOf, HandleAll(cfg, floatOf, texts[..|texts| - 1]), texts[|texts| - 1]).0
  }

  // ---------- the reader ----------

  datatype State = State(buf: seq<Byte>, handled: seq<string>, encoder: Encoder)

  /** Takes lines off the buffer until none is complete or a handler's exception escapes. */
  function Drain(cfg: Config, floatOf: FloatOf, st: State): (State, bool)
    decreases |st.buf|
  {
    var n := FirstNewline(st.buf);
    if n == |st.buf| then (st, false)
    else
      var text := Clean(st.buf[..n]);
      var left := st.(buf := st.buf[n + 1..]);
      if text == "" then Drain(cfg, floatOf, left)
      else
        var (encoder, raised) := Handle(cfg, floatOf, st.encoder, text);
        var next := State(left.buf, st.handled + [text], encoder);
        if raised then (next, true) else Drain(cfg, floatOf, next)
  }

  /** One read; an empty one changes nothing. */
  function Feed(cfg: Config, floatOf: FloatOf, st: State, data: seq<Byte>): (State, bool) {
    if data == [] then (st, false) else Drain(cfg, floatOf, st.(buf := st.buf + data))
  }

  function Feeds(cfg: Config, floatOf: FloatOf, chunks: seq<seq<Byte>>): (State, bool) {
    if chunks == [] then (State([], [], FRESH), false)
    else Feed(cfg, floatOf, Feeds(cfg, floatOf, chunks[..|chunks| - 1]).0, chunks[|chunks| - 1])
  }

  function Stream(chunks: seq<seq<Byte>>): seq<Byte> {
    if chunks == [] then [] else Stream(chunks[..|chunks| - 1]) + chunks[|chunks| - 1]
  }

  class SerialBridgeNode {
    const cfg: Config
    const floatOf: FloatOf
    var buf: seq<Byte>
    var lastElapsedMs: Option<Float>
    var lastEncoderCount: Option<int>
    ghost var published: seq<Published>
    ghost var handled: seq<string>

    ghost function EncoderValue(): Encoder
      reads this
    {
      Encoder(lastElapsedMs, lastEncoderCount, published)
    }

    ghost function Value(): State
      reads this
    {
      State(buf, handled, EncoderValue())
    }

    constructor (cfg: Config, floatOf: FloatOf)
      ensures Value() == Feeds(cfg, floatOf, []).0 && this.cfg == cfg && this.floatOf == floatOf
    {
      this.cfg, this.floatOf := cfg, floatOf;
      buf, lastElapsedMs, lastEncoderCount, published, handled := [], None, None, [], [];
    }

    /** Whether an exception escapes. */
    method ProcessEncoder(raw: string) returns (raised: bool)
      modifies this`lastElapsedMs, this`lastEncoderCount, this`published
      ensures var r := Read(floatOf, raw);
        && EncoderValue() == (if r.Reading? then Apply(cfg, old(EncoderValue()), r) else old(EncoderValue()))
        && raised == Raises(cfg, old(EncoderValue()), r)
    {
      hide Read, Plus, Negated, Thousandth, Times;
      var r := Read(floatOf, raw);
      if r.Skip? {
        return false;
      }
      if r.Raise? {
        return true;
      }
      var delta :=
        if r.delta.Some? then r.delta.value
        else if lastEncoderCount == None then 0 else r.total - lastEncoderCount.value;
      var sampleDt := r.sampleDt;
      if sampleDt == None && lastElapsedMs.Some? {
        sampleDt := Some(Thousandth(Plus(r.elapsed, Negated(lastElapsedMs.value))));
      }
      var dt := if sampleDt.Some? && Positive(sampleDt.value) then sampleDt.value else Finite(cfg.pollPeriod);
      if dt == Finite(0.0) {
        return true;
      }
      var distance := Times(r.total as real, cfg.metersPerPulse);
      published := published + [Published(distance, SpeedOf(cfg, delta, dt), dt, delta)];
      lastElapsedMs := Some(r.elapsed);
      lastEncoderCount := Some(r.total);
      raised := false;
    }

    method HandleLine(raw: string) returns (raised: bool)
      modifies this`lastElapsedMs, this`lastEncoderCount, this`published
      ensures (EncoderValue(), raised) == Handle(cfg, floatOf, old(EncoderValue()), raw)
    {
      hide Read, Apply, Raises, HasEncoderMark;
      raised := false;
      if EncoderLine(raw) {
        raised := ProcessEncoder(raw);
      }
    }

    /** One turn of the reading loop. */
    method Receive(data: seq<Byte>) returns (raised: bool)
      modifies this
      ensures (Value(), raised) == Feed(cfg, floatOf, old(Value()), data)
    {
      hide Handle, Clean, FirstNewline;
      raised := false;
      if data == [] {
        return;
      }
      buf := buf + data;
      while NEWLINE in buf
        invariant Drain(cfg, floatOf, Value()) == Feed(cfg, floatOf, old(Value()), data)
        decreases |buf|
      {
        FirstNewlineCuts(buf);
        var n := FirstNewline(buf);
        var line := buf[..n];
        buf := buf[n + 1..];
        var text := Clean(line);
        if text != "" {
          handled := handled + [text];
          raised := HandleLine(text);
          if raised {
            return;
          }
        }
      }
      NoNewlineDrained(cfg, floatOf, Value());
    }
  }

  lemma NoNewlineDrained(cfg: Config, floatOf: FloatOf, st: State)
    requires NEWLINE !in st.buf
    ensures Drain(cfg, floatOf, st) == (st, false)
  {
    FirstNewlineCuts(st.buf);
  }
}
