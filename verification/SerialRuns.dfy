/** The serial bridge over whole streams: what read boundaries can and cannot change, and what the speeds add up to. */
module SerialRuns {
  import opened Options
  import opened RealProducts
  import opened SerialBridge

  // ---------- read boundaries do not matter ----------

  lemma NextLine(s: seq<Byte>)
    requires FirstNewline(s) < |s|
    ensures var n := FirstNewline(s);
      && Rest(s) == Rest(s[n + 1..])
      && Texts(Complete(s)) == (if Clean(s[..n]) == "" then [] else [Clean(s[..n])]) + Texts(Complete(s[n + 1..]))
  {
    hide Clean, FirstNewline, Complete, Rest;
    var line, after := CutFirst(s);
    TakeLine(line, after);
    assert ([line] + Complete(after))[1..] == Complete(after);
  }

  lemma HandleOneMore(cfg: Config, floatOf: FloatOf, texts: seq<string>, text: string)
    ensures HandleAll(cfg, floatOf, texts + [text]) == Handle(cfg, floatOf, HandleAll(cfg, floatOf, texts), text).0
  {
    hide Handle;
    assert (texts + [text])[..|texts|] == texts;
  }

  /** Draining only moves lines from the buffer to the handler; without an exception none is left behind. */
  lemma {:induction false} DrainMoves(cfg: Config, floatOf: FloatOf, st: State)
    requires st.encoder == HandleAll(cfg, floatOf, st.handled)
    ensures var (next, raised) := Drain(cfg, floatOf, st);
      && next.handled + Texts(Complete(next.buf)) == st.handled + Texts(Complete(st.buf))
      && Rest(next.buf) == Rest(st.buf)
      && next.encoder == HandleAll(cfg, floatOf, next.handled)
      && (!raised ==> NEWLINE !in next.buf)
    decreases |st.buf|
  {
    hide Handle, Clean, HandleAll, Texts, Complete, Rest, FirstNewline;
    var n := FirstNewline(st.buf);
    FirstNewlineCuts(st.buf);
    if n < |st.buf| {
      NextLine(st.buf);
      var text := Clean(st.buf[..n]);
      var left := st.(buf := st.buf[n + 1..]);
      if text == "" {
        DrainMoves(cfg, floatOf, left);
        assert [] + Texts(Complete(left.buf)) == Texts(Complete(left.buf));
      } else {
        var (encoder, raised) := Handle(cfg, floatOf, st.encoder, text);
        var next := State(left.buf, st.handled + [text], encoder);
        HandleOneMore(cfg, floatOf, st.handled, text);
        assert next.handled + Texts(Complete(left.buf)) == st.handled + ([text] + Texts(Complete(left.buf)));
        if !raised { DrainMoves(cfg, floatOf, next); }
      }
    }
  }

  /**
   * However a byte stream is cut into reads: the lines handled, with those complete but still in the buffer, are the
   * newline-terminated lines of the whole stream in order, cleaned and without blanks; what the encoder remembers and
   * published depends on the lines handled alone; and unless an exception escaped in the last read, nothing complete is
   * left in the buffer.
   */
  lemma {:induction false} FeedsFrame(cfg: Config, floatOf: FloatOf, chunks: seq<seq<Byte>>)
    ensures var (st, raised) := Feeds(cfg, floatOf, chunks);
      && st.handled + Texts(Complete(st.buf)) == Texts(Complete(Stream(chunks)))
      && Rest(st.buf) == Rest(Stream(chunks))
      && st.encoder == HandleAll(cfg, floatOf, st.handled)
    decreases |chunks|
  {
    hide Handle, Clean, HandleAll, Drain, Complete, Rest, Texts;
    if chunks == [] {
      NothingFramed(cfg, floatOf);
    } else {
      var init, data := chunks[..|chunks| - 1], chunks[|chunks| - 1];
      FeedsFrame(cfg, floatOf, init);
      var before, s := Feeds(cfg, floatOf, init).0, Stream(init);
      if data == [] {
        assert s + data == s;
      } else {
        CompleteAppend(s, data);
        CompleteAppend(before.buf, data);
        var more := Complete(Rest(s) + data);
        TextsAppend(Complete(s), more);
        TextsAppend(Complete(before.buf), more);
        assert before.handled + (Texts(Complete(before.buf)) + Texts(more)) ==
          (before.handled + Texts(Complete(before.buf))) + Texts(more);
        DrainMoves(cfg, floatOf, before.(buf := before.buf + data));
      }
    }
  }

  lemma NothingFramed(cfg: Config, floatOf: FloatOf)
    ensures Texts([]) == [] && Complete([]) == [] && Rest([]) == [] && HandleAll(cfg, floatOf, []) == FRESH
  {
  }

  /** A non-empty read on which no exception escapes leaves no complete line behind, whatever happened before. */
  lemma CatchesUp(cfg: Config, floatOf: FloatOf, chunks: seq<seq<Byte>>)
    requires chunks != [] && chunks[|chunks| - 1] != [] && !Feeds(cfg, floatOf, chunks).1
    ensures Feeds(cfg, floatOf, chunks).0 == Finished(cfg, floatOf, Stream(chunks))
  {
    hide Handle, Clean, HandleAll, Drain, Complete, Rest, Texts;
    var init, data := chunks[..|chunks| - 1], chunks[|chunks| - 1];
    FeedsFrame(cfg, floatOf, init);
    var before := Feeds(cfg, floatOf, init).0;
    DrainMoves(cfg, floatOf, before.(buf := before.buf + data));
    FeedsFrame(cfg, floatOf, chunks);
    var st := Feeds(cfg, floatOf, chunks).0;
    NoNewlineIsRest(st.buf);
    NothingFramed(cfg, floatOf);
    assert st.handled + [] == st.handled;
  }

  /** Every complete line of the stream handled, and its tail in the buffer. */
  function Finished(cfg: Config, floatOf: FloatOf, s: seq<Byte>): State {
    State(Rest(s), Texts(Complete(s)), HandleAll(cfg, floatOf, Texts(Complete(s))))
  }

  /** On line k an exception escapes from the handler, the lines before having been handled. */
  predicate LineRaises(cfg: Config, floatOf: FloatOf, lines: seq<seq<Byte>>, k: nat)
    requires k < |lines|
  {
    && Clean(lines[k]) != ""
    && Handle(cfg, floatOf, HandleAll(cfg, floatOf, Texts(lines[..k])), Clean(lines[k])).1
  }

  /** With a poll period other than zero this is a matter of the line alone: one of its counts reads as infinite. */
  lemma RaisesByItself(cfg: Config, floatOf: FloatOf, lines: seq<seq<Byte>>, k: nat)
    requires k < |lines| && cfg.pollPeriod != 0.0
    ensures LineRaises(cfg, floatOf, lines, k) <==>
      Clean(lines[k]) != "" && EncoderLine(Clean(lines[k])) && Read(floatOf, Clean(lines[k])) == Raise
  {
    hide Read, EncoderLine, Clean, HandleAll, Texts;
  }

  /** No exception escapes on any line from k on that has another one behind it. */
  predicate QuietFrom(cfg: Config, floatOf: FloatOf, lines: seq<seq<Byte>>, k: nat) {
    forall i :: k <= i < |lines| - 1 ==> !LineRaises(cfg, floatOf, lines, i)
  }

  lemma RaisesAfter(cfg: Config, floatOf: FloatOf, lines: seq<seq<Byte>>, done: seq<seq<Byte>>)
    requires |done| < |lines| && lines[..|done|] == done
    ensures var text := Clean(lines[|done|]);
      LineRaises(cfg, floatOf, lines, |done|) <==>
      text != "" && Handle(cfg, floatOf, HandleAll(cfg, floatOf, Texts(done)), text).1
  {
    hide Handle, Clean, HandleAll, Texts;
  }

  lemma TextsOneMore(done: seq<seq<Byte>>, line: seq<Byte>)
    ensures Texts(done + [line]) == Texts(done) + (if Clean(line) == "" then [] else [Clean(line)])
  {
    hide Clean;
    TextsAppend(done, [line]);
    assert Texts([line][1..]) == [];
  }

  /** The first h lines are handled; the others are still in the buffer, before the rest. */
  ghost predicate StandsAt(cfg: Config, floatOf: FloatOf, st: State, lines: seq<seq<Byte>>, h: nat, rest: seq<Byte>) {
    && h <= |lines|
    && st.handled == Texts(lines[..h]) && st.encoder == HandleAll(cfg, floatOf, st.handled)
    && Complete(st.buf) == lines[h..] && Rest(st.buf) == rest
  }

  lemma DrainLine(cfg: Config, floatOf: FloatOf, st: State, line: seq<Byte>, after: seq<Byte>)
    requires NEWLINE !in line && st.buf == line + [NEWLINE] + after
    ensures var text := Clean(line);
      Drain(cfg, floatOf, st) ==
        if text == "" then Drain(cfg, floatOf, st.(buf := after))
        else
          var (encoder, raised) := Handle(cfg, floatOf, st.encoder, text);
          var next := State(after, st.handled + [text], encoder);
          if raised then (next, true) else Drain(cfg, floatOf, next)
  {
    hide Handle, Clean, FirstNewline;
    FirstNewlineIs(line, after);
    assert st.buf[..|line|] == line && st.buf[|line| + 1..] == after;
  }

  /** A line taken off the buffer. */
  lemma StandsAfter(cfg: Config, floatOf: FloatOf, lines: seq<seq<Byte>>, done: seq<seq<Byte>>, after: seq<Byte>,
                    st: State)
    requires lines == done + Complete(after) && st.buf == after
    requires st.handled == Texts(done) && st.encoder == HandleAll(cfg, floatOf, st.handled)
    ensures StandsAt(cfg, floatOf, st, lines, |done|, Rest(after))
  {
    hide Complete, Rest, Texts, HandleAll;
    assert lines[..|done|] == done && lines[|done|..] == Complete(after);
  }

  /** How far draining gets: to the end, or up to the first line on which an exception escapes. */
  lemma {:induction false} DrainReaches(cfg: Config, floatOf: FloatOf, st: State, done: seq<seq<Byte>>) returns (h: nat)
    requires st.handled == Texts(done) && st.encoder == HandleAll(cfg, floatOf, st.handled)
    ensures var lines := done + Complete(st.buf);
      && |done| <= h <= |lines|
      && StandsAt(cfg, floatOf, Drain(cfg, floatOf, st).0, lines, h, Rest(st.buf))
      && (forall i :: |done| <= i < h - 1 ==> !LineRaises(cfg, floatOf, lines, i))
      && (h < |lines| ==> |done| < h && LineRaises(cfg, floatOf, lines, h - 1))
    decreases |st.buf|
  {
    hide Drain, Handle, Clean, HandleAll, Texts, Complete, Rest, LineRaises, StandsAt;
    var lines := done + Complete(st.buf);
    var line, after := CutFirst(st.buf);
    if NEWLINE !in st.buf {
      NoNewlineIsRest(st.buf);
      NoNewlineDrained(cfg, floatOf, st);
      h := |done|;
      StandsAfter(cfg, floatOf, lines, done, st.buf, st);
    } else {
      TakeLine(line, after);
      DrainLine(cfg, floatOf, st, line, after);
      var done' := done + [line];
      assert lines == done' + Complete(after) && lines[..|done|] == done && lines[|done|] == line;
      TextsOneMore(done, line);
      RaisesAfter(cfg, floatOf, lines, done);
      if Clean(line) == "" {
        assert Texts(done) + [] == Texts(done);
        h := DrainReaches(cfg, floatOf, st.(buf := after), done');
      } else {
        var (encoder, raised) := Handle(cfg, floatOf, st.encoder, Clean(line));
        HandleOneMore(cfg, floatOf, st.handled, Clean(line));
        var next := State(after, st.handled + [Clean(line)], encoder);
        if raised {
          h := |done'|;
          StandsAfter(cfg, floatOf, lines, done', after, next);
        } else {
          h := DrainReaches(cfg, floatOf, next, done');
        }
      }
    }
  }

  /** Standing at the end is having finished. */
  lemma StandsAtEnd(cfg: Config, floatOf: FloatOf, st: State, s: seq<Byte>, h: nat)
    requires StandsAt(cfg, floatOf, st, Complete(s), h, Rest(s))
    ensures st == Finished(cfg, floatOf, s) <==> h == |Complete(s)|
  {
    hide Complete, Rest, Texts, HandleAll;
    var lines := Complete(s);
    LinesJoin(st.buf);
    LinesJoin(s);
    if h == |lines| {
      assert lines[..h] == lines && lines[h..] == [];
      JoinedNothing(Rest(st.buf));
    } else if st == Finished(cfg, floatOf, s) {
      NoNewlineIsRest(Rest(s));
    }
  }

  /** Draining gets through the buffer exactly when no exception escapes on any of its lines but the last. */
  lemma DrainFinishes(cfg: Config, floatOf: FloatOf, s: seq<Byte>, data: seq<Byte>)
    ensures var st := Finished(cfg, floatOf, s);
      Drain(cfg, floatOf, st.(buf := st.buf + data)).0 == Finished(cfg, floatOf, s + data) <==>
      QuietFrom(cfg, floatOf, Complete(s + data), |Complete(s)|)
  {
    hide Drain, HandleAll, Texts, Complete, Rest, LineRaises, StandsAt;
    CompleteAppend(s, data);
    var st := Finished(cfg, floatOf, s);
    var h := DrainReaches(cfg, floatOf, st.(buf := st.buf + data), Complete(s));
    StandsAtEnd(cfg, floatOf, Drain(cfg, floatOf, st.(buf := st.buf + data)).0, s + data, h);
  }

  lemma NothingLeftIsQuiet(cfg: Config, floatOf: FloatOf, lines: seq<seq<Byte>>)
    ensures QuietFrom(cfg, floatOf, lines, |lines|)
  {
  }

  /** Whether an exception escapes on a line depends on the lines up to it only. */
  lemma QuietPrefix(cfg: Config, floatOf: FloatOf, lines: seq<seq<Byte>>, more: seq<seq<Byte>>, k: nat)
    requires QuietFrom(cfg, floatOf, lines + more, k)
    ensures QuietFrom(cfg, floatOf, lines, k)
  {
    hide LineRaises;
    forall i | k <= i < |lines| - 1 ensures !LineRaises(cfg, floatOf, lines, i) {
      SameLineRaises(cfg, floatOf, lines, more, i);
    }
  }

  lemma SameLineRaises(cfg: Config, floatOf: FloatOf, lines: seq<seq<Byte>>, more: seq<seq<Byte>>, i: nat)
    requires i < |lines|
    ensures LineRaises(cfg, floatOf, lines + more, i) == LineRaises(cfg, floatOf, lines, i)
  {
    assert (lines + more)[..i] == lines[..i];
  }

  lemma QuietLater(cfg: Config, floatOf: FloatOf, lines: seq<seq<Byte>>, k: nat, m: nat)
    requires QuietFrom(cfg, floatOf, lines, k) && k <= m
    ensures QuietFrom(cfg, floatOf, lines, m)
  {
  }

  /** A read after a finished stream finishes the longer one exactly when it meets no exception before its last line. */
  lemma ReadFinishes(cfg: Config, floatOf: FloatOf, s: seq<Byte>, data: seq<Byte>)
    ensures Feed(cfg, floatOf, Finished(cfg, floatOf, s), data).0 == Finished(cfg, floatOf, s + data) <==>
            QuietFrom(cfg, floatOf, Complete(s + data), |Complete(s)|)
  {
    hide Drain, HandleAll, Texts, Complete, Rest, QuietFrom;
    var st := Finished(cfg, floatOf, s);
    if data == [] {
      assert s + data == s;
      NothingLeftIsQuiet(cfg, floatOf, Complete(s));
    } else {
      DrainFinishes(cfg, floatOf, s, data);
    }
  }

  /** A stream without an exception before its last line is finished however it is cut. */
  lemma {:induction false} AllHandled(cfg: Config, floatOf: FloatOf, chunks: seq<seq<Byte>>)
    requires QuietFrom(cfg, floatOf, Complete(Stream(chunks)), 0)
    ensures Feeds(cfg, floatOf, chunks).0 == Finished(cfg, floatOf, Stream(chunks))
    decreases |chunks|
  {
    hide Feed, HandleAll, Texts, Complete, Rest, QuietFrom;
    if chunks == [] {
      NothingFramed(cfg, floatOf);
    } else {
      var init, data := chunks[..|chunks| - 1], chunks[|chunks| - 1];
      var s := Stream(init);
      CompleteAppend(s, data);
      QuietPrefix(cfg, floatOf, Complete(s), Complete(Rest(s) + data), 0);
      AllHandled(cfg, floatOf, init);
      QuietLater(cfg, floatOf, Complete(s + data), 0, |Complete(s)|);
      ReadFinishes(cfg, floatOf, s, data);
    }
  }

  lemma StreamOfOne(cfg: Config, floatOf: FloatOf, s: seq<Byte>)
    ensures Stream([s]) == s
    ensures Feeds(cfg, floatOf, [s]) == Feed(cfg, floatOf, Finished(cfg, floatOf, []), s)
  {
    hide Feed, Complete, Rest, Texts;
    NothingFramed(cfg, floatOf);
    assert [s][..0] == [] && [] + s == s;
  }

  /** One byte at a time. */
  function Bytewise(s: seq<Byte>): seq<seq<Byte>> {
    if s == [] then [] else Bytewise(s[..|s| - 1]) + [[s[|s| - 1]]]
  }

  /** Read byte by byte every stream is finished, exceptions or not: no read holds more than one end of line. */
  lemma {:induction false} BytewiseFinishes(cfg: Config, floatOf: FloatOf, s: seq<Byte>)
    ensures Stream(Bytewise(s)) == s && Feeds(cfg, floatOf, Bytewise(s)).0 == Finished(cfg, floatOf, s)
    decreases |s|
  {
    hide Feed, Finished, HandleAll, Texts, Complete, Rest, QuietFrom;
    if s == [] {
      NothingFramed(cfg, floatOf);
      FinishedNothing(cfg, floatOf);
    } else {
      var init, b := s[..|s| - 1], s[|s| - 1];
      BytewiseFinishes(cfg, floatOf, init);
      assert s == init + [b];
      var chunks := Bytewise(s);
      assert chunks[..|chunks| - 1] == Bytewise(init) && chunks[|chunks| - 1] == [b];
      OneByteOneLine(init, b);
      FewLinesAreQuiet(cfg, floatOf, Complete(s), |Complete(init)|);
      ReadFinishes(cfg, floatOf, init, [b]);
    }
  }

  lemma FinishedNothing(cfg: Config, floatOf: FloatOf)
    ensures Finished(cfg, floatOf, []) == State([], [], FRESH)
  {
    NothingFramed(cfg, floatOf);
  }

  lemma OneByteOneLine(s: seq<Byte>, b: Byte)
    ensures |Complete(s + [b])| <= |Complete(s)| + 1
  {
    hide Complete, Rest;
    CompleteAppend(s, [b]);
    LinesJoin(s);
    var rest := Rest(s);
    if b == NEWLINE {
      TakeLine(rest, []);
      assert rest + [NEWLINE] + [] == rest + [b];
      NoNewlineIsRest([]);
    } else {
      NoNewlineIsRest(rest + [b]);
    }
  }

  lemma FewLinesAreQuiet(cfg: Config, floatOf: FloatOf, lines: seq<seq<Byte>>, k: nat)
    requires |lines| <= k + 1
    ensures QuietFrom(cfg, floatOf, lines, k)
  {
  }

  /** A line on which an exception escapes, read together with another one, leaves that one waiting. */
  lemma RaisingLeavesRest(cfg: Config, floatOf: FloatOf, a: seq<Byte>, b: seq<Byte>)
    requires NEWLINE !in a && NEWLINE !in b && Clean(a) != "" && Handle(cfg, floatOf, FRESH, Clean(a)).1
    ensures var s := a + [NEWLINE] + (b + [NEWLINE]);
      && Feeds(cfg, floatOf, [s]).0 == State(b + [NEWLINE], [Clean(a)], Handle(cfg, floatOf, FRESH, Clean(a)).0)
      && Feeds(cfg, floatOf, [s]).0 != Finished(cfg, floatOf, s)
  {
    hide Handle, Clean, FirstNewline, Complete, Rest, Texts;
    var after := b + [NEWLINE];
    var s := a + [NEWLINE] + after;
    StreamOfOne(cfg, floatOf, s);
    FinishedNothing(cfg, floatOf);
    FirstNewlineIs(a, after);
    assert s[..|a|] == a && s[|a| + 1..] == after && [] + s == s && [] + [Clean(a)] == [Clean(a)];
    LinesJoin(s);
    assert after[|b|] == NEWLINE;
  }

  predicate PlainText(text: string) {
    forall c :: c in text ==> c as int < 128 && c != '\r'
  }

  /** ASCII text as it comes over the line. */
  function Bytes(text: string): (s: seq<Byte>)
    requires PlainText(text)
    ensures Decode(s) == text
    ensures '\n' !in text ==> NEWLINE !in s
  {
    if text == "" then []
    else
      assert text[0] in text && forall c :: c in text[1..] ==> c in text;
      [text[0] as int] + Bytes(text[1..])
  }

  lemma CleanBytes(text: string)
    requires PlainText(text) && text != "" && !Blank(text[0]) && !Blank(text[|text| - 1])
    ensures Clean(Bytes(text)) == text
  {
    hide Bytes, Decode;
  }

  const INFINITE_LINE := "0,ENC,inf"

  lemma InfiniteLineRaises(cfg: Config, floatOf: FloatOf, e: Encoder)
    requires floatOf("0") == Some(Finite(0.0)) && floatOf("inf") == Some(PlusInfinity)
    ensures Handle(cfg, floatOf, e, INFINITE_LINE) == (e, true)
  {
    hide Handle;
    InfiniteLineRead(floatOf);
    HandleRaise(cfg, floatOf, e, INFINITE_LINE);
  }

  lemma HandleRaise(cfg: Config, floatOf: FloatOf, e: Encoder, raw: string)
    requires EncoderLine(raw) && Read(floatOf, raw) == Raise
    ensures Handle(cfg, floatOf, e, raw) == (e, true)
  {
    hide Read, EncoderLine;
  }

  lemma InfiniteLineRead(floatOf: FloatOf)
    requires floatOf("0") == Some(Finite(0.0)) && floatOf("inf") == Some(PlusInfinity)
    ensures EncoderLine(INFINITE_LINE) && Read(floatOf, INFINITE_LINE) == Raise
  {
    var parts := ["0", "ENC", "inf"];
    hide Split;
    SplitJoined(parts);
    assert CommaJoined(parts[2..]) == "inf" && CommaJoined(parts[1..]) == "ENC,inf" &&
      CommaJoined(parts) == INFINITE_LINE;
    assert ",ENC," <= INFINITE_LINE[1..];
  }

  /** Such a line exists: a count that reads as infinite. The line after it then waits for the next read. */
  lemma InfiniteCountStalls(cfg: Config, floatOf: FloatOf)
    requires floatOf("0") == Some(Finite(0.0)) && floatOf("inf") == Some(PlusInfinity)
    ensures PlainText(INFINITE_LINE) && PlainText("0,ENC,1")
    ensures var a, b := Bytes(INFINITE_LINE), Bytes("0,ENC,1");
      var s := a + [NEWLINE] + (b + [NEWLINE]);
      Feeds(cfg, floatOf, [s]).0 == State(b + [NEWLINE], [INFINITE_LINE], FRESH) != Finished(cfg, floatOf, s)
  {
    hide Handle, Clean, Bytes, Feeds, Finished;
    InfiniteLineRaises(cfg, floatOf, FRESH);
    CleanBytes(INFINITE_LINE);
    RaisingLeavesRest(cfg, floatOf, Bytes(INFINITE_LINE), Bytes("0,ENC,1"));
  }
}
