/** Streams read a limited number of bytes at a time: for exactly which of them read boundaries do not matter. */
module SerialReads {
  import opened IntProducts
  import opened SerialBridge
  import opened SerialRuns

  /** No read takes more bytes than the limit, which is 256 in the source. */
  ghost predicate Limited(chunks: seq<seq<Byte>>, limit: nat) {
    forall k :: 0 <= k < |chunks| ==> |chunks[k]| <= limit
  }

  /** How many bytes so many reads can take. */
  function Within(count: nat, limit: nat): (bytes: nat) {
    MulOrder(0, count, limit);
    MulNext(0, limit);
    Mul(count, limit)
  }

  lemma WithinNext(count: nat, limit: nat)
    ensures Within(count + 1, limit) == Within(count, limit) + limit && Within(0, limit) == 0
  {
    hide Mul;
    MulNext(count, limit);
  }

  lemma ManyReads(count: nat, limit: nat)
    requires count > 0
    ensures Within(count, limit) >= limit
  {
    hide Mul;
    MulOrder(1, count, limit);
    MulNext(0, limit);
  }

  // ---------- lines that raise ----------

  /** How many of the lines first, .., last - 1 raise. */
  ghost function Raising(cfg: Config, floatOf: FloatOf, lines: seq<seq<Byte>>, first: nat, last: nat): nat
    requires last <= |lines|
    decreases last
  {
    if last <= first then 0
    else Raising(cfg, floatOf, lines, first, last - 1) + if LineRaises(cfg, floatOf, lines, last - 1) then 1 else 0
  }

  lemma {:induction false} RaisingPrefix(cfg: Config, floatOf: FloatOf, lines: seq<seq<Byte>>, more: seq<seq<Byte>>,
                                         first: nat, last: nat)
    requires last <= |lines|
    ensures Raising(cfg, floatOf, lines + more, first, last) == Raising(cfg, floatOf, lines, first, last)
    decreases last
  {
    hide LineRaises;
    if first < last {
      SameLineRaises(cfg, floatOf, lines, more, last - 1);
      RaisingPrefix(cfg, floatOf, lines, more, first, last - 1);
    }
  }

  lemma {:induction false} RaisingGap(cfg: Config, floatOf: FloatOf, lines: seq<seq<Byte>>, first: nat, a: nat, b: nat)
    requires a <= b <= |lines| && forall i :: a <= i < b ==> !LineRaises(cfg, floatOf, lines, i)
    ensures Raising(cfg, floatOf, lines, first, b) == Raising(cfg, floatOf, lines, first, a)
    decreases b
  {
    hide LineRaises;
    if a < b { RaisingGap(cfg, floatOf, lines, first, a, b - 1); }
  }

  lemma {:induction false} RaisingGrows(cfg: Config, floatOf: FloatOf, lines: seq<seq<Byte>>, first: nat, last: nat,
                                        first': nat, last': nat)
    requires first' <= first && last <= last' <= |lines|
    ensures Raising(cfg, floatOf, lines, first', last') >= Raising(cfg, floatOf, lines, first, last)
    decreases last'
  {
    hide LineRaises;
    if first' < last' {
      RaisingGrows(cfg, floatOf, lines, first, if last < last' then last else last - 1, first', last' - 1);
    }
  }

  lemma RaisingOneMore(cfg: Config, floatOf: FloatOf, lines: seq<seq<Byte>>, first: nat, last: nat)
    requires first <= last < |lines|
    ensures Raising(cfg, floatOf, lines, first, last + 1) ==
            Raising(cfg, floatOf, lines, first, last) + if LineRaises(cfg, floatOf, lines, last) then 1 else 0
  {
    hide LineRaises;
  }

  // ---------- lines that end late ----------

  /** How many lines end in the first k bytes. */
  function EndedBy(s: seq<Byte>, k: nat): nat
    requires k <= |s|
  {
    |Complete(s[..k])|
  }

  /** Where the last bytes of a stream begin. */
  function Back(length: nat, bytes: nat): nat {
    if bytes < length then length - bytes else 0
  }

  lemma EndedByOrder(s: seq<Byte>, data: seq<Byte>, k: nat, k': nat)
    requires k' <= k <= |s|
    ensures EndedBy(s + data, k') <= EndedBy(s, k) <= |Complete(s)|
  {
    hide Complete, Rest;
    var init := s[..k];
    CompleteAppend(init, s[k..]);
    CompleteAppend(init[..k'], init[k'..]);
    assert init + s[k..] == s && init[..k'] + init[k'..] == init && (s + data)[..k'] == init[..k'];
  }

  /** How many lines that end in the last bytes of the stream raise, the last line not counted. */
  ghost function RaisingLate(cfg: Config, floatOf: FloatOf, s: seq<Byte>, bytes: nat): nat {
    var n := |Complete(s)|;
    if n == 0 then 0 else Raising(cfg, floatOf, Complete(s), EndedBy(s, Back(|s|, bytes)), n - 1)
  }

  /**
   * Too many lines raise for the reads left after them: at least q of them, the last line not counted, end in the last
   * q * limit bytes.
   */
  ghost predicate Overrun(cfg: Config, floatOf: FloatOf, s: seq<Byte>, limit: nat) {
    exists q: nat :: 0 < q && RaisingLate(cfg, floatOf, s, Within(q, limit)) >= q
  }

  // ---------- one read ----------

  /** A read moves on to the end, or to behind the next line that raises. */
  lemma ReadReaches(cfg: Config, floatOf: FloatOf, st: State, s: seq<Byte>, h: nat, data: seq<Byte>) returns (h': nat)
    requires StandsAt(cfg, floatOf, st, Complete(s), h, Rest(s)) && data != []
    ensures var lines := Complete(s + data);
      && Complete(s) <= lines && h <= h' <= |lines|
      && StandsAt(cfg, floatOf, Feed(cfg, floatOf, st, data).0, lines, h', Rest(s + data))
      && (forall i :: h <= i < h' - 1 ==> !LineRaises(cfg, floatOf, lines, i))
      && (h' < |lines| ==> h < h' && LineRaises(cfg, floatOf, lines, h' - 1))
  {
    hide Drain, HandleAll, Texts, Complete, Rest, LineRaises;
    CompleteAppend(s, data);
    CompleteAppend(st.buf, data);
    var done := Complete(s)[..h];
    assert done + (Complete(s)[h..] + Complete(Rest(s) + data)) == Complete(s) + Complete(Rest(s) + data);
    hide StandsAt;
    h' := DrainReaches(cfg, floatOf, st.(buf := st.buf + data), done);
  }

  // ---------- unfinished only after too many raising lines ----------

  /** Of the lines before h, at least q that end in the last q * limit bytes raise. */
  ghost predicate Raised(cfg: Config, floatOf: FloatOf, s: seq<Byte>, h: nat, limit: nat, q: nat) {
    && 0 < q && h <= |Complete(s)|
    && Raising(cfg, floatOf, Complete(s), EndedBy(s, Back(|s|, Within(q, limit))), h) >= q
  }

  /** A read that stops at a line that raises adds that one, and moves on by at most the limit. */
  lemma RaisedOnceMore(cfg: Config, floatOf: FloatOf, s: seq<Byte>, data: seq<Byte>, h: nat, h': nat, limit: nat,
                       q: nat)
    requires |data| <= limit && Complete(s) <= Complete(s + data)
    requires h < h' <= |Complete(s + data)| && LineRaises(cfg, floatOf, Complete(s + data), h' - 1)
    requires if q == 0 then h == |Complete(s)| else Raised(cfg, floatOf, s, h, limit, q)
    ensures Raised(cfg, floatOf, s + data, h', limit, q + 1)
  {
    hide Complete, LineRaises, EndedBy, Within;
    WithinNext(q, limit);
    var lines, all := Complete(s), Complete(s + data);
    assert lines + all[|lines|..] == all;
    var k, k' := Back(|s|, Within(q, limit)), Back(|s + data|, Within(q + 1, limit));
    var first, first' := EndedBy(s, k), EndedBy(s + data, k');
    EndedByOrder(s, data, k, k');
    RaisingPrefix(cfg, floatOf, lines, all[|lines|..], first, h);
    RaisingGrows(cfg, floatOf, all, first, h, first', h' - 1);
    RaisingOneMore(cfg, floatOf, all, first', h' - 1);
  }

  /** However a stream is read: a line is left over only after that. */
  lemma {:induction false} LeftAfterRaised(cfg: Config, floatOf: FloatOf, chunks: seq<seq<Byte>>, limit: nat)
      returns (h: nat, q: nat)
    requires Limited(chunks, limit)
    ensures var s := Stream(chunks);
      && StandsAt(cfg, floatOf, Feeds(cfg, floatOf, chunks).0, Complete(s), h, Rest(s))
      && if q == 0 then h == |Complete(s)| else Raised(cfg, floatOf, s, h, limit, q)
    decreases |chunks|
  {
    hide Feed, Complete, Rest, StandsAt, Raised, LineRaises;
    if chunks == [] {
      h, q := 0, 0;
      NothingStands(cfg, floatOf);
    } else {
      var init, data := chunks[..|chunks| - 1], chunks[|chunks| - 1];
      h, q := LeftAfterRaised(cfg, floatOf, init, limit);
      var st, s := Feeds(cfg, floatOf, init).0, Stream(init);
      if data == [] {
        NothingRead(cfg, floatOf, st);
        assert s + data == s;
      } else {
        var h' := ReadReaches(cfg, floatOf, st, s, h, data);
        if h' < |Complete(s + data)| {
          RaisedOnceMore(cfg, floatOf, s, data, h, h', limit, q);
          h, q := h', q + 1;
        } else {
          h, q := h', 0;
        }
      }
    }
  }

  lemma NothingStands(cfg: Config, floatOf: FloatOf)
    ensures StandsAt(cfg, floatOf, State([], [], FRESH), Complete([]), 0, Rest([])) && Complete([]) == []
  {
    NothingFramed(cfg, floatOf);
  }

  lemma NothingRead(cfg: Config, floatOf: FloatOf, st: State)
    ensures Feed(cfg, floatOf, st, []) == (st, false)
  {
  }

  lemma RaisedIsOverrun(cfg: Config, floatOf: FloatOf, s: seq<Byte>, h: nat, limit: nat, q: nat)
    requires h < |Complete(s)| && Raised(cfg, floatOf, s, h, limit, q)
    ensures Overrun(cfg, floatOf, s, limit)
  {
    hide Complete, EndedBy, Mul, LineRaises;
    var first := EndedBy(s, Back(|s|, Within(q, limit)));
    RaisingGrows(cfg, floatOf, Complete(s), first, h, first, |Complete(s)| - 1);
    assert RaisingLate(cfg, floatOf, s, Within(q, limit)) >= q;
  }

  // ---------- too many raising lines, read late ----------

  /** The first k bytes one by one, the others in reads as large as allowed. */
  function LateReads(s: seq<Byte>, limit: nat, k: nat): seq<seq<Byte>>
    requires limit > 0
    decreases |s|
  {
    if |s| <= k then Bytewise(s)
    else
      var b := if k + limit <= |s| then |s| - limit else k;
      LateReads(s[..b], limit, k) + [s[b..]]
  }

  lemma {:induction false} BytewiseLimited(s: seq<Byte>)
    ensures Limited(Bytewise(s), 1)
    decreases |s|
  {
    if s != [] { BytewiseLimited(s[..|s| - 1]); }
  }

  lemma OneIsWithin(chunks: seq<seq<Byte>>, limit: nat)
    requires limit > 0
    ensures Limited(chunks, 1) ==> Limited(chunks, limit)
  {
  }

  lemma StandsFinished(cfg: Config, floatOf: FloatOf, s: seq<Byte>)
    ensures StandsAt(cfg, floatOf, Finished(cfg, floatOf, s), Complete(s), |Complete(s)|, Rest(s))
  {
    hide Complete, Rest, Texts, HandleAll;
    var lines := Complete(s);
    LinesJoin(s);
    NoNewlineIsRest(Rest(s));
    assert lines[..|lines|] == lines && lines[|lines|..] == [];
  }

  lemma ReadAppended(cfg: Config, floatOf: FloatOf, chunks: seq<seq<Byte>>, data: seq<Byte>, limit: nat)
    requires Limited(chunks, limit) && |data| <= limit
    ensures Limited(chunks + [data], limit) && Stream(chunks + [data]) == Stream(chunks) + data
    ensures Feeds(cfg, floatOf, chunks + [data]) == Feed(cfg, floatOf, Feeds(cfg, floatOf, chunks).0, data)
  {
    hide Feed;
    assert (chunks + [data])[..|chunks|] == chunks;
  }

  /** The last of the late reads, and how far k is from the stream before it. */
  lemma LastLateRead(s: seq<Byte>, limit: nat, k: nat, q: nat) returns (init: seq<Byte>, data: seq<Byte>)
    requires limit > 0 && k < |s| <= k + Within(q, limit)
    ensures init + data == s && 0 < |data| <= limit && 0 < q && k <= |init| <= k + Within(q - 1, limit)
    ensures LateReads(s, limit, k) == LateReads(init, limit, k) + [data]
    ensures EndedBy(init, k) == EndedBy(s, k)
  {
    hide Within, Complete;
    var b := if k + limit <= |s| then |s| - limit else k;
    init, data := s[..b], s[b..];
    assert init[..k] == s[..k];
    WithinNext(0, limit);
    WithinNext(q - 1, limit);
  }

  /** Read so, q reads get past fewer than q raising lines other than the last they handle. */
  lemma {:induction false} LateReadsLag(cfg: Config, floatOf: FloatOf, s: seq<Byte>, limit: nat, k: nat, q: nat)
      returns (h: nat)
    requires limit > 0 && k <= |s| <= k + Within(q, limit)
    ensures var chunks := LateReads(s, limit, k);
      && Limited(chunks, limit) && Stream(chunks) == s
      && StandsAt(cfg, floatOf, Feeds(cfg, floatOf, chunks).0, Complete(s), h, Rest(s))
      && EndedBy(s, k) <= h <= |Complete(s)|
      && (h == EndedBy(s, k) || Raising(cfg, floatOf, Complete(s), EndedBy(s, k), h - 1) < q)
    decreases |s|
  {
    hide Feed, Feeds, Stream, Limited, Complete, Rest, StandsAt, LineRaises, Raising, Within, Finished, Bytewise;
    if |s| <= k {
      h := |Complete(s)|;
      OneIsWithin(Bytewise(s), limit);
      BytewiseFinishes(cfg, floatOf, s);
      BytewiseLimited(s);
      StandsFinished(cfg, floatOf, s);
      assert s[..k] == s;
    } else {
      var init, data := LastLateRead(s, limit, k, q);
      var h0 := LateReadsLag(cfg, floatOf, init, limit, k, q - 1);
      var early := LateReads(init, limit, k);
      ReadAppended(cfg, floatOf, early, data, limit);
      h := ReadReaches(cfg, floatOf, Feeds(cfg, floatOf, early).0, init, h0, data);
      LagGrows(cfg, floatOf, Complete(init), Complete(s), EndedBy(s, k), h0, h, q - 1);
    }
  }

  lemma LagGrows(cfg: Config, floatOf: FloatOf, lines: seq<seq<Byte>>, all: seq<seq<Byte>>, first: nat, h: nat, h': nat,
                 q: nat)
    requires lines <= all && first <= h <= |lines| && h <= h' <= |all|
    requires h == first || Raising(cfg, floatOf, lines, first, h - 1) < q
    requires forall i :: h <= i < h' - 1 ==> !LineRaises(cfg, floatOf, all, i)
    ensures h' == first || Raising(cfg, floatOf, all, first, h' - 1) < q + 1
  {
    hide LineRaises;
    assert lines + all[|lines|..] == all;
    if h > first {
      RaisingPrefix(cfg, floatOf, lines, all[|lines|..], first, h - 1);
      RaisingOneMore(cfg, floatOf, all, first, h - 1);
    }
    if h' > h {
      RaisingGap(cfg, floatOf, all, first, h, h' - 1);
    }
  }

  // ---------- the exact condition ----------

  /**
   * With reads of at most limit bytes: exactly the lines of the stream are handled and its tail is left, however it is
   * cut, if and only if for no q do q lines raise, the last line not counted, that end in the last q * limit bytes.
   */
  lemma FinishedExactly(cfg: Config, floatOf: FloatOf, s: seq<Byte>, limit: nat)
    requires limit > 0
    ensures !Overrun(cfg, floatOf, s, limit) <==>
      forall chunks :: Limited(chunks, limit) && Stream(chunks) == s ==>
        Feeds(cfg, floatOf, chunks).0 == Finished(cfg, floatOf, s)
  {
    hide Feeds, Finished, Complete, Rest, StandsAt, Raised, Overrun, Limited;
    if Overrun(cfg, floatOf, s, limit) {
      var chunks := LateCut(cfg, floatOf, s, limit);
    } else {
      forall chunks | Limited(chunks, limit) && Stream(chunks) == s
        ensures Feeds(cfg, floatOf, chunks).0 == Finished(cfg, floatOf, s)
      {
        var h, q := LeftAfterRaised(cfg, floatOf, chunks, limit);
        StandsAtEnd(cfg, floatOf, Feeds(cfg, floatOf, chunks).0, s, h);
        StandsInRange(cfg, floatOf, Feeds(cfg, floatOf, chunks).0, s, h);
        if h < |Complete(s)| {
          RaisedIsOverrun(cfg, floatOf, s, h, limit, q);
        }
      }
    }
  }

  lemma StandsInRange(cfg: Config, floatOf: FloatOf, st: State, s: seq<Byte>, h: nat)
    requires StandsAt(cfg, floatOf, st, Complete(s), h, Rest(s))
    ensures h <= |Complete(s)|
  {
    hide Complete, Rest, Texts, HandleAll;
  }

  lemma LateCut(cfg: Config, floatOf: FloatOf, s: seq<Byte>, limit: nat) returns (chunks: seq<seq<Byte>>)
    requires limit > 0 && Overrun(cfg, floatOf, s, limit)
    ensures Limited(chunks, limit) && Stream(chunks) == s
    ensures Feeds(cfg, floatOf, chunks).0 != Finished(cfg, floatOf, s)
  {
    hide Feeds, Finished, Complete, Rest, StandsAt, LineRaises, Limited, Within, LateReads, EndedBy;
    var q: nat :| 0 < q && RaisingLate(cfg, floatOf, s, Within(q, limit)) >= q;
    var k := Back(|s|, Within(q, limit));
    chunks := LateReads(s, limit, k);
    var h := LateReadsLag(cfg, floatOf, s, limit, k, q);
    StandsAtEnd(cfg, floatOf, Feeds(cfg, floatOf, chunks).0, s, h);
  }

  /** Read boundaries do not matter, for a given stream and reads of at most limit bytes, under the same condition. */
  lemma ChunkingIrrelevant(cfg: Config, floatOf: FloatOf, s: seq<Byte>, limit: nat)
    requires limit > 0
    ensures !Overrun(cfg, floatOf, s, limit) <==>
      forall a, b :: Limited(a, limit) && Limited(b, limit) && Stream(a) == s && Stream(b) == s ==>
        Feeds(cfg, floatOf, a).0 == Feeds(cfg, floatOf, b).0
  {
    hide Feeds, Stream, Finished, Overrun, Bytewise;
    FinishedExactly(cfg, floatOf, s, limit);
    BytewiseFinishes(cfg, floatOf, s);
    BytewiseLimited(s);
  }

  /** Where one read can take the whole stream: no exception may escape on a complete line before the last one. */
  lemma WideReads(cfg: Config, floatOf: FloatOf, s: seq<Byte>, limit: nat)
    requires |s| <= limit
    ensures Overrun(cfg, floatOf, s, limit) <==> !QuietFrom(cfg, floatOf, Complete(s), 0)
    ensures Overrun(cfg, floatOf, s, limit) <==> Feeds(cfg, floatOf, [s]).0 != Finished(cfg, floatOf, s)
  {
    hide Feed, Feeds, Finished, Complete, Rest, LineRaises, Within, Texts;
    StreamOfOne(cfg, floatOf, s);
    NothingFramed(cfg, floatOf);
    ReadFinishes(cfg, floatOf, [], s);
    assert [] + s == s && s[..0] == [];
    var lines := Complete(s);
    var n := |lines|;
    forall q: nat | 0 < q ensures Back(|s|, Within(q, limit)) == 0 {
      ManyReads(q, limit);
    }
    if n > 0 {
      if QuietFrom(cfg, floatOf, lines, 0) {
        RaisingGap(cfg, floatOf, lines, 0, 0, n - 1);
      } else {
        var i :| 0 <= i < n - 1 && LineRaises(cfg, floatOf, lines, i);
        RaisingOneMore(cfg, floatOf, lines, 0, i);
        RaisingGrows(cfg, floatOf, lines, 0, i + 1, 0, n - 1);
        assert RaisingLate(cfg, floatOf, s, Within(1, limit)) >= 1;
      }
    }
  }
}
