/** The inverse of gmtime by binary search over time_t. */
module Mkgmtime {
  import opened Calendar

  function Pow2(n: nat): (p: int)
    ensures p >= 1
  {
    if n == 0 then 1 else 2 * Pow2(n - 1)
  }

  /** The comparison chain of the source. */
  method TmComp(a: Tm, b: Tm) returns (result: int)
    ensures result == Compare(a, b)
  {
    result := a.year - b.year;
    if result == 0 {
      result := a.mon - b.mon;
      if result == 0 {
        result := a.mday - b.mday;
        if result == 0 {
          result := a.hour - b.hour;
          if result == 0 {
            result := a.min - b.min;
            if result == 0 {
              result := a.sec - b.sec;
            }
          }
        }
      }
    }
  }

  /** t << 1 in a signed word of width bits: the bit that reaches the sign makes it negative. */
  function ShiftLeft(t: int, width: nat): int
    requires width >= 1
  {
    if 2 * t >= Pow2(width - 1) then 2 * t - Pow2(width) else 2 * t
  }

  /** Counts the magnitude bits of time_t by shifting until the sign bit is hit. */
  method MagnitudeBits(width: nat) returns (bits: nat, t: int)
    requires width >= 2
    ensures bits == width - 1 && t < 0
  {
    bits, t := 0, 1;
    PowersGrow(0, width - 1);
    while t > 0
      invariant bits <= width - 1
      invariant if bits < width - 1 then t == Pow2(bits) else t < 0
      decreases width - bits
    {
      t := ShiftLeft(t, width);
      bits := bits + 1;
      if bits < width - 1 {
        PowersGrow(bits, width - 1);
      }
    }
  }

  lemma {:induction false} PowersGrow(a: nat, b: nat)
    requires a <= b
    ensures Pow2(a) <= Pow2(b)
    ensures a < b ==> Pow2(a) < Pow2(b)
    decreases b - a
  {
    if a < b { PowersGrow(a, b - 1); }
  }

  /** The instant of the start of the minute, when the fields other than the seconds name one. */
  function MinuteStart(tm: Tm): Tm {
    tm.(sec := 0)
  }

  /** Number of bits searched: the magnitude bits of time_t, capped at 40. */
  function SearchBits(width: nat): nat
    requires width >= 2
  {
    if width - 1 > 40 then 40 else width - 1
  }

  /** The fields name a minute of the calendar, and its start is within the searched range. */
  predicate Findable(tm: Tm, width: nat)
    requires width >= 2
  {
    IsCalendarTime(MinuteStart(tm)) && -Pow2(SearchBits(width)) <= SecondsOf(MinuteStart(tm)) < Pow2(SearchBits(width))
  }

  /** What the search still has to cover when its next step is 2^(bits - 1); after the last halving only --t is left. */
  ghost predicate Brackets(target: int, t: int, bits: int) {
    if bits >= 0 then -Pow2(bits) <= target - t < Pow2(bits)
    else bits == -1 && target == t
  }

  /** The instants the search has looked at stay within the searched range. */
  ghost predicate InRange(t: int, bits: int, top: nat) {
    if bits >= 0 then bits <= top && Pow2(bits) - Pow2(top) <= t <= Pow2(top) - Pow2(bits)
    else -Pow2(top) <= t < Pow2(top)
  }

  /** Next instant looked at. */
  function NextProbe(t: int, dir: int, bits: int): int {
    if bits < 0 then t - 1 else if dir > 0 then t - Pow2(bits) else t + Pow2(bits)
  }

  /** A wrong guess halves the range around the target, with one case left over for the final decrement. */
  lemma ProbeBrackets(target: int, t: int, dir: int, bits: int)
    requires bits >= 0 && Brackets(target, t, bits) && target != t && (dir > 0 <==> target < t)
    ensures Brackets(target, NextProbe(t, dir, bits - 1), bits - 1)
  {
    if bits >= 1 {
      assert Pow2(bits) == 2 * Pow2(bits - 1);
    }
  }

  lemma ProbeInRange(t: int, dir: int, bits: int, top: nat)
    requires bits >= 0 && InRange(t, bits, top)
    ensures InRange(NextProbe(t, dir, bits - 1), bits - 1, top)
  {
    if bits >= 1 {
      assert Pow2(bits) == 2 * Pow2(bits - 1);
    }
  }

  /** Comparing an instant with a calendar time tells on which side of it the instant lies. */
  lemma DirectionIsRight(tm: Tm, t: int)
    requires IsCalendarTime(tm)
    ensures Compare(Gmtime(t), tm) == 0 <==> t == SecondsOf(tm)
    ensures Compare(Gmtime(t), tm) > 0 <==> SecondsOf(tm) < t
  {
    hide Compare, SecondsOf;
    CompareOrders(Gmtime(t), tm);
  }

  /** Equal fields mean that the time is a calendar time. */
  lemma EqualMeansCalendar(tm: Tm, t: int)
    ensures Compare(Gmtime(t), tm) == 0 ==> tm == Gmtime(t)
  {
  }

  /**
   Finds the instant whose fields are those of tm, seconds aside, within the searched range, and adds the
   seconds; stops with -1 exactly when there is none. It compares at most bits + 2 times, 42 in all for a
   64-bit time_t.
   */
  method MakeGmtime(tm: Tm, width: nat) returns (result: int, ghost comparisons: nat)
    requires width >= 2
    ensures result == if Findable(tm, width) then SecondsOf(MinuteStart(tm)) + tm.sec else -1
    ensures comparisons <= SearchBits(width) + 2 <= 42
  {
    hide Compare, SecondsOf, IsCalendarTime, Gmtime, Pow2, Brackets, InRange, NextProbe;
    var yourtm := tm.(sec := 0);
    var savedSeconds := tm.sec;
    var bits: int, t: int;
    bits, t := MagnitudeBits(width);
    t := 0;
    if bits > 40 {
      bits := 40;
    }
    ghost var top := bits;
    comparisons := 0;
    SearchStarts(tm, width);
    while true
      invariant top == SearchBits(width) && -1 <= bits <= top && comparisons == top - bits
      invariant InRange(t, bits, top)
      invariant Findable(tm, width) ==> Brackets(SecondsOf(yourtm), t, bits)
      decreases bits
    {
      var mytm := Gmtime(t);
      var dir := TmComp(mytm, yourtm);
      comparisons := comparisons + 1;
      EqualMeansCalendar(yourtm, t);
      if dir == 0 {
        FoundInRange(tm, t, bits, top, width);
        break;
      }
      if Findable(tm, width) {
        DirectionIsRight(yourtm, t);
        LastProbeHits(SecondsOf(yourtm), t, bits);
        ProbeBrackets(SecondsOf(yourtm), t, dir, bits);
      }
      bits := bits - 1;
      if bits + 1 < 0 {
        return -1, comparisons;
      }
      ProbeInRange(t, dir, bits + 1, top);
      NextProbeIs(t, dir, bits);
      if bits < 0 {
        t := t - 1;
      } else if dir > 0 {
        t := t - Pow2(bits);
      } else {
        t := t + Pow2(bits);
      }
    }
    result := t + savedSeconds;
  }

  lemma NextProbeIs(t: int, dir: int, bits: int)
    ensures NextProbe(t, dir, bits) == if bits < 0 then t - 1 else if dir > 0 then t - Pow2(bits) else t + Pow2(bits)
  {
  }

  lemma SearchStarts(tm: Tm, width: nat)
    requires width >= 2
    ensures InRange(0, SearchBits(width), SearchBits(width))
    ensures Findable(tm, width) ==>
      IsCalendarTime(MinuteStart(tm)) && Brackets(SecondsOf(MinuteStart(tm)), 0, SearchBits(width))
  {
  }

  /** With the bits used up, the instant is the target. */
  lemma LastProbeHits(target: int, t: int, bits: int)
    requires Brackets(target, t, bits) && bits >= -1 && target != t
    ensures bits >= 0
  {
  }

  lemma FoundInRange(tm: Tm, t: int, bits: int, top: nat, width: nat)
    requires width >= 2 && top == SearchBits(width) && InRange(t, bits, top)
    requires MinuteStart(tm) == Gmtime(t)
    ensures Findable(tm, width) && t == SecondsOf(MinuteStart(tm))
  {
    if bits >= 0 { PowersGrow(bits, top); }
  }

  /** Every searchable instant is found from its own fields: mkgmtime inverts gmtime. */
  lemma InvertsGmtime(t: int, width: nat)
    requires width >= 2 && -Pow2(SearchBits(width)) <= t - Gmtime(t).sec && t < Pow2(SearchBits(width))
    ensures Findable(Gmtime(t), width) && SecondsOf(MinuteStart(Gmtime(t))) + Gmtime(t).sec == t
  {
    hide MonthStart, YearStart, Leap;
  }

  /** What is searched: all of a time_t of up to 41 bits, and 2^40 seconds either way of a wider one. */
  lemma SearchedRange(tm: Tm, width: nat)
    requires width >= 2 && IsCalendarTime(MinuteStart(tm))
    ensures var top := Pow2(if width <= 41 then width - 1 else 40);
      Findable(tm, width) <==> -top <= SecondsOf(MinuteStart(tm)) < top
    ensures Pow2(31) == 0x8000_0000 && Pow2(40) == 0x100_0000_0000
  {
    hide SecondsOf, IsCalendarTime;
    Powers();
  }

  lemma Powers()
    ensures Pow2(31) == 0x8000_0000 && Pow2(40) == 0x100_0000_0000
  {
    assert Pow2(10) == 1024;
    assert Pow2(20) == 0x10_0000;
    assert Pow2(30) == 0x4000_0000;
    assert Pow2(35) == 0x8_0000_0000;
  }

  /** So every instant of a 32-bit time_t is found from its own fields, from one minute after the earliest on. */
  lemma InvertsGmtime32(t: int)
    requires -0x8000_0000 + 60 <= t < 0x8000_0000
    ensures Findable(Gmtime(t), 32) && SecondsOf(MinuteStart(Gmtime(t))) + Gmtime(t).sec == t
  {
    hide SecondsOf, Findable, Pow2, Gmtime;
    Powers();
    GmtimeIsCalendar(t);
    InvertsGmtime(t, 32);
  }

  lemma GmtimeIsCalendar(t: int)
    ensures 0 <= Gmtime(t).sec < 60
  {
    hide SecondsOf;
  }
}
