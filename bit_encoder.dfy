/** The bit encoder of the WS2812 timer-delay driver.

    The driver talks to the strip only through two hardware calls: a change
    of the output pin (set high, set low) and a blocking wait for the next
    tick of a periodic 3 MHz timer. Each call is modelled as one abstract
    event, and everything the driver does is a sequence of such events.
 */
module BitEncoder {

  /** One hardware call: a blocking wait for the next timer tick, or a pin change. */
  datatype Event = Wait | High | Low

  /** The build-time timing table: the default one, or the one of the `slow` feature. */
  datatype Profile = Normal | Slow

  /** The events one bit is sent as (src/lib.rs:43-55 for Slow, 67-81 for Normal). */
  function BitPattern(p: Profile, bit: bool): (t: seq<Event>)
    ensures |t| == PatternLength(p)
  {
    match p
    case Normal =>
      if bit then [Wait, High, Wait, Wait, Low, Wait]
      else [Wait, High, Wait, Low, Wait, Wait]
    case Slow =>
      if bit then [Wait, High, Wait, Wait, Low]
      else [Wait, High, Low, Wait, Wait]
  }

  /** Number of events in one bit pattern of the profile. */
  function PatternLength(p: Profile): nat
  {
    match p
    case Normal => 6
    case Slow => 5
  }

  /** Number of timer waits one bit costs under the profile. */
  function TicksPerBit(p: Profile): nat
  {
    match p
    case Normal => 4
    case Slow => 3
  }

  /** How many times `e` occurs in `t`. */
  function Count(e: Event, t: seq<Event>): nat
    decreases |t|
  {
    if t == [] then 0 else (if t[0] == e then 1 else 0) + Count(e, t[1..])
  }

  /** Level of the line (true = high) after `e`, when it was `level` before. */
  function Step(level: bool, e: Event): bool
  {
    match e
    case High => true
    case Low => false
    case Wait => level
  }

  /** Level of the line after the events `t`, starting at `start`. */
  function LevelAfter(start: bool, t: seq<Event>): bool
    decreases |t|
  {
    if t == [] then start else LevelAfter(Step(start, t[0]), t[1..])
  }

  /** Number of timer waits in `t` that happen while the line is at `level`,
      starting at `start`: the time, in ticks, the line spends at that level. */
  function TicksAt(level: bool, start: bool, t: seq<Event>): nat
    decreases |t|
  {
    if t == [] then 0
    else (if t[0] == Wait && start == level then 1 else 0) + TicksAt(level, Step(start, t[0]), t[1..])
  }

  lemma {:induction false} CountAppend(e: Event, a: seq<Event>, b: seq<Event>)
    ensures Count(e, a + b) == Count(e, a) + Count(e, b)
    decreases |a|
  {
    if a != [] {
      assert (a + b)[0] == a[0] && (a + b)[1..] == a[1..] + b;
      CountAppend(e, a[1..], b);
    } else {
      assert a + b == b;
    }
  }

  lemma {:induction false} LevelAfterAppend(start: bool, a: seq<Event>, b: seq<Event>)
    ensures LevelAfter(start, a + b) == LevelAfter(LevelAfter(start, a), b)
    decreases |a|
  {
    if a != [] {
      assert (a + b)[0] == a[0] && (a + b)[1..] == a[1..] + b;
      LevelAfterAppend(Step(start, a[0]), a[1..], b);
    } else {
      assert a + b == b;
    }
  }

  lemma {:induction false} TicksAtAppend(level: bool, start: bool, a: seq<Event>, b: seq<Event>)
    ensures TicksAt(level, start, a + b) == TicksAt(level, start, a) + TicksAt(level, LevelAfter(start, a), b)
    decreases |a|
  {
    if a != [] {
      assert (a + b)[0] == a[0] && (a + b)[1..] == a[1..] + b;
      TicksAtAppend(level, Step(start, a[0]), a[1..], b);
    } else {
      assert a + b == b;
    }
  }

  /** A bit pattern has one High and one Low, TicksPerBit waits, starts by
      aligning to a tick and rising, and falls again after that. */
  lemma BitPatternShape(p: Profile, bit: bool)
    ensures var t := BitPattern(p, bit);
      && Count(Wait, t) == TicksPerBit(p)
      && Count(High, t) == 1
      && Count(Low, t) == 1
      && t[0] == Wait && t[1] == High
      && exists j :: 1 < j < |t| && t[j] == Low
  {
    match p
    case Normal =>
      if bit {
        var t := [Wait, High, Wait, Wait, Low, Wait];
        assert BitPattern(Normal, true) == t;
        assert Count(Wait, t) == 4 && Count(High, t) == 1 && Count(Low, t) == 1 && t[4] == Low;
      } else {
        var t := [Wait, High, Wait, Low, Wait, Wait];
        assert BitPattern(Normal, false) == t;
        assert Count(Wait, t) == 4 && Count(High, t) == 1 && Count(Low, t) == 1 && t[3] == Low;
      }
    case Slow =>
      if bit {
        var t := [Wait, High, Wait, Wait, Low];
        assert BitPattern(Slow, true) == t;
        assert Count(Wait, t) == 3 && Count(High, t) == 1 && Count(Low, t) == 1 && t[4] == Low;
      } else {
        var t := [Wait, High, Low, Wait, Wait];
        assert BitPattern(Slow, false) == t;
        assert Count(Wait, t) == 3 && Count(High, t) == 1 && Count(Low, t) == 1 && t[2] == Low;
      }
  }

  /** Whatever the line was before, it is low after any bit pattern. */
  lemma BitPatternEndsLow(p: Profile, bit: bool, start: bool)
    ensures !LevelAfter(start, BitPattern(p, bit))
  {
    var t := BitPattern(p, bit);
    // the events before the fall and the ones after it
    var i := if p == Normal && bit then 5 else if p == Normal then 4 else if bit then 5 else 3;
    assert t == t[..i] + t[i..];
    LevelAfterAppend(start, t[..i], t[i..]);
    assert t[i - 1] == Low;
    assert t[..i] == t[..i - 1] + [Low];
    LevelAfterAppend(start, t[..i - 1], [Low]);
    forall e | e in t[i..] ensures e == Wait {
    }
    WaitsKeepLevel(false, t[i..]);
  }

  /** Waits never change the level of the line. */
  lemma {:induction false} WaitsKeepLevel(start: bool, t: seq<Event>)
    requires forall e :: e in t ==> e == Wait
    ensures LevelAfter(start, t) == start
    decreases |t|
  {
    if t != [] {
      assert t[0] in t;
      forall e | e in t[1..] ensures e == Wait {
        assert e in t;
      }
      WaitsKeepLevel(start, t[1..]);
    }
  }

  /** The waits of the four patterns, counted by level, started low. */
  lemma NormalTicks()
    ensures TicksAt(true, false, BitPattern(Normal, true)) == 2
    ensures TicksAt(false, false, BitPattern(Normal, true)) == 2
    ensures TicksAt(true, false, BitPattern(Normal, false)) == 1
    ensures TicksAt(false, false, BitPattern(Normal, false)) == 3
  {
  }

  lemma SlowTicks()
    ensures TicksAt(true, false, BitPattern(Slow, true)) == 2
    ensures TicksAt(false, false, BitPattern(Slow, true)) == 1
    ensures TicksAt(true, false, BitPattern(Slow, false)) == 0
    ensures TicksAt(false, false, BitPattern(Slow, false)) == 3
  {
  }

  /** Started low, a bit pattern spends every one of its waits at one level
      or the other, a 1 stays high for two ticks, and a 0 for fewer: this is
      what lets the strip tell the two apart. */
  lemma BitPatternTiming(p: Profile, bit: bool)
    ensures TicksAt(true, false, BitPattern(p, bit)) + TicksAt(false, false, BitPattern(p, bit)) == TicksPerBit(p)
    ensures TicksAt(true, false, BitPattern(p, true)) == 2
    ensures TicksAt(true, false, BitPattern(p, false)) < TicksAt(true, false, BitPattern(p, true))
  {
    match p
    case Normal =>
      NormalTicks();
    case Slow =>
      SlowTicks();
  }
}
