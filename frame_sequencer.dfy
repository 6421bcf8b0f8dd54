/** The frame sequencer: how a byte, a colour and a whole sequence of colours
    become events (src/lib.rs:41-58, 63-84 and 95-115).
 */
module FrameSequencer {
  import opened BitEncoder

  /** A Rust `u8`: arithmetic on it wraps modulo 256. */
  type Byte = bv8

  /** An RGB8 colour value, one byte per channel. */
  datatype Rgb8 = Rgb8(r: Byte, g: Byte, b: Byte)

  /** Bit `i` of `b`, bit 0 being the least significant. */
  function BitAt(b: Byte, i: nat): bool
    requires i < 8
  {
    (b >> i) & 1 == 1
  }

  /** The bits of `b`, most significant first. */
  function Bits(b: Byte): seq<bool>
  {
    seq(8, k requires 0 <= k < 8 => BitAt(b, 7 - k))
  }

  /** The events of a sequence of bits, each sent as its pattern, in order. */
  function Encode(p: Profile, bits: seq<bool>): seq<Event>
    decreases |bits|
  {
    if bits == [] then [] else BitPattern(p, bits[0]) + Encode(p, bits[1..])
  }

  /** The events `write_byte` sends for one byte. */
  function ByteTrace(p: Profile, b: Byte): seq<Event>
  {
    Encode(p, Bits(b))
  }

  /** Number of events of one colour: the alignment wait and 24 bits. */
  function ColorLength(p: Profile): nat
  {
    1 + 24 * PatternLength(p)
  }

  /** The events `write` sends for one colour: an alignment wait, then the
      green, red and blue bytes, in that order. */
  function ColorTrace(p: Profile, c: Rgb8): seq<Event>
  {
    [Wait] + ByteTrace(p, c.g) + ByteTrace(p, c.r) + ByteTrace(p, c.b)
  }

  /** The events of the colours of `cs`, in input order. */
  function ColorsTrace(p: Profile, cs: seq<Rgb8>): seq<Event>
    decreases |cs|
  {
    if cs == [] then [] else ColorTrace(p, cs[0]) + ColorsTrace(p, cs[1..])
  }

  /** Ticks of the reset/latch gap: 160 ticks of 333 ns, just over 50 us. */
  const ResetTicks: nat := 3 * 50 + 10

  /** `n` timer waits in a row. */
  function Waits(n: nat): seq<Event>
  {
    seq(n, _ => Wait)
  }

  /** The reset/latch gap: nothing but waits. */
  function ResetGap(): seq<Event>
  {
    Waits(ResetTicks)
  }

  /** The events of one whole `write` call. */
  function FrameTrace(p: Profile, cs: seq<Rgb8>): seq<Event>
  {
    ColorsTrace(p, cs) + ResetGap()
  }

  // ---------------------------------------------------------------- bits

  /** Chunk k of a sequence cut into chunks of n, when its first chunk is
      `head`, is chunk k - 1 of what follows the head. */
  lemma ChunkAfterHead<T>(head: seq<T>, tail: seq<T>, n: nat, k: nat)
    requires |head| == n && 0 < k && (k + 1) * n <= |head| + |tail|
    ensures (k - 1) * n + n == k * n && k * n + n == (k + 1) * n
    ensures (head + tail)[k * n..(k + 1) * n] == tail[(k - 1) * n..k * n]
  {
    assert (k - 1) * n + n == k * n;
    assert k * n + n == (k + 1) * n;
  }

  /** One wrapping left shift, as `write_byte` does after each bit, moves
      every bit one place towards the top and drops bit 7, which is the bit
      `data & 0x80` tests. */
  lemma ShiftBits(d: Byte)
    ensures (d & 0x80 != 0) == Bits(d)[0]
    ensures Bits(d << 1)[..7] == Bits(d)[1..]
  {
  }

  /** The shift-and-test loop of `write_byte` sees the bits MSB first: when
      the top `8 - k` bits of `d` are the bits of `b` from `k` on, bit 7 of
      `d` is bit `k` of `b`, and after one more shift the same holds for
      `k + 1`. */
  lemma ShiftStep(b: Byte, d: Byte, k: nat)
    requires k < 8 && Bits(d)[..8 - k] == Bits(b)[k..]
    ensures (d & 0x80 != 0) == Bits(b)[k]
    ensures Bits(d << 1)[..7 - k] == Bits(b)[k + 1..]
  {
    ShiftBits(d);
    DropOne(Bits(d), Bits(d << 1), Bits(b), k);
  }

  lemma DropOne<T>(s: seq<T>, u: seq<T>, t: seq<T>, k: nat)
    requires |s| == |u| == |t| == 8 && k < 8
    requires s[..8 - k] == t[k..] && u[..7] == s[1..]
    ensures s[0] == t[k] && u[..7 - k] == t[k + 1..]
  {
    assert s[0] == s[..8 - k][0];
    assert u[..7 - k] == u[..7][..7 - k];
    assert t[k + 1..] == t[k..][1..];
  }

  lemma {:induction false} EncodeLength(p: Profile, bits: seq<bool>)
    ensures |Encode(p, bits)| == |bits| * PatternLength(p)
    decreases |bits|
  {
    if bits != [] {
      EncodeLength(p, bits[1..]);
    }
  }

  /** Encoding distributes over concatenation of bit sequences. */
  lemma {:induction false} EncodeAppend(p: Profile, xs: seq<bool>, ys: seq<bool>)
    ensures Encode(p, xs + ys) == Encode(p, xs) + Encode(p, ys)
    decreases |xs|
  {
    if xs == [] {
      assert xs + ys == ys;
    } else {
      assert (xs + ys)[0] == xs[0] && (xs + ys)[1..] == xs[1..] + ys;
      EncodeAppend(p, xs[1..], ys);
    }
  }

  /** The k-th group of PatternLength events is the pattern of the k-th bit. */
  lemma {:induction false} EncodeAt(p: Profile, bits: seq<bool>, k: nat)
    requires k < |bits|
    ensures |Encode(p, bits)| == |bits| * PatternLength(p)
    ensures Encode(p, bits)[k * PatternLength(p)..(k + 1) * PatternLength(p)] == BitPattern(p, bits[k])
    decreases k
  {
    EncodeLength(p, bits);
    var n := PatternLength(p);
    var head, tail := BitPattern(p, bits[0]), Encode(p, bits[1..]);
    if k > 0 {
      EncodeAt(p, bits[1..], k - 1);
      ChunkAfterHead(head, tail, n, k);
    } else {
      assert (head + tail)[..n] == head;
    }
  }

  /** Every bit costs TicksPerBit waits, one High and one Low. */
  lemma {:induction false} EncodeCounts(p: Profile, bits: seq<bool>)
    ensures Count(Wait, Encode(p, bits)) == |bits| * TicksPerBit(p)
    ensures Count(High, Encode(p, bits)) == |bits|
    ensures Count(Low, Encode(p, bits)) == |bits|
    decreases |bits|
  {
    if bits != [] {
      var head, tail := BitPattern(p, bits[0]), Encode(p, bits[1..]);
      EncodeCounts(p, bits[1..]);
      BitPatternShape(p, bits[0]);
      CountAppend(Wait, head, tail);
      CountAppend(High, head, tail);
      CountAppend(Low, head, tail);
    }
  }

  /** A non-empty encoding leaves the line low, whatever it was before, and
      an encoding started low ends low. */
  lemma {:induction false} EncodeEndsLow(p: Profile, bits: seq<bool>, start: bool)
    requires bits != [] || !start
    ensures !LevelAfter(start, Encode(p, bits))
    decreases |bits|
  {
    if bits != [] {
      var head, tail := BitPattern(p, bits[0]), Encode(p, bits[1..]);
      LevelAfterAppend(start, head, tail);
      BitPatternEndsLow(p, bits[0], start);
      EncodeEndsLow(p, bits[1..], false);
    }
  }

  // ---------------------------------------------------------------- bytes

  /** A byte is eight patterns, and pattern k is bit 7 - k of the byte. */
  lemma ByteTraceMsbFirst(p: Profile, b: Byte, k: nat)
    requires k < 8
    ensures |ByteTrace(p, b)| == 8 * PatternLength(p)
    ensures ByteTrace(p, b)[k * PatternLength(p)..(k + 1) * PatternLength(p)] == BitPattern(p, BitAt(b, 7 - k))
  {
    EncodeAt(p, Bits(b), k);
  }

  /** 0x00 is eight 0-patterns, 0xFF eight 1-patterns, 0x80 a 1-pattern and
      then seven 0-patterns. */
  lemma ByteTraceExamples(p: Profile)
    ensures ByteTrace(p, 0x00) == Encode(p, seq(8, _ => false))
    ensures ByteTrace(p, 0xFF) == Encode(p, seq(8, _ => true))
    ensures ByteTrace(p, 0x80) == BitPattern(p, true) + Encode(p, seq(7, _ => false))
  {
    assert Bits(0x00) == seq(8, _ => false);
    assert Bits(0xFF) == seq(8, _ => true);
    var zeros := seq(7, _ => false);
    assert Bits(0x80) == [true] + zeros;
    assert ([true] + zeros)[0] == true && ([true] + zeros)[1..] == zeros;
  }

  lemma ByteTraceCounts(p: Profile, b: Byte)
    ensures |ByteTrace(p, b)| == 8 * PatternLength(p)
    ensures Count(Wait, ByteTrace(p, b)) == 8 * TicksPerBit(p)
    ensures Count(High, ByteTrace(p, b)) == 8 && Count(Low, ByteTrace(p, b)) == 8
  {
    EncodeLength(p, Bits(b));
    EncodeCounts(p, Bits(b));
  }

  lemma ByteTraceEndsLow(p: Profile, b: Byte, start: bool)
    ensures !LevelAfter(start, ByteTrace(p, b))
  {
    EncodeEndsLow(p, Bits(b), start);
  }

  // ---------------------------------------------------------------- colours

  /** A colour starts with one alignment wait, then green, red and blue, each
      as eight bit patterns: the order is G, R, B whatever the field order. */
  lemma ColorTraceLayout(p: Profile, c: Rgb8)
    ensures var t, n := ColorTrace(p, c), 8 * PatternLength(p);
      && |t| == ColorLength(p)
      && t[0] == Wait
      && t[1..1 + n] == ByteTrace(p, c.g)
      && t[1 + n..1 + 2 * n] == ByteTrace(p, c.r)
      && t[1 + 2 * n..] == ByteTrace(p, c.b)
  {
    ByteTraceCounts(p, c.g);
    ByteTraceCounts(p, c.r);
    ByteTraceCounts(p, c.b);
  }

  lemma ColorTraceLength(p: Profile, c: Rgb8)
    ensures |ColorTrace(p, c)| == ColorLength(p)
  {
    ByteTraceCounts(p, c.g);
    ByteTraceCounts(p, c.r);
    ByteTraceCounts(p, c.b);
  }

  lemma ColorTraceCounts(p: Profile, c: Rgb8)
    ensures Count(Wait, ColorTrace(p, c)) == 1 + 24 * TicksPerBit(p)
    ensures Count(High, ColorTrace(p, c)) == 24 && Count(Low, ColorTrace(p, c)) == 24
  {
    var g, r, b := ByteTrace(p, c.g), ByteTrace(p, c.r), ByteTrace(p, c.b);
    ByteTraceCounts(p, c.g);
    ByteTraceCounts(p, c.r);
    ByteTraceCounts(p, c.b);
    assert ColorTrace(p, c) == [Wait] + (g + (r + b));
    CountAppend(Wait, r, b);
    CountAppend(Wait, g, r + b);
    CountAppend(Wait, [Wait], g + (r + b));
    CountAppend(High, r, b);
    CountAppend(High, g, r + b);
    CountAppend(High, [Wait], g + (r + b));
    CountAppend(Low, r, b);
    CountAppend(Low, g, r + b);
    CountAppend(Low, [Wait], g + (r + b));
  }

  lemma ColorTraceEndsLow(p: Profile, c: Rgb8, start: bool)
    ensures !LevelAfter(start, ColorTrace(p, c))
  {
    var g, r, b := ByteTrace(p, c.g), ByteTrace(p, c.r), ByteTrace(p, c.b);
    assert ColorTrace(p, c) == ([Wait] + g + r) + b;
    LevelAfterAppend(start, [Wait] + g + r, b);
    ByteTraceEndsLow(p, c.b, LevelAfter(start, [Wait] + g + r));
  }

  // ---------------------------------------------------------------- frames

  lemma {:induction false} ColorsTraceLength(p: Profile, cs: seq<Rgb8>)
    ensures |ColorsTrace(p, cs)| == |cs| * ColorLength(p)
    decreases |cs|
  {
    if cs != [] {
      ColorTraceLength(p, cs[0]);
      ColorsTraceLength(p, cs[1..]);
    }
  }

  /** The colours of xs + ys are sent as those of xs, then those of ys. */
  lemma {:induction false} ColorsTraceAppend(p: Profile, xs: seq<Rgb8>, ys: seq<Rgb8>)
    ensures ColorsTrace(p, xs + ys) == ColorsTrace(p, xs) + ColorsTrace(p, ys)
    decreases |xs|
  {
    if xs == [] {
      assert xs + ys == ys;
    } else {
      assert (xs + ys)[0] == xs[0] && (xs + ys)[1..] == xs[1..] + ys;
      ColorsTraceAppend(p, xs[1..], ys);
    }
  }

  /** The events of `cs` around its i-th colour. */
  lemma ColorsTraceSplit(p: Profile, cs: seq<Rgb8>, i: nat)
    requires i < |cs|
    ensures ColorsTrace(p, cs) == ColorsTrace(p, cs[..i]) + (ColorTrace(p, cs[i]) + ColorsTrace(p, cs[i + 1..]))
  {
    var before, after := cs[..i], cs[i + 1..];
    assert cs == before + ([cs[i]] + after);
    ColorsTraceAppend(p, before, [cs[i]] + after);
    assert ([cs[i]] + after)[0] == cs[i] && ([cs[i]] + after)[1..] == after;
  }

  lemma MiddleSlice<T>(a: seq<T>, b: seq<T>, c: seq<T>)
    ensures (a + (b + c))[|a|..|a| + |b|] == b
  {
  }

  /** Colours are sent in input order: the i-th group of ColorLength events
      is the i-th colour. */
  lemma ColorsTraceAt(p: Profile, cs: seq<Rgb8>, i: nat)
    requires i < |cs|
    ensures |ColorsTrace(p, cs)| == |cs| * ColorLength(p)
    ensures i * ColorLength(p) < (i + 1) * ColorLength(p) <= |ColorsTrace(p, cs)|
    ensures ColorsTrace(p, cs)[i * ColorLength(p)..(i + 1) * ColorLength(p)] == ColorTrace(p, cs[i])
  {
    ColorsTraceLength(p, cs);
    ColorsTraceLength(p, cs[..i]);
    ColorTraceLength(p, cs[i]);
    ColorsTraceSplit(p, cs, i);
    MiddleSlice(ColorsTrace(p, cs[..i]), ColorTrace(p, cs[i]), ColorsTrace(p, cs[i + 1..]));
    assert (i + 1) * ColorLength(p) == i * ColorLength(p) + ColorLength(p);
  }

  /** Every colour, the first one of every write included, starts with a
      wait for the next tick: no phase is carried over from what came before. */
  lemma ColorsTraceAligned(p: Profile, cs: seq<Rgb8>, i: nat)
    requires i < |cs|
    ensures i * ColorLength(p) < |ColorsTrace(p, cs)|
    ensures ColorsTrace(p, cs)[i * ColorLength(p)] == Wait
  {
    ColorsTraceAt(p, cs, i);
    ColorTraceLayout(p, cs[i]);
    SliceHead(ColorsTrace(p, cs), i * ColorLength(p), (i + 1) * ColorLength(p), ColorTrace(p, cs[i]));
  }

  lemma SliceHead<T>(t: seq<T>, i: nat, j: nat, u: seq<T>)
    requires i < j <= |t| && t[i..j] == u
    ensures t[i] == u[0]
  {
    assert t[i..j][0] == t[i];
  }

  lemma {:induction false} ColorsTraceCounts(p: Profile, cs: seq<Rgb8>)
    ensures Count(Wait, ColorsTrace(p, cs)) == |cs| * (1 + 24 * TicksPerBit(p))
    ensures Count(High, ColorsTrace(p, cs)) == 24 * |cs|
    ensures Count(Low, ColorsTrace(p, cs)) == 24 * |cs|
    decreases |cs|
  {
    if cs != [] {
      var head, tail := ColorTrace(p, cs[0]), ColorsTrace(p, cs[1..]);
      ColorTraceCounts(p, cs[0]);
      ColorsTraceCounts(p, cs[1..]);
      CountAppend(Wait, head, tail);
      CountAppend(High, head, tail);
      CountAppend(Low, head, tail);
    }
  }

  lemma {:induction false} ColorsTraceEndsLow(p: Profile, cs: seq<Rgb8>, start: bool)
    requires cs != [] || !start
    ensures !LevelAfter(start, ColorsTrace(p, cs))
    decreases |cs|
  {
    if cs != [] {
      var head, tail := ColorTrace(p, cs[0]), ColorsTrace(p, cs[1..]);
      LevelAfterAppend(start, head, tail);
      ColorTraceEndsLow(p, cs[0], start);
      ColorsTraceEndsLow(p, cs[1..], false);
    }
  }

  lemma {:induction false} ResetGapCounts(k: nat)
    ensures var t := Waits(k);
      Count(Wait, t) == k && Count(High, t) == 0 && Count(Low, t) == 0
      && TicksAt(false, false, t) == k && !LevelAfter(false, t)
  {
    if k > 0 {
      var t := Waits(k);
      ResetGapCounts(k - 1);
      var s := Waits(k - 1);
      assert t[0] == Wait && t[1..] == s;
    }
  }

  lemma WaitsOneMore(n: nat)
    ensures Waits(n + 1) == Waits(n) + [Wait]
  {
  }

  /** Event counts of a whole write of N colours: N * (1 + 24 * TicksPerBit)
      + 160 waits, and 24 * N of each pin change. */
  lemma FrameCounts(p: Profile, cs: seq<Rgb8>)
    ensures Count(Wait, FrameTrace(p, cs)) == |cs| * (1 + 24 * TicksPerBit(p)) + 160
    ensures Count(High, FrameTrace(p, cs)) == 24 * |cs|
    ensures Count(Low, FrameTrace(p, cs)) == 24 * |cs|
  {
    ColorsTraceCounts(p, cs);
    ResetGapCounts(ResetTicks);
    CountAppend(Wait, ColorsTrace(p, cs), ResetGap());
    CountAppend(High, ColorsTrace(p, cs), ResetGap());
    CountAppend(Low, ColorsTrace(p, cs), ResetGap());
  }

  /** With no colours, a write is 160 waits and no pin change. */
  lemma FrameEmpty(p: Profile)
    ensures |FrameTrace(p, [])| == 160
    ensures forall i :: 0 <= i < 160 ==> FrameTrace(p, [])[i] == Wait
  {
    assert FrameTrace(p, []) == [] + ResetGap();
  }

  /** The reset gap is held low: the line is low when the gap starts (for a
      non-empty write whatever it was before; for any write when it was low),
      all 160 of its waits are spent low, and the line is low at the end. */
  lemma FrameEndsLow(p: Profile, cs: seq<Rgb8>, start: bool)
    requires cs != [] || !start
    ensures !LevelAfter(start, ColorsTrace(p, cs))
    ensures TicksAt(false, LevelAfter(start, ColorsTrace(p, cs)), ResetGap()) == ResetTicks
    ensures !LevelAfter(start, FrameTrace(p, cs))
  {
    ColorsTraceEndsLow(p, cs, start);
    ResetGapCounts(ResetTicks);
    LevelAfterAppend(start, ColorsTrace(p, cs), ResetGap());
  }
}
