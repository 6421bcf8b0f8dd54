/** The receiving side of the line: what a strip reads back from the events
    of a write. It is the inverse of the frame sequencer, and the lemmas
    below show that the encoding loses nothing: a write's events determine
    its colours, in order and channel by channel, and only the events of a
    write decode at all.
 */
module StripDecoder {
  import opened BitEncoder
  import opened FrameSequencer

  datatype Option<T> = None | Some(value: T)

  /** The bit whose pattern `seg` is, if any. */
  function DecodeBit(p: Profile, seg: seq<Event>): Option<bool>
  {
    if seg == BitPattern(p, true) then Some(true)
    else if seg == BitPattern(p, false) then Some(false)
    else None
  }

  /** The bits of `t` read as consecutive bit patterns. */
  function DecodeBits(p: Profile, t: seq<Event>): Option<seq<bool>>
    decreases |t|
  {
    var n := PatternLength(p);
    if t == [] then Some([])
    else if |t| < n then None
    else match (DecodeBit(p, t[..n]), DecodeBits(p, t[n..]))
      case (Some(bit), Some(rest)) => Some([bit] + rest)
      case _ => None
  }

  /** The value of 8 bits, most significant first. */
  function ByteOf(bits: seq<bool>): Byte
    requires |bits| == 8
  {
    Weight(bits, 0) | Weight(bits, 1) | Weight(bits, 2) | Weight(bits, 3)
    | Weight(bits, 4) | Weight(bits, 5) | Weight(bits, 6) | Weight(bits, 7)
  }

  /** What bit k of an MSB-first sequence contributes to the byte. */
  function Weight(bits: seq<bool>, k: nat): Byte
    requires k < |bits| && k < 8
  {
    if bits[k] then 0x80 >> k else 0
  }

  /** The byte `t` is the events of, if any. */
  function DecodeByte(p: Profile, t: seq<Event>): Option<Byte>
  {
    match DecodeBits(p, t)
    case Some(bits) => if |bits| == 8 then Some(ByteOf(bits)) else None
    case None => None
  }

  /** The colour `t` is the events of, if any: an alignment wait, then the
      green, red and blue bytes. */
  function DecodeColor(p: Profile, t: seq<Event>): Option<Rgb8>
  {
    var n := 8 * PatternLength(p);
    if |t| != ColorLength(p) || t[0] != Wait then None
    else match (DecodeByte(p, t[1..1 + n]), DecodeByte(p, t[1 + n..1 + 2 * n]), DecodeByte(p, t[1 + 2 * n..]))
      case (Some(g), Some(r), Some(b)) => Some(Rgb8(r, g, b))
      case _ => None
  }

  /** The colours `t` is the events of, if any. */
  function DecodeColors(p: Profile, t: seq<Event>): Option<seq<Rgb8>>
    decreases |t|
  {
    var n := ColorLength(p);
    if t == [] then Some([])
    else if |t| < n then None
    else match (DecodeColor(p, t[..n]), DecodeColors(p, t[n..]))
      case (Some(c), Some(rest)) => Some([c] + rest)
      case _ => None
  }

  /** The colours of a whole write, if `t` is one: colours, then the gap. */
  function DecodeFrame(p: Profile, t: seq<Event>): Option<seq<Rgb8>>
  {
    if |t| < ResetTicks || t[|t| - ResetTicks..] != ResetGap() then None
    else DecodeColors(p, t[..|t| - ResetTicks])
  }

  // ---------------------------------------------------------------- bits

  /** The two patterns of a profile differ, so a pattern names its bit. */
  lemma DecodeBitPattern(p: Profile, bit: bool)
    ensures DecodeBit(p, BitPattern(p, bit)) == Some(bit)
  {
    if !bit {
      match p
      case Normal => assert BitPattern(p, true)[3] != BitPattern(p, false)[3];
      case Slow => assert BitPattern(p, true)[2] != BitPattern(p, false)[2];
    }
  }

  lemma {:induction false} DecodeEncode(p: Profile, bits: seq<bool>)
    ensures DecodeBits(p, Encode(p, bits)) == Some(bits)
    decreases |bits|
  {
    if bits != [] {
      var head, tail := BitPattern(p, bits[0]), Encode(p, bits[1..]);
      var t := head + tail;
      assert t[..PatternLength(p)] == head && t[PatternLength(p)..] == tail;
      DecodeBitPattern(p, bits[0]);
      DecodeEncode(p, bits[1..]);
      assert [bits[0]] + bits[1..] == bits;
    }
  }

  lemma {:induction false} DecodeBitsSound(p: Profile, t: seq<Event>, bits: seq<bool>)
    requires DecodeBits(p, t) == Some(bits)
    ensures Encode(p, bits) == t
    decreases |t|
  {
    var n := PatternLength(p);
    if t != [] {
      var rest := DecodeBits(p, t[n..]).value;
      assert bits == [bits[0]] + rest && DecodeBit(p, t[..n]) == Some(bits[0]);
      assert bits[1..] == rest;
      DecodeBitsSound(p, t[n..], rest);
      assert t == t[..n] + t[n..];
    }
  }

  // ---------------------------------------------------------------- bytes

  lemma ByteOfBits(b: Byte)
    ensures ByteOf(Bits(b)) == b
  {
  }

  lemma BitsOfByte(bits: seq<bool>)
    requires |bits| == 8
    ensures Bits(ByteOf(bits)) == bits
  {
    var b := ByteOf(bits);
    forall k | 0 <= k < 8 ensures Bits(b)[k] == bits[k] {
      BitOfByte(bits, k);
    }
  }

  lemma BitOfByte(bits: seq<bool>, k: nat)
    requires |bits| == 8 && k < 8
    ensures BitAt(ByteOf(bits), 7 - k) == bits[k]
  {
  }

  lemma DecodeByteTrace(p: Profile, b: Byte)
    ensures DecodeByte(p, ByteTrace(p, b)) == Some(b)
  {
    DecodeEncode(p, Bits(b));
    ByteOfBits(b);
  }

  lemma DecodeByteSound(p: Profile, t: seq<Event>, b: Byte)
    requires DecodeByte(p, t) == Some(b)
    ensures ByteTrace(p, b) == t
  {
    var bits := DecodeBits(p, t).value;
    DecodeBitsSound(p, t, bits);
    BitsOfByte(bits);
  }

  // ---------------------------------------------------------------- colours

  lemma DecodeColorTrace(p: Profile, c: Rgb8)
    ensures DecodeColor(p, ColorTrace(p, c)) == Some(c)
  {
    ColorTraceLayout(p, c);
    DecodeByteTrace(p, c.g);
    DecodeByteTrace(p, c.r);
    DecodeByteTrace(p, c.b);
  }

  lemma DecodeColorSound(p: Profile, t: seq<Event>, c: Rgb8)
    requires DecodeColor(p, t) == Some(c)
    ensures ColorTrace(p, c) == t
  {
    var n := 8 * PatternLength(p);
    var g, r, b := t[1..1 + n], t[1 + n..1 + 2 * n], t[1 + 2 * n..];
    DecodeByteSound(p, g, c.g);
    DecodeByteSound(p, r, c.r);
    DecodeByteSound(p, b, c.b);
    SplitFour(t, 1, 1 + n, 1 + 2 * n);
    assert t[..1] == [Wait];
  }

  lemma SplitFour<T>(t: seq<T>, i: nat, j: nat, k: nat)
    requires i <= j <= k <= |t|
    ensures t == t[..i] + t[i..j] + t[j..k] + t[k..]
  {
  }

  lemma {:induction false} DecodeColorsTrace(p: Profile, cs: seq<Rgb8>)
    ensures DecodeColors(p, ColorsTrace(p, cs)) == Some(cs)
    decreases |cs|
  {
    if cs != [] {
      var head, tail := ColorTrace(p, cs[0]), ColorsTrace(p, cs[1..]);
      var t := head + tail;
      ColorTraceLength(p, cs[0]);
      assert t[..ColorLength(p)] == head && t[ColorLength(p)..] == tail;
      DecodeColorTrace(p, cs[0]);
      DecodeColorsTrace(p, cs[1..]);
      assert [cs[0]] + cs[1..] == cs;
    }
  }

  lemma {:induction false} DecodeColorsSound(p: Profile, t: seq<Event>, cs: seq<Rgb8>)
    requires DecodeColors(p, t) == Some(cs)
    ensures ColorsTrace(p, cs) == t
    decreases |t|
  {
    var n := ColorLength(p);
    if t != [] {
      var rest := DecodeColors(p, t[n..]).value;
      assert cs == [cs[0]] + rest && DecodeColor(p, t[..n]) == Some(cs[0]);
      assert cs[1..] == rest;
      DecodeColorSound(p, t[..n], cs[0]);
      DecodeColorsSound(p, t[n..], rest);
      assert t == t[..n] + t[n..];
    }
  }

  // ---------------------------------------------------------------- frames

  /** A trace decodes to `cs` exactly when it is the trace of writing `cs`. */
  lemma DecodeFrameExact(p: Profile, t: seq<Event>, cs: seq<Rgb8>)
    ensures DecodeFrame(p, t) == Some(cs) <==> t == FrameTrace(p, cs)
  {
    if t == FrameTrace(p, cs) {
      var body := ColorsTrace(p, cs);
      assert t[..|t| - ResetTicks] == body && t[|t| - ResetTicks..] == ResetGap();
      DecodeColorsTrace(p, cs);
    }
    if DecodeFrame(p, t) == Some(cs) {
      var body := t[..|t| - ResetTicks];
      DecodeColorsSound(p, body, cs);
      assert t == body + t[|t| - ResetTicks..];
    }
  }

  /** Different colour sequences are written as different event traces. */
  lemma FrameTraceInjective(p: Profile, xs: seq<Rgb8>, ys: seq<Rgb8>)
    requires FrameTrace(p, xs) == FrameTrace(p, ys)
    ensures xs == ys
  {
    DecodeFrameExact(p, FrameTrace(p, xs), xs);
    DecodeFrameExact(p, FrameTrace(p, ys), ys);
  }
}
