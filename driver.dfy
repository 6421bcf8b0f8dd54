/** The `Ws2812` driver object (src/lib.rs:22-116). It owns the timer and the
    pin; each hardware call it makes is recorded as one event appended to
    `trace`, so the driver's whole observable behaviour is that field.
 */
module Ws2812Driver {
  import opened BitEncoder
  import opened FrameSequencer

  /** `Result<(), ()>`, the result type of `write`. */
  datatype WriteResult = Ok | Err

  class Ws2812 {
    /** The timing table the driver was built with; fixed for its lifetime. */
    const profile: Profile

    /** Every call made on the pin and the timer so far, in order. */
    var trace: seq<Event>

    /** The first call ever made was setting the line low, and between two
        operations the line is low. */
    ghost predicate Valid()
      reads this
    {
      trace != [] && trace[0] == Low && !LevelAfter(false, trace)
    }

    /** `new`: drive the line low before anything else (src/lib.rs:33-36). */
    constructor (profile: Profile)
      ensures this.profile == profile
      ensures trace == [Low]
      ensures Valid()
    {
      this.profile := profile;
      trace := [Low];
    }

    /** `block!(self.timer.wait())`: wait for the next tick. */
    method WaitTick()
      modifies this
      ensures trace == old(trace) + [Wait]
    {
      trace := trace + [Wait];
    }

    /** `self.pin.set_high()`. */
    method SetHigh()
      modifies this
      ensures trace == old(trace) + [High]
    {
      trace := trace + [High];
    }

    /** `self.pin.set_low()`. */
    method SetLow()
      modifies this
      ensures trace == old(trace) + [Low]
    {
      trace := trace + [Low];
    }

    /** `write_byte` sends the eight bits of `b`, most significant first,
        with the variant of the build's timing table. */
    method WriteByte(b: Byte)
      modifies this
      ensures trace == old(trace) + ByteTrace(profile, b)
    {
      if profile == Slow {
        WriteByteSlow(b);
      } else {
        WriteByteNormal(b);
      }
    }

    /** `write_byte` of the `slow` feature (src/lib.rs:41-58): eight times,
        test bit 7, send its pattern and shift left with wrap-around. */
    method WriteByteSlow(b: Byte)
      requires profile == Slow
      modifies this
      ensures trace == old(trace) + ByteTrace(Slow, b)
    {
      var data := b;
      for k := 0 to 8
        invariant Bits(data)[..8 - k] == Bits(b)[k..]
        invariant trace == old(trace) + Encode(Slow, Bits(b)[..k])
      {
        ShiftStep(b, data, k);
        SendBitSlow(data & 0x80 != 0);
        EncodeOneMore(Slow, Bits(b), k);
        data := data << 1;
      }
      assert Bits(b)[..8] == Bits(b);
    }

    /** One pass of the slow loop (src/lib.rs:43-55): a 1 stays high for two
        ticks, a 0 falls at once; either way three waits. */
    method SendBitSlow(bit: bool)
      modifies this
      ensures trace == old(trace) + BitPattern(Slow, bit)
    {
      if bit {
        WaitTick();
        SetHigh();
        WaitTick();
        WaitTick();
        SetLow();
      } else {
        WaitTick();
        SetHigh();
        SetLow();
        WaitTick();
        WaitTick();
      }
    }

    /** The default `write_byte` (src/lib.rs:63-84). */
    method WriteByteNormal(b: Byte)
      requires profile == Normal
      modifies this
      ensures trace == old(trace) + ByteTrace(Normal, b)
    {
      var data := b;
      for k := 0 to 8
        invariant Bits(data)[..8 - k] == Bits(b)[k..]
        invariant trace == old(trace) + Encode(Normal, Bits(b)[..k])
      {
        ShiftStep(b, data, k);
        SendBitNormal(data & 0x80 != 0);
        EncodeOneMore(Normal, Bits(b), k);
        data := data << 1;
      }
      assert Bits(b)[..8] == Bits(b);
    }

    /** One pass of the default loop (src/lib.rs:67-81): a 1 stays high for
        two ticks and low for two, a 0 high for one and low for three. */
    method SendBitNormal(bit: bool)
      modifies this
      ensures trace == old(trace) + BitPattern(Normal, bit)
    {
      if bit {
        WaitTick();
        SetHigh();
        WaitTick();
        WaitTick();
        SetLow();
        WaitTick();
      } else {
        WaitTick();
        SetHigh();
        WaitTick();
        SetLow();
        WaitTick();
        WaitTick();
      }
    }

    /** `write`: for each colour, align to a tick and send green, red and
        blue; then wait 160 ticks for the reset gap. Every hardware result is
        discarded, so the result is always `Ok` (src/lib.rs:95-115). */
    method Write(colors: seq<Rgb8>) returns (result: WriteResult)
      requires Valid()
      modifies this
      ensures Valid()
      ensures trace == old(trace) + FrameTrace(profile, colors)
      ensures result == Ok
    {
      for i := 0 to |colors|
        invariant trace == old(trace) + ColorsTrace(profile, colors[..i])
      {
        WriteColor(colors[i]);
        ColorsOneMore(profile, old(trace), colors, i);
      }
      assert colors[..|colors|] == colors;
      ghost var sent := trace;
      for j := 0 to ResetTicks
        invariant trace == sent + Waits(j)
      {
        WaitTick();
        WaitsOneMore(j);
      }
      assert trace == old(trace) + FrameTrace(profile, colors);
      FrameKeepsValid(profile, old(trace), colors);
      result := Ok;
    }

    /** One pass of the colour loop of `write` (src/lib.rs:100-108). */
    method WriteColor(c: Rgb8)
      modifies this
      ensures trace == old(trace) + ColorTrace(profile, c)
    {
      ghost var start := trace;
      WaitTick();
      WriteByte(c.g);
      WriteByte(c.r);
      WriteByte(c.b);
      ColorOneMore(profile, start, c);
    }
  }

  lemma ColorOneMore(p: Profile, t: seq<Event>, c: Rgb8)
    ensures t + [Wait] + ByteTrace(p, c.g) + ByteTrace(p, c.r) + ByteTrace(p, c.b) == t + ColorTrace(p, c)
  {
  }

  /** A whole write, appended after a valid trace, leaves a valid trace. */
  lemma FrameKeepsValid(p: Profile, t: seq<Event>, cs: seq<Rgb8>)
    requires t != [] && t[0] == Low && !LevelAfter(false, t)
    ensures (t + FrameTrace(p, cs))[0] == Low
    ensures !LevelAfter(false, t + FrameTrace(p, cs))
  {
    FrameEndsLow(p, cs, false);
    LevelAfterAppend(false, t, FrameTrace(p, cs));
  }

  /** One more pass of the `write_byte` loop sends one more bit pattern. */
  lemma EncodeOneMore(p: Profile, bits: seq<bool>, k: nat)
    requires k < |bits|
    ensures Encode(p, bits[..k + 1]) == Encode(p, bits[..k]) + BitPattern(p, bits[k])
  {
    assert bits[..k + 1] == bits[..k] + [bits[k]];
    EncodeAppend(p, bits[..k], [bits[k]]);
    assert Encode(p, [bits[k]]) == BitPattern(p, bits[k]) + Encode(p, []);
  }

  /** One more pass of the colour loop of `write` sends one more colour. */
  lemma ColorsOneMore(p: Profile, t: seq<Event>, cs: seq<Rgb8>, i: nat)
    requires i < |cs|
    ensures t + ColorsTrace(p, cs[..i]) + ColorTrace(p, cs[i]) == t + ColorsTrace(p, cs[..i + 1])
  {
    assert cs[..i + 1] == cs[..i] + [cs[i]];
    ColorsTraceAppend(p, cs[..i], [cs[i]]);
    assert ColorsTrace(p, [cs[i]]) == ColorTrace(p, cs[i]) + ColorsTrace(p, []);
  }
}
