# WS2812 timer-delay driver, modelled in Dafny

The crate `ws2812-timer-delay` drives a strip of WS2812 LEDs by bit-banging
one GPIO pin in step with a periodic 3 MHz timer. Every bit of every colour
is a fixed pattern of "wait for the next tick", "set pin high" and "set pin
low". A colour is one alignment wait followed by its green, red and blue
bytes, each sent most significant bit first. A write ends with 160 waits,
the reset/latch gap. There are two build-time timing tables: the default
one and the one of the `slow` feature.

The model records each hardware call the driver makes as one event
(`Wait`, `High`, `Low`), so the driver's whole observable behaviour is the
sequence of events it produces:

- `BitEncoder` (bit_encoder.dfy) holds the events, the two timing profiles
  and the four bit patterns. It also defines counting, the line level after
  a run of events (`LevelAfter`) and the ticks spent at a level (`TicksAt`).
- `FrameSequencer` (frame_sequencer.dfy) holds the specification of a
  write as pure functions: bits of a byte MSB first (`Bits`), a byte
  (`ByteTrace`), a colour in G, R, B order (`ColorTrace`), the colours in
  input order (`ColorsTrace`) and a whole write with its reset gap
  (`FrameTrace`). The lemmas prove the layout, the event counts and the
  levels.
- `StripDecoder` (strip_decoder.dfy) is the inverse partner: what a strip
  reads back from a run of events. `DecodeFrameExact` proves the round trip
  in both directions, so a write's events determine its colours exactly.
- `Ws2812Driver` (driver.dfy) holds the driver object as a class whose
  `trace` field is the record of hardware calls. Its constructor and its
  methods follow the loops of `src/lib.rs`: an 8-pass `write_byte` loop
  that tests `data & 0x80` and shifts left with 8-bit wrap-around, and the
  colour loop and reset loop of `write`. Each method is proved to append
  exactly the events the `FrameSequencer` functions specify. `Write` also
  keeps the object invariant `Valid`: the first call was `set_low`, and
  the line is low between operations.

The `slow` feature is a compile-time switch in the crate. Here it is the
immutable field `profile`, fixed when the driver is constructed.

The two timing tables differ in how long a bit takes:

- The slow table waits three times per bit, one fewer than the default
  (src/lib.rs:43-55 against src/lib.rs:67-81).
- `write` waits for a tick before every colour (src/lib.rs:104), so the
  alignment wait is paid once per colour, not once per write.

So a write of N colours waits N·(1 + 24·4) + 160 times with the default
table and N·(1 + 24·3) + 160 times with the slow one.

## Model

| member | source | states |
|---|---|---|
| BitEncoder.BitPattern | src/lib.rs:43-55 | the events of one bit: six with the default table (lines 67-81), five with the slow one |
| BitEncoder.BitPatternShape | src/lib.rs:67-81 | each pattern first aligns to a tick and rises, then falls later; it has exactly one High, one Low and TicksPerBit waits (4 default, 3 slow) |
| BitEncoder.BitPatternEndsLow | src/lib.rs:48-54 | the line is low after any bit pattern, whatever its level before |
| BitEncoder.WaitsKeepLevel | src/lib.rs:44 | timer waits never change the line level |
| BitEncoder.NormalTicks | src/lib.rs:67-80 | started low, a default 1 stays high 2 ticks and low 2; a 0 is high 1 tick and low 3 |
| BitEncoder.SlowTicks | src/lib.rs:43-54 | started low, a slow 1 stays high 2 ticks and low 1; a 0 is high 0 ticks and low 3 |
| BitEncoder.BitPatternTiming | src/lib.rs:67-81 | every wait of a pattern is spent high or low; a 1 is high 2 ticks, a 0 fewer, which is how the strip tells them apart |
| BitEncoder.CountAppend | src/lib.rs:100-113 | event counts add over consecutive runs of events |
| BitEncoder.LevelAfterAppend | src/lib.rs:100-113 | the level after two consecutive runs is the second run's level, started from the first's |
| BitEncoder.TicksAtAppend | src/lib.rs:100-113 | the ticks spent at a level add over consecutive runs |
| FrameSequencer.Bits | src/lib.rs:42-56 | the eight bits of a byte in the order the shift-and-test loop tests them, most significant first |
| FrameSequencer.Encode | src/lib.rs:42-57 | the events of a run of bits: each bit's pattern, in order |
| FrameSequencer.ByteTrace | src/lib.rs:41-84 | the events `write_byte` sends for one byte: the patterns of its bits, MSB first |
| FrameSequencer.ColorTrace | src/lib.rs:104-107 | the events of one colour: an alignment wait, then the green, red and blue bytes |
| FrameSequencer.ColorsTrace | src/lib.rs:100-108 | the events of the colour loop: each colour's events, in input order |
| FrameSequencer.ResetTicks | src/lib.rs:111 | the reset gap is `3 * 50 + 10` = 160 ticks |
| FrameSequencer.Waits | src/lib.rs:111-113 | n timer waits in a row |
| FrameSequencer.ResetGap | src/lib.rs:109-113 | the reset gap: 160 waits and nothing else |
| FrameSequencer.FrameTrace | src/lib.rs:95-115 | the events of one `write`: the colours' events, then the reset gap |
| Ws2812Driver.Ws2812.Valid | src/lib.rs:33-35 | the object invariant: the first call recorded is `set_low`, and the last pin command left the line low |
| FrameSequencer.ShiftBits | src/lib.rs:43 | `data & 0x80` is the top bit, and one wrapping `data <<= 1` moves the other seven bits up by one place |
| FrameSequencer.ShiftStep | src/lib.rs:56 | after k shifts, the bit the loop tests is bit k (MSB first) of the original byte, and the same holds after the next shift |
| FrameSequencer.EncodeLength | src/lib.rs:42-57 | n bits take n times PatternLength events |
| FrameSequencer.EncodeAppend | src/lib.rs:42-57 | the events of two runs of bits are the events of each, in order |
| FrameSequencer.EncodeAt | src/lib.rs:42-57 | the k-th block of PatternLength events is the pattern of the k-th bit |
| FrameSequencer.EncodeCounts | src/lib.rs:42-57 | n bits have n·TicksPerBit waits, n High and n Low |
| FrameSequencer.EncodeEndsLow | src/lib.rs:42-57 | after a non-empty run of bits, or any run started low, the line is low |
| FrameSequencer.ByteTraceMsbFirst | src/lib.rs:63-84 | a byte is eight patterns, and pattern k is bit 7 - k of the byte |
| FrameSequencer.ByteTraceExamples | src/lib.rs:41-58 | 0x00 is eight 0-patterns, 0xFF eight 1-patterns, 0x80 one 1-pattern then seven 0-patterns |
| FrameSequencer.ByteTraceCounts | src/lib.rs:63-84 | a byte is 8·PatternLength events: 8·TicksPerBit waits, 8 High and 8 Low |
| FrameSequencer.ByteTraceEndsLow | src/lib.rs:41-58 | the line is low after any byte |
| FrameSequencer.ColorTraceLayout | src/lib.rs:104-107 | a colour is one alignment wait, then the green, red and blue bytes, in that order |
| FrameSequencer.ColorTraceLength | src/lib.rs:104-107 | a colour is 1 + 24·PatternLength events |
| FrameSequencer.ColorTraceCounts | src/lib.rs:104-107 | a colour has 1 + 24·TicksPerBit waits, 24 High and 24 Low |
| FrameSequencer.ColorTraceEndsLow | src/lib.rs:104-107 | the line is low after any colour |
| FrameSequencer.ColorsTraceLength | src/lib.rs:100-108 | N colours take N·ColorLength events |
| FrameSequencer.ColorsTraceAppend | src/lib.rs:100-108 | the colours of two sequences are sent one after the other |
| FrameSequencer.ColorsTraceSplit | src/lib.rs:100-108 | the events of the colours are those before colour i, then colour i, then those after it |
| FrameSequencer.ColorsTraceAt | src/lib.rs:100-108 | colours go out in input order: the i-th block of ColorLength events is colour i |
| FrameSequencer.ColorsTraceAligned | src/lib.rs:102-104 | every colour, the first of every write included, starts by waiting for a tick |
| FrameSequencer.ColorsTraceCounts | src/lib.rs:100-108 | N colours have N·(1 + 24·TicksPerBit) waits, 24N High and 24N Low |
| FrameSequencer.ColorsTraceEndsLow | src/lib.rs:100-108 | the line is low after a non-empty run of colours, or any run started low |
| FrameSequencer.ResetGapCounts | src/lib.rs:111-113 | k reset waits contain k waits and no pin change, spent low when started low |
| FrameSequencer.WaitsOneMore | src/lib.rs:111-113 | one more pass of the reset loop adds one wait |
| FrameSequencer.FrameCounts | src/lib.rs:95-115 | a write of N colours has N·(1 + 24·TicksPerBit) + 160 waits, 24N High and 24N Low |
| FrameSequencer.FrameEmpty | src/lib.rs:109-113 | an empty write is exactly 160 waits |
| FrameSequencer.FrameEndsLow | src/lib.rs:109-113 | the line is low when the reset gap begins, all 160 gap ticks are spent low, and the line is low at the end |
| StripDecoder.DecodeBitPattern | src/lib.rs:67-81 | the 0 and 1 patterns of each table differ, so a pattern names its bit |
| StripDecoder.DecodeEncode | src/lib.rs:42-57 | decoding the patterns of a run of bits gives those bits back |
| StripDecoder.DecodeBitsSound | src/lib.rs:42-57 | anything that decodes to bits is exactly those bits' patterns |
| StripDecoder.ByteOfBits | src/lib.rs:41-58 | the MSB-first bits of a byte reassemble to that byte |
| StripDecoder.BitsOfByte | src/lib.rs:41-58 | eight bits assembled into a byte read back as the same bits |
| StripDecoder.BitOfByte | src/lib.rs:41-58 | bit 7 - k of the assembled byte is the k-th bit |
| StripDecoder.DecodeByteTrace | src/lib.rs:63-84 | a byte's events decode to that byte |
| StripDecoder.DecodeByteSound | src/lib.rs:63-84 | events that decode to a byte are that byte's events |
| StripDecoder.DecodeColorTrace | src/lib.rs:104-107 | a colour's events decode to that colour, with G, R and B each in its own field |
| StripDecoder.DecodeColorSound | src/lib.rs:104-107 | events that decode to a colour are that colour's events |
| StripDecoder.DecodeColorsTrace | src/lib.rs:100-108 | the events of the colours decode to the same colours, in order |
| StripDecoder.DecodeColorsSound | src/lib.rs:100-108 | events that decode to colours are those colours' events |
| StripDecoder.DecodeFrameExact | src/lib.rs:95-115 | a run of events decodes to `cs` if and only if it is the write of `cs` |
| StripDecoder.FrameTraceInjective | src/lib.rs:95-115 | writes of different colour sequences produce different events |
| Ws2812Driver.Ws2812.constructor | src/lib.rs:33-36 | `new` records exactly one call, `set_low`, and keeps the profile; the object is valid |
| Ws2812Driver.Ws2812.WaitTick | src/lib.rs:44 | `block!(timer.wait())` appends one Wait |
| Ws2812Driver.Ws2812.SetHigh | src/lib.rs:45 | `set_high` appends one High |
| Ws2812Driver.Ws2812.SetLow | src/lib.rs:48 | `set_low` appends one Low |
| Ws2812Driver.Ws2812.WriteByte | src/lib.rs:39-84 | `write_byte` appends the byte's events under the driver's profile |
| Ws2812Driver.Ws2812.WriteByteSlow | src/lib.rs:41-58 | the slow 8-pass shift-and-test loop appends the byte's patterns MSB first |
| Ws2812Driver.Ws2812.SendBitSlow | src/lib.rs:43-55 | one pass of the slow loop appends that bit's slow pattern |
| Ws2812Driver.Ws2812.WriteByteNormal | src/lib.rs:63-84 | the default 8-pass shift-and-test loop appends the byte's patterns MSB first |
| Ws2812Driver.Ws2812.SendBitNormal | src/lib.rs:67-81 | one pass of the default loop appends that bit's default pattern |
| Ws2812Driver.Ws2812.WriteColor | src/lib.rs:101-107 | one pass of the colour loop appends an alignment wait and the G, R and B bytes |
| Ws2812Driver.Ws2812.Write | src/lib.rs:95-115 | `write` appends exactly the frame's events: the colours in order, then 160 waits; returns Ok; keeps the object valid |
| Ws2812Driver.FrameKeepsValid | src/lib.rs:95-115 | a write appended to a valid record leaves it valid: the first call is still `set_low` and the line ends low |
| Ws2812Driver.EncodeOneMore | src/lib.rs:42-57 | one more pass of `write_byte`'s loop appends one more bit pattern |
| Ws2812Driver.ColorOneMore | src/lib.rs:104-107 | an alignment wait and the three bytes, appended, are one colour's events |
| Ws2812Driver.ColorsOneMore | src/lib.rs:100-108 | one more pass of the colour loop appends the next colour's events |

## Left out

- Polling of the timer: `block!` spins on `nb::WouldBlock` until the tick. Each `block!(timer.wait())` is one atomic `Wait` event, and the model assumes the timer always ticks.
- Real time: nanosecond windows, the 3 MHz timer setup and GPIO latency. Timing is measured only in ticks (`TicksAt`).
- The `embedded_hal` pin and timer traits and their errors: the source discards every result with `.ok()`, and a failed pin or timer call is not modelled. `LevelAfter`, and with it `Valid`, is the level last commanded, which a failed `set_low` would not reach. `WriteResult.Err` exists only because the signature declares it.
- Ws2812Driver.Ws2812: `WaitTick`, `SetHigh`, `SetLow`, `WriteByte`, `WriteByteSlow`, `WriteByteNormal`, `SendBitSlow`, `SendBitNormal` and `WriteColor` are callable from outside the class, while in the source the pin, the timer and `write_byte` are private (src/lib.rs:22-25, 41, 63). The model does not restrict outside callers to `new` and `write`, and a caller that calls `SetHigh` directly leaves `Valid` false.
- Ws2812Driver.Ws2812.Write: takes a `seq<Rgb8>` instead of an iterator of values that convert into `RGB8`; the laziness of the iterator and the `Into` conversion are not modelled.
- Ws2812Driver.Ws2812: the profile is a field chosen at construction rather than a `#[cfg]` compile-time choice, and the timer and pin fields exist only through the events they produce.
- `#[inline]` and `#![no_std]` have no behaviour to model.
