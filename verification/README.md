# Stall indicator bar graph — a Dafny model

The program drives ten LEDs on an FPGA board's JP1 port. At start-up it sets pins 0..9 of the
JP1 port as outputs and writes 1 to each of the ADC channel 0 and channel 1
registers. Channel 0 triggers one update of all channels and channel 1 turns on
auto-update. It then polls forever. Each pass reads slide switch SW0 and reads
ADC channel 0 (SW0 low) or channel 1 (SW0 high). If the conversion-complete bit
of that word is set, it takes the 12-bit sample, scales it to a count of 0..10
LEDs with `(v * 10) / 4095` clamped to 10, and writes the bar-graph mask
`(1 << count) - 1` to the LED data register.

The model has three modules:

- `Bits` (`bits.dfy`): 32-bit register words (`u32`) and bit positions. Bit
  operations are stated arithmetically. `Bit(w, k)` is binary digit k,
  `Pow2(n)` is `1 << n`, and `w % 2^n` is `w & (2^n - 1)`. The lemmas tie these
  forms together.
- `Quantiser` (`quantiser.dfy`): the pure part of one pass. It covers switch
  selection, the completion test, sample extraction, the count and the mask.
- `Indicator` (`indicator.dfy`): `main` as a `Board` class. Its fields hold the
  LED data and direction registers and the last words written to the two ADC
  channel registers. It has `Init` (start-up), `Step` (one pass of the loop),
  `Run` (a finite prefix of the endless loop) and `Boot` (`Init` then `Run`). A
  ghost `trace` records every register access in order. Spec functions give the
  LED output of one pass (`PassOutput`), the accesses of a run (`RunTrace`) and
  the LED register after a run (`Displayed`).

The words returned by the switch and ADC registers are inputs (`Inputs`), one
triple per pass. The completion bit is a parameter, `doneBit`. The code as
written tests the literal `0x10000`, which is bit 16 (`SimulatorDoneBit`). Its
comment names bit 15 and `0x8000` for real hardware (`HardwareDoneBit`).

Three choices follow the code rather than a more abstract formulation:

- A floating-point formulation would compute `floor(raw / 4095.0 * 10)`. The
  code uses unsigned 32-bit integer arithmetic, `(v * 10) / 4095`, and the model
  uses that. `LedCount` models the wrap-around of the product explicitly.
- The code writes `led_mask` to the LED register as it is, not as a masked write
  (`led_mask & 0x3FF`). The model writes it unmasked too, and proves it is never
  above `0x3FF` (`LedMask`, `PassOutput`, `RunTraceAccesses`).
- The code hard-codes the completion bit. The model takes it as a parameter, so
  the simulator bit and the hardware bit are both covered, and names the code's
  value.

## Model

| member | source | states |
|---|---|---|
| Bits.BitIsQuotient | stall_indicator.c:67 | bit k of a word is the parity of `w / 2^k`, so a single-bit AND test is a bit test |
| Bits.LowBitsOfMod | stall_indicator.c:70 | `w % 2^n` keeps every bit below n and clears every bit from n up (what `& 0xFFF` does for n = 12) |
| Bits.LowOnesBits | stall_indicator.c:79-81 | `2^c - 1` has bit i set exactly when i < c |
| Quantiser.SwitchBit | stall_indicator.c:53 | `sw & 0x1` is 0 or 1 and equals bit 0 of the switch word |
| Quantiser.Select | stall_indicator.c:52-63 | channel 0 is read exactly when bit 0 of the switch word is clear, channel 1 otherwise |
| Quantiser.SelectIgnoresUpperBits | stall_indicator.c:53 | changing switch bits above bit 0 never changes the channel |
| Quantiser.IsComplete | stall_indicator.c:67 | the pass counts as complete exactly when `adc_read & (1 << doneBit)` is non-zero, i.e. `adc_read / 2^doneBit` is odd |
| Quantiser.DoneBitMasks | stall_indicator.c:66-67 | the literal `0x10000` is bit 16; the hardware mask `0x8000` is bit 15 |
| Quantiser.Sample | stall_indicator.c:70 | the extracted sample always lies in 0..4095 |
| Quantiser.SampleBits | stall_indicator.c:69-70 | the sample has bits 0..11 of the word read and no bit above 11 |
| Quantiser.SampleIgnoresHighBits | stall_indicator.c:70 | adding any multiple of 0x1000 to the word (changing only bits 12 and up) leaves the sample unchanged |
| Quantiser.SampleIgnoresDoneBit | stall_indicator.c:67-70 | setting a completion bit at position 12 or above leaves the sample unchanged |
| Quantiser.LedCount | stall_indicator.c:73-76 | the count is at most 10 for every 32-bit input; for a sample in range it is the floor of `10 v / 4095` |
| Quantiser.ClampNeverFires | stall_indicator.c:74-76 | for a sample in range, `v * 10` fits in 32 bits and the unclamped quotient is already at most 10 |
| Quantiser.LedCountFullScale | stall_indicator.c:74-76 | for a sample in range, the count is 10 exactly when the sample is 4095 |
| Quantiser.LedCountMonotone | stall_indicator.c:74-76 | a larger input never gives a smaller count, as long as `v * 10` does not wrap |
| Quantiser.LedCountAboveRange | stall_indicator.c:75-76 | an input above 4095 whose product does not wrap is clamped to 10 |
| Quantiser.LedCountWraps | stall_indicator.c:74 | 429496729 gives 10 but 429496730 gives 0: past the wrap point the count is not monotone (no sample reaches it) |
| Quantiser.LedMask | stall_indicator.c:81 | the mask never exceeds `0x3FF`, the pins configured as outputs |
| Quantiser.LedMaskBits | stall_indicator.c:78-81 | bit i of the mask is set exactly when i < count: LEDs 0..count-1 lit, none above |
| Quantiser.LedMaskShape | stall_indicator.c:78-81 | the same, for all bit positions at once |
| Quantiser.LedMaskValue | stall_indicator.c:79-81 | the mask is `2^count - 1`, including 0 for count 0 |
| Quantiser.LedMaskStep | stall_indicator.c:81 | one more count lights exactly one more LED, bit `count` |
| Quantiser.BarGraphExamples | stall_indicator.c:78-81 | sample 2048 gives count 5 and mask `0x1F`; 4095 gives 10 and `0x3FF`; 0 gives 0 and 0 |
| Indicator.AdcRead | stall_indicator.c:55-63 | the word read is channel 0's when bit 0 of the switch word is clear and channel 1's when it is set |
| Indicator.Displayed | stall_indicator.c:49-91 | the LED register after a finite run is either its starting value or a mask some pass wrote (`DisplayedIsLastWrite` says which; `DisplayedInRange` bounds it) |
| Indicator.PassOutput | stall_indicator.c:53-85 | a pass writes nothing exactly when the completion bit of the selected word is clear; otherwise the value written is within `0x3FF` and has exactly the low `LedCount(Sample(word))` bits set |
| Indicator.Board.constructor | stall_indicator.c:28-36 | registers start with arbitrary power-on values and no access has happened |
| Indicator.Board.Init | stall_indicator.c:41-47 | direction becomes `0x3FF`, channel 0 and channel 1 each get 1, in that order; LED data is untouched |
| Indicator.Board.Step | stall_indicator.c:53-85 | LED data becomes the pass output, or stays as it was when incomplete; direction and ADC command registers are unchanged; the accesses are those of `PassTrace` |
| Indicator.Board.Run | stall_indicator.c:49-91 | after a finite run, LED data is `Displayed` of the old value; direction and ADC command registers are unchanged; the accesses are those of `RunTrace` |
| Indicator.Board.Boot | stall_indicator.c:41-91 | start-up followed by a run: configuration registers hold their start-up values and the trace is the start-up writes followed by the run's accesses |
| Indicator.PassAccesses | stall_indicator.c:53-85 | a pass reads the switch first, then channel 0 or 1 as bit 0 says, then writes the LEDs only when complete; it writes nothing else |
| Indicator.IncompletePassHolds | stall_indicator.c:67-87 | an incomplete pass leaves the LED register as it was and performs only the two reads |
| Indicator.RunTraceAccesses | stall_indicator.c:49-91 | inside the loop every write goes to the LED data register and is within `0x3FF`; the direction register is never written |
| Indicator.DisplayedHoldsWhenIncomplete | stall_indicator.c:67-87 | if no pass completed, the LED register still holds its earlier value |
| Indicator.DisplayedIsLastWrite | stall_indicator.c:84 | the LED register holds the mask of the last pass that completed |
| Indicator.DisplayedInRange | stall_indicator.c:81-84 | the LED register either still holds its earlier value or is within `0x3FF`; it stays within `0x3FF` throughout if it started there |
| Indicator.DisplayedInRangeAfterWrite | stall_indicator.c:81-84 | once any pass has completed, the LED register is within `0x3FF`, whatever its power-on value |
| Indicator.BootOrder | stall_indicator.c:41-91 | the first three accesses are the writes of `0x3FF` to direction, 1 to channel 0 and 1 to channel 1, in order; every read comes after them; every later write is an in-range LED data write |
| Indicator.HalfScaleExample | stall_indicator.c:53-84 | SW0 low, channel 0 complete with sample 2048: the LEDs get `0x1F` |
| Indicator.FullScaleExample | stall_indicator.c:53-84 | SW0 high, channel 1 complete at 4095: the LEDs get `0x3FF`, not `0x7FF` |
| Indicator.HardwareBitIgnoredBySimulatorTest | stall_indicator.c:66-67 | a word with bit 15 set and bit 16 clear is incomplete under the `0x10000` test and complete under the `0x8000` test |

## Left out

- The memory-mapped addresses, the pointer casts and `volatile` (stall_indicator.c:5-15, 28-36). Registers are plain fields, and the values they return are inputs.
- The busy-wait `delay` (stall_indicator.c:19-23, 90). It is timing only and changes no state.
- The `while (1)` loop never ends, so the final `return 0` is unreachable. `Run` covers any finite prefix of the loop, not the infinite execution.
- The ADC's hardware behaviour after the enable writes (free-running conversion). Each pass's register words are arbitrary inputs, not tied to the earlier command writes.
- A stall-speed and angle-threshold alarm policy and a floating-point unit conversion. Neither appears in this source file.
