/** The pure arithmetic of one pass of the stall indicator's polling loop:
    which ADC channel the slide switch selects, the conversion-complete
    test, the 12-bit sample field, and the bar-graph quantiser that turns a
    sample into a count of lit LEDs and a contiguous low-bit mask. */
module Quantiser {
  import opened Bits

  /** Largest value of the 12-bit ADC sample field. */
  const MaxSample: nat := 0xFFF
  /** Number of LEDs on pins 0..9 of the JP1 port. */
  const LedWidth: nat := 10
  /** Value written to the direction register: pins 0..9 are outputs. */
  const OutputPins: nat := 0x3FF

  /** Completion bit tested by the loop as written (the literal 0x10000). */
  const SimulatorDoneBit: BitIndex := 16
  /** Completion bit the source comment gives for the real board (0x8000). */
  const HardwareDoneBit: BitIndex := 15

  datatype Channel = Ch0 | Ch1

  /** `*sw_ptr & 0x1`: the state of slide switch SW0. */
  function SwitchBit(sw: u32): (b: nat)
    ensures b <= 1 && b == Bit(sw, 0)
  {
    sw % 2
  }

  /** SW0 low reads ADC channel 0, SW0 high reads channel 1. */
  function Select(sw: u32): (ch: Channel)
    ensures ch == Ch0 <==> Bit(sw, 0) == 0
  {
    if SwitchBit(sw) == 0 then Ch0 else Ch1
  }

  /** `adc_read & (1 << doneBit)` is non-zero: the conversion has completed.
      That AND test holds exactly when the quotient by `2^doneBit` is odd. */
  predicate IsComplete(adcRead: u32, doneBit: BitIndex)
    ensures IsComplete(adcRead, doneBit) <==> (adcRead / Pow2(doneBit)) % 2 == 1
  {
    BitIsQuotient(adcRead, doneBit);
    Bit(adcRead, doneBit) == 1
  }

  /** `adc_read & 0xFFF`: the 12-bit converted value. */
  function Sample(adcRead: u32): (v: u32)
    ensures v <= MaxSample
  {
    adcRead % 0x1000
  }

  /** `(adc_value * 10) / 4095` in 32-bit unsigned arithmetic, then clamped to 10. */
  function LedCount(v: u32): (c: nat)
    ensures c <= LedWidth
    ensures v <= MaxSample ==> c * MaxSample <= v * LedWidth < (c + 1) * MaxSample
  {
    var scaled := (v * 10) % WordBound / 4095;
    if scaled > 10 then 10 else scaled
  }

  /** `led_count > 0 ? (1 << led_count) - 1 : 0`. */
  function LedMask(c: nat): (m: u32)
    requires c <= LedWidth
    ensures m <= OutputPins
  {
    Pow2Monotone(c, LedWidth);
    if c > 0 then Pow2(c) - 1 else 0
  }

  lemma {:induction false} Pow2Monotone(a: nat, b: nat)
    requires a <= b
    ensures Pow2(a) <= Pow2(b)
  {
    if a < b {
      Pow2Monotone(a, b - 1);
    }
  }

  // ----- switch and completion bit -----

  /** Only bit 0 of the switch word decides the channel. */
  lemma SelectIgnoresUpperBits(sw: u32, k: nat)
    requires sw + 2 * k < WordBound
    ensures Select(sw + 2 * k) == Select(sw)
  {
  }

  /** The simulator literal 0x10000 is bit 16; the hardware mask 0x8000 is bit 15. */
  lemma DoneBitMasks()
    ensures Pow2(SimulatorDoneBit) == 0x10000
    ensures Pow2(HardwareDoneBit) == 0x8000
  {
  }

  // ----- sample extraction -----

  /** The sample holds exactly bits 0..11 of the word read and nothing above. */
  lemma SampleBits(adcRead: u32, i: nat)
    ensures Bit(Sample(adcRead), i) == if i < 12 then Bit(adcRead, i) else 0
  {
    assert Pow2(12) == 0x1000;
    LowBitsOfMod(adcRead, 12, i);
  }

  /** Bits from 12 upwards do not affect the sample. */
  lemma SampleIgnoresHighBits(adcRead: u32, k: nat)
    requires adcRead + 0x1000 * k < WordBound
    ensures Sample(adcRead + 0x1000 * k) == Sample(adcRead)
  {
  }

  /** In particular the completion bit does not affect the sample. */
  lemma {:induction false} SampleIgnoresDoneBit(adcRead: u32, doneBit: BitIndex)
    requires doneBit >= 12
    requires adcRead + Pow2(doneBit) < WordBound
    ensures Sample(adcRead + Pow2(doneBit)) == Sample(adcRead)
  {
    Pow2Add(12, doneBit - 12);
    assert Pow2(12) == 0x1000;
    SampleIgnoresHighBits(adcRead, Pow2(doneBit - 12));
  }

  // ----- quantiser -----

  /** For a sample in range the product fits in 32 bits and the clamp never fires. */
  lemma ClampNeverFires(v: u32)
    requires v <= MaxSample
    ensures v * 10 < WordBound
    ensures (v * 10) / 4095 <= LedWidth
    ensures LedCount(v) == (v * 10) / 4095
  {
  }

  /** All ten LEDs light exactly at full scale. */
  lemma LedCountFullScale(v: u32)
    requires v <= MaxSample
    ensures LedCount(v) == LedWidth <==> v == MaxSample
  {
  }

  /** The bar graph never shrinks when the input grows (while the product does not wrap). */
  lemma LedCountMonotone(v1: u32, v2: u32)
    requires v1 <= v2
    requires v2 * 10 < WordBound
    ensures LedCount(v1) <= LedCount(v2)
  {
  }

  /** Inputs above the 12-bit range (which the loop never produces) are clamped to 10. */
  lemma LedCountAboveRange(v: u32)
    requires MaxSample < v
    requires v * 10 < WordBound
    ensures LedCount(v) == LedWidth
  {
  }

  /** Once `v * 10` wraps, the count is no longer monotone: 429496730 gives 0. */
  lemma LedCountWraps()
    ensures LedCount(429496730) == 0
    ensures LedCount(429496729) == LedWidth
  {
  }

  /** The mask lights exactly LEDs 0 .. c-1. */
  lemma LedMaskBits(c: nat, i: nat)
    requires c <= LedWidth
    ensures Bit(LedMask(c), i) == if i < c then 1 else 0
  {
    if c == 0 {
      BitOfZero(i);
    } else {
      LowOnesBits(c, i);
    }
  }

  /** LedMaskBits for every bit position at once. */
  lemma LedMaskShape(c: nat)
    requires c <= LedWidth
    ensures forall i: nat :: Bit(LedMask(c), i) == if i < c then 1 else 0
  {
    forall i: nat
      ensures Bit(LedMask(c), i) == if i < c then 1 else 0
    {
      LedMaskBits(c, i);
    }
  }

  /** The mask is `2^c - 1`, also for a count of zero. */
  lemma LedMaskValue(c: nat)
    requires c <= LedWidth
    ensures LedMask(c) + 1 == Pow2(c)
  {
  }

  /** Each extra count adds exactly the next LED, bit c. */
  lemma LedMaskStep(c: nat)
    requires c < LedWidth
    ensures LedMask(c + 1) == LedMask(c) + Pow2(c)
  {
  }

  /** The comment's example (count 5 gives 0x1F, reached by the half-scale sample 2048),
      plus full scale (all ten LEDs) and zero. */
  lemma BarGraphExamples()
    ensures LedCount(2048) == 5 && LedMask(5) == 0x1F
    ensures LedCount(4095) == 10 && LedMask(10) == 0x3FF
    ensures LedCount(0) == 0 && LedMask(0) == 0
  {
  }
}
