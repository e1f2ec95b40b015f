/** `main` of the stall indicator: configure the LED port and the ADC once,
    then repeat forever: read SW0, read the ADC channel it selects, and if
    the conversion is complete write the bar-graph mask to the LEDs.

    The registers are fields of a `Board`; the words the hardware returns on
    each read are inputs.  The endless loop is modelled by `Run` over a finite
    sequence of per-pass inputs.  A ghost `trace` records every register
    access in order, so that the ordering of the start-up writes and the
    absence of later configuration writes can be stated. */
module Indicator {
  import opened Bits
  import opened Quantiser

  datatype Option<T> = None | Some(value: T)

  /** The words the switch register and the two ADC channel registers return during one pass. */
  datatype Inputs = Inputs(sw: u32, ch0: u32, ch1: u32)

  datatype Reg = Switches | Adc(ch: Channel) | LedData | LedDir

  datatype Access = Read(reg: Reg, value: u32) | Write(reg: Reg, value: u32)

  /** The word read from the channel that SW0 selects. */
  function AdcRead(inp: Inputs): (w: u32)
    ensures Bit(inp.sw, 0) == 0 ==> w == inp.ch0
    ensures Bit(inp.sw, 0) == 1 ==> w == inp.ch1
  {
    match Select(inp.sw)
    case Ch0 => inp.ch0
    case Ch1 => inp.ch1
  }

  /** The value one pass of the loop writes to the LED data register, or None
      when the conversion-complete bit is clear and nothing is written. */
  function PassOutput(inp: Inputs, doneBit: BitIndex): (r: Option<u32>)
    ensures r.None? <==> !IsComplete(AdcRead(inp), doneBit)
    ensures r.Some? ==> r.value <= OutputPins
    ensures r.Some? ==> forall i: nat ::
      Bit(r.value, i) == if i < LedCount(Sample(AdcRead(inp))) then 1 else 0
  {
    var adcRead := AdcRead(inp);
    if IsComplete(adcRead, doneBit) then
      var count := LedCount(Sample(adcRead));
      LedMaskShape(count);
      Some(LedMask(count))
    else
      None
  }

  /** The start-up writes, in program order. */
  function InitTrace(): seq<Access>
  {
    [Write(LedDir, OutputPins), Write(Adc(Ch0), 1), Write(Adc(Ch1), 1)]
  }

  /** The accesses of one pass: read the switch, read the selected channel, maybe write the LEDs. */
  function PassTrace(inp: Inputs, doneBit: BitIndex): seq<Access>
  {
    [Read(Switches, inp.sw), Read(Adc(Select(inp.sw)), AdcRead(inp))]
      + match PassOutput(inp, doneBit)
        case Some(mask) => [Write(LedData, mask)]
        case None => []
  }

  /** The accesses of a finite run of passes. */
  function RunTrace(ins: seq<Inputs>, doneBit: BitIndex): seq<Access>
  {
    if ins == [] then []
    else RunTrace(ins[..|ins| - 1], doneBit) + PassTrace(ins[|ins| - 1], doneBit)
  }

  /** The LED data register after a finite run of passes that started with `data0` in it:
      either that starting value or a mask that one of the passes wrote. */
  function Displayed(data0: u32, ins: seq<Inputs>, doneBit: BitIndex): (d: u32)
    ensures d == data0 || exists j :: 0 <= j < |ins| && PassOutput(ins[j], doneBit) == Some(d)
  {
    if ins == [] then data0
    else
      var n := |ins| - 1;
      match PassOutput(ins[n], doneBit)
      case Some(mask) => mask
      case None =>
        var prefix := ins[..n];
        assert forall j :: 0 <= j < n ==> prefix[j] == ins[j];
        Displayed(data0, prefix, doneBit)
  }

  /** An access the loop body may perform: any read, and writes only of LED
      data that stays within the pins configured as outputs. */
  predicate LoopAccess(a: Access)
  {
    a.Write? ==> a.reg == LedData && a.value <= OutputPins
  }

  class Board {
    /** JP1 data register (the ten LEDs on pins 0..9). */
    var data: u32
    /** JP1 direction register. */
    var dir: u32
    /** Last word written to ADC channel 0 (a write updates all channels once). */
    var ch0Cmd: u32
    /** Last word written to ADC channel 1 (a write enables auto-update). */
    var ch1Cmd: u32
    /** Every register access so far, in order. */
    ghost var trace: seq<Access>

    /** A board whose registers hold arbitrary power-on values. */
    constructor (data0: u32, dir0: u32, ch0Cmd0: u32, ch1Cmd0: u32)
      ensures data == data0 && dir == dir0 && ch0Cmd == ch0Cmd0 && ch1Cmd == ch1Cmd0
      ensures trace == []
    {
      data, dir, ch0Cmd, ch1Cmd := data0, dir0, ch0Cmd0, ch1Cmd0;
      trace := [];
    }

    /** Start-up: pins 0..9 become outputs, then ADC channel 0 and channel 1 are each written with 1. */
    method Init()
      modifies this
      ensures dir == OutputPins && ch0Cmd == 1 && ch1Cmd == 1
      ensures data == old(data)
      ensures trace == old(trace) + InitTrace()
    {
      dir := OutputPins;
      trace := trace + [Write(LedDir, OutputPins)];
      ch0Cmd := 1;
      trace := trace + [Write(Adc(Ch0), 1)];
      ch1Cmd := 1;
      trace := trace + [Write(Adc(Ch1), 1)];
    }

    /** One pass of the `while (1)` body. */
    method Step(inp: Inputs, doneBit: BitIndex)
      modifies this
      ensures data == match PassOutput(inp, doneBit)
                      case Some(mask) => mask
                      case None => old(data)
      ensures dir == old(dir) && ch0Cmd == old(ch0Cmd) && ch1Cmd == old(ch1Cmd)
      ensures trace == old(trace) + PassTrace(inp, doneBit)
    {
      var sw0 := SwitchBit(inp.sw);
      trace := trace + [Read(Switches, inp.sw)];
      var adcRead: u32;
      if sw0 == 0 {
        adcRead := inp.ch0;
        trace := trace + [Read(Adc(Ch0), adcRead)];
      } else {
        adcRead := inp.ch1;
        trace := trace + [Read(Adc(Ch1), adcRead)];
      }
      if IsComplete(adcRead, doneBit) {
        var adcValue := Sample(adcRead);
        var ledCount := LedCount(adcValue);
        var ledMask := LedMask(ledCount);
        data := ledMask;
        trace := trace + [Write(LedData, ledMask)];
      }
    }

    /** A finite prefix of the endless polling loop. */
    method Run(ins: seq<Inputs>, doneBit: BitIndex)
      modifies this
      ensures data == Displayed(old(data), ins, doneBit)
      ensures dir == old(dir) && ch0Cmd == old(ch0Cmd) && ch1Cmd == old(ch1Cmd)
      ensures trace == old(trace) + RunTrace(ins, doneBit)
    {
      var i := 0;
      while i < |ins|
        invariant 0 <= i <= |ins|
        invariant data == Displayed(old(data), ins[..i], doneBit)
        invariant dir == old(dir) && ch0Cmd == old(ch0Cmd) && ch1Cmd == old(ch1Cmd)
        invariant trace == old(trace) + RunTrace(ins[..i], doneBit)
      {
        RunExtends(old(data), ins, i, doneBit);
        Step(ins[i], doneBit);
        AppendAssoc(old(trace), RunTrace(ins[..i], doneBit), PassTrace(ins[i], doneBit));
        i := i + 1;
      }
      assert ins[..i] == ins;
    }

    /** `main`: start-up followed by a finite prefix of the loop. */
    method Boot(ins: seq<Inputs>, doneBit: BitIndex)
      modifies this
      ensures dir == OutputPins && ch0Cmd == 1 && ch1Cmd == 1
      ensures data == Displayed(old(data), ins, doneBit)
      ensures trace == old(trace) + InitTrace() + RunTrace(ins, doneBit)
    {
      Init();
      Run(ins, doneBit);
    }
  }

  /** Running one more pass appends that pass's accesses and applies its output. */
  lemma RunExtends(data0: u32, ins: seq<Inputs>, i: nat, doneBit: BitIndex)
    requires i < |ins|
    ensures RunTrace(ins[..i + 1], doneBit) == RunTrace(ins[..i], doneBit) + PassTrace(ins[i], doneBit)
    ensures Displayed(data0, ins[..i + 1], doneBit) ==
      match PassOutput(ins[i], doneBit)
      case Some(mask) => mask
      case None => Displayed(data0, ins[..i], doneBit)
  {
    var next := ins[..i + 1];
    assert next[..i] == ins[..i] && next[i] == ins[i];
  }

  /** Concatenation regroups; stated once so the loop in `Run` need not rediscover it. */
  lemma AppendAssoc<T>(a: seq<T>, b: seq<T>, c: seq<T>)
    ensures (a + b) + c == a + (b + c)
  {
  }

  // ----- properties of one pass -----

  /** The switch is read first, then the channel SW0 selects; at most one LED write follows. */
  lemma PassAccesses(inp: Inputs, doneBit: BitIndex)
    ensures |PassTrace(inp, doneBit)| == if IsComplete(AdcRead(inp), doneBit) then 3 else 2
    ensures PassTrace(inp, doneBit)[0] == Read(Switches, inp.sw)
    ensures PassTrace(inp, doneBit)[1] ==
      if Bit(inp.sw, 0) == 0 then Read(Adc(Ch0), inp.ch0) else Read(Adc(Ch1), inp.ch1)
    ensures forall k :: 0 <= k < |PassTrace(inp, doneBit)| ==> LoopAccess(PassTrace(inp, doneBit)[k])
  {
  }

  /** A pass whose conversion is not complete leaves the LEDs as they were. */
  lemma IncompletePassHolds(data0: u32, ins: seq<Inputs>, inp: Inputs, doneBit: BitIndex)
    requires !IsComplete(AdcRead(inp), doneBit)
    ensures Displayed(data0, ins + [inp], doneBit) == Displayed(data0, ins, doneBit)
    ensures RunTrace(ins + [inp], doneBit) == RunTrace(ins, doneBit) + PassTrace(inp, doneBit)
    ensures |PassTrace(inp, doneBit)| == 2
  {
  }

  // ----- properties of a finite run -----

  /** Inside the loop only the LED data register is ever written, and only with values within 0x3FF. */
  lemma {:induction false} RunTraceAccesses(ins: seq<Inputs>, doneBit: BitIndex)
    ensures forall k :: 0 <= k < |RunTrace(ins, doneBit)| ==> LoopAccess(RunTrace(ins, doneBit)[k])
  {
    if ins != [] {
      RunTraceAccesses(ins[..|ins| - 1], doneBit);
      PassAccesses(ins[|ins| - 1], doneBit);
    }
  }

  /** If no pass completed, the LEDs still show the value they started with. */
  lemma {:induction false} DisplayedHoldsWhenIncomplete(data0: u32, ins: seq<Inputs>, doneBit: BitIndex)
    requires forall j :: 0 <= j < |ins| ==> PassOutput(ins[j], doneBit).None?
    ensures Displayed(data0, ins, doneBit) == data0
  {
    if ins != [] {
      var prefix := ins[..|ins| - 1];
      assert forall j :: 0 <= j < |prefix| ==> prefix[j] == ins[j];
      DisplayedHoldsWhenIncomplete(data0, prefix, doneBit);
    }
  }

  /** The LEDs show the mask of the last pass that completed. */
  lemma {:induction false} DisplayedIsLastWrite(data0: u32, ins: seq<Inputs>, doneBit: BitIndex, j: nat)
    requires j < |ins| && PassOutput(ins[j], doneBit).Some?
    requires forall k :: j < k < |ins| ==> PassOutput(ins[k], doneBit).None?
    ensures Displayed(data0, ins, doneBit) == PassOutput(ins[j], doneBit).value
  {
    if j < |ins| - 1 {
      var prefix := ins[..|ins| - 1];
      assert forall k :: 0 <= k < |prefix| ==> prefix[k] == ins[k];
      DisplayedIsLastWrite(data0, prefix, doneBit, j);
    }
  }

  /** The LED register either still holds its earlier value or is within 0x3FF;
      it stays within 0x3FF throughout if it started there. */
  lemma {:induction false} DisplayedInRange(data0: u32, ins: seq<Inputs>, doneBit: BitIndex)
    ensures Displayed(data0, ins, doneBit) == data0 || Displayed(data0, ins, doneBit) <= OutputPins
    ensures data0 <= OutputPins ==> Displayed(data0, ins, doneBit) <= OutputPins
  {
    if ins != [] {
      DisplayedInRange(data0, ins[..|ins| - 1], doneBit);
    }
  }

  /** Once any pass has completed, the LED register is within 0x3FF, whatever the power-on value. */
  lemma {:induction false} DisplayedInRangeAfterWrite(data0: u32, ins: seq<Inputs>, doneBit: BitIndex, j: nat)
    requires j < |ins| && PassOutput(ins[j], doneBit).Some?
    ensures Displayed(data0, ins, doneBit) <= OutputPins
  {
    var n := |ins| - 1;
    if PassOutput(ins[n], doneBit).None? {
      var prefix := ins[..n];
      assert j < n && prefix[j] == ins[j];
      DisplayedInRangeAfterWrite(data0, prefix, doneBit, j);
    }
  }

  /** The start-up writes come first and in order (direction, channel 0, channel 1),
      every read comes after them, and the direction and ADC registers are never written again. */
  lemma BootOrder(ins: seq<Inputs>, doneBit: BitIndex)
    ensures |InitTrace() + RunTrace(ins, doneBit)| >= 3
    ensures (InitTrace() + RunTrace(ins, doneBit))[0] == Write(LedDir, 0x3FF)
    ensures (InitTrace() + RunTrace(ins, doneBit))[1] == Write(Adc(Ch0), 1)
    ensures (InitTrace() + RunTrace(ins, doneBit))[2] == Write(Adc(Ch1), 1)
    ensures forall k :: 0 <= k < |InitTrace() + RunTrace(ins, doneBit)| ==>
      ((InitTrace() + RunTrace(ins, doneBit))[k].Read? ==> k >= 3)
    ensures forall k :: 3 <= k < |InitTrace() + RunTrace(ins, doneBit)| ==>
      LoopAccess((InitTrace() + RunTrace(ins, doneBit))[k])
  {
    var run := RunTrace(ins, doneBit);
    RunTraceAccesses(ins, doneBit);
    assert forall k :: 3 <= k < |InitTrace() + run| ==> (InitTrace() + run)[k] == run[k - 3];
  }

  // ----- end-to-end examples -----

  /** SW0 low, channel 0 complete with sample 2048: five LEDs (0x1F); channel 1 is not consulted. */
  lemma HalfScaleExample(ch1: u32)
    ensures PassOutput(Inputs(0, 0x10000 + 2048, ch1), SimulatorDoneBit) == Some(0x1F)
  {
    assert AdcRead(Inputs(0, 0x10000 + 2048, ch1)) == 0x10800;
    BitIsQuotient(0x10800, 16);
    BarGraphExamples();
  }

  /** SW0 high, channel 1 complete at full scale: all ten LEDs (0x3FF), not 0x7FF. */
  lemma FullScaleExample(ch0: u32)
    ensures PassOutput(Inputs(1, ch0, 0x10000 + 0xFFF), SimulatorDoneBit) == Some(0x3FF)
  {
    assert AdcRead(Inputs(1, ch0, 0x10000 + 0xFFF)) == 0x10FFF;
    BitIsQuotient(0x10FFF, 16);
    BarGraphExamples();
  }

  /** A word with bit 15 set and bit 16 clear counts as incomplete under the simulator bit
      and as complete under the hardware bit. */
  lemma HardwareBitIgnoredBySimulatorTest(ch1: u32)
    ensures PassOutput(Inputs(0, 0x8000 + 2048, ch1), SimulatorDoneBit) == None
    ensures PassOutput(Inputs(0, 0x8000 + 2048, ch1), HardwareDoneBit) == Some(0x1F)
  {
    assert AdcRead(Inputs(0, 0x8000 + 2048, ch1)) == 0x8800;
    BitIsQuotient(0x8800, 16);
    BitIsQuotient(0x8800, 15);
    BarGraphExamples();
  }
}
