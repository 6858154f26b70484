/**
 * The toaster-oven controller of toasterOven/src/Lab08_main.c: the global
 * oven record and the button-hold and sub-second counters, the button
 * handler, the event-driven state machine, the knob (ADC) scaling, the LED
 * progress bar and the 10 Hz timer that counts the cooking time down once
 * per second. The display, the LED and ADC hardware and the interrupt
 * plumbing are left out; the interrupt handlers are methods called one at
 * a time, and the value LEDs_Set last wrote is a field.
 */
module Oven {
  import B = Buttons
  import Bits

  const LongPress := 5
  const TicksPerSecond := 10
  const BroilTemp := 500
  const MaxTemp := 555

  /** Button event flags the controller reacts to (bits 4..7 of the debouncer's byte). */
  const Event3Up: bv8 := 0x10
  const Event3Down: bv8 := 0x20
  const Event4Up: bv8 := 0x40
  const Event4Down: bv8 := 0x80

  datatype OvenState = Setup | Cooking | ResetPending | SelectorChangePending
  datatype CookingMode = Bake | Toast | Broil
  datatype SelectMode = TimeSelect | TempSelect | NoneSelect

  predicate IsU16(x: int) { 0 <= x < 0x1_0000 }

  /** A uint8_t counter's ++: 255 wraps round to 0. */
  function U8Succ(x: int): int
  {
    if x == 255 then 0 else x + 1
  }

  // ---------------------------------------------------------------------
  // Modes and the selector

  /** The enumerator values of CookingMode. */
  function ModeNumber(m: CookingMode): nat
  {
    match m
    case Bake => 0
    case Toast => 1
    case Broil => 2
  }

  function ModeOfNumber(n: nat): (m: CookingMode)
    requires n < 3
    ensures ModeNumber(m) == n
  {
    if n == 0 then Bake else if n == 1 then Toast else Broil
  }

  /** (mode + 1) % 3, as changeMode and the SELECTOR_CHANGE_PENDING branch compute it. */
  function NextMode(m: CookingMode): CookingMode
  {
    ModeOfNumber((ModeNumber(m) + 1) % 3)
  }

  /** The mode cycles BAKE, TOAST, BROIL and back, and every mode is left. */
  lemma ModesCycle(m: CookingMode)
    ensures NextMode(Bake) == Toast && NextMode(Toast) == Broil && NextMode(Broil) == Bake
    ensures NextMode(m) != m && NextMode(NextMode(NextMode(m))) == m
  {
    assert ModeNumber(NextMode(Bake)) == 1;
    assert ModeNumber(NextMode(Toast)) == 2;
    assert ModeNumber(NextMode(Broil)) == 0;
  }

  /** The selector flip: TIME becomes TEMP, anything else becomes TIME. */
  function Toggled(s: SelectMode): (r: SelectMode)
    ensures r != s && r != NoneSelect
    ensures r == TempSelect <==> s == TimeSelect
  {
    if s == TimeSelect then TempSelect else TimeSelect
  }

  /** The temperature cooking runs at: 500 in BROIL, the set temperature otherwise. */
  function CookTemp(mode: CookingMode, setTemp: int): int
  {
    if mode == Broil then BroilTemp else setTemp
  }

  // ---------------------------------------------------------------------
  // Knob scaling

  /** (adcValue * 300) / 1023: the cooking time in seconds the knob selects. */
  function KnobCookTime(adc: int): (r: int)
    requires IsU16(adc)
    ensures 0 <= r && r * 1023 <= adc * 300 < (r + 1) * 1023
    ensures IsU16(r) && (adc <= 1023 ==> r <= 300)
  {
    adc * 300 / 1023
  }

  /** 300 + (adcValue * 250) / 1023, capped at 555: the temperature the knob selects. */
  function KnobTemp(adc: int): (r: int)
    requires IsU16(adc)
    ensures 300 <= r <= MaxTemp
    ensures r < MaxTemp ==> (r - 300) * 1023 <= adc * 250 < (r - 300 + 1) * 1023
    ensures r == MaxTemp <==> adc * 250 >= (MaxTemp - 300) * 1023
    ensures adc <= 1023 ==> r <= 550
  {
    var t := 300 + adc * 250 / 1023;
    if t > MaxTemp then MaxTemp else t
  }

  /** Turning the knob further never selects less time or a lower temperature. */
  lemma KnobIsMonotone(a1: int, a2: int)
    requires IsU16(a1) && IsU16(a2) && a1 <= a2
    ensures KnobCookTime(a1) <= KnobCookTime(a2)
    ensures KnobTemp(a1) <= KnobTemp(a2)
  {
    DivIsMonotone(a1 * 300, a2 * 300, 1023);
    DivIsMonotone(a1 * 250, a2 * 250, 1023);
  }

  /** What a knob reading changes in SETUP, as the conversion-complete handler decides it. */
  datatype KnobTarget = SetsCookTime | SetsTemp | SetsNothing

  function TargetOf(mode: CookingMode, select: SelectMode): (k: KnobTarget)
    ensures k == SetsTemp <==> mode == Bake && select == TempSelect
    ensures k == SetsNothing <==> mode == Bake && select == NoneSelect
  {
    if mode == Bake then
      match select
      case TimeSelect => SetsCookTime
      case TempSelect => SetsTemp
      case NoneSelect => SetsNothing
    else SetsCookTime
  }

  // ---------------------------------------------------------------------
  // The LED progress bar

  /** ledsOn: (8 * cookTime) / setCookTime, truncated to uint8_t; at most 8 while no more time is left than was set. */
  function LedsOn(cookTime: int, setCookTime: int): (r: int)
    requires 0 <= cookTime && 0 < setCookTime
    ensures 0 <= r < 256
    ensures cookTime <= setCookTime ==> r == 8 * cookTime / setCookTime <= 8
  {
    EighthsBound(cookTime, setCookTime);
    (8 * cookTime / setCookTime) % 256
  }

  lemma EighthsBound(cookTime: int, setCookTime: int)
    requires 0 <= cookTime && 0 < setCookTime
    ensures cookTime <= setCookTime ==> 0 <= 8 * cookTime / setCookTime <= 8
  {
    if cookTime <= setCookTime {
      DivIsMonotone(8 * cookTime, 8 * setCookTime, setCookTime);
      assert 8 * setCookTime / setCookTime == 8;
    }
  }

  /** The shift count 8 - ledsOn of the progress bar is not negative: no time is set, or at most 8 LEDs are lit. */
  predicate ShiftOk(cookTime: int, setCookTime: int)
    requires 0 <= cookTime && 0 <= setCookTime
  {
    setCookTime == 0 || LedsOn(cookTime, setCookTime) <= 8
  }

  /**
   * The byte updateLEDProgressBar writes: 0 when no time is set, otherwise
   * 0xFF << (8 - ledsOn) truncated to a byte. A negative shift count, which
   * C leaves undefined, is excluded by ShiftOk.
   */
  function ProgressMask(cookTime: int, setCookTime: int): (r: int)
    requires 0 <= cookTime && 0 <= setCookTime && ShiftOk(cookTime, setCookTime)
    ensures 0 <= r < 256
    ensures setCookTime == 0 || cookTime == 0 ==> r == 0
    ensures 0 < setCookTime == cookTime ==> r == 0xFF
  {
    if setCookTime == 0 then 0
    else
      TopBits(8 - LedsOn(cookTime, setCookTime));
      (0xFF * Bits.Pow2(8 - LedsOn(cookTime, setCookTime))) % 256
  }

  /** 0xFF << m, kept to its low byte, is the top 8 - m bits: 256 - 2^m. */
  lemma TopBits(m: nat)
    requires m <= 8
    ensures (0xFF * Bits.Pow2(m)) % 256 == 256 - Bits.Pow2(m)
  {
    assert Bits.Pow2(0) == 1 && Bits.Pow2(1) == 2 && Bits.Pow2(2) == 4 && Bits.Pow2(3) == 8 && Bits.Pow2(4) == 16;
    assert Bits.Pow2(5) == 32 && Bits.Pow2(6) == 64 && Bits.Pow2(7) == 128 && Bits.Pow2(8) == 256;
  }

  /** The lit LEDs are the top ledsOn of the eight: the mask is 256 - 2^(8 - ledsOn). */
  lemma ProgressMaskIsTopLeds(cookTime: int, setCookTime: int)
    requires 0 <= cookTime <= setCookTime && 0 < setCookTime
    ensures LedsOn(cookTime, setCookTime) <= 8 &&
      ProgressMask(cookTime, setCookTime) == 256 - Bits.Pow2(8 - LedsOn(cookTime, setCookTime))
  {
    var k := LedsOn(cookTime, setCookTime);
    TopBits(8 - k);
  }

  /** More cooking time left never lights fewer LEDs. */
  lemma ProgressMaskIsMonotone(c1: int, c2: int, setCookTime: int)
    requires 0 <= c1 <= c2 <= setCookTime && 0 < setCookTime
    ensures ProgressMask(c1, setCookTime) <= ProgressMask(c2, setCookTime)
  {
    var k1, k2 := LedsOn(c1, setCookTime), LedsOn(c2, setCookTime);
    assert 0 <= k1 <= k2 <= 8 by {
      DivIsMonotone(8 * c1, 8 * c2, setCookTime);
    }
    ProgressMaskIsTopLeds(c1, setCookTime);
    ProgressMaskIsTopLeds(c2, setCookTime);
    Bits.Pow2Grows(8 - k2, 8 - k1);
  }

  lemma DivIsMonotone(x: int, y: int, d: int)
    requires 0 <= x <= y && 0 < d
    ensures x / d <= y / d
  {
    var qx, qy := x / d, y / d;
    assert x == qx * d + x % d && y == qy * d + y % d;
    assert (qy + 1 - qx) * d == qy * d + d - qx * d;
    NonPositiveProduct(qy + 1 - qx, d);
  }

  lemma {:induction false} NonPositiveProduct(a: int, d: int)
    requires 0 < d
    ensures a <= 0 ==> a * d <= 0
    decreases if a < 0 then -a else 0
  {
    if a < 0 {
      NonPositiveProduct(a + 1, d);
      assert a * d == (a + 1) * d - d;
    }
  }

  // ---------------------------------------------------------------------
  // The oven record and its transitions

  /** The global OvenData struct (its unused buttonEvent member left out). */
  datatype OvenData = OvenData(
    state: OvenState, mode: CookingMode, select: SelectMode,
    cookTime: int, setCookTime: int, temp: int, setTemp: int, elapsedTime: int,
    adcUpdateFlag: bool, smEventFlag: bool)

  /** The uint16_t members within their type. */
  predicate InRange(o: OvenData)
  {
    IsU16(o.cookTime) && IsU16(o.setCookTime) && IsU16(o.temp) && IsU16(o.setTemp) && IsU16(o.elapsedTime)
  }

  /**
   * The cooking invariant: while cooking, the time left is between 1 and
   * the set time, time left and time elapsed add up to the set time, and
   * the oven runs at the mode's temperature.
   */
  predicate Good(o: OvenData)
  {
    InRange(o) &&
    (o.state == Cooking ==>
      1 <= o.cookTime <= o.setCookTime && o.cookTime + o.elapsedTime == o.setCookTime &&
      o.temp == CookTemp(o.mode, o.setTemp))
  }

  /** The progress bar's shift count is defined whenever runOvenSM may reach it, in COOKING. */
  predicate ShiftDefined(o: OvenData)
  {
    InRange(o) && (o.state == Cooking ==> ShiftOk(o.cookTime, o.setCookTime))
  }

  /** The values main assigns before entering its loop. */
  function InitialOven(): (o: OvenData)
    ensures Good(o) && o.state == Setup && o.cookTime == o.setCookTime
  {
    OvenData(Setup, Bake, TimeSelect, 60, 60, 350, 350, 0, false, false)
  }

  /** changeMode, and the SELECTOR_CHANGE_PENDING branch of runOvenSM. */
  function ChangeModeOf(o: OvenData): (r: OvenData)
    ensures r.mode != o.mode && r.state == Setup && r.select == TimeSelect
    ensures Good(o) ==> Good(r)
  {
    ModesCycle(o.mode);
    o.(mode := NextMode(o.mode), state := Setup, select := TimeSelect)
  }

  /** toggleSelect: the selector flips in BAKE during SETUP only. */
  function ToggleSelectOf(o: OvenData): (r: OvenData)
    ensures o.mode == Bake && o.state == Setup <==> r != o
    ensures r == o.(select := r.select)
    ensures Good(o) ==> Good(r)
  {
    if o.mode == Bake && o.state == Setup then o.(select := Toggled(o.select)) else o
  }

  /** toggleCooking: SETUP becomes COOKING, every other state SETUP. */
  function ToggleCookingOf(o: OvenData): (r: OvenData)
    ensures r.state == Cooking <==> o.state == Setup
    ensures r == o.(state := r.state)
  {
    o.(state := if o.state == Setup then Cooking else Setup)
  }

  /**
   * Entering COOKING through toggleCooking skips the set-up RESET_PENDING
   * does: from the start-up values with the knob set to a time of 1, the
   * oven would be cooking 60 with 1 set, and ledsOn, 480 truncated to 224,
   * would make the progress bar's shift count negative.
   */
  lemma ToggleCookingSkipsSetUp()
    ensures var o := InitialOven().(setCookTime := KnobCookTime(4));
      Good(o) && !ShiftDefined(ToggleCookingOf(o))
  {
    assert KnobCookTime(4) == 1;
    assert LedsOn(60, 1) == 224;
  }

  /**
   * What a knob reading does to the record, in SETUP: sets the time or the
   * temperature the selector points at and wakes the state machine.
   * Outside SETUP nothing changes.
   */
  function KnobOf(o: OvenData, adc: int): (r: OvenData)
    requires IsU16(adc)
    ensures o.state != Setup ==> r == o
    ensures o.state == Setup ==>
      r.smEventFlag && r == o.(setCookTime := r.setCookTime, setTemp := r.setTemp, smEventFlag := true)
    ensures r.setCookTime != o.setCookTime ==> r.setCookTime == KnobCookTime(adc)
    ensures r.setTemp != o.setTemp ==> r.setTemp == KnobTemp(adc)
    ensures Good(o) ==> Good(r)
  {
    if o.state != Setup then o
    else
      match TargetOf(o.mode, o.select)
      case SetsCookTime => o.(setCookTime := KnobCookTime(adc), smEventFlag := true)
      case SetsTemp => o.(setTemp := KnobTemp(adc), smEventFlag := true)
      case SetsNothing => o.(smEventFlag := true)
  }

  /** Whether the main loop's ADC block and the conversion-complete handler pick the same setting. */
  lemma KnobHandlersAgree(mode: CookingMode, select: SelectMode)
    ensures (select == TimeSelect || mode != Bake) <==> TargetOf(mode, select) == SetsCookTime
    ensures (select == TempSelect && mode == Bake) <==> TargetOf(mode, select) == SetsTemp
  {
  }

  /**
   * runOvenSM, with the LED byte it leaves: nothing happens unless the
   * event flag is set, and the flag is cleared on entry.
   */
  function SmStep(o: OvenData, leds: int): (r: (OvenData, int))
    requires ShiftDefined(o)
    ensures !o.smEventFlag ==> r == (o, leds)
    ensures o.smEventFlag ==> (r.0.smEventFlag <==> o.state == SelectorChangePending)
    ensures o.smEventFlag && o.state == Setup ==>
      r.0 == o.(smEventFlag := false, cookTime := o.setCookTime, temp := o.setTemp) && r.1 == leds
    ensures o.smEventFlag && o.state == Cooking && o.cookTime > 0 ==>
      r.0 == o.(smEventFlag := false) && r.1 == ProgressMask(o.cookTime, o.setCookTime)
    ensures o.smEventFlag && o.state == SelectorChangePending ==>
      r.0 == ChangeModeOf(o) && r.1 == leds
    ensures o.smEventFlag && o.state == ResetPending ==>
      r.0.state == Cooking && 1 <= r.0.cookTime == r.0.setCookTime && r.0.elapsedTime == 0 &&
      r.0.temp == CookTemp(o.mode, o.setTemp) && r.0.mode == o.mode && r.1 == 0xFF &&
      (o.setCookTime > 0 ==> r.0.setCookTime == o.setCookTime)
  {
    if !o.smEventFlag then (o, leds)
    else
      var o0 := o.(smEventFlag := false);
      match o.state
      case Setup => (o0.(cookTime := o.setCookTime, temp := o.setTemp), leds)
      case Cooking =>
        var o1 := if o.cookTime == 0
          then o0.(state := Setup, cookTime := o.setCookTime, temp := o.setTemp, elapsedTime := 0)
          else o0;
        (o1, ProgressMask(o1.cookTime, o1.setCookTime))
      case SelectorChangePending => (ChangeModeOf(o0).(smEventFlag := true), leds)
      case ResetPending =>
        var reload := if o.setCookTime == 0 then 1 else o.setCookTime;
        (o0.(setCookTime := reload, state := Cooking, cookTime := reload,
             temp := CookTemp(o.mode, o.setTemp), elapsedTime := 0),
         ProgressMask(reload, reload))
  }

  lemma SmStepKeepsGood(o: OvenData, leds: int)
    requires Good(o) && 0 <= leds < 256
    ensures Good(SmStep(o, leds).0) && 0 <= SmStep(o, leds).1 < 256
  {
  }

  /** The hold state of buttons 3 and 4: btn3press, btn3held, btn4press, btn4held. */
  datatype Holds = Holds(press3: bool, held3: int, press4: bool, held4: int)

  /** The hold counts after a press in this call has restarted them. */
  function Held3(h: Holds, events: bv8): int { if events & Event3Down != 0 then 0 else h.held3 }
  function Held4(h: Holds, events: bv8): int { if events & Event4Down != 0 then 0 else h.held4 }

  predicate LongRelease3(h: Holds, events: bv8) { events & Event3Up != 0 && Held3(h, events) >= LongPress }
  predicate LongRelease4(h: Holds, events: bv8) { events & Event4Up != 0 && Held4(h, events) >= LongPress }

  /** checkTimerEvents after the debouncer has been read. */
  function ButtonsOf(o: OvenData, h: Holds, events: bv8): (r: (OvenData, Holds))
    ensures events & 0xF0 == 0 ==> r == (o, h)
    ensures r.0 == o.(state := r.0.state, select := r.0.select, smEventFlag := r.0.smEventFlag)
    ensures LongRelease4(h, events) ==> r.0.state == ResetPending && r.0.smEventFlag
    ensures LongRelease3(h, events) && !LongRelease4(h, events) ==>
      r.0.state == SelectorChangePending && r.0.smEventFlag
    ensures !LongRelease3(h, events) && !LongRelease4(h, events) ==> r.0.state == o.state
    ensures events & Event3Up != 0 ==> r.0.smEventFlag && !r.1.press3 && r.1.held3 == 0
    ensures events & Event3Up != 0 && !LongRelease3(h, events) ==> r.0.select == ToggleSelectOf(o).select
    ensures (events & Event3Up == 0 || LongRelease3(h, events)) ==> r.0.select == o.select
    ensures Good(o) ==> Good(r.0)
  {
    var p := Button3Of(o, h, events);
    Button4Of(p.0, p.1, events)
  }

  /** The button-3 half of checkTimerEvents. */
  function Button3Of(o: OvenData, h: Holds, events: bv8): (r: (OvenData, Holds))
    ensures r.0 == o.(state := r.0.state, select := r.0.select, smEventFlag := r.0.smEventFlag)
    ensures r.1.press4 == h.press4 && r.1.held4 == h.held4
    ensures events & Event3Up == 0 ==> r.0 == o
    ensures events & Event3Up != 0 ==> r.0.smEventFlag && !r.1.press3 && r.1.held3 == 0
    ensures LongRelease3(h, events) ==> r.0.state == SelectorChangePending
    ensures events & Event3Up != 0 && !LongRelease3(h, events) ==> r.0 == ToggleSelectOf(o).(smEventFlag := true)
    ensures events & Event3Down != 0 && events & Event3Up == 0 ==> r.1.press3 && r.1.held3 == 0
  {
    var h1 := if events & Event3Down != 0 then h.(press3 := true, held3 := 0) else h;
    if events & Event3Up != 0 then
      var o1 := if h1.held3 >= LongPress then o.(state := SelectorChangePending) else ToggleSelectOf(o);
      (o1.(smEventFlag := true), h1.(press3 := false, held3 := 0))
    else (o, h1)
  }

  /** The button-4 half of checkTimerEvents. */
  function Button4Of(o: OvenData, h: Holds, events: bv8): (r: (OvenData, Holds))
    ensures r.1.press3 == h.press3 && r.1.held3 == h.held3
    ensures LongRelease4(h, events) ==> r.0 == o.(state := ResetPending, smEventFlag := true)
    ensures !LongRelease4(h, events) ==> r.0 == o
    ensures events & Event4Up != 0 ==> !r.1.press4
    ensures events & Event4Down != 0 && events & Event4Up == 0 ==> r.1.press4 && r.1.held4 == 0
  {
    var h1 := if events & Event4Down != 0 then h.(press4 := true, held4 := 0) else h;
    if events & Event4Up != 0 then
      var o1 := if h1.held4 >= LongPress then o.(state := ResetPending, smEventFlag := true) else o;
      (o1, h1.(press4 := false))
    else (o, h1)
  }

  // ---------------------------------------------------------------------
  // The once-per-second countdown

  /**
   * One TIM2 tick of the record, the sub-second counter and the LED byte:
   * on every tenth tick a cooking oven with time left counts down one
   * second; reaching zero returns it to SETUP with the set time and
   * temperature restored and the LEDs off.
   */
  function TickOf(o: OvenData, ticks: int, leds: int): (r: (OvenData, int, int))
    requires 0 <= ticks < TicksPerSecond
    ensures r.1 == if ticks == TicksPerSecond - 1 then 0 else ticks + 1
    ensures r.0 != o || r.2 != leds ==> ticks == TicksPerSecond - 1 && o.state == Cooking && o.cookTime > 0
    ensures r.0.mode == o.mode && r.0.select == o.select
    ensures r.0.setCookTime == o.setCookTime && r.0.setTemp == o.setTemp
  {
    var t := ticks + 1;
    if t >= TicksPerSecond then
      if o.state == Cooking && o.cookTime > 0 then
        var o1 := o.(cookTime := o.cookTime - 1, elapsedTime := o.elapsedTime + 1, smEventFlag := true);
        if o1.cookTime == 0 then
          (o1.(state := Setup, cookTime := o.setCookTime, temp := o.setTemp, elapsedTime := 0), 0, 0)
        else (o1, 0, leds)
      else (o, 0, leds)
    else (o, t, leds)
  }

  lemma TickKeepsGood(o: OvenData, ticks: int, leds: int)
    requires Good(o) && 0 <= ticks < TicksPerSecond
    ensures Good(TickOf(o, ticks, leds).0)
  {
  }

  /** n ticks in a row. */
  function TicksOf(o: OvenData, ticks: int, leds: int, n: nat): (r: (OvenData, int, int))
    requires 0 <= ticks < TicksPerSecond
    ensures 0 <= r.1 < TicksPerSecond && r.1 == (ticks + n) % TicksPerSecond
    ensures r.0.mode == o.mode && r.0.select == o.select
    ensures r.0.setCookTime == o.setCookTime && r.0.setTemp == o.setTemp
    ensures Good(o) ==> Good(r.0)
  {
    if n == 0 then (o, ticks, leds)
    else
      var p := TicksOf(o, ticks, leds, n - 1);
      TickOf(p.0, p.1, p.2)
  }

  /** Before the last second runs out, n ticks take (ticks + n) / 10 seconds off and onto the clock. */
  lemma {:induction false} CountingDown(o: OvenData, ticks: int, leds: int, n: nat)
    requires o.state == Cooking && 1 <= o.cookTime && 0 <= ticks < TicksPerSecond
    requires n < TicksPerSecond * o.cookTime - ticks
    ensures var r := TicksOf(o, ticks, leds, n);
      r.0.state == Cooking && r.0.cookTime == o.cookTime - (ticks + n) / 10 &&
      r.0.elapsedTime == o.elapsedTime + (ticks + n) / 10 && r.1 == (ticks + n) % 10 &&
      r.0.temp == o.temp && r.0.mode == o.mode && r.0.setCookTime == o.setCookTime &&
      r.0.setTemp == o.setTemp && r.2 == leds
  {
    if n > 0 {
      CountingDown(o, ticks, leds, n - 1);
      var q, m := (ticks + n - 1) / 10, (ticks + n - 1) % 10;
      assert ticks + n - 1 == 10 * q + m;
      if m == 9 {
        assert (ticks + n) / 10 == q + 1 && (ticks + n) % 10 == 0;
        assert o.cookTime - q - 1 >= 1 by {
          assert 10 * q + 10 < TicksPerSecond * o.cookTime;
        }
      } else {
        assert (ticks + n) / 10 == q && (ticks + n) % 10 == m + 1;
      }
    }
  }

  /**
   * Cooking started with the sub-second counter at ticks lasts exactly
   * 10 * cookTime - ticks timer ticks: the oven is still cooking one tick
   * before, and at that tick is back in SETUP with the set time and
   * temperature, nothing elapsed, the counter at 0 and the LEDs off.
   */
  lemma CookingLasts(o: OvenData, ticks: int, leds: int)
    requires o.state == Cooking && 1 <= o.cookTime && 0 <= ticks < TicksPerSecond
    ensures TicksOf(o, ticks, leds, TicksPerSecond * o.cookTime - ticks - 1).0.state == Cooking
    ensures var r := TicksOf(o, ticks, leds, TicksPerSecond * o.cookTime - ticks);
      r.0.state == Setup && r.0.cookTime == o.setCookTime && r.0.temp == o.setTemp &&
      r.0.elapsedTime == 0 && r.1 == 0 && r.2 == 0
  {
    var n := TicksPerSecond * o.cookTime - ticks - 1;
    CountingDown(o, ticks, leds, n);
    assert ticks + n == 10 * (o.cookTime - 1) + 9;
    assert (ticks + n) / 10 == o.cookTime - 1 && (ticks + n) % 10 == 9;
  }

  // ---------------------------------------------------------------------
  // The controller

  /**
   * The global oven record together with the module-level adcValue,
   * timerFlag, button-hold counters and flags, the sub-second counter, the
   * watchdog handler's last accepted reading and the byte last written to
   * the LEDs.
   */
  /**
   * One pass of main's polling loop as a value, given the debouncer's
   * events, the latest knob reading and the timer flag: the buttons, then a
   * pending knob update, then the tick, then the state machine if anything
   * woke it. The pass keeps the cooking invariant, leaves both flags clear
   * and, when nothing happened, changes nothing.
   */
  function LoopOf(o: OvenData, h: Holds, leds: int, events: bv8, adc: int, timer: bool): (r: (OvenData, Holds, int))
    requires Good(o) && IsU16(adc) && 0 <= leds < 256
    ensures Good(r.0) && !r.0.smEventFlag && !r.0.adcUpdateFlag && 0 <= r.2 < 256
    ensures r.1 == ButtonsOf(o, h, events).1
    ensures events & 0xF0 == 0 && !o.adcUpdateFlag && !o.smEventFlag && !timer ==> r == (o, h, leds)
  {
    var b := ButtonsOf(o, h, events);
    var w := PendingOf(b.0, adc, timer);
    SmStepKeepsGood(w, leds);
    var s := SmStep(w, leds);
    (s.0.(smEventFlag := false), b.1, s.1)
  }

  /** The middle of a pass: a pending knob update is applied and a tick wakes the state machine. */
  function PendingOf(o: OvenData, adc: int, timer: bool): (r: OvenData)
    requires Good(o) && IsU16(adc)
    ensures Good(r) && !r.adcUpdateFlag
    ensures !o.adcUpdateFlag && !o.smEventFlag && !timer ==> r == o
  {
    var k := if o.adcUpdateFlag then KnobOf(o.(adcUpdateFlag := false), adc) else o;
    k.(smEventFlag := k.smEventFlag || timer)
  }

  class Controller {
    var oven: OvenData
    var adcValue: int
    var timerFlag: bool
    var btn3held: int
    var btn3press: bool
    var btn4press: bool
    var btn4held: int
    var secondTickCounter: int
    var lastAdcValue: int
    var leds: int

    /** The statics within their C types, and the sub-second counter below 10. */
    ghost predicate StaticsOk()
      reads this
    {
      IsU16(adcValue) && IsU16(lastAdcValue) &&
      0 <= btn3held < 256 && 0 <= btn4held < 256 && 0 <= leds < 256 &&
      0 <= secondTickCounter < TicksPerSecond
    }

    ghost predicate Valid()
      reads this
    {
      Good(oven) && StaticsOk()
    }

    ghost function HoldsOf(): Holds
      reads this
    {
      Holds(btn3press, btn3held, btn4press, btn4held)
    }

    /** main's start-up assignments and the statics' initial values; the LEDs start dark. */
    constructor ()
      ensures Valid() && oven == InitialOven()
      ensures adcValue == 0 && !timerFlag && HoldsOf() == Holds(false, 0, false, 0)
      ensures secondTickCounter == 0 && lastAdcValue == 0 && leds == 0
    {
      oven := OvenData(Setup, Bake, TimeSelect, 60, 60, 350, 350, 0, false, false);
      adcValue := 0;
      timerFlag := false;
      btn3held := 0;
      btn3press := false;
      btn4press := false;
      btn4held := 0;
      secondTickCounter := 0;
      lastAdcValue := 0;
      leds := 0;
    }

    method ChangeMode()
      requires Valid()
      modifies this`oven
      ensures Valid() && oven == ChangeModeOf(old(oven))
    {
      oven := oven.(mode := ModeOfNumber((ModeNumber(oven.mode) + 1) % 3), state := Setup, select := TimeSelect);
    }

    method ToggleSelect()
      requires Valid()
      modifies this`oven
      ensures Valid() && oven == ToggleSelectOf(old(oven))
    {
      if oven.mode == Bake && oven.state == Setup {
        if oven.select == TimeSelect {
          oven := oven.(select := TempSelect);
        } else {
          oven := oven.(select := TimeSelect);
        }
      }
    }

    method ToggleCooking()
      modifies this`oven
      ensures oven == ToggleCookingOf(old(oven))
    {
      if oven.state == Setup {
        oven := oven.(state := Cooking);
      } else {
        oven := oven.(state := Setup);
      }
    }

    method UpdateLedProgressBar()
      requires InRange(oven) && ShiftOk(oven.cookTime, oven.setCookTime)
      modifies this`leds
      ensures leds == ProgressMask(oven.cookTime, oven.setCookTime)
    {
      if oven.setCookTime == 0 {
        leds := 0;
        return;
      }
      var ledsOn := (8 * oven.cookTime / oven.setCookTime) % 256;
      leds := (0xFF * Bits.Pow2(8 - ledsOn)) % 256;
    }

    /** checkTimerEvents: the debouncer is run on the sampled button levels. */
    method CheckTimerEvents(d: B.Debouncer, sample: bv8) returns (events: bv8)
      requires Valid() && d.Valid()
      modifies d, d.debounceCount
      modifies this`btn3press, this`btn3held, this`btn4press, this`btn4held, this`oven
      ensures Valid() && d.Valid()
      ensures events == B.EventsUpTo(old(d.prevState), old(d.debounceCount[..]), sample, 4)
      ensures (oven, HoldsOf()) == ButtonsOf(old(oven), old(HoldsOf()), events)
    {
      events := d.CheckEvents(sample);
      HandleButton3(events);
      HandleButton4(events);
    }

    method HandleButton3(events: bv8)
      requires StaticsOk()
      modifies this`btn3press, this`btn3held, this`oven
      ensures StaticsOk()
      ensures (oven, HoldsOf()) == Button3Of(old(oven), old(HoldsOf()), events)
    {
      if events & Event3Down != 0 {
        btn3press := true;
        btn3held := 0;
      }
      if events & Event3Up != 0 {
        if btn3held >= LongPress {
          oven := oven.(state := SelectorChangePending);
        } else {
          if oven.mode == Bake && oven.state == Setup {
            oven := oven.(select := if oven.select == TimeSelect then TempSelect else TimeSelect);
          }
        }
        btn3press := false;
        btn3held := 0;
        oven := oven.(smEventFlag := true);
      }
    }

    method HandleButton4(events: bv8)
      requires StaticsOk()
      modifies this`btn4press, this`btn4held, this`oven
      ensures StaticsOk()
      ensures (oven, HoldsOf()) == Button4Of(old(oven), old(HoldsOf()), events)
    {
      if events & Event4Down != 0 {
        btn4press := true;
        btn4held := 0;
      }
      if events & Event4Up != 0 {
        if btn4held >= LongPress {
          oven := oven.(state := ResetPending, smEventFlag := true);
        }
        btn4press := false;
      }
    }

    /** runOvenSM; it needs only the progress bar's shift to be defined. */
    method RunOvenSM()
      requires ShiftDefined(oven) && StaticsOk()
      modifies this`oven, this`leds
      ensures StaticsOk() && (oven, leds) == SmStep(old(oven), old(leds))
    {
      if !oven.smEventFlag {
        return;
      }
      oven := oven.(smEventFlag := false);
      match oven.state
      case Setup =>
        oven := oven.(cookTime := oven.setCookTime, temp := oven.setTemp);
      case Cooking =>
        if oven.cookTime == 0 {
          oven := oven.(state := Setup, cookTime := oven.setCookTime, temp := oven.setTemp, elapsedTime := 0);
          leds := 0;
        }
        UpdateLedProgressBar();
      case SelectorChangePending =>
        oven := oven.(mode := ModeOfNumber((ModeNumber(oven.mode) + 1) % 3), state := Setup, select := TimeSelect);
        oven := oven.(smEventFlag := true);
      case ResetPending =>
        if oven.setCookTime == 0 {
          oven := oven.(setCookTime := 1);
        }
        oven := oven.(state := Cooking, cookTime := oven.setCookTime);
        oven := oven.(temp := if oven.mode == Broil then BroilTemp else oven.setTemp, elapsedTime := 0);
        UpdateLedProgressBar();
    }

    /**
     * The TIM2 handler at 10 Hz: raises the timer flag, counts the hold
     * time of pressed buttons 3 and 4 and runs one tick of the countdown.
     */
    method Tick()
      requires Valid()
      modifies this`timerFlag, this`btn3held, this`btn4held, this`secondTickCounter, this`oven, this`leds
      ensures Valid() && timerFlag
      ensures (oven, secondTickCounter, leds) == TickOf(old(oven), old(secondTickCounter), old(leds))
      ensures btn3held == (if btn3press then U8Succ(old(btn3held)) else old(btn3held))
      ensures btn4held == (if btn4press then U8Succ(old(btn4held)) else old(btn4held))
    {
      timerFlag := true;
      CountHolds();
      CountSecond();
    }

    /** Track button hold durations. */
    method CountHolds()
      requires StaticsOk()
      modifies this`btn3held, this`btn4held
      ensures StaticsOk()
      ensures btn3held == (if btn3press then U8Succ(old(btn3held)) else old(btn3held))
      ensures btn4held == (if btn4press then U8Succ(old(btn4held)) else old(btn4held))
    {
      if btn3press {
        btn3held := U8Succ(btn3held);
      }
      if btn4press {
        btn4held := U8Succ(btn4held);
      }
    }

    /** The seconds part of the TIM2 handler. */
    method CountSecond()
      requires Valid()
      modifies this`secondTickCounter, this`oven, this`leds
      ensures Valid()
      ensures (oven, secondTickCounter, leds) == TickOf(old(oven), old(secondTickCounter), old(leds))
    {
      TickKeepsGood(oven, secondTickCounter, leds);
      secondTickCounter := secondTickCounter + 1;
      if secondTickCounter >= TicksPerSecond {
        secondTickCounter := 0;
        if oven.state == Cooking && oven.cookTime > 0 {
          oven := oven.(cookTime := oven.cookTime - 1, elapsedTime := oven.elapsedTime + 1, smEventFlag := true);
          if oven.cookTime == 0 {
            oven := oven.(state := Setup, cookTime := oven.setCookTime, temp := oven.setTemp, elapsedTime := 0);
            leds := 0;
            oven := oven.(smEventFlag := true);
          }
        }
      }
    }

    /**
     * HAL_ADC_ConvCpltCallback: a reading whose bits 4..11 differ from the
     * stored value's replaces it and goes to the knob.
     */
    method ConversionComplete(raw: int)
      requires Valid() && IsU16(raw)
      modifies this`adcValue, this`oven
      ensures Valid()
      ensures var changed := (raw / 16) % 256 != (old(adcValue) / 16) % 256;
        adcValue == (if changed then raw else old(adcValue)) &&
        oven == (if changed then KnobOf(old(oven), raw) else old(oven))
    {
      var newVal := (raw / 16) % 256;
      if newVal != (adcValue / 16) % 256 {
        adcValue := raw;
        if oven.state == Setup {
          if oven.mode == Bake {
            if oven.select == TimeSelect {
              oven := oven.(setCookTime := adcValue * 300 / 1023);
            } else if oven.select == TempSelect {
              oven := oven.(setTemp := 300 + adcValue * 250 / 1023);
              if oven.setTemp > MaxTemp {
                oven := oven.(setTemp := MaxTemp);
              }
            }
          } else {
            oven := oven.(setCookTime := adcValue * 300 / 1023);
          }
          oven := oven.(smEventFlag := true);
        }
      }
    }

    /**
     * HAL_ADC_LevelOutOfWindowCallback: a reading more than 2 away from the
     * last one it accepted is stored and raises the ADC-update and event flags.
     */
    method OutOfWindow(newValue: int)
      requires Valid() && IsU16(newValue)
      modifies this`adcValue, this`oven, this`lastAdcValue
      ensures Valid()
      ensures var moved := newValue - old(lastAdcValue) > 2 || old(lastAdcValue) - newValue > 2;
        adcValue == (if moved then newValue else old(adcValue)) &&
        lastAdcValue == (if moved then newValue else old(lastAdcValue)) &&
        oven == (if moved then old(oven).(adcUpdateFlag := true, smEventFlag := true) else old(oven))
    {
      var diff := newValue - lastAdcValue;
      if (if diff < 0 then -diff else diff) > 2 {
        adcValue := newValue;
        oven := oven.(adcUpdateFlag := true, smEventFlag := true);
        lastAdcValue := newValue;
      }
    }

    /** The ADC block of main's loop: a pending update goes to the knob. */
    method ApplyKnob()
      requires Valid()
      modifies this`oven
      ensures Valid() && !oven.adcUpdateFlag
      ensures oven == (if old(oven.adcUpdateFlag) then KnobOf(old(oven).(adcUpdateFlag := false), adcValue)
                       else old(oven))
    {
      if oven.adcUpdateFlag {
        oven := oven.(adcUpdateFlag := false);
        if oven.state == Setup {
          if oven.select == TimeSelect || oven.mode != Bake {
            oven := oven.(setCookTime := adcValue * 300 / 1023);
          } else if oven.select == TempSelect && oven.mode == Bake {
            oven := oven.(setTemp := 300 + adcValue * 250 / 1023);
            if oven.setTemp > MaxTemp {
              oven := oven.(setTemp := MaxTemp);
            }
          }
          oven := oven.(smEventFlag := true);
        }
      }
    }

    /**
     * One pass of main's polling loop: buttons, the knob, the timer flag,
     * then the state machine if anything woke it; every flag is clear at
     * the end.
     */
    method LoopStep(d: B.Debouncer, sample: bv8) returns (events: bv8)
      requires Valid() && d.Valid()
      modifies this, d, d.debounceCount
      ensures Valid() && d.Valid() && !timerFlag
      ensures events == B.EventsUpTo(old(d.prevState), old(d.debounceCount[..]), sample, 4)
      ensures (oven, HoldsOf(), leds) ==
        LoopOf(old(oven), old(HoldsOf()), old(leds), events, old(adcValue), old(timerFlag))
      ensures adcValue == old(adcValue) && lastAdcValue == old(lastAdcValue) &&
        secondTickCounter == old(secondTickCounter)
    {
      events := CheckTimerEvents(d, sample);
      ApplyKnob();
      ServiceEvents();
    }

    /** The rest of the loop: a timer tick wakes the state machine, which then runs once. */
    method ServiceEvents()
      requires Valid()
      modifies this`oven, this`leds, this`timerFlag
      ensures Valid() && !oven.smEventFlag && !timerFlag
      ensures oven.adcUpdateFlag == old(oven.adcUpdateFlag)
      ensures var o := old(oven).(smEventFlag := old(oven.smEventFlag) || old(timerFlag));
        (oven, leds) == (SmStep(o, old(leds)).0.(smEventFlag := false), SmStep(o, old(leds)).1)
    {
      if timerFlag {
        oven := oven.(smEventFlag := true);
        timerFlag := false;
      }
      if oven.smEventFlag {
        SmStepKeepsGood(oven, leds);
        RunOvenSM();
        oven := oven.(smEventFlag := false);
      }
    }
  }
}
