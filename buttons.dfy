/**
 * The push-button debouncer of toasterOven/src/Buttons.c. Each call samples
 * the four button levels (the hardware read is a parameter here) and, per
 * button, reports a level change only when that button's debounce counter
 * has run down to zero; the counter is then reloaded with the debounce
 * period and counts down on calls where the level agrees with the last
 * reported one.
 */
module Buttons {

  const DebouncePeriod := 4
  const EventNone: bv8 := 0

  /** What one call reports for one button: nothing, a change to 1 (flag bit 2i), or a change to 0 (flag bit 2i + 1). */
  datatype Edge = Quiet | Rose | Fell

  /** One button's bit of prevState and its debounce counter. */
  datatype Button = Button(level: bool, count: int)

  /** The per-button rule of one call, given the sampled level. */
  function Rule(b: Button, sample: bool): (r: (Edge, Button))
    ensures r.0 != Quiet <==> b.level != sample && b.count == 0
    ensures r.0 == Rose <==> r.0 != Quiet && sample
    ensures r.0 != Quiet ==> r.1 == Button(sample, DebouncePeriod)
    ensures r.0 == Quiet ==> r.1.level == b.level
    ensures r.0 == Quiet && b.level != sample ==> r.1 == b
    ensures b.level == sample ==> r.1.count == (if b.count > 0 then b.count - 1 else b.count)
  {
    if b.level != sample then
      if b.count == 0 then ((if sample then Rose else Fell), Button(sample, DebouncePeriod))
      else (Quiet, b)
    else if b.count > 0 then (Quiet, b.(count := b.count - 1))
    else (Quiet, b)
  }

  /** A counter in 0..4 stays in 0..4. */
  lemma RuleKeepsCountInRange(b: Button, sample: bool)
    requires 0 <= b.count <= DebouncePeriod
    ensures 0 <= Rule(b, sample).1.count <= DebouncePeriod
  {
  }

  /** The edges reported for one button over successive calls. */
  function Run(b: Button, samples: seq<bool>): (es: seq<Edge>)
    ensures |es| == |samples|
    decreases |samples|
  {
    if samples == [] then []
    else var r := Rule(b, samples[0]); [r.0] + Run(r.1, samples[1..])
  }

  /** While the counter is positive nothing is reported: the counter drops by at most one per call. */
  lemma {:induction false} CountingIsQuiet(b: Button, samples: seq<bool>)
    requires b.count >= 0
    ensures forall k :: 0 <= k < |samples| && k < b.count ==> Run(b, samples)[k] == Quiet
    decreases |samples|
  {
    if samples != [] && b.count > 0 {
      var r := Rule(b, samples[0]);
      assert r.1.count >= b.count - 1;
      CountingIsQuiet(r.1, samples[1..]);
      var es := Run(b, samples);
      assert es == [r.0] + Run(r.1, samples[1..]);
      forall k | 0 <= k < |samples| && k < b.count
        ensures es[k] == Quiet
      {
        if k > 0 {
          assert es[k] == Run(r.1, samples[1..])[k - 1];
        }
      }
    }
  }

  /** After an event for a button, the next four calls report nothing for it, whatever is sampled. */
  lemma QuietAfterEvent(b: Button, samples: seq<bool>)
    requires |samples| >= 1 && Run(b, samples)[0] != Quiet
    ensures forall k :: 1 <= k <= DebouncePeriod && k < |samples| ==> Run(b, samples)[k] == Quiet
  {
    var r := Rule(b, samples[0]);
    CountingIsQuiet(r.1, samples[1..]);
    var es := Run(b, samples);
    assert es == [r.0] + Run(r.1, samples[1..]);
    forall k | 1 <= k <= DebouncePeriod && k < |samples|
      ensures es[k] == Quiet
    {
      assert es[k] == Run(r.1, samples[1..])[k - 1];
    }
  }

  /** Once sampling agrees with the last report, the counter runs down and a change is reported at the first chance. */
  lemma SettledChangeIsReported(b: Button, sample: bool)
    requires b.count == 0 && b.level != sample
    ensures Run(b, [sample]) == [if sample then Rose else Fell]
  {
  }

  // ---------------------------------------------------------------------
  // The eight-bit registers

  /** 1 << i, as a table. */
  function Mask(i: nat): bv8
    requires i < 8
  {
    if i == 0 then 0x01 else if i == 1 then 0x02 else if i == 2 then 0x04 else if i == 3 then 0x08
    else if i == 4 then 0x10 else if i == 5 then 0x20 else if i == 6 then 0x40 else 0x80
  }

  /** The code's shifts are the table's masks. */
  lemma ShiftIsMask(i: nat)
    requires i < 8
    ensures (1 as bv8) << i == Mask(i) && (0 as bv8) << i == 0
  {
    if i == 0 {} else if i == 1 {} else if i == 2 {} else if i == 3 {}
    else if i == 4 {} else if i == 5 {} else if i == 6 {} else {}
  }

  /** (x & (1 << i)) != 0 */
  function Level(x: bv8, i: nat): bool
    requires i < 8
  {
    x & Mask(i) != 0
  }

  /** x with bit i replaced by b: (x & ~mask) | (b << i). */
  function SetLevel(x: bv8, i: nat, b: bool): bv8
    requires i < 8
  {
    (x & !Mask(i)) | (if b then Mask(i) else 0)
  }

  lemma SetLevelBits(x: bv8, i: nat, b: bool, j: nat)
    requires i < 8 && j < 8
    ensures Level(SetLevel(x, i, b), j) == if j == i then b else Level(x, j)
  {
    ShiftIsMask(i);
    ShiftIsMask(j);
  }

  lemma SetLevelSame(x: bv8, i: nat)
    requires i < 8
    ensures SetLevel(x, i, Level(x, i)) == x
  {
    if i == 0 {} else if i == 1 {} else if i == 2 {} else if i == 3 {}
    else if i == 4 {} else if i == 5 {} else if i == 6 {} else {}
  }

  /** The flag a button's edge sets in the returned byte. */
  function Flag(e: Edge, i: nat): bv8
    requires i < 4
  {
    match e
    case Quiet => 0
    case Rose => Mask(i * 2)
    case Fell => Mask(i * 2 + 1)
  }

  /** The rule applied to button i of the registers as they were before the call. */
  function RuleAt(prev: bv8, counts: seq<int>, sample: bv8, i: nat): (Edge, Button)
    requires |counts| == 4 && i < 4
  {
    Rule(Button(Level(prev, i), counts[i]), Level(sample, i))
  }

  /** The flags of buttons 0..k-1, or-ed in order. */
  function EventsUpTo(prev: bv8, counts: seq<int>, sample: bv8, k: nat): bv8
    requires |counts| == 4 && k <= 4
  {
    if k == 0 then EventNone
    else EventsUpTo(prev, counts, sample, k - 1) | Flag(RuleAt(prev, counts, sample, k - 1).0, k - 1)
  }

  /** prevState after buttons 0..k-1 have been handled. */
  function PrevUpTo(prev: bv8, counts: seq<int>, sample: bv8, k: nat): bv8
    requires |counts| == 4 && k <= 4
  {
    if k == 0 then prev
    else SetLevel(PrevUpTo(prev, counts, sample, k - 1), k - 1, RuleAt(prev, counts, sample, k - 1).1.level)
  }

  /** Handling buttons below k leaves bit k and above of prevState alone. */
  lemma {:induction false} PrevUpToKeepsHigherBits(prev: bv8, counts: seq<int>, sample: bv8, k: nat, j: nat)
    requires |counts| == 4 && k <= 4 && k <= j < 8
    ensures Level(PrevUpTo(prev, counts, sample, k), j) == Level(prev, j)
  {
    if k > 0 {
      PrevUpToKeepsHigherBits(prev, counts, sample, k - 1, j);
      SetLevelBits(PrevUpTo(prev, counts, sample, k - 1), k - 1, RuleAt(prev, counts, sample, k - 1).1.level, j);
    }
  }

  /** After the whole call, bit i of prevState is button i's new level for i < 4; the upper bits are unchanged. */
  lemma {:induction false} PrevUpToBits(prev: bv8, counts: seq<int>, sample: bv8, k: nat, j: nat)
    requires |counts| == 4 && k <= 4 && j < 8
    ensures j < k ==> Level(PrevUpTo(prev, counts, sample, k), j) == RuleAt(prev, counts, sample, j).1.level
    ensures k <= j ==> Level(PrevUpTo(prev, counts, sample, k), j) == Level(prev, j)
  {
    if k > 0 {
      PrevUpToBits(prev, counts, sample, k - 1, j);
      SetLevelBits(PrevUpTo(prev, counts, sample, k - 1), k - 1, RuleAt(prev, counts, sample, k - 1).1.level, j);
    }
  }

  /** The result is the four buttons' flags or-ed together. */
  lemma EventsAreFlags(prev: bv8, counts: seq<int>, sample: bv8)
    requires |counts| == 4
    ensures EventsUpTo(prev, counts, sample, 4) ==
      Flag(RuleAt(prev, counts, sample, 0).0, 0) | Flag(RuleAt(prev, counts, sample, 1).0, 1) |
      Flag(RuleAt(prev, counts, sample, 2).0, 2) | Flag(RuleAt(prev, counts, sample, 3).0, 3)
  {
    var f0, f1 := Flag(RuleAt(prev, counts, sample, 0).0, 0), Flag(RuleAt(prev, counts, sample, 1).0, 1);
    var f2, f3 := Flag(RuleAt(prev, counts, sample, 2).0, 2), Flag(RuleAt(prev, counts, sample, 3).0, 3);
    EventsStep(prev, counts, sample, 1);
    EventsStep(prev, counts, sample, 2);
    EventsStep(prev, counts, sample, 3);
    EventsStep(prev, counts, sample, 4);
    OrAssoc4(f0, f1, f2, f3);
  }

  lemma EventsStep(prev: bv8, counts: seq<int>, sample: bv8, k: nat)
    requires |counts| == 4 && 1 <= k <= 4
    ensures EventsUpTo(prev, counts, sample, k) == EventsUpTo(prev, counts, sample, k - 1) | Flag(RuleAt(prev, counts, sample, k - 1).0, k - 1)
  {
  }

  lemma OrAssoc4(f0: bv8, f1: bv8, f2: bv8, f3: bv8)
    ensures (((EventNone | f0) | f1) | f2) | f3 == f0 | f1 | f2 | f3
  {
  }

  /** Bits 2i and 2i + 1 of the result are button i's rose and fell flags. */
  lemma EventsBits(prev: bv8, counts: seq<int>, sample: bv8, i: nat)
    requires |counts| == 4 && i < 4
    ensures Level(EventsUpTo(prev, counts, sample, 4), 2 * i) <==> RuleAt(prev, counts, sample, i).0 == Rose
    ensures Level(EventsUpTo(prev, counts, sample, 4), 2 * i + 1) <==> RuleAt(prev, counts, sample, i).0 == Fell
  {
    EventsAreFlags(prev, counts, sample);
    var e0, e1 := RuleAt(prev, counts, sample, 0).0, RuleAt(prev, counts, sample, 1).0;
    var e2, e3 := RuleAt(prev, counts, sample, 2).0, RuleAt(prev, counts, sample, 3).0;
    if i == 0 {
      FlagByte(e0, e1, e2, e3, 0, e0);
    } else if i == 1 {
      FlagByte(e0, e1, e2, e3, 1, e1);
    } else if i == 2 {
      FlagByte(e0, e1, e2, e3, 2, e2);
    } else {
      FlagByte(e0, e1, e2, e3, 3, e3);
    }
  }

  /** In the or of the four flags, bits 2i and 2i + 1 are those of e, button i's edge. */
  lemma FlagByte(e0: Edge, e1: Edge, e2: Edge, e3: Edge, i: nat, e: Edge)
    requires i < 4 && e == (if i == 0 then e0 else if i == 1 then e1 else if i == 2 then e2 else e3)
    ensures var E := Flag(e0, 0) | Flag(e1, 1) | Flag(e2, 2) | Flag(e3, 3);
      (Level(E, 2 * i) <==> e == Rose) && (Level(E, 2 * i + 1) <==> e == Fell)
  {
  }

  /** The bit operations of one pass of Buttons_CheckEvents' loop, for button i, in terms of Level, SetLevel and Flag. */
  lemma ButtonBits(x: bv8, sample: bv8, i: nat, mask: bv8, prev: bv8, current: bv8)
    requires i < 4 && mask == (1 as bv8) << i
    requires prev == (if x & mask != 0 then 1 else 0) && current == (if sample & mask != 0 then 1 else 0)
    ensures (prev != current) == (Level(x, i) != Level(sample, i)) && (current != 0) == Level(sample, i)
    ensures (x & !mask) | (current << i) == SetLevel(x, i, Level(sample, i))
    ensures (1 as bv8) << (i * 2) == Flag(Rose, i) && (1 as bv8) << (i * 2 + 1) == Flag(Fell, i)
    ensures SetLevel(x, i, Level(x, i)) == x
  {
    ShiftIsMask(i);
    ShiftIsMask(i * 2);
    ShiftIsMask(i * 2 + 1);
    SetLevelSame(x, i);
    if i == 0 {} else if i == 1 {} else if i == 2 {} else {}
  }

  /** One pass of Buttons_CheckEvents' loop: button i sees its original level and counter, and extends the flags and prevState by its rule. */
  lemma LoopStep(prev: bv8, counts: seq<int>, sample: bv8, i: nat, x: bv8, count: int)
    requires |counts| == 4 && i < 4 && x == PrevUpTo(prev, counts, sample, i) && count == counts[i]
    ensures Rule(Button(Level(x, i), count), Level(sample, i)) == RuleAt(prev, counts, sample, i)
    ensures EventsUpTo(prev, counts, sample, i + 1) ==
      EventsUpTo(prev, counts, sample, i) | Flag(RuleAt(prev, counts, sample, i).0, i)
    ensures PrevUpTo(prev, counts, sample, i + 1) == SetLevel(x, i, RuleAt(prev, counts, sample, i).1.level)
  {
    PrevUpToKeepsHigherBits(prev, counts, sample, i, i);
  }

  /** With every sampled level equal to prevState's, nothing is reported. */
  lemma NoChangeNoEvent(prev: bv8, counts: seq<int>, sample: bv8)
    requires |counts| == 4 && forall i :: 0 <= i < 4 ==> Level(prev, i) == Level(sample, i)
    ensures EventsUpTo(prev, counts, sample, 4) == EventNone
  {
    EventsAreFlags(prev, counts, sample);
    assert RuleAt(prev, counts, sample, 0).0 == Quiet && RuleAt(prev, counts, sample, 1).0 == Quiet;
    assert RuleAt(prev, counts, sample, 2).0 == Quiet && RuleAt(prev, counts, sample, 3).0 == Quiet;
  }

  // ---------------------------------------------------------------------
  // The module state

  class Debouncer {
    var prevState: bv8
    const debounceCount: array<int>

    ghost predicate Valid()
      reads this, debounceCount
    {
      debounceCount.Length == 4 &&
      forall i :: 0 <= i < 4 ==> 0 <= debounceCount[i] <= DebouncePeriod
    }

    /** The static initialisers: every button at 0 with its counter at 0. */
    constructor ()
      ensures Valid() && prevState == 0 && debounceCount[..] == [0, 0, 0, 0]
    {
      prevState := 0;
      debounceCount := new int[4](_ => 0);
    }

    /**
     * Buttons_CheckEvents: applies the rule to each of the four buttons in
     * turn, or-ing the flags into the result, writing the new level into
     * prevState and updating the counter.
     */
    method CheckEvents(currentState: bv8) returns (event: bv8)
      requires Valid()
      modifies this`prevState, debounceCount
      ensures Valid()
      ensures event == EventsUpTo(old(prevState), old(debounceCount[..]), currentState, 4)
      ensures prevState == PrevUpTo(old(prevState), old(debounceCount[..]), currentState, 4)
      ensures forall i :: 0 <= i < 4 ==>
        debounceCount[i] == RuleAt(old(prevState), old(debounceCount[..]), currentState, i).1.count
    {
      ghost var p0, c0 := prevState, debounceCount[..];
      event := EventNone;
      for i := 0 to 4
        invariant event == EventsUpTo(p0, c0, currentState, i)
        invariant prevState == PrevUpTo(p0, c0, currentState, i)
        invariant forall j :: 0 <= j < i ==> debounceCount[j] == RuleAt(p0, c0, currentState, j).1.count
        invariant forall j :: i <= j < 4 ==> debounceCount[j] == c0[j]
        invariant Valid()
      {
        LoopStep(p0, c0, currentState, i, prevState, debounceCount[i]);
        event := HandleButton(i, currentState, event);
      }
    }

    /** The body of the loop in Buttons_CheckEvents, for button i. */
    method HandleButton(i: nat, currentState: bv8, event0: bv8) returns (event: bv8)
      requires Valid() && i < 4
      modifies this`prevState, debounceCount
      ensures Valid()
      ensures event == event0 | Flag(Rule(Button(Level(old(prevState), i), old(debounceCount[i])), Level(currentState, i)).0, i)
      ensures prevState == SetLevel(old(prevState), i, Rule(Button(Level(old(prevState), i), old(debounceCount[i])), Level(currentState, i)).1.level)
      ensures debounceCount[..] == old(debounceCount[..])[i := Rule(Button(Level(old(prevState), i), old(debounceCount[i])), Level(currentState, i)).1.count]
    {
      event := event0;
      var mask: bv8 := 1 << i;
      ghost var r := Rule(Button(Level(prevState, i), debounceCount[i]), Level(currentState, i));
      ghost var x, c0 := prevState, debounceCount[..];
      var prev: bv8 := if prevState & mask != 0 then 1 else 0;
      var current: bv8 := if currentState & mask != 0 then 1 else 0;
      ButtonBits(x, currentState, i, mask, prev, current);
      if prev != current {
        if debounceCount[i] == 0 {
          if current != 0 {
            assert r.0 == Rose;
            event := event | (1 << (i * 2));
          } else {
            assert r.0 == Fell;
            event := event | (1 << (i * 2 + 1));
          }
          debounceCount[i] := DebouncePeriod;
          prevState := (prevState & !mask) | (current << i);
        } else {
          assert r.0 == Quiet && r.1 == Button(Level(x, i), c0[i]);
        }
      } else {
        assert r.0 == Quiet && r.1.level == Level(x, i);
        if debounceCount[i] > 0 {
          debounceCount[i] := debounceCount[i] - 1;
        }
      }
      assert debounceCount[..] == c0[i := r.1.count];
    }
  }
}
