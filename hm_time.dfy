/**
 * "HH:mm" times of day and the stepped time grid built from them. The conversions are the
 * local `toMinutes` / `toHmString` helpers that src/features/timelines/timelineSlice.ts and the
 * event-modal hook src/components/pages/timeline/editTimelineEventModal/hooks.ts both define
 * (identically), and the grid is the `for (let t = lo; t <= hi; t += step)` loop both of them run.
 */
module HmTime {
  import opened JsText

  /** `toMinutes(hm)`: `[h, m] = hm.split(":").map(Number)`, then `h * 60 + m`; NaN if a part is missing or not a number. */
  function ToMinutes(hm: string): (r: Num)
    ensures r.Int? ==> r.value >= 0
  {
    var parts := Split(hm, ':');
    if |parts| < 2 then NaN  // `m` is undefined, and `h * 60 + undefined` is NaN
    else
      var h, m := ParseNumber(parts[0]), ParseNumber(parts[1]);
      if h.Int? && m.Int? then Int(h.value * 60 + m.value) else NaN
  }

  /**
   * `toHmString(min)`: hours `floor(min / 60)` and minutes `min % 60`, each zero-padded to two
   * digits and joined by ':'. Hours of 100 or more keep all their digits; minutes are always two digits.
   */
  function ToHm(min: nat): string {
    PadStart(Decimal(min / 60), 2, '0') + ":" + PadStart(Decimal(min % 60), 2, '0')
  }

  /**
   * The shape of a formatted time: at least two hour digits, ':', exactly two minute digits;
   * exactly "HH:mm" below 100 hours.
   */
  lemma ToHmShape(min: nat)
    ensures var r := ToHm(min);
      |r| >= 5 && r[|r| - 3] == ':' &&
      AllDigits(r[..|r| - 3]) && AllDigits(r[|r| - 2..]) &&
      (min < 6000 ==> |r| == 5)
  {
    var hs, ms := PadStart(Decimal(min / 60), 2, '0'), PadStart(Decimal(min % 60), 2, '0');
    var r := hs + ":" + ms;
    assert |ms| == 2;
    assert r[..|r| - 3] == hs;
    assert r[|r| - 2..] == ms;
  }

  /** Two digit strings joined by ':' read as `h * 60 + m` minutes. */
  lemma DigitPairMinutes(hs: string, ms: string)
    requires AllDigits(hs) && AllDigits(ms)
    ensures ToMinutes(hs + ":" + ms) == Int(DigitsValue(hs) * 60 + DigitsValue(ms))
  {
    assert ':' !in hs by { assert !IsDigit(':'); }
    assert ':' !in ms by { assert !IsDigit(':'); }
    SplitTwo(hs, ms, ':');
    assert hs + ":" + ms == hs + [':'] + ms;
    TwoPartMinutes(hs + ":" + ms, hs, ms);
  }

  /** A whole hour "HH:00", written with the two digits `a` and `b`, is that many hours of minutes. */
  lemma WholeHour(a: char, b: char)
    requires IsDigit(a) && IsDigit(b)
    ensures ToMinutes([a, b, ':', '0', '0']) == Int((DigitValue(a) * 10 + DigitValue(b)) * 60)
  {
    var hs := [a, b];
    TwoDigitValue(hs);
    TwoDigitValue("00");
    assert [a, b, ':', '0', '0'] == hs + ":" + "00";
    DigitPairMinutes(hs, "00");
  }

  /** A time that splits into exactly two parts reads as the first part times 60 plus the second. */
  lemma TwoPartMinutes(hm: string, hs: string, ms: string)
    requires Split(hm, ':') == [hs, ms]
    requires AllDigits(hs) && AllDigits(ms)
    ensures ToMinutes(hm) == Int(DigitsValue(hs) * 60 + DigitsValue(ms))
  {
  }

  /** Two zero-padded numbers joined by ':' read back as `h * 60 + m`. */
  lemma PaddedPairMinutes(h: nat, m: nat)
    ensures ToMinutes(PadStart(Decimal(h), 2, '0') + ":" + PadStart(Decimal(m), 2, '0')) == Int(h * 60 + m)
  {
    PaddedDecimalRoundTrip(h, 2);
    PaddedDecimalRoundTrip(m, 2);
    DigitPairMinutes(PadStart(Decimal(h), 2, '0'), PadStart(Decimal(m), 2, '0'));
  }

  /** Reading back a formatted time gives the minutes it was formatted from. */
  lemma HmRoundTrip(min: nat)
    ensures ToMinutes(ToHm(min)) == Int(min)
  {
    var h, m := min / 60, min % 60;
    PaddedPairMinutes(h, m);
    assert h * 60 + m == min;
  }

  /** Different minute values format differently. */
  lemma ToHmInjective(a: nat, b: nat)
    requires ToHm(a) == ToHm(b)
    ensures a == b
  {
    HmRoundTrip(a);
    HmRoundTrip(b);
  }

  lemma MulStep(a: int, s: int)
    ensures (a + 1) * s == a * s + s
  {
  }

  lemma {:induction false} MulMono(a: int, b: int, s: int)
    requires a <= b && s >= 0
    ensures a * s <= b * s
    decreases b - a
  {
    if a < b {
      MulMono(a + 1, b, s);
      MulStep(a, s);
    }
  }

  /** Euclidean division is determined by quotient and remainder. */
  lemma DivModUnique(x: int, s: int, q: int, r: int)
    requires s > 0 && 0 <= r < s && x == q * s + r
    ensures x / s == q && x % s == r
  {
    var q', r' := x / s, x % s;
    assert x == q' * s + r';
    if q' < q {
      MulMono(q' + 1, q, s);
      MulStep(q', s);
      assert false;
    } else if q' > q {
      MulMono(q + 1, q', s);
      MulStep(q, s);
      assert false;
    }
  }

  /**
   * The minute values `lo, lo + step, ...` up to the last one not above `hi`: the values `t`
   * takes in the source's `for (let t = lo; t <= hi; t += step)` loop.
   */
  function Slots(lo: nat, hi: int, step: int): seq<nat>
    requires step > 0
    decreases hi - lo
  {
    if hi < lo then [] else [lo] + Slots(lo + step, hi, step)
  }

  /**
   * The same loop over JavaScript numbers: it runs only while `t <= hi`, which is false at once
   * when a bound is NaN, and `t += NaN` turns `t` into NaN, stopping the loop after one slot.
   * A zero step is only allowed where the loop body never runs (otherwise the loop never ends).
   */
  function Grid(lo: Num, hi: Num, step: Num): (r: seq<nat>)
    requires lo.Int? ==> lo.value >= 0
    requires step.Int? && Le(lo, hi) ==> step.value > 0
    ensures r != [] <==> Le(lo, hi)
    ensures r != [] ==> Le(lo, hi) && r[0] == lo.value && forall i :: 0 <= i < |r| ==> lo.value <= r[i] <= hi.value
  {
    if !Le(lo, hi) then []
    else if step.NaN? then [lo.value]
    else
      var r := Slots(lo.value, hi.value, step.value);
      SlotsFirst(lo.value, hi.value, step.value);
      assert forall i :: 0 <= i < |r| ==> lo.value <= r[i] <= hi.value by {
        forall i | 0 <= i < |r| ensures lo.value <= r[i] <= hi.value {
          SlotsAt(lo.value, hi.value, step.value, i);
        }
      }
      r
  }

  /** Each minute value formatted with `toHmString`, in order. */
  function Format(mins: seq<nat>): seq<string> {
    if mins == [] then [] else Format(mins[..|mins| - 1]) + [ToHm(mins[|mins| - 1])]
  }

  /** The loop that builds a time list, pushing one formatted time per pass. */
  method SteppedTimes(lo: Num, hi: Num, step: Num) returns (times: seq<string>)
    requires lo.Int? ==> lo.value >= 0
    requires step.Int? && Le(lo, hi) ==> step.value > 0
    ensures times == Format(Grid(lo, hi, step))
  {
    times := [];
    ghost var done: seq<nat> := [];
    var t := lo;
    while Le(t, hi)
      invariant t.Int? ==> lo.Int? && t.value >= lo.value >= 0
      invariant done + Grid(t, hi, step) == Grid(lo, hi, step)
      invariant times == Format(done)
      decreases if Le(t, hi) then hi.value - t.value + 1 else 0
    {
      GridAdvance(lo, hi, step, done, t);
      FormatAppend(done, t.value);
      times := times + [ToHm(t.value)];
      done := done + [t.value];
      t := Add(t, step);
    }
    assert Grid(t, hi, step) == [];
    assert done + [] == done;
  }

  /** Formatting one more minute value appends its formatted time. */
  lemma FormatAppend(mins: seq<nat>, m: nat)
    ensures Format(mins + [m]) == Format(mins) + [ToHm(m)]
  {
    assert (mins + [m])[..|mins|] == mins;
  }

  /** One pass of the loop keeps `done + Grid(t, hi, step)` equal to the whole grid. */
  lemma GridAdvance(lo: Num, hi: Num, step: Num, done: seq<nat>, t: Num)
    requires lo.Int? ==> lo.value >= 0
    requires step.Int? && Le(lo, hi) ==> step.value > 0
    requires t.Int? ==> lo.Int? && t.value >= lo.value >= 0
    requires Le(t, hi)
    requires done + Grid(t, hi, step) == Grid(lo, hi, step)
    ensures Add(t, step).Int? ==> Add(t, step).value >= lo.value
    ensures (done + [t.value]) + Grid(Add(t, step), hi, step) == Grid(lo, hi, step)
  {
    var rest := Grid(Add(t, step), hi, step);
    if step.Int? {
      GridStep(t.value, hi.value, step.value);
    } else {
      assert rest == [];
    }
    assert Grid(t, hi, step) == [t.value] + rest;
    AppendAssoc(done, [t.value], rest);
  }

  /** Concatenation is associative. */
  lemma AppendAssoc<T>(a: seq<T>, b: seq<T>, c: seq<T>)
    ensures (a + b) + c == a + (b + c)
  {
  }

  /** One pass of the loop: the grid from `t` is `t` followed by the grid from `t + step`. */
  lemma GridStep(t: nat, hi: int, step: int)
    requires step > 0 && t <= hi
    ensures Grid(Int(t), Int(hi), Int(step)) == [t] + Grid(Int(t + step), Int(hi), Int(step))
  {
    if hi < t + step {
      assert Slots(t + step, hi, step) == [];
    }
  }

  /** Formatting keeps the length and the order: time `i` is minute value `i`, formatted. */
  lemma {:induction false} FormatAt(mins: seq<nat>)
    ensures |Format(mins)| == |mins|
    ensures forall i :: 0 <= i < |mins| ==> Format(mins)[i] == ToHm(mins[i])
  {
    if mins != [] {
      var init := mins[..|mins| - 1];
      FormatAt(init);
      assert Format(mins) == Format(init) + [ToHm(mins[|mins| - 1])];
      assert forall i :: 0 <= i < |init| ==> init[i] == mins[i];
    }
  }

  /** Each formatted time reads back as the minute value it came from. */
  lemma FormatReadsBack(mins: seq<nat>)
    ensures |Format(mins)| == |mins|
    ensures forall i :: 0 <= i < |mins| ==> ToMinutes(Format(mins)[i]) == Int(mins[i])
  {
    FormatAt(mins);
    forall i | 0 <= i < |mins|
      ensures ToMinutes(Format(mins)[i]) == Int(mins[i])
    {
      HmRoundTrip(mins[i]);
    }
  }

  /** Distinct minute values give distinct formatted times, so a duplicate-free grid formats duplicate-free. */
  lemma FormatDistinct(mins: seq<nat>)
    requires forall i, j :: 0 <= i < j < |mins| ==> mins[i] != mins[j]
    ensures forall i, j :: 0 <= i < j < |Format(mins)| ==> Format(mins)[i] != Format(mins)[j]
  {
    FormatReadsBack(mins);
  }

  /** How many slots the stepped grid has: `(hi - lo) div step + 1`, or none when `hi < lo`. */
  lemma {:induction false} SlotsLength(lo: nat, hi: int, step: int)
    requires step > 0
    ensures |Slots(lo, hi, step)| == if hi < lo then 0 else (hi - lo) / step + 1
    decreases hi - lo
  {
    if lo <= hi {
      SlotsLength(lo + step, hi, step);
      var d := hi - lo;
      if d < step {
        DivModUnique(d, step, 0, d);
      } else {
        var q, r := (d - step) / step, (d - step) % step;
        MulStep(q, step);
        DivModUnique(d, step, q + 1, r);
      }
    }
  }

  /** Slot `i` of the stepped grid is `lo + i * step`, and it does not pass `hi`. */
  lemma {:induction false} SlotsAt(lo: nat, hi: int, step: int, i: nat)
    requires step > 0 && i < |Slots(lo, hi, step)|
    ensures Slots(lo, hi, step)[i] == lo + i * step <= hi
    decreases hi - lo
  {
    if i > 0 {
      SlotsAt(lo + step, hi, step, i - 1);
      MulStep(i - 1, step);
    }
  }

  /** One more step past the last slot would pass `hi`: the grid stops at the last value `<= hi`. */
  lemma {:induction false} SlotsStopAtLast(lo: nat, hi: int, step: int)
    requires step > 0
    ensures hi < lo + |Slots(lo, hi, step)| * step
    decreases hi - lo
  {
    if lo <= hi {
      SlotsStopAtLast(lo + step, hi, step);
      MulStep(|Slots(lo + step, hi, step)|, step);
    }
  }

  /**
   * The stepped grid is `lo, lo + step, lo + 2 * step, ...`: every value is exactly `step` above
   * its predecessor, so the list strictly increases and has no duplicates.
   */
  lemma SlotsIncrease(lo: nat, hi: int, step: int)
    requires step > 0
    ensures forall i :: 0 < i < |Slots(lo, hi, step)| ==>
      Slots(lo, hi, step)[i] == Slots(lo, hi, step)[i - 1] + step
    ensures forall i, j :: 0 <= i < j < |Slots(lo, hi, step)| ==>
      Slots(lo, hi, step)[i] < Slots(lo, hi, step)[j]
  {
    var g := Slots(lo, hi, step);
    forall i | 0 < i < |g|
      ensures g[i] == g[i - 1] + step
    {
      SlotsAt(lo, hi, step, i);
      SlotsAt(lo, hi, step, i - 1);
      MulStep(i - 1, step);
    }
    forall i, j | 0 <= i < j < |g|
      ensures g[i] < g[j]
    {
      SlotsAt(lo, hi, step, i);
      SlotsAt(lo, hi, step, j);
      MulMono(i + 1, j, step);
      MulStep(i, step);
    }
  }

  /** The grid's first slot is `lo`; with `lo == hi` it is the only one. */
  lemma SlotsFirst(lo: nat, hi: int, step: int)
    requires step > 0 && lo <= hi
    ensures |Slots(lo, hi, step)| >= 1 && Slots(lo, hi, step)[0] == lo
    ensures lo == hi ==> Slots(lo, hi, step) == [lo]
  {
    if lo == hi {
      assert Slots(lo + step, hi, step) == [];
    }
  }

  /** `hi` itself is a slot exactly when `step` divides `hi - lo`. */
  lemma SlotsHaveEnd(lo: nat, hi: int, step: int)
    requires step > 0 && lo <= hi
    ensures hi in Slots(lo, hi, step) <==> (hi - lo) % step == 0
  {
    var g := Slots(lo, hi, step);
    SlotsLength(lo, hi, step);
    if (hi - lo) % step == 0 {
      var q := (hi - lo) / step;
      SlotsAt(lo, hi, step, q);
    }
    if hi in g {
      var i :| 0 <= i < |g| && g[i] == hi;
      SlotsAt(lo, hi, step, i);
      DivModUnique(hi - lo, step, i, 0);
    }
  }

  /**
   * The formatted times of an accepted integer range: `(hi - lo) div step + 1` of them, the first
   * reading back as `lo`, time `i` reading back as `lo + i * step` and not past `hi`, all distinct.
   */
  lemma FormattedSlots(lo: nat, hi: int, step: int)
    requires step > 0 && lo <= hi
    ensures var times := Format(Slots(lo, hi, step));
      |times| == (hi - lo) / step + 1 &&
      ToMinutes(times[0]) == Int(lo) &&
      (forall i :: 0 <= i < |times| ==> ToMinutes(times[i]) == Int(lo + i * step) && lo + i * step <= hi) &&
      (forall i, j :: 0 <= i < j < |times| ==> times[i] != times[j])
  {
    var g := Slots(lo, hi, step);
    SlotsLength(lo, hi, step);
    FormatReadsBack(g);
    forall i | 0 <= i < |g|
      ensures g[i] == lo + i * step <= hi
    {
      SlotsAt(lo, hi, step, i);
    }
    SlotsIncrease(lo, hi, step);
    FormatDistinct(g);
  }

  /** The formatted `hi` is among the formatted times exactly when `step` divides `hi - lo`. */
  lemma FormattedSlotsHaveEnd(lo: nat, hi: nat, step: int)
    requires step > 0 && lo <= hi
    ensures ToHm(hi) in Format(Slots(lo, hi, step)) <==> (hi - lo) % step == 0
  {
    var g := Slots(lo, hi, step);
    FormatAt(g);
    SlotsHaveEnd(lo, hi, step);
    if ToHm(hi) in Format(g) {
      var i :| 0 <= i < |g| && Format(g)[i] == ToHm(hi);
      ToHmInjective(g[i], hi);
    }
    if hi in g {
      var i :| 0 <= i < |g| && g[i] == hi;
      assert Format(g)[i] == ToHm(hi);
    }
  }
}
