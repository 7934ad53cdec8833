/**
 * The row-span map of src/components/TimelineTable.tsx and the cell lookup of its row renderer.
 * `spanMap[name][row]` is 1 for an ordinary cell, n > 1 for the first of n merged cells, and 0
 * for a cell covered by a merged cell above it.
 */
module TimelineTable {
  import opened Wrappers
  import opened TimelineSlice

  /** Each character name's column of span values, one per time row. */
  type SpanMap = map<string, seq<int>>

  /** `times.map(() => 1)`: a column of ordinary cells. */
  function Ones(n: nat): (r: seq<int>)
    ensures |r| == n && forall i :: 0 <= i < n ==> r[i] == 1
  {
    seq(n, _ => 1)
  }

  /** The map after the `characters.forEach`: one all-ones column of length `n` per character name. */
  function InitialSpans(characters: seq<Character>, n: nat): (m: SpanMap)
    ensures forall c :: c in characters ==> c.name in m
    ensures forall k :: k in m ==> m[k] == Ones(n) && exists c :: c in characters && c.name == k
  {
    if characters == [] then map[]
    else InitialSpans(characters[..|characters| - 1], n)[characters[|characters| - 1].name := Ones(n)]
  }

  /** `times.indexOf(x)`: the first index holding `x`, or -1. */
  function IndexOf(times: seq<string>, x: string): (r: int)
    ensures -1 <= r < |times|
    ensures r == -1 <==> x !in times
    ensures r >= 0 ==> times[r] == x && forall i :: 0 <= i < r ==> times[i] != x
  {
    if times == [] then -1
    else if times[0] == x then 0
    else
      var r := IndexOf(times[1..], x);
      assert forall i :: 1 <= i < |times| ==> times[i] == times[1..][i - 1];
      if r == -1 then -1 else r + 1
  }

  /**
   * The rows an event merges, `(start, end)`, or `None` when the loop skips it: no end time (or an
   * empty one), no character list, a start or end not among the times, or an end before the start.
   */
  function EventRange(times: seq<string>, ev: TimelineEvent): (r: Option<(nat, nat)>)
    ensures r.Some? ==> r.value.0 <= r.value.1 < |times|
    ensures r.Some? <==> (ev.endTime.Some? && ev.endTime.value != "" && ev.characters.Some? &&
                          ev.startTime in times && ev.endTime.value in times &&
                          IndexOf(times, ev.startTime) <= IndexOf(times, ev.endTime.value))
    ensures r.Some? ==> times[r.value.0] == ev.startTime && times[r.value.1] == ev.endTime.value
  {
    if ev.endTime.None? || ev.endTime.value == "" || ev.characters.None? then None
    else
      var start, end := IndexOf(times, ev.startTime), IndexOf(times, ev.endTime.value);
      if start < 0 || end < 0 || end < start then None else Some((start, end))
  }

  /** A column with rows `start..end` merged: the span `end - start + 1` at `start`, 0 below it. */
  function MarkColumn(col: seq<int>, start: nat, end: nat): (r: seq<int>)
    requires start <= end < |col|
    ensures |r| == |col|
    ensures r[start] == end - start + 1
    ensures forall i :: start < i <= end ==> r[i] == 0
    ensures forall i :: 0 <= i < |col| && (i < start || end < i) ==> r[i] == col[i]
  {
    seq(|col|, i requires 0 <= i < |col| => if i == start then end - start + 1 else if start < i <= end then 0 else col[i])
  }

  /** Every column has one entry per time row. */
  predicate Columns(m: SpanMap, n: nat) {
    forall k :: k in m ==> |m[k]| == n
  }

  /** True when the event lists a character with this name. */
  predicate Lists(ev: TimelineEvent, name: string) {
    ev.characters.Some? && Named(ev.characters.value, name)
  }

  /** True when some character of the list has this name. */
  predicate Named(chars: seq<Character>, name: string) {
    exists c :: c in chars && c.name == name
  }

  /** A non-empty list names `name` when its first character or the rest does. */
  lemma NamedCons(chars: seq<Character>, name: string)
    requires chars != []
    ensures Named(chars, name) <==> chars[0].name == name || Named(chars[1..], name)
  {
    assert chars[0] in chars;
    assert forall c :: c in chars[1..] ==> c in chars;
    assert forall c :: c in chars ==> c == chars[0] || c in chars[1..];
  }

  /**
   * `ev.characters.forEach(...)` for an accepted range: each listed character's column is merged
   * over the range. `None` when a listed name has no column: indexing `undefined` throws.
   */
  function ApplyEvent(m: SpanMap, chars: seq<Character>, start: nat, end: nat): (r: Option<SpanMap>)
    requires forall k :: k in m ==> start <= end < |m[k]|
    ensures r.None? <==> exists c :: c in chars && c.name !in m
    decreases |chars|
  {
    if chars == [] then Some(m)
    else if chars[0].name !in m then None
    else
      var name := chars[0].name;
      var m' := m[name := MarkColumn(m[name], start, end)];
      assert forall c :: c in chars[1..] ==> c in chars;
      assert forall c :: c in chars ==> c == chars[0] || c in chars[1..];
      ApplyEvent(m', chars[1..], start, end)
  }

  /** `events.forEach(...)`: the events applied in list order, or `None` once one throws. */
  function ApplyEvents(m: SpanMap, times: seq<string>, events: seq<TimelineEvent>): Option<SpanMap>
    requires Columns(m, |times|)
    decreases |events|
  {
    if events == [] then Some(m)
    else
      var range := EventRange(times, events[0]);
      if range.None? then ApplyEvents(m, times, events[1..])
      else
        var next := ApplyEvent(m, events[0].characters.value, range.value.0, range.value.1);
        if next.None? then None
        else
          ApplyEventColumns(m, events[0].characters.value, range.value.0, range.value.1, |times|);
          ApplyEvents(next.value, times, events[1..])
  }

  /** The whole `spanMap` computation. */
  function SpanMapOf(characters: seq<Character>, times: seq<string>, events: seq<TimelineEvent>): Option<SpanMap> {
    ApplyEvents(InitialSpans(characters, |times|), times, events)
  }

  /**
   * What one accepted event does: it keeps the keys, merges the range in the column of every
   * character it lists, and leaves every other column as it was.
   */
  lemma {:induction false} ApplyEventColumns(m: SpanMap, chars: seq<Character>, start: nat, end: nat, n: nat)
    requires Columns(m, n) && start <= end < n
    requires ApplyEvent(m, chars, start, end).Some?
    ensures var r := ApplyEvent(m, chars, start, end).value;
      r.Keys == m.Keys && Columns(r, n) &&
      forall k :: k in m ==> r[k] == if Named(chars, k) then MarkColumn(m[k], start, end) else m[k]
    decreases |chars|
  {
    if chars != [] {
      var name := chars[0].name;
      var m' := m[name := MarkColumn(m[name], start, end)];
      ApplyEventColumns(m', chars[1..], start, end, n);
      var r := ApplyEvent(m, chars, start, end).value;
      assert r == ApplyEvent(m', chars[1..], start, end).value;
      forall k | k in m
        ensures r[k] == if Named(chars, k) then MarkColumn(m[k], start, end) else m[k]
      {
        NamedCons(chars, k);
        if k == name {
          MarkColumnIdempotent(m[k], start, end);
        }
      }
    }
  }

  /** Merging the same range twice is merging it once (a character listed twice). */
  lemma MarkColumnIdempotent(col: seq<int>, start: nat, end: nat)
    requires start <= end < |col|
    ensures MarkColumn(MarkColumn(col, start, end), start, end) == MarkColumn(col, start, end)
  {
  }

  /** True when the event is accepted and lists the character: it merges rows of that column. */
  predicate Marks(times: seq<string>, ev: TimelineEvent, name: string) {
    EventRange(times, ev).Some? && Lists(ev, name)
  }

  /** One character's column after the events, applied in list order. */
  function ColumnOf(col: seq<int>, times: seq<string>, events: seq<TimelineEvent>, name: string): (r: seq<int>)
    requires |col| == |times|
    ensures |r| == |times|
    decreases |events|
  {
    if events == [] then col
    else
      var next := if Marks(times, events[0], name)
        then MarkColumn(col, EventRange(times, events[0]).value.0, EventRange(times, events[0]).value.1)
        else col;
      ColumnOf(next, times, events[1..], name)
  }

  /**
   * Columns are independent: when no event throws, each column of the result is that column's
   * own fold over the events that merge rows in it.
   */
  lemma {:induction false} ApplyEventsColumn(m: SpanMap, times: seq<string>, events: seq<TimelineEvent>, name: string)
    requires Columns(m, |times|) && name in m
    requires ApplyEvents(m, times, events).Some?
    ensures name in ApplyEvents(m, times, events).value
    ensures ApplyEvents(m, times, events).value[name] == ColumnOf(m[name], times, events, name)
    decreases |events|
  {
    if events != [] {
      var range := EventRange(times, events[0]);
      if range.None? {
        ApplyEventsColumn(m, times, events[1..], name);
      } else {
        var chars := events[0].characters.value;
        ApplyEventColumns(m, chars, range.value.0, range.value.1, |times|);
        var next := ApplyEvent(m, chars, range.value.0, range.value.1).value;
        ApplyEventsColumn(next, times, events[1..], name);
      }
    }
  }

  /**
   * Later events win: appending an event that merges rows in a column merges its range over
   * whatever the earlier events left there.
   */
  lemma {:induction false} ColumnOfAppend(col: seq<int>, times: seq<string>, events: seq<TimelineEvent>, ev: TimelineEvent, name: string)
    requires |col| == |times|
    ensures ColumnOf(col, times, events + [ev], name) ==
      if Marks(times, ev, name)
      then MarkColumn(ColumnOf(col, times, events, name), EventRange(times, ev).value.0, EventRange(times, ev).value.1)
      else ColumnOf(col, times, events, name)
    decreases |events|
  {
    if events == [] {
      assert ([] + [ev])[1..] == [];
    } else {
      var next := if Marks(times, events[0], name)
        then MarkColumn(col, EventRange(times, events[0]).value.0, EventRange(times, events[0]).value.1)
        else col;
      assert (events + [ev])[0] == events[0];
      assert (events + [ev])[1..] == events[1..] + [ev];
      ColumnOfAppend(next, times, events[1..], ev, name);
    }
  }

  /** Span values stay meaningful: each in `0..n`, and a non-zero span at row `i` ends within the table. */
  predicate SpansInRange(col: seq<int>) {
    forall i :: 0 <= i < |col| ==> 0 <= col[i] <= |col| && (col[i] != 0 ==> col[i] <= |col| - i)
  }

  /** Merging a range keeps the span values meaningful. */
  lemma {:induction false} ColumnOfInRange(col: seq<int>, times: seq<string>, events: seq<TimelineEvent>, name: string)
    requires |col| == |times| && SpansInRange(col)
    ensures SpansInRange(ColumnOf(col, times, events, name))
    decreases |events|
  {
    if events != [] {
      var next := if Marks(times, events[0], name)
        then MarkColumn(col, EventRange(times, events[0]).value.0, EventRange(times, events[0]).value.1)
        else col;
      ColumnOfInRange(next, times, events[1..], name);
    }
  }

  /**
   * Every character gets a column with one span per time row, each in `0..|times|`, and a
   * non-zero span at row `i` is at most `|times| - i`.
   */
  lemma SpanMapWellFormed(characters: seq<Character>, times: seq<string>, events: seq<TimelineEvent>, c: Character)
    requires SpanMapOf(characters, times, events).Some? && c in characters
    ensures c.name in SpanMapOf(characters, times, events).value
    ensures |SpanMapOf(characters, times, events).value[c.name]| == |times|
    ensures SpansInRange(SpanMapOf(characters, times, events).value[c.name])
  {
    var m := InitialSpans(characters, |times|);
    ApplyEventsColumn(m, times, events, c.name);
    ColumnOfInRange(m[c.name], times, events, c.name);
  }

  /** The sum of a column's spans. */
  function Sum(s: seq<int>): int {
    if s == [] then 0 else Sum(s[..|s| - 1]) + s[|s| - 1]
  }

  lemma {:induction false} SumAppend(a: seq<int>, b: seq<int>)
    ensures Sum(a + b) == Sum(a) + Sum(b)
    decreases |b|
  {
    if b == [] {
      assert a + b == a;
    } else {
      SumAppend(a, b[..|b| - 1]);
      assert (a + b)[..|a + b| - 1] == a + b[..|b| - 1];
    }
  }

  /** A run of `k` ones sums to `k`; a run of zeros to 0. */
  lemma {:induction false} SumConstant(s: seq<int>, v: int)
    requires v == 0 || v == 1
    requires forall i :: 0 <= i < |s| ==> s[i] == v
    ensures Sum(s) == v * |s|
  {
    if s != [] {
      SumConstant(s[..|s| - 1], v);
    }
  }

  /** A sum split at two cut points. */
  lemma SumThree(s: seq<int>, a: nat, b: nat)
    requires a <= b <= |s|
    ensures Sum(s) == Sum(s[..a]) + Sum(s[a..b]) + Sum(s[b..])
  {
    var x, y, z := s[..a], s[a..b], s[b..];
    assert s == (x + y) + z;
    SumAppend(x + y, z);
    SumAppend(x, y);
  }

  /** A merged range sums to its span: the span itself followed by zeros. */
  lemma MergedRangeSum(r: seq<int>, start: nat, end: nat)
    requires start <= end < |r|
    requires r[start] == end - start + 1 && forall i :: start < i <= end ==> r[i] == 0
    ensures Sum(r[start..end + 1]) == end - start + 1
  {
    var mid := r[start..end + 1];
    assert mid == [end - start + 1] + mid[1..];
    SumAppend([end - start + 1], mid[1..]);
    SumConstant(mid[1..], 0);
    assert Sum([end - start + 1]) == Sum([]) + (end - start + 1);
  }

  /** Merging rows that are all ordinary cells moves their total onto the first: the sum stays. */
  lemma MarkKeepsSum(col: seq<int>, start: nat, end: nat)
    requires start <= end < |col|
    requires forall i :: start <= i <= end ==> col[i] == 1
    ensures Sum(MarkColumn(col, start, end)) == Sum(col)
  {
    var r := MarkColumn(col, start, end);
    SumThree(col, start, end + 1);
    SumThree(r, start, end + 1);
    assert r[..start] == col[..start];
    assert r[end + 1..] == col[end + 1..];
    SumConstant(col[start..end + 1], 1);
    MergedRangeSum(r, start, end);
  }

  /** The ranges two accepted events merge in a column do not share a row. */
  predicate DisjointFor(times: seq<string>, events: seq<TimelineEvent>, name: string) {
    forall a, b :: 0 <= a < b < |events| && Marks(times, events[a], name) && Marks(times, events[b], name) ==>
      EventRange(times, events[a]).value.1 < EventRange(times, events[b]).value.0 ||
      EventRange(times, events[b]).value.1 < EventRange(times, events[a]).value.0
  }

  /** Disjoint merges over rows that start as ordinary cells leave the column's sum unchanged. */
  lemma {:induction false} DisjointKeepsSum(col: seq<int>, times: seq<string>, events: seq<TimelineEvent>, name: string)
    requires |col| == |times| && DisjointFor(times, events, name)
    requires forall j, i :: (0 <= j < |events| && Marks(times, events[j], name) &&
                             EventRange(times, events[j]).value.0 <= i <= EventRange(times, events[j]).value.1) ==> col[i] == 1
    ensures Sum(ColumnOf(col, times, events, name)) == Sum(col)
    decreases |events|
  {
    if events != [] {
      var rest := events[1..];
      assert forall j :: 0 <= j < |rest| ==> rest[j] == events[j + 1];
      if Marks(times, events[0], name) {
        var (s, e) := EventRange(times, events[0]).value;
        var next := MarkColumn(col, s, e);
        MarkKeepsSum(col, s, e);
        forall j, i | 0 <= j < |rest| && Marks(times, rest[j], name) &&
          EventRange(times, rest[j]).value.0 <= i <= EventRange(times, rest[j]).value.1
          ensures next[i] == 1
        {
          assert Marks(times, events[j + 1], name);
        }
        DisjointKeepsSum(next, times, rest, name);
      } else {
        DisjointKeepsSum(col, times, rest, name);
      }
    }
  }

  /**
   * When a character's accepted events merge pairwise-disjoint row ranges, its column's spans
   * add up to the number of time rows: every row is drawn exactly once.
   */
  lemma DisjointSpansCoverTimes(characters: seq<Character>, times: seq<string>, events: seq<TimelineEvent>, c: Character)
    requires SpanMapOf(characters, times, events).Some? && c in characters
    requires DisjointFor(times, events, c.name)
    ensures c.name in SpanMapOf(characters, times, events).value
    ensures Sum(SpanMapOf(characters, times, events).value[c.name]) == |times|
  {
    var m := InitialSpans(characters, |times|);
    ApplyEventsColumn(m, times, events, c.name);
    DisjointKeepsSum(m[c.name], times, events, c.name);
    SumConstant(m[c.name], 1);
  }

  /**
   * The `useMemo` that builds `spanMap`: all-ones columns, then each accepted event writes its
   * span at the start row of every listed character and zeros below it, in list order. `None`
   * when a listed character has no column (the write throws).
   */
  method BuildSpanMap(characters: seq<Character>, times: seq<string>, events: seq<TimelineEvent>)
      returns (r: Option<SpanMap>)
    ensures r == SpanMapOf(characters, times, events)
  {
    var spans := AllOrdinary(characters, |times|);
    var ei := 0;
    while ei < |events|
      invariant 0 <= ei <= |events|
      invariant Columns(spans, |times|)
      invariant ApplyEvents(spans, times, events[ei..]) == SpanMapOf(characters, times, events)
    {
      var ev := events[ei];
      assert events[ei..][0] == ev && events[ei..][1..] == events[ei + 1..];
      if ev.endTime.None? || ev.endTime.value == "" || ev.characters.None? {
        assert EventRange(times, ev).None?;
        ei := ei + 1;
        continue;
      }
      var start := IndexOf(times, ev.startTime);
      var end := IndexOf(times, ev.endTime.value);
      if start < 0 || end < 0 || end < start {
        assert EventRange(times, ev).None?;
        ei := ei + 1;
        continue;
      }
      assert EventRange(times, ev) == Some((start, end));
      var next := MarkCharacters(spans, ev.characters.value, start, end, |times|);
      if next.None? {
        return None;
      }
      ApplyEventColumns(spans, ev.characters.value, start, end, |times|);
      spans := next.value;
      ei := ei + 1;
    }
    assert events[|events|..] == [];
    r := Some(spans);
  }

  /** `characters.forEach(...)`: an all-ones column per character name. */
  method AllOrdinary(characters: seq<Character>, n: nat) returns (spans: SpanMap)
    ensures spans == InitialSpans(characters, n)
  {
    spans := map[];
    var ci := 0;
    while ci < |characters|
      invariant 0 <= ci <= |characters|
      invariant spans == InitialSpans(characters[..ci], n)
    {
      assert characters[..ci + 1][..ci] == characters[..ci];
      spans := spans[characters[ci].name := Ones(n)];
      ci := ci + 1;
    }
    assert characters[..ci] == characters;
  }

  /** `ev.characters.forEach(...)`: merge the rows in each listed character's column, in order. */
  method MarkCharacters(spans: SpanMap, chars: seq<Character>, start: nat, end: nat, ghost n: nat)
      returns (r: Option<SpanMap>)
    requires Columns(spans, n) && start <= end < n
    ensures r == ApplyEvent(spans, chars, start, end)
  {
    var m := spans;
    var k := 0;
    while k < |chars|
      invariant 0 <= k <= |chars|
      invariant Columns(m, n)
      invariant ApplyEvent(m, chars[k..], start, end) == ApplyEvent(spans, chars, start, end)
    {
      var name := chars[k].name;
      assert chars[k..][0] == chars[k] && chars[k..][1..] == chars[k + 1..];
      if name !in m {
        return None;
      }
      var col := MergeRows(m[name], start, end);
      m := m[name := col];
      k := k + 1;
    }
    assert chars[|chars|..] == [];
    r := Some(m);
  }

  /** One column's writes: the span at the start row, then 0 at every row down to the end. */
  method MergeRows(col: seq<int>, start: nat, end: nat) returns (r: seq<int>)
    requires start <= end < |col|
    ensures r == MarkColumn(col, start, end)
  {
    r := col[start := end - start + 1];
    var i := start + 1;
    while i <= end
      invariant start + 1 <= i <= end + 1
      invariant |r| == |col| && r[start] == end - start + 1
      invariant forall j :: start < j < i ==> r[j] == 0
      invariant forall j :: 0 <= j < |col| && (j < start || i <= j) ==> r[j] == col[j]
    {
      r := r[i := 0];
      i := i + 1;
    }
  }

  /** What the renderer draws for one character at one row. */
  datatype Cell =
    | Skip                                                  // covered by a merged cell above: nothing
    | Drawn(rowSpan: int, event: Option<TimelineEvent>)     // a `<td rowSpan>`, with the event it shows, if any

  /** True when the event starts at this row's time and lists the character. */
  predicate StartsHere(ev: TimelineEvent, time: string, name: string) {
    ev.startTime == time && Lists(ev, name)
  }

  /** `events.find(...)`: the first event starting at the row's time that lists the character. */
  function FirstEventAt(events: seq<TimelineEvent>, time: string, name: string): (r: Option<TimelineEvent>)
    ensures r.None? <==> forall i :: 0 <= i < |events| ==> !StartsHere(events[i], time, name)
    ensures r.Some? ==> StartsHere(r.value, time, name)
    ensures r.Some? ==> (exists k :: 0 <= k < |events| && events[k] == r.value && (forall i :: 0 <= i < k ==> !StartsHere(events[i], time, name)))
  {
    if events == [] then None
    else if StartsHere(events[0], time, name) then Some(events[0])
    else
      var r := FirstEventAt(events[1..], time, name);
      assert forall i :: 1 <= i < |events| ==> events[i] == events[1..][i - 1];
      if r.Some? then
        var k :| 0 <= k < |events[1..]| && events[1..][k] == r.value &&
                 (forall i :: 0 <= i < k ==> !StartsHere(events[1..][i], time, name));
        assert events[k + 1] == r.value;
        r
      else r
  }

  /** The cell of a character at a row: nothing when its span is 0, else the span and the event shown. */
  function CellAt(spans: SpanMap, times: seq<string>, events: seq<TimelineEvent>, row: nat, c: Character): (cell: Cell)
    requires c.name in spans && row < |spans[c.name]| && row < |times|
    ensures cell.Skip? <==> spans[c.name][row] == 0
    ensures cell.Drawn? ==> cell.rowSpan == spans[c.name][row] && cell.event == FirstEventAt(events, times[row], c.name)
  {
    var span := spans[c.name][row];
    if span == 0 then Skip else Drawn(span, FirstEventAt(events, times[row], c.name))
  }

  /**
   * The renderer can look up every character at every row of a span map that was built, and a
   * drawn cell spans at least one row and never runs past the last time.
   */
  lemma CellsDefined(characters: seq<Character>, times: seq<string>, events: seq<TimelineEvent>, c: Character, row: nat)
    requires SpanMapOf(characters, times, events).Some? && c in characters && row < |times|
    ensures c.name in SpanMapOf(characters, times, events).value
    ensures row < |SpanMapOf(characters, times, events).value[c.name]|
    ensures var cell := CellAt(SpanMapOf(characters, times, events).value, times, events, row, c);
      cell.Drawn? ==> 1 <= cell.rowSpan <= |times| - row
  {
    SpanMapWellFormed(characters, times, events, c);
  }
}
