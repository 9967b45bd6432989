/** The re-decision storm analyzer: dispatch times per partition from log files, the
    median gap between dispatches, and a verdict against the settle window. */
module RedecisionStorm {
  import opened Lists

  /** A log line after parsing: a corrective dispatch, a deficit, or anything else. */
  datatype LogLine =
    | Ignored
    | Dispatch(entityId: string, at: int)
    | Deficit(entityId: string, at: int)

  // ---------- events per partition ----------

  function DispatchTimes(lines: seq<LogLine>, id: string): seq<int> {
    if lines == [] then []
    else
      var before, line := DispatchTimes(lines[..|lines| - 1], id), lines[|lines| - 1];
      if line.Dispatch? && line.entityId == id then before + [line.at] else before
  }

  function DeficitTimes(lines: seq<LogLine>, id: string): seq<int> {
    if lines == [] then []
    else
      var before, line := DeficitTimes(lines[..|lines| - 1], id), lines[|lines| - 1];
      if line.Deficit? && line.entityId == id then before + [line.at] else before
  }

  ghost predicate NoEmptyList(m: map<string, seq<int>>) {
    forall id :: id in m ==> m[id] != []
  }

  /** The map holds exactly the non-empty lists of dispatch times. */
  ghost predicate HoldsDispatches(m: map<string, seq<int>>, lines: seq<LogLine>) {
    NoEmptyList(m) && forall id :: ListAt(m, id) == DispatchTimes(lines, id)
  }

  ghost predicate HoldsDeficits(m: map<string, seq<int>>, lines: seq<LogLine>) {
    NoEmptyList(m) && forall id :: ListAt(m, id) == DeficitTimes(lines, id)
  }

  method AppendTo(m: map<string, seq<int>>, key: string, value: int) returns (r: map<string, seq<int>>)
    ensures r == m[key := ListAt(m, key) + [value]]
  {
    assert [] + [value] == [value];
    if key in m {
      r := m[key := m[key] + [value]];
    } else {
      r := m[key := [value]];
    }
  }

  method ParseStormEvents(lines: seq<LogLine>)
    returns (dispatches: map<string, seq<int>>, deficits: map<string, seq<int>>)
    ensures HoldsDispatches(dispatches, lines) && HoldsDeficits(deficits, lines)
  {
    dispatches, deficits := map[], map[];
    for i := 0 to |lines|
      invariant HoldsDispatches(dispatches, lines[..i])
      invariant HoldsDeficits(deficits, lines[..i])
    {
      assert lines[..i + 1][..i] == lines[..i];
      match lines[i] {
        case Ignored =>
        case Dispatch(id, at) => dispatches := AppendTo(dispatches, id, at);
        case Deficit(id, at) => deficits := AppendTo(deficits, id, at);
      }
    }
    assert lines[..|lines|] == lines;
  }

  lemma {:induction false} DispatchConcat(a: seq<LogLine>, b: seq<LogLine>, id: string)
    ensures DispatchTimes(a + b, id) == DispatchTimes(a, id) + DispatchTimes(b, id)
  {
    if b == [] {
      assert a + b == a;
    } else {
      DispatchConcat(a, b[..|b| - 1], id);
      assert (a + b)[..|a + b| - 1] == a + b[..|b| - 1];
    }
  }

  lemma {:induction false} DeficitConcat(a: seq<LogLine>, b: seq<LogLine>, id: string)
    ensures DeficitTimes(a + b, id) == DeficitTimes(a, id) + DeficitTimes(b, id)
  {
    if b == [] {
      assert a + b == a;
    } else {
      DeficitConcat(a, b[..|b| - 1], id);
      assert (a + b)[..|a + b| - 1] == a + b[..|b| - 1];
    }
  }

  method MergeInto(into: map<string, seq<int>>, from: map<string, seq<int>>) returns (r: map<string, seq<int>>)
    ensures forall id :: ListAt(r, id) == ListAt(into, id) + ListAt(from, id)
    ensures r.Keys == into.Keys + from.Keys
  {
    r := into;
    var todo := from.Keys;
    while todo != {}
      invariant todo <= from.Keys
      invariant r.Keys == into.Keys + (from.Keys - todo)
      invariant forall id :: id in todo ==> ListAt(r, id) == ListAt(into, id)
      invariant forall id :: id !in todo ==> ListAt(r, id) == ListAt(into, id) + ListAt(from, id)
    {
      var key :| key in todo;
      r := r[key := ListAt(r, key) + from[key]];
      todo := todo - {key};
    }
  }

  lemma {:induction false} MergedLists(
    into: map<string, seq<int>>, from: map<string, seq<int>>, r: map<string, seq<int>>)
    requires NoEmptyList(into) && NoEmptyList(from) && r.Keys == into.Keys + from.Keys
    requires forall id :: ListAt(r, id) == ListAt(into, id) + ListAt(from, id)
    ensures NoEmptyList(r)
  {
    forall id | id in r ensures r[id] != [] {
      assert ListAt(r, id) == ListAt(into, id) + ListAt(from, id);
    }
  }

  function Concatenation(files: seq<seq<LogLine>>): seq<LogLine> {
    if files == [] then [] else Concatenation(files[..|files| - 1]) + files[|files| - 1]
  }

  /** Reading the files one by one and merging is the same as reading their
      concatenation. */
  method ReadTarget(files: seq<seq<LogLine>>)
    returns (dispatches: map<string, seq<int>>, deficits: map<string, seq<int>>)
    ensures HoldsDispatches(dispatches, Concatenation(files)) && HoldsDeficits(deficits, Concatenation(files))
  {
    dispatches, deficits := map[], map[];
    for i := 0 to |files|
      invariant HoldsDispatches(dispatches, Concatenation(files[..i]))
      invariant HoldsDeficits(deficits, Concatenation(files[..i]))
    {
      var newDispatches, newDeficits := ParseStormEvents(files[i]);
      ghost var before, earlier := dispatches, deficits;
      dispatches := MergeInto(dispatches, newDispatches);
      MergedLists(before, newDispatches, dispatches);
      deficits := MergeInto(deficits, newDeficits);
      MergedLists(earlier, newDeficits, deficits);
      assert files[..i + 1][..i] == files[..i];
      forall id
        ensures DispatchTimes(Concatenation(files[..i + 1]), id)
             == DispatchTimes(Concatenation(files[..i]), id) + DispatchTimes(files[i], id)
        ensures DeficitTimes(Concatenation(files[..i + 1]), id)
             == DeficitTimes(Concatenation(files[..i]), id) + DeficitTimes(files[i], id)
      {
        DispatchConcat(Concatenation(files[..i]), files[i], id);
        DeficitConcat(Concatenation(files[..i]), files[i], id);
      }
    }
    assert files[..|files|] == files;
  }

  // ---------- the median ----------

  /** The middle of a sorted list: its middle element, or the mean of the middle two. */
  function Middle(s: seq<int>): real {
    if s == [] then 0.0
    else if |s| % 2 == 0 then (s[|s| / 2 - 1] + s[|s| / 2]) as real / 2.0
    else s[|s| / 2] as real
  }

  function Median(values: seq<int>): real { Middle(SortBy(Self, values)) }

  function Below(x: real): int -> bool { (v: int) => v as real < x }

  function Above(x: real): int -> bool { (v: int) => v as real > x }

  lemma {:induction false} CountCut(s: seq<int>, k: nat, p: int -> bool)
    requires k <= |s|
    ensures CountIf(p, s) == CountIf(p, s[..k]) + CountIf(p, s[k..])
  {
    assert s == s[..k] + s[k..];
    CountConcat(p, s[..k], s[k..]);
  }

  /** No element before `k` is greater and none after it is smaller. */
  ghost predicate Divides(s: seq<int>, k: nat) {
    k < |s| && (forall i :: 0 <= i <= k ==> s[i] <= s[k]) && (forall i :: k <= i < |s| ==> s[k] <= s[i])
  }

  lemma {:induction false} SortedDivides(s: seq<int>, k: nat)
    requires SortedBy(Self, s) && k < |s|
    ensures Divides(s, k)
  {
    forall i | 0 <= i < k ensures s[i] <= s[k] {
      assert Self(s[i]) <= Self(s[k]);
    }
    forall i | k < i < |s| ensures s[k] <= s[i] {
      assert Self(s[k]) <= Self(s[i]);
    }
  }

  /** In a sorted list the elements below `x` come first. */
  lemma {:induction false} SortedBelow(s: seq<int>, k: nat, x: real)
    requires Divides(s, k)
    ensures s[k] as real < x <==> CountIf(Below(x), s) >= k + 1
  {
    if s[k] as real < x {
      CountCut(s, k + 1, Below(x));
      CountZero(Below(x), s[..k + 1]);
    } else {
      CountCut(s, k, Below(x));
      CountZero(Below(x), s[..k]);
      CountZero(Below(x), s[k..]);
    }
  }

  lemma {:induction false} SortedAbove(s: seq<int>, k: nat, x: real)
    requires Divides(s, k)
    ensures s[k] as real > x <==> CountIf(Above(x), s) >= |s| - k
  {
    if s[k] as real > x {
      CountCut(s, k, Above(x));
      CountZero(Above(x), s[k..]);
    } else {
      CountCut(s, k + 1, Above(x));
      CountZero(Above(x), s[..k + 1]);
      CountZero(Above(x), s[k + 1..]);
    }
  }

  lemma {:induction false} MeanBetween(a: int, b: int, x: real)
    requires a <= b
    ensures (a + b) as real / 2.0 < x ==> a as real < x
    ensures b as real < x ==> (a + b) as real / 2.0 < x
    ensures (a + b) as real / 2.0 > x ==> b as real > x
    ensures a as real > x ==> (a + b) as real / 2.0 > x
  {
    assert (a + b) as real == a as real + b as real;
  }

  lemma {:induction false} MiddleHalf(s: seq<int>, x: real)
    requires SortedBy(Self, s) && s != []
    ensures Middle(s) < x ==> 2 * CountIf(Below(x), s) >= |s|
    ensures 2 * CountIf(Below(x), s) > |s| ==> Middle(s) < x
    ensures Middle(s) > x ==> 2 * CountIf(Above(x), s) >= |s|
    ensures 2 * CountIf(Above(x), s) > |s| ==> Middle(s) > x
  {
    var mid := |s| / 2;
    SortedDivides(s, mid);
    SortedBelow(s, mid, x);
    SortedAbove(s, mid, x);
    if |s| % 2 == 0 {
      SortedDivides(s, mid - 1);
      SortedBelow(s, mid - 1, x);
      SortedAbove(s, mid - 1, x);
      MeanBetween(s[mid - 1], s[mid], x);
    }
  }

  /** A median below `x` puts at least half of the values below `x`; more than half
      of them below `x` put the median below `x`.  And the same for above. */
  lemma {:induction false} MedianHalf(values: seq<int>, x: real)
    requires values != []
    ensures Median(values) < x ==> 2 * CountIf(Below(x), values) >= |values|
    ensures 2 * CountIf(Below(x), values) > |values| ==> Median(values) < x
    ensures Median(values) > x ==> 2 * CountIf(Above(x), values) >= |values|
    ensures 2 * CountIf(Above(x), values) > |values| ==> Median(values) > x
  {
    hide Middle;
    var s := SortBy(Self, values);
    SortSorts(Self, values);
    CountReordered(Below(x), s, values);
    CountReordered(Above(x), s, values);
    MiddleHalf(s, x);
  }

  lemma {:induction false} SortLength(timestamps: seq<int>)
    ensures |SortBy(Self, timestamps)| == |timestamps|
  {
    SortSorts(Self, timestamps);
    assert |multiset(SortBy(Self, timestamps))| == |multiset(timestamps)|;
  }

  /** Fewer than half of the values are smaller and at most half are greater: the middle
      value, or the lower of the middle two. */
  ghost predicate LowerMiddle(values: seq<int>, a: int) {
    && 2 * CountIf(Below(a as real), values) < |values|
    && 2 * CountIf(Above(a as real), values) <= |values|
  }

  /** The middle value, or the upper of the middle two. */
  ghost predicate UpperMiddle(values: seq<int>, b: int) {
    && 2 * CountIf(Below(b as real), values) <= |values|
    && 2 * CountIf(Above(b as real), values) < |values|
  }

  lemma {:induction false} SmallerOrGreater(values: seq<int>, a: int, b: int)
    requires a < b
    ensures CountIf(Above(a as real), values) + CountIf(Below(b as real), values) >= |values|
  {
    if values != [] {
      SmallerOrGreater(values[..|values| - 1], a, b);
    }
  }

  lemma {:induction false} MiddlesUnique(values: seq<int>, a: int, b: int)
    ensures LowerMiddle(values, a) && LowerMiddle(values, b) ==> a == b
    ensures UpperMiddle(values, a) && UpperMiddle(values, b) ==> a == b
  {
    if a < b {
      SmallerOrGreater(values, a, b);
    } else if b < a {
      SmallerOrGreater(values, b, a);
    }
  }

  lemma {:induction false} MiddlesOfSorted(s: seq<int>)
    requires SortedBy(Self, s) && s != []
    ensures LowerMiddle(s, s[(|s| - 1) / 2]) && UpperMiddle(s, s[|s| / 2])
  {
    var low, high := (|s| - 1) / 2, |s| / 2;
    SortedDivides(s, low);
    SortedBelow(s, low, s[low] as real);
    SortedAbove(s, low, s[low] as real);
    SortedDivides(s, high);
    SortedBelow(s, high, s[high] as real);
    SortedAbove(s, high, s[high] as real);
  }

  lemma {:induction false} MiddlesExist(values: seq<int>) returns (a: int, b: int)
    requires values != []
    ensures LowerMiddle(values, a) && UpperMiddle(values, b)
    ensures Median(values) == (a + b) as real / 2.0
    ensures |values| % 2 == 1 ==> a == b
  {
    var s := SortBy(Self, values);
    SortSorts(Self, values);
    SortLength(values);
    a, b := s[(|s| - 1) / 2], s[|s| / 2];
    MiddlesOfSorted(s);
    CountReordered(Below(a as real), s, values);
    CountReordered(Above(a as real), s, values);
    CountReordered(Below(b as real), s, values);
    CountReordered(Above(b as real), s, values);
    assert |s| % 2 == 1 ==> (|s| - 1) / 2 == |s| / 2 && (a + b) as real / 2.0 == a as real;
    assert |s| % 2 == 0 ==> (|s| - 1) / 2 == |s| / 2 - 1;
  }

  /** The median is the mean of the two middle values. */
  lemma {:induction false} MedianExactly(values: seq<int>, a: int, b: int)
    requires LowerMiddle(values, a) && UpperMiddle(values, b)
    ensures Median(values) == (a + b) as real / 2.0
    ensures |values| % 2 == 1 ==> Median(values) == a as real == b as real
  {
    hide Median;
    var low, high := MiddlesExist(values);
    MiddlesUnique(values, a, low);
    MiddlesUnique(values, b, high);
  }

  // ---------- one partition ----------

  datatype Verdict = ReDecision | Bounded

  datatype Options = Options(settleMs: real, minDispatches: int)

  datatype Classified = Classified(
    partitionId: string, dispatches: nat, spanMs: int, medianGapMs: real, deficitEvents: nat, verdict: Verdict)

  /** The gaps between neighbours. */
  function Gaps(sorted: seq<int>): seq<int> {
    if |sorted| <= 1 then []
    else Gaps(sorted[..|sorted| - 1]) + [sorted[|sorted| - 1] - sorted[|sorted| - 2]]
  }

  function Span(sorted: seq<int>): int {
    if |sorted| > 1 then sorted[|sorted| - 1] - sorted[0] else 0
  }

  function GapsOf(timestamps: seq<int>): seq<int> { Gaps(SortBy(Self, timestamps)) }

  predicate Stormed(timestamps: seq<int>, options: Options) {
    && |timestamps| >= options.minDispatches
    && 0.0 < Median(GapsOf(timestamps)) < options.settleMs
  }

  method ComputeGaps(sorted: seq<int>) returns (gaps: seq<int>)
    ensures gaps == Gaps(sorted)
  {
    gaps := [];
    if |sorted| <= 1 {
      return;
    }
    for i := 1 to |sorted|
      invariant gaps == Gaps(sorted[..i])
    {
      assert sorted[..i + 1][..i] == sorted[..i];
      gaps := gaps + [sorted[i] - sorted[i - 1]];
    }
    assert sorted[..|sorted|] == sorted;
  }

  /** The classification of one partition, as a function of its dispatch times. */
  function Classify(partitionId: string, timestamps: seq<int>, deficits: nat, options: Options): Classified {
    Classified(partitionId, |timestamps|, Span(SortBy(Self, timestamps)), Median(GapsOf(timestamps)), deficits,
               if Stormed(timestamps, options) then ReDecision else Bounded)
  }

  method ClassifyPartition(partitionId: string, timestamps: seq<int>, deficitTimestamps: seq<int>, options: Options)
    returns (c: Classified)
    ensures c == Classify(partitionId, timestamps, |deficitTimestamps|, options)
  {
    hide Median, Gaps, SortBy;
    var sorted := SortBy(Self, timestamps);
    SortLength(timestamps);
    var gaps := ComputeGaps(sorted);
    var medianGapMs := Median(gaps);
    var spanMs := if |sorted| > 1 then sorted[|sorted| - 1] - sorted[0] else 0;
    var stormed := |sorted| >= options.minDispatches && medianGapMs > 0.0 && medianGapMs < options.settleMs;
    var verdict := if stormed then ReDecision else Bounded;
    c := Classified(partitionId, |sorted|, spanMs, medianGapMs, |deficitTimestamps|, verdict);
  }

  lemma {:induction false} GapsLength(sorted: seq<int>)
    ensures |Gaps(sorted)| == if sorted == [] then 0 else |sorted| - 1
  {
    if |sorted| > 1 {
      GapsLength(sorted[..|sorted| - 1]);
    }
  }

  /** The gaps add up to the span. */
  lemma {:induction false} GapsSumToSpan(sorted: seq<int>)
    ensures SumBy(Self, Gaps(sorted)) == Span(sorted)
  {
    if |sorted| > 1 {
      var init := sorted[..|sorted| - 1];
      GapsSumToSpan(init);
      SumAppend(Self, Gaps(init), sorted[|sorted| - 1] - sorted[|sorted| - 2]);
    }
  }

  /** The classification does not depend on the order of the dispatches. */
  lemma {:induction false} OrderIrrelevant(a: seq<int>, b: seq<int>, options: Options)
    requires multiset(a) == multiset(b)
    ensures GapsOf(a) == GapsOf(b) && SortBy(Self, a) == SortBy(Self, b)
    ensures Stormed(a, options) <==> Stormed(b, options)
  {
    assert TellsApart(Self);
    SortReordered(Self, a, b);
    assert |multiset(a)| == |a| && |multiset(b)| == |b|;
  }

  /** A re-decision verdict means: enough dispatches, at least half of the gaps below
      the settle window, at least half of them positive. */
  lemma {:induction false} StormedMeans(timestamps: seq<int>, options: Options)
    requires Stormed(timestamps, options)
    ensures |timestamps| >= 2 && |timestamps| >= options.minDispatches
    ensures |GapsOf(timestamps)| == |timestamps| - 1
    ensures 2 * CountIf(Below(options.settleMs), GapsOf(timestamps)) >= |timestamps| - 1
    ensures 2 * CountIf(Above(0.0), GapsOf(timestamps)) >= |timestamps| - 1
  {
    hide Median;
    var gaps := GapsOf(timestamps);
    SortSorts(Self, timestamps);
    GapsLength(SortBy(Self, timestamps));
    if gaps == [] {
      MedianOfNothing();
    }
    MedianHalf(gaps, options.settleMs);
    MedianHalf(gaps, 0.0);
  }

  lemma {:induction false} MedianOfNothing()
    ensures Median([]) == 0.0
  {
  }

  /** And more than half of the gaps positive and below the window make one. */
  lemma {:induction false} StormedWhen(timestamps: seq<int>, options: Options)
    requires |timestamps| >= 2 && |timestamps| >= options.minDispatches
    requires 2 * CountIf(Below(options.settleMs), GapsOf(timestamps)) > |timestamps| - 1
    requires 2 * CountIf(Above(0.0), GapsOf(timestamps)) > |timestamps| - 1
    ensures Stormed(timestamps, options)
  {
    hide Median;
    SortSorts(Self, timestamps);
    GapsLength(SortBy(Self, timestamps));
    MedianHalf(GapsOf(timestamps), options.settleMs);
    MedianHalf(GapsOf(timestamps), 0.0);
  }

  /** The verdict exactly: enough dispatches, and a sum of the two middle gaps that is
      positive and below twice the settle window. */
  lemma {:induction false} StormedExactly(timestamps: seq<int>, options: Options)
    ensures Stormed(timestamps, options)
       <==> |timestamps| >= options.minDispatches
            && exists a, b :: LowerMiddle(GapsOf(timestamps), a) && UpperMiddle(GapsOf(timestamps), b)
                              && 0 < a + b && (a + b) as real < 2.0 * options.settleMs
  {
    hide Median, LowerMiddle, UpperMiddle;
    var gaps := GapsOf(timestamps);
    if gaps == [] {
      MedianOfNothing();
      forall a ensures !LowerMiddle(gaps, a) {
        NoMiddleOfNothing(a);
      }
    } else {
      var low, high := MiddlesExist(gaps);
      forall a, b | LowerMiddle(gaps, a) && UpperMiddle(gaps, b) ensures a == low && b == high {
        MiddlesUnique(gaps, a, low);
        MiddlesUnique(gaps, b, high);
      }
    }
  }

  lemma {:induction false} NoMiddleOfNothing(a: int)
    ensures !LowerMiddle([], a)
  {
  }

  // ---------- one target ----------

  function MoreDispatchesFirst(c: Classified): int { 0 - c.dispatches }

  function DispatchCount(c: Classified): int { c.dispatches }

  function IsDispatch(line: LogLine): bool { line.Dispatch? }

  function LengthIn(lines: seq<LogLine>): string -> int { (id: string) => |DispatchTimes(lines, id)| }

  /** Every dispatch line is counted for one partition. */
  lemma {:induction false} DispatchesAddUp(lines: seq<LogLine>, keys: seq<string>)
    requires Distinct(keys)
    requires forall i :: 0 <= i < |lines| && lines[i].Dispatch? ==> lines[i].entityId in keys
    ensures SumBy(LengthIn(lines), keys) == CountIf(IsDispatch, lines)
  {
    if lines == [] {
      NoLines(keys);
    } else {
      var init, line := lines[..|lines| - 1], lines[|lines| - 1];
      assert forall i :: 0 <= i < |init| ==> init[i] == lines[i];
      DispatchesAddUp(init, keys);
      if line.Dispatch? {
        OneMoreDispatch(lines, keys);
      } else {
        SumEqual(LengthIn(lines), LengthIn(init), keys);
      }
    }
  }

  lemma {:induction false} NoLines(keys: seq<string>)
    ensures SumBy(LengthIn([]), keys) == 0
  {
    if keys != [] {
      NoLines(keys[..|keys| - 1]);
    }
  }

  lemma {:induction false} OneMoreDispatch(lines: seq<LogLine>, keys: seq<string>)
    requires lines != [] && lines[|lines| - 1].Dispatch? && Distinct(keys)
    ensures SumBy(LengthIn(lines), keys)
         == SumBy(LengthIn(lines[..|lines| - 1]), keys) + if lines[|lines| - 1].entityId in keys then 1 else 0
  {
    if keys != [] {
      var id := lines[|lines| - 1].entityId;
      OneMoreDispatch(lines, keys[..|keys| - 1]);
      assert id in keys <==> id in keys[..|keys| - 1] || id == keys[|keys| - 1];
    }
  }

  /** The row of a partition over the lines of a whole target. */
  function Row(lines: seq<LogLine>, id: string, options: Options): Classified {
    Classify(id, DispatchTimes(lines, id), |DeficitTimes(lines, id)|, options)
  }

  ghost predicate RowsFor(rows: seq<Classified>, keys: seq<string>, lines: seq<LogLine>, options: Options) {
    |rows| == |keys| && forall i :: 0 <= i < |rows| ==> rows[i] == Row(lines, keys[i], options)
  }

  method ClassifyAll(dispatches: map<string, seq<int>>, deficits: map<string, seq<int>>, ghost lines: seq<LogLine>,
                     options: Options)
    returns (partitions: seq<Classified>, keys: seq<string>)
    requires HoldsDispatches(dispatches, lines) && HoldsDeficits(deficits, lines)
    ensures RowsFor(partitions, keys, lines, options)
    ensures Distinct(keys) && forall id :: id in keys <==> id in dispatches
  {
    hide Row, HoldsDispatches, HoldsDeficits;
    partitions, keys := [], [];
    var todo := dispatches.Keys;
    while todo != {}
      invariant todo <= dispatches.Keys
      invariant forall id :: id in keys <==> id in dispatches.Keys - todo
      invariant Distinct(keys)
      invariant RowsFor(partitions, keys, lines, options)
    {
      var id :| id in todo;
      ListsOf(dispatches, deficits, lines, id);
      var c := ClassifyPartition(id, dispatches[id], ListAt(deficits, id), options);
      RowOf(lines, id, options);
      DistinctAppend(keys, id);
      partitions, keys := partitions + [c], keys + [id];
      todo := todo - {id};
    }
  }

  lemma {:induction false} ListsOf(
    dispatches: map<string, seq<int>>, deficits: map<string, seq<int>>, lines: seq<LogLine>, id: string)
    requires HoldsDispatches(dispatches, lines) && HoldsDeficits(deficits, lines)
    ensures ListAt(dispatches, id) == DispatchTimes(lines, id) && ListAt(deficits, id) == DeficitTimes(lines, id)
    ensures id in dispatches <==> DispatchTimes(lines, id) != []
  {
  }

  lemma {:induction false} RowOf(lines: seq<LogLine>, id: string, options: Options)
    ensures Row(lines, id, options) == Classify(id, DispatchTimes(lines, id), |DeficitTimes(lines, id)|, options)
  {
  }

  predicate IsStorm(c: Classified) { c.verdict == ReDecision }

  ghost predicate SomePartitionStorms(lines: seq<LogLine>, options: Options) {
    exists id :: Stormed(DispatchTimes(lines, id), options)
  }

  /** The rows are those of the partitions with a dispatch, each listed once. */
  ghost predicate ListsPartitions(partitions: seq<Classified>, lines: seq<LogLine>, options: Options) {
    && Distinct(partitions)
    && forall c :: c in partitions <==> exists id :: DispatchTimes(lines, id) != [] && c == Row(lines, id, options)
  }

  /** From the log files of a target to its verdict: it is a re-decision storm exactly
      when some partition is one, and every dispatch line is counted once. */
  method AnalyzeTarget(files: seq<seq<LogLine>>, options: Options)
    returns (verdict: Verdict, totalDispatches: int, stormedPartitions: nat, partitions: seq<Classified>)
    ensures verdict == ReDecision <==> SomePartitionStorms(Concatenation(files), options)
    ensures totalDispatches == CountIf(IsDispatch, Concatenation(files))
    ensures stormedPartitions == CountIf(IsStorm, partitions)
    ensures SortedBy(MoreDispatchesFirst, partitions) && ListsPartitions(partitions, Concatenation(files), options)
  {
    hide ListsPartitions, SomePartitionStorms, RowsFor, HoldsDispatches, HoldsDeficits, SortedBy, Distinct;
    ghost var lines := Concatenation(files);
    var dispatches, deficits := ReadTarget(files);
    var rows, keys := ClassifyAll(dispatches, deficits, lines, options);
    partitions := SortBy(MoreDispatchesFirst, rows);
    SortSorts(MoreDispatchesFirst, rows);
    stormedPartitions := CountIf(IsStorm, partitions);
    totalDispatches := SumBy(DispatchCount, partitions);
    verdict := if stormedPartitions > 0 then ReDecision else Bounded;
    CountReordered(IsStorm, rows, partitions);
    SumReordered(DispatchCount, rows, partitions);
    forall id ensures id in keys <==> DispatchTimes(lines, id) != [] {
      ListsOf(dispatches, deficits, lines, id);
    }
    TotalOfRows(rows, keys, lines, options);
    VerdictOfRows(rows, keys, lines, options);
    RowsList(rows, keys, lines, options);
    ListReordered(rows, partitions, lines, options);
  }

  lemma {:induction false} RowsList(rows: seq<Classified>, keys: seq<string>, lines: seq<LogLine>, options: Options)
    requires RowsFor(rows, keys, lines, options) && Distinct(keys)
    requires forall id :: id in keys <==> DispatchTimes(lines, id) != []
    ensures ListsPartitions(rows, lines, options)
  {
    forall i, j | 0 <= i < j < |rows| ensures rows[i] != rows[j] {
      assert rows[i].partitionId == keys[i] && rows[j].partitionId == keys[j];
    }
    hide Row, DispatchTimes;
    forall id | DispatchTimes(lines, id) != [] ensures Row(lines, id, options) in rows {
      var i :| 0 <= i < |keys| && keys[i] == id;
      assert rows[i] == Row(lines, id, options);
    }
  }

  lemma {:induction false} ListReordered(a: seq<Classified>, b: seq<Classified>, lines: seq<LogLine>, options: Options)
    requires ListsPartitions(a, lines, options) && multiset(a) == multiset(b)
    ensures ListsPartitions(b, lines, options)
  {
    hide Row, DispatchTimes;
    DistinctReordered(a, b);
    forall c ensures c in a <==> c in b {
      assert c in a <==> c in multiset(a);
      assert c in b <==> c in multiset(b);
    }
  }

  lemma {:induction false} SumOfRows(rows: seq<Classified>, keys: seq<string>, lines: seq<LogLine>, options: Options)
    requires RowsFor(rows, keys, lines, options)
    ensures SumBy(DispatchCount, rows) == SumBy(LengthIn(lines), keys)
  {
    if rows != [] {
      SumOfRows(rows[..|rows| - 1], keys[..|keys| - 1], lines, options);
    }
  }

  lemma {:induction false} DispatchLineHasTimes(lines: seq<LogLine>, i: nat)
    requires i < |lines| && lines[i].Dispatch?
    ensures DispatchTimes(lines, lines[i].entityId) != []
  {
    if i < |lines| - 1 {
      DispatchLineHasTimes(lines[..|lines| - 1], i);
    }
  }

  lemma {:induction false} TotalOfRows(rows: seq<Classified>, keys: seq<string>, lines: seq<LogLine>, options: Options)
    requires RowsFor(rows, keys, lines, options) && Distinct(keys)
    requires forall id :: id in keys <==> DispatchTimes(lines, id) != []
    ensures SumBy(DispatchCount, rows) == CountIf(IsDispatch, lines)
  {
    SumOfRows(rows, keys, lines, options);
    forall i | 0 <= i < |lines| && lines[i].Dispatch? ensures lines[i].entityId in keys {
      DispatchLineHasTimes(lines, i);
    }
    DispatchesAddUp(lines, keys);
  }

  lemma {:induction false} VerdictOfRows(
    rows: seq<Classified>, keys: seq<string>, lines: seq<LogLine>, options: Options)
    requires RowsFor(rows, keys, lines, options)
    requires forall id :: id in keys <==> DispatchTimes(lines, id) != []
    ensures CountIf(IsStorm, rows) > 0 <==> SomePartitionStorms(lines, options)
  {
    hide Stormed, Row;
    CountZero(IsStorm, rows);
    if id :| Stormed(DispatchTimes(lines, id), options) {
      StormedMeans(DispatchTimes(lines, id), options);
      RowVerdict(lines, id, options);
      var i :| 0 <= i < |keys| && keys[i] == id;
      assert IsStorm(rows[i]);
    }
    if i :| 0 <= i < |rows| && IsStorm(rows[i]) {
      RowVerdict(lines, keys[i], options);
    }
  }

  lemma {:induction false} RowVerdict(lines: seq<LogLine>, id: string, options: Options)
    ensures IsStorm(Row(lines, id, options)) <==> Stormed(DispatchTimes(lines, id), options)
  {
  }
}
