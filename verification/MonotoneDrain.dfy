/** The monotone-drain characterizer: lifetimes of operations from log lines, the
    in-flight series of a partition as a sweep over create and end events, and the
    rises of that series after its first peak.

    The sweep orders the two kinds of event within one timestamp with the ends
    first.  The theorems say what its numbers mean without mentioning the sweep:
    the peak is the greatest number of operations in flight at any time, and the
    post-peak rises are the operations created after the peak was first reached. */
module MonotoneDrain {
  import opened Lists

  // ---------- lifetimes from log lines ----------

  /** A log line that names an operation and a valid time, or any other line. */
  datatype LogLine =
    | Ignored
    | Mention(opId: string, at: int, create: bool, partitionId: string)

  datatype Lifetime = Lifetime(createMs: int, lastMs: int, partitionId: string)

  predicate Mentions(line: LogLine, opId: string) {
    line.Mention? && line.opId == opId
  }

  predicate Creates(line: LogLine, opId: string) {
    Mentions(line, opId) && line.create
  }

  ghost predicate FirstCreation(lines: seq<LogLine>, opId: string, i: nat) {
    && i < |lines| && Creates(lines[i], opId)
    && forall j :: 0 <= j < i ==> !Creates(lines[j], opId)
  }

  ghost predicate LatestMention(lines: seq<LogLine>, opId: string, at: int) {
    && (forall j :: 0 <= j < |lines| && Mentions(lines[j], opId) ==> lines[j].at <= at)
    && (exists j :: 0 <= j < |lines| && Mentions(lines[j], opId) && lines[j].at == at)
  }

  /** `life` runs from the first creation line of the operation to its latest mention. */
  ghost predicate LifetimeIn(lines: seq<LogLine>, opId: string, life: Lifetime) {
    && LatestMention(lines, opId, life.lastMs)
    && (exists i: nat :: FirstCreation(lines, opId, i)
                         && life.createMs == lines[i].at && life.partitionId == lines[i].partitionId)
  }

  /** Line by line: the first creation and the latest mention so far. */
  function Creation(lines: seq<LogLine>, opId: string): Option<(int, string)> {
    if lines == [] then None
    else
      var before, line := Creation(lines[..|lines| - 1], opId), lines[|lines| - 1];
      if before.None? && Creates(line, opId) then Some((line.at, line.partitionId)) else before
  }

  function Latest(lines: seq<LogLine>, opId: string): Option<int> {
    if lines == [] then None
    else
      var before, line := Latest(lines[..|lines| - 1], opId), lines[|lines| - 1];
      if Mentions(line, opId) && (before.None? || line.at > before.value) then Some(line.at) else before
  }

  lemma {:induction false} CreationIsFirst(lines: seq<LogLine>, opId: string)
    ensures Creation(lines, opId).Some? <==> exists i :: 0 <= i < |lines| && Creates(lines[i], opId)
    ensures Creation(lines, opId).Some? ==>
              exists i: nat :: FirstCreation(lines, opId, i)
                               && Creation(lines, opId).value == (lines[i].at, lines[i].partitionId)
  {
    if lines != [] {
      var init := lines[..|lines| - 1];
      CreationIsFirst(init, opId);
      if Creation(init, opId).Some? {
        var i: nat :| FirstCreation(init, opId, i) && Creation(init, opId).value == (init[i].at, init[i].partitionId);
        assert FirstCreation(lines, opId, i) && Creates(lines[i], opId);
      } else if Creates(lines[|lines| - 1], opId) {
        assert forall j :: 0 <= j < |init| ==> init[j] == lines[j];
        assert FirstCreation(lines, opId, |lines| - 1);
      }
    }
  }

  lemma {:induction false} LatestIsLatest(lines: seq<LogLine>, opId: string)
    ensures Latest(lines, opId).Some? ==> LatestMention(lines, opId, Latest(lines, opId).value)
    ensures Latest(lines, opId).None? ==> forall i :: 0 <= i < |lines| ==> !Mentions(lines[i], opId)
  {
    if lines != [] {
      var init, last := lines[..|lines| - 1], lines[|lines| - 1];
      LatestIsLatest(init, opId);
      assert forall j :: 0 <= j < |init| ==> init[j] == lines[j];
      if Latest(lines, opId) == Latest(init, opId) && Latest(init, opId).Some? {
        var j :| 0 <= j < |init| && Mentions(init[j], opId) && init[j].at == Latest(init, opId).value;
        assert Mentions(lines[j], opId) && lines[j].at == Latest(lines, opId).value;
      } else if Mentions(last, opId) {
        assert Mentions(lines[|lines| - 1], opId) && lines[|lines| - 1].at == Latest(lines, opId).value;
      }
    }
  }

  lemma {:induction false} ScannedLifetime(lines: seq<LogLine>, opId: string)
    requires Creation(lines, opId).Some?
    ensures Latest(lines, opId).Some? && Creation(lines, opId).value.0 <= Latest(lines, opId).value
    ensures LifetimeIn(lines, opId, Lifetime(Creation(lines, opId).value.0, Latest(lines, opId).value,
                                             Creation(lines, opId).value.1))
  {
    CreationIsFirst(lines, opId);
    LatestIsLatest(lines, opId);
    var i: nat :| FirstCreation(lines, opId, i) && Creation(lines, opId).value == (lines[i].at, lines[i].partitionId);
    assert Mentions(lines[i], opId);
  }

  /** The scan of the log lines into the maps of creations and of latest mentions. */
  method ScanLines(lines: seq<LogLine>)
    returns (ids: seq<string>, created: map<string, (int, string)>, lastSeen: map<string, int>)
    ensures forall i, j :: 0 <= i < j < |ids| ==> ids[i] != ids[j]
    ensures forall id :: id in ids <==> id in created
    ensures forall id :: Get(created, id) == Creation(lines, id)
    ensures forall id :: Get(lastSeen, id) == Latest(lines, id)
  {
    ids, created, lastSeen := [], map[], map[];
    for n := 0 to |lines|
      invariant forall i, j :: 0 <= i < j < |ids| ==> ids[i] != ids[j]
      invariant forall id :: id in ids <==> id in created
      invariant forall id :: Get(created, id) == Creation(lines[..n], id)
      invariant forall id :: Get(lastSeen, id) == Latest(lines[..n], id)
    {
      var line := lines[n];
      assert lines[..n + 1][..n] == lines[..n];
      if line.Mention? {
        if line.create && line.opId !in created {
          created := created[line.opId := (line.at, line.partitionId)];
          ids := ids + [line.opId];
        }
        if line.opId !in lastSeen || line.at > lastSeen[line.opId] {
          lastSeen := lastSeen[line.opId := line.at];
        }
      }
    }
    assert lines[..|lines|] == lines;
  }

  /** The lifetimes of the operations seen created, in the order of their first creation. */
  method ParseOpLifetimes(lines: seq<LogLine>) returns (ids: seq<string>, lifetimes: map<string, Lifetime>)
    ensures forall i, j :: 0 <= i < j < |ids| ==> ids[i] != ids[j]
    ensures forall id :: id in ids <==> id in lifetimes
    ensures forall id :: id in lifetimes <==> exists i :: 0 <= i < |lines| && Creates(lines[i], id)
    ensures forall id :: id in lifetimes ==> LifetimeIn(lines, id, lifetimes[id])
    ensures forall id :: id in lifetimes ==> lifetimes[id].createMs <= lifetimes[id].lastMs
  {
    var created, lastSeen;
    ids, created, lastSeen := ScanLines(lines);
    lifetimes := map[];
    for k := 0 to |ids|
      invariant forall id :: id in lifetimes <==> id in ids[..k]
      invariant forall id :: id in lifetimes ==>
                  LifetimeIn(lines, id, lifetimes[id]) && lifetimes[id].createMs <= lifetimes[id].lastMs
    {
      var id := ids[k];
      ScannedLifetime(lines, id);
      assert Get(created, id) == Some(created[id]) && Get(lastSeen, id).Some?;
      lifetimes := lifetimes[id := Lifetime(created[id].0, Max(lastSeen[id], created[id].0), created[id].1)];
    }
    assert ids[..|ids|] == ids;
    forall id ensures id in lifetimes <==> exists i :: 0 <= i < |lines| && Creates(lines[i], id) {
      CreationIsFirst(lines, id);
      assert id in lifetimes <==> Get(created, id).Some?;
    }
  }

  // ---------- the sweep ----------

  type Delta = d: int | d == 1 || d == -1 witness 1

  datatype Event = Event(at: int, delta: Delta)

  /** The sort order of the sweep: by time, and at one time the ends first. */
  function EventKey(e: Event): int { 2 * e.at + if e.delta == 1 then 1 else 0 }

  function EventDelta(e: Event): int { e.delta }

  function Events(ops: seq<Lifetime>): seq<Event> {
    if ops == [] then []
    else Events(ops[..|ops| - 1]) + [Event(ops[|ops| - 1].createMs, 1), Event(ops[|ops| - 1].lastMs, -1)]
  }

  function Sweep(ops: seq<Lifetime>): seq<Event> { SortBy(EventKey, Events(ops)) }

  /** The running count after the first `k` events. */
  function CountAfter(es: seq<Event>, k: nat): int
    requires k <= |es|
  {
    SumBy(EventDelta, es[..k])
  }

  lemma {:induction false} CountStep(es: seq<Event>, k: nat)
    requires k < |es|
    ensures CountAfter(es, k + 1) == CountAfter(es, k) + es[k].delta
  {
    assert es[..k + 1][..k] == es[..k];
  }

  // ---------- what the sweep counts ----------

  /** Every operation ends no earlier than it was created. */
  ghost predicate Sane(ops: seq<Lifetime>) {
    forall i :: 0 <= i < |ops| ==> ops[i].createMs <= ops[i].lastMs
  }

  function ActiveAt(t: int): Lifetime -> bool { (o: Lifetime) => o.createMs <= t < o.lastMs }

  /** The number of operations in flight at time `t`. */
  function InFlight(ops: seq<Lifetime>, t: int): nat { CountIf(ActiveAt(t), ops) }

  function CreatedAfter(t: int): Lifetime -> bool { (o: Lifetime) => o.createMs > t }

  function DeltaUntil(t: int): Event -> int { (e: Event) => if e.at <= t then e.delta else 0 }

  function RiseAfter(t: int): Event -> int { (e: Event) => if e.at > t && e.delta == 1 then 1 else 0 }

  lemma {:induction false} EventSums(ops: seq<Lifetime>, t: int)
    requires Sane(ops)
    ensures SumBy(DeltaUntil(t), Events(ops)) == InFlight(ops, t)
    ensures SumBy(RiseAfter(t), Events(ops)) == CountIf(CreatedAfter(t), ops)
    ensures |Events(ops)| == 2 * |ops|
  {
    if ops != [] {
      var init, o := ops[..|ops| - 1], ops[|ops| - 1];
      EventSums(init, t);
      var up, down := Event(o.createMs, 1), Event(o.lastMs, -1);
      SumConcat(DeltaUntil(t), Events(init), [up, down]);
      SumPair(DeltaUntil(t), up, down);
      SumConcat(RiseAfter(t), Events(init), [up, down]);
      SumPair(RiseAfter(t), up, down);
    }
  }

  /** `k` splits the sorted events at the end of timestamp `t`. */
  ghost predicate EndsTimestamp(es: seq<Event>, k: nat, t: int) {
    && k <= |es|
    && (forall i :: 0 <= i < k ==> es[i].at <= t)
    && (forall i :: k <= i < |es| ==> es[i].at > t)
  }

  lemma {:induction false} ZeroSum(f: Event -> int, es: seq<Event>)
    requires forall i :: 0 <= i < |es| ==> f(es[i]) == 0
    ensures SumBy(f, es) == 0
  {
    if es != [] {
      ZeroSum(f, es[..|es| - 1]);
    }
  }

  /** The events of the operations in sweep order. */
  ghost predicate IsSweep(ops: seq<Lifetime>, es: seq<Event>) {
    && multiset(es) == multiset(Events(ops))
    && forall i, j :: 0 <= i < j < |es| ==> EventKey(es[i]) <= EventKey(es[j])
  }

  lemma {:induction false} SweepIsSweep(ops: seq<Lifetime>)
    ensures IsSweep(ops, Sweep(ops))
  {
    SortSorts(EventKey, Events(ops));
  }

  lemma {:induction false} SumUntilSplit(es: seq<Event>, k: nat, t: int)
    requires EndsTimestamp(es, k, t)
    ensures SumBy(DeltaUntil(t), es) == CountAfter(es, k)
  {
    assert es == es[..k] + es[k..];
    SumConcat(DeltaUntil(t), es[..k], es[k..]);
    SumEqual(DeltaUntil(t), EventDelta, es[..k]);
    ZeroSum(DeltaUntil(t), es[k..]);
  }

  /** After all the events of a timestamp the running count is the number of
      operations in flight at that time. */
  lemma {:induction false} CountIsInFlight(ops: seq<Lifetime>, es: seq<Event>, k: nat, t: int)
    requires Sane(ops) && IsSweep(ops, es) && EndsTimestamp(es, k, t)
    ensures CountAfter(es, k) == InFlight(ops, t)
  {
    SumReordered(DeltaUntil(t), es, Events(ops));
    EventSums(ops, t);
    SumUntilSplit(es, k, t);
  }

  /** Every time has its split. */
  lemma {:induction false} SplitExists(ops: seq<Lifetime>, es: seq<Event>, t: int) returns (k: nat)
    requires IsSweep(ops, es)
    ensures EndsTimestamp(es, k, t)
  {
    k := |es|;
    while k > 0 && es[k - 1].at > t
      invariant k <= |es|
      invariant forall i :: k <= i < |es| ==> es[i].at > t
    {
      k := k - 1;
    }
    if k > 0 {
      forall i | 0 <= i < k ensures es[i].at <= t {
        assert EventKey(es[i]) <= EventKey(es[k - 1]);
      }
    }
  }

  // ---------- the first peak ----------

  /** The running count first reaches its maximum with event `p`. */
  ghost predicate FirstPeak(es: seq<Event>, p: nat) {
    && p < |es|
    && (forall k :: 1 <= k <= |es| ==> CountAfter(es, k) <= CountAfter(es, p + 1))
    && (forall k :: 1 <= k <= p ==> CountAfter(es, k) < CountAfter(es, p + 1))
  }

  lemma {:induction false} EventsBalance(ops: seq<Lifetime>)
    ensures SumBy(EventDelta, Events(ops)) == 0
    ensures |Events(ops)| == 2 * |ops|
  {
    if ops != [] {
      var init, o := ops[..|ops| - 1], ops[|ops| - 1];
      EventsBalance(init);
      var up, down := Event(o.createMs, 1), Event(o.lastMs, -1);
      SumConcat(EventDelta, Events(init), [up, down]);
      SumPair(EventDelta, up, down);
    }
  }

  /** The series moves by one at every event and ends at zero. */
  lemma {:induction false} SweepEndsAtZero(ops: seq<Lifetime>, es: seq<Event>)
    requires IsSweep(ops, es)
    ensures |es| == 2 * |ops|
    ensures CountAfter(es, |es|) == 0
  {
    EventsBalance(ops);
    SumReordered(EventDelta, es, Events(ops));
    assert es[..|es|] == es;
    assert |multiset(es)| == |es| && |multiset(Events(ops))| == |Events(ops)|;
  }

  lemma {:induction false} PeakIsCreation(ops: seq<Lifetime>, es: seq<Event>, p: nat)
    requires IsSweep(ops, es) && FirstPeak(es, p)
    ensures es[p].delta == 1
    ensures CountAfter(es, p + 1) >= 0
  {
    SweepEndsAtZero(ops, es);
    CountStep(es, p);
    if p == 0 {
      assert es[..0] == [];
    }
  }

  /** The first peak is a creation, and it is the last event of its timestamp. */
  lemma {:induction false} PeakEndsTimestamp(ops: seq<Lifetime>, es: seq<Event>, p: nat)
    requires IsSweep(ops, es) && FirstPeak(es, p)
    ensures EndsTimestamp(es, p + 1, es[p].at)
  {
    PeakIsCreation(ops, es, p);
    forall i | 0 <= i <= p ensures es[i].at <= es[p].at {
      assert i < p ==> EventKey(es[i]) <= EventKey(es[p]);
    }
    if p + 1 < |es| {
      CountStep(es, p + 1);
      assert es[p + 1].delta == -1;
      assert EventKey(es[p]) <= EventKey(es[p + 1]);
      forall i | p < i < |es| ensures es[i].at > es[p].at {
        assert p + 1 < i ==> EventKey(es[p + 1]) <= EventKey(es[i]);
      }
    }
  }

  /** `peak` is the greatest number of operations in flight at any time. */
  ghost predicate GreatestInFlight(ops: seq<Lifetime>, peak: int) {
    && (forall t :: InFlight(ops, t) <= peak)
    && (exists t :: InFlight(ops, t) == peak)
  }

  /** `first` is the earliest creation time at which `peak` operations are in flight. */
  ghost predicate PeakReached(ops: seq<Lifetime>, peak: int, first: int) {
    && InFlight(ops, first) == peak
    && (exists i :: 0 <= i < |ops| && ops[i].createMs == first)
    && (forall i :: 0 <= i < |ops| && ops[i].createMs < first ==> InFlight(ops, ops[i].createMs) < peak)
  }

  lemma {:induction false} EventOrigin(ops: seq<Lifetime>, e: Event)
    requires e in Events(ops) && e.delta == 1
    ensures exists i :: 0 <= i < |ops| && ops[i].createMs == e.at
  {
    var init := ops[..|ops| - 1];
    if e in Events(init) {
      EventOrigin(init, e);
      var i :| 0 <= i < |init| && init[i].createMs == e.at;
      assert ops[i].createMs == e.at;
    } else {
      assert ops[|ops| - 1].createMs == e.at;
    }
  }

  lemma {:induction false} CreationEvent(ops: seq<Lifetime>, i: nat)
    requires i < |ops|
    ensures Event(ops[i].createMs, 1) in Events(ops)
  {
    if i < |ops| - 1 {
      CreationEvent(ops[..|ops| - 1], i);
    } else {
      var n := |Events(ops[..|ops| - 1])|;
      assert Events(ops)[n] == Event(ops[i].createMs, 1);
    }
  }

  lemma {:induction false} InFlightBelowPeak(ops: seq<Lifetime>, es: seq<Event>, p: nat, t: int)
    requires Sane(ops) && IsSweep(ops, es) && FirstPeak(es, p)
    ensures InFlight(ops, t) <= CountAfter(es, p + 1)
    ensures t < es[p].at && (exists j :: 0 <= j < |es| && es[j].at == t) ==> InFlight(ops, t) < CountAfter(es, p + 1)
  {
    var k := SplitExists(ops, es, t);
    CountIsInFlight(ops, es, k, t);
    if k == 0 {
      assert es[..0] == [];
      PeakIsCreation(ops, es, p);
    }
  }

  /** The peak of the sweep is the greatest number of operations in flight at any
      time, first reached at the time of event `p`. */
  lemma {:induction false} PeakMeaning(ops: seq<Lifetime>, es: seq<Event>, p: nat)
    requires Sane(ops) && IsSweep(ops, es) && FirstPeak(es, p)
    ensures GreatestInFlight(ops, CountAfter(es, p + 1))
    ensures PeakReached(ops, CountAfter(es, p + 1), es[p].at)
  {
    PeakEndsTimestamp(ops, es, p);
    CountIsInFlight(ops, es, p + 1, es[p].at);
    forall t ensures InFlight(ops, t) <= CountAfter(es, p + 1) {
      InFlightBelowPeak(ops, es, p, t);
    }
    PeakIsCreation(ops, es, p);
    assert es[p] in multiset(es);
    assert es[p] in Events(ops);
    EventOrigin(ops, es[p]);
    forall i | 0 <= i < |ops| && ops[i].createMs < es[p].at
      ensures InFlight(ops, ops[i].createMs) < CountAfter(es, p + 1)
    {
      CreationEvent(ops, i);
      assert Event(ops[i].createMs, 1) in multiset(es);
      InFlightBelowPeak(ops, es, p, ops[i].createMs);
    }
  }

  // ---------- the rises after the peak ----------

  function IsRise(e: Event): int { if e.delta == 1 then 1 else 0 }

  /** The number of rises from event `from` on. */
  function Rises(es: seq<Event>, from: nat): int
    requires from <= |es|
  {
    SumBy(IsRise, es[from..])
  }

  lemma {:induction false} RiseStep(es: seq<Event>, from: nat)
    requires from < |es|
    ensures Rises(es, from) == Rises(es, from + 1) + IsRise(es[from])
  {
    assert es[from..] == [es[from]] + es[from + 1..];
    SumConcat(IsRise, [es[from]], es[from + 1..]);
    assert SumBy(IsRise, [es[from]]) == SumBy(IsRise, [es[from]][..0]) + IsRise(es[from]);
  }

  /** Rises and falls after the first peak differ by the peak: twice the rises is
      the number of events after the peak less the peak. */
  lemma {:induction false} RisesBalance(ops: seq<Lifetime>, es: seq<Event>, p: nat)
    requires IsSweep(ops, es) && p < |es|
    ensures 2 * Rises(es, p + 1) == |es| - 1 - p - CountAfter(es, p + 1)
  {
    SweepEndsAtZero(ops, es);
    RisesAndFalls(es, p + 1);
  }

  lemma {:induction false} RisesAndFalls(es: seq<Event>, from: nat)
    requires from <= |es|
    ensures 2 * Rises(es, from) == |es| - from + CountAfter(es, |es|) - CountAfter(es, from)
    decreases |es| - from
  {
    if from < |es| {
      RisesAndFalls(es, from + 1);
      RiseStep(es, from);
      CountStep(es, from);
    }
  }

  lemma {:induction false} RisesFromSplit(es: seq<Event>, k: nat, t: int)
    requires EndsTimestamp(es, k, t)
    ensures SumBy(RiseAfter(t), es) == Rises(es, k)
  {
    assert es == es[..k] + es[k..];
    SumConcat(RiseAfter(t), es[..k], es[k..]);
    ZeroSum(RiseAfter(t), es[..k]);
    SumEqual(RiseAfter(t), IsRise, es[k..]);
  }

  /** The rises after the first peak are the operations created after its time. */
  lemma {:induction false} RisesAreLaterCreations(ops: seq<Lifetime>, es: seq<Event>, p: nat)
    requires Sane(ops) && IsSweep(ops, es) && FirstPeak(es, p)
    ensures Rises(es, p + 1) == CountIf(CreatedAfter(es[p].at), ops)
  {
    PeakEndsTimestamp(ops, es, p);
    RisesFromSplit(es, p + 1, es[p].at);
    SumReordered(RiseAfter(es[p].at), es, Events(ops));
    EventSums(ops, es[p].at);
  }

  /** What the two reported numbers of a partition mean. */
  ghost predicate DrainMeaning(ops: seq<Lifetime>, peak: int, rises: int) {
    && GreatestInFlight(ops, peak)
    && exists first :: PeakReached(ops, peak, first) && rises == CountIf(CreatedAfter(first), ops)
  }

  lemma {:induction false} SweepMeaning(ops: seq<Lifetime>, es: seq<Event>, p: nat)
    requires Sane(ops) && IsSweep(ops, es) && FirstPeak(es, p)
    ensures DrainMeaning(ops, CountAfter(es, p + 1), Rises(es, p + 1))
  {
    PeakMeaning(ops, es, p);
    RisesAreLaterCreations(ops, es, p);
  }

  method BuildEvents(lifetimes: seq<Lifetime>) returns (events: seq<Event>)
    ensures events == Events(lifetimes)
  {
    events := [];
    for i := 0 to |lifetimes|
      invariant events == Events(lifetimes[..i])
    {
      assert lifetimes[..i + 1][..i] == lifetimes[..i];
      events := events + [Event(lifetimes[i].createMs, 1)];
      events := events + [Event(lifetimes[i].lastMs, -1)];
    }
    assert lifetimes[..|lifetimes|] == lifetimes;
  }

  method BuildSeries(events: seq<Event>) returns (series: seq<int>)
    ensures |series| == |events|
    ensures forall k :: 0 <= k < |series| ==> series[k] == CountAfter(events, k + 1)
  {
    series := [];
    var current := 0;
    for i := 0 to |events|
      invariant |series| == i && current == CountAfter(events, i)
      invariant forall k :: 0 <= k < i ==> series[k] == CountAfter(events, k + 1)
    {
      CountStep(events, i);
      current := current + events[i].delta;
      series := series + [current];
    }
  }

  /** The greatest element and its first index. */
  method FirstMaximum(series: seq<int>) returns (peak: int, peakIndex: nat)
    requires series != []
    ensures peakIndex < |series| && series[peakIndex] == peak
    ensures forall k :: 0 <= k < |series| ==> series[k] <= peak
    ensures forall k :: 0 <= k < peakIndex ==> series[k] < peak
  {
    peak := series[0];
    for i := 1 to |series|
      invariant peak in series
      invariant forall k :: 0 <= k < i ==> series[k] <= peak
    {
      peak := Max(peak, series[i]);
    }
    peakIndex := 0;
    while series[peakIndex] != peak
      invariant peakIndex < |series|
      invariant peak in series[peakIndex..]
      decreases |series| - peakIndex
      invariant forall k :: 0 <= k < peakIndex ==> series[k] < peak
    {
      peakIndex := peakIndex + 1;
    }
  }

  method CountRises(ghost events: seq<Event>, series: seq<int>, from: nat) returns (rises: nat)
    requires |series| == |events| && 1 <= from <= |events|
    requires forall k :: 0 <= k < |series| ==> series[k] == CountAfter(events, k + 1)
    ensures rises == Rises(events, from)
  {
    rises := 0;
    for i := from to |series|
      invariant rises + Rises(events, i) == Rises(events, from)
    {
      CountStep(events, i);
      RiseStep(events, i);
      if series[i] > series[i - 1] {
        rises := rises + 1;
      }
    }
  }

  /** Peak and post-peak rises of one partition's lifetimes. */
  method PartitionPostPeakRises(lifetimes: seq<Lifetime>) returns (peak: int, postPeakRises: nat)
    ensures lifetimes == [] ==> peak == 0 && postPeakRises == 0
    ensures lifetimes != [] && Sane(lifetimes) ==> DrainMeaning(lifetimes, peak, postPeakRises)
  {
    hide DrainMeaning, IsSweep;
    var events := BuildEvents(lifetimes);
    events := SortBy(EventKey, events);
    SweepIsSweep(lifetimes);
    SweepEndsAtZero(lifetimes, events);
    var series := BuildSeries(events);
    if |series| == 0 {
      return 0, 0;
    }
    var peakIndex;
    peak, peakIndex := FirstMaximum(series);
    assert FirstPeak(events, peakIndex) by {
      assert forall k :: 1 <= k <= |events| ==> CountAfter(events, k) == series[k - 1];
    }
    postPeakRises := CountRises(events, series, peakIndex + 1);
    if Sane(lifetimes) {
      SweepMeaning(lifetimes, events, peakIndex);
    }
  }

  // ---------- the verdict ----------

  datatype Verdict = MonotoneDrain | Oscillating

  datatype PartitionDrain = PartitionDrain(partitionId: string, ops: nat, peak: int, postPeakRises: nat)

  function MoreRisesFirst(p: PartitionDrain): int { 0 - p.postPeakRises }

  function RisesOf(p: PartitionDrain): int { p.postPeakRises }

  function PeakOf(p: PartitionDrain): int { p.peak }

  /** The lifetimes of one partition, in order of creation. */
  function OnPartition(lives: seq<Lifetime>, partitionId: string): seq<Lifetime> {
    if lives == [] then []
    else
      var before, last := OnPartition(lives[..|lives| - 1], partitionId), lives[|lives| - 1];
      if last.partitionId == partitionId then before + [last] else before
  }

  /** After the in-flight count first reaches its maximum no operation is created. */
  ghost predicate NoCreationAfterPeak(ops: seq<Lifetime>) {
    forall peak, first :: GreatestInFlight(ops, peak) && PeakReached(ops, peak, first) ==>
      forall i :: 0 <= i < |ops| ==> ops[i].createMs <= first
  }

  lemma {:induction false} NoRisesMeansNoCreation(ops: seq<Lifetime>, peak: int, rises: int)
    requires ops != [] && DrainMeaning(ops, peak, rises)
    ensures rises == 0 <==> NoCreationAfterPeak(ops)
  {
    var first :| PeakReached(ops, peak, first) && rises == CountIf(CreatedAfter(first), ops);
    CountZero(CreatedAfter(first), ops);
    forall peak', first' | GreatestInFlight(ops, peak') && PeakReached(ops, peak', first')
      ensures peak' == peak && first' == first
    {
      var t :| InFlight(ops, t) == peak;
      var t' :| InFlight(ops, t') == peak';
    }
  }

  ghost predicate Present(lives: seq<Lifetime>, partitionId: string) {
    exists i :: 0 <= i < |lives| && lives[i].partitionId == partitionId
  }

  function Of(partitionId: string): Lifetime -> bool { (life: Lifetime) => life.partitionId == partitionId }

  /** The lifetimes of a partition are all of those, in order, and no others. */
  lemma {:induction false} OnPartitionIsAll(lives: seq<Lifetime>, partitionId: string)
    ensures OnPartition(lives, partitionId) == Filter(Of(partitionId), lives)
    ensures |OnPartition(lives, partitionId)| == CountIf(Of(partitionId), lives)
  {
    FilterLength(Of(partitionId), lives);
    if lives != [] {
      OnPartitionIsAll(lives[..|lives| - 1], partitionId);
      FilterLength(Of(partitionId), lives[..|lives| - 1]);
    }
  }

  lemma {:induction false} OnPartitionFacts(lives: seq<Lifetime>, partitionId: string)
    ensures OnPartition(lives, partitionId) != [] <==> Present(lives, partitionId)
    ensures Sane(lives) ==> Sane(OnPartition(lives, partitionId))
  {
    if lives != [] {
      var init := lives[..|lives| - 1];
      OnPartitionFacts(init, partitionId);
      var last := lives[|lives| - 1];
      assert Present(lives, partitionId) <==> Present(init, partitionId) || last.partitionId == partitionId;
    }
  }

  /** The lifetimes grouped by partition, with the partitions in order of appearance. */
  method GroupByPartition(lives: seq<Lifetime>) returns (keys: seq<string>, byPartition: map<string, seq<Lifetime>>)
    ensures forall i, j :: 0 <= i < j < |keys| ==> keys[i] != keys[j]
    ensures forall pid :: pid in keys <==> Present(lives, pid)
    ensures forall pid :: pid in byPartition <==> pid in keys
    ensures forall pid :: pid in byPartition ==> byPartition[pid] == OnPartition(lives, pid)
  {
    keys, byPartition := [], map[];
    for n := 0 to |lives|
      invariant forall i, j :: 0 <= i < j < |keys| ==> keys[i] != keys[j]
      invariant forall pid :: pid in byPartition <==> pid in keys
      invariant forall pid :: ListAt(byPartition, pid) == OnPartition(lives[..n], pid)
      invariant forall pid :: pid in byPartition ==> ListAt(byPartition, pid) != []
    {
      var info := lives[n];
      assert lives[..n + 1][..n] == lives[..n];
      if info.partitionId in byPartition {
        byPartition := byPartition[info.partitionId := byPartition[info.partitionId] + [info]];
      } else {
        byPartition := byPartition[info.partitionId := [info]];
        keys := keys + [info.partitionId];
      }
    }
    assert lives[..|lives|] == lives;
    forall pid
      ensures pid in keys <==> Present(lives, pid)
      ensures pid in byPartition ==> byPartition[pid] == OnPartition(lives, pid)
    {
      OnPartitionFacts(lives, pid);
      assert ListAt(byPartition, pid) == OnPartition(lives, pid);
    }
  }

  /** The reported row of a partition states its drain. */
  ghost predicate RowOf(lives: seq<Lifetime>, row: PartitionDrain) {
    var ops := OnPartition(lives, row.partitionId);
    ops != [] && row.ops == |ops| && DrainMeaning(ops, row.peak, row.postPeakRises)
  }

  method DrainRow(lives: seq<Lifetime>, partitionId: string, list: seq<Lifetime>) returns (row: PartitionDrain)
    requires Sane(lives) && Present(lives, partitionId) && list == OnPartition(lives, partitionId)
    ensures row.partitionId == partitionId && RowOf(lives, row)
  {
    OnPartitionFacts(lives, partitionId);
    var peak, postPeakRises := PartitionPostPeakRises(list);
    row := PartitionDrain(partitionId, |list|, peak, postPeakRises);
  }

  /** The per-partition rows in order of appearance, with their totals. */
  method DrainRows(lives: seq<Lifetime>, keys: seq<string>, byPartition: map<string, seq<Lifetime>>)
    returns (rows: seq<PartitionDrain>, totalRises: nat, peakSum: int)
    requires Sane(lives)
    requires forall pid :: pid in keys ==>
               Present(lives, pid) && pid in byPartition && byPartition[pid] == OnPartition(lives, pid)
    ensures |rows| == |keys|
    ensures forall i :: 0 <= i < |rows| ==> rows[i].partitionId == keys[i] && RowOf(lives, rows[i])
    ensures totalRises == SumBy(RisesOf, rows) && peakSum == SumBy(PeakOf, rows)
  {
    hide RowOf;
    rows, totalRises, peakSum := [], 0, 0;
    for k := 0 to |keys|
      invariant |rows| == k
      invariant forall i :: 0 <= i < k ==> rows[i].partitionId == keys[i] && RowOf(lives, rows[i])
      invariant totalRises == SumBy(RisesOf, rows) && peakSum == SumBy(PeakOf, rows)
    {
      var row := DrainRow(lives, keys[k], byPartition[keys[k]]);
      SumAppend(RisesOf, rows, row);
      SumAppend(PeakOf, rows, row);
      rows := rows + [row];
      totalRises, peakSum := totalRises + row.postPeakRises, peakSum + row.peak;
    }
  }

  lemma {:induction false} NoRisesAnywhere(rows: seq<PartitionDrain>)
    ensures SumBy(RisesOf, rows) >= 0
    ensures SumBy(RisesOf, rows) == 0 <==> forall i :: 0 <= i < |rows| ==> rows[i].postPeakRises == 0
  {
    if rows != [] {
      var init := rows[..|rows| - 1];
      NoRisesAnywhere(init);
      assert forall i :: 0 <= i < |init| ==> init[i] == rows[i];
    }
  }

  /** No partition sees an operation created after its peak was first reached. */
  ghost predicate AllDrain(lives: seq<Lifetime>) {
    forall pid :: Present(lives, pid) ==> NoCreationAfterPeak(OnPartition(lives, pid))
  }

  ghost predicate Listed(partitions: seq<PartitionDrain>, pid: string) {
    exists i :: 0 <= i < |partitions| && partitions[i].partitionId == pid
  }

  /** The rows: one for each partition, and no other, that states its drain. */
  ghost predicate RowsFor(lives: seq<Lifetime>, partitions: seq<PartitionDrain>) {
    && (forall i, j :: 0 <= i < j < |partitions| ==> partitions[i].partitionId != partitions[j].partitionId)
    && (forall pid :: Present(lives, pid) <==> Listed(partitions, pid))
    && (forall i :: 0 <= i < |partitions| ==> RowOf(lives, partitions[i]))
  }

  /** The summary of one run: the verdict is MonotoneDrain exactly when on no
      partition an operation is created after the peak was first reached. */
  method SummarizeTarget(lives: seq<Lifetime>)
    returns (verdict: Verdict, partitions: seq<PartitionDrain>, postPeakRises: nat, peakInFlightSum: int)
    requires Sane(lives)
    ensures verdict == MonotoneDrain <==> AllDrain(lives)
    ensures verdict == MonotoneDrain <==> postPeakRises == 0
    ensures SortedBy(MoreRisesFirst, partitions) && RowsFor(lives, partitions)
    ensures postPeakRises == SumBy(RisesOf, partitions) && peakInFlightSum == SumBy(PeakOf, partitions)
  {
    var keys, byPartition := GroupByPartition(lives);
    var rows;
    rows, postPeakRises, peakInFlightSum := DrainRows(lives, keys, byPartition);
    hide RowOf, Present, AllDrain, SortedBy;
    RowsInOrder(lives, keys, rows);
    partitions := SortBy(MoreRisesFirst, rows);
    SortSorts(MoreRisesFirst, rows);
    SumReordered(RisesOf, rows, partitions);
    SumReordered(PeakOf, rows, partitions);
    RowsReordered(lives, rows, partitions);
    VerdictMeaning(lives, partitions);
    verdict := if postPeakRises == 0 then MonotoneDrain else Oscillating;
  }

  lemma {:induction false} RowsInOrder(lives: seq<Lifetime>, keys: seq<string>, rows: seq<PartitionDrain>)
    requires forall i, j :: 0 <= i < j < |keys| ==> keys[i] != keys[j]
    requires forall pid :: pid in keys <==> Present(lives, pid)
    requires |rows| == |keys|
    requires forall i :: 0 <= i < |rows| ==> rows[i].partitionId == keys[i] && RowOf(lives, rows[i])
    ensures RowsFor(lives, rows)
  {
    hide RowOf, Present;
    forall pid ensures pid in keys <==> Listed(rows, pid) {
      if pid in keys {
        var i :| 0 <= i < |keys| && keys[i] == pid;
        assert rows[i].partitionId == pid;
      }
    }
  }

  lemma {:induction false} RowsReordered(
    lives: seq<Lifetime>, rows: seq<PartitionDrain>, partitions: seq<PartitionDrain>)
    requires RowsFor(lives, rows) && multiset(rows) == multiset(partitions)
    ensures RowsFor(lives, partitions)
  {
    hide RowOf, Present;
    assert Distinct(rows);
    DistinctReordered(rows, partitions);
    forall i | 0 <= i < |partitions| ensures partitions[i] in rows {
      assert partitions[i] in multiset(partitions);
    }
    forall i | 0 <= i < |rows| ensures rows[i] in partitions {
      assert rows[i] in multiset(rows);
    }
    forall i, j | 0 <= i < j < |partitions| ensures partitions[i].partitionId != partitions[j].partitionId {
      var a :| 0 <= a < |rows| && rows[a] == partitions[i];
      var b :| 0 <= b < |rows| && rows[b] == partitions[j];
      assert a != b;
    }
    forall pid ensures Listed(rows, pid) <==> Listed(partitions, pid) {
      SamePartition(rows, partitions, pid);
      SamePartition(partitions, rows, pid);
    }
  }

  lemma {:induction false} SamePartition(a: seq<PartitionDrain>, b: seq<PartitionDrain>, pid: string)
    requires forall i :: 0 <= i < |a| ==> a[i] in b
    ensures Listed(a, pid) ==> Listed(b, pid)
  {
    if i :| 0 <= i < |a| && a[i].partitionId == pid {
      var j :| 0 <= j < |b| && b[j] == a[i];
      assert b[j].partitionId == pid;
    }
  }

  lemma {:induction false} VerdictMeaning(lives: seq<Lifetime>, partitions: seq<PartitionDrain>)
    requires RowsFor(lives, partitions)
    ensures SumBy(RisesOf, partitions) == 0 <==> AllDrain(lives)
  {
    NoRisesAnywhere(partitions);
    forall i | 0 <= i < |partitions|
      ensures Present(lives, partitions[i].partitionId)
      ensures partitions[i].postPeakRises == 0 <==> NoCreationAfterPeak(OnPartition(lives, partitions[i].partitionId))
    {
      var row := partitions[i];
      NoRisesMeansNoCreation(OnPartition(lives, row.partitionId), row.peak, row.postPeakRises);
    }
    if SumBy(RisesOf, partitions) == 0 {
      forall pid | Present(lives, pid) ensures NoCreationAfterPeak(OnPartition(lives, pid)) {
        var i :| 0 <= i < |partitions| && partitions[i].partitionId == pid;
        assert partitions[i].postPeakRises == 0;
      }
    }
  }

  /** From the log lines of a run to its verdict, rows and totals. */
  method AnalyzeLines(lines: seq<LogLine>)
    returns (ids: seq<string>, lives: seq<Lifetime>, verdict: Verdict, partitions: seq<PartitionDrain>,
             postPeakRises: nat, peakInFlightSum: int)
    ensures |lives| == |ids| && forall i, j :: 0 <= i < j < |ids| ==> ids[i] != ids[j]
    ensures forall id :: id in ids <==> exists i :: 0 <= i < |lines| && Creates(lines[i], id)
    ensures forall i :: 0 <= i < |ids| ==> LifetimeIn(lines, ids[i], lives[i])
    ensures verdict == MonotoneDrain <==> AllDrain(lives)
    ensures SortedBy(MoreRisesFirst, partitions) && RowsFor(lives, partitions)
    ensures postPeakRises == SumBy(RisesOf, partitions) && peakInFlightSum == SumBy(PeakOf, partitions)
  {
    hide LifetimeIn, NoCreationAfterPeak, RowOf, AllDrain, RowsFor, SortedBy;
    var lifetimes;
    ids, lifetimes := ParseOpLifetimes(lines);
    lives := [];
    for k := 0 to |ids|
      invariant |lives| == k
      invariant forall i :: 0 <= i < k ==> lives[i] == lifetimes[ids[i]]
    {
      lives := lives + [lifetimes[ids[k]]];
    }
    verdict, partitions, postPeakRises, peakInFlightSum := SummarizeTarget(lives);
  }

  // ---------- the verdict and the in-flight count itself ----------

  function CreatedAt(t: int): Lifetime -> bool { (o: Lifetime) => o.createMs == t }

  function EndedAt(t: int): Lifetime -> bool { (o: Lifetime) => o.lastMs == t }

  /** The in-flight count never rises from `first` on. */
  ghost predicate NeverRises(ops: seq<Lifetime>, first: int) {
    forall t :: first < t ==> InFlight(ops, t) <= InFlight(ops, t - 1)
  }

  lemma {:induction false} InFlightStep(ops: seq<Lifetime>, t: int)
    requires Sane(ops)
    ensures InFlight(ops, t) == InFlight(ops, t - 1) + CountIf(CreatedAt(t), ops) - CountIf(EndedAt(t), ops)
  {
    if ops != [] {
      InFlightStep(ops[..|ops| - 1], t);
    }
  }

  /** No rise of the sweep means no rise of the in-flight count. */
  lemma {:induction false} MonotoneDrainNeverRises(ops: seq<Lifetime>, peak: int, first: int)
    requires Sane(ops) && NoCreationAfterPeak(ops)
    requires GreatestInFlight(ops, peak) && PeakReached(ops, peak, first)
    ensures NeverRises(ops, first)
  {
    forall t | first < t ensures InFlight(ops, t) <= InFlight(ops, t - 1) {
      InFlightStep(ops, t);
      CountZero(CreatedAt(t), ops);
    }
  }

  /** The converse fails: an operation that is logged once lives for no time, yet
      created after the peak it counts as a rise. */
  lemma {:induction false} InstantOperationOscillates()
    ensures var ops := [Lifetime(0, 10, "p"), Lifetime(5, 5, "p")];
            Sane(ops) && GreatestInFlight(ops, 1) && PeakReached(ops, 1, 0)
            && NeverRises(ops, 0) && !NoCreationAfterPeak(ops)
  {
    var ops := [Lifetime(0, 10, "p"), Lifetime(5, 5, "p")];
    forall t ensures InFlight(ops, t) == if 0 <= t < 10 then 1 else 0 {
      assert ops[..1] == [ops[0]] && ops[..1][..0] == [];
      assert InFlight(ops, t) == CountIf(ActiveAt(t), [ops[0]]);
    }
    assert InFlight(ops, 0) == 1;
    assert ops[0].createMs == 0;
    assert GreatestInFlight(ops, 1) && PeakReached(ops, 1, 0);
    assert ops[1].createMs == 5;
  }

  /** Exactly when the sweep and the in-flight count agree on a partition: no
      operation is created after the peak, or at some later time more operations
      are created than end. */
  lemma {:induction false} VerdictAgreesWithInFlight(ops: seq<Lifetime>, peak: int, first: int)
    requires Sane(ops) && GreatestInFlight(ops, peak) && PeakReached(ops, peak, first)
    ensures (NoCreationAfterPeak(ops) <==> NeverRises(ops, first))
       <==> (|| CountIf(CreatedAfter(first), ops) == 0
             || exists t :: first < t && CountIf(CreatedAt(t), ops) > CountIf(EndedAt(t), ops))
  {
    CountZero(CreatedAfter(first), ops);
    if CountIf(CreatedAfter(first), ops) == 0 {
      assert DrainMeaning(ops, peak, 0);
      NoRisesMeansNoCreation(ops, peak, 0);
      MonotoneDrainNeverRises(ops, peak, first);
    } else {
      assert !NoCreationAfterPeak(ops);
      if t :| first < t && CountIf(CreatedAt(t), ops) > CountIf(EndedAt(t), ops) {
        InFlightStep(ops, t);
        assert InFlight(ops, t) > InFlight(ops, t - 1);
      } else {
        forall t | first < t ensures InFlight(ops, t) <= InFlight(ops, t - 1) {
          InFlightStep(ops, t);
        }
      }
    }
  }

  /** When no creation shares its timestamp with an end, the two always agree. */
  lemma {:induction false} TieFreeVerdict(ops: seq<Lifetime>, peak: int, first: int)
    requires Sane(ops) && GreatestInFlight(ops, peak) && PeakReached(ops, peak, first)
    requires forall i, j :: 0 <= i < |ops| && 0 <= j < |ops| ==> ops[i].createMs != ops[j].lastMs
    ensures NoCreationAfterPeak(ops) <==> NeverRises(ops, first)
  {
    CountZero(CreatedAfter(first), ops);
    if CountIf(CreatedAfter(first), ops) != 0 {
      var i :| 0 <= i < |ops| && ops[i].createMs > first;
      var t := ops[i].createMs;
      CountZero(CreatedAt(t), ops);
      CountZero(EndedAt(t), ops);
      assert CreatedAt(t)(ops[i]);
    }
    VerdictAgreesWithInFlight(ops, peak, first);
  }

  // ---------- the verdict of a whole run ----------

  /** From its first peak on the in-flight count of the operations never rises. */
  ghost predicate CountNeverRises(ops: seq<Lifetime>) {
    forall peak, first :: GreatestInFlight(ops, peak) && PeakReached(ops, peak, first) ==> NeverRises(ops, first)
  }

  /** What the verdict promises of a run. */
  ghost predicate AllNeverRise(lives: seq<Lifetime>) {
    forall pid :: Present(lives, pid) ==> CountNeverRises(OnPartition(lives, pid))
  }

  /** At some time after `first` more operations are created than end. */
  ghost predicate SurplusAfter(ops: seq<Lifetime>, first: int) {
    exists t :: first < t && CountIf(CreatedAt(t), ops) > CountIf(EndedAt(t), ops)
  }

  /** So they are after the first peak. */
  ghost predicate Surplus(ops: seq<Lifetime>) {
    exists peak, first :: GreatestInFlight(ops, peak) && PeakReached(ops, peak, first) && SurplusAfter(ops, first)
  }

  lemma {:induction false} SurplusIsRise(ops: seq<Lifetime>, first: int)
    requires Sane(ops)
    ensures NeverRises(ops, first) <==> !SurplusAfter(ops, first)
  {
    hide InFlight, CreatedAt, EndedAt;
    if t :| first < t && CountIf(CreatedAt(t), ops) > CountIf(EndedAt(t), ops) {
      InFlightStep(ops, t);
      assert InFlight(ops, t) > InFlight(ops, t - 1);
    } else {
      forall t | first < t ensures InFlight(ops, t) <= InFlight(ops, t - 1) {
        InFlightStep(ops, t);
      }
    }
  }

  lemma {:induction false} DrainAndSurplus(ops: seq<Lifetime>)
    requires Sane(ops)
    ensures CountNeverRises(ops) <==> !Surplus(ops)
    ensures NoCreationAfterPeak(ops) ==> CountNeverRises(ops)
  {
    hide GreatestInFlight, PeakReached, NeverRises, SurplusAfter;
    forall peak, first | GreatestInFlight(ops, peak) && PeakReached(ops, peak, first)
      ensures NeverRises(ops, first) <==> !SurplusAfter(ops, first)
      ensures NoCreationAfterPeak(ops) ==> NeverRises(ops, first)
    {
      SurplusIsRise(ops, first);
      if NoCreationAfterPeak(ops) {
        MonotoneDrainNeverRises(ops, peak, first);
      }
    }
  }

  /** The verdict of a run says exactly that no in-flight count rises again, unless some
      partition sees an operation created after its peak while on every partition, at
      each later time, at least as many operations end as are created. */
  lemma {:induction false} RunVerdictAgrees(lives: seq<Lifetime>)
    requires Sane(lives)
    ensures AllDrain(lives) ==> AllNeverRise(lives)
    ensures (AllDrain(lives) <==> AllNeverRise(lives))
       <==> AllDrain(lives) || exists pid :: Present(lives, pid) && Surplus(OnPartition(lives, pid))
  {
    hide NoCreationAfterPeak, CountNeverRises, Surplus, Present;
    forall pid
      ensures CountNeverRises(OnPartition(lives, pid)) <==> !Surplus(OnPartition(lives, pid))
      ensures NoCreationAfterPeak(OnPartition(lives, pid)) ==> CountNeverRises(OnPartition(lives, pid))
    {
      OnPartitionFacts(lives, pid);
      DrainAndSurplus(OnPartition(lives, pid));
    }
  }

  /** On no partition does a creation share its timestamp with an end. */
  ghost predicate TieFree(lives: seq<Lifetime>) {
    forall i, j :: 0 <= i < |lives| && 0 <= j < |lives| && lives[i].partitionId == lives[j].partitionId ==>
      lives[i].createMs != lives[j].lastMs
  }

  lemma {:induction false} OnPartitionMember(lives: seq<Lifetime>, pid: string, k: nat)
    requires k < |OnPartition(lives, pid)|
    ensures exists i :: 0 <= i < |lives| && lives[i] == OnPartition(lives, pid)[k] && lives[i].partitionId == pid
  {
    var init := lives[..|lives| - 1];
    if k < |OnPartition(init, pid)| {
      OnPartitionMember(init, pid, k);
      var i :| 0 <= i < |init| && init[i] == OnPartition(init, pid)[k] && init[i].partitionId == pid;
      assert lives[i] == init[i];
    } else {
      assert lives[|lives| - 1] == OnPartition(lives, pid)[k];
    }
  }

  /** So the verdict of a run without such ties keeps its promise: MonotoneDrain exactly
      when on no partition the in-flight count rises again after its first peak. */
  lemma {:induction false} TieFreeRun(lives: seq<Lifetime>)
    requires Sane(lives) && TieFree(lives)
    ensures AllDrain(lives) <==> AllNeverRise(lives)
  {
    forall pid ensures NoCreationAfterPeak(OnPartition(lives, pid)) <==> CountNeverRises(OnPartition(lives, pid)) {
      TieFreePartition(lives, pid);
    }
    hide NoCreationAfterPeak, CountNeverRises, Present;
  }

  lemma {:induction false} TieFreePartition(lives: seq<Lifetime>, pid: string)
    requires Sane(lives) && TieFree(lives)
    ensures NoCreationAfterPeak(OnPartition(lives, pid)) <==> CountNeverRises(OnPartition(lives, pid))
  {
    hide GreatestInFlight, PeakReached, NeverRises;
    var ops := OnPartition(lives, pid);
    OnPartitionFacts(lives, pid);
    forall i, j | 0 <= i < |ops| && 0 <= j < |ops| ensures ops[i].createMs != ops[j].lastMs {
      OnPartitionMember(lives, pid, i);
      OnPartitionMember(lives, pid, j);
    }
    forall peak, first | GreatestInFlight(ops, peak) && PeakReached(ops, peak, first)
      ensures NoCreationAfterPeak(ops) <==> NeverRises(ops, first)
    {
      TieFreeVerdict(ops, peak, first);
    }
  }
}
