/** The hybrid logical clock that stamps distributed operations, and the text form
    of its timestamps.

    A cluster run is any interleaving of local events, message receipts and restarts
    of any number of clocks, with arbitrary readings of the physical clocks.  Several
    clocks may carry one node identity, and a restarted clock may merge the greatest
    committed stamp before it stamps anything.  The theorems are about every such
    run: stamps respect causality unless a clock restarts behind its own last stamp,
    a clock that merges what was committed never falls back to it, timestamps are
    distinct exactly when no two clocks share an identity, and a stamp never gets
    ahead of the fastest physical clock by more than the logical counters' overflows
    allow. */
module HybridClock {
  import opened Lists
  import opened Text

  /** Physical milliseconds and the logical counter. */
  datatype Reading = Reading(physical: int, logical: int)

  datatype Timestamp = Timestamp(reading: Reading, nodeId: string)

  /** The order of timestamps before the tie break on node identity. */
  predicate Before(a: Reading, b: Reading) {
    a.physical < b.physical || (a.physical == b.physical && a.logical < b.logical)
  }

  predicate InRange(r: Reading, max: nat) { 0 <= r.logical <= max }

  // ---------- the two clock rules ----------

  /** A counter past its maximum carries into the physical part. */
  function Carry(r: Reading, max: nat): Reading {
    if r.logical > max then Reading(r.physical + 1, 0) else r
  }

  function Tick(r: Reading, max: nat, wall: int): Reading {
    if wall > r.physical then Reading(wall, 0)
    else Carry(Reading(r.physical, r.logical + 1), max)
  }

  function Merge(r: Reading, max: nat, remote: Reading, wall: int): Reading {
    var p := Max(Max(r.physical, remote.physical), wall);
    Carry(
      if p == r.physical && p == remote.physical then Reading(p, Max(r.logical, remote.logical) + 1)
      else if p == r.physical then Reading(p, r.logical + 1)
      else if p == remote.physical then Reading(p, remote.logical + 1)
      else Reading(p, 0), max)
  }

  class Clock {
    const nodeId: string
    const maxLogicalCounter: nat
    var physical: int
    var logical: int

    function Current(): Timestamp
      reads this
    {
      Timestamp(Reading(physical, logical), nodeId)
    }

    ghost predicate Valid()
      reads this
    {
      InRange(Reading(physical, logical), maxLogicalCounter)
    }

    constructor (nodeId: string, wall: int, maxLogicalCounter: nat)
      ensures Valid() && Current() == Timestamp(Reading(wall, 0), nodeId)
      ensures this.maxLogicalCounter == maxLogicalCounter
    {
      this.nodeId, this.maxLogicalCounter := nodeId, maxLogicalCounter;
      physical, logical := wall, 0;
    }

    method Now(wall: int) returns (stamp: Timestamp)
      requires Valid()
      modifies this
      ensures Valid() && stamp == Current()
      ensures stamp.reading == Tick(old(Current().reading), maxLogicalCounter, wall)
      ensures Before(old(Current().reading), stamp.reading) && stamp.reading.physical >= wall
    {
      TickAdvances(Reading(physical, logical), maxLogicalCounter, wall);
      if wall > physical {
        physical := wall;
        logical := 0;
      } else {
        logical := logical + 1;
        if logical > maxLogicalCounter {
          physical := physical + 1;
          logical := 0;
        }
      }
      stamp := Current();
    }

    method Update(remote: Timestamp, wall: int) returns (stamp: Timestamp)
      requires Valid()
      modifies this
      ensures stamp == Current() && (remote.reading.logical >= 0 ==> Valid())
      ensures stamp.reading == Merge(old(Current().reading), maxLogicalCounter, remote.reading, wall)
      ensures Before(old(Current().reading), stamp.reading) && Before(remote.reading, stamp.reading)
      ensures stamp.reading.physical >= wall
    {
      MergeAdvances(Reading(physical, logical), maxLogicalCounter, remote.reading, wall);
      var remotePhy := remote.reading.physical;
      var newPhysical := Max(Max(physical, remotePhy), wall);
      if newPhysical == physical && newPhysical == remotePhy {
        logical := Max(logical, remote.reading.logical) + 1;
      } else if newPhysical == physical {
        logical := logical + 1;
      } else if newPhysical == remotePhy {
        physical := newPhysical;
        logical := remote.reading.logical + 1;
      } else {
        physical := newPhysical;
        logical := 0;
      }
      if logical > maxLogicalCounter {
        physical := physical + 1;
        logical := 0;
      }
      stamp := Current();
    }
  }

  lemma {:induction false} TickAdvances(r: Reading, max: nat, wall: int)
    ensures Before(r, Tick(r, max, wall)) && Tick(r, max, wall).physical >= wall
    ensures InRange(r, max) ==> InRange(Tick(r, max, wall), max)
  {
  }

  /** A merged stamp is after both inputs, whatever the remote counter. */
  lemma {:induction false} MergeAdvances(r: Reading, max: nat, remote: Reading, wall: int)
    ensures Before(r, Merge(r, max, remote, wall)) && Before(remote, Merge(r, max, remote, wall))
    ensures Merge(r, max, remote, wall).physical >= wall
    ensures InRange(r, max) && remote.logical >= 0 ==> InRange(Merge(r, max, remote, wall), max)
  {
  }

  // ---------- warming a restarted clock ----------

  /** The greater of two stamps, the first where the readings are equal. */
  function MaxOf(current: Option<Timestamp>, candidate: Option<Timestamp>): Option<Timestamp> {
    if candidate.None? then current
    else if current.None? || Before(current.value.reading, candidate.value.reading) then candidate
    else current
  }

  /** Merges the greatest readable stamp of the committed commands and of the compacted
      snapshot into a new clock: it is then after every one of them. */
  method WarmFromWitnesses(clock: Clock, commands: seq<Option<Timestamp>>, compacted: Option<Timestamp>, wall: int)
    returns (merged: Option<Timestamp>)
    requires clock.Valid()
    modifies clock
    ensures merged.None? ==> clock.Current() == old(clock.Current())
    ensures merged.Some? ==>
              var before := old(clock.Current().reading);
              clock.Current().reading == Merge(before, clock.maxLogicalCounter, merged.value.reading, wall)
    ensures merged.None? || merged.value.reading.logical >= 0 ==> clock.Valid()
    ensures merged.Some? <==> compacted.Some? || exists i :: 0 <= i < |commands| && commands[i].Some?
    ensures merged.Some? ==> merged == compacted || merged in commands
    ensures forall w: Option<Timestamp> :: w.Some? && (w == compacted || w in commands) ==>
              !Before(merged.value.reading, w.value.reading) && Before(w.value.reading, clock.Current().reading)
  {
    merged := None;
    for i := 0 to |commands|
      invariant merged.Some? <==> exists k :: 0 <= k < i && commands[k].Some?
      invariant merged.Some? ==> merged in commands[..i]
      invariant forall k :: 0 <= k < i && commands[k].Some? ==> !Before(merged.value.reading, commands[k].value.reading)
    {
      merged := MaxOf(merged, commands[i]);
    }
    merged := MaxOf(merged, compacted);
    if merged.Some? {
      var stamp := clock.Update(merged.value, wall);
    }
  }

  // ---------- cluster runs ----------

  /** A restart: the physical clock when the new clock was built, and the merge of the
      stamp of an earlier event at a later reading, if anything was committed. */
  datatype Boot = Boot(start: int, seen: Option<nat>, wall: int)

  /** One event: stamped by `clock`, with the physical clock reading `wall`; either local,
      or the receipt of a message stamped by the event with index `from`.  The clock may
      have been restarted since its last event. */
  datatype Step = Step(clock: string, wall: int, from: Option<nat>, boot: Option<Boot>)

  /** The reading each clock was created with, its counter limit, and the node identity
      that its timestamps carry. */
  datatype Config = Config(start: string -> int, max: string -> nat, nodeId: string -> string)

  /** The index of the latest of the first `i` steps on a clock, or -1. */
  function LatestOn(steps: seq<Step>, i: nat, name: string): (j: int)
    requires i <= |steps|
    ensures -1 <= j < i
    ensures j >= 0 ==> steps[j].clock == name
    ensures forall k :: j < k < i ==> steps[k].clock != name
  {
    if i == 0 then -1
    else if steps[i - 1].clock == name then i - 1
    else LatestOn(steps, i - 1, name)
  }

  /** The step with index `i` receives and merges stamps of earlier events only. */
  predicate Arrives(step: Step, i: nat) {
    && (step.from.Some? ==> step.from.value < i)
    && (step.boot.Some? && step.boot.value.seen.Some? ==> step.boot.value.seen.value < i)
  }

  ghost predicate Delivered(steps: seq<Step>) {
    forall i :: 0 <= i < |steps| ==> Arrives(steps[i], i)
  }

  /** The reading of a restarted clock before its first event. */
  function Started(boot: Boot, max: nat, stamps: seq<Reading>): Reading
    requires boot.seen.Some? ==> boot.seen.value < |stamps|
  {
    match boot.seen
    case None => Reading(boot.start, 0)
    case Some(e) => Merge(Reading(boot.start, 0), max, stamps[e], boot.wall)
  }

  /** The clock of step `i` just before it. */
  function ClockBefore(cfg: Config, steps: seq<Step>, stamps: seq<Reading>, i: nat): Reading
    requires i < |steps| == |stamps| && Arrives(steps[i], i)
  {
    var j := LatestOn(steps, i, steps[i].clock);
    if steps[i].boot.Some? then Started(steps[i].boot.value, cfg.max(steps[i].clock), stamps)
    else if j < 0 then Reading(cfg.start(steps[i].clock), 0)
    else stamps[j]
  }

  function Stamp(cfg: Config, steps: seq<Step>, stamps: seq<Reading>, i: nat): Reading
    requires i < |steps| == |stamps| && Arrives(steps[i], i)
  {
    var clock, max := ClockBefore(cfg, steps, stamps, i), cfg.max(steps[i].clock);
    match steps[i].from
    case None => Tick(clock, max, steps[i].wall)
    case Some(k) => Merge(clock, max, stamps[k], steps[i].wall)
  }

  /** `stamps` are the readings that the clocks give to the events of a run. */
  ghost predicate IsRun(cfg: Config, steps: seq<Step>, stamps: seq<Reading>) {
    && |stamps| == |steps| && Delivered(steps)
    && forall i :: 0 <= i < |steps| ==> stamps[i] == Stamp(cfg, steps, stamps, i)
  }

  lemma {:induction false} StampAfterClock(cfg: Config, steps: seq<Step>, stamps: seq<Reading>, j: nat)
    requires IsRun(cfg, steps, stamps) && j < |steps|
    ensures Before(ClockBefore(cfg, steps, stamps, j), stamps[j])
    ensures steps[j].from.Some? ==> Before(stamps[steps[j].from.value], stamps[j])
    ensures stamps[j].physical >= steps[j].wall
  {
    var clock, max := ClockBefore(cfg, steps, stamps, j), cfg.max(steps[j].clock);
    if steps[j].from.None? {
      TickAdvances(clock, max, steps[j].wall);
    } else {
      MergeAdvances(clock, max, stamps[steps[j].from.value], steps[j].wall);
    }
  }

  /** A restarted clock is past what it merged before its first event. */
  lemma {:induction false} WarmBootPasses(cfg: Config, steps: seq<Step>, stamps: seq<Reading>, j: nat)
    requires IsRun(cfg, steps, stamps) && j < |steps|
    requires steps[j].boot.Some? && steps[j].boot.value.seen.Some?
    ensures var seen := stamps[steps[j].boot.value.seen.value];
            Before(seen, ClockBefore(cfg, steps, stamps, j)) && Before(seen, stamps[j])
  {
    hide Stamp;
    var boot := steps[j].boot.value;
    MergeAdvances(Reading(boot.start, 0), cfg.max(steps[j].clock), stamps[boot.seen.value], boot.wall);
    StampAfterClock(cfg, steps, stamps, j);
  }

  // ---------- causality ----------

  /** A restart does not fall behind the last stamp of the clock. */
  ghost predicate SafeBoot(cfg: Config, steps: seq<Step>, stamps: seq<Reading>, i: nat)
    requires i < |steps| == |stamps| && Arrives(steps[i], i)
  {
    var j := LatestOn(steps, i, steps[i].clock);
    steps[i].boot.Some? && j >= 0 ==> !Before(ClockBefore(cfg, steps, stamps, i), stamps[j])
  }

  ghost predicate SafeBoots(cfg: Config, steps: seq<Step>, stamps: seq<Reading>)
    requires |steps| == |stamps| && Delivered(steps)
  {
    forall i :: 0 <= i < |steps| ==> SafeBoot(cfg, steps, stamps, i)
  }

  /** In particular clocks that are never restarted are safe. */
  lemma {:induction false} NeverRestarted(cfg: Config, steps: seq<Step>, stamps: seq<Reading>)
    requires |steps| == |stamps| && Delivered(steps) && forall i :: 0 <= i < |steps| ==> steps[i].boot.None?
    ensures SafeBoots(cfg, steps, stamps)
  {
  }

  /** The direct causes: an earlier event of the same clock, the sending event, or the
      committed event that a restart has merged. */
  predicate Causes(steps: seq<Step>, i: nat, j: nat)
    requires i < |steps| && j < |steps|
  {
    && i < j
    && (|| steps[i].clock == steps[j].clock || steps[j].from == Some(i)
        || (steps[j].boot.Some? && steps[j].boot.value.seen == Some(i)))
  }

  /** The happened-before relation of a run. */
  ghost predicate HappensBefore(steps: seq<Step>, i: nat, j: nat)
    requires i < |steps| && j < |steps|
    decreases j
  {
    || Causes(steps, i, j)
    || exists k: nat :: i < k < j && HappensBefore(steps, i, k) && Causes(steps, k, j)
  }

  lemma {:induction false} ClockOrder(cfg: Config, steps: seq<Step>, stamps: seq<Reading>, i: nat, j: nat)
    requires IsRun(cfg, steps, stamps) && SafeBoots(cfg, steps, stamps)
    requires i < j < |steps| && steps[i].clock == steps[j].clock
    ensures Before(stamps[i], stamps[j])
    decreases j
  {
    hide Stamp, Started;
    var k := LatestOn(steps, j, steps[j].clock);
    StampAfterClock(cfg, steps, stamps, j);
    assert SafeBoot(cfg, steps, stamps, j);
    assert Before(stamps[k], stamps[j]);
    if i < k {
      ClockOrder(cfg, steps, stamps, i, k);
    }
  }

  lemma {:induction false} DirectCause(cfg: Config, steps: seq<Step>, stamps: seq<Reading>, i: nat, j: nat)
    requires IsRun(cfg, steps, stamps) && SafeBoots(cfg, steps, stamps)
    requires i < |steps| && j < |steps| && Causes(steps, i, j)
    ensures Before(stamps[i], stamps[j])
  {
    hide Stamp, Started;
    if steps[i].clock == steps[j].clock {
      ClockOrder(cfg, steps, stamps, i, j);
    } else if steps[j].from == Some(i) {
      StampAfterClock(cfg, steps, stamps, j);
    } else {
      WarmBootPasses(cfg, steps, stamps, j);
    }
  }

  /** In every run without an unsafe restart, an event that happened before another has
      the smaller stamp. */
  lemma {:induction false} Causality(cfg: Config, steps: seq<Step>, stamps: seq<Reading>, i: nat, j: nat)
    requires IsRun(cfg, steps, stamps) && SafeBoots(cfg, steps, stamps) && i < |steps| && j < |steps|
    requires HappensBefore(steps, i, j)
    ensures Before(stamps[i], stamps[j])
    decreases j
  {
    hide IsRun, SafeBoots;
    if Causes(steps, i, j) {
      DirectCause(cfg, steps, stamps, i, j);
    } else {
      var k: nat :| i < k < j && HappensBefore(steps, i, k) && Causes(steps, k, j);
      Causality(cfg, steps, stamps, i, k);
      DirectCause(cfg, steps, stamps, k, j);
    }
  }

  // ---------- what was committed stays behind ----------

  /** Restart `b` has merged a stamp that is not behind `r`. */
  ghost predicate Witnesses(steps: seq<Step>, stamps: seq<Reading>, b: nat, r: Reading)
    requires b < |steps| == |stamps| && Arrives(steps[b], b)
  {
    steps[b].boot.Some? ==>
      steps[b].boot.value.seen.Some? && !Before(stamps[steps[b].boot.value.seen.value], r)
  }

  /** A clock that is past a reading stays past it, through any restarts that do not
      start behind it. */
  lemma {:induction false} NeverFallsBack(
    cfg: Config, steps: seq<Step>, stamps: seq<Reading>, r: Reading, i: nat, k: nat)
    requires IsRun(cfg, steps, stamps) && i <= k < |steps| && steps[i].clock == steps[k].clock
    requires Before(r, stamps[i])
    requires forall b :: i < b <= k && steps[b].clock == steps[i].clock && steps[b].boot.Some? ==>
               !Before(ClockBefore(cfg, steps, stamps, b), r)
    ensures Before(r, stamps[k])
    decreases k
  {
    if i < k {
      hide Stamp, Started;
      StampAfterClock(cfg, steps, stamps, k);
      if steps[k].boot.None? {
        NeverFallsBack(cfg, steps, stamps, r, i, LatestOn(steps, k, steps[k].clock));
      }
    }
  }

  /** After a restart that merges a stamp not behind `r`, and through any later restarts
      that do, no stamp of the clock comes back to `r`, whatever the physical clock. */
  lemma {:induction false} WitnessedStaysBehind(
    cfg: Config, steps: seq<Step>, stamps: seq<Reading>, r: Reading, i: nat, k: nat)
    requires IsRun(cfg, steps, stamps) && i <= k < |steps| && steps[i].clock == steps[k].clock && steps[i].boot.Some?
    requires forall b :: i <= b <= k && steps[b].clock == steps[i].clock ==> Witnesses(steps, stamps, b, r)
    ensures Before(r, stamps[k])
  {
    hide Stamp, Started;
    forall b | i <= b <= k && steps[b].clock == steps[i].clock && steps[b].boot.Some?
      ensures Before(r, ClockBefore(cfg, steps, stamps, b))
    {
      assert Witnesses(steps, stamps, b, r);
      WarmBootPasses(cfg, steps, stamps, b);
    }
    StampAfterClock(cfg, steps, stamps, i);
    NeverFallsBack(cfg, steps, stamps, r, i, k);
  }

  /** Every restart merges the greatest stamp of the events committed by then, if there
      are any, and what is committed stays committed. */
  ghost predicate WarmRestarts(steps: seq<Step>, stamps: seq<Reading>, committed: nat -> set<nat>)
    requires |steps| == |stamps| && Delivered(steps)
  {
    && (forall a, b :: a <= b ==> committed(a) <= committed(b))
    && (forall b, e :: 0 <= b < |steps| && e in committed(b) ==> Covers(steps, stamps, b, e))
  }

  /** Event `e` is earlier than `b`, and `b`, if it is a restart, has merged a stamp not
      behind that of `e`. */
  ghost predicate Covers(steps: seq<Step>, stamps: seq<Reading>, b: nat, e: nat)
    requires b < |steps| == |stamps| && Arrives(steps[b], b)
  {
    e < b && Witnesses(steps, stamps, b, stamps[e])
  }

  /** A restarted clock never issues a stamp at or below one that was committed before
      the restart, whichever clock had issued that one. */
  lemma {:induction false} CommittedNeverRepeated(
    cfg: Config, steps: seq<Step>, stamps: seq<Reading>, committed: nat -> set<nat>, e: nat, i: nat, k: nat)
    requires IsRun(cfg, steps, stamps) && WarmRestarts(steps, stamps, committed)
    requires i <= k < |steps| && steps[i].clock == steps[k].clock && steps[i].boot.Some? && e in committed(i)
    ensures e < i && Before(stamps[e], stamps[k])
  {
    hide Stamp, Started, ClockBefore;
    assert Covers(steps, stamps, i, e);
    forall b | i <= b <= k && steps[b].clock == steps[i].clock ensures Witnesses(steps, stamps, b, stamps[e]) {
      assert committed(i) <= committed(b);
      assert Covers(steps, stamps, b, e);
    }
    WitnessedStaysBehind(cfg, steps, stamps, stamps[e], i, k);
  }

  // ---------- distinct timestamps ----------

  function TimestampOf(cfg: Config, steps: seq<Step>, stamps: seq<Reading>, i: nat): Timestamp
    requires i < |steps| == |stamps|
  {
    Timestamp(stamps[i], cfg.nodeId(steps[i].clock))
  }

  /** Two events of a run without an unsafe restart carry different timestamps, unless
      they were stamped by two clocks with one node identity. */
  lemma {:induction false} StampsDistinct(cfg: Config, steps: seq<Step>, stamps: seq<Reading>, i: nat, j: nat)
    requires IsRun(cfg, steps, stamps) && SafeBoots(cfg, steps, stamps) && i < j < |steps|
    requires cfg.nodeId(steps[i].clock) == cfg.nodeId(steps[j].clock) ==> steps[i].clock == steps[j].clock
    ensures TimestampOf(cfg, steps, stamps, i) != TimestampOf(cfg, steps, stamps, j)
  {
    if steps[i].clock == steps[j].clock {
      hide Stamp, Started;
      ClockOrder(cfg, steps, stamps, i, j);
    }
  }

  /** A run of some of the clocks, without unsafe restarts. */
  ghost predicate SafeRun(cfg: Config, clocks: set<string>, steps: seq<Step>, stamps: seq<Reading>) {
    && IsRun(cfg, steps, stamps) && SafeBoots(cfg, steps, stamps)
    && forall i :: 0 <= i < |steps| ==> steps[i].clock in clocks
  }

  ghost predicate AllDistinct(cfg: Config, steps: seq<Step>, stamps: seq<Reading>)
    requires |steps| == |stamps|
  {
    forall i, j :: 0 <= i < j < |steps| ==> TimestampOf(cfg, steps, stamps, i) != TimestampOf(cfg, steps, stamps, j)
  }

  ghost predicate AlwaysDistinct(cfg: Config, clocks: set<string>) {
    forall steps, stamps :: SafeRun(cfg, clocks, steps, stamps) ==> AllDistinct(cfg, steps, stamps)
  }

  /** Two clocks with one node identity give one timestamp to two events, as soon as both
      read the same physical time ahead of themselves. */
  lemma {:induction false} SharedIdentityCollides(cfg: Config, c: string, d: string)
    returns (steps: seq<Step>, stamps: seq<Reading>)
    requires c != d && cfg.nodeId(c) == cfg.nodeId(d)
    ensures SafeRun(cfg, {c, d}, steps, stamps) && !AllDistinct(cfg, steps, stamps)
  {
    var wall := Max(cfg.start(c), cfg.start(d)) + 1;
    steps := [Step(c, wall, None, None), Step(d, wall, None, None)];
    stamps := [Reading(wall, 0), Reading(wall, 0)];
    assert LatestOn(steps, 0, c) == -1 && LatestOn(steps, 1, d) == -1;
    assert stamps[0] == Stamp(cfg, steps, stamps, 0) && stamps[1] == Stamp(cfg, steps, stamps, 1);
    NeverRestarted(cfg, steps, stamps);
    assert TimestampOf(cfg, steps, stamps, 0) == TimestampOf(cfg, steps, stamps, 1);
  }

  /** The timestamps of all runs of some clocks are distinct exactly when no two of the
      clocks carry one node identity. */
  lemma {:induction false} DistinctExactly(cfg: Config, clocks: set<string>)
    ensures AlwaysDistinct(cfg, clocks)
       <==> forall c, d :: c in clocks && d in clocks && cfg.nodeId(c) == cfg.nodeId(d) ==> c == d
  {
    hide Stamp, Started, ClockBefore;
    if c, d :| c in clocks && d in clocks && cfg.nodeId(c) == cfg.nodeId(d) && c != d {
      var steps, stamps := SharedIdentityCollides(cfg, c, d);
      assert SafeRun(cfg, clocks, steps, stamps);
    } else {
      forall steps, stamps | SafeRun(cfg, clocks, steps, stamps) ensures AllDistinct(cfg, steps, stamps) {
        forall i, j | 0 <= i < j < |steps|
          ensures TimestampOf(cfg, steps, stamps, i) != TimestampOf(cfg, steps, stamps, j)
        {
          StampsDistinct(cfg, steps, stamps, i, j);
        }
      }
    }
  }

  /** The same with two clock objects. */
  method TwoClocksOneIdentity(nodeId: string, start: int, max: nat, max': nat, wall: int)
    returns (a: Timestamp, b: Timestamp)
    requires wall > start
    ensures a == b == Timestamp(Reading(wall, 0), nodeId)
  {
    var first := new Clock(nodeId, start, max);
    var second := new Clock(nodeId, start, max');
    a := first.Now(wall);
    b := second.Now(wall);
  }

  // ---------- how far a clock runs ahead ----------

  /** A reading as one number; each clock rule adds one to the greater rank or
      restarts from the wall clock. */
  function Rank(r: Reading, max: nat): int { r.physical * (max + 1) + r.logical }

  lemma {:induction false} CarryRank(r: Reading, max: nat)
    requires InRange(r, max)
    ensures Rank(Carry(Reading(r.physical, r.logical + 1), max), max) == Rank(r, max) + 1
  {
    assert (r.physical + 1) * (max + 1) == r.physical * (max + 1) + (max + 1);
  }

  lemma {:induction false} MulMonotone(a: int, b: int, m: nat)
    requires a <= b
    ensures a * m <= b * m
  {
    assert (b - a) * m >= 0;
  }

  /** The order of readings in range is the order of their ranks. */
  lemma {:induction false} RankOrder(a: Reading, b: Reading, max: nat)
    requires InRange(a, max) && InRange(b, max)
    ensures Before(a, b) <==> Rank(a, max) < Rank(b, max)
  {
    if a.physical < b.physical {
      MulMonotone(a.physical + 1, b.physical, max + 1);
      CarryRank(Reading(a.physical, max), max);
    } else if b.physical < a.physical {
      MulMonotone(b.physical + 1, a.physical, max + 1);
      CarryRank(Reading(b.physical, max), max);
    }
  }

  /** A reading as one number for a limit below all counter limits: the counter counts
      up to `m` only. */
  function Level(r: Reading, m: nat): int { r.physical * (m + 1) + if r.logical < m then r.logical else m }

  lemma {:induction false} CarryLevel(r: Reading, max: nat, m: nat)
    requires 0 <= r.logical && m <= max
    ensures Level(Carry(Reading(r.physical, r.logical + 1), max), m) <= Level(r, m) + 1
  {
    assert (r.physical + 1) * (m + 1) == r.physical * (m + 1) + (m + 1);
  }

  lemma {:induction false} LevelOrder(r: Reading, remote: Reading, max: nat, m: nat)
    requires 0 <= r.logical && 0 <= remote.logical && m <= max
    ensures var carried := Carry(Reading(r.physical, Max(r.logical, remote.logical) + 1), max);
            r.physical == remote.physical ==> Level(carried, m) <= Max(Level(r, m), Level(remote, m)) + 1
  {
    CarryLevel(r, max, m);
    CarryLevel(remote, max, m);
  }

  lemma {:induction false} TickLevel(r: Reading, max: nat, wall: int, m: nat)
    requires 0 <= r.logical && m <= max
    ensures Level(Tick(r, max, wall), m) <= Max(Level(Reading(wall, 0), m), Level(r, m) + 1)
  {
    if wall <= r.physical {
      CarryLevel(r, max, m);
    }
  }

  lemma {:induction false} MergeLevel(r: Reading, max: nat, remote: Reading, wall: int, m: nat)
    requires 0 <= r.logical && 0 <= remote.logical && m <= max
    ensures Level(Merge(r, max, remote, wall), m)
         <= Max(Level(Reading(wall, 0), m), Max(Level(r, m), Level(remote, m)) + 1)
  {
    hide Level;
    CarryLevel(r, max, m);
    CarryLevel(remote, max, m);
    LevelOrder(r, remote, max, m);
  }

  /** `top` bounds every physical clock reading of the first `n` events, and `m` is no
      more than the counter limits of their clocks. */
  ghost predicate Bounds(cfg: Config, steps: seq<Step>, n: nat, m: nat, top: int)
    requires n <= |steps|
  {
    forall i :: 0 <= i < n ==>
      && cfg.start(steps[i].clock) <= top && steps[i].wall <= top
      && (steps[i].boot.Some? ==> steps[i].boot.value.start <= top && steps[i].boot.value.wall <= top)
      && m <= cfg.max(steps[i].clock)
  }

  predicate IsWarm(step: Step) { step.boot.Some? && step.boot.value.seen.Some? }

  /** How often a clock was moved by the first `n` events and the merges of restarts. */
  function Moves(steps: seq<Step>, n: nat): nat
    requires n <= |steps|
  {
    if n == 0 then 0 else Moves(steps, n - 1) + 1 + if IsWarm(steps[n - 1]) then 1 else 0
  }

  lemma {:induction false} MovesGrow(steps: seq<Step>, a: nat, b: nat)
    requires a <= b <= |steps|
    ensures Moves(steps, a) + (b - a) <= Moves(steps, b)
  {
    if a < b {
      MovesGrow(steps, a, b - 1);
    }
  }

  lemma {:induction false} StampLevel(clock: Reading, max: nat, remote: Option<Reading>, wall: int, m: nat, bound: int)
    requires 0 <= clock.logical && m <= max && Level(clock, m) < bound && Level(Reading(wall, 0), m) <= bound
    requires remote.Some? ==> 0 <= remote.value.logical && Level(remote.value, m) < bound
    ensures var r := if remote.None? then Tick(clock, max, wall) else Merge(clock, max, remote.value, wall);
            Level(r, m) <= bound
  {
    hide Level, Tick, Merge;
    if remote.None? {
      TickLevel(clock, max, wall, m);
    } else {
      MergeLevel(clock, max, remote.value, wall, m);
    }
  }

  /** The counters of a run stay within the limits of their clocks. */
  lemma {:induction false} StampInRange(cfg: Config, steps: seq<Step>, stamps: seq<Reading>, i: nat)
    requires IsRun(cfg, steps, stamps) && i < |steps|
    ensures InRange(stamps[i], cfg.max(steps[i].clock))
  {
    hide Tick, Merge;
    var step, clock, max := steps[i], ClockBefore(cfg, steps, stamps, i), cfg.max(steps[i].clock);
    var j := LatestOn(steps, i, step.clock);
    if j >= 0 {
      StampInRange(cfg, steps, stamps, j);
    }
    if IsWarm(step) {
      var e := step.boot.value.seen.value;
      StampInRange(cfg, steps, stamps, e);
      MergeAdvances(Reading(step.boot.value.start, 0), max, stamps[e], step.boot.value.wall);
    }
    if step.from.None? {
      TickAdvances(clock, max, step.wall);
    } else {
      StampInRange(cfg, steps, stamps, step.from.value);
      MergeAdvances(clock, max, stamps[step.from.value], step.wall);
    }
  }

  lemma {:induction false} ClockInRange(cfg: Config, steps: seq<Step>, stamps: seq<Reading>, i: nat)
    requires IsRun(cfg, steps, stamps) && i < |steps|
    ensures InRange(ClockBefore(cfg, steps, stamps, i), cfg.max(steps[i].clock))
  {
    hide Merge, Tick;
    var step, j := steps[i], LatestOn(steps, i, steps[i].clock);
    if j >= 0 {
      StampInRange(cfg, steps, stamps, j);
    }
    if IsWarm(step) {
      var e := step.boot.value.seen.value;
      StampInRange(cfg, steps, stamps, e);
      MergeAdvances(Reading(step.boot.value.start, 0), cfg.max(step.clock), stamps[e], step.boot.value.wall);
    }
  }

  /** A restarted clock is one move past the stamp it merged. */
  lemma {:induction false} StartedLevel(boot: Boot, max: nat, stamps: seq<Reading>, m: nat, top: int, bound: int)
    requires boot.start <= top && boot.wall <= top && m <= max && top * (m + 1) < bound
    requires boot.seen.Some? ==>
               boot.seen.value < |stamps| && 0 <= stamps[boot.seen.value].logical
               && Level(stamps[boot.seen.value], m) < bound
    ensures Level(Started(boot, max, stamps), m) <= bound
    ensures boot.seen.None? ==> Level(Started(boot, max, stamps), m) <= top * (m + 1)
  {
    hide Level, Merge;
    WallLevel(boot.start, top, m);
    WallLevel(boot.wall, top, m);
    if boot.seen.Some? {
      MergeLevel(Reading(boot.start, 0), max, stamps[boot.seen.value], boot.wall, m);
    }
  }

  lemma {:induction false} ClockLevel(cfg: Config, steps: seq<Step>, stamps: seq<Reading>, i: nat, m: nat, top: int)
    requires IsRun(cfg, steps, stamps) && i < |steps| && Bounds(cfg, steps, i + 1, m, top)
    ensures Level(ClockBefore(cfg, steps, stamps, i), m) < top * (m + 1) + Moves(steps, i + 1)
    decreases i, 0
  {
    hide Level, Stamp, Started;
    var step, max := steps[i], cfg.max(steps[i].clock);
    var j := LatestOn(steps, i, step.clock);
    if step.boot.Some? {
      var boot := step.boot.value;
      if boot.seen.Some? {
        var e := boot.seen.value;
        StampInRange(cfg, steps, stamps, e);
        LevelBound(cfg, steps, stamps, e, m, top);
        MovesGrow(steps, e + 1, i);
      }
      StartedLevel(boot, max, stamps, m, top, top * (m + 1) + Moves(steps, i) + 1);
    } else if j < 0 {
      WallLevel(cfg.start(step.clock), top, m);
    } else {
      LevelBound(cfg, steps, stamps, j, m, top);
      MovesGrow(steps, j + 1, i);
    }
  }

  lemma {:induction false} LevelBound(cfg: Config, steps: seq<Step>, stamps: seq<Reading>, i: nat, m: nat, top: int)
    requires IsRun(cfg, steps, stamps) && i < |steps| && Bounds(cfg, steps, i + 1, m, top)
    ensures Level(stamps[i], m) <= top * (m + 1) + Moves(steps, i + 1)
    decreases i, 1
  {
    hide Level, Tick, Merge;
    var step, clock, max := steps[i], ClockBefore(cfg, steps, stamps, i), cfg.max(steps[i].clock);
    var bound := top * (m + 1) + Moves(steps, i + 1);
    ClockInRange(cfg, steps, stamps, i);
    ClockLevel(cfg, steps, stamps, i, m, top);
    WallLevel(step.wall, top, m);
    if step.from.None? {
      StampLevel(clock, max, None, step.wall, m, bound);
    } else {
      var k := step.from.value;
      StampInRange(cfg, steps, stamps, k);
      LevelBound(cfg, steps, stamps, k, m, top);
      MovesGrow(steps, k + 1, i + 1);
      StampLevel(clock, max, Some(stamps[k]), step.wall, m, bound);
    }
  }

  lemma {:induction false} WallLevel(wall: int, top: int, m: nat)
    requires wall <= top
    ensures Level(Reading(wall, 0), m) <= top * (m + 1)
  {
    MulMonotone(wall, top, m + 1);
  }

  lemma {:induction false} MulCancel(a: int, b: int, m: nat)
    requires a * m < b * m
    ensures a < b
  {
    if b <= a {
      MulMonotone(b, a, m);
    }
  }

  lemma {:induction false} LevelToPhysical(r: Reading, m: nat, top: int, n: nat)
    requires 0 <= r.logical && Level(r, m) <= top * (m + 1) + n
    ensures r.physical <= top + n / (m + 1)
  {
    var q := n / (m + 1);
    assert n < (q + 1) * (m + 1);
    assert (top + q + 1) * (m + 1) == top * (m + 1) + (q + 1) * (m + 1);
    MulCancel(r.physical, top + q + 1, m + 1);
  }

  /** The stamp of the event with index `i` lies between its own wall clock and the
      fastest wall clock so far plus one millisecond for every `m + 1` moves of a clock,
      where `m` is the least counter limit. */
  lemma {:induction false} RunAheadBound(
    cfg: Config, steps: seq<Step>, stamps: seq<Reading>, i: nat, m: nat, top: int)
    requires IsRun(cfg, steps, stamps) && i < |steps| && Bounds(cfg, steps, i + 1, m, top)
    ensures steps[i].wall <= stamps[i].physical <= top + Moves(steps, i + 1) / (m + 1)
    ensures InRange(stamps[i], cfg.max(steps[i].clock))
  {
    StampInRange(cfg, steps, stamps, i);
    LevelBound(cfg, steps, stamps, i, m, top);
    LevelToPhysical(stamps[i], m, top, Moves(steps, i + 1));
    StampAfterClock(cfg, steps, stamps, i);
  }

  /** Without merges on restart every move is an event. */
  lemma {:induction false} MovesAreEvents(steps: seq<Step>, n: nat)
    requires n <= |steps| && forall i :: 0 <= i < n ==> !IsWarm(steps[i])
    ensures Moves(steps, n) == n
  {
    if n > 0 {
      MovesAreEvents(steps, n - 1);
    }
  }

  /** With equal limits the bound is one on the rank, counter and all. */
  lemma {:induction false} EqualLimitsBound(
    cfg: Config, steps: seq<Step>, stamps: seq<Reading>, i: nat, max: nat, top: int)
    requires IsRun(cfg, steps, stamps) && i < |steps| && Bounds(cfg, steps, i + 1, max, top)
    requires cfg.max(steps[i].clock) == max
    ensures Rank(stamps[i], max) <= top * (max + 1) + Moves(steps, i + 1)
  {
    StampInRange(cfg, steps, stamps, i);
    LevelBound(cfg, steps, stamps, i, max, top);
  }

  lemma {:induction false} FrozenTick(clock: Reading, max: nat, wall: int)
    requires InRange(clock, max) && clock.physical >= wall
    ensures var r := Tick(clock, max, wall);
            Rank(r, max) == Rank(clock, max) + 1 && InRange(r, max) && r.physical >= wall
  {
    CarryRank(clock, max);
  }

  /** Up to event `i` a single clock works alone with a physical clock that stands still. */
  ghost predicate Frozen(cfg: Config, steps: seq<Step>, i: nat, wall: int) {
    && i < |steps|
    && (forall k :: 0 <= k <= i ==>
          && steps[k].clock == steps[0].clock && steps[k].from.None? && steps[k].boot.None?
          && steps[k].wall == wall)
    && cfg.start(steps[0].clock) == wall
  }

  lemma {:induction false} FrozenStamp(cfg: Config, steps: seq<Step>, stamps: seq<Reading>, i: nat, max: nat, wall: int)
    requires |steps| > 0 && cfg.max(steps[0].clock) == max
    requires IsRun(cfg, steps, stamps) && Frozen(cfg, steps, i, wall)
    ensures stamps[i] == Tick(if i == 0 then Reading(wall, 0) else stamps[i - 1], max, wall)
  {
    hide Tick;
    var j := LatestOn(steps, i, steps[i].clock);
    assert j == i - 1;
  }

  /** The bound is tight: a clock whose physical clock stands still reaches it. */
  lemma {:induction false} FrozenClock(cfg: Config, steps: seq<Step>, stamps: seq<Reading>, i: nat, max: nat, wall: int)
    requires |steps| > 0 && cfg.max(steps[0].clock) == max
    requires |stamps| == |steps| && IsRun(cfg, steps, stamps) && Frozen(cfg, steps, i, wall)
    ensures Rank(stamps[i], max) == Rank(Reading(wall, 0), max) + i + 1
    ensures InRange(stamps[i], max) && stamps[i].physical >= wall
  {
    hide IsRun, Tick, Rank;
    FrozenStamp(cfg, steps, stamps, i, max, wall);
    if i > 0 {
      assert Frozen(cfg, steps, i - 1, wall);
      FrozenClock(cfg, steps, stamps, i - 1, max, wall);
      FrozenTick(stamps[i - 1], max, wall);
    } else {
      FrozenTick(Reading(wall, 0), max, wall);
    }
  }

  // ---------- runs exist ----------

  lemma {:induction false} LatestLocal(steps: seq<Step>, more: seq<Step>, i: nat, name: string)
    requires i <= |steps|
    ensures LatestOn(steps + more, i, name) == LatestOn(steps, i, name)
  {
    if i > 0 {
      LatestLocal(steps, more, i - 1, name);
    }
  }

  lemma {:induction false} StampLocal(
    cfg: Config, steps: seq<Step>, stamps: seq<Reading>, more: Step, last: Reading, i: nat)
    requires i < |steps| == |stamps| && Arrives(steps[i], i)
    ensures Stamp(cfg, steps + [more], stamps + [last], i) == Stamp(cfg, steps, stamps, i)
  {
    hide Tick, Merge;
    LatestLocal(steps, [more], i, steps[i].clock);
  }

  /** A run goes on with any step that receives and merges earlier stamps only. */
  lemma {:induction false} RunExtends(
    cfg: Config, steps: seq<Step>, stamps: seq<Reading>, step: Step) returns (last: Reading)
    requires IsRun(cfg, steps, stamps) && Arrives(step, |steps|)
    ensures IsRun(cfg, steps + [step], stamps + [last])
    ensures last == Stamp(cfg, steps + [step], stamps + [last], |steps|)
  {
    var n := |steps|;
    last := Stamp(cfg, steps + [step], stamps + [Reading(0, 0)], n);
    StampOfLast(cfg, steps, stamps, step, last);
    forall i | 0 <= i <= n ensures (stamps + [last])[i] == Stamp(cfg, steps + [step], stamps + [last], i) {
      if i < n {
        StampLocal(cfg, steps, stamps, step, last, i);
        assert stamps[i] == Stamp(cfg, steps, stamps, i);
      }
    }
  }

  lemma {:induction false} StampOfLast(cfg: Config, steps: seq<Step>, stamps: seq<Reading>, step: Step, last: Reading)
    requires |stamps| == |steps| && Arrives(step, |steps|)
    ensures Stamp(cfg, steps + [step], stamps + [last], |steps|)
         == Stamp(cfg, steps + [step], stamps + [Reading(0, 0)], |steps|)
  {
    hide Tick, Merge;
  }

  /** Every delivered sequence of steps has a run: stamps depend on earlier stamps only. */
  lemma {:induction false} RunExists(cfg: Config, steps: seq<Step>) returns (stamps: seq<Reading>)
    requires Delivered(steps)
    ensures IsRun(cfg, steps, stamps)
  {
    if steps == [] {
      stamps := [];
    } else {
      hide Stamp;
      var n := |steps| - 1;
      assert steps == steps[..n] + [steps[n]];
      var before := RunExists(cfg, steps[..n]);
      var last := RunExtends(cfg, steps[..n], before, steps[n]);
      stamps := before + [last];
    }
  }

  // ---------- restarts ----------

  /** A clock after local events at the given physical times. */
  function Ticks(r: Reading, max: nat, walls: seq<int>): Reading {
    if walls == [] then r else Tick(Ticks(r, max, walls[..|walls| - 1]), max, walls[|walls| - 1])
  }

  /** From the start of a millisecond a clock that stands still reaches every counter. */
  lemma {:induction false} TicksReach(start: Reading, max: nat, n: nat) returns (walls: seq<int>)
    requires InRange(start, max) && start.logical + n <= max
    ensures |walls| == n && Ticks(start, max, walls) == Reading(start.physical, start.logical + n)
  {
    if n == 0 {
      walls := [];
    } else {
      var init := TicksReach(start, max, n - 1);
      walls := init + [start.physical];
      assert walls[..|walls| - 1] == init;
    }
  }

  /** A clock behind a reading can come to it. */
  lemma {:induction false} CatchesUp(r: Reading, max: nat, target: Reading) returns (walls: seq<int>)
    requires InRange(r, max) && InRange(target, max) && Before(r, target)
    ensures walls != [] && Ticks(r, max, walls) == target
  {
    if r.physical == target.physical {
      walls := TicksReach(r, max, target.logical - r.logical);
    } else {
      var rest := TicksReach(Reading(target.physical, 0), max, target.logical);
      var first := [target.physical];
      assert first[..0] == [];
      assert Ticks(r, max, first) == Reading(target.physical, 0);
      TicksConcat(r, max, first, rest);
      walls := first + rest;
    }
  }

  lemma {:induction false} TicksConcat(r: Reading, max: nat, a: seq<int>, b: seq<int>)
    ensures Ticks(r, max, a + b) == Ticks(Ticks(r, max, a), max, b)
  {
    if b == [] {
      assert a + b == a;
    } else {
      hide Tick;
      TicksConcat(r, max, a, b[..|b| - 1]);
      assert (a + b)[..|a + b| - 1] == a + b[..|b| - 1];
    }
  }

  /** The local events of one clock, the first of them after a restart. */
  function Restarted(name: string, boot: Boot, walls: seq<int>): seq<Step> {
    seq(|walls|, i requires 0 <= i < |walls| => Step(name, walls[i], None, if i == 0 then Some(boot) else None))
  }

  lemma {:induction false} FirstAfterRestart(
    cfg: Config, steps: seq<Step>, stamps: seq<Reading>, name: string, boot: Boot, wall: int)
    returns (last: Reading)
    requires |stamps| == |steps| && IsRun(cfg, steps, stamps) && (boot.seen.Some? ==> boot.seen.value < |steps|)
    ensures IsRun(cfg, steps + [Step(name, wall, None, Some(boot))], stamps + [last])
    ensures last == Tick(Started(boot, cfg.max(name), stamps), cfg.max(name), wall)
  {
    hide Tick, Merge, IsRun;
    last := RunExtends(cfg, steps, stamps, Step(name, wall, None, Some(boot)));
  }

  lemma {:induction false} NextLocal(cfg: Config, steps: seq<Step>, stamps: seq<Reading>, name: string, wall: int)
    returns (last: Reading)
    requires |stamps| == |steps| > 0 && IsRun(cfg, steps, stamps) && steps[|steps| - 1].clock == name
    ensures IsRun(cfg, steps + [Step(name, wall, None, None)], stamps + [last])
    ensures last == Tick(stamps[|stamps| - 1], cfg.max(name), wall)
  {
    hide Tick, Merge, IsRun;
    var step := Step(name, wall, None, None);
    last := RunExtends(cfg, steps, stamps, step);
    assert LatestOn(steps + [step], |steps|, name) == |steps| - 1;
  }

  lemma {:induction false} RestartedRun(
    cfg: Config, steps: seq<Step>, stamps: seq<Reading>, name: string, boot: Boot, walls: seq<int>)
    returns (more: seq<Reading>)
    requires |stamps| == |steps| && IsRun(cfg, steps, stamps) && (boot.seen.Some? ==> boot.seen.value < |steps|)
    requires walls != []
    ensures IsRun(cfg, steps + Restarted(name, boot, walls), stamps + more) && |more| == |walls|
    ensures more[|more| - 1] == Ticks(Started(boot, cfg.max(name), stamps), cfg.max(name), walls)
  {
    hide Tick, IsRun, Started;
    var init, wall, start := walls[..|walls| - 1], walls[|walls| - 1], Started(boot, cfg.max(name), stamps);
    if init == [] {
      var last := FirstAfterRestart(cfg, steps, stamps, name, boot, wall);
      more := [last];
      assert Restarted(name, boot, walls) == [Step(name, wall, None, Some(boot))];
      assert Ticks(start, cfg.max(name), init) == start;
    } else {
      var before := RestartedRun(cfg, steps, stamps, name, boot, init);
      var played := steps + Restarted(name, boot, init);
      var last := NextLocal(cfg, played, stamps + before, name, wall);
      more := before + [last];
      assert Restarted(name, boot, walls) == Restarted(name, boot, init) + [Step(name, wall, None, None)];
      assert steps + Restarted(name, boot, walls) == played + [Step(name, wall, None, None)];
      assert stamps + more == stamps + before + [last];
    }
  }

  /** Events after a restart of the clock `name`, which has the first and the last of them
      and no further restart; other clocks, receipts and their restarts come in between. */
  ghost predicate Continues(more: seq<Step>, name: string, boot: Boot) {
    && more != [] && more[0].clock == name && more[0].boot == Some(boot) && more[|more| - 1].clock == name
    && forall b :: 0 < b < |more| && more[b].clock == name ==> more[b].boot.None?
  }

  /** The run can go on, with a restart of the clock of event `j`, to a second event of
      that clock with the stamp of event `j`. */
  ghost predicate CanRepeat(cfg: Config, steps: seq<Step>, stamps: seq<Reading>, j: nat, boot: Boot)
    requires j < |steps| == |stamps|
  {
    exists more: seq<Step>, moreStamps: seq<Reading> ::
      && Continues(more, steps[j].clock, boot) && |moreStamps| == |more|
      && IsRun(cfg, steps + more, stamps + moreStamps) && moreStamps[|more| - 1] == stamps[j]
  }

  /** A restart can lead to a repetition of a stamp exactly when the clock, after whatever
      it merges, is behind that stamp; so a restart is safe exactly when it is not behind
      the last one. */
  lemma {:induction false} RestartExactly(cfg: Config, steps: seq<Step>, stamps: seq<Reading>, j: nat, boot: Boot)
    requires |stamps| == |steps| && IsRun(cfg, steps, stamps) && j < |steps|
    requires boot.seen.Some? ==> boot.seen.value < |steps|
    ensures CanRepeat(cfg, steps, stamps, j, boot)
       <==> Before(Started(boot, cfg.max(steps[j].clock), stamps), stamps[j])
  {
    if Before(Started(boot, cfg.max(steps[j].clock), stamps), stamps[j]) {
      UnsafeRestartRepeats(cfg, steps, stamps, j, boot);
    }
    if CanRepeat(cfg, steps, stamps, j, boot) {
      hide IsRun, Started;
      var more: seq<Step>, moreStamps: seq<Reading> :|
        && Continues(more, steps[j].clock, boot) && |moreStamps| == |more|
        && IsRun(cfg, steps + more, stamps + moreStamps) && moreStamps[|more| - 1] == stamps[j];
      StampsAfterRestart(cfg, steps, stamps, steps[j].clock, boot, more, moreStamps);
    }
  }

  lemma {:induction false} StartedInRange(
    cfg: Config, steps: seq<Step>, stamps: seq<Reading>, boot: Boot, max: nat)
    requires IsRun(cfg, steps, stamps) && (boot.seen.Some? ==> boot.seen.value < |steps|)
    ensures InRange(Started(boot, max, stamps), max)
  {
    hide Stamp, Merge;
    if boot.seen.Some? {
      StampInRange(cfg, steps, stamps, boot.seen.value);
      MergeAdvances(Reading(boot.start, 0), max, stamps[boot.seen.value], boot.wall);
    }
  }

  lemma {:induction false} UnsafeRestartRepeats(
    cfg: Config, steps: seq<Step>, stamps: seq<Reading>, j: nat, boot: Boot)
    requires |stamps| == |steps| && IsRun(cfg, steps, stamps) && j < |steps|
    requires boot.seen.Some? ==> boot.seen.value < |steps|
    requires Before(Started(boot, cfg.max(steps[j].clock), stamps), stamps[j])
    ensures CanRepeat(cfg, steps, stamps, j, boot)
  {
    hide IsRun, Ticks, Started;
    var name, max := steps[j].clock, cfg.max(steps[j].clock);
    StampInRange(cfg, steps, stamps, j);
    StartedInRange(cfg, steps, stamps, boot, max);
    var walls := CatchesUp(Started(boot, max, stamps), max, stamps[j]);
    var more := RestartedRun(cfg, steps, stamps, name, boot, walls);
    assert Continues(Restarted(name, boot, walls), name, boot);
  }

  /** Every stamp of the clock after a restart is after the reading it started from. */
  lemma {:induction false} StampsAfterRestart(
    cfg: Config, steps: seq<Step>, stamps: seq<Reading>, name: string, boot: Boot,
    more: seq<Step>, moreStamps: seq<Reading>)
    requires |stamps| == |steps| && |moreStamps| == |more| && Continues(more, name, boot)
    requires boot.seen.Some? ==> boot.seen.value < |steps|
    requires IsRun(cfg, steps + more, stamps + moreStamps)
    ensures Before(Started(boot, cfg.max(name), stamps), moreStamps[|more| - 1])
  {
    hide Stamp, Merge;
    var all, allStamps, i := steps + more, stamps + moreStamps, |steps|;
    StampAfterClock(cfg, all, allStamps, i);
    assert ClockBefore(cfg, all, allStamps, i) == Started(boot, cfg.max(name), stamps);
    forall b | i < b <= |all| - 1 && all[b].clock == name ensures all[b].boot.None? {
      assert all[b] == more[b - i];
    }
    NeverFallsBack(cfg, all, allStamps, Started(boot, cfg.max(name), stamps), i, |all| - 1);
  }

  // ---------- the text form ----------

  datatype ParseResult = Parsed(stamp: Timestamp) | Invalid

  function ToString(t: Timestamp): string {
    Print(t.reading.physical) + "-" + Print(t.reading.logical) + "-" + t.nodeId
  }

  /** Node identities may hold dashes, so everything after the second one is the node. */
  function FromString(s: string): ParseResult {
    var parts := Split(s, '-');
    if |parts| < 3 then Invalid
    else
      var physical, logical := ParseInt(parts[0]), ParseInt(parts[1]);
      if physical.None? || logical.None? then Invalid
      else Parsed(Timestamp(Reading(physical.value, logical.value), Join(parts[2..], '-')))
  }

  lemma {:induction false} NumeralHasNoDash(n: nat)
    ensures '-' !in Numeral(n)
  {
    NumeralReads(n);
  }

  lemma {:induction false} PiecesOf(a: string, b: string, node: string)
    requires '-' !in a && '-' !in b
    ensures Split(a + "-" + b + "-" + node, '-') == [a, b] + Split(node, '-')
  {
    assert a + "-" + b + "-" + node == a + ['-'] + (b + ['-'] + node);
    SplitFirst(a, b + ['-'] + node, '-');
    SplitFirst(b, node, '-');
  }

  lemma {:induction false} ReadsBack(t: Timestamp)
    requires t.reading.physical >= 0 && t.reading.logical >= 0
    ensures FromString(ToString(t)) == Parsed(t)
  {
    var a, b := Numeral(t.reading.physical), Numeral(t.reading.logical);
    NumeralHasNoDash(t.reading.physical);
    NumeralHasNoDash(t.reading.logical);
    PiecesOf(a, b, t.nodeId);
    var parts := Split(ToString(t), '-');
    assert parts == [a, b] + Split(t.nodeId, '-');
    assert parts[2..] == Split(t.nodeId, '-');
    ParsePrinted(t.reading.physical);
    ParsePrinted(t.reading.logical);
    JoinSplit(t.nodeId, '-');
  }

  lemma {:induction false} NegativePhysical(t: Timestamp)
    requires t.reading.physical < 0
    ensures FromString(ToString(t)) == Invalid
  {
    var s := ToString(t);
    assert s[0] == '-';
    assert Split(s, '-')[0] == "";
    assert ParseInt("") == None;
  }

  lemma {:induction false} NegativeLogical(t: Timestamp)
    requires t.reading.physical >= 0 && t.reading.logical < 0
    ensures FromString(ToString(t)) == Invalid
  {
    var a, rest := Numeral(t.reading.physical), Print(t.reading.logical) + "-" + t.nodeId;
    NumeralHasNoDash(t.reading.physical);
    assert ToString(t) == a + ['-'] + rest;
    SplitFirst(a, rest, '-');
    assert rest[0] == '-';
    assert Split(rest, '-')[0] == "";
    assert ParseInt("") == None;
  }

  /** Printing a timestamp and parsing it back gives the same timestamp exactly when
      neither of its numbers is negative. */
  lemma {:induction false} RoundTrip(t: Timestamp)
    ensures FromString(ToString(t)) == Parsed(t) <==> t.reading.physical >= 0 && t.reading.logical >= 0
  {
    if t.reading.physical < 0 {
      NegativePhysical(t);
    } else if t.reading.logical < 0 {
      NegativeLogical(t);
    } else {
      ReadsBack(t);
    }
  }

  lemma {:induction false} UnsignedParse(s: string)
    requires '-' !in s && ParseInt(s).Some?
    ensures ParseInt(s).value >= 0
  {
  }

  /** No text reads as a timestamp with a negative number. */
  lemma {:induction false} ParsedIsUnsigned(s: string)
    requires FromString(s).Parsed?
    ensures FromString(s).stamp.reading.physical >= 0 && FromString(s).stamp.reading.logical >= 0
  {
    SplitParts(s, '-');
    UnsignedParse(Split(s, '-')[0]);
    UnsignedParse(Split(s, '-')[1]);
  }
}
